/** The streaming loop detector and its batch reference, as the loops they are written as. */
module LoopDetector {
  import opened Events
  import opened LoopScan
  import opened LoopStreaming
  import opened LoopReports

  method SliceEq(a: seq<string>, b: seq<string>) returns (eq: bool)
    ensures eq <==> a == b
  {
    if |a| != |b| {
      return false;
    }
    for i := 0 to |a|
      invariant a[..i] == b[..i]
    {
      if a[i] != b[i] {
        return false;
      }
    }
    return true;
  }

  /** Counts how often the block `t[i..i+len]` occurs in a row from `i` on. */
  method CountReps(t: seq<string>, i: nat, len: nat) returns (reps: nat)
    requires 0 < len && i + len <= |t|
    ensures reps == Reps(t, i, len)
  {
    var window := t[i..i + len];
    reps := 1;
    var j := i + len;
    while j + len <= |t|
      invariant i + len <= j <= |t|
      invariant reps + Copies(t, window, j) == Reps(t, i, len)
      decreases |t| - j
    {
      var same := SliceEq(t[j..j + len], window);
      if !same {
        break;
      }
      reps := reps + 1;
      j := j + len;
    }
  }

  /** Adds the positions of a recorded span. */
  method Mark(reported: set<int>, x: Span, ghost spans: seq<Span>) returns (marked: set<int>)
    requires forall p :: p in reported <==> Covered(spans, p)
    ensures forall p :: p in marked <==> Covered(spans + [x], p)
  {
    marked := reported;
    var pos := x.start;
    while pos < x.End()
      invariant x.start <= pos <= x.End()
      invariant forall p :: p in marked <==> (p in reported || x.start <= p < pos)
    {
      marked := marked + {pos};
      pos := pos + 1;
    }
    forall p ensures p in marked <==> Covered(spans + [x], p) {
      CoveredConcat(spans, [x], p);
      CoveredOne(x, p);
    }
  }

  // ---------------------------------------------------------------- the batch reference

  /** The positions reported so far are those of `spans`, each of which has its detection. */
  ghost predicate BatchProgress(c: Config, calls: seq<Call>, detections: seq<Detection>, reported: set<int>,
                                spans: seq<Span>) {
    && AllFit(c, |calls|, spans) && detections == LoopStreaming.Report(c, calls, spans)
    && forall p :: p in reported <==> Covered(spans, p)
  }

  /** The batch reference over the tool calls of a session. */
  method Detect(c: Config, events: seq<Event>) returns (detections: seq<Detection>)
    requires c.Valid()
    ensures detections == LoopStreaming.Report(c, CallsOf(events), Spans(c, CallsOf(events)))
    ensures forall d <- detections :: Detects(c, CallsOf(events), d)
  {
    hide Detects;
    detections := [];
    var calls := CallsOf(events);
    DetectionSays(c, calls);
    var sigs := Names(calls);
    var n := |sigs|;
    if n < c.minLen * c.minReps {
      BlocksIsProduct(c.minLen, c.minReps);
      return;
    }
    var reported: set<int> := {};
    var seqLen := c.minLen;
    ghost var spans: seq<Span> := [];
    while seqLen <= n / c.minReps
      invariant c.minLen <= seqLen && BatchProgress(c, calls, detections, reported, spans)
      invariant ScanFrom(sigs, seqLen, c.minReps, spans) == Spans(c, calls)
    {
      QuotientIff(n, seqLen, c.minReps);
      detections, reported, spans := DetectLengthBatch(c, calls, seqLen, detections, reported, spans);
      seqLen := seqLen + 1;
    }
    QuotientIff(n, seqLen, c.minReps);
  }

  method DetectLengthBatch(c: Config, calls: seq<Call>, seqLen: nat, found: seq<Detection>, before: set<int>,
                           ghost prev: seq<Span>)
    returns (detections: seq<Detection>, reported: set<int>, ghost spans: seq<Span>)
    requires c.Valid() && 0 < seqLen && BatchProgress(c, calls, found, before, prev)
    ensures BatchProgress(c, calls, detections, reported, spans)
    ensures spans == prev + Pass(Names(calls), seqLen, c.minReps, 0, prev)
  {
    hide Covered, Reps;
    detections, reported, spans := found, before, prev;
    var sigs, n := Names(calls), |calls|;
    BlocksIsProduct(seqLen, c.minReps);
    BlocksAtLeast(seqLen, c.minReps);
    var i := 0;
    while i + seqLen * c.minReps <= n
      invariant 0 <= i && BatchProgress(c, calls, detections, reported, spans)
      invariant SameCoverFrom(spans, prev, i)
      invariant spans + Pass(sigs, seqLen, c.minReps, i, prev) == prev + Pass(sigs, seqLen, c.minReps, 0, prev)
      decreases n - i
    {
      if i in reported {
        i := i + 1;
      } else {
        var reps := CountReps(sigs, i, seqLen);
        if reps >= c.minReps {
          var x := Span(i, seqLen, reps);
          PassRecords(sigs, c.minReps, x, prev, spans);
          CountedSpanFits(c, sigs, x);
          detections := detections + [ToDetection(c, calls, x)];
          reported := Mark(reported, x, spans);
          assert LoopStreaming.Report(c, calls, spans + [x])
            == LoopStreaming.Report(c, calls, spans) + [ToDetection(c, calls, x)];
          spans := spans + [x];
          i := x.End();
        } else {
          i := i + 1;
        }
      }
    }
  }

  // ---------------------------------------------------------------- the streaming detector

  /** What one session has accumulated. */
  class LoopSession {
    var toolNames: seq<string>
    var eventIds: seq<string>
    var times: seq<int>
    var emittedStartIds: set<string>

    ghost predicate Valid() reads this { |toolNames| == |eventIds| == |times| }

    ghost function Calls(): seq<Call>
      requires Valid()
      reads this
    {
      seq(|toolNames|,
          i requires 0 <= i < |toolNames| && Valid() reads this => Call(toolNames[i], eventIds[i], times[i]))
    }

    ghost function State(): State
      requires Valid()
      reads this
    {
      LoopStreaming.State(Calls(), emittedStartIds)
    }

    constructor ()
      ensures Valid() && State() == INITIAL
    {
      toolNames, eventIds, times, emittedStartIds := [], [], [], {};
    }

    /** Appends the call and drops calls older than the window. */
    method Append(c: Config, x: Call)
      requires Valid()
      modifies this
      ensures Valid() && emittedStartIds == old(emittedStartIds)
      ensures Calls() == LoopStreaming.Append(c, old(Calls()), x)
    {
      toolNames, eventIds, times := toolNames + [x.tool], eventIds + [x.id], times + [x.time];
      ghost var all := old(Calls()) + [x];
      assert Calls() == all;
      if c.windowNanos > 0 {
        var cutoff := x.time - c.windowNanos;
        var first := 0;
        while first < |times| && times[first] < cutoff
          invariant first <= |times|
          invariant DropOld(all[first..], cutoff) == DropOld(all, cutoff)
        {
          assert all[first..][1..] == all[first + 1..];
          first := first + 1;
        }
        if first > 0 {
          toolNames, eventIds, times := toolNames[first..], eventIds[first..], times[first..];
        }
        assert Calls() == all[first..];
      }
    }

    /** Appends a tool call and reports the loops it completes. */
    method Observe(config: Config, event: Event) returns (findings: seq<Finding>)
      requires config.Valid() && Valid() && event.IsToolCall()
      modifies this
      ensures Valid() && (State(), findings) == Step(config, old(State()), event)
    {
      Append(config, ToCall(event));
      findings := DetectLoops(config, event);
    }

    /** Runs the search for every block length that can still repeat often enough, reporting
        as it goes; `reported` holds the positions of the loops found so far. */
    method DetectLoops(config: Config, event: Event) returns (findings: seq<Finding>)
      requires config.Valid() && Valid()
      modifies this`emittedStartIds
      ensures Valid() && Calls() == old(Calls())
      ensures (findings, emittedStartIds) == Emit(config, event, old(State()), Spans(config, old(Calls())))
    {
      findings := [];
      ghost var s0 := State();
      assert Names(s0.calls) == toolNames;
      var n := |toolNames|;
      if n < config.minLen * config.minReps {
        BlocksIsProduct(config.minLen, config.minReps);
        return;
      }
      var reported: set<int> := {};
      var maxLen := n / config.minReps;
      var seqLen := config.minLen;
      ghost var spans: seq<Span> := [];
      while seqLen <= maxLen
        invariant config.minLen <= seqLen && Progress(config, event, s0, findings, reported, spans)
        invariant ScanFrom(toolNames, seqLen, config.minReps, spans) == Spans(config, s0.calls)
      {
        QuotientIff(n, seqLen, config.minReps);
        findings, reported, spans := DetectLength(config, event, seqLen, findings, reported, s0, spans);
        seqLen := seqLen + 1;
      }
      QuotientIff(n, seqLen, config.minReps);
    }

    /** The findings so far are those of `spans`, whose positions are the reported ones. */
    ghost predicate Progress(config: Config, event: Event, s0: State, findings: seq<Finding>, reported: set<int>,
                             spans: seq<Span>)
      reads this
    {
      && Valid() && Calls() == s0.calls && AllFit(config, |s0.calls|, spans)
      && (findings, emittedStartIds) == Emit(config, event, s0, spans)
      && forall p :: p in reported <==> Covered(spans, p)
    }

    /** Reports a loop unless one with the same first event was reported before. */
    method Report(config: Config, event: Event, x: Span, found: seq<Finding>, ghost s0: State, ghost spans: seq<Span>)
      returns (findings: seq<Finding>)
      requires Valid() && Calls() == s0.calls && AllFit(config, |s0.calls|, spans) && Fits(config, x, |s0.calls|)
      requires (found, emittedStartIds) == Emit(config, event, s0, spans)
      modifies this`emittedStartIds
      ensures Valid() && Calls() == s0.calls && AllFit(config, |s0.calls|, spans + [x])
      ensures (findings, emittedStartIds) == Emit(config, event, s0, spans + [x])
    {
      findings := found;
      assert (spans + [x])[..|spans + [x]| - 1] == spans;
      var startKey := eventIds[x.start];
      if startKey !in emittedStartIds {
        emittedStartIds := emittedStartIds + {startKey};
        var extra := x.reps - config.minReps;
        var confidence := Round2(Min(0.5 + extra as real * 0.1, 1.0));
        assert Ids(s0.calls[x.start..x.End()]) == eventIds[x.start..x.End()];
        assert Names(s0.calls[x.start..x.start + x.len]) == toolNames[x.start..x.start + x.len];
        findings := findings + [
          Finding(LoopId(event.sessionId, |emittedStartIds|), event.sessionId, event.agentId, event.tenantId,
                  event.timestamp, Warning, confidence, eventIds[x.start..x.End()],
                  LoopEvidence(toolNames[x.start..x.start + x.len], x.reps, x.start))];
      }
    }

    /** Reports a counted loop and marks its positions. */
    method Record(config: Config, event: Event, x: Span, found: seq<Finding>, before: set<int>,
                  ghost s0: State, ghost spans: seq<Span>)
      returns (findings: seq<Finding>, reported: set<int>)
      requires Progress(config, event, s0, found, before, spans)
      requires 0 < x.len && x.start + x.len <= |toolNames|
        && 0 < config.minReps <= x.reps == Reps(toolNames, x.start, x.len)
      modifies this`emittedStartIds
      ensures Progress(config, event, s0, findings, reported, spans + [x])
    {
      CountedSpanFits(config, toolNames, x);
      findings := Report(config, event, x, found, s0, spans);
      reported := Mark(before, x, spans);
    }

    /** The search for blocks of one length. */
    method DetectLength(config: Config, event: Event, seqLen: nat, found: seq<Finding>, before: set<int>,
                        ghost s0: State, ghost prev: seq<Span>)
      returns (findings: seq<Finding>, reported: set<int>, ghost spans: seq<Span>)
      requires config.Valid() && 0 < seqLen && Progress(config, event, s0, found, before, prev)
      modifies this`emittedStartIds
      ensures Progress(config, event, s0, findings, reported, spans)
      ensures spans == prev + Pass(toolNames, seqLen, config.minReps, 0, prev)
    {
      hide Emit, Covered, Reps;
      findings, reported, spans := found, before, prev;
      var n, minReps := |toolNames|, config.minReps;
      BlocksIsProduct(seqLen, minReps);
      BlocksAtLeast(seqLen, minReps);
      var i := 0;
      while i + seqLen * minReps <= n
        invariant 0 <= i && Progress(config, event, s0, findings, reported, spans)
        invariant SameCoverFrom(spans, prev, i)
        invariant spans + Pass(toolNames, seqLen, minReps, i, prev) == prev + Pass(toolNames, seqLen, minReps, 0, prev)
        decreases n - i
      {
        if i in reported {
          i := i + 1;
        } else {
          var reps := CountReps(toolNames, i, seqLen);
          if reps >= minReps {
            var x := Span(i, seqLen, reps);
            PassRecords(toolNames, minReps, x, prev, spans);
            findings, reported := Record(config, event, x, findings, reported, s0, spans);
            spans := spans + [x];
            i := x.End();
          } else {
            i := i + 1;
          }
        }
      }
    }
  }

  lemma CountedSpanFits(c: Config, t: seq<string>, x: Span)
    requires 0 < x.len && x.start + x.len <= |t| && 0 < c.minReps <= x.reps == Reps(t, x.start, x.len)
    ensures Fits(c, x, |t|)
  {
    RepsIffRepeats(t, x.start, x.len, x.reps);
    BlocksAtLeast(x.len, x.reps);
  }

  ghost predicate SameCoverFrom(a: seq<Span>, b: seq<Span>, i: nat) {
    forall p :: p >= i ==> (Covered(a, p) <==> Covered(b, p))
  }

  /** Recording `x` is what the pass does when it reaches `x.start` uncovered. */
  lemma {:induction false} PassRecords(t: seq<string>, minReps: nat, x: Span, prev: seq<Span>, spans: seq<Span>)
    requires 0 < x.len && 0 < minReps && x.start + x.len <= |t| && x.start + Blocks(x.len, minReps) <= |t|
    requires x.reps == Reps(t, x.start, x.len) >= minReps && !Covered(prev, x.start)
    requires SameCoverFrom(spans, prev, x.start)
    ensures SameCoverFrom(spans + [x], prev, x.End()) && x.start < x.End()
    ensures spans + Pass(t, x.len, minReps, x.start, prev) == spans + [x] + Pass(t, x.len, minReps, x.End(), prev)
  {
    hide Pass, Covered, Reps, SameCoverFrom, Blocks;
    PassAtLoop(t, x.len, minReps, x.start, x.reps, prev);
    SameCoverAfter(x, prev, spans);
    var rest := Pass(t, x.len, minReps, x.End(), prev);
    assert spans + ([x] + rest) == (spans + [x]) + rest;
  }

  lemma SameCoverAfter(x: Span, prev: seq<Span>, spans: seq<Span>)
    requires SameCoverFrom(spans, prev, x.start)
    ensures SameCoverFrom(spans + [x], prev, x.End())
  {
    forall p | p >= x.End() ensures Covered(spans + [x], p) <==> Covered(prev, p) {
      CoveredConcat(spans, [x], p);
      CoveredOne(x, p);
    }
  }

  /** The streaming detector: one `LoopSession` per session seen. */
  class LoopDetector {
    const config: Config
    var sessions: map<string, LoopSession>

    ghost function Repr(): set<object> reads this { {this} + sessions.Values }

    /** Sessions do not share state. */
    ghost predicate Valid()
      reads this, sessions.Values
    {
      && config.Valid()
      && (forall j, k :: j in sessions && k in sessions && j != k ==> sessions[j] != sessions[k])
      && (forall k :: k in sessions ==> sessions[k].Valid())
    }

    ghost function States(): map<string, State>
      requires Valid()
      reads this, sessions.Values
    {
      map k | k in sessions :: sessions[k].State()
    }

    constructor (threshold: int, windowSeconds: int, minSeqLen: int)
      ensures Valid() && States() == map[] && fresh(Repr())
      ensures config.minReps == if threshold <= 0 then 3 else threshold
      ensures config.minLen == if minSeqLen <= 0 then 2 else minSeqLen
      ensures config.windowNanos == if windowSeconds > 0 then windowSeconds * 1_000_000_000 else 0
    {
      config := Config(if minSeqLen <= 0 then 2 else minSeqLen, if threshold <= 0 then 3 else threshold,
                       if windowSeconds > 0 then windowSeconds * 1_000_000_000 else 0);
      sessions := map[];
    }

    method Reset()
      requires Valid()
      modifies this
      ensures Valid() && States() == map[]
    {
      sessions := map[];
    }

    /** Only the event's own session moves on, and the findings come from it alone. */
    method Analyze(event: Event) returns (findings: seq<Finding>)
      requires Valid()
      modifies Repr()
      ensures Valid() && fresh(Repr() - old(Repr()))
      ensures (States(), findings) == Feed(config, old(States()), event)
    {
      hide Step;
      findings := [];
      if event.IsToolCall() {
        if event.sessionId !in sessions {
          var created := new LoopSession();
          sessions := sessions[event.sessionId := created];
        }
        assert sessions[event.sessionId].State() == Get(old(States()), event.sessionId);
        findings := sessions[event.sessionId].Observe(config, event);
        assert States() == old(States())[event.sessionId := sessions[event.sessionId].State()];
      }
    }
  }
}
