/** What the streaming loop detector does to one session, event by event, and how that
    compares with the batch reference run over the whole session
    (internal/analyzer/detectors/loop.go, archive/.../detectors/loop_detector.py). */
module LoopStreaming {
  import opened Events
  import opened LoopScan

  /** `windowNanos` is zero when there is no time window. */
  datatype Config = Config(minLen: nat, minReps: nat, windowNanos: nat) {
    predicate Valid() { 0 < minLen && 0 < minReps }
  }

  datatype Call = Call(tool: string, id: string, time: int)

  /** The calls a session retains, and the start events of the loops already reported. */
  datatype State = State(calls: seq<Call>, emitted: set<string>)

  const INITIAL := State([], {})

  function Names(calls: seq<Call>): seq<string> {
    seq(|calls|, i requires 0 <= i < |calls| => calls[i].tool)
  }

  function Ids(calls: seq<Call>): seq<string> {
    seq(|calls|, i requires 0 <= i < |calls| => calls[i].id)
  }

  function ToCall(e: Event): Call
    requires e.IsToolCall()
  {
    Call(e.toolCall.value.toolName, e.id, e.timestamp)
  }

  /** The tool calls among a session's events. */
  function CallsOf(es: seq<Event>): seq<Call> {
    if es == [] then []
    else CallsOf(es[..|es| - 1]) + if es[|es| - 1].IsToolCall() then [ToCall(es[|es| - 1])] else []
  }

  /** The calls left once those made before the cutoff are dropped from the front. */
  function DropOld(calls: seq<Call>, cutoff: int): seq<Call> {
    if calls != [] && calls[0].time < cutoff then DropOld(calls[1..], cutoff) else calls
  }

  /** The retained calls once `x` is appended and the time window is trimmed. */
  function Append(c: Config, calls: seq<Call>, x: Call): seq<Call> {
    if c.windowNanos > 0 then DropOld(calls + [x], x.time - c.windowNanos) else calls + [x]
  }

  function Confidence(c: Config, reps: nat): real
    requires c.minReps <= reps
  {
    Round2(Min(0.5 + (reps - c.minReps) as real * 0.1, 1.0))
  }

  predicate Fits(c: Config, x: Span, n: nat) {
    x.start + x.len <= n && x.start < x.End() <= n && c.minReps <= x.reps
  }

  /** The spans lie inside a sequence of `n` calls and repeat often enough. */
  ghost predicate AllFit(c: Config, n: nat, spans: seq<Span>) {
    forall x <- spans :: Fits(c, x, n)
  }

  function ToFinding(c: Config, e: Event, calls: seq<Call>, x: Span, number: nat): Finding
    requires Fits(c, x, |calls|)
  {
    Finding(LoopId(e.sessionId, number), e.sessionId, e.agentId, e.tenantId, e.timestamp,
            Warning, Confidence(c, x.reps), Ids(calls[x.start..x.End()]),
            LoopEvidence(Names(calls[x.start..x.start + x.len]), x.reps, x.start))
  }

  /** Spans are reported in order, each unless its first event was reported before. */
  ghost function Emit(c: Config, e: Event, s: State, spans: seq<Span>): (r: (seq<Finding>, set<string>))
    requires AllFit(c, |s.calls|, spans)
  {
    if spans == [] then ([], s.emitted)
    else
      var last := spans[|spans| - 1];
      assert last in spans;
      var (findings, emitted) := Emit(c, e, s, spans[..|spans| - 1]);
      EmitOne(c, e, s.calls, last, findings, emitted)
  }

  function EmitOne(c: Config, e: Event, calls: seq<Call>, x: Span, findings: seq<Finding>, emitted: set<string>)
    : (seq<Finding>, set<string>)
    requires Fits(c, x, |calls|)
  {
    var startId := calls[x.start].id;
    if startId in emitted then (findings, emitted)
    else (findings + [ToFinding(c, e, calls, x, |emitted + {startId}|)], emitted + {startId})
  }

  ghost function Spans(c: Config, calls: seq<Call>): (r: seq<Span>)
    requires c.Valid()
    ensures AllFit(c, |calls|, r)
  {
    ScanFits(c, Names(calls));
    Scan(Names(calls), c.minLen, c.minReps)
  }

  lemma ScanFits(c: Config, t: seq<string>)
    requires c.Valid()
    ensures AllFit(c, |t|, Scan(t, c.minLen, c.minReps))
  {
    ScanSoundAndMaximal(t, c.minLen, c.minReps);
    forall x | x in Scan(t, c.minLen, c.minReps) ensures Fits(c, x, |t|) {
      BlocksAtLeast(x.len, x.reps);
    }
  }

  /** One event: anything but a tool call leaves the session as it is. */
  ghost function Step(c: Config, s: State, e: Event): (State, seq<Finding>)
    requires c.Valid()
  {
    if !e.IsToolCall() then (s, [])
    else
      var s' := State(Append(c, s.calls, ToCall(e)), s.emitted);
      var (findings, emitted) := Emit(c, e, s', Spans(c, s'.calls));
      (State(s'.calls, emitted), findings)
  }

  lemma StepIgnores(c: Config, s: State, e: Event)
    requires c.Valid()
    ensures !e.IsToolCall() ==> Step(c, s, e) == (s, [])
  {
  }

  ghost function Run(c: Config, es: seq<Event>): (State, seq<Finding>)
    requires c.Valid()
  {
    if es == [] then (INITIAL, [])
    else
      var (s, fs) := Run(c, es[..|es| - 1]);
      var (s', gs) := Step(c, s, es[|es| - 1]);
      (s', fs + gs)
  }

  lemma RunSnoc(c: Config, es: seq<Event>, e: Event)
    requires c.Valid()
    ensures Run(c, es + [e]).0 == Step(c, Run(c, es).0, e).0
    ensures Run(c, es + [e]).1 == Run(c, es).1 + Step(c, Run(c, es).0, e).1
  {
    assert (es + [e])[..|es + [e]| - 1] == es;
  }

  // ---------------------------------------------------------------- many sessions

  function Get(m: map<string, State>, session: string): State {
    if session in m then m[session] else INITIAL
  }

  /** The detector over all sessions: a tool call goes to its own session's state. */
  ghost function Feed(c: Config, m: map<string, State>, e: Event): (map<string, State>, seq<Finding>)
    requires c.Valid()
  {
    if !e.IsToolCall() then (m, [])
    else
      var (s, fs) := Step(c, Get(m, e.sessionId), e);
      (m[e.sessionId := s], fs)
  }

  /** What the batch reference reports for one loop of a session. */
  datatype Detection = Detection(confidence: real, eventIds: seq<string>, tools: seq<string>, reps: nat, position: nat)

  function ToDetection(c: Config, calls: seq<Call>, x: Span): Detection
    requires Fits(c, x, |calls|)
  {
    Detection(Confidence(c, x.reps), Ids(calls[x.start..x.End()]), Names(calls[x.start..x.start + x.len]), x.reps,
              x.start)
  }

  /** The batch reference reports every scanned span, in order. */
  ghost function Report(c: Config, calls: seq<Call>, spans: seq<Span>): seq<Detection>
    requires AllFit(c, |calls|, spans)
  {
    seq(|spans|, i requires 0 <= i < |spans| => ToDetection(c, calls, spans[i]))
  }

  // ---------------------------------------------------------------- what one event emits

  ghost function StartIds(calls: seq<Call>, spans: seq<Span>): set<string>
    requires forall x <- spans :: x.start < |calls|
  {
    set x <- spans :: calls[x.start].id
  }

  /** After an event every span's first event counts as reported. */
  lemma {:induction false} EmitMarksAll(c: Config, e: Event, s: State, spans: seq<Span>)
    requires AllFit(c, |s.calls|, spans)
    ensures Emit(c, e, s, spans).1 == s.emitted + StartIds(s.calls, spans)
  {
    if spans != [] {
      var init, last := spans[..|spans| - 1], spans[|spans| - 1];
      EmitMarksAll(c, e, s, init);
      assert spans == init + [last];
      assert forall x :: x in spans <==> x in init || x == last;
      assert StartIds(s.calls, spans) == StartIds(s.calls, init) + {s.calls[last.start].id};
    }
  }

  /** Findings of one event are numbered on from the count of those already reported; each has
      its own start event, which was not reported before. */
  lemma {:induction false} EmitNumbers(c: Config, e: Event, s: State, spans: seq<Span>)
    requires AllFit(c, |s.calls|, spans)
    ensures var (fs, emitted) := Emit(c, e, s, spans);
      && s.emitted <= emitted && |emitted| == |s.emitted| + |fs|
      && (forall k :: 0 <= k < |fs| ==> fs[k].id == LoopId(e.sessionId, |s.emitted| + k + 1))
      && (forall k :: 0 <= k < |fs| ==>
            fs[k].eventIds != [] && fs[k].eventIds[0] in emitted && fs[k].eventIds[0] !in s.emitted)
      && (forall j, k :: 0 <= j < k < |fs| ==> fs[j].eventIds[0] != fs[k].eventIds[0])
  {
    if spans != [] {
      EmitNumbers(c, e, s, spans[..|spans| - 1]);
      assert spans[|spans| - 1] in spans;
    }
  }

  /** Each finding renders a scanned span whose start event was not reported before. */
  lemma {:induction false} FindingSource(c: Config, e: Event, s: State, spans: seq<Span>, f: Finding)
    returns (x: Span, number: nat)
    requires AllFit(c, |s.calls|, spans) && f in Emit(c, e, s, spans).0
    ensures x in spans && Fits(c, x, |s.calls|)
    ensures s.calls[x.start].id !in s.emitted && f == ToFinding(c, e, s.calls, x, number)
  {
    var init := spans[..|spans| - 1];
    if f in Emit(c, e, s, init).0 {
      x, number := FindingSource(c, e, s, init, f);
    } else {
      x, number := spans[|spans| - 1], |Emit(c, e, s, spans).1|;
      EmitMarksAll(c, e, s, init);
    }
  }

  // ---------------------------------------------------------------- whole streams

  /** A session's findings are numbered 1, 2, 3, ... and each has its own start event:
      there are exactly as many findings as distinct start events reported. */
  lemma {:induction false} FindingsNumberedAndUnique(c: Config, es: seq<Event>)
    requires c.Valid()
    ensures var (s, fs) := Run(c, es);
      && |fs| == |s.emitted|
      && (forall k :: 0 <= k < |fs| ==> fs[k].id.LoopId? && fs[k].id.number == k + 1)
      && (forall k :: 0 <= k < |fs| ==> fs[k].eventIds != [] && fs[k].eventIds[0] in s.emitted)
      && (forall j, k :: 0 <= j < k < |fs| ==> fs[j].eventIds[0] != fs[k].eventIds[0])
  {
    if es != [] {
      var init, e := es[..|es| - 1], es[|es| - 1];
      FindingsNumberedAndUnique(c, init);
      var s := Run(c, init).0;
      if e.IsToolCall() {
        var s1 := State(Append(c, s.calls, ToCall(e)), s.emitted);
        EmitNumbers(c, e, s1, Spans(c, s1.calls));
      }
    }
  }

  // ---------------------------------------------------------------- streaming against batch

  /** No call is ever trimmed: there is no window, or all calls are within it of the first. */
  ghost predicate NothingExpires(c: Config, calls: seq<Call>) {
    c.windowNanos == 0 || forall x <- calls :: calls[0].time >= x.time - c.windowNanos
  }

  lemma {:induction false} AllKept(c: Config, es: seq<Event>)
    requires c.Valid() && NothingExpires(c, CallsOf(es))
    ensures Run(c, es).0.calls == CallsOf(es)
    ensures es != [] ==> NothingExpires(c, CallsOf(es[..|es| - 1]))
  {
    if es != [] {
      var init, e, all := es[..|es| - 1], es[|es| - 1], CallsOf(es);
      assert CallsOf(init) <= all;
      forall x | x in CallsOf(init) ensures x in all && all[0] == CallsOf(init)[0] {
      }
      AllKept(c, init);
      if e.IsToolCall() {
        assert ToCall(e) in all;
      }
    }
  }

  /** Scanning one more call keeps every start already reported. */
  lemma StartIdsGrow(c: Config, calls: seq<Call>, x: Call)
    requires c.Valid()
    ensures StartIds(calls, Spans(c, calls)) <= StartIds(calls + [x], Spans(c, calls + [x]))
  {
    assert Names(calls + [x]) == Names(calls) + [x.tool];
    ScanStable(Names(calls), x.tool, c.minLen, c.minReps);
    var A, B := Spans(c, calls), Spans(c, calls + [x]);
    forall y | y in A ensures calls[y.start].id in StartIds(calls + [x], B) {
      assert (y.start, y.len) in Keys(A);
      var z :| z in B && (z.start, z.len) == (y.start, y.len);
      assert (calls + [x])[z.start] == calls[y.start];
    }
  }

  /** Streaming agrees with batch: as long as no call has left the time window, the start events
      reported after any stream are exactly those of the loops the batch reference finds in the
      whole stream. */
  lemma {:induction false} StreamingEqualsBatch(c: Config, es: seq<Event>)
    requires c.Valid() && NothingExpires(c, CallsOf(es))
    ensures Run(c, es).0.emitted == StartIds(CallsOf(es), Spans(c, CallsOf(es)))
  {
    if es == [] {
      BlocksAtLeast(c.minLen, c.minReps);
      assert Spans(c, []) == [];
    } else {
      var init, e := es[..|es| - 1], es[|es| - 1];
      AllKept(c, es);
      AllKept(c, init);
      StreamingEqualsBatch(c, init);
      if e.IsToolCall() {
        EmitMarksAll(c, e, State(CallsOf(es), Run(c, init).0.emitted), Spans(c, CallsOf(es)));
        StartIdsGrow(c, CallsOf(init), ToCall(e));
      }
    }
  }

  /** A scanned span whose start event is new ends at the newest call. */
  lemma NewSpanEndsNow(c: Config, es: seq<Event>, x: Call, y: Span)
    requires c.Valid() && NothingExpires(c, CallsOf(es))
    requires y in Spans(c, CallsOf(es) + [x]) && (CallsOf(es) + [x])[y.start].id !in Run(c, es).0.emitted
    ensures y.reps == c.minReps && y.End() == |CallsOf(es)| + 1
  {
    var calls := CallsOf(es);
    StreamingEqualsBatch(c, es);
    assert Names(calls + [x]) == Names(calls) + [x.tool];
    ScanStable(Names(calls), x.tool, c.minLen, c.minReps);
    if (y.start, y.len) in Keys(Spans(c, calls)) {
      assert false;
    }
  }

  /** While no call leaves the window a loop is reported the moment its `minReps`-th block is
      complete: every finding has exactly `minReps` repetitions, its events are the latest ones,
      and its confidence is 0.5, so the term that raises confidence with further repetitions
      never takes effect. */
  lemma FoundAtThreshold(c: Config, es: seq<Event>, e: Event, f: Finding)
    requires c.Valid() && NothingExpires(c, CallsOf(es + [e]))
    requires f in Step(c, Run(c, es).0, e).1
    ensures f.evidence.LoopEvidence? && f.evidence.reps == c.minReps && f.confidence == 0.5
    ensures f.evidence.position < |CallsOf(es + [e])|
    ensures f.eventIds == Ids(CallsOf(es + [e])[f.evidence.position..])
  {
    hide Run, Step, NothingExpires, CallsOf, Ids;
    var x, number := NewFinding(c, es, e, f);
    var all := CallsOf(es + [e]);
    assert all[x.start..x.End()] == all[x.start..];
    assert Confidence(c, c.minReps) == 0.5;
  }

  lemma NewFinding(c: Config, es: seq<Event>, e: Event, f: Finding) returns (x: Span, number: nat)
    requires c.Valid() && NothingExpires(c, CallsOf(es + [e]))
    requires f in Step(c, Run(c, es).0, e).1
    ensures Fits(c, x, |CallsOf(es + [e])|) && f == ToFinding(c, e, CallsOf(es + [e]), x, number)
    ensures x.reps == c.minReps && x.End() == |CallsOf(es + [e])|
  {
    assert (es + [e])[..|es + [e]| - 1] == es;
    AllKept(c, es + [e]);
    AllKept(c, es);
    var calls := CallsOf(es) + [ToCall(e)];
    x, number := FindingSource(c, e, State(calls, Run(c, es).0.emitted), Spans(c, calls), f);
    NewSpanEndsNow(c, es, ToCall(e), x);
  }

  // ---------------------------------------------------------------- the time window

  ghost predicate Nondecreasing(calls: seq<Call>) {
    forall i, j :: 0 <= i < j < |calls| ==> calls[i].time <= calls[j].time
  }

  /** The calls made in the last `windowNanos` before the newest one. */
  function InWindow(c: Config, calls: seq<Call>): seq<Call> {
    if calls == [] then [] else DropOld(calls, calls[|calls| - 1].time - c.windowNanos)
  }

  /** With a window and nondecreasing timestamps the retained calls are exactly those of the
      last `windowNanos`. */
  lemma {:induction false} WindowIsExact(c: Config, es: seq<Event>)
    requires c.Valid() && 0 < c.windowNanos && Nondecreasing(CallsOf(es))
    ensures Run(c, es).0.calls == InWindow(c, CallsOf(es))
    ensures forall x :: x in InWindow(c, CallsOf(es)) <==> Recent(c, CallsOf(es), x)
  {
    RetainedIsWindow(c, es);
    if CallsOf(es) != [] {
      DropOldMembers(CallsOf(es), CallsOf(es)[|CallsOf(es)| - 1].time - c.windowNanos);
    }
  }

  /** `x` is one of the calls and was made within the window before the newest of them. */
  ghost predicate Recent(c: Config, calls: seq<Call>, x: Call) {
    x in calls && x.time >= calls[|calls| - 1].time - c.windowNanos
  }

  lemma {:induction false} RetainedIsWindow(c: Config, es: seq<Event>)
    requires c.Valid() && 0 < c.windowNanos && Nondecreasing(CallsOf(es))
    ensures Run(c, es).0.calls == InWindow(c, CallsOf(es))
  {
    hide Emit, Spans;
    if es != [] {
      var e, before := es[|es| - 1], CallsOf(es[..|es| - 1]);
      assert before <= CallsOf(es);
      RetainedIsWindow(c, es[..|es| - 1]);
      if !e.IsToolCall() {
        assert CallsOf(es) == before;
      } else {
        var x := ToCall(e);
        assert CallsOf(es) == before + [x] && CallsOf(es)[|before|] == x;
        if before != [] {
          var newest := before[|before| - 1];
          assert CallsOf(es)[|before| - 1] == newest;
          DropOldTwice(before, x, newest.time - c.windowNanos, x.time - c.windowNanos);
        }
      }
    }
  }

  lemma {:induction false} DropOldTwice(calls: seq<Call>, x: Call, cutoff: int, later: int)
    requires cutoff <= later
    ensures DropOld(DropOld(calls, cutoff) + [x], later) == DropOld(calls + [x], later)
  {
    if calls != [] && calls[0].time < cutoff {
      DropOldTwice(calls[1..], x, cutoff, later);
      assert (calls + [x])[1..] == calls[1..] + [x];
    }
  }

  lemma {:induction false} DropOldMembers(calls: seq<Call>, cutoff: int)
    requires Nondecreasing(calls)
    ensures forall x :: x in DropOld(calls, cutoff) <==> x in calls && x.time >= cutoff
  {
    if calls != [] && calls[0].time < cutoff {
      DropOldMembers(calls[1..], cutoff);
      assert calls == [calls[0]] + calls[1..];
    }
  }

  /** No loop escapes: after any stream, wherever a block of length at least `minLen` occurs
      `minReps` times in a row in the retained calls, its first call lies in a scanned loop
      whose start event has been reported. */
  lemma {:induction false} NoLoopEscapes(c: Config, es: seq<Event>, block: nat, p: nat)
    requires c.Valid() && c.minLen <= block && Repeats(Names(Run(c, es).0.calls), p, block, c.minReps)
    ensures var s := Run(c, es).0;
      exists x <- Spans(c, s.calls) :: x.start <= p < x.End() && s.calls[x.start].id in s.emitted
  {
    BlocksAtLeast(block, c.minReps);
    var init, e := es[..|es| - 1], es[|es| - 1];
    if !e.IsToolCall() {
      NoLoopEscapes(c, init, block, p);
    } else {
      var s0, s := Run(c, init).0, Run(c, es).0;
      EmitMarksAll(c, e, State(s.calls, s0.emitted), Spans(c, s.calls));
      ScanComplete(Names(s.calls), c.minLen, c.minReps, block, p);
      var x :| x in Spans(c, s.calls) && x.start <= p < x.End();
      assert s.calls[x.start].id in StartIds(s.calls, Spans(c, s.calls));
    }
  }

  /** A loop at the front of the retained calls is reported under the first retained call, whatever
      the window has cut off before it. */
  lemma FrontLoopReported(c: Config, es: seq<Event>, block: nat)
    requires c.Valid() && c.minLen <= block && Repeats(Names(Run(c, es).0.calls), 0, block, c.minReps)
    ensures var s := Run(c, es).0; s.calls != [] && s.calls[0].id in s.emitted
  {
    BlocksAtLeast(block, c.minReps);
    NoLoopEscapes(c, es, block, 0);
  }
}
