/** What the loop detectors report, in the terms of a session's calls
    (internal/analyzer/detectors/loop.go, archive/.../detectors/loop_detector.py). */
module LoopReports {
  import opened Arithmetic
  import opened Events
  import opened LoopScan
  import opened LoopStreaming

  // ---------------------------------------------------------------- the calls

  /** The calls are the tool-call events, in order. */
  lemma {:induction false} CallsConcat(a: seq<Event>, b: seq<Event>)
    ensures CallsOf(a + b) == CallsOf(a) + CallsOf(b)
  {
    if b == [] {
      assert a + b == a;
    } else {
      assert (a + b)[..|a + b| - 1] == a + b[..|b| - 1];
      CallsConcat(a, b[..|b| - 1]);
    }
  }

  lemma CallsOfOne(e: Event)
    ensures CallsOf([e]) == if e.kind == ToolCallEvent && e.toolCall.Some? then
                              [Call(e.toolCall.value.toolName, e.id, e.timestamp)] else []
  {
    assert [e][..0] == [];
  }

  // ---------------------------------------------------------------- confidence

  /** The confidence of a loop with `extra` repetitions beyond the threshold: 0.5, and 0.1 more for
      each of them, up to 1. */
  predicate ConfidenceFits(confidence: real, extra: int) {
    0 <= extra && confidence == (if extra <= 5 then 50 + 10 * extra else 100) as real / 100.0
  }

  lemma ConfidenceIs(c: Config, reps: nat)
    requires c.minReps <= reps
    ensures ConfidenceFits(Confidence(c, reps), reps - c.minReps)
  {
    var extra := reps - c.minReps;
    if extra <= 5 {
      var x := 0.5 + extra as real * 0.1;
      assert x * 100.0 + 0.5 == (50 + 10 * extra) as real + 0.5;
      assert ((50 + 10 * extra) as real + 0.5).Floor == 50 + 10 * extra;
    }
  }

  // ---------------------------------------------------------------- blocks

  /** At `p` the block `tools` occurs `reps` times in a row, and no further time, and `ids` are the
      identifiers of these calls. */
  ghost predicate Occurs(calls: seq<Call>, p: nat, tools: seq<string>, reps: nat, ids: seq<string>) {
    var end := p + |ids|;
    && tools != [] && |ids| == |tools| * reps && end <= |calls|
    && (forall i :: p <= i < end ==> CallIs(calls[i], tools, i - p) && calls[i].id == ids[i - p])
    && (end + |tools| <= |calls| ==> exists i :: end <= i < end + |tools| && calls[i].tool != tools[i - end])
  }

  predicate CallIs(x: Call, tools: seq<string>, k: nat)
    requires tools != []
  {
    x.tool == tools[k % |tools|]
  }

  lemma {:induction false} PeriodicFromFirst(t: seq<string>, i: nat, len: nat, hi: nat, k: nat)
    requires 0 < len && i + len <= |t| && hi <= |t| && Periodic(t, len, i + len, hi) && (i + k < hi || k < len)
    ensures t[i + k] == t[i + k % len]
  {
    if k >= len {
      PeriodicFromFirst(t, i, len, hi, k - len);
      ModBack(k, len);
      assert t[i + k] == t[i + k - len];
    } else {
      ModSmall(k, len);
    }
  }

  lemma ModSmall(k: nat, len: nat)
    requires k < len
    ensures k % len == k
  {
  }

  /** A scanned span is a block that occurs its number of times. */
  lemma {:induction false} SpanOccurs(c: Config, calls: seq<Call>, x: Span)
    requires c.Valid() && x in Spans(c, calls)
    ensures c.minLen <= x.len && c.minReps <= x.reps && x.start + x.len <= |calls| && x.start < x.End() <= |calls|
    ensures Occurs(calls, x.start, Names(calls[x.start..x.start + x.len]), x.reps, Ids(calls[x.start..x.End()]))
  {
    hide Spans, Occurs, Periodic, Blocks, Names, Ids;
    SpanRepeats(c, calls, x);
    BlockOccurs(calls, x.start, x.len, x.End(), x.reps);
  }

  lemma SpanRepeats(c: Config, calls: seq<Call>, x: Span)
    requires c.Valid() && x in Spans(c, calls)
    ensures c.minLen <= x.len && c.minReps <= x.reps && x.start < x.start + x.len <= x.End() <= |calls|
    ensures x.End() - x.start == x.len * x.reps && (x.End() - x.start) % x.len == 0
    ensures Periodic(Names(calls), x.len, x.start + x.len, x.End())
    ensures x.End() + x.len <= |calls| ==> !Periodic(Names(calls), x.len, x.start + x.len, x.End() + x.len)
  {
    ScanSoundAndMaximal(Names(calls), c.minLen, c.minReps);
    assert Fits(c, x, |calls|);
    hide Spans, Scan, Periodic;
    BlocksIsProduct(x.len, x.reps);
    ModOfMultiple(x.len, x.reps);
    BlocksAtLeast(x.len, x.reps);
    assert Blocks(x.len, x.reps + 1) == Blocks(x.len, x.reps) + x.len;
  }

  lemma BlockOccurs(calls: seq<Call>, p: nat, len: nat, end: nat, reps: nat)
    requires 0 < len && p + len <= end <= |calls| && end - p == len * reps && (end - p) % len == 0
    requires Periodic(Names(calls), len, p + len, end)
    requires end + len <= |calls| ==> !Periodic(Names(calls), len, p + len, end + len)
    ensures Occurs(calls, p, Names(calls[p..p + len]), reps, Ids(calls[p..end]))
  {
    CallsMatch(calls, p, len, end);
    if end + len <= |calls| {
      EndsThere(calls, p, len, end);
    }
    hide CallIs, Periodic;
    OccursIs(calls, p, Names(calls[p..p + len]), reps, Ids(calls[p..end]));
  }

  lemma OccursIs(calls: seq<Call>, p: nat, tools: seq<string>, reps: nat, ids: seq<string>)
    requires tools != [] && |ids| == |tools| * reps && p + |ids| <= |calls|
    requires forall i :: p <= i < p + |ids| ==> CallIs(calls[i], tools, i - p) && calls[i].id == ids[i - p]
    requires p + |ids| + |tools| <= |calls| ==>
      exists i :: p + |ids| <= i < p + |ids| + |tools| && calls[i].tool != tools[i - (p + |ids|)]
    ensures Occurs(calls, p, tools, reps, ids)
  {
    hide CallIs;
  }

  lemma CallsMatch(calls: seq<Call>, p: nat, len: nat, end: nat)
    requires 0 < len && p + len <= |calls| && p <= end <= |calls| && Periodic(Names(calls), len, p + len, end)
    ensures var tools, ids := Names(calls[p..p + len]), Ids(calls[p..end]);
      forall i :: p <= i < end ==> CallIs(calls[i], tools, i - p) && calls[i].id == ids[i - p]
  {
    hide CallIs, Periodic;
    forall i | p <= i < end ensures CallIs(calls[i], Names(calls[p..p + len]), i - p) {
      CallMatches(calls, p, len, end, i - p);
    }
  }

  lemma CallMatches(calls: seq<Call>, p: nat, len: nat, end: nat, k: nat)
    requires 0 < len && p + len <= |calls| && p + k < end <= |calls| && Periodic(Names(calls), len, p + len, end)
    ensures CallIs(calls[p + k], Names(calls[p..p + len]), k)
  {
    PeriodicFromFirst(Names(calls), p, len, end, k);
    hide Periodic;
    assert Names(calls[p..p + len])[k % len] == calls[p + k % len].tool;
  }

  lemma EndsThere(calls: seq<Call>, p: nat, len: nat, end: nat)
    requires 0 < len && p + len <= end && end + len <= |calls| && (end - p) % len == 0
    requires Periodic(Names(calls), len, p + len, end) && !Periodic(Names(calls), len, p + len, end + len)
    ensures var tools := Names(calls[p..p + len]);
      exists i :: end <= i < end + len && calls[i].tool != tools[i - end]
  {
    var t, tools := Names(calls), Names(calls[p..p + len]);
    var i :| p + len <= i < end + len && t[i] != t[i - len];
    hide Periodic;
    LastBlock(t, p, len, end, i - end);
    assert calls[i].tool != tools[i - end];
  }

  /** The last repetition is a copy of the first. */
  lemma LastBlock(t: seq<string>, p: nat, len: nat, end: nat, k: nat)
    requires 0 < len && p + len <= end <= |t| && (end - p) % len == 0 && k < len
    requires Periodic(t, len, p + len, end)
    ensures t[end + k - len] == t[p + k]
  {
    var d := end - p - len;
    ModBack(end - p, len);
    ModAdd(d, len, k);
    PeriodicFromFirst(t, p, len, end, d + k);
    assert p + (d + k) == end + k - len;
  }

  // ---------------------------------------------------------------- findings and detections

  /** What the finding says: whose event led to it, and a block among the retained calls that occurs
      often enough, with its calls and a confidence that grows with the repetitions. */
  ghost predicate Says(c: Config, calls: seq<Call>, e: Event, f: Finding) {
    && f.sessionId == e.sessionId && f.agentId == e.agentId && f.tenantId == e.tenantId && f.timestamp == e.timestamp
    && f.id.LoopId? && f.id.session == e.sessionId && f.severity == Warning
    && f.evidence.LoopEvidence? && c.minLen <= |f.evidence.tools| && c.minReps <= f.evidence.reps
    && Occurs(calls, f.evidence.position, f.evidence.tools, f.evidence.reps, f.eventIds)
    && ConfidenceFits(f.confidence, f.evidence.reps - c.minReps)
  }

  lemma FindingSays(c: Config, es: seq<Event>, e: Event, f: Finding)
    requires c.Valid() && f in Step(c, Run(c, es).0, e).1
    ensures e.IsToolCall() && Says(c, Run(c, es + [e]).0.calls, e, f)
  {
    RunSnoc(c, es, e);
    var s := Run(c, es).0;
    hide Run, Emit, Spans, Append, Confidence, Occurs, ConfidenceFits;
    var calls := Append(c, s.calls, ToCall(e));
    var x, number := FindingSource(c, e, State(calls, s.emitted), Spans(c, calls), f);
    SpanOccurs(c, calls, x);
    ConfidenceIs(c, x.reps);
  }

  /** Every finding of a stream says what the event that led to it makes of the calls retained then. */
  lemma {:induction false} EveryFindingSays(c: Config, es: seq<Event>, f: Finding) returns (k: nat)
    requires c.Valid() && f in Run(c, es).1
    ensures k < |es| && es[k].IsToolCall() && Says(c, Run(c, es[..k + 1]).0.calls, es[k], f)
  {
    var n := |es| - 1;
    hide Step, Says;
    if f in Run(c, es[..n]).1 {
      k := EveryFindingSays(c, es[..n], f);
      assert es[..n][..k + 1] == es[..k + 1];
    } else {
      k := n;
      assert es[..n] + [es[n]] == es && es[..n + 1] == es;
      FindingSays(c, es[..n], es[n], f);
    }
  }

  /** What a detection says: a block of the session's calls that occurs often enough, with its calls
      and a confidence that grows with the repetitions. */
  ghost predicate Detects(c: Config, calls: seq<Call>, d: Detection) {
    && c.minLen <= |d.tools| && c.minReps <= d.reps && Occurs(calls, d.position, d.tools, d.reps, d.eventIds)
    && ConfidenceFits(d.confidence, d.reps - c.minReps)
  }

  /** Every detection of the batch reference says so of the whole session. */
  lemma DetectionSays(c: Config, calls: seq<Call>)
    requires c.Valid()
    ensures forall d <- Report(c, calls, Spans(c, calls)) :: Detects(c, calls, d)
  {
    hide Spans, Confidence, Occurs, ConfidenceFits, Report;
    forall d | d in Report(c, calls, Spans(c, calls)) ensures Detects(c, calls, d) {
      var x := DetectionIsOf(c, calls, d, Spans(c, calls));
      SpanOccurs(c, calls, x);
      ConfidenceIs(c, x.reps);
    }
  }

  lemma DetectionIsOf(c: Config, calls: seq<Call>, d: Detection, xs: seq<Span>) returns (x: Span)
    requires AllFit(c, |calls|, xs) && d in Report(c, calls, xs)
    ensures x in xs && Fits(c, x, |calls|) && d == ToDetection(c, calls, x)
  {
    var i :| 0 <= i < |xs| && d == ToDetection(c, calls, xs[i]);
    x := xs[i];
  }
}
