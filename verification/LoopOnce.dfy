/** Whether a loop is reported once (internal/analyzer/detectors/loop.go): what a session reports,
    told from the times and the tool names of its calls alone. */
module LoopOnce {
  import opened Events
  import opened LoopScan
  import opened LoopStreaming

  // ---------------------------------------------------------------- the window, from the times

  function SkipOld(calls: seq<Call>, lo: nat, cutoff: int): (n: nat)
    requires lo <= |calls|
    ensures lo <= n <= |calls|
    decreases |calls| - lo
  {
    if lo < |calls| && calls[lo].time < cutoff then SkipOld(calls, lo + 1, cutoff) else lo
  }

  /** The position of the first call retained once the last of these was made. */
  function Low(c: Config, calls: seq<Call>): (n: nat)
    ensures n <= |calls|
  {
    if calls == [] then 0
    else
      var n := |calls| - 1;
      if c.windowNanos == 0 then Low(c, calls[..n])
      else SkipOld(calls, Low(c, calls[..n]), calls[n].time - c.windowNanos)
  }

  lemma {:induction false} DropIsSkip(calls: seq<Call>, lo: nat, cutoff: int)
    requires lo <= |calls|
    ensures DropOld(calls[lo..], cutoff) == calls[SkipOld(calls, lo, cutoff)..]
    decreases |calls| - lo
  {
    if lo < |calls| && calls[lo].time < cutoff {
      assert calls[lo..][1..] == calls[lo + 1..];
      DropIsSkip(calls, lo + 1, cutoff);
    }
  }

  lemma {:induction false} AppendMovesLow(c: Config, before: seq<Call>, x: Call)
    ensures Append(c, before[Low(c, before)..], x) == (before + [x])[Low(c, before + [x])..]
  {
    var calls, lo := before + [x], Low(c, before);
    assert calls[..|calls| - 1] == before;
    assert before[lo..] + [x] == calls[lo..];
    assert Low(c, calls) == if c.windowNanos == 0 then lo else SkipOld(calls, lo, x.time - c.windowNanos);
    hide Low, SkipOld, DropOld;
    DropIsSkip(calls, lo, x.time - c.windowNanos);
  }

  lemma RetainedStep(c: Config, es: seq<Event>)
    requires c.Valid() && es != []
    ensures var before, e := Run(c, es[..|es| - 1]).0.calls, es[|es| - 1];
      Run(c, es).0.calls == if e.IsToolCall() then Append(c, before, ToCall(e)) else before
    ensures var before, e := CallsOf(es[..|es| - 1]), es[|es| - 1];
      CallsOf(es) == if e.IsToolCall() then before + [ToCall(e)] else before
  {
    hide Emit, Spans, Append;
  }

  /** What a session retains is told by the times. */
  lemma {:induction false} Retained(c: Config, es: seq<Event>)
    requires c.Valid()
    ensures var calls := CallsOf(es); Run(c, es).0.calls == calls[Low(c, calls)..]
  {
    if es != [] {
      RetainedStep(c, es);
      hide Run, Append, Low, CallsOf;
      Retained(c, es[..|es| - 1]);
      if es[|es| - 1].IsToolCall() {
        AppendMovesLow(c, CallsOf(es[..|es| - 1]), ToCall(es[|es| - 1]));
      }
    }
  }

  // ---------------------------------------------------------------- the loops, from the tool names

  function Shift(x: Span, lo: nat): Span { Span(x.start + lo, x.len, x.reps) }

  function Shifted(xs: seq<Span>, lo: nat): seq<Span> {
    seq(|xs|, i requires 0 <= i < |xs| => Shift(xs[i], lo))
  }

  /** The loops in the window once the last of the calls was made. */
  ghost function Loops(c: Config, calls: seq<Call>): seq<Span>
    requires c.Valid()
  {
    Shifted(Spans(c, calls[Low(c, calls)..]), Low(c, calls))
  }

  /** Where a loop started in some window so far. */
  ghost function Ever(c: Config, calls: seq<Call>): set<nat>
    requires c.Valid()
  {
    if calls == [] then {} else Ever(c, calls[..|calls| - 1]) + Starts(Loops(c, calls))
  }

  function Starts(xs: seq<Span>): set<nat> { set x <- xs :: x.start }

  function Unseen(xs: seq<Span>, seen: set<nat>): seq<Span> {
    if xs == [] then []
    else
      var earlier, last := Unseen(xs[..|xs| - 1], seen), xs[|xs| - 1];
      if last.start in seen then earlier else earlier + [last]
  }

  /** The loops that start where none started in an earlier window. */
  ghost function New(c: Config, calls: seq<Call>): seq<Span>
    requires c.Valid()
  {
    if calls == [] then [] else Unseen(Loops(c, calls), Ever(c, calls[..|calls| - 1]))
  }

  ghost function Reported(c: Config, calls: seq<Call>): seq<Span>
    requires c.Valid()
  {
    if calls == [] then [] else Reported(c, calls[..|calls| - 1]) + New(c, calls)
  }

  lemma SpansPlaced(c: Config, calls: seq<Call>)
    requires c.Valid()
    ensures var xs := Spans(c, calls);
      && WellPlaced(xs) && AllFit(c, |calls|, xs)
      && forall x <- xs :: c.minLen <= x.len && Repeats(Names(calls), x.start, x.len, x.reps)
  {
    ScanSoundAndMaximal(Names(calls), c.minLen, c.minReps);
  }

  // ---------------------------------------------------------------- what is found

  predicate DistinctIds(calls: seq<Call>) { forall i, j :: 0 <= i < j < |calls| ==> calls[i].id != calls[j].id }

  function IdsAt(calls: seq<Call>, at: set<nat>): set<string>
    requires forall i <- at :: i < |calls|
  {
    set i | i in at :: calls[i].id
  }

  /** The finding names the loop's calls, its block and its repetitions. */
  predicate Renders(f: Finding, calls: seq<Call>, x: Span) {
    && x.start + x.len <= |calls| && x.start < x.End() <= |calls|
    && f.eventIds == Ids(calls[x.start..x.End()])
    && f.evidence.LoopEvidence? && f.evidence.reps == x.reps
    && f.evidence.tools == Names(calls[x.start..x.start + x.len])
  }

  predicate AllRender(fs: seq<Finding>, calls: seq<Call>, xs: seq<Span>) {
    |fs| == |xs| && forall k :: 0 <= k < |fs| ==> Renders(fs[k], calls, xs[k])
  }

  predicate DistinctStarts(xs: seq<Span>) { forall i, j :: 0 <= i < j < |xs| ==> xs[i].start != xs[j].start }

  /** One event reports the loops whose starts have not been seen, in order. */
  lemma {:induction false} EmitIsUnseen(c: Config, e: Event, calls: seq<Call>, lo: nat, spans: seq<Span>,
                                        seen: set<nat>)
    requires lo <= |calls| && DistinctIds(calls) && (forall i <- seen :: i < |calls|)
    requires AllFit(c, |calls| - lo, spans) && DistinctStarts(spans)
    ensures AllRender(Emit(c, e, State(calls[lo..], IdsAt(calls, seen)), spans).0, calls,
                      Unseen(Shifted(spans, lo), seen))
  {
    if spans != [] {
      InitFits(c, |calls| - lo, spans);
      hide Emit, Unseen, AllRender, DistinctIds, IdsAt, AllFit, DistinctStarts;
      EmitIsUnseen(c, e, calls, lo, spans[..|spans| - 1], seen);
      LastIsUnseen(c, e, calls, lo, spans, seen);
    }
  }

  lemma InitFits(c: Config, n: nat, spans: seq<Span>)
    requires spans != [] && AllFit(c, n, spans) && DistinctStarts(spans)
    ensures AllFit(c, n, spans[..|spans| - 1]) && DistinctStarts(spans[..|spans| - 1])
  {
  }

  lemma {:induction false} LastIsUnseen(c: Config, e: Event, calls: seq<Call>, lo: nat, spans: seq<Span>,
                                        seen: set<nat>)
    requires spans != [] && lo <= |calls| && DistinctIds(calls) && (forall i <- seen :: i < |calls|)
    requires AllFit(c, |calls| - lo, spans) && DistinctStarts(spans) && AllFit(c, |calls| - lo, spans[..|spans| - 1])
    requires var s, init := State(calls[lo..], IdsAt(calls, seen)), spans[..|spans| - 1];
      AllRender(Emit(c, e, s, init).0, calls, Unseen(Shifted(init, lo), seen))
    ensures var s := State(calls[lo..], IdsAt(calls, seen));
      AllRender(Emit(c, e, s, spans).0, calls, Unseen(Shifted(spans, lo), seen))
  {
    hide Emit, Unseen, Renders, AllRender, DistinctIds, IdsAt, StartIds, DistinctStarts, ToFinding, Shifted;
    var s, n := State(calls[lo..], IdsAt(calls, seen)), |spans| - 1;
    var number := EmitLast(c, e, s, spans);
    var f := ToFinding(c, e, s.calls, spans[n], number);
    RendersShifted(c, e, calls, lo, spans[n], number);
    var known := LastKnown(c, e, calls, lo, spans, seen);
    hide AllFit;
    ShiftedLast(spans, lo);
    UnseenLast(Shifted(spans, lo), seen);
    Extends(calls, Emit(c, e, s, spans[..n]).0, Emit(c, e, s, spans).0, f,
            Unseen(Shifted(spans[..n], lo), seen), Unseen(Shifted(spans, lo), seen), Shift(spans[n], lo), known);
  }

  lemma {:induction false} LastKnown(c: Config, e: Event, calls: seq<Call>, lo: nat, spans: seq<Span>, seen: set<nat>)
    returns (known: bool)
    requires spans != [] && lo <= |calls| && DistinctIds(calls) && (forall i <- seen :: i < |calls|)
    requires AllFit(c, |calls| - lo, spans) && DistinctStarts(spans) && AllFit(c, |calls| - lo, spans[..|spans| - 1])
    ensures var s, n := State(calls[lo..], IdsAt(calls, seen)), |spans| - 1;
      && known == (spans[n].start + lo in seen) && spans[n].start < |s.calls|
      && known == (s.calls[spans[n].start].id in Emit(c, e, s, spans[..n]).1)
  {
    var s, n := State(calls[lo..], IdsAt(calls, seen)), |spans| - 1;
    assert spans[n] in spans;
    hide Emit, DistinctIds, IdsAt, StartIds, DistinctStarts;
    StartIsNew(calls, lo, spans, seen);
    EmitMarksAll(c, e, s, spans[..n]);
    known := spans[n].start + lo in seen;
  }

  lemma Extends(calls: seq<Call>, fs: seq<Finding>, fs': seq<Finding>, f: Finding, xs: seq<Span>, xs': seq<Span>,
                x: Span, known: bool)
    requires AllRender(fs, calls, xs) && Renders(f, calls, x)
    requires fs' == (if known then fs else fs + [f]) && xs' == if known then xs else xs + [x]
    ensures AllRender(fs', calls, xs')
  {
    hide Renders;
  }

  lemma ShiftedLast(spans: seq<Span>, lo: nat)
    requires spans != []
    ensures var n, xs := |spans| - 1, Shifted(spans, lo);
      |xs| == n + 1 && xs[..n] == Shifted(spans[..n], lo) && xs[n] == Shift(spans[n], lo)
  {
  }

  lemma {:induction false} EmitLast(c: Config, e: Event, s: State, spans: seq<Span>) returns (number: nat)
    requires AllFit(c, |s.calls|, spans) && spans != []
    ensures var (fs, emitted), x := Emit(c, e, s, spans[..|spans| - 1]), spans[|spans| - 1];
      && Fits(c, x, |s.calls|)
      && Emit(c, e, s, spans).0
         == if s.calls[x.start].id in emitted then fs else fs + [ToFinding(c, e, s.calls, x, number)]
  {
    assert spans[|spans| - 1] in spans;
    number := |Emit(c, e, s, spans[..|spans| - 1]).1 + {s.calls[spans[|spans| - 1].start].id}|;
  }

  lemma UnseenLast(xs: seq<Span>, seen: set<nat>)
    requires xs != []
    ensures var earlier, last := Unseen(xs[..|xs| - 1], seen), xs[|xs| - 1];
      Unseen(xs, seen) == if last.start in seen then earlier else earlier + [last]
  {
  }

  /** By its identifier a loop counts as reported exactly when its start has been seen. */
  lemma StartIsNew(calls: seq<Call>, lo: nat, spans: seq<Span>, seen: set<nat>)
    requires lo <= |calls| && DistinctIds(calls) && (forall i <- seen :: i < |calls|)
    requires spans != [] && DistinctStarts(spans) && forall x <- spans :: x.start < |calls| - lo
    ensures var n := |spans| - 1;
      && calls[lo..][spans[n].start].id in IdsAt(calls, seen) + StartIds(calls[lo..], spans[..n])
      <==> spans[n].start + lo in seen
  {
    var n := |spans| - 1;
    var g := spans[n].start + lo;
    assert forall i :: 0 <= i < |calls| && calls[i].id == calls[g].id ==> i == g;
    forall x | x in spans[..n] ensures calls[lo..][x.start].id != calls[g].id {
      var i :| 0 <= i < n && spans[i] == x;
      assert calls[lo..][x.start] == calls[lo + x.start];
    }
  }

  lemma RendersShifted(c: Config, e: Event, calls: seq<Call>, lo: nat, x: Span, number: nat)
    requires lo <= |calls| && Fits(c, x, |calls| - lo)
    ensures Renders(ToFinding(c, e, calls[lo..], x, number), calls, Shift(x, lo))
  {
    assert calls[lo..][x.start..x.End()] == calls[x.start + lo..x.End() + lo];
    assert calls[lo..][x.start..x.start + x.len] == calls[x.start + lo..x.start + lo + x.len];
  }

  lemma LoopsPlaced(c: Config, calls: seq<Call>)
    requires c.Valid()
    ensures var xs := Loops(c, calls);
      && WellPlaced(xs) && DistinctStarts(xs)
      && forall x <- xs :: Low(c, calls) <= x.start && x.start + x.len <= |calls| && x.start < x.End() <= |calls|
                           && 0 < x.len && c.minReps <= x.reps
  {
    var lo := Low(c, calls);
    var xs := Spans(c, calls[lo..]);
    SpansPlaced(c, calls[lo..]);
    hide Spans, Low;
    forall i | 0 <= i < |xs| ensures Fits(c, xs[i], |calls| - lo) && 0 < xs[i].len {
      assert xs[i] in xs;
    }
  }

  lemma {:induction false} EverInRange(c: Config, calls: seq<Call>)
    requires c.Valid()
    ensures forall i <- Ever(c, calls) :: i < |calls|
  {
    if calls != [] {
      EverInRange(c, calls[..|calls| - 1]);
      LoopsPlaced(c, calls);
      hide Loops, WellPlaced;
    }
  }

  /** A session's findings are, in order, the loops that start where none started in an earlier
      window, and its reported start events are theirs: what is reported depends on the times and the
      tool names only. */
  lemma {:induction false} FindingsAreNewLoops(c: Config, es: seq<Event>)
    requires c.Valid() && DistinctIds(CallsOf(es))
    ensures Told(c, CallsOf(es), Run(c, es))
  {
    if es != [] {
      var init, e := es[..|es| - 1], es[|es| - 1];
      RetainedStep(c, es);
      CallsBefore(es);
      FindingsAreNewLoops(c, init);
      if e.IsToolCall() {
        NextCallReports(c, es);
      }
    }
  }

  lemma CallsBefore(es: seq<Event>)
    requires es != [] && DistinctIds(CallsOf(es))
    ensures DistinctIds(CallsOf(es[..|es| - 1]))
  {
    assert CallsOf(es[..|es| - 1]) <= CallsOf(es);
  }

  /** The session's state and findings are told by its calls. */
  ghost predicate Told(c: Config, calls: seq<Call>, r: (State, seq<Finding>))
    requires c.Valid()
  {
    && (forall i <- Ever(c, calls) :: i < |calls|)
    && r.0.calls == calls[Low(c, calls)..]
    && r.0.emitted == IdsAt(calls, Ever(c, calls))
    && AllRender(r.1, calls, Reported(c, calls))
  }

  lemma {:induction false} NextCallReports(c: Config, es: seq<Event>)
    requires c.Valid() && es != [] && DistinctIds(CallsOf(es)) && es[|es| - 1].IsToolCall()
    requires Told(c, CallsOf(es[..|es| - 1]), Run(c, es[..|es| - 1]))
    ensures Told(c, CallsOf(es), Run(c, es))
  {
    Retained(c, es);
    StepIsEmit(c, es);
    hide Told, Emit, Spans, Run, Low;
    NextCallIsTold(c, es[|es| - 1], CallsOf(es), Run(c, es[..|es| - 1]), Run(c, es));
  }

  lemma {:induction false} NextCallIsTold(c: Config, e: Event, calls: seq<Call>, r: (State, seq<Finding>),
                                          r': (State, seq<Finding>))
    requires c.Valid() && calls != [] && DistinctIds(calls) && Told(c, calls[..|calls| - 1], r)
    requires r'.0.calls == calls[Low(c, calls)..]
    requires AllFit(c, |r'.0.calls|, Spans(c, r'.0.calls))
    requires var (gs, emitted) := Emit(c, e, State(r'.0.calls, r.0.emitted), Spans(c, r'.0.calls));
      r'.1 == r.1 + gs && r'.0.emitted == emitted
    ensures Told(c, calls, r')
  {
    var before, lo := calls[..|calls| - 1], Low(c, calls);
    EverInRange(c, calls);
    hide Spans, Low, Emit, Ever, Reported, Loops, Unseen, StartIds, Starts, AllRender, AllFit, DistinctIds, IdsAt;
    IdsStill(before, calls, Ever(c, before));
    NewMarked(c, e, calls, Ever(c, before));
    NewRendered(c, e, calls, Ever(c, before));
    ReportedNext(c, calls);
    RendersStill(r.1, before, calls, Reported(c, before));
    RendersBoth(r.1, r'.1[|r.1|..], calls, Reported(c, before), New(c, calls));
  }

  lemma RendersBoth(fs: seq<Finding>, gs: seq<Finding>, calls: seq<Call>, xs: seq<Span>, ys: seq<Span>)
    requires AllRender(fs, calls, xs) && AllRender(gs, calls, ys)
    ensures AllRender(fs + gs, calls, xs + ys)
  {
  }

  lemma NewMarked(c: Config, e: Event, calls: seq<Call>, seen: set<nat>)
    requires c.Valid() && forall i <- seen :: i < |calls|
    ensures var now := calls[Low(c, calls)..];
      && (forall i <- Starts(Loops(c, calls)) :: i < |calls|)
      && Emit(c, e, State(now, IdsAt(calls, seen)), Spans(c, now)).1 == IdsAt(calls, seen + Starts(Loops(c, calls)))
  {
    hide Spans, Low, Emit, Starts, StartIds;
    var lo := Low(c, calls);
    EmitMarksAll(c, e, State(calls[lo..], IdsAt(calls, seen)), Spans(c, calls[lo..]));
    StartIdsShifted(calls, lo, Spans(c, calls[lo..]));
  }

  lemma NewRendered(c: Config, e: Event, calls: seq<Call>, seen: set<nat>)
    requires c.Valid() && DistinctIds(calls) && forall i <- seen :: i < |calls|
    ensures var now := calls[Low(c, calls)..];
      AllRender(Emit(c, e, State(now, IdsAt(calls, seen)), Spans(c, now)).0, calls, Unseen(Loops(c, calls), seen))
  {
    hide Spans, Low, Emit, Unseen, AllRender, DistinctIds;
    var lo := Low(c, calls);
    SpansStartApart(c, calls[lo..]);
    EmitIsUnseen(c, e, calls, lo, Spans(c, calls[lo..]), seen);
  }

  lemma IdsStill(before: seq<Call>, calls: seq<Call>, at: set<nat>)
    requires before <= calls && forall i <- at :: i < |before|
    ensures IdsAt(before, at) == IdsAt(calls, at)
  {
  }

  /** What one call adds to a session. */
  lemma StepIsEmit(c: Config, es: seq<Event>)
    requires c.Valid() && es != [] && es[|es| - 1].IsToolCall()
    ensures var ((s, fs), (s', fs')), e := (Run(c, es[..|es| - 1]), Run(c, es)), es[|es| - 1];
      && AllFit(c, |s'.calls|, Spans(c, s'.calls))
      && var (gs, emitted) := Emit(c, e, State(s'.calls, s.emitted), Spans(c, s'.calls));
         fs' == fs + gs && s'.emitted == emitted
  {
    hide Emit, Spans, Append;
  }

  lemma SpansStartApart(c: Config, calls: seq<Call>)
    requires c.Valid()
    ensures DistinctStarts(Spans(c, calls))
  {
    SpansPlaced(c, calls);
    var xs := Spans(c, calls);
    hide Spans;
    forall i, j | 0 <= i < j < |xs| ensures xs[i].start != xs[j].start {
      assert xs[i] in xs;
    }
  }

  lemma StartIdsShifted(calls: seq<Call>, lo: nat, spans: seq<Span>)
    requires lo <= |calls| && forall x <- spans :: x.start < |calls| - lo
    ensures var xs := Shifted(spans, lo);
      (forall i <- Starts(xs) :: i < |calls|) && StartIds(calls[lo..], spans) == IdsAt(calls, Starts(xs))
  {
    var xs := Shifted(spans, lo);
    forall x | x in spans ensures x.start + lo in Starts(xs) && calls[lo..][x.start] == calls[x.start + lo] {
      var i :| 0 <= i < |spans| && spans[i] == x;
      assert xs[i] in xs;
    }
    forall i | i in Starts(xs) ensures exists x :: x in spans && x.start + lo == i {
      var k :| 0 <= k < |xs| && xs[k].start == i;
      assert spans[k] in spans;
    }
  }

  lemma ReportedNext(c: Config, calls: seq<Call>)
    requires c.Valid() && calls != []
    ensures var before := calls[..|calls| - 1];
      && Reported(c, calls) == Reported(c, before) + Unseen(Loops(c, calls), Ever(c, before))
      && Ever(c, calls) == Ever(c, before) + Starts(Loops(c, calls))
  {
  }

  lemma RendersStill(fs: seq<Finding>, before: seq<Call>, calls: seq<Call>, xs: seq<Span>)
    requires before <= calls && AllRender(fs, before, xs)
    ensures AllRender(fs, calls, xs)
  {
    forall k | 0 <= k < |fs| ensures Renders(fs[k], calls, xs[k]) {
      var x := xs[k];
      assert before[x.start..x.End()] == calls[x.start..x.End()];
      assert before[x.start..x.start + x.len] == calls[x.start..x.start + x.len];
    }
  }
}
