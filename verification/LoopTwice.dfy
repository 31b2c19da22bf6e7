/** When one run of repetitions is reported twice (internal/analyzer/detectors/loop.go): exactly
    when the window cuts it, told from the times and the tool names of a session's calls. */
module LoopTwice {
  import opened Events
  import opened LoopScan
  import opened LoopStreaming
  import opened LoopOnce

  const SECOND := 1_000_000_000

  // ---------------------------------------------------------------- the shortest block wins

  /** A loop recorded at a position has the shortest block that repeats there. */
  lemma ShortestAtStart(t: seq<string>, minLen: nat, minReps: nat, y: Span, block: nat)
    requires 0 < minLen <= block && 0 < minReps
    requires y in Scan(t, minLen, minReps) && Repeats(t, y.start, block, minReps)
    ensures y.len <= block
  {
    var xs := Scan(t, minLen, minReps);
    var z := ScanFromShort(t, minLen, minLen, minReps, [], block, y.start);
    ScanSoundAndMaximal(t, minLen, minReps);
    var a :| 0 <= a < |xs| && xs[a] == z;
    var b :| 0 <= b < |xs| && xs[b] == y;
    hide Scan, Repeats;
    if block < y.len {
      assert false;
    }
  }

  lemma {:induction false} ScanFromShort(t: seq<string>, minLen: nat, len: nat, minReps: nat, prev: seq<Span>,
                                         block: nat, p: nat) returns (z: Span)
    requires 0 < minLen <= len <= block && 0 < minReps && Repeats(t, p, block, minReps)
    requires forall s <- prev :: s.len <= block
    ensures z in ScanFrom(t, len, minReps, prev) && z.len <= block && z.start <= p < z.End()
    decreases block - len
  {
    BlocksAtLeast(len, minReps);
    BlocksMonoLen(len, block, minReps);
    var P := Pass(t, len, minReps, 0, prev);
    PassSound(t, len, minReps, 0, prev);
    assert forall s <- prev + P :: s.len <= block;
    if len < block {
      z := ScanFromShort(t, minLen, len + 1, minReps, prev + P, block, p);
    } else {
      PassComplete(t, len, minReps, 0, prev, p);
      z :| (z in prev || z in P) && z.start <= p < z.End();
      assert z in prev + P;
      ScanFromKeeps(t, len + 1, minReps, prev + P, z);
    }
  }

  lemma {:induction false} ScanFromKeeps(t: seq<string>, len: nat, minReps: nat, prev: seq<Span>, z: Span)
    requires 0 < len && 0 < minReps && z in prev
    ensures z in ScanFrom(t, len, minReps, prev)
    decreases |t| - len
  {
    BlocksAtLeast(len, minReps);
    if Blocks(len, minReps) <= |t| {
      ScanFromKeeps(t, len + 1, minReps, prev + Pass(t, len, minReps, 0, prev), z);
    }
  }

  // ---------------------------------------------------------------- longer and longer windows

  /** While nothing expires a recorded loop stays recorded, and does not get shorter. */
  lemma {:induction false} LoopStays(t: seq<string>, more: seq<string>, minLen: nat, minReps: nat, x: Span)
    returns (y: Span)
    requires 0 < minLen && 0 < minReps && x in Scan(t, minLen, minReps)
    ensures y in Scan(t + more, minLen, minReps) && y.start == x.start && y.len == x.len && x.End() <= y.End()
  {
    KeysStay(t, more, minLen, minReps);
    assert (x.start, x.len) in Keys(Scan(t, minLen, minReps));
    y :| y in Scan(t + more, minLen, minReps) && (y.start, y.len) == (x.start, x.len);
    ScanSoundAndMaximal(t, minLen, minReps);
    ScanSoundAndMaximal(t + more, minLen, minReps);
    hide Scan;
    RepeatsLonger(t, more, x.start, x.len, x.reps);
    if y.reps < x.reps {
      RepeatsFewer(t + more, x.start, x.len, y.reps + 1, x.reps);
      assert false;
    }
    BlocksMono(x.len, x.reps, y.reps);
  }

  lemma {:induction false} KeysStay(t: seq<string>, more: seq<string>, minLen: nat, minReps: nat)
    requires 0 < minLen && 0 < minReps
    ensures Keys(Scan(t, minLen, minReps)) <= Keys(Scan(t + more, minLen, minReps))
    decreases |more|
  {
    if more == [] {
      assert t + more == t;
    } else {
      var n := |more| - 1;
      KeysStay(t, more[..n], minLen, minReps);
      ScanStable(t + more[..n], more[n], minLen, minReps);
      assert t + more[..n] + [more[n]] == t + more;
    }
  }

  lemma RepeatsLonger(t: seq<string>, more: seq<string>, i: nat, len: nat, m: nat)
    requires Repeats(t, i, len, m)
    ensures Repeats(t + more, i, len, m)
  {
    forall p | i + len <= p < i + Blocks(len, m) ensures (t + more)[p] == (t + more)[p - len] {
      assert t[p] == t[p - len];
    }
  }

  lemma RepeatsFewer(t: seq<string>, i: nat, len: nat, m: nat, k: nat)
    requires Repeats(t, i, len, k) && m <= k
    ensures Repeats(t, i, len, m)
  {
    BlocksMono(len, m, k);
  }

  // ---------------------------------------------------------------- what windows record

  /** The loop is recorded in the window as it is after the first `n` calls. */
  ghost predicate Recorded(c: Config, calls: seq<Call>, n: nat, x: Span)
    requires c.Valid()
  {
    n <= |calls| && x in Loops(c, calls[..n])
  }

  /** No earlier window recorded a loop with that start. */
  ghost predicate First(c: Config, calls: seq<Call>, n: nat, x: Span)
    requires c.Valid()
  {
    Recorded(c, calls, n, x) && forall m: nat, y: Span :: m < n && Recorded(c, calls, m, y) ==> y.start != x.start
  }

  lemma {:induction false} EverIsRecorded(c: Config, calls: seq<Call>, g: nat)
    requires c.Valid()
    ensures g in Ever(c, calls) <==> exists n: nat, x: Span :: Recorded(c, calls, n, x) && x.start == g
  {
    if calls == [] {
      assert calls[..0] == calls;
      NothingInNothing(c);
    } else {
      EverIsRecorded(c, calls[..|calls| - 1], g);
      hide Loops, Ever, Recorded;
      ReportedNext(c, calls);
      RecordedNext(c, calls, g);
    }
  }

  lemma RecordedNext(c: Config, calls: seq<Call>, g: nat)
    requires c.Valid() && calls != []
    ensures var before := calls[..|calls| - 1];
      (exists n: nat, x: Span :: Recorded(c, calls, n, x) && x.start == g)
      <==> (exists n: nat, x: Span :: Recorded(c, before, n, x) && x.start == g) || g in Starts(Loops(c, calls))
  {
    hide Loops;
    var before := calls[..|calls| - 1];
    assert calls[..|calls|] == calls;
    forall n: nat, x: Span | n < |calls| ensures Recorded(c, calls, n, x) <==> Recorded(c, before, n, x) {
      assert before[..n] == calls[..n];
    }
    if x :| x in Loops(c, calls) && x.start == g {
      assert Recorded(c, calls, |calls|, x);
    }
    if n: nat, x: Span :| Recorded(c, before, n, x) && x.start == g {
      assert Recorded(c, calls, n, x);
    }
  }

  lemma NothingInNothing(c: Config)
    requires c.Valid()
    ensures Loops(c, []) == []
  {
    BlocksAtLeast(c.minLen, c.minReps);
    assert Names([]) == [];
  }

  lemma {:induction false} UnseenIff(xs: seq<Span>, seen: set<nat>, x: Span)
    ensures x in Unseen(xs, seen) <==> x in xs && x.start !in seen
  {
    if xs != [] {
      UnseenIff(xs[..|xs| - 1], seen, x);
      assert xs == xs[..|xs| - 1] + [xs[|xs| - 1]];
    }
  }

  /** What is reported is what is recorded first at its start. */
  lemma {:induction false} ReportedIsFirst(c: Config, calls: seq<Call>, x: Span)
    requires c.Valid()
    ensures x in Reported(c, calls) <==> exists n: nat :: First(c, calls, n, x)
  {
    if calls == [] {
      assert calls[..0] == calls;
      NothingInNothing(c);
    } else {
      var before := calls[..|calls| - 1];
      ReportedIsFirst(c, before, x);
      EverIsRecorded(c, before, x.start);
      ReportedNext(c, calls);
      UnseenIff(Loops(c, calls), Ever(c, before), x);
      FirstNext(c, calls, x);
    }
  }

  lemma FirstNext(c: Config, calls: seq<Call>, x: Span)
    requires c.Valid() && calls != []
    ensures var before := calls[..|calls| - 1];
      && (forall n: nat :: n < |calls| ==> (First(c, calls, n, x) <==> First(c, before, n, x)))
      && (First(c, calls, |calls|, x) <==>
            x in Loops(c, calls) && forall n: nat, y: Span :: Recorded(c, before, n, y) ==> y.start != x.start)
      && (forall n: nat :: |calls| < n ==> !First(c, calls, n, x))
      && (forall n: nat :: |calls| <= n ==> !First(c, before, n, x))
  {
    hide Loops;
    var before := calls[..|calls| - 1];
    assert calls[..|calls|] == calls;
    forall n: nat, y: Span | n < |calls| ensures Recorded(c, calls, n, y) <==> Recorded(c, before, n, y) {
      assert before[..n] == calls[..n];
    }
    if x in Loops(c, calls) && forall n: nat, y: Span :: Recorded(c, before, n, y) ==> y.start != x.start {
      assert Recorded(c, calls, |calls|, x);
    }
  }

  /** The tool names in the window as it is after the first `n` calls. */
  function Window(c: Config, calls: seq<Call>, n: nat): seq<string>
    requires n <= |calls|
  {
    Names(calls)[Low(c, calls[..n])..n]
  }

  lemma RecordedIff(c: Config, calls: seq<Call>, n: nat, x: Span)
    requires c.Valid() && n <= |calls|
    ensures var lo := Low(c, calls[..n]);
      Recorded(c, calls, n, x)
      <==> lo <= x.start && Span(x.start - lo, x.len, x.reps) in Scan(Window(c, calls, n), c.minLen, c.minReps)
  {
    var lo, xs := Low(c, calls[..n]), Loops(c, calls[..n]);
    hide Low;
    assert Names(calls[..n][lo..]) == Window(c, calls, n);
    var zs := Spans(c, calls[..n][lo..]);
    hide Spans, Scan;
    assert |xs| == |zs| && forall k :: 0 <= k < |xs| ==> xs[k] == Shift(zs[k], lo);
    if x in xs {
      var k :| 0 <= k < |xs| && xs[k] == x;
      assert zs[k] in zs;
    }
    if lo <= x.start && Span(x.start - lo, x.len, x.reps) in zs {
      var k :| 0 <= k < |zs| && zs[k] == Span(x.start - lo, x.len, x.reps);
      assert xs[k] in xs;
    }
  }

  lemma RepeatsInWindow(t: seq<string>, lo: nat, n: nat, i: nat, len: nat, m: nat)
    requires lo <= n <= |t|
    ensures Repeats(t[lo..n], i, len, m) <==> lo + i + Blocks(len, m) <= n && Repeats(t, lo + i, len, m)
  {
    var w := t[lo..n];
    if Repeats(w, i, len, m) {
      forall p | lo + i + len <= p < lo + i + Blocks(len, m) ensures t[p] == t[p - len] {
        assert w[p - lo] == w[p - lo - len];
      }
    }
    if lo + i + Blocks(len, m) <= n && Repeats(t, lo + i, len, m) {
      forall p | i + len <= p < i + Blocks(len, m) ensures w[p] == w[p - len] {
        assert t[lo + p] == t[lo + p - len];
      }
    }
  }

  lemma RecordedSound(c: Config, calls: seq<Call>, n: nat, x: Span)
    requires c.Valid() && Recorded(c, calls, n, x)
    ensures Low(c, calls[..n]) <= x.start < x.End() <= n <= |calls|
    ensures c.minLen <= x.len && c.minReps <= x.reps
    ensures x.start + Blocks(x.len, c.minReps) <= x.End() && x.start + x.len <= x.End()
    ensures Repeats(Names(calls), x.start, x.len, c.minReps)
  {
    var lo := Low(c, calls[..n]);
    RecordedIff(c, calls, n, x);
    hide Low, Recorded, Scan, Repeats;
    ScanSoundAndMaximal(Window(c, calls, n), c.minLen, c.minReps);
    RepeatsInWindow(Names(calls), lo, n, x.start - lo, x.len, x.reps);
    RepeatsFewer(Names(calls), x.start, x.len, c.minReps, x.reps);
    BlocksMono(x.len, c.minReps, x.reps);
    BlocksAtLeast(x.len, c.minReps);
    WindowEnd(c, calls, n, x, lo);
  }

  lemma WindowEnd(c: Config, calls: seq<Call>, n: nat, x: Span, lo: nat)
    requires n <= |calls| && lo == Low(c, calls[..n]) && lo <= x.start
    requires Repeats(Window(c, calls, n), x.start - lo, x.len, x.reps)
    ensures x.End() <= n
  {
  }

  /** No shorter block repeats at a recorded loop's start. */
  lemma RecordedIsShortest(c: Config, calls: seq<Call>, n: nat, x: Span, block: nat)
    requires c.Valid() && Recorded(c, calls, n, x) && c.minLen <= block
    requires Repeats(Names(calls), x.start, block, c.minReps)
    ensures x.len <= block
  {
    if block < x.len {
      var lo := Low(c, calls[..n]);
      RecordedSound(c, calls, n, x);
      RecordedIff(c, calls, n, x);
      BlocksMonoLen(block, x.len, c.minReps);
      RepeatsInWindow(Names(calls), lo, n, x.start - lo, block, c.minReps);
      ShortestAtStart(Window(c, calls, n), c.minLen, c.minReps, Span(x.start - lo, x.len, x.reps), block);
    }
  }

  /** Loops recorded at one start, in whatever windows, have the same block. */
  lemma StartTellsBlock(c: Config, calls: seq<Call>, n: nat, x: Span, m: nat, y: Span)
    requires c.Valid() && Recorded(c, calls, n, x) && Recorded(c, calls, m, y) && x.start == y.start
    ensures x.len == y.len
  {
    RecordedSound(c, calls, n, x);
    RecordedSound(c, calls, m, y);
    RecordedIsShortest(c, calls, n, x, y.len);
    RecordedIsShortest(c, calls, m, y, x.len);
  }

  /** While the window only grows a recorded loop stays recorded. */
  lemma RecordedStays(c: Config, calls: seq<Call>, n: nat, x: Span, m: nat) returns (y: Span)
    requires c.Valid() && Recorded(c, calls, n, x) && n <= m <= |calls| && Low(c, calls[..n]) == Low(c, calls[..m])
    ensures Recorded(c, calls, m, y) && y.start == x.start && y.len == x.len && x.End() <= y.End()
  {
    var lo, t := Low(c, calls[..n]), Names(calls);
    RecordedIff(c, calls, n, x);
    assert t[lo..n] + t[n..m] == t[lo..m];
    var z := LoopStays(t[lo..n], t[n..m], c.minLen, c.minReps, Span(x.start - lo, x.len, x.reps));
    y := Shift(z, lo);
    RecordedIff(c, calls, m, y);
  }

  /** Loops of one window with equally long blocks lie apart. */
  lemma RecordedApart(c: Config, calls: seq<Call>, n: nat, x: Span, y: Span)
    requires c.Valid() && Recorded(c, calls, n, x) && Recorded(c, calls, n, y) && x.len == y.len
    ensures x.start < y.start ==> x.End() <= y.start
  {
    LoopsPlaced(c, calls[..n]);
    hide Loops, Low;
    var xs := Loops(c, calls[..n]);
    var a :| 0 <= a < |xs| && xs[a] == x;
    var b :| 0 <= b < |xs| && xs[b] == y;
    RecordedSound(c, calls, n, x);
    RecordedSound(c, calls, n, y);
  }

  /** A recorded loop has no further copy of its block behind it in its window. */
  lemma RecordedMaximal(c: Config, calls: seq<Call>, n: nat, x: Span)
    requires c.Valid() && Recorded(c, calls, n, x)
    ensures x.len <= x.End()
    ensures !(x.End() + x.len <= n && Periodic(Names(calls), x.len, x.start + x.len, x.End() + x.len))
  {
    var lo, t := Low(c, calls[..n]), Names(calls);
    RecordedSound(c, calls, n, x);
    RecordedIff(c, calls, n, x);
    hide Low, Recorded, Scan;
    ScanSoundAndMaximal(Window(c, calls, n), c.minLen, c.minReps);
    RepeatsInWindow(t, lo, n, x.start - lo, x.len, x.reps + 1);
  }

  /** The repetition of `x` goes on through the first block of `y`. */
  ghost predicate Continues(t: seq<string>, x: Span, y: Span) {
    x.start <= y.start && y.start + x.len <= |t| && Periodic(t, x.len, x.start + x.len, y.start + x.len)
  }

  /** A loop that starts inside another, or continues it, was recorded in a window that had moved. */
  lemma OverlapNeedsExpiry(c: Config, calls: seq<Call>, n: nat, x: Span, m: nat, y: Span)
    requires c.Valid() && Recorded(c, calls, n, x) && Recorded(c, calls, m, y)
    requires x.len == y.len && x.start < y.start && (y.start < x.End() || Continues(Names(calls), x, y))
    ensures Low(c, calls[..n]) != Low(c, calls[..m])
  {
    hide Recorded, Low, Repeats, Blocks;
    RecordedSound(c, calls, n, x);
    RecordedSound(c, calls, m, y);
    if Low(c, calls[..n]) == Low(c, calls[..m]) {
      if n <= m {
        var z := RecordedStays(c, calls, n, x, m);
        RecordedApart(c, calls, m, z, y);
        RecordedMaximal(c, calls, m, z);
      } else {
        var z := RecordedStays(c, calls, m, y, n);
        RecordedApart(c, calls, n, x, z);
        RecordedMaximal(c, calls, n, x);
      }
    }
  }

  // ---------------------------------------------------------------- reported twice

  /** The block read from its `k`-th call on. */
  function Turned(block: seq<string>, k: nat): seq<string>
    requires k <= |block|
  {
    block[k..] + block[..k]
  }

  /** The blocks are equal up to rotation. */
  ghost predicate Rotated(u: seq<string>, v: seq<string>) {
    exists k: nat :: k <= |u| && v == Turned(u, k)
  }

  lemma RotatedSymmetric(u: seq<string>, v: seq<string>)
    ensures Rotated(u, v) <==> Rotated(v, u)
  {
    if k: nat :| k <= |u| && v == Turned(u, k) {
      assert u == Turned(v, |u| - k);
    }
    if k: nat :| k <= |v| && u == Turned(v, k) {
      assert v == Turned(u, |v| - k);
    }
  }

  /** The finding's first call. */
  predicate StartsAt(calls: seq<Call>, f: Finding, i: nat) {
    i < |calls| && f.eventIds != [] && calls[i].id == f.eventIds[0]
  }

  /** The repetition `f` names goes on through the first block of `g`. */
  ghost predicate Joined(calls: seq<Call>, f: Finding, g: Finding)
    requires f.evidence.LoopEvidence?
  {
    var len := |f.evidence.tools|;
    exists i: nat, j: nat :: StartsAt(calls, f, i) && StartsAt(calls, g, j) && i <= j && j + len <= |calls|
                             && Periodic(Names(calls), len, i + len, j + len)
  }

  ghost predicate ShareCall(f: Finding, g: Finding) { exists id :: id in f.eventIds && id in g.eventIds }

  /** Two findings report one run: they name the same block, wherever in it they start, and share a
      call or are joined by further repetitions of it. */
  ghost predicate SameRun(calls: seq<Call>, f: Finding, g: Finding) {
    && f.evidence.LoopEvidence? && g.evidence.LoopEvidence? && Rotated(f.evidence.tools, g.evidence.tools)
    && (ShareCall(f, g) || Joined(calls, f, g) || Joined(calls, g, f))
  }

  ghost predicate ReportedTwice(calls: seq<Call>, fs: seq<Finding>) {
    exists j, k :: 0 <= j < k < |fs| && SameRun(calls, fs[j], fs[k])
  }

  ghost predicate SameBlock(t: seq<string>, x: Span, y: Span) {
    && x.len == y.len && x.start + x.len <= |t| && y.start + y.len <= |t|
    && Rotated(t[x.start..x.start + x.len], t[y.start..y.start + y.len])
  }

  ghost predicate OneRun(t: seq<string>, x: Span, y: Span) {
    SameBlock(t, x, y) && ((x.start < y.End() && y.start < x.End()) || Continues(t, x, y) || Continues(t, y, x))
  }

  /** A loop first recorded once `n` calls were made has another with the same block, up to rotation,
      starting inside it or continuing it, recorded in a window with another front. */
  ghost predicate Cut(c: Config, calls: seq<Call>, n: nat, x: Span, m: nat, y: Span)
    requires c.Valid()
  {
    && First(c, calls, n, x) && Recorded(c, calls, m, y)
    && Low(c, calls[..n]) != Low(c, calls[..m])
    && x.start < y.start && SameBlock(Names(calls), x, y) && (y.start < x.End() || Continues(Names(calls), x, y))
  }

  ghost predicate SomeRunCut(c: Config, calls: seq<Call>)
    requires c.Valid()
  {
    exists n: nat, x: Span, m: nat, y: Span :: Cut(c, calls, n, x, m, y)
  }

  lemma SameRunIff(calls: seq<Call>, f: Finding, g: Finding, x: Span, y: Span)
    requires DistinctIds(calls) && Renders(f, calls, x) && Renders(g, calls, y) && 0 < x.len && 0 < y.len
    ensures SameRun(calls, f, g) <==> OneRun(Names(calls), x, y)
  {
    IdsOverlapIff(calls, x.start, x.End(), y.start, y.End());
    hide Ids, DistinctIds, Blocks, Names;
    SameToolsIff(calls, f, g, x, y);
    if SameBlock(Names(calls), x, y) {
      JoinedIff(calls, f, g, x, y);
      JoinedIff(calls, g, f, y, x);
    }
    hide SameBlock, Joined, Rotated;
  }

  lemma SameToolsIff(calls: seq<Call>, f: Finding, g: Finding, x: Span, y: Span)
    requires Renders(f, calls, x) && Renders(g, calls, y)
    ensures Rotated(f.evidence.tools, g.evidence.tools) <==> SameBlock(Names(calls), x, y)
    ensures |f.evidence.tools| == x.len
  {
    hide Ids, Blocks;
    NamesOfSlice(calls, x.start, x.start + x.len);
    NamesOfSlice(calls, y.start, y.start + y.len);
    assert |f.evidence.tools| == x.len && |g.evidence.tools| == y.len;
  }

  lemma JoinedIff(calls: seq<Call>, f: Finding, g: Finding, x: Span, y: Span)
    requires DistinctIds(calls) && Renders(f, calls, x) && Renders(g, calls, y) && 0 < x.len
    ensures Joined(calls, f, g) <==> Continues(Names(calls), x, y)
  {
    SameToolsIff(calls, f, g, x, y);
    StartIs(calls, f, x);
    StartIs(calls, g, y);
    hide Renders, Rotated, SameBlock, Ids, DistinctIds, StartsAt, Periodic;
    assert StartsAt(calls, f, x.start) && StartsAt(calls, g, y.start);
  }

  lemma StartIs(calls: seq<Call>, f: Finding, x: Span)
    requires DistinctIds(calls) && Renders(f, calls, x)
    ensures x.start < |calls| && forall i: nat :: StartsAt(calls, f, i) <==> i == x.start
  {
    assert f.eventIds[0] == calls[x.start].id;
  }

  lemma NamesOfSlice(calls: seq<Call>, a: nat, b: nat)
    requires a <= b <= |calls|
    ensures Names(calls[a..b]) == Names(calls)[a..b]
  {
  }

  lemma IdsOverlapIff(calls: seq<Call>, a: nat, b: nat, i: nat, j: nat)
    requires DistinctIds(calls) && a < b <= |calls| && i < j <= |calls|
    ensures (exists id :: id in Ids(calls[a..b]) && id in Ids(calls[i..j])) <==> a < j && i < b
  {
    var u, v := Ids(calls[a..b]), Ids(calls[i..j]);
    if id :| id in u && id in v {
      var k :| 0 <= k < |u| && u[k] == id;
      IdInSlice(calls, a, b, a + k);
      IdInSlice(calls, i, j, a + k);
    }
    hide Ids;
    var p := if a < i then i else a;
    if p < |calls| {
      IdInSlice(calls, a, b, p);
      IdInSlice(calls, i, j, p);
    }
  }

  lemma IdInSlice(calls: seq<Call>, a: nat, b: nat, p: nat)
    requires DistinctIds(calls) && a < b <= |calls| && p < |calls|
    ensures calls[p].id in Ids(calls[a..b]) <==> a <= p < b
  {
    var u := Ids(calls[a..b]);
    if a <= p < b {
      assert u[p - a] == calls[p].id;
    }
    if calls[p].id in u {
      var k :| 0 <= k < |u| && u[k] == calls[p].id;
      assert calls[a + k].id == calls[p].id;
    }
  }

  // ---------------------------------------------------------------- what is reported, start by start

  lemma {:induction false} UnseenStarts(xs: seq<Span>, seen: set<nat>)
    requires DistinctStarts(xs)
    ensures DistinctStarts(Unseen(xs, seen)) && Starts(Unseen(xs, seen)) == Starts(xs) - seen
  {
    if xs != [] {
      var init, last := xs[..|xs| - 1], xs[|xs| - 1];
      UnseenStarts(init, seen);
      StartsConcat(init, [last]);
      StartsConcat(Unseen(init, seen), [last]);
      assert init + [last] == xs && Starts([last]) == {last.start};
      assert last.start !in Starts(init);
      hide Starts, DistinctStarts;
    }
  }

  /** Each start is reported once. */
  lemma {:induction false} ReportedStarts(c: Config, calls: seq<Call>)
    requires c.Valid()
    ensures DistinctStarts(Reported(c, calls)) && Starts(Reported(c, calls)) == Ever(c, calls)
  {
    if calls != [] {
      var before := calls[..|calls| - 1];
      ReportedStarts(c, before);
      ReportedNext(c, calls);
      LoopsPlaced(c, calls);
      hide Loops, Reported, Ever, WellPlaced;
      UnseenStarts(Loops(c, calls), Ever(c, before));
      StartsConcat(Reported(c, before), Unseen(Loops(c, calls), Ever(c, before)));
    }
  }

  lemma StartsConcat(xs: seq<Span>, ys: seq<Span>)
    ensures Starts(xs + ys) == Starts(xs) + Starts(ys)
    ensures DistinctStarts(xs) && DistinctStarts(ys) && Starts(xs) !! Starts(ys) ==> DistinctStarts(xs + ys)
  {
    forall g | g in Starts(xs) + Starts(ys) ensures g in Starts(xs + ys) {
      var x :| (x in xs || x in ys) && x.start == g;
      assert x in xs + ys;
    }
    if DistinctStarts(xs) && DistinctStarts(ys) && Starts(xs) !! Starts(ys) {
      forall i, j | 0 <= i < j < |xs + ys| ensures (xs + ys)[i].start != (xs + ys)[j].start {
        if i < |xs| <= j {
          assert xs[i].start in Starts(xs) && ys[j - |xs|].start in Starts(ys);
        }
      }
    }
  }

  /** What a session reports, as loops: each finding renders one first recorded loop. */
  lemma ReportIsRendered(c: Config, es: seq<Event>, k: nat) returns (n: nat)
    requires c.Valid() && DistinctIds(CallsOf(es)) && k < |Run(c, es).1|
    ensures var calls := CallsOf(es);
      && |Reported(c, calls)| == |Run(c, es).1|
      && Renders(Run(c, es).1[k], calls, Reported(c, calls)[k])
      && First(c, calls, n, Reported(c, calls)[k])
  {
    var calls := CallsOf(es);
    FindingsAreNewLoops(c, es);
    ReportedIsFirst(c, calls, Reported(c, calls)[k]);
    hide Run, Reported, First, Renders, CallsOf;
    assert Reported(c, calls)[k] in Reported(c, calls);
    n :| First(c, calls, n, Reported(c, calls)[k]);
  }

  lemma TwiceMeansCut(c: Config, es: seq<Event>, j: nat, k: nat)
    requires c.Valid() && DistinctIds(CallsOf(es))
    requires j < k < |Run(c, es).1| && SameRun(CallsOf(es), Run(c, es).1[j], Run(c, es).1[k])
    ensures SomeRunCut(c, CallsOf(es))
  {
    var calls, fs := CallsOf(es), Run(c, es).1;
    var n := ReportIsRendered(c, es, j);
    var m := ReportIsRendered(c, es, k);
    var x, y := Reported(c, calls)[j], Reported(c, calls)[k];
    ReportedStarts(c, calls);
    hide Run, Reported, Recorded, Renders, CallsOf, Low;
    RecordedSound(c, calls, n, x);
    RecordedSound(c, calls, m, y);
    SameRunIff(calls, fs[j], fs[k], x, y);
    RotatedBlocks(Names(calls), x, y);
    hide SameRun, SameBlock, Continues;
    if x.start < y.start {
      OverlapNeedsExpiry(c, calls, n, x, m, y);
      assert Cut(c, calls, n, x, m, y);
    } else {
      OverlapNeedsExpiry(c, calls, m, y, n, x);
      assert Cut(c, calls, m, y, n, x);
    }
  }

  lemma CutMeansTwice(c: Config, es: seq<Event>, n: nat, x: Span, m: nat, y: Span)
    requires c.Valid() && DistinctIds(CallsOf(es)) && Cut(c, CallsOf(es), n, x, m, y)
    ensures ReportedTwice(CallsOf(es), Run(c, es).1)
  {
    var calls, fs := CallsOf(es), Run(c, es).1;
    var j, k := CutPair(c, calls, n, x, m, y);
    hide Run, Reported, CallsOf, Renders, SameRun, Recorded, SameBlock, Cut, First, OneRun;
    FindingsAreNewLoops(c, es);
    var xs := Reported(c, calls);
    assert Renders(fs[j], calls, xs[j]) && Renders(fs[k], calls, xs[k]);
    SameRunIff(calls, fs[j], fs[k], xs[j], xs[k]);
    SameRunSymmetric(calls, fs[j], fs[k]);
    assert SameRun(calls, fs[if j < k then j else k], fs[if j < k then k else j]);
  }

  lemma CutPair(c: Config, calls: seq<Call>, n: nat, x: Span, m: nat, y: Span) returns (j: nat, k: nat)
    requires c.Valid() && Cut(c, calls, n, x, m, y)
    ensures var xs := Reported(c, calls);
      && j < |xs| && k < |xs| && j != k && 0 < xs[j].len && 0 < xs[k].len
      && OneRun(Names(calls), xs[j], xs[k])
  {
    hide Reported, Low, Recorded, Rotated, Periodic;
    j := AllReported(c, calls, n, x);
    k := AllReported(c, calls, m, y);
    FirstReportedAt(c, calls, n, x, j);
    hide First;
    ReportedLike(c, calls, n, x, j);
    ReportedLike(c, calls, m, y, k);
  }

  /** The report of a start has the block of every loop recorded there. */
  lemma ReportedLike(c: Config, calls: seq<Call>, m: nat, y: Span, k: nat)
    requires c.Valid() && Recorded(c, calls, m, y) && k < |Reported(c, calls)| && Reported(c, calls)[k].start == y.start
    ensures var z := Reported(c, calls)[k];
      z.len == y.len && 0 < z.len && z.start < z.End() && z.start + z.len <= |calls|
  {
    hide Reported, Low, Repeats;
    var z := Reported(c, calls)[k];
    assert z in Reported(c, calls);
    ReportedIsFirst(c, calls, z);
    var m' :| First(c, calls, m', z);
    hide Recorded;
    StartTellsBlock(c, calls, m, y, m', z);
    RecordedSound(c, calls, m', z);
  }

  /** Every recorded start is reported. */
  lemma AllReported(c: Config, calls: seq<Call>, n: nat, x: Span) returns (k: nat)
    requires c.Valid() && Recorded(c, calls, n, x)
    ensures k < |Reported(c, calls)| && Reported(c, calls)[k].start == x.start
  {
    hide Recorded, Reported, Ever;
    EverIsRecorded(c, calls, x.start);
    ReportedStarts(c, calls);
    k :| 0 <= k < |Reported(c, calls)| && Reported(c, calls)[k].start == x.start;
  }

  lemma FirstReportedAt(c: Config, calls: seq<Call>, n: nat, x: Span, k: nat)
    requires c.Valid() && First(c, calls, n, x) && k < |Reported(c, calls)| && Reported(c, calls)[k].start == x.start
    ensures Reported(c, calls)[k] == x
  {
    hide First, Reported;
    ReportedIsFirst(c, calls, x);
    ReportedStarts(c, calls);
  }

  lemma SameRunSymmetric(calls: seq<Call>, f: Finding, g: Finding)
    ensures SameRun(calls, f, g) <==> SameRun(calls, g, f)
  {
    hide Joined, Rotated;
    if f.evidence.LoopEvidence? && g.evidence.LoopEvidence? {
      RotatedSymmetric(f.evidence.tools, g.evidence.tools);
    }
  }

  lemma RotatedBlocks(t: seq<string>, x: Span, y: Span)
    ensures SameBlock(t, x, y) <==> SameBlock(t, y, x)
  {
    hide Rotated;
    if x.start + x.len <= |t| && y.start + y.len <= |t| {
      RotatedSymmetric(t[x.start..x.start + x.len], t[y.start..y.start + y.len]);
    }
  }

  /** With distinct event identifiers a run is reported twice exactly when the window cuts one: some
      loop has a second loop with the same block, up to rotation, start inside it or continue it, in a
      window that has moved. */
  lemma ReportedTwiceIff(c: Config, es: seq<Event>)
    requires c.Valid() && DistinctIds(CallsOf(es))
    ensures ReportedTwice(CallsOf(es), Run(c, es).1) <==> SomeRunCut(c, CallsOf(es))
  {
    hide Run, Cut, SameRun, CallsOf;
    if ReportedTwice(CallsOf(es), Run(c, es).1) {
      var j, k :| 0 <= j < k < |Run(c, es).1| && SameRun(CallsOf(es), Run(c, es).1[j], Run(c, es).1[k]);
      TwiceMeansCut(c, es, j, k);
    }
    if SomeRunCut(c, CallsOf(es)) {
      var n, x, m, y :| Cut(c, CallsOf(es), n, x, m, y);
      CutMeansTwice(c, es, n, x, m, y);
    }
  }

  predicate SameTimesAndNames(a: seq<Call>, b: seq<Call>) {
    && |a| == |b| && Names(a) == Names(b)
    && forall i :: 0 <= i < |a| ==> a[i].time == b[i].time
  }

  lemma {:induction false} SameLow(c: Config, a: seq<Call>, b: seq<Call>)
    requires SameTimesAndNames(a, b)
    ensures Low(c, a) == Low(c, b)
  {
    if a != [] {
      var n := |a| - 1;
      SamePrefix(a, b, n);
      SameLow(c, a[..n], b[..n]);
      SameSkip(a, b, Low(c, a[..n]), a[n].time - c.windowNanos);
    }
  }

  lemma {:induction false} SameSkip(a: seq<Call>, b: seq<Call>, lo: nat, cutoff: int)
    requires SameTimesAndNames(a, b) && lo <= |a|
    ensures SkipOld(a, lo, cutoff) == SkipOld(b, lo, cutoff)
    decreases |a| - lo
  {
    if lo < |a| {
      SameSkip(a, b, lo + 1, cutoff);
    }
  }

  lemma SamePrefix(a: seq<Call>, b: seq<Call>, n: nat)
    requires SameTimesAndNames(a, b) && n <= |a|
    ensures SameTimesAndNames(a[..n], b[..n])
  {
    assert Names(a[..n]) == Names(a)[..n] && Names(b[..n]) == Names(b)[..n];
  }

  lemma SameRecorded(c: Config, a: seq<Call>, b: seq<Call>, n: nat, x: Span)
    requires c.Valid() && SameTimesAndNames(a, b)
    ensures Recorded(c, a, n, x) <==> Recorded(c, b, n, x)
    ensures n <= |a| ==> Low(c, a[..n]) == Low(c, b[..n])
  {
    if n <= |a| {
      hide Low, Scan;
      RecordedIff(c, a, n, x);
      RecordedIff(c, b, n, x);
      SamePrefix(a, b, n);
      SameLow(c, a[..n], b[..n]);
    }
  }

  /** Whether a run is cut is told by the times and the tool names. */
  lemma CutIsTold(c: Config, a: seq<Call>, b: seq<Call>)
    requires c.Valid() && SameTimesAndNames(a, b)
    ensures SomeRunCut(c, a) <==> SomeRunCut(c, b)
  {
    hide Low, Recorded, SameBlock, Continues;
    forall n: nat, x: Span ensures Recorded(c, a, n, x) <==> Recorded(c, b, n, x) {
      SameRecorded(c, a, b, n, x);
    }
    forall n: nat, x: Span, m: nat, y: Span ensures Cut(c, a, n, x, m, y) <==> Cut(c, b, n, x, m, y) {
      if Recorded(c, a, n, x) && Recorded(c, a, m, y) {
        RecordedSound(c, a, n, x);
        RecordedSound(c, a, m, y);
        SameRecorded(c, a, b, n, x);
        SameRecorded(c, a, b, m, y);
      }
    }
  }

  // ---------------------------------------------------------------- while nothing expires

  /** The front of the window has not moved exactly when nothing has expired. */
  lemma {:induction false} LowIsZeroIff(c: Config, calls: seq<Call>)
    ensures Low(c, calls) == 0 <==> NothingExpires(c, calls)
  {
    if calls != [] {
      var n := |calls| - 1;
      LowIsZeroIff(c, calls[..n]);
      assert calls == calls[..n] + [calls[n]];
      assert n > 0 ==> calls[..n][0] == calls[0];
      assert NothingExpires(c, calls) ==> NothingExpires(c, calls[..n]);
      assert calls[n] in calls;
    }
  }

  lemma {:induction false} LowStaysZero(c: Config, calls: seq<Call>, n: nat)
    requires n <= |calls| && NothingExpires(c, calls)
    ensures Low(c, calls[..n]) == 0
  {
    forall x | x in calls[..n] ensures x in calls && calls[..n][0] == calls[0] {
    }
    LowIsZeroIff(c, calls[..n]);
  }

  /** Each run is reported once as long as no call has left the window. */
  lemma NeverTwice(c: Config, es: seq<Event>)
    requires c.Valid() && DistinctIds(CallsOf(es)) && NothingExpires(c, CallsOf(es))
    ensures !ReportedTwice(CallsOf(es), Run(c, es).1)
  {
    var calls := CallsOf(es);
    ReportedTwiceIff(c, es);
    forall n: nat, x: Span, m: nat, y: Span ensures !Cut(c, calls, n, x, m, y) {
      if Cut(c, calls, n, x, m, y) {
        LowStaysZero(c, calls, n);
        LowStaysZero(c, calls, m);
      }
    }
  }

  /** A loop first recorded in a step in which nothing expired has reached the threshold with the
      newest call. */
  lemma FirstAtThreshold(c: Config, calls: seq<Call>, n: nat, x: Span)
    requires c.Valid() && First(c, calls, n, x) && 0 < n && Low(c, calls[..n - 1]) == Low(c, calls[..n])
    ensures x.reps == c.minReps && x.End() == n
  {
    hide Low, Scan, Repeats, Recorded, First, Names, Blocks, Keys;
    FirstIsNew(c, calls, n, x);
    var lo, t := Low(c, calls[..n]), Names(calls);
    assert t[lo..n - 1] + [t[n - 1]] == t[lo..n];
    ScanStable(t[lo..n - 1], t[n - 1], c.minLen, c.minReps);
    assert Span(x.start - lo, x.len, x.reps) in Scan(t[lo..n], c.minLen, c.minReps);
  }

  lemma FirstIsNew(c: Config, calls: seq<Call>, n: nat, x: Span)
    requires c.Valid() && First(c, calls, n, x) && 0 < n && Low(c, calls[..n - 1]) == Low(c, calls[..n])
    ensures n <= |calls| == |Names(calls)| && Low(c, calls[..n]) <= x.start
    ensures var lo, t := Low(c, calls[..n]), Names(calls);
      && Span(x.start - lo, x.len, x.reps) in Scan(t[lo..n], c.minLen, c.minReps)
      && (x.start - lo, x.len) !in Keys(Scan(t[lo..n - 1], c.minLen, c.minReps))
  {
    hide Low, Scan, Repeats, Loops, Blocks;
    var lo, t := Low(c, calls[..n]), Names(calls);
    RecordedIff(c, calls, n, x);
    if (x.start - lo, x.len) in Keys(Scan(t[lo..n - 1], c.minLen, c.minReps)) {
      var z :| z in Scan(t[lo..n - 1], c.minLen, c.minReps) && (z.start, z.len) == (x.start - lo, x.len);
      RecordedIff(c, calls, n - 1, Shift(z, lo));
      assert false;
    }
  }

  // ---------------------------------------------------------------- how a run is cut

  /** Two runs of one block agree call by call. */
  lemma {:induction false} RunsAgree(t: seq<string>, a: nat, b: nat, len: nat, m: nat, i: nat)
    requires 0 < len && Repeats(t, a, len, m) && Repeats(t, b, len, m) && i < Blocks(len, m)
    requires a + len <= |t| && b + len <= |t| && t[a..a + len] == t[b..b + len]
    ensures t[a + i] == t[b + i]
  {
    if i < len {
      assert t[a..a + len][i] == t[b..b + len][i];
    } else {
      RunsAgree(t, a, b, len, m, i - len);
      assert t[a + i] == t[a + i - len] && t[b + i] == t[b + i - len];
    }
  }

  /** The blocks are equal as they stand. */
  predicate EqualBlock(t: seq<string>, x: Span, y: Span) {
    && x.len == y.len && x.start + x.len <= |t| && y.start + y.len <= |t|
    && t[x.start..x.start + x.len] == t[y.start..y.start + y.len]
  }

  lemma EqualIsSame(t: seq<string>, x: Span, y: Span)
    ensures EqualBlock(t, x, y) ==> SameBlock(t, x, y)
  {
    if EqualBlock(t, x, y) {
      var u := t[x.start..x.start + x.len];
      assert u == Turned(u, 0);
    }
  }

  /** The window's front comes to lie inside the loop or its continuation, with blocks of its length
      still repeating there often enough, and shorter ones not, as they cannot if the blocks are equal. */
  ghost predicate CutAtFront(c: Config, calls: seq<Call>, n: nat, x: Span, m: nat)
    requires c.Valid()
  {
    && First(c, calls, n, x) && m <= |calls|
    && var lo, t := Low(c, calls[..m]), Names(calls);
       var front := Span(lo, x.len, c.minReps);
       && x.start < lo && front.End() <= m && Repeats(t, lo, x.len, c.minReps)
       && (lo < x.End() || Continues(t, x, front))
       && (EqualBlock(t, x, front)
           || (SameBlock(t, x, front) && forall l: nat :: c.minLen <= l < x.len ==> !Repeats(t, lo, l, c.minReps)))
  }

  /** A run cut at the front is reported again. */
  lemma CutRunReportedAgain(c: Config, es: seq<Event>, n: nat, x: Span, m: nat)
    requires c.Valid() && DistinctIds(CallsOf(es)) && CutAtFront(c, CallsOf(es), n, x, m)
    ensures ReportedTwice(CallsOf(es), Run(c, es).1)
  {
    hide Run, CallsOf, CutAtFront, Cut;
    CutAtFrontIsCut(c, CallsOf(es), n, x, m);
    ReportedTwiceIff(c, es);
  }

  lemma CutAtFrontIsCut(c: Config, calls: seq<Call>, n: nat, x: Span, m: nat)
    requires c.Valid() && CutAtFront(c, calls, n, x, m)
    ensures SomeRunCut(c, calls)
  {
    var y := FrontRecorded(c, calls, n, x, m);
    EqualIsSame(Names(calls), x, y);
    hide Low, Recorded, Blocks, Repeats, Rotated, EqualBlock, Periodic;
    RecordedSound(c, calls, n, x);
    assert Cut(c, calls, n, x, m, y);
  }

  lemma FrontRecorded(c: Config, calls: seq<Call>, n: nat, x: Span, m: nat) returns (y: Span)
    requires c.Valid() && CutAtFront(c, calls, n, x, m)
    ensures Recorded(c, calls, m, y) && y.start == Low(c, calls[..m]) && y.len == x.len
  {
    hide Low, Recorded, Repeats, Blocks, SameBlock, Continues;
    var lo, t := Low(c, calls[..m]), Names(calls);
    RecordedSound(c, calls, n, x);
    y := LoopAtFront(c, calls, m, x.len);
    RecordedSound(c, calls, m, y);
    RecordedIsShortest(c, calls, m, y, x.len);
    if EqualBlock(t, x, Span(lo, x.len, c.minReps)) {
      ShorterBlockAlso(t, lo, x.start, x.len, y.len, c.minReps);
      RecordedIsShortest(c, calls, n, x, y.len);
    }
  }

  lemma LoopAtFront(c: Config, calls: seq<Call>, m: nat, block: nat) returns (y: Span)
    requires c.Valid() && m <= |calls| && c.minLen <= block
    requires var lo := Low(c, calls[..m]);
      lo + Blocks(block, c.minReps) <= m && Repeats(Names(calls), lo, block, c.minReps)
    ensures Recorded(c, calls, m, y) && y.start == Low(c, calls[..m])
  {
    var lo, t := Low(c, calls[..m]), Names(calls);
    RepeatsInWindow(t, lo, m, 0, block, c.minReps);
    hide Low, Recorded, Scan, Repeats, Blocks;
    ScanComplete(Window(c, calls, m), c.minLen, c.minReps, block, 0);
    var z :| z in Scan(Window(c, calls, m), c.minLen, c.minReps) && z.start <= 0 < z.End();
    y := Shift(z, lo);
    RecordedIff(c, calls, m, y);
  }

  lemma ShorterBlockAlso(t: seq<string>, a: nat, b: nat, len: nat, shorter: nat, m: nat)
    requires 0 < shorter <= len && Repeats(t, a, len, m) && Repeats(t, b, len, m) && Repeats(t, a, shorter, m)
    requires a + len <= |t| && b + len <= |t| && t[a..a + len] == t[b..b + len]
    ensures Repeats(t, b, shorter, m)
  {
    BlocksMonoLen(shorter, len, m);
    forall p | b + shorter <= p < b + Blocks(shorter, m) ensures t[p] == t[p - shorter] {
      RunsAgree(t, a, b, len, m, p - b);
      RunsAgree(t, a, b, len, m, p - b - shorter);
      assert t[a + (p - b)] == t[a + (p - b) - shorter];
    }
  }

  /** One call of these every second. */
  predicate EverySecond(calls: seq<Call>) {
    forall i :: 0 <= i < |calls| ==> calls[i].time == calls[0].time + i * SECOND
  }

  lemma {:induction false} FrontOfEven(c: Config, calls: seq<Call>, w: nat)
    requires EverySecond(calls) && c.windowNanos == w * SECOND && 0 < w
    ensures Low(c, calls) == if |calls| <= w + 1 then 0 else |calls| - 1 - w
  {
    if calls != [] {
      var n := |calls| - 1;
      FrontOfEven(c, calls[..n], w);
      hide Low;
      LowNext(c, calls);
      var lo := Low(c, calls[..n]);
      assert calls[n].time - c.windowNanos == calls[0].time + (n - w) * SECOND;
      if n > w {
        assert SkipOld(calls, lo + 1, calls[n].time - c.windowNanos) == lo + 1;
      }
    }
  }

  lemma LowNext(c: Config, calls: seq<Call>)
    requires calls != [] && c.windowNanos != 0
    ensures var n := |calls| - 1;
      Low(c, calls) == SkipOld(calls, Low(c, calls[..n]), calls[n].time - c.windowNanos)
  {
  }

  /** The calls start with a run of blocks of the least length that just reaches the threshold. */
  lemma FrontIsFirst(c: Config, calls: seq<Call>, n: nat) returns (x: Span)
    requires c.Valid() && n <= |calls| && Low(c, calls[..n]) == 0 && n == Blocks(c.minLen, c.minReps)
    requires Repeats(Names(calls), 0, c.minLen, c.minReps)
    ensures First(c, calls, n, x) && x == Span(0, c.minLen, c.minReps)
  {
    x := LoopAtFront(c, calls, n, c.minLen);
    RecordedSound(c, calls, n, x);
    RecordedIsShortest(c, calls, n, x, c.minLen);
    hide Low, Recorded, Repeats;
    if c.minReps < x.reps {
      BlocksMono(x.len, c.minReps, x.reps);
      assert false;
    }
    forall m: nat, y: Span | m < n && Recorded(c, calls, m, y) ensures y.start != x.start {
      RecordedSound(c, calls, m, y);
      BlocksMonoLen(c.minLen, y.len, c.minReps);
    }
  }

  /** A run of blocks of the least length, one call longer than the threshold asks and the window
      holds, is cut by its last call. */
  lemma EvenRunIsCut(c: Config, calls: seq<Call>)
    requires c.Valid() && EverySecond(calls) && |calls| > 2 && c.windowNanos == (|calls| - 2) * SECOND
    requires |calls| == Blocks(c.minLen, c.minReps) + 1 && Periodic(Names(calls), c.minLen, c.minLen, |calls|)
    ensures SomeRunCut(c, calls)
  {
    var n, t := |calls| - 1, Names(calls);
    assert calls[..n + 1] == calls;
    FrontOfEven(c, calls[..n], n - 1);
    FrontOfEven(c, calls, n - 1);
    BlocksAtLeast(c.minLen, c.minReps);
    var x := FrontIsFirst(c, calls, n);
    hide Low, First, Blocks;
    var front := Span(1, c.minLen, c.minReps);
    TurnedByOne(t, c.minLen);
    assert CutAtFront(c, calls, n, x, n + 1);
    CutAtFrontIsCut(c, calls, n, x, n + 1);
  }

  lemma TurnedByOne(t: seq<string>, len: nat)
    requires 0 < len < |t| && Periodic(t, len, len, len + 1)
    ensures Rotated(t[0..len], t[1..1 + len])
  {
    assert t[1..1 + len] == Turned(t[0..len], 1) by {
      assert t[len] == t[0];
    }
  }

  /** So a run is not always reported once: under a window of one second and a threshold of two, any
      three calls of one tool one second apart are reported as one run twice; */
  lemma OnceFailsWithWindow(es: seq<Event>)
    requires DistinctIds(CallsOf(es)) && |CallsOf(es)| == 3 && EverySecond(CallsOf(es))
    requires Periodic(Names(CallsOf(es)), 1, 1, 3)
    ensures ReportedTwice(CallsOf(es), Run(Config(1, 2, SECOND), es).1)
  {
    hide CallsOf, Run;
    assert Blocks(1, 1) == 1 && Blocks(1, 2) == 2;
    EvenRunIsCut(Config(1, 2, SECOND), CallsOf(es));
    ReportedTwiceIff(Config(1, 2, SECOND), es);
  }

  /** and under a window of three seconds, a threshold of two and a least length of two, any five
      calls of alternating tools are reported as one run twice, the second time with its block turned. */
  lemma TurnedRunReportedAgain(es: seq<Event>)
    requires DistinctIds(CallsOf(es)) && |CallsOf(es)| == 5 && EverySecond(CallsOf(es))
    requires Periodic(Names(CallsOf(es)), 2, 2, 5)
    ensures ReportedTwice(CallsOf(es), Run(Config(2, 2, 3 * SECOND), es).1)
  {
    hide CallsOf, Run;
    assert Blocks(2, 1) == 2 && Blocks(2, 2) == 4;
    EvenRunIsCut(Config(2, 2, 3 * SECOND), CallsOf(es));
    ReportedTwiceIff(Config(2, 2, 3 * SECOND), es);
  }

  // ---------------------------------------------------------------- finding by finding

  /** The finding names the detection's block, and the detection's events as far as they were known
      when the threshold was reached. */
  predicate Finds(c: Config, f: Finding, d: Detection) {
    && f.evidence.LoopEvidence? && f.evidence.tools == d.tools && f.evidence.reps == c.minReps <= d.reps
    && f.eventIds != [] && f.eventIds <= d.eventIds
  }

  lemma {:induction false} StartsCount(xs: seq<Span>)
    requires DistinctStarts(xs)
    ensures |Starts(xs)| == |xs|
  {
    if xs != [] {
      var init, last := xs[..|xs| - 1], xs[|xs| - 1];
      StartsCount(init);
      assert last.start !in Starts(init);
      StartsConcat(init, [last]);
      assert Starts([last]) == {last.start};
      hide Starts, DistinctStarts;
      assert init + [last] == xs;
    }
  }

  /** While nothing expires the starts ever seen are those of the loops in the window. */
  lemma EverIsNow(c: Config, calls: seq<Call>)
    requires c.Valid() && NothingExpires(c, calls)
    ensures Loops(c, calls) == Spans(c, calls) && Ever(c, calls) == Starts(Spans(c, calls))
  {
    LowIsZeroIff(c, calls);
    hide Spans, Low, Ever;
    assert calls[0..] == calls && calls[..|calls|] == calls;
    assert Loops(c, calls) == Spans(c, calls);
    forall g: nat ensures g in Ever(c, calls) <==> g in Starts(Loops(c, calls)) {
      EverIsRecorded(c, calls, g);
      if n: nat, x: Span :| Recorded(c, calls, n, x) && x.start == g {
        LowStaysZero(c, calls, n);
        var y := RecordedStays(c, calls, n, x, |calls|);
      }
      if x :| x in Loops(c, calls) && x.start == g {
        assert Recorded(c, calls, |calls|, x);
      }
    }
  }

  /** The loops reported and the loops the batch reference finds match, start by start. */
  lemma ReportedAndScanned(c: Config, calls: seq<Call>)
    requires c.Valid() && NothingExpires(c, calls)
    ensures var rs, xs := Reported(c, calls), Spans(c, calls);
      && |rs| == |xs| && DistinctStarts(rs) && Starts(rs) == Starts(xs)
  {
    hide Spans, Loops, Reported, Low, Starts, DistinctStarts;
    EverIsNow(c, calls);
    ReportedStarts(c, calls);
    SpansStartApart(c, calls);
    StartsCount(Reported(c, calls));
    StartsCount(Spans(c, calls));
  }

  /** A reported loop is, while nothing expires, the first `minReps` blocks of a scanned one. */
  lemma ReportOfSpan(c: Config, calls: seq<Call>, x: Span, k: nat)
    requires c.Valid() && NothingExpires(c, calls) && x in Spans(c, calls)
    requires k < |Reported(c, calls)| && Reported(c, calls)[k].start == x.start
    ensures Reported(c, calls)[k] == Span(x.start, x.len, c.minReps) && c.minReps <= x.reps && 0 < x.len
    ensures x.start < x.start + Blocks(x.len, c.minReps) <= x.End() <= |calls| && x.start + x.len <= |calls|
  {
    hide Spans, Loops, Reported, Low, Repeats, Scan;
    var z := Reported(c, calls)[k];
    assert calls[..|calls|] == calls && z in Reported(c, calls);
    EverIsNow(c, calls);
    assert Recorded(c, calls, |calls|, x);
    RecordedSound(c, calls, |calls|, x);
    BlocksAtLeast(x.len, c.minReps);
    ReportedIsFirst(c, calls, z);
    var n: nat :| First(c, calls, n, z);
    StartTellsBlock(c, calls, n, z, |calls|, x);
    RecordedSound(c, calls, n, z);
    LowStaysZero(c, calls, n);
    LowStaysZero(c, calls, n - 1);
    FirstAtThreshold(c, calls, n, z);
  }

  lemma FindsIff(c: Config, calls: seq<Call>, f: Finding, r: Span, x: Span)
    requires DistinctIds(calls) && Renders(f, calls, r) && Fits(c, x, |calls|)
    ensures r.start == x.start && r.len == x.len && r.reps == c.minReps && r.End() <= x.End()
            ==> Finds(c, f, ToDetection(c, calls, x))
    ensures Finds(c, f, ToDetection(c, calls, x)) ==> r.start == x.start
  {
    var d := ToDetection(c, calls, x);
    if Finds(c, f, d) {
      assert f.eventIds[0] == calls[r.start].id && d.eventIds[0] == calls[x.start].id;
    }
  }

  ghost predicate FoundExactlyOnce(c: Config, fs: seq<Finding>, d: Detection) {
    exists k :: 0 <= k < |fs| && Finds(c, fs[k], d) && (forall l :: 0 <= l < |fs| && Finds(c, fs[l], d) ==> l == k)
  }

  /** Streaming agrees with batch, finding by finding: while nothing expires there are as many
      findings as batch detections, and each detection has exactly one finding, with its block and
      its first `minReps` repetitions. */
  lemma EachDetectionFoundOnce(c: Config, es: seq<Event>)
    requires c.Valid() && DistinctIds(CallsOf(es)) && NothingExpires(c, CallsOf(es))
    ensures var (fs, ds) := (Run(c, es).1, Report(c, CallsOf(es), Spans(c, CallsOf(es))));
      |fs| == |ds| && forall d <- ds :: FoundExactlyOnce(c, fs, d)
  {
    var calls, fs := CallsOf(es), Run(c, es).1;
    var xs := Spans(c, calls);
    FindingsAreNewLoops(c, es);
    ReportedAndScanned(c, calls);
    hide Run, CallsOf, Spans, Reported, Renders, DistinctIds, Finds, ToDetection;
    forall i | 0 <= i < |xs| ensures FoundExactlyOnce(c, fs, Report(c, calls, xs)[i]) {
      var k := FoundOnce(c, calls, fs, i);
    }
  }

  lemma FoundOnce(c: Config, calls: seq<Call>, fs: seq<Finding>, i: nat) returns (k: nat)
    requires c.Valid() && DistinctIds(calls) && NothingExpires(c, calls) && AllRender(fs, calls, Reported(c, calls))
    requires i < |Spans(c, calls)|
    ensures var d := ToDetection(c, calls, Spans(c, calls)[i]);
      && k < |fs| && Finds(c, fs[k], d)
      && forall l :: 0 <= l < |fs| && Finds(c, fs[l], d) ==> l == k
  {
    var x, rs := Spans(c, calls)[i], Reported(c, calls);
    assert x in Spans(c, calls);
    ReportedAndScanned(c, calls);
    assert x.start in Starts(Spans(c, calls));
    hide Spans, Reported, Renders, DistinctIds, Finds;
    k :| 0 <= k < |rs| && rs[k].start == x.start;
    ReportOfSpan(c, calls, x, k);
    forall l | 0 <= l < |fs| && Finds(c, fs[l], ToDetection(c, calls, x)) ensures l == k {
      assert Renders(fs[l], calls, rs[l]);
      FindsIff(c, calls, fs[l], rs[l], x);
    }
    assert Renders(fs[k], calls, rs[k]);
    FindsIff(c, calls, fs[k], rs[k], x);
  }
}
