/** The search for repeated blocks in a sequence of tool names.

    The streaming detector (internal/analyzer/detectors/loop.go) and the batch
    reference (archive/.../loop_detector.py) run the same three nested loops.
    `Scan` is the function both are proved to compute; this module proves what the
    spans it reports mean, and how they change when one more call arrives. */
module LoopScan {

  /** The total length of `m` blocks of length `len`. */
  function Blocks(len: nat, m: nat): nat {
    if m == 0 then 0 else len + Blocks(len, m - 1)
  }

  lemma {:induction m} BlocksIsProduct(len: nat, m: nat)
    ensures Blocks(len, m) == len * m
  {
  }

  lemma {:induction m} BlocksAtLeast(len: nat, m: nat)
    requires 0 < len && 0 < m
    ensures Blocks(len, m) >= len && Blocks(len, m) >= m
  {
  }

  lemma {:induction k} BlocksMono(len: nat, m: nat, k: nat)
    requires m <= k
    ensures Blocks(len, m) <= Blocks(len, k)
    ensures m < k ==> Blocks(len, m) + len <= Blocks(len, k)
    decreases k
  {
  }

  lemma {:induction m} BlocksMonoLen(len: nat, len2: nat, m: nat)
    ensures len <= len2 ==> Blocks(len, m) <= Blocks(len2, m)
  {
  }

  lemma {:induction m} BlocksNextLen(len: nat, m: nat)
    ensures Blocks(len + 1, m) == Blocks(len, m) + m
  {
  }

  /** A recorded loop: the block `t[start..start+len]`, seen `reps` times in a row. */
  datatype Span = Span(start: nat, len: nat, reps: nat) {
    function End(): nat { start + Blocks(len, reps) }
  }

  /** The first position at or after `j` where the copies of `w` starting at `j` stop. */
  function Copies(t: seq<string>, w: seq<string>, j: nat): (r: nat)
    requires w != []
    decreases |t| - j
  {
    if j + |w| <= |t| && t[j..j + |w|] == w then 1 + Copies(t, w, j + |w|) else 0
  }

  /** The number of times the block of length `len` at `i` occurs in a row. */
  function Reps(t: seq<string>, i: nat, len: nat): nat
    requires 0 < len && i + len <= |t|
  {
    1 + Copies(t, t[i..i + len], i + len)
  }

  /** Position `p` lies inside one of the spans. */
  ghost predicate Covered(spans: seq<Span>, p: int) {
    exists s <- spans :: s.start <= p < s.End()
  }

  /** The spans of block length `len` found from position `i` on, when `prev` are the
      spans already found for shorter blocks. */
  ghost function Pass(t: seq<string>, len: nat, minReps: nat, i: nat, prev: seq<Span>): seq<Span>
    requires 0 < len && 0 < minReps
    decreases |t| - i
  {
    BlocksAtLeast(len, minReps);
    if i + Blocks(len, minReps) > |t| then []
    else if Covered(prev, i) then Pass(t, len, minReps, i + 1, prev)
    else
      var reps := Reps(t, i, len);
      BlocksAtLeast(len, reps);
      if reps >= minReps then [Span(i, len, reps)] + Pass(t, len, minReps, i + Blocks(len, reps), prev)
      else Pass(t, len, minReps, i + 1, prev)
  }

  /** Runs the passes for `len`, `len + 1`, ... while `minReps` blocks can still fit. */
  ghost function ScanFrom(t: seq<string>, len: nat, minReps: nat, prev: seq<Span>): seq<Span>
    requires 0 < len && 0 < minReps
    decreases |t| - len
  {
    BlocksAtLeast(len, minReps);
    if Blocks(len, minReps) > |t| then prev
    else ScanFrom(t, len + 1, minReps, prev + Pass(t, len, minReps, 0, prev))
  }

  ghost function Scan(t: seq<string>, minLen: nat, minReps: nat): seq<Span>
    requires 0 < minLen && 0 < minReps
  {
    ScanFrom(t, minLen, minReps, [])
  }

  // ---------------------------------------------------------------- meaning of a span

  /** Every element of `t[lo..hi]` equals the one `len` places before it. */
  ghost predicate Periodic(t: seq<string>, len: nat, lo: nat, hi: nat)
    requires len <= lo && hi <= |t|
  {
    forall p :: lo <= p < hi ==> t[p] == t[p - len]
  }

  /** `m` blocks of length `len` fit at `i`, each equal to the one before it. */
  ghost predicate Repeats(t: seq<string>, i: nat, len: nat, m: nat) {
    i + Blocks(len, m) <= |t| && Periodic(t, len, i + len, i + Blocks(len, m))
  }

  lemma PeriodicIsBlockEquality(t: seq<string>, len: nat, j: nat)
    requires len <= j && j + len <= |t|
    ensures Periodic(t, len, j, j + len) <==> t[j..j + len] == t[j - len..j]
  {
    if t[j..j + len] == t[j - len..j] {
      forall p | j <= p < j + len ensures t[p] == t[p - len] {
        assert t[p] == t[j..j + len][p - j];
        assert t[p - len] == t[j - len..j][p - j];
      }
    }
  }

  lemma PeriodicStep(t: seq<string>, len: nat, j: nat, hi: nat)
    requires len <= j && j + len <= hi <= |t|
    ensures Periodic(t, len, j, hi) <==> t[j..j + len] == t[j - len..j] && Periodic(t, len, j + len, hi)
  {
    PeriodicIsBlockEquality(t, len, j);
  }

  /** A block repeats at least `m` times exactly when the inner loop counts `m` or more. */
  lemma {:induction false} RepsIffRepeats(t: seq<string>, i: nat, len: nat, m: nat)
    requires 0 < len && 0 < m && i + len <= |t|
    ensures Reps(t, i, len) >= m <==> Repeats(t, i, len, m)
  {
    CopiesIff(t, t[i..i + len], i + len, m - 1);
  }

  lemma {:induction false} CopiesIff(t: seq<string>, w: seq<string>, j: nat, m: nat)
    requires w != [] && |w| <= j <= |t| && t[j - |w|..j] == w
    ensures Copies(t, w, j) >= m <==> j + Blocks(|w|, m) <= |t| && Periodic(t, |w|, j, j + Blocks(|w|, m))
    decreases m
  {
    if m > 0 && j + |w| <= |t| {
      if t[j..j + |w|] == w {
        CopiesIff(t, w, j + |w|, m - 1);
      }
      if j + Blocks(|w|, m) <= |t| {
        PeriodicStep(t, |w|, j, j + Blocks(|w|, m));
      }
    }
  }

  // ---------------------------------------------------------------- one pass

  /** The inner loop counted exactly `s.reps` blocks at `s.start`, and at least `minReps`. */
  ghost predicate Genuine(t: seq<string>, minReps: nat, s: Span) {
    && 0 < s.len && s.start + s.len <= |t|
    && s.reps == Reps(t, s.start, s.len) >= minReps
  }

  /** What a pass does when it reaches a loop not yet covered. */
  lemma PassAtLoop(t: seq<string>, len: nat, minReps: nat, i: nat, reps: nat, prev: seq<Span>)
    requires 0 < len && 0 < minReps && i + len <= |t| && i + Blocks(len, minReps) <= |t|
    requires !Covered(prev, i) && reps == Reps(t, i, len) && reps >= minReps
    ensures i < i + Blocks(len, reps)
    ensures Pass(t, len, minReps, i, prev) == [Span(i, len, reps)] + Pass(t, len, minReps, i + Blocks(len, reps), prev)
  {
    hide Covered, Copies;
    BlocksAtLeast(len, reps);
  }

  /** Each span ends before the next one starts. */
  ghost predicate Disjoint(spans: seq<Span>) {
    forall a, b :: 0 <= a < b < |spans| ==> spans[a].End() <= spans[b].start
  }

  lemma RepsPositive(t: seq<string>, i: nat, len: nat)
    requires 0 < len && i + len <= |t|
    ensures Reps(t, i, len) > 0
  {
  }

  lemma {:induction false} PassSound(t: seq<string>, len: nat, minReps: nat, i: nat, prev: seq<Span>)
    requires 0 < len && 0 < minReps
    ensures var P := Pass(t, len, minReps, i, prev);
      && Disjoint(P)
      && forall s <- P :: i <= s.start && s.len == len && Genuine(t, minReps, s) && !Covered(prev, s.start)
    decreases |t| - i
  {
    hide Covered, Reps;
    BlocksAtLeast(len, minReps);
    if i + Blocks(len, minReps) > |t| {
    } else if Covered(prev, i) {
      PassSound(t, len, minReps, i + 1, prev);
    } else {
      var reps := Reps(t, i, len);
      RepsPositive(t, i, len);
      BlocksAtLeast(len, reps);
      if reps >= minReps {
        PassSound(t, len, minReps, i + Blocks(len, reps), prev);
      } else {
        PassSound(t, len, minReps, i + 1, prev);
      }
    }
  }

  lemma {:induction false} PassComplete(t: seq<string>, len: nat, minReps: nat, i: nat, prev: seq<Span>, p: nat)
    requires 0 < len && 0 < minReps && i <= p && Repeats(t, p, len, minReps)
    ensures Covered(prev, p) || Covered(Pass(t, len, minReps, i, prev), p)
    decreases |t| - i
  {
    BlocksAtLeast(len, minReps);
    if Covered(prev, i) {
      if i < p { PassComplete(t, len, minReps, i + 1, prev, p); }
    } else {
      var reps := Reps(t, i, len);
      BlocksAtLeast(len, reps);
      RepsIffRepeats(t, i, len, minReps);
      if reps >= minReps {
        var rest := Pass(t, len, minReps, i + Blocks(len, reps), prev);
        var first := Span(i, len, reps);
        assert Pass(t, len, minReps, i, prev) == [first] + rest;
        CoveredConcat([first], rest, p);
        if i + Blocks(len, reps) <= p {
          PassComplete(t, len, minReps, i + Blocks(len, reps), prev, p);
        } else {
          assert first in [first];
        }
      } else {
        PassComplete(t, len, minReps, i + 1, prev, p);
      }
    }
  }

  lemma CoveredConcat(a: seq<Span>, b: seq<Span>, p: int)
    ensures Covered(a + b, p) <==> Covered(a, p) || Covered(b, p)
  {
    if Covered(a, p) {
      var s :| s in a && s.start <= p < s.End();
      assert s in a + b;
    }
    if Covered(b, p) {
      var s :| s in b && s.start <= p < s.End();
      assert s in a + b;
    }
  }

  lemma CoveredOne(x: Span, p: int)
    ensures Covered([x], p) <==> x.start <= p < x.End()
  {
    assert x in [x];
    assert forall s <- [x] :: s == x;
  }

  // ---------------------------------------------------------------- the whole scan

  /** What the recorded spans satisfy: no span starts inside an earlier one, and spans of
      equal block length do not overlap at all. */
  ghost predicate WellPlaced(spans: seq<Span>) {
    forall a, b :: 0 <= a < b < |spans| ==>
      && spans[a].len <= spans[b].len
      && !(spans[a].start <= spans[b].start < spans[a].End())
      && (spans[a].len == spans[b].len ==> spans[a].End() <= spans[b].start)
  }

  ghost predicate ScanInvariant(t: seq<string>, minLen: nat, len: nat, minReps: nat, spans: seq<Span>) {
    && WellPlaced(spans)
    && forall s <- spans :: minLen <= s.len < len && Genuine(t, minReps, s)
  }

  lemma PassExtends(t: seq<string>, minLen: nat, len: nat, minReps: nat, prev: seq<Span>)
    requires 0 < minLen <= len && 0 < minReps && ScanInvariant(t, minLen, len, minReps, prev)
    ensures ScanInvariant(t, minLen, len + 1, minReps, prev + Pass(t, len, minReps, 0, prev))
  {
    var P := Pass(t, len, minReps, 0, prev);
    PassSound(t, len, minReps, 0, prev);
    var both := prev + P;
    forall a, b | 0 <= a < b < |both|
      ensures both[a].len <= both[b].len
      ensures !(both[a].start <= both[b].start < both[a].End())
      ensures both[a].len == both[b].len ==> both[a].End() <= both[b].start
    {
      if b < |prev| {
      } else if a < |prev| {
        assert both[a] in prev && both[b] in P;
        assert !Covered(prev, both[b].start);
      } else {
        assert P[a - |prev|].End() <= P[b - |prev|].start;
        assert both[a] in P && both[b] in P;
      }
    }
    forall s | s in both ensures minLen <= s.len < len + 1 && Genuine(t, minReps, s) {
      assert s in prev || s in P;
    }
  }

  lemma {:induction false} ScanFromSound(t: seq<string>, minLen: nat, len: nat, minReps: nat, prev: seq<Span>)
    returns (last: nat)
    requires 0 < minLen <= len && 0 < minReps && ScanInvariant(t, minLen, len, minReps, prev)
    ensures ScanInvariant(t, minLen, last, minReps, ScanFrom(t, len, minReps, prev))
    decreases |t| - len
  {
    hide Pass, ScanInvariant;
    BlocksAtLeast(len, minReps);
    if Blocks(len, minReps) <= |t| {
      PassExtends(t, minLen, len, minReps, prev);
      last := ScanFromSound(t, minLen, len + 1, minReps, prev + Pass(t, len, minReps, 0, prev));
    } else {
      last := len;
    }
  }

  /** Every recorded span is a block of admissible length repeated exactly `reps` times, with
      at least `minReps` repetitions and no further copy behind it; spans are placed apart. */
  lemma ScanSoundAndMaximal(t: seq<string>, minLen: nat, minReps: nat)
    requires 0 < minLen && 0 < minReps
    ensures WellPlaced(Scan(t, minLen, minReps))
    ensures forall s <- Scan(t, minLen, minReps) ::
      && minLen <= s.len <= |t| / minReps && minReps <= s.reps
      && Repeats(t, s.start, s.len, s.reps) && !Repeats(t, s.start, s.len, s.reps + 1)
  {
    var _ := ScanFromSound(t, minLen, minLen, minReps, []);
    forall s | s in Scan(t, minLen, minReps)
      ensures minLen <= s.len <= |t| / minReps && minReps <= s.reps
      ensures Repeats(t, s.start, s.len, s.reps) && !Repeats(t, s.start, s.len, s.reps + 1)
    {
      assert Genuine(t, minReps, s);
      RepsIffRepeats(t, s.start, s.len, s.reps);
      RepsIffRepeats(t, s.start, s.len, s.reps + 1);
      BlocksMono(s.len, minReps, s.reps);
      QuotientIff(|t|, s.len, minReps);
    }
  }

  lemma QuotientIff(n: nat, len: nat, m: nat)
    requires 0 < m
    ensures Blocks(len, m) <= n <==> len <= n / m
  {
    var q := n / m;
    assert Blocks(q, m) <= n < Blocks(q, m) + m by {
      BlocksIsProduct(q, m);
      assert q * m == n - n % m;
    }
    BlocksMonoLen(len, q, m);
    BlocksNextLen(q, m);
    BlocksMonoLen(q + 1, len, m);
  }

  lemma {:induction false} ScanFromComplete(t: seq<string>, len: nat, minReps: nat, prev: seq<Span>, block: nat, p: nat)
    requires 0 < len && 0 < minReps
    requires (len <= block && Repeats(t, p, block, minReps)) || Covered(prev, p)
    ensures Covered(ScanFrom(t, len, minReps, prev), p)
    decreases |t| - len
  {
    BlocksAtLeast(len, minReps);
    if Blocks(len, minReps) <= |t| {
      var P := Pass(t, len, minReps, 0, prev);
      if len == block && !Covered(prev, p) {
        PassComplete(t, len, minReps, 0, prev, p);
      }
      CoveredConcat(prev, P, p);
      ScanFromComplete(t, len + 1, minReps, prev + P, block, p);
    } else if !Covered(prev, p) {
      BlocksMonoLen(len, block, minReps);
      assert false;
    }
  }

  /** No loop escapes: wherever some block of length at least `minLen` occurs `minReps` times
      in a row, its first position lies inside a recorded span. */
  lemma ScanComplete(t: seq<string>, minLen: nat, minReps: nat, block: nat, p: nat)
    requires 0 < minLen <= block && 0 < minReps && Repeats(t, p, block, minReps)
    ensures Covered(Scan(t, minLen, minReps), p)
  {
    ScanFromComplete(t, minLen, minReps, [], block, p);
  }

  /** A span is recorded exactly when there is a loop to record. */
  lemma ScanEmptyIff(t: seq<string>, minLen: nat, minReps: nat)
    requires 0 < minLen && 0 < minReps
    ensures Scan(t, minLen, minReps) != []
       <==> exists block: nat, p: nat :: minLen <= block && Repeats(t, p, block, minReps)
  {
    var S := Scan(t, minLen, minReps);
    if S != [] {
      ScanSoundAndMaximal(t, minLen, minReps);
      var s := S[0];
      assert s in S;
      RepsIffRepeats(t, s.start, s.len, s.reps);
      RepsIffRepeats(t, s.start, s.len, minReps);
      assert Repeats(t, s.start, s.len, minReps);
    }
    if block: nat, p: nat :| minLen <= block && Repeats(t, p, block, minReps) {
      ScanComplete(t, minLen, minReps, block, p);
    }
  }

  // ---------------------------------------------------------------- one more call arrives

  /** Which loops are recorded: where each starts and how long its block is. */
  ghost function Keys(spans: seq<Span>): set<(nat, nat)> {
    set s <- spans :: (s.start, s.len)
  }

  ghost predicate SameCover(a: seq<Span>, b: seq<Span>, limit: int) {
    forall p: nat :: p <= limit ==> (Covered(a, p) <==> Covered(b, p))
  }

  /** `b` records every loop of `a`; any further one has its `minReps`-th block ending at `size`. */
  ghost predicate GrowsAtEnd(a: seq<Span>, b: seq<Span>, minReps: nat, size: nat) {
    && Keys(a) <= Keys(b)
    && forall s <- b :: (s.start, s.len) in Keys(a) || s.start + Blocks(s.len, minReps) == size
  }

  lemma GrowsAtEndConcat(a: seq<Span>, b: seq<Span>, a': seq<Span>, b': seq<Span>, minReps: nat, size: nat)
    requires GrowsAtEnd(a, b, minReps, size) && GrowsAtEnd(a', b', minReps, size)
    ensures GrowsAtEnd(a + a', b + b', minReps, size)
  {
    KeysConcat(a, a');
    KeysConcat(b, b');
  }

  lemma KeysConcat(a: seq<Span>, b: seq<Span>)
    ensures Keys(a + b) == Keys(a) + Keys(b)
  {
    forall k | k in Keys(a) + Keys(b) ensures k in Keys(a + b) {
      var s :| (s in a || s in b) && k == (s.start, s.len);
      assert s in a + b;
    }
  }

  lemma SameCoverConcat(a: seq<Span>, b: seq<Span>, a': seq<Span>, b': seq<Span>, limit: int)
    requires SameCover(a, b, limit) && SameCover(a', b', limit)
    ensures SameCover(a + a', b + b', limit)
  {
    forall p: nat | p <= limit ensures Covered(a + a', p) <==> Covered(b + b', p) {
      CoveredConcat(a, a', p);
      CoveredConcat(b, b', p);
    }
  }

  /** A repetition that fits in `t` is the same repetition in `t + [x]`. */
  lemma RepeatsPrefix(t: seq<string>, x: string, i: nat, len: nat, m: nat)
    requires i + Blocks(len, m) <= |t|
    ensures Repeats(t, i, len, m) <==> Repeats(t + [x], i, len, m)
  {
    var t2 := t + [x];
    if Repeats(t2, i, len, m) {
      forall p | i + len <= p < i + Blocks(len, m) ensures t[p] == t[p - len] {
        assert t2[p] == t2[p - len];
      }
    }
  }

  /** A run that gets longer when `x` arrives must have reached the old end. */
  lemma RunGrows(t: seq<string>, x: string, i: nat, len: nat)
    requires 0 < len && i + len <= |t|
    ensures var r, r2 := Reps(t, i, len), Reps(t + [x], i, len);
      r <= r2 && (r < r2 ==> i + Blocks(len, r) + len > |t|)
  {
    var r, r2 := Reps(t, i, len), Reps(t + [x], i, len);
    assert (t + [x])[i..i + len] == t[i..i + len];
    RepsIffRepeats(t, i, len, r);
    RepeatsPrefix(t, x, i, len, r);
    RepsIffRepeats(t + [x], i, len, r);
    if r < r2 && i + Blocks(len, r) + len <= |t| {
      assert Blocks(len, r + 1) == Blocks(len, r) + len;
      RepsIffRepeats(t + [x], i, len, r + 1);
      RepeatsPrefix(t, x, i, len, r + 1);
      RepsIffRepeats(t, i, len, r + 1);
      assert false;
    }
  }

  /** How a pass over `t` and a pass over `t + [x]`, both from `i`, compare. */
  ghost predicate StablePass(t: seq<string>, x: string, len: nat, minReps: nat, i: nat, prev: seq<Span>,
                             prev2: seq<Span>)
    requires 0 < len && 0 < minReps
  {
    var A, B := Pass(t, len, minReps, i, prev), Pass(t + [x], len, minReps, i, prev2);
    GrowsAtEnd(A, B, minReps, |t| + 1) && SameCover(A, B, |t| - Blocks(len, minReps))
  }

  lemma {:induction false} PassStable(t: seq<string>, x: string, len: nat, minReps: nat, i: nat,
                                      prev: seq<Span>, prev2: seq<Span>)
    requires 0 < len && 0 < minReps
    requires SameCover(prev, prev2, |t| - Blocks(len, minReps))
    ensures StablePass(t, x, len, minReps, i, prev, prev2)
    decreases |t| - i
  {
    BlocksAtLeast(len, minReps);
    if i + Blocks(len, minReps) > |t| {
      PassStableAtEnd(t, x, len, minReps, i, prev, prev2);
    } else {
      ThresholdStable(t, x, i, len, minReps);
      if !Covered(prev, i) && Reps(t, i, len) >= minReps {
        var r, r2 := Reps(t, i, len), Reps(t + [x], i, len);
        RunGrows(t, x, i, len);
        BlocksAtLeast(len, r);
        if r == r2 {
          PassStable(t, x, len, minReps, i + Blocks(len, r), prev, prev2);
        }
        PassStableAtLoop(t, x, len, minReps, i, prev, prev2);
      } else {
        PassStable(t, x, len, minReps, i + 1, prev, prev2);
        PassStableSkip(t, x, len, minReps, i, prev, prev2);
      }
    }
  }

  lemma ThresholdStable(t: seq<string>, x: string, i: nat, len: nat, minReps: nat)
    requires 0 < len && 0 < minReps && i + Blocks(len, minReps) <= |t|
    ensures i + len <= |t| && (Reps(t, i, len) >= minReps <==> Reps(t + [x], i, len) >= minReps)
  {
    BlocksAtLeast(len, minReps);
    RepsIffRepeats(t, i, len, minReps);
    RepsIffRepeats(t + [x], i, len, minReps);
    RepeatsPrefix(t, x, i, len, minReps);
  }

  lemma PassStableSkip(t: seq<string>, x: string, len: nat, minReps: nat, i: nat, prev: seq<Span>, prev2: seq<Span>)
    requires 0 < len && 0 < minReps && i + len <= |t| && i + Blocks(len, minReps) <= |t|
    requires SameCover(prev, prev2, |t| - Blocks(len, minReps))
    requires Covered(prev, i) || (Reps(t, i, len) < minReps && Reps(t + [x], i, len) < minReps)
    requires StablePass(t, x, len, minReps, i + 1, prev, prev2)
    ensures StablePass(t, x, len, minReps, i, prev, prev2)
  {
    assert Covered(prev, i) <==> Covered(prev2, i);
    assert Pass(t, len, minReps, i, prev) == Pass(t, len, minReps, i + 1, prev);
    assert Pass(t + [x], len, minReps, i, prev2) == Pass(t + [x], len, minReps, i + 1, prev2);
  }

  lemma {:induction false} PassStableAtEnd(t: seq<string>, x: string, len: nat, minReps: nat, i: nat,
                        prev: seq<Span>, prev2: seq<Span>)
    requires 0 < len && 0 < minReps && i + Blocks(len, minReps) > |t|
    ensures StablePass(t, x, len, minReps, i, prev, prev2)
  {
    hide Reps;
    BlocksAtLeast(len, minReps);
    var B := Pass(t + [x], len, minReps, i, prev2);
    assert Pass(t, len, minReps, i, prev) == [];
    if i + Blocks(len, minReps) == |t| + 1 && !Covered(prev2, i) {
      var r := Reps(t + [x], i, len);
      RepsPositive(t + [x], i, len);
      BlocksAtLeast(len, r);
      assert Pass(t + [x], len, minReps, i + Blocks(len, r), prev2) == [] == Pass(t + [x], len, minReps, i + 1, prev2);
      assert B == [] || B == [Span(i, len, r)];
    }
  }

  lemma PassStableAtLoop(t: seq<string>, x: string, len: nat, minReps: nat, i: nat, prev: seq<Span>, prev2: seq<Span>)
    requires 0 < len && 0 < minReps && i + len <= |t| && i + Blocks(len, minReps) <= |t|
    requires SameCover(prev, prev2, |t| - Blocks(len, minReps))
    requires !Covered(prev, i) && Reps(t, i, len) >= minReps && Reps(t + [x], i, len) >= minReps
    requires Reps(t, i, len) == Reps(t + [x], i, len) ==>
      StablePass(t, x, len, minReps, i + Blocks(len, Reps(t, i, len)), prev, prev2)
    ensures StablePass(t, x, len, minReps, i, prev, prev2)
  {
    var t2, limit := t + [x], |t| - Blocks(len, minReps);
    var a, b := Span(i, len, Reps(t, i, len)), Span(i, len, Reps(t2, i, len));
    var A', B' := Pass(t, len, minReps, a.End(), prev), Pass(t2, len, minReps, b.End(), prev2);
    BlocksAtLeast(len, minReps);
    BlocksAtLeast(len, a.reps);
    BlocksAtLeast(len, b.reps);
    RunGrows(t, x, i, len);
    assert Covered(prev, i) <==> Covered(prev2, i);
    assert Pass(t, len, minReps, i, prev) == [a] + A' && Pass(t2, len, minReps, i, prev2) == [b] + B';
    if a.reps < b.reps {
      BlocksMono(len, a.reps, b.reps);
      assert A' == [] && B' == [];
    }
    OneSpanStable(a, b, minReps, |t| + 1, limit);
    SameCoverConcat([a], [b], A', B', limit);
    GrowsAtEndConcat([a], [b], A', B', minReps, |t| + 1);
  }

  lemma OneSpanStable(a: Span, b: Span, minReps: nat, size: nat, limit: int)
    requires a.start == b.start && a.len == b.len && (a == b || (limit < a.End() && limit < b.End()))
    ensures SameCover([a], [b], limit) && GrowsAtEnd([a], [b], minReps, size)
  {
    assert a in [a] && b in [b];
    assert (a.start, a.len) in Keys([a]) && (b.start, b.len) in Keys([b]);
  }

  lemma {:induction false} ScanFromStable(t: seq<string>, x: string, len: nat, minReps: nat,
                                          prev: seq<Span>, prev2: seq<Span>)
    requires 0 < len && 0 < minReps
    requires GrowsAtEnd(prev, prev2, minReps, |t| + 1) && SameCover(prev, prev2, |t| - Blocks(len, minReps))
    ensures GrowsAtEnd(ScanFrom(t, len, minReps, prev), ScanFrom(t + [x], len, minReps, prev2), minReps, |t| + 1)
    decreases |t| + 1 - len
  {
    BlocksAtLeast(len, minReps);
    if Blocks(len, minReps) <= |t| + 1 {
      var A, B := Pass(t, len, minReps, 0, prev), Pass(t + [x], len, minReps, 0, prev2);
      PassStable(t, x, len, minReps, 0, prev, prev2);
      GrowsAtEndConcat(prev, prev2, A, B, minReps, |t| + 1);
      SameCoverConcat(prev, prev2, A, B, |t| - Blocks(len, minReps));
      BlocksNextLen(len, minReps);
      if Blocks(len, minReps) <= |t| {
        ScanFromStable(t, x, len + 1, minReps, prev + A, prev2 + B);
      } else {
        assert A == [] && prev + A == prev;
      }
    }
  }

  /** Appending a call never withdraws a recorded loop and never moves its start: the scan of the
      longer sequence records every loop of the shorter one, and each new one has its
      `minReps`-th block ending exactly at the new call. */
  lemma ScanStable(t: seq<string>, x: string, minLen: nat, minReps: nat)
    requires 0 < minLen && 0 < minReps
    ensures Keys(Scan(t, minLen, minReps)) <= Keys(Scan(t + [x], minLen, minReps))
    ensures forall s <- Scan(t + [x], minLen, minReps) ::
      (s.start, s.len) in Keys(Scan(t, minLen, minReps)) || (s.reps == minReps && s.End() == |t| + 1)
  {
    ScanFromStable(t, x, minLen, minReps, [], []);
    var t2 := t + [x];
    var S2 := Scan(t2, minLen, minReps);
    ScanSoundAndMaximal(t2, minLen, minReps);
    forall s | s in S2
      ensures (s.start, s.len) in Keys(Scan(t, minLen, minReps)) || (s.reps == minReps && s.End() == |t| + 1)
    {
      if (s.start, s.len) !in Keys(Scan(t, minLen, minReps)) {
        assert s.start + Blocks(s.len, minReps) == |t| + 1;
        if s.reps > minReps {
          BlocksMono(s.len, minReps + 1, s.reps);
          assert false;
        }
      }
    }
  }
}
