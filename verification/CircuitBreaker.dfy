/** The forwarder's circuit breaker over whole runs (cmd/ingestion/analysis.go). Times are
    nanoseconds; each flush reads the clock when it starts and when its outcome is recorded. */
module CircuitBreaker {
  import opened Arithmetic

  datatype Config = Config(threshold: int, cooldown: int)

  datatype Breaker = Breaker(failures: int, open: bool, openUntil: int)

  const CLOSED := Breaker(0, false, 0)

  /** One flush: when it starts, when its outcome is known and whether it succeeds if attempted. */
  datatype Flush = Flush(start: int, end: int, ok: bool)

  /** Whether the breaker lets a flush through; the first one after the cooldown closes it. */
  function Admit(b: Breaker, now: int): (Breaker, bool) {
    if !b.open then (b, true)
    else if now > b.openUntil then (b.(open := false, failures := 0), true)
    else (b, false)
  }

  function RecordFailure(c: Config, b: Breaker, now: int): Breaker {
    if b.failures + 1 >= c.threshold then Breaker(b.failures + 1, true, now + c.cooldown)
    else b.(failures := b.failures + 1)
  }

  function RecordSuccess(b: Breaker): Breaker { b.(failures := 0) }

  function Step(c: Config, b: Breaker, f: Flush): (Breaker, bool) {
    var (admitted, allowed) := Admit(b, f.start);
    (if !allowed then admitted
     else if f.ok then RecordSuccess(admitted)
     else RecordFailure(c, admitted, f.end), allowed)
  }

  /** The breaker after a sequence of flushes, and which of them were attempted. */
  function Run(c: Config, fs: seq<Flush>): (r: (Breaker, seq<bool>))
    ensures |r.1| == |fs|
  {
    if fs == [] then (CLOSED, [])
    else
      var (b, attempted) := Run(c, fs[..|fs| - 1]);
      var (b', allowed) := Step(c, b, fs[|fs| - 1]);
      (b', attempted + [allowed])
  }

  lemma {:induction false} RunPrefix(c: Config, fs: seq<Flush>, n: nat)
    requires n <= |fs|
    ensures Run(c, fs[..n]).1 == Run(c, fs).1[..n]
  {
    if n < |fs| {
      assert fs[..|fs| - 1][..n] == fs[..n];
      RunPrefix(c, fs[..|fs| - 1], n);
    } else {
      assert fs[..n] == fs;
    }
  }

  // ---------------------------------------------------------------- counting failures

  /** The consecutive failed attempts a run ends with; flushes that were not attempted do not count. */
  function Streak(fs: seq<Flush>, attempted: seq<bool>): nat
    requires |fs| == |attempted|
  {
    if fs == [] then 0
    else
      var n := |fs| - 1;
      if !attempted[n] then Streak(fs[..n], attempted[..n])
      else if fs[n].ok then 0
      else Streak(fs[..n], attempted[..n]) + 1
  }

  /** The failures that open the circuit; a threshold below one acts as one. */
  function Limit(c: Config): nat { if c.threshold < 1 then 1 else c.threshold }

  /** The failures since the circuit last closed, for a given streak. */
  function Counted(c: Config, streak: nat): (r: nat)
    ensures r < Limit(c) && (streak == 0 ==> r == 0)
  {
    streak % Limit(c)
  }

  lemma CountedSucc(c: Config, streak: nat)
    ensures Counted(c, streak + 1) == if Counted(c, streak) + 1 == Limit(c) then 0 else Counted(c, streak) + 1
  {
    var m := Limit(c);
    var q, r := streak / m, streak % m;
    if r + 1 == m {
      ModUnique(streak + 1, m, q + 1, 0);
    } else {
      ModUnique(streak + 1, m, q, r + 1);
    }
  }

  /** The circuit is open exactly when the failures in a row are a positive multiple of the limit,
      and the failure counter is their remainder; in particular it is below the limit while closed. */
  lemma {:induction false} FailuresCountTheStreak(c: Config, fs: seq<Flush>)
    ensures var (b, attempted) := Run(c, fs);
      var streak := Streak(fs, attempted);
      && (b.open <==> streak > 0 && Counted(c, streak) == 0)
      && b.failures == (if b.open then Limit(c) else Counted(c, streak))
  {
    hide Counted;
    if fs != [] {
      var n := |fs| - 1;
      FailuresCountTheStreak(c, fs[..n]);
      var (b, attempted) := Run(c, fs[..n]);
      assert Run(c, fs).1[..n] == attempted;
      CountedSucc(c, Streak(fs[..n], attempted));
    }
  }

  // ---------------------------------------------------------------- when flushes are attempted

  /** Flushes follow one another on a clock that does not run backwards. */
  predicate Ordered(fs: seq<Flush>) {
    && (forall i :: 0 <= i < |fs| ==> fs[i].start <= fs[i].end)
    && (forall i, j :: 0 <= i < j < |fs| ==> fs[i].end <= fs[j].start)
  }

  /** Flush `i` opened the circuit: its failure completed a multiple of the limit. */
  predicate Opened(c: Config, fs: seq<Flush>, attempted: seq<bool>, i: nat)
    requires i < |fs| == |attempted|
  {
    attempted[i] && !fs[i].ok && Counted(c, Streak(fs[..i + 1], attempted[..i + 1])) == 0
  }

  /** Every opening is over by `now`. */
  predicate CooledDown(c: Config, fs: seq<Flush>, attempted: seq<bool>, n: nat, now: int)
    requires n <= |fs| == |attempted|
  {
    forall j :: 0 <= j < n && Opened(c, fs, attempted, j) ==> fs[j].end + c.cooldown < now
  }

  lemma OpenedIff(c: Config, fs: seq<Flush>)
    requires fs != []
    ensures var (b, attempted) := Run(c, fs);
      var n := |fs| - 1;
      && (Opened(c, fs, attempted, n) <==> attempted[n] && !fs[n].ok && b.open)
      && (Opened(c, fs, attempted, n) ==> b.openUntil == fs[n].end + c.cooldown)
      && (attempted[n] && fs[n].ok ==> !b.open)
  {
    var n := |fs| - 1;
    FailuresCountTheStreak(c, fs);
    assert fs[..n + 1] == fs && Run(c, fs).1[..n + 1] == Run(c, fs).1;
  }

  lemma CooledDownPrefix(c: Config, fs: seq<Flush>, attempted: seq<bool>, n: nat, m: nat, now: int)
    requires n <= m <= |fs| == |attempted|
    ensures CooledDown(c, fs, attempted, n, now) <==> CooledDown(c, fs[..m], attempted[..m], n, now)
  {
    forall j | 0 <= j < n ensures Opened(c, fs, attempted, j) <==> Opened(c, fs[..m], attempted[..m], j) {
      assert fs[..m][..j + 1] == fs[..j + 1] && attempted[..m][..j + 1] == attempted[..j + 1];
    }
  }

  /** What the breaker knows of past openings: while open, that the last one ends at `openUntil`. */
  lemma {:induction false} BreakerTracksOpenings(c: Config, fs: seq<Flush>, now: int)
    requires Ordered(fs) && (fs != [] ==> fs[|fs| - 1].end <= now)
    ensures var (b, attempted) := Run(c, fs);
      CooledDown(c, fs, attempted, |fs|, now) <==> Admit(b, now).1
  {
    if fs != [] {
      var n, last := |fs| - 1, fs[|fs| - 1];
      var init := fs[..n];
      var (b0, a0) := Run(c, init);
      var (b, attempted) := Run(c, fs);
      assert attempted[..n] == a0;
      BreakerTracksOpenings(c, init, last.start);
      CooledDownPrefix(c, fs, attempted, n, n, last.start);
      OpenedIff(c, fs);
      if attempted[n] {
        assert CooledDown(c, fs, attempted, n, now);
      } else {
        assert b == b0;
        BreakerTracksOpenings(c, init, now);
        CooledDownPrefix(c, fs, attempted, n, n, now);
      }
    }
  }

  /** A flush is attempted exactly when it starts more than one cooldown after every failure that
      opened the circuit: nothing is sent while it is open, and sending resumes after that. */
  lemma AttemptedIffCooledDown(c: Config, fs: seq<Flush>, i: nat)
    requires Ordered(fs) && i < |fs|
    ensures var attempted := Run(c, fs).1;
      attempted[i] <==> CooledDown(c, fs, attempted, i, fs[i].start)
  {
    var attempted := Run(c, fs).1;
    RunPrefix(c, fs, i);
    RunPrefix(c, fs, i + 1);
    assert fs[..i + 1][..i] == fs[..i];
    BreakerTracksOpenings(c, fs[..i], fs[i].start);
    CooledDownPrefix(c, fs, attempted, i, i, fs[i].start);
    assert attempted[i] == Run(c, fs[..i + 1]).1[i];
  }

  /** Consecutive openings are more than one cooldown apart. */
  lemma OpeningsAreSpaced(c: Config, fs: seq<Flush>, i: nat, j: nat)
    requires Ordered(fs) && i < j < |fs|
    requires Opened(c, fs, Run(c, fs).1, i) && Opened(c, fs, Run(c, fs).1, j)
    ensures fs[i].end + c.cooldown < fs[j].start
  {
    AttemptedIffCooledDown(c, fs, j);
  }

  // ---------------------------------------------------------------- outages

  /** The attempts that start between `s` and `u`. */
  function Attempts(fs: seq<Flush>, attempted: seq<bool>, s: int, u: int): nat
    requires |fs| == |attempted|
  {
    if fs == [] then 0
    else
      var n := |fs| - 1;
      Attempts(fs[..n], attempted[..n], s, u) + if attempted[n] && s <= fs[n].start <= u then 1 else 0
  }

  /** No attempt that starts between `s` and `u` succeeds. */
  predicate Outage(fs: seq<Flush>, s: int, u: int) {
    forall i :: 0 <= i < |fs| && s <= fs[i].start <= u ==> !fs[i].ok
  }

  /** During an outage, any interval no longer than the cooldown contains at most as many attempts
      as the limit, however often the forwarder flushes. */
  lemma OutageBound(c: Config, fs: seq<Flush>, s: int, u: int)
    requires Ordered(fs) && u - s <= c.cooldown && Outage(fs, s, u)
    ensures Attempts(fs, Run(c, fs).1, s, u) <= Limit(c)
  {
    OutageInvariant(c, fs, s, u);
  }

  /** Once an attempt fell into the interval, the circuit is either open until its end or still
      counting the attempts. */
  lemma {:induction false} OutageInvariant(c: Config, fs: seq<Flush>, s: int, u: int)
    requires Ordered(fs) && u - s <= c.cooldown && Outage(fs, s, u)
    ensures var (b, attempted) := Run(c, fs);
      var n := Attempts(fs, attempted, s, u);
      && n <= Limit(c)
      && (n > 0 ==> s <= fs[|fs| - 1].start)
      && (n > 0 && fs[|fs| - 1].start <= u ==> if b.open then u <= b.openUntil else n <= b.failures)
  {
    hide Counted;
    if fs != [] {
      var n := |fs| - 1;
      OutageInvariant(c, fs[..n], s, u);
      var (b, attempted) := Run(c, fs[..n]);
      assert Run(c, fs).1[..n] == attempted;
      FailuresCountTheStreak(c, fs[..n]);
      assert n > 0 ==> fs[n - 1].start <= fs[n].start;
    }
  }
}
