/** The token-bucket rate limiter, in exact real arithmetic (internal/policy/config.go).
    Times are seconds on a clock that does not run backwards. */
module TokenBucket {

  datatype Bucket = Bucket(tokens: real, max: real, rate: real, lastFill: real) {
    /** Never above the burst, whatever was configured. */
    predicate Capped() { tokens <= max }

    predicate Valid() { 0.0 <= tokens <= max && 0.0 <= rate }
  }

  /** What the rate adds over some time. */
  function Gain(rate: real, elapsed: real): real { elapsed * rate }

  lemma GainNonnegative(rate: real, elapsed: real)
    requires 0.0 <= rate && 0.0 <= elapsed
    ensures 0.0 <= Gain(rate, elapsed)
  {
  }

  lemma GainAdds(rate: real, x: real, y: real)
    ensures Gain(rate, x + y) == Gain(rate, x) + Gain(rate, y)
  {
  }

  function Refill(b: Bucket, now: real): Bucket {
    var filled := b.tokens + Gain(b.rate, now - b.lastFill);
    b.(tokens := if filled > b.max then b.max else filled, lastFill := now)
  }

  /** One call of `allow`: refill, then take a token if a whole one is there. */
  function Allow(b: Bucket, now: real): (Bucket, bool) {
    var r := Refill(b, now);
    if r.tokens >= 1.0 then (r.(tokens := r.tokens - 1.0), true) else (r, false)
  }

  lemma RefillStaysValid(b: Bucket, now: real)
    requires b.Valid() && b.lastFill <= now
    ensures Refill(b, now).Valid()
    ensures Refill(b, now).tokens <= b.tokens + Gain(b.rate, now - b.lastFill)
  {
    hide Gain;
    GainNonnegative(b.rate, now - b.lastFill);
  }

  // ---------------------------------------------------------------- whole runs

  /** A sequence of calls at the given times, starting no earlier than `from`. */
  predicate Nondecreasing(from: real, ts: seq<real>) {
    ts == [] || (Nondecreasing(from, ts[..|ts| - 1]) && LastTime(from, ts[..|ts| - 1]) <= ts[|ts| - 1])
  }

  function LastTime(from: real, ts: seq<real>): real {
    if ts == [] then from else ts[|ts| - 1]
  }

  /** The bucket after a sequence of calls, and what each call answered. */
  function Run(b: Bucket, ts: seq<real>): (r: (Bucket, seq<bool>))
    ensures |r.1| == |ts|
  {
    if ts == [] then (b, [])
    else
      var (b0, answers) := Run(b, ts[..|ts| - 1]);
      var (b1, ok) := Allow(b0, ts[|ts| - 1]);
      (b1, answers + [ok])
  }

  /** How many calls made between `s` and `u` were allowed. */
  function AllowedIn(ts: seq<real>, answers: seq<bool>, s: real, u: real): nat
    requires |ts| == |answers|
  {
    if ts == [] then 0
    else
      AllowedIn(ts[..|ts| - 1], answers[..|ts| - 1], s, u)
      + if answers[|ts| - 1] && s <= ts[|ts| - 1] <= u then 1 else 0
  }

  /** A negative burst allows nothing and a negative rate adds nothing. */
  function Burst(max: real): real { if max < 0.0 then 0.0 else max }

  function Rise(rate: real, elapsed: real): real { Gain(if rate < 0.0 then 0.0 else rate, elapsed) }

  lemma RiseBounds(rate: real, x: real, y: real)
    requires 0.0 <= x && 0.0 <= y
    ensures 0.0 <= Rise(rate, x) && Gain(rate, x) <= Rise(rate, x)
    ensures Rise(rate, x + y) == Rise(rate, x) + Rise(rate, y)
  {
    if rate < 0.0 {
      GainNonnegative(-rate, x);
      assert Gain(rate, x) == -Gain(-rate, x);
    } else {
      GainNonnegative(rate, x);
      GainAdds(rate, x, y);
    }
  }

  /** Tokens in hand together with the calls allowed since `s` never exceed the burst plus what
      the rate has added since `s`; nor do the calls alone. */
  predicate Within(b: Bucket, allowed: int, s: real, u: real) {
    && (b.lastFill < s ==> allowed == 0)
    && (s <= b.lastFill <= u ==>
          var most := Burst(b.max) + Rise(b.rate, b.lastFill - s);
          allowed as real + b.tokens <= most && allowed as real <= most)
    && (u < b.lastFill ==> allowed as real <= Burst(b.max) + Rise(b.rate, u - s))
  }

  lemma WithinStep(b: Bucket, now: real, allowed: nat, s: real, u: real)
    requires b.Capped() && b.lastFill <= now && s <= u && Within(b, allowed, s, u)
    ensures var (b', ok) := Allow(b, now);
      b'.Capped() && b'.max == b.max && b'.rate == b.rate && b'.lastFill == now
      && Within(b', allowed + (if ok && s <= now <= u then 1 else 0), s, u)
  {
    hide Gain, Rise;
    RiseBounds(b.rate, now - b.lastFill, 0.0);
    if s <= b.lastFill {
      RiseBounds(b.rate, b.lastFill - s, now - b.lastFill);
      if b.lastFill <= u {
        RiseBounds(b.rate, u - b.lastFill, 0.0);
        RiseBounds(b.rate, b.lastFill - s, u - b.lastFill);
      }
    } else {
      RiseBounds(b.rate, u - s, 0.0);
      if s <= now {
        RiseBounds(b.rate, now - s, 0.0);
      }
    }
  }

  /** For any bucket, any call sequence and any two instants, the number of calls allowed between
      them is at most the burst plus the rate times the elapsed time. */
  lemma WindowBound(b: Bucket, ts: seq<real>, s: real, u: real)
    requires b.Capped() && Nondecreasing(b.lastFill, ts) && s <= u
    ensures AllowedIn(ts, Run(b, ts).1, s, u) as real <= Burst(b.max) + Rise(b.rate, u - s)
  {
    RunWithin(b, ts, s, u);
    WithinBounds(Run(b, ts).0, AllowedIn(ts, Run(b, ts).1, s, u), s, u);
  }

  lemma WithinBounds(b: Bucket, allowed: int, s: real, u: real)
    requires s <= u && Within(b, allowed, s, u)
    ensures allowed as real <= Burst(b.max) + Rise(b.rate, u - s)
  {
    hide Gain, Rise;
    RiseBounds(b.rate, u - s, 0.0);
    if s <= b.lastFill <= u {
      RiseBounds(b.rate, u - b.lastFill, 0.0);
      RiseBounds(b.rate, b.lastFill - s, u - b.lastFill);
    }
  }

  lemma {:induction false} RunWithin(b: Bucket, ts: seq<real>, s: real, u: real)
    requires b.Capped() && Nondecreasing(b.lastFill, ts) && s <= u
    ensures var (b', answers) := Run(b, ts);
      b'.Capped() && b'.max == b.max && b'.rate == b.rate && b'.lastFill == LastTime(b.lastFill, ts)
      && Within(b', AllowedIn(ts, answers, s, u), s, u)
  {
    hide Within, Allow;
    if ts == [] {
      StartsWithin(b, s, u);
    } else {
      RunWithin(b, ts[..|ts| - 1], s, u);
      var (b0, answers) := Run(b, ts[..|ts| - 1]);
      WithinStep(b0, ts[|ts| - 1], AllowedIn(ts[..|ts| - 1], answers, s, u), s, u);
      assert Run(b, ts).1[..|ts| - 1] == answers;
    }
  }

  lemma StartsWithin(b: Bucket, s: real, u: real)
    requires b.Capped() && s <= u
    ensures Within(b, 0, s, u)
  {
    hide Gain, Rise;
    RiseBounds(b.rate, u - s, 0.0);
    if s <= b.lastFill {
      RiseBounds(b.rate, b.lastFill - s, 0.0);
    }
  }

  /** With a rate and burst that are not negative the tokens stay between zero and the burst. */
  lemma {:induction false} TokensStayInRange(b: Bucket, ts: seq<real>)
    requires b.Valid() && Nondecreasing(b.lastFill, ts)
    ensures var b' := Run(b, ts).0;
      b'.Valid() && b'.max == b.max && b'.rate == b.rate && b'.lastFill == LastTime(b.lastFill, ts)
  {
    if ts != [] {
      TokensStayInRange(b, ts[..|ts| - 1]);
      RefillStaysValid(Run(b, ts[..|ts| - 1]).0, ts[|ts| - 1]);
    }
  }

  // ---------------------------------------------------------------- greedy is optimal

  /** A call under another admission policy: `take` admits it, which needs a whole token. */
  predicate CanChoose(b: Bucket, now: real, take: bool) { take ==> Refill(b, now).tokens >= 1.0 }

  function Choose(b: Bucket, now: real, take: bool): Bucket {
    var r := Refill(b, now);
    if take then r.(tokens := r.tokens - 1.0) else r
  }

  /** The bucket after a sequence of choices. */
  function RunChoices(b: Bucket, ts: seq<real>, choices: seq<bool>): Bucket
    requires |ts| == |choices|
  {
    if ts == [] then b
    else Choose(RunChoices(b, ts[..|ts| - 1], choices[..|ts| - 1]), ts[|ts| - 1], choices[|ts| - 1])
  }

  /** The choices never admit a call without a token. */
  predicate Feasible(b: Bucket, ts: seq<real>, choices: seq<bool>)
    requires |ts| == |choices|
  {
    ts == [] ||
    (Feasible(b, ts[..|ts| - 1], choices[..|ts| - 1])
     && CanChoose(RunChoices(b, ts[..|ts| - 1], choices[..|ts| - 1]), ts[|ts| - 1], choices[|ts| - 1]))
  }

  function Admitted(answers: seq<bool>): nat {
    if answers == [] then 0 else Admitted(answers[..|answers| - 1]) + if answers[|answers| - 1] then 1 else 0
  }

  lemma GreedyStep(g: Bucket, o: Bucket, now: real, take: bool, ahead: nat)
    requires g.max == o.max && g.rate == o.rate && g.lastFill == o.lastFill
    requires o.tokens <= g.tokens + ahead as real && CanChoose(o, now, take)
    ensures var (g', ok) := Allow(g, now);
      var o', ahead' := Choose(o, now, take), ahead + (if ok then 1 else 0) - (if take then 1 else 0);
      && g'.max == o'.max && g'.rate == o'.rate && g'.lastFill == o'.lastFill
      && 0 <= ahead' && o'.tokens <= g'.tokens + ahead' as real
  {
    hide Gain;
    var g1, o1 := Refill(g, now), Refill(o, now);
    assert o1.tokens <= g1.tokens + ahead as real;
    if take && g1.tokens < 1.0 {
      assert ahead as real > 0.0;
    }
  }

  /** Greedy admission is optimal: at every prefix of every request sequence `allow` has admitted at
      least as many requests as any choice that is feasible under the same refill. */
  lemma GreedyIsOptimal(b: Bucket, ts: seq<real>, choices: seq<bool>)
    requires |ts| == |choices| && Feasible(b, ts, choices)
    ensures Admitted(choices) <= Admitted(Run(b, ts).1)
  {
    GreedyLeads(b, ts, choices);
  }

  lemma {:induction false} GreedyLeads(b: Bucket, ts: seq<real>, choices: seq<bool>)
    requires |ts| == |choices| && Feasible(b, ts, choices)
    ensures var (g, answers) := Run(b, ts);
      var o, ahead := RunChoices(b, ts, choices), Admitted(answers) - Admitted(choices);
      && g.max == o.max && g.rate == o.rate && g.lastFill == o.lastFill
      && 0 <= ahead && o.tokens <= g.tokens + ahead as real
  {
    hide Allow, Choose, CanChoose, Gain;
    if ts != [] {
      var n := |ts| - 1;
      GreedyLeads(b, ts[..n], choices[..n]);
      var (g, answers) := Run(b, ts[..n]);
      GreedyStep(g, RunChoices(b, ts[..n], choices[..n]), ts[n], choices[n],
                 Admitted(answers) - Admitted(choices[..n]));
      assert Run(b, ts).1[..n] == answers;
    }
  }

  // ---------------------------------------------------------------- retrying

  /** The delay reported to a throttled caller. */
  function RetryAfter(b: Bucket): real {
    if b.rate <= 0.0 then 1.0 else 1.0 / b.rate
  }

  /** A bucket without a whole token has one after the delay exactly when the limit can ever allow a
      call: the rate is positive and the burst holds a whole token. */
  lemma DelayFillsIff(b: Bucket)
    requires b.Valid() && b.tokens < 1.0
    ensures 0.0 < RetryAfter(b)
    ensures Allow(b, b.lastFill + RetryAfter(b)).1 <==> 0.0 < b.rate && 1.0 <= b.max
  {
    var wait := RetryAfter(b);
    assert b.lastFill + wait - b.lastFill == wait;
    if 0.0 < b.rate {
      GainInRetryTime(b.rate);
    } else {
      assert Gain(b.rate, wait) == 0.0;
    }
    hide Gain;
  }

  /** After a refusal, a call that waits the reported delay is allowed exactly when the limit can
      ever allow one. */
  lemma WaitingSufficesIff(b: Bucket, now: real)
    requires b.Valid() && b.lastFill <= now && !Allow(b, now).1
    ensures var b' := Allow(b, now).0;
      Allow(b', now + RetryAfter(b')).1 <==> 0.0 < b.rate && 1.0 <= b.max
  {
    RefillStaysValid(b, now);
    DelayFillsIff(Allow(b, now).0);
  }

  lemma GainInRetryTime(rate: real)
    requires 0.0 < rate
    ensures Gain(rate, 1.0 / rate) == 1.0 && 0.0 < 1.0 / rate
  {
  }

  /** The delay is the time one token takes to fill, or a second when none ever does. */
  lemma DelayIsOneToken(b: Bucket)
    ensures if b.rate > 0.0 then RetryAfter(b) * b.rate == 1.0 else RetryAfter(b) == 1.0
  {
  }

  /** What adds up between two instants, in plain arithmetic. */
  lemma RiseIsProduct(rate: real, elapsed: real)
    ensures Rise(rate, elapsed) == if rate < 0.0 then 0.0 else rate * elapsed
  {
  }

  // ---------------------------------------------------------------- bursts

  /** `k` calls at one instant. */
  function AtOnce(now: real, k: nat): (ts: seq<real>)
    ensures |ts| == k
  {
    seq(k, _ => now)
  }

  /** A bucket that has had the time to fill, or is new, answers calls made at one instant like a
      counter: as many are allowed as the burst holds whole tokens, and no more. */
  lemma {:induction false} BurstIsExact(b: Bucket, now: real, k: nat)
    requires b.Capped() && b.tokens + b.rate * (now - b.lastFill) >= b.max
    ensures forall i :: 0 <= i < k ==> (Run(b, AtOnce(now, k)).1[i] <==> (i + 1) as real <= b.max)
  {
    CountsDown(b, now, k);
  }

  lemma {:induction false} CountsDown(b: Bucket, now: real, k: nat)
    requires b.Capped() && b.tokens + b.rate * (now - b.lastFill) >= b.max
    ensures var (b', answers) := Run(b, AtOnce(now, k));
      && (forall i :: 0 <= i < k ==> (answers[i] <==> (i + 1) as real <= b.max))
      && (k > 0 ==> b'.lastFill == now && b'.max == b.max && b'.rate == b.rate
                    && if k as real <= b.max then b'.tokens == b.max - k as real else b'.tokens < 1.0)
  {
    if k > 0 {
      CountsDown(b, now, k - 1);
      assert AtOnce(now, k)[..k - 1] == AtOnce(now, k - 1) && AtOnce(now, k)[k - 1] == now;
      hide AtOnce;
      var b0 := Run(b, AtOnce(now, k - 1)).0;
      if k > 1 {
        NoTimeNoGain(b0, now);
      } else {
        FillsUp(b, now);
      }
      hide Refill, Gain;
    }
  }

  lemma NoTimeNoGain(b: Bucket, now: real)
    requires b.lastFill == now
    ensures Refill(b, now).tokens == if b.tokens > b.max then b.max else b.tokens
    ensures Refill(b, now).max == b.max && Refill(b, now).rate == b.rate && Refill(b, now).lastFill == now
  {
  }

  lemma FillsUp(b: Bucket, now: real)
    requires b.Capped() && b.tokens + b.rate * (now - b.lastFill) >= b.max
    ensures Refill(b, now) == b.(tokens := b.max, lastFill := now)
  {
    assert Gain(b.rate, now - b.lastFill) == b.rate * (now - b.lastFill);
  }
}
