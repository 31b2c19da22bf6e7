/** The policy engine and its buckets as objects (internal/policy/config.go). The current time is
    a parameter of each call. */
module ConfigEngine {
  import opened Events
  import opened TokenBucket
  import opened PolicyEngine

  class BucketObject {
    var tokens: real
    var lastFill: real
    const max: real
    const rate: real

    ghost function State(): Bucket reads this { Bucket(tokens, max, rate, lastFill) }

    constructor (rate: real, burst: int, now: real)
      ensures State() == NewBucket(RateLimit(rate, burst), now)
    {
      tokens, max, this.rate, lastFill := burst as real, burst as real, rate, now;
    }

    method Fill(now: real)
      modifies this
      ensures State() == Refill(old(State()), now)
    {
      var elapsed := now - lastFill;
      tokens := tokens + elapsed * rate;
      if tokens > max {
        tokens := max;
      }
      lastFill := now;
    }

    method TryTake(now: real) returns (ok: bool)
      modifies this
      ensures (State(), ok) == Allow(old(State()), now)
    {
      Fill(now);
      if tokens >= 1.0 {
        tokens := tokens - 1.0;
        return true;
      }
      return false;
    }

    /** How long a refused caller should wait: calling again that long after the refusal succeeds
        exactly when the limit can ever allow a call. */
    function Delay(): (seconds: real)
      reads this
      ensures seconds == RetryAfter(State())
      ensures State().Valid() && tokens < 1.0 ==>
        0.0 < seconds && (Allow(State(), lastFill + seconds).1 <==> 0.0 < rate && 1.0 <= max)
    {
      assert State().Valid() && tokens < 1.0 ==>
          0.0 < RetryAfter(State())
          && (Allow(State(), lastFill + RetryAfter(State())).1 <==> 0.0 < rate && 1.0 <= max)
      by {
        if State().Valid() && tokens < 1.0 {
          DelayFillsIff(State());
        }
      }
      if rate <= 0.0 then 1.0 else 1.0 / rate
    }
  }

  class ConfigEngine {
    var rules: Rules
    var buckets: map<string, BucketObject>

    ghost function Repr(): set<object> reads this { {this} + buckets.Values }

    /** No two agents share a bucket. */
    ghost predicate Valid() reads this {
      forall a, b :: a in buckets && b in buckets && a != b ==> buckets[a] != buckets[b]
    }

    ghost function States(): Buckets
      reads this, buckets.Values
    {
      map a | a in buckets :: buckets[a].State()
    }

    constructor (loaded: Rules)
      ensures Valid() && rules == loaded.WithDefaults() && States() == map[] && fresh(Repr())
    {
      rules, buckets := loaded.WithDefaults(), map[];
    }

    /** Replaces the rules and forgets all buckets. */
    method Reload(loaded: Rules)
      modifies this
      ensures Valid() && rules == loaded.WithDefaults() && States() == map[]
    {
      rules := loaded.WithDefaults();
      buckets := map[];
    }

    method IsDenied(agent: string) returns (denied: bool)
      ensures denied <==> agent in rules.denyList
    {
      for i := 0 to |rules.denyList|
        invariant agent !in rules.denyList[..i]
      {
        if rules.denyList[i] == agent {
          return true;
        }
      }
      return false;
    }

    method IsActionAllowed(agent: string, action: string) returns (ok: bool)
      ensures ok <==> (agent in rules.allowedActions ==>
                         action in rules.allowedActions[agent] || "*" in rules.allowedActions[agent])
    {
      if agent !in rules.allowedActions {
        return true;
      }
      var allowed := rules.allowedActions[agent];
      for i := 0 to |allowed|
        invariant action !in allowed[..i] && "*" !in allowed[..i]
      {
        if allowed[i] == action || allowed[i] == "*" {
          return true;
        }
      }
      return false;
    }

    /** Returns the agent's bucket, creating it on its first request. */
    method GetBucket(agent: string, now: real) returns (b: BucketObject)
      requires Valid()
      modifies this`buckets
      ensures Valid() && agent in buckets && buckets[agent] == b && fresh(Repr() - old(Repr()))
      ensures States() == old(States())[agent := BucketFor(rules, old(States()), agent, now)]
    {
      if agent !in buckets {
        var limit := rules.LimitOf(agent);
        var created := new BucketObject(limit.eventsPerSecond, limit.burstSize, now);
        buckets := buckets[agent := created];
      }
      b := buckets[agent];
    }

    /** One token from the agent's bucket, or the delay to report. */
    method TakeFrom(agent: string, now: real) returns (d: Decision)
      requires Valid()
      modifies Repr()
      ensures Valid() && rules == old(rules) && fresh(Repr() - old(Repr()))
      ensures var (b, ok) := Allow(BucketFor(rules, old(States()), agent, now), now);
        States() == old(States())[agent := b] && d == if ok then Allowed else Throttled(RetryAfter(b))
    {
      hide Allow, RetryAfter, BucketFor;
      var b := GetBucket(agent, now);
      ghost var before, start := States(), b.State();
      assert before[agent] == start;
      var taken := b.TryTake(now);
      assert States() == before[agent := b.State()] == old(States())[agent := b.State()];
      return if taken then Allowed else Throttled(b.Delay());
    }

    /** Authorization, then the agent's rate limit. */
    method Evaluate(q: Request, now: real) returns (d: Decision)
      requires Valid()
      modifies Repr()
      ensures Valid() && rules == old(rules) && fresh(Repr() - old(Repr()))
      ensures (States(), d) == PolicyEngine.Evaluate(rules, old(States()), q, now) && Fits(rules, q, d)
    {
      EvaluateFits(rules, States(), q, now);
      hide Fits, Allow, RetryAfter, BucketFor;
      if q.agent.None? {
        return Denied(NoIdentity);
      }
      var agent := q.agent.value;
      var denied := IsDenied(agent);
      if denied {
        return Denied(OnDenyList);
      }
      var ok := IsActionAllowed(agent, q.action);
      if !ok {
        return Denied(ActionNotAllowed);
      }
      d := TakeFrom(agent, now);
    }
  }
}
