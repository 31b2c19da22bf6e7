/** The config-driven policy engine: authorization first, then one token bucket per agent
    (internal/policy/config.go, internal/policy/engine.go). */
module PolicyEngine {
  import opened Events
  import opened TokenBucket

  datatype RateLimit = RateLimit(eventsPerSecond: real, burstSize: int)

  datatype Rules = Rules(
    agentOverrides: map<string, RateLimit>, allowedActions: map<string, seq<string>>,
    denyList: seq<string>, defaultLimit: RateLimit)
  {
    /** The limit that applies to an agent. */
    function LimitOf(agent: string): RateLimit {
      if agent in agentOverrides then agentOverrides[agent] else defaultLimit
    }

    /** Zero defaults are replaced when rules are loaded; overrides are taken as they are. */
    function WithDefaults(): Rules {
      this.(defaultLimit := RateLimit(
        if defaultLimit.eventsPerSecond == 0.0 then 100.0 else defaultLimit.eventsPerSecond,
        if defaultLimit.burstSize == 0 then 500 else defaultLimit.burstSize))
    }
  }

  datatype Request = Request(agent: Option<string>, action: string)

  datatype DenyReason = NoIdentity | OnDenyList | ActionNotAllowed

  datatype Decision = Allowed | Denied(reason: DenyReason) | Throttled(retryAfter: real)

  /** Why a request is turned away before rate limiting, if it is. */
  function Authorize(r: Rules, q: Request): Option<DenyReason> {
    if q.agent.None? then Some(NoIdentity)
    else if q.agent.value in r.denyList then Some(OnDenyList)
    else if q.agent.value in r.allowedActions
            && q.action !in r.allowedActions[q.agent.value] && "*" !in r.allowedActions[q.agent.value]
    then Some(ActionNotAllowed)
    else None
  }

  function NewBucket(l: RateLimit, now: real): Bucket {
    Bucket(l.burstSize as real, l.burstSize as real, l.eventsPerSecond, now)
  }

  type Buckets = map<string, Bucket>

  function BucketFor(r: Rules, bs: Buckets, agent: string, now: real): Bucket {
    if agent in bs then bs[agent] else NewBucket(r.LimitOf(agent), now)
  }

  function Evaluate(r: Rules, bs: Buckets, q: Request, now: real): (Buckets, Decision) {
    match Authorize(r, q)
    case Some(reason) => (bs, Denied(reason))
    case None =>
      var agent := q.agent.value;
      var (b, ok) := Allow(BucketFor(r, bs, agent, now), now);
      (bs[agent := b], if ok then Allowed else Throttled(RetryAfter(b)))
  }

  // ---------------------------------------------------------------- runs between reloads

  datatype Call = Call(request: Request, now: real)

  function Run(r: Rules, calls: seq<Call>): (x: (Buckets, seq<Decision>))
    ensures |x.1| == |calls|
  {
    if calls == [] then (map[], [])
    else
      var (bs, ds) := Run(r, calls[..|calls| - 1]);
      var last := calls[|calls| - 1];
      var (bs', d) := Evaluate(r, bs, last.request, last.now);
      (bs', ds + [d])
  }

  /** How many of an agent's calls made between `s` and `u` were allowed. */
  function AllowedTo(calls: seq<Call>, ds: seq<Decision>, agent: string, s: real, u: real): nat
    requires |calls| == |ds|
  {
    if calls == [] then 0
    else
      var last := calls[|calls| - 1];
      AllowedTo(calls[..|calls| - 1], ds[..|calls| - 1], agent, s, u)
      + if last.request.agent == Some(agent) && ds[|calls| - 1] == Allowed && s <= last.now <= u then 1 else 0
  }

  predicate Ordered(calls: seq<Call>) {
    forall i, j :: 0 <= i < j < |calls| ==> calls[i].now <= calls[j].now
  }

  /** What is known of an agent's bucket once `allowed` of its calls were allowed in the window. */
  predicate AgentWithin(r: Rules, bs: Buckets, agent: string, allowed: int, now: real, s: real, u: real) {
    if agent !in bs then allowed == 0
    else
      var b, l := bs[agent], r.LimitOf(agent);
      && b.Capped() && b.max == l.burstSize as real && b.rate == l.eventsPerSecond && b.lastFill <= now
      && Within(b, allowed, s, u)
  }

  lemma EvaluateKeepsWithin(r: Rules, bs: Buckets, q: Request, before: real, now: real, agent: string, allowed: nat,
                            s: real, u: real)
    requires before <= now && s <= u && AgentWithin(r, bs, agent, allowed, before, s, u)
    ensures var (bs', d) := Evaluate(r, bs, q, now);
      var count := if q.agent == Some(agent) && d == Allowed && s <= now <= u then 1 else 0;
      AgentWithin(r, bs', agent, allowed + count, now, s, u)
  {
    hide Allow, Within;
    if Authorize(r, q) == None && q.agent == Some(agent) {
      var b := BucketFor(r, bs, agent, now);
      if agent !in bs {
        StartsWithin(b, s, u);
      }
      WithinStep(b, now, allowed, s, u);
    }
  }

  lemma {:induction false} RunKeepsWithin(r: Rules, calls: seq<Call>, agent: string, s: real, u: real)
    requires Ordered(calls) && s <= u && calls != []
    ensures var (bs, ds) := Run(r, calls);
      AgentWithin(r, bs, agent, AllowedTo(calls, ds, agent, s, u), calls[|calls| - 1].now, s, u)
  {
    hide Evaluate, AgentWithin;
    var init, last := calls[..|calls| - 1], calls[|calls| - 1];
    var (bs, ds) := Run(r, init);
    if init == [] {
      NothingWithin(r, agent, last.now, s, u);
      EvaluateKeepsWithin(r, bs, last.request, last.now, last.now, agent, 0, s, u);
    } else {
      RunKeepsWithin(r, init, agent, s, u);
      EvaluateKeepsWithin(r, bs, last.request, init[|init| - 1].now, last.now, agent,
                          AllowedTo(init, ds, agent, s, u), s, u);
    }
    assert Run(r, calls).1[..|init|] == ds;
  }

  lemma NothingWithin(r: Rules, agent: string, now: real, s: real, u: real)
    ensures AgentWithin(r, map[], agent, 0, now, s, u)
  {
  }

  lemma AgentBurstAndRise(r: Rules, calls: seq<Call>, agent: string, s: real, u: real)
    requires Ordered(calls) && s <= u
    ensures var l := r.LimitOf(agent);
      AllowedTo(calls, Run(r, calls).1, agent, s, u) as real
      <= Burst(l.burstSize as real) + Rise(l.eventsPerSecond, u - s)
  {
    hide Rise;
    RiseBounds(r.LimitOf(agent).eventsPerSecond, u - s, 0.0);
    if calls != [] {
      RunKeepsWithin(r, calls, agent, s, u);
      var bs := Run(r, calls).0;
      if agent in bs {
        WithinBounds(bs[agent], AllowedTo(calls, Run(r, calls).1, agent, s, u), s, u);
      }
    }
  }

  /** Between reloads each agent is allowed at most its burst plus its rate times the elapsed time,
      between any two instants, under any rules and whatever other agents do. */
  lemma AgentWindowBound(r: Rules, calls: seq<Call>, agent: string, s: real, u: real)
    requires Ordered(calls) && s <= u
    ensures var l := r.LimitOf(agent);
      AllowedTo(calls, Run(r, calls).1, agent, s, u) as real
      <= (if l.burstSize < 0 then 0.0 else l.burstSize as real)
         + (if l.eventsPerSecond < 0.0 then 0.0 else l.eventsPerSecond * (u - s))
  {
    hide AllowedTo, Run, Rise, Ordered;
    AgentBurstAndRise(r, calls, agent, s, u);
    RiseIsProduct(r.LimitOf(agent).eventsPerSecond, u - s);
  }

  /** A denied request changes nothing: no token is taken and no bucket is created. */
  lemma DeniedConsumesNothing(r: Rules, bs: Buckets, q: Request, now: real)
    ensures Evaluate(r, bs, q, now).1.Denied? <==> Authorize(r, q).Some?
    ensures Evaluate(r, bs, q, now).1.Denied? ==> Evaluate(r, bs, q, now).0 == bs
    ensures forall other :: Some(other) != q.agent ==>
      (other in Evaluate(r, bs, q, now).0 <==> other in bs)
        && (other in bs ==> Evaluate(r, bs, q, now).0[other] == bs[other])
  {
  }

  // ---------------------------------------------------------------- who is turned away

  /** What the rules say of a request, before any bucket is looked at. */
  predicate Listed(r: Rules, q: Request) {
    q.agent.Some? && exists i :: 0 <= i < |r.denyList| && r.denyList[i] == q.agent.value
  }

  predicate Unpermitted(r: Rules, q: Request) {
    && q.agent.Some? && q.agent.value in r.allowedActions
    && forall i :: 0 <= i < |r.allowedActions[q.agent.value]| ==>
         r.allowedActions[q.agent.value][i] != q.action && r.allowedActions[q.agent.value][i] != "*"
  }

  /** The decision as far as the rules determine it, in the order the reasons are given. */
  predicate Fits(r: Rules, q: Request, d: Decision) {
    if q.agent.None? then d == Denied(NoIdentity)
    else if Listed(r, q) then d == Denied(OnDenyList)
    else if Unpermitted(r, q) then d == Denied(ActionNotAllowed)
    else d.Allowed? || d.Throttled?
  }

  /** A request without identity is denied; one by an agent on the deny list too, whatever its actions
      and its bucket; one whose agent has an action list with neither the action nor a star too. Every
      other request is allowed or throttled. */
  lemma EvaluateFits(r: Rules, bs: Buckets, q: Request, now: real)
    ensures Fits(r, q, Evaluate(r, bs, q, now).1)
  {
    hide Allow, RetryAfter, BucketFor;
    if q.agent.Some? {
      InIff(r.denyList, q.agent.value);
      if q.agent.value in r.allowedActions {
        InIff(r.allowedActions[q.agent.value], q.action);
        InIff(r.allowedActions[q.agent.value], "*");
      }
    }
  }

  lemma InIff(xs: seq<string>, x: string)
    ensures x in xs <==> exists i :: 0 <= i < |xs| && xs[i] == x
  {
  }

  /** A throttled caller is told to wait for the time one token takes at its agent's rate. */
  lemma ThrottledDelay(r: Rules, bs: Buckets, q: Request, now: real)
    requires Evaluate(r, bs, q, now).1.Throttled?
    ensures q.agent.Some?
    ensures var agent := q.agent.value;
      var rate := if agent in bs then bs[agent].rate else r.LimitOf(agent).eventsPerSecond;
      var delay := Evaluate(r, bs, q, now).1.retryAfter;
      if rate > 0.0 then delay * rate == 1.0 else delay == 1.0
  {
    hide Gain;
    var b := Allow(BucketFor(r, bs, q.agent.value, now), now).0;
    DelayIsOneToken(b);
    hide RetryAfter;
  }

  /** So between reloads every request is decided as the rules say. */
  lemma {:induction false} RunFits(r: Rules, calls: seq<Call>)
    ensures forall i :: 0 <= i < |calls| ==> Fits(r, calls[i].request, Run(r, calls).1[i])
  {
    hide Fits, Evaluate;
    if calls != [] {
      var n := |calls| - 1;
      RunFits(r, calls[..n]);
      EvaluateFits(r, Run(r, calls[..n]).0, calls[n].request, calls[n].now);
    }
  }

  /** In particular an agent on the deny list is never allowed anything. */
  lemma {:induction false} ListedNeverAllowed(r: Rules, calls: seq<Call>, agent: string, s: real, u: real)
    requires exists i :: 0 <= i < |r.denyList| && r.denyList[i] == agent
    ensures AllowedTo(calls, Run(r, calls).1, agent, s, u) == 0
  {
    if calls != [] {
      var n := |calls| - 1;
      ListedNeverAllowed(r, calls[..n], agent, s, u);
      RunFits(r, calls);
      assert Fits(r, calls[n].request, Run(r, calls).1[n]);
      hide Evaluate;
      assert Run(r, calls).1[..n] == Run(r, calls[..n]).1;
    }
  }

  // ---------------------------------------------------------------- limits and bursts

  /** An override is in force as it is; other agents have the default, zeros replaced. */
  lemma LimitInForce(loaded: Rules, agent: string)
    ensures var l := loaded.WithDefaults().LimitOf(agent);
      && (agent in loaded.agentOverrides ==> l == loaded.agentOverrides[agent])
      && (agent !in loaded.agentOverrides ==>
            && (loaded.defaultLimit.eventsPerSecond == 0.0 ==> l.eventsPerSecond == 100.0)
            && (loaded.defaultLimit.eventsPerSecond != 0.0 ==> l.eventsPerSecond == loaded.defaultLimit.eventsPerSecond)
            && (loaded.defaultLimit.burstSize == 0 ==> l.burstSize == 500)
            && (loaded.defaultLimit.burstSize != 0 ==> l.burstSize == loaded.defaultLimit.burstSize))
    ensures forall q, d :: Fits(loaded.WithDefaults(), q, d) <==> Fits(loaded, q, d)
  {
  }

  /** `k` calls with one request at one instant. */
  function Repeated(q: Request, now: real, k: nat): seq<Call> { seq(k, _ => Call(q, now)) }

  /** Of the first requests of an agent the rules do not deny, all made at one instant, exactly as many
      are allowed as its burst holds; the others are throttled. */
  lemma FirstBurst(r: Rules, agent: string, action: string, now: real, k: nat)
    requires var q := Request(Some(agent), action); !Listed(r, q) && !Unpermitted(r, q)
    ensures var ds := Run(r, Repeated(Request(Some(agent), action), now, k)).1;
      forall i :: 0 <= i < k ==> if i + 1 <= r.LimitOf(agent).burstSize then ds[i] == Allowed else ds[i].Throttled?
  {
    var q := Request(Some(agent), action);
    var b := NewBucket(r.LimitOf(agent), now);
    RepeatedIsBucketRun(r, q, agent, now, k);
    RunFits(r, Repeated(q, now, k));
    BurstIsExact(b, now, k);
    forall i | 0 <= i < k
      ensures var ds := Run(r, Repeated(q, now, k)).1;
        if i + 1 <= r.LimitOf(agent).burstSize then ds[i] == Allowed else ds[i].Throttled?
    {
      assert Fits(r, Repeated(q, now, k)[i].request, Run(r, Repeated(q, now, k)).1[i]);
    }
  }

  lemma {:induction false} RepeatedIsBucketRun(r: Rules, q: Request, agent: string, now: real, k: nat)
    requires q.agent == Some(agent) && !Listed(r, q) && !Unpermitted(r, q)
    ensures var (bs, ds) := Run(r, Repeated(q, now, k));
      var (b, answers) := TokenBucket.Run(NewBucket(r.LimitOf(agent), now), AtOnce(now, k));
      && (k == 0 ==> bs == map[]) && (k > 0 ==> agent in bs && bs[agent] == b)
      && forall i :: 0 <= i < k ==> (ds[i] == Allowed <==> answers[i])
  {
    if k > 0 {
      RepeatedIsBucketRun(r, q, agent, now, k - 1);
      assert Repeated(q, now, k)[..k - 1] == Repeated(q, now, k - 1) && Repeated(q, now, k)[k - 1] == Call(q, now);
      assert AtOnce(now, k)[..k - 1] == AtOnce(now, k - 1) && AtOnce(now, k)[k - 1] == now;
      EvaluateFits(r, Run(r, Repeated(q, now, k - 1)).0, q, now);
      hide Allow, RetryAfter, Repeated, AtOnce, Listed, Unpermitted;
    }
  }
}
