/** What the tool-misuse detector reports, in the terms of a session's events
    (internal/analyzer/detectors/toolmisuse.go). */
module MisuseReports {
  import opened Events
  import opened ToolMisuse

  // ---------------------------------------------------------------- the calls

  /** The calls of a tool are its tool-call events, in order; */
  lemma {:induction false} ToolCallsConcat(a: seq<Event>, b: seq<Event>, tool: string)
    ensures CallsOfTool(a + b, tool) == CallsOfTool(a, tool) + CallsOfTool(b, tool)
  {
    if b == [] {
      assert a + b == a;
    } else {
      assert (a + b)[..|a + b| - 1] == a + b[..|b| - 1];
      ToolCallsConcat(a, b[..|b| - 1], tool);
    }
  }

  lemma ToolCallsOfOne(e: Event, tool: string)
    ensures CallsOfTool([e], tool) ==
      if e.kind == ToolCallEvent && e.toolCall.Some? && e.toolCall.value.toolName == tool then
        [Record(e.id, e.toolCall.value.success, e.toolCall.value.retryCount)] else []
  {
    assert [e][..0] == [];
  }

  /** those with one argument key are those of them that carry it. */
  lemma {:induction false} ArgsCallsConcat(a: seq<Event>, b: seq<Event>, tool: string, key: string)
    ensures CallsOfArgs(a + b, tool, key) == CallsOfArgs(a, tool, key) + CallsOfArgs(b, tool, key)
  {
    if b == [] {
      assert a + b == a;
    } else {
      assert (a + b)[..|a + b| - 1] == a + b[..|b| - 1];
      ArgsCallsConcat(a, b[..|b| - 1], tool, key);
    }
  }

  lemma ArgsCallsOfOne(e: Event, tool: string, key: string)
    requires e.kind == ToolCallEvent && e.toolCall.Some?
    ensures CallsOfArgs([e], tool, key) ==
      if e.toolCall.value.argsKey == key then CallsOfTool([e], tool) else []
  {
    assert [e][..0] == [];
  }

  // ---------------------------------------------------------------- failing calls

  /** The identifiers of the failing calls, in order. */
  function FailedIds(rs: seq<Record>): seq<string> {
    if rs == [] then [] else if rs[0].success then FailedIds(rs[1..]) else [rs[0].eventId] + FailedIds(rs[1..])
  }

  lemma {:induction false} FailedIdsSnoc(rs: seq<Record>, r: Record)
    ensures FailedIds(rs + [r]) == FailedIds(rs) + if r.success then [] else [r.eventId]
  {
    if rs == [] {
      assert rs + [r] == [r] && [r][1..] == [];
    } else {
      assert (rs + [r])[0] == rs[0] && (rs + [r])[1..] == rs[1..] + [r];
      FailedIdsSnoc(rs[1..], r);
    }
  }

  lemma {:induction false} FailuresAreFailed(rs: seq<Record>)
    ensures EventIds(Failures(rs)) == FailedIds(rs) && |Failures(rs)| == |FailedIds(rs)|
    ensures forall r :: r in Failures(rs) <==> r in rs && !r.success
  {
    if rs != [] {
      var init, last := rs[..|rs| - 1], rs[|rs| - 1];
      assert rs == init + [last];
      FailuresAreFailed(init);
      FailedIdsSnoc(init, last);
      FailuresSnoc(init, last);
      hide FailedIds;
    }
  }

  /** The largest retry count of the failing calls, none being negative. */
  predicate IsMaxRetry(most: int, rs: seq<Record>) {
    && most >= 0 && (forall r <- rs :: !r.success ==> r.retryCount <= most)
    && (most == 0 || exists r <- rs :: !r.success && r.retryCount == most)
  }

  lemma {:induction false} MaxRetryIs(rs: seq<Record>)
    ensures MaxRetry(rs) >= 0 && (forall r <- rs :: r.retryCount <= MaxRetry(rs))
    ensures MaxRetry(rs) == 0 || exists r <- rs :: r.retryCount == MaxRetry(rs)
  {
    if rs != [] {
      var init, last := rs[..|rs| - 1], rs[|rs| - 1];
      assert rs == init + [last];
      MaxRetryIs(init);
    }
  }

  // ---------------------------------------------------------------- what is reported

  /** Whose event led to the finding. */
  predicate Stamped(f: Finding, e: Event) {
    && f.sessionId == e.sessionId && f.agentId == e.agentId && f.tenantId == e.tenantId && f.timestamp == e.timestamp
    && f.severity == Warning
  }

  /** The storm finding at a call names all failing calls with the same tool and arguments, their
      number, which is one more than the limit, and the largest retry count among them. */
  ghost predicate StormSays(c: Config, es: seq<Event>, e: Event, f: Finding)
    requires e.IsToolCall()
  {
    var tool, key := e.toolCall.value.toolName, e.toolCall.value.argsKey;
    var calls := CallsOfArgs(es + [e], tool, key);
    && Stamped(f, e) && f.id == StormId(e.sessionId, tool, |Tool(Run(c, es).0, tool).storms| + 1)
    && f.eventIds == FailedIds(calls) && |f.eventIds| == c.maxFailures + 1 && f.confidence == 0.65
    && f.evidence.StormEvidence? && f.evidence.argsKey == key && f.evidence.failures == c.maxFailures + 1
    && IsMaxRetry(f.evidence.maxRetryCount, calls)
  }

  /** The rate finding at a call names all failing calls of its tool and their share of all its calls,
      which is at least the limit; the confidence is 0.5 and 0.4 times that share, rounded. */
  ghost predicate RateSays(c: Config, es: seq<Event>, e: Event, f: Finding)
    requires e.IsToolCall()
  {
    var tool := e.toolCall.value.toolName;
    var calls := CallsOfTool(es + [e], tool);
    var total, failed := |calls|, |FailedIds(calls)|;
    && Stamped(f, e) && f.id == RateId(e.sessionId, tool)
    && f.eventIds == FailedIds(calls) && c.minCalls <= total && AtLeastShare(failed, total, c.minRate)
    && f.evidence.RateEvidence? && f.evidence.total == total && f.evidence.failed == failed
    && f.evidence.rate * total as real == failed as real
    && IsRounded(f.confidence, 0.5 + 0.4 * f.evidence.rate)
  }

  lemma CallsAt(c: Config, es: seq<Event>, e: Event)
    requires e.IsToolCall()
    ensures var tool, key := e.toolCall.value.toolName, e.toolCall.value.argsKey;
      var t := Tool(Run(c, es).0, tool);
      && CallsOfArgs(es + [e], tool, key) == t.Args(key) + [ToRecord(e)]
      && CallsOfTool(es + [e], tool) == t.all + [ToRecord(e)]
  {
    StormsEqualBatch(c, es, e.toolCall.value.toolName, e.toolCall.value.argsKey);
    hide Run;
    assert (es + [e])[..|es|] == es;
  }

  /** Every finding of a stream is a storm or a rate, and says what the calls so far are. */
  lemma FindingSays(c: Config, es: seq<Event>, e: Event, f: Finding)
    requires c.Valid() && f in Step(c, Run(c, es).0, e).1
    ensures e.IsToolCall() && (StormSays(c, es, e, f) || RateSays(c, es, e, f))
  {
    hide Run, CheckStorm, CheckRate, StormSays, RateSays;
    var tool, key := e.toolCall.value.toolName, e.toolCall.value.argsKey;
    var t := Tool(Run(c, es).0, tool);
    var t1 := CheckStorm(c, e, tool, key, WithCall(t, key, ToRecord(e))).0;
    CheckStormEffect(c, e, tool, key, WithCall(t, key, ToRecord(e)));
    if f in CheckStorm(c, e, tool, key, WithCall(t, key, ToRecord(e))).1 {
      StormFindingSays(c, es, e, f);
    } else {
      assert t1.all == t.all + [ToRecord(e)];
      RateFindingSays(c, es, e, t1, f);
    }
  }

  lemma StormFindingSays(c: Config, es: seq<Event>, e: Event, f: Finding)
    requires e.IsToolCall()
    requires var tool, key := e.toolCall.value.toolName, e.toolCall.value.argsKey;
      f in CheckStorm(c, e, tool, key, WithCall(Tool(Run(c, es).0, tool), key, ToRecord(e))).1
    ensures StormSays(c, es, e, f)
  {
    hide Run, Failures, FailedIds, StormSays, StormFinding;
    var tool, key := e.toolCall.value.toolName, e.toolCall.value.argsKey;
    var t := Tool(Run(c, es).0, tool);
    CallsAt(c, es, e);
    StormsEqualBatch(c, es, tool, key);
    FailuresSnoc(t.Args(key), ToRecord(e));
    var calls := t.Args(key) + [ToRecord(e)];
    assert WithCall(t, key, ToRecord(e)).Args(key) == calls;
    StormOf(c, es, e, tool, key, calls, |t.storms + {key}|);
  }

  lemma StormOf(c: Config, es: seq<Event>, e: Event, tool: string, key: string, calls: seq<Record>, number: nat)
    requires e.IsToolCall() && tool == e.toolCall.value.toolName && key == e.toolCall.value.argsKey
    requires calls == CallsOfArgs(es + [e], tool, key) && |Failures(calls)| == c.maxFailures + 1
    requires number == |Tool(Run(c, es).0, tool).storms| + 1
    ensures StormSays(c, es, e, StormFinding(c, e, tool, key, Failures(calls), number))
  {
    FailuresAreFailed(calls);
    MaxRetryIs(Failures(calls));
    hide Failures, MaxRetry, FailedIds, EventIds, CallsOfArgs, Run;
    assert (|Failures(calls)| - c.maxFailures) as real == 1.0;
  }

  lemma RateFindingSays(c: Config, es: seq<Event>, e: Event, t1: Stats, f: Finding)
    requires e.IsToolCall() && c.Valid() && t1.all == Tool(Run(c, es).0, e.toolCall.value.toolName).all + [ToRecord(e)]
    requires f in CheckRate(c, e, e.toolCall.value.toolName, t1).1
    ensures RateSays(c, es, e, f)
  {
    hide Run, Failures, FailedIds, RateSays, RateFinding, Rate;
    CallsAt(c, es, e);
    RateOf(c, es, e, e.toolCall.value.toolName, t1.all);
  }

  lemma RateOf(c: Config, es: seq<Event>, e: Event, tool: string, calls: seq<Record>)
    requires e.IsToolCall() && tool == e.toolCall.value.toolName && calls == CallsOfTool(es + [e], tool)
    requires calls != [] && c.minCalls <= |calls| && Rate(calls) >= c.minRate
    ensures RateSays(c, es, e, RateFinding(c, e, tool, calls))
  {
    FailuresAreFailed(calls);
    hide Failures, FailedIds, EventIds, CallsOfTool;
    ShareIs(|Failures(calls)|, |calls|, c.minRate);
    var rate := Rate(calls);
    hide Rate, Round2, IsRounded;
    Round2IsRounded(0.5 + rate * 0.4);
    assert 0.5 + rate * 0.4 <= 1.0;
  }

  /** When a pair is a storm and when a tool's rate triggers a report, counted in failing calls. */
  lemma CriteriaAre(c: Config, es: seq<Event>, tool: string, key: string)
    requires c.Valid()
    ensures BatchStorm(c, es, tool, key) <==> |FailedIds(CallsOfArgs(es, tool, key))| > c.maxFailures
    ensures RateTriggers(c, es, tool) <==>
      var calls := CallsOfTool(es, tool);
      && es != [] && es[|es| - 1].IsToolCall() && es[|es| - 1].toolCall.value.toolName == tool
      && |calls| >= c.minCalls && AtLeastShare(|FailedIds(calls)|, |calls|, c.minRate)
      && !HasStorm(c, es, tool)
  {
    hide Run, Failures, FailedIds, CallsOfTool, CallsOfArgs, HasStorm, Rate;
    FailuresAreFailed(CallsOfArgs(es, tool, key));
    if CallsOfTool(es, tool) != [] {
      RateAtLeastIff(CallsOfTool(es, tool), c.minRate);
    }
  }

  /** So many of `total` are at least a share `limit` of it. */
  predicate AtLeastShare(part: nat, total: nat, limit: real) { part as real >= limit * total as real }

  lemma {:induction false} RateAtLeastIff(calls: seq<Record>, limit: real)
    requires calls != []
    ensures Rate(calls) >= limit <==> AtLeastShare(|FailedIds(calls)|, |calls|, limit)
  {
    FailuresAreFailed(calls);
    hide AtLeastShare, Failures, FailedIds;
    ShareAtLeast(|Failures(calls)|, |calls|, limit);
  }

  lemma ShareAtLeast(part: nat, total: nat, limit: real)
    requires 0 < total
    ensures part as real / total as real >= limit <==> AtLeastShare(part, total, limit)
  {
    var share := part as real / total as real;
    if share >= limit {
      assert (share - limit) * total as real >= 0.0;
    } else {
      assert (limit - share) * total as real > 0.0;
    }
  }

  lemma ShareIs(part: nat, total: nat, limit: real)
    requires part <= total && 0 < total
    ensures var share := part as real / total as real;
      share * total as real == part as real && 0.0 <= share <= 1.0
      && (share >= limit ==> AtLeastShare(part, total, limit))
  {
    var share := part as real / total as real;
    if share >= limit {
      assert (share - limit) * total as real >= 0.0;
    }
  }
}
