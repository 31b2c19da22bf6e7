/** The tool-misuse detector as the object it is, and the storm part of its batch reference. */
module ToolMisuseDetector {
  import opened Events
  import opened ToolMisuse

  /** The failing calls among `rs`, collected in order. */
  method CollectFailures(rs: seq<Record>) returns (failed: seq<Record>)
    ensures failed == Failures(rs)
  {
    failed := [];
    for i := 0 to |rs|
      invariant failed == Failures(rs[..i])
    {
      assert rs[..i + 1][..i] == rs[..i];
      if !rs[i].success {
        failed := failed + [rs[i]];
      }
    }
    assert rs[..|rs|] == rs;
  }

  method SummariseFailures(failed: seq<Record>) returns (ids: seq<string>, maxRetry: int)
    ensures ids == EventIds(failed) && maxRetry == MaxRetry(failed)
  {
    ids, maxRetry := [], 0;
    for i := 0 to |failed|
      invariant ids == EventIds(failed[..i]) && maxRetry == MaxRetry(failed[..i])
    {
      assert failed[..i + 1][..i] == failed[..i];
      ids := ids + [failed[i].eventId];
      if failed[i].retryCount > maxRetry {
        maxRetry := failed[i].retryCount;
      }
    }
    assert failed[..|failed|] == failed;
  }

  // ---------------------------------------------------------------- the batch reference

  /** The groups the batch reference forms: a list of calls per tool and argument key. */
  method GroupCalls(events: seq<Event>) returns (groups: map<(string, string), seq<Record>>)
    ensures forall tool, key :: GroupIs(groups, events, tool, key)
  {
    groups := map[];
    for i := 0 to |events|
      invariant forall tool, key :: GroupIs(groups, events[..i], tool, key)
    {
      var e := events[i];
      ghost var before := groups;
      ghost var seen := events[..i + 1];
      assert seen[..i] == events[..i] && seen[i] == e;
      if e.IsToolCall() {
        var k := (e.toolCall.value.toolName, e.toolCall.value.argsKey);
        assert GroupIs(before, events[..i], k.0, k.1);
        groups := groups[k := (if k in groups then groups[k] else []) + [ToRecord(e)]];
      }
      forall tool, key ensures GroupIs(groups, seen, tool, key) {
        assert GroupIs(before, events[..i], tool, key);
      }
    }
    assert events[..|events|] == events;
  }

  ghost predicate GroupIs(groups: map<(string, string), seq<Record>>, es: seq<Event>, tool: string, key: string) {
    (if (tool, key) in groups then groups[(tool, key)] else []) == CallsOfArgs(es, tool, key)
  }

  /** The retry storms of a whole session: the failing calls of each group over the limit. */
  method DetectStorms(c: Config, events: seq<Event>) returns (reported: map<(string, string), seq<string>>)
    ensures forall tool, key :: (tool, key) in reported <==> BatchStorm(c, events, tool, key)
    ensures forall tool, key :: (tool, key) in reported ==>
      reported[(tool, key)] == EventIds(Failures(CallsOfArgs(events, tool, key)))
  {
    var groups := GroupCalls(events);
    reported := map[];
    var remaining := groups.Keys;
    while remaining != {}
      invariant remaining <= groups.Keys && reported.Keys <= groups.Keys
      invariant forall k :: k in groups && k !in remaining
                  ==> (k in reported <==> |Failures(groups[k])| > c.maxFailures)
      invariant forall k :: k in reported ==> k !in remaining && reported[k] == EventIds(Failures(groups[k]))
      decreases |remaining|
    {
      var k :| k in remaining;
      remaining := remaining - {k};
      var failures := CollectFailures(groups[k]);
      if |failures| > c.maxFailures {
        var ids, _ := SummariseFailures(failures);
        reported := reported[k := ids];
      }
    }
    forall tool, key
      ensures (tool, key) in reported <==> BatchStorm(c, events, tool, key)
      ensures (tool, key) in reported ==> reported[(tool, key)] == EventIds(Failures(CallsOfArgs(events, tool, key)))
    {
      assert GroupIs(groups, events, tool, key);
    }
  }

  // ---------------------------------------------------------------- the streaming detector

  /** One session: the statistics of each tool called, which every call replaces. */
  class MisuseSession {
    var tools: map<string, Stats>

    constructor ()
      ensures tools == map[]
    {
      tools := map[];
    }

    /** Records the call, then checks for a retry storm and for a high failure rate. */
    method Observe(c: Config, event: Event) returns (findings: seq<Finding>)
      requires event.IsToolCall()
      modifies this
      ensures (tools, findings) == Step(c, old(tools), event)
    {
      hide CheckStorm, CheckRate;
      var tool, argsKey := event.toolCall.value.toolName, event.toolCall.value.argsKey;
      var rec := ToRecord(event);
      var ts := if tool in tools then tools[tool] else NO_STATS;
      var argsRecords := (if argsKey in ts.byArgs then ts.byArgs[argsKey] else []) + [rec];
      ts := ts.(byArgs := ts.byArgs[argsKey := argsRecords], all := ts.all + [rec]);
      var rate: seq<Finding>;
      CheckStormEffect(c, event, tool, argsKey, ts);
      ts, findings := CheckForStorm(c, event, tool, argsKey, ts);
      ts, rate := CheckForRate(c, event, tool, ts);
      findings := findings + rate;
      tools := tools[tool := ts];
    }

    static method CheckForStorm(c: Config, event: Event, tool: string, argsKey: string, t: Stats)
      returns (ts: Stats, findings: seq<Finding>)
      ensures (ts, findings) == CheckStorm(c, event, tool, argsKey, t)
    {
      hide Round2;
      ts, findings := t, [];
      if argsKey !in ts.storms {
        var failures := CollectFailures(ts.Args(argsKey));
        if |failures| > c.maxFailures {
          ts := ts.(storms := ts.storms + {argsKey});
          var failIds, maxRC := SummariseFailures(failures);
          var confidence := Round2(Min(0.6 + (|failures| - c.maxFailures) as real * 0.05, 1.0));
          findings := [Finding(StormId(event.sessionId, tool, |ts.storms|), event.sessionId, event.agentId,
                               event.tenantId, event.timestamp, Warning, confidence, failIds,
                               StormEvidence(argsKey, |failures|, maxRC))];
        }
      }
    }

    static method CheckForRate(c: Config, event: Event, tool: string, t: Stats)
      returns (ts: Stats, findings: seq<Finding>)
      requires t.all != []
      ensures (ts, findings) == CheckRate(c, event, tool, t)
    {
      hide Round2;
      ts, findings := t, [];
      if !ts.rateEmitted {
        var total := |ts.all|;
        if total >= c.minCalls {
          var failed := CollectFailures(ts.all);
          var failureRate := |failed| as real / total as real;
          if failureRate >= c.minRate {
            var alreadyStorm := |ts.storms| > 0;
            if !alreadyStorm {
              ts := ts.(rateEmitted := true);
              var failedIds, _ := SummariseFailures(failed);
              var confidence := Round2(Min(0.5 + failureRate * 0.4, 1.0));
              findings := [Finding(RateId(event.sessionId, tool), event.sessionId, event.agentId, event.tenantId,
                                   event.timestamp, Warning, confidence, failedIds,
                                   RateEvidence(total, |failed|, failureRate))];
            }
          }
        }
      }
    }
  }

  /** The streaming detector: one `MisuseSession` per session seen. */
  class ToolMisuseDetector {
    const config: Config
    var sessions: map<string, MisuseSession>

    ghost function Repr(): set<object> reads this { {this} + sessions.Values }

    /** Sessions do not share state. */
    ghost predicate Valid()
      reads this
    {
      config.Valid() && forall j, k :: j in sessions && k in sessions && j != k ==> sessions[j] != sessions[k]
    }

    ghost function States(): map<string, State>
      reads this, sessions.Values
    {
      map k | k in sessions :: sessions[k].tools
    }

    constructor (maxConsecutiveFailures: int, minFailureRate: real, minCallsForRate: int)
      ensures Valid() && States() == map[] && fresh(Repr())
      ensures config.maxFailures == if maxConsecutiveFailures <= 0 then 5 else maxConsecutiveFailures
      ensures config.minRate == if minFailureRate <= 0.0 then 0.7 else minFailureRate
      ensures config.minCalls == if minCallsForRate <= 0 then 3 else minCallsForRate
    {
      config := Config(if maxConsecutiveFailures <= 0 then 5 else maxConsecutiveFailures,
                       if minFailureRate <= 0.0 then 0.7 else minFailureRate,
                       if minCallsForRate <= 0 then 3 else minCallsForRate);
      sessions := map[];
    }

    method Reset()
      requires Valid()
      modifies this
      ensures Valid() && States() == map[]
    {
      sessions := map[];
    }

    /** Only the event's own session moves on, and the findings come from it alone. */
    method Analyze(event: Event) returns (findings: seq<Finding>)
      requires Valid()
      modifies Repr()
      ensures Valid() && fresh(Repr() - old(Repr()))
      ensures (States(), findings) == Feed(config, old(States()), event)
    {
      hide Step;
      findings := [];
      if event.IsToolCall() {
        if event.sessionId !in sessions {
          var created := new MisuseSession();
          sessions := sessions[event.sessionId := created];
        }
        assert sessions[event.sessionId].tools == Get(old(States()), event.sessionId);
        findings := sessions[event.sessionId].Observe(config, event);
        assert States() == old(States())[event.sessionId := sessions[event.sessionId].tools];
      }
    }
  }
}
