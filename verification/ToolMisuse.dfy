/** What the tool-misuse detector does to one session, and what its two latches mean
    (internal/analyzer/detectors/toolmisuse.go, archive/.../detectors/tool_misuse.py). */
module ToolMisuse {
  import opened Events

  datatype Config = Config(maxFailures: nat, minRate: real, minCalls: nat) {
    predicate Valid() { 0 < maxFailures && 0.0 < minRate && 0 < minCalls }
  }

  datatype Record = Record(eventId: string, success: bool, retryCount: int)

  /** What is kept for one tool: its calls per argument key and altogether, and the latches. */
  datatype Stats = Stats(byArgs: map<string, seq<Record>>, all: seq<Record>, storms: set<string>, rateEmitted: bool) {
    function Args(key: string): seq<Record> { if key in byArgs then byArgs[key] else [] }
  }

  const NO_STATS := Stats(map[], [], {}, false)

  /** A session's state: its tools' statistics. */
  type State = map<string, Stats>

  function Tool(s: State, tool: string): Stats { if tool in s then s[tool] else NO_STATS }

  function ToRecord(e: Event): Record
    requires e.IsToolCall()
  {
    Record(e.id, e.toolCall.value.success, e.toolCall.value.retryCount)
  }

  function Failures(rs: seq<Record>): (r: seq<Record>)
    ensures |r| <= |rs|
    ensures forall x <- r :: !x.success
  {
    if rs == [] then []
    else Failures(rs[..|rs| - 1]) + if rs[|rs| - 1].success then [] else [rs[|rs| - 1]]
  }

  function EventIds(rs: seq<Record>): seq<string> {
    seq(|rs|, i requires 0 <= i < |rs| => rs[i].eventId)
  }

  /** The largest retry count, at least zero. */
  function MaxRetry(rs: seq<Record>): int {
    if rs == [] then 0
    else
      var m := MaxRetry(rs[..|rs| - 1]);
      if rs[|rs| - 1].retryCount > m then rs[|rs| - 1].retryCount else m
  }

  function Rate(rs: seq<Record>): real
    requires rs != []
  {
    |Failures(rs)| as real / |rs| as real
  }

  function WithCall(t: Stats, key: string, r: Record): Stats {
    t.(byArgs := t.byArgs[key := t.Args(key) + [r]], all := t.all + [r])
  }

  function StormFinding(c: Config, e: Event, tool: string, key: string, failed: seq<Record>, number: nat): Finding {
    Finding(StormId(e.sessionId, tool, number), e.sessionId, e.agentId, e.tenantId, e.timestamp, Warning,
            Round2(Min(0.6 + (|failed| - c.maxFailures) as real * 0.05, 1.0)), EventIds(failed),
            StormEvidence(key, |failed|, MaxRetry(failed)))
  }

  /** The retry-storm check, for the key just recorded. */
  function CheckStorm(c: Config, e: Event, tool: string, key: string, t: Stats): (Stats, seq<Finding>) {
    var failed := Failures(t.Args(key));
    if key !in t.storms && |failed| > c.maxFailures then
      var storms := t.storms + {key};
      (t.(storms := storms), [StormFinding(c, e, tool, key, failed, |storms|)])
    else (t, [])
  }

  function RateFinding(c: Config, e: Event, tool: string, all: seq<Record>): Finding
    requires all != []
  {
    Finding(RateId(e.sessionId, tool), e.sessionId, e.agentId, e.tenantId, e.timestamp, Warning,
            Round2(Min(0.5 + Rate(all) * 0.4, 1.0)), EventIds(Failures(all)),
            RateEvidence(|all|, |Failures(all)|, Rate(all)))
  }

  /** The failure-rate check, after the storm check of the same call. */
  function CheckRate(c: Config, e: Event, tool: string, t: Stats): (Stats, seq<Finding>) {
    if !t.rateEmitted && t.all != [] && |t.all| >= c.minCalls && Rate(t.all) >= c.minRate && t.storms == {} then
      (t.(rateEmitted := true), [RateFinding(c, e, tool, t.all)])
    else (t, [])
  }

  function ObserveCall(c: Config, t: Stats, e: Event): (Stats, seq<Finding>)
    requires e.IsToolCall()
  {
    var tool, key := e.toolCall.value.toolName, e.toolCall.value.argsKey;
    var (t1, storm) := CheckStorm(c, e, tool, key, WithCall(t, key, ToRecord(e)));
    var (t2, rate) := CheckRate(c, e, tool, t1);
    (t2, storm + rate)
  }

  function Step(c: Config, s: State, e: Event): (State, seq<Finding>) {
    if !e.IsToolCall() then (s, [])
    else
      var tool := e.toolCall.value.toolName;
      var (t, fs) := ObserveCall(c, Tool(s, tool), e);
      (s[tool := t], fs)
  }

  /** The detector over all sessions: a tool call goes to its own session's state. */
  function Feed(c: Config, m: map<string, State>, e: Event): (map<string, State>, seq<Finding>) {
    if !e.IsToolCall() then (m, [])
    else
      var (s, fs) := Step(c, Get(m, e.sessionId), e);
      (m[e.sessionId := s], fs)
  }

  function Get(m: map<string, State>, session: string): State {
    if session in m then m[session] else map[]
  }

  function Run(c: Config, es: seq<Event>): (State, seq<Finding>) {
    if es == [] then (map[], [])
    else
      var (s, fs) := Run(c, es[..|es| - 1]);
      var (s', gs) := Step(c, s, es[|es| - 1]);
      (s', fs + gs)
  }

  // ---------------------------------------------------------------- what the state stands for

  predicate CallsTool(e: Event, tool: string) { e.IsToolCall() && e.toolCall.value.toolName == tool }

  predicate CallsWith(e: Event, tool: string, key: string) { CallsTool(e, tool) && e.toolCall.value.argsKey == key }

  /** The calls of a tool, and those with one argument key, in the order made. */
  function CallsOfTool(es: seq<Event>, tool: string): seq<Record> {
    if es == [] then []
    else if CallsTool(es[|es| - 1], tool) then CallsOfTool(es[..|es| - 1], tool) + [ToRecord(es[|es| - 1])]
    else CallsOfTool(es[..|es| - 1], tool)
  }

  function CallsOfArgs(es: seq<Event>, tool: string, key: string): seq<Record> {
    if es == [] then []
    else if CallsWith(es[|es| - 1], tool, key) then CallsOfArgs(es[..|es| - 1], tool, key) + [ToRecord(es[|es| - 1])]
    else CallsOfArgs(es[..|es| - 1], tool, key)
  }

  /** The batch criterion: more than `maxFailures` failing calls with the same arguments. */
  predicate BatchStorm(c: Config, es: seq<Event>, tool: string, key: string) {
    |Failures(CallsOfArgs(es, tool, key))| > c.maxFailures
  }

  lemma {:induction false} StatsAdvance(c: Config, es: seq<Event>, tool: string)
    requires es != []
    ensures var before, e := Tool(Run(c, es[..|es| - 1]).0, tool), es[|es| - 1];
      Tool(Run(c, es).0, tool) == if CallsTool(e, tool) then ObserveCall(c, before, e).0 else before
  {
    hide ObserveCall;
  }

  /** What one call changes in its tool's statistics. */
  lemma ObserveCallEffect(c: Config, t: Stats, e: Event, key: string)
    requires e.IsToolCall()
    ensures var t', r := ObserveCall(c, t, e).0, ToRecord(e);
      && t'.all == t.all + [r]
      && t'.Args(key) == (if key == e.toolCall.value.argsKey then t.Args(key) + [r] else t.Args(key))
      && (key in t'.storms <==> (key in t.storms
           || (key == e.toolCall.value.argsKey && |Failures(t'.Args(key))| > c.maxFailures)))
  {
    var tool, k := e.toolCall.value.toolName, e.toolCall.value.argsKey;
    var t0 := WithCall(t, k, ToRecord(e));
    var t1 := CheckStorm(c, e, tool, k, t0).0;
    CheckStormEffect(c, e, tool, k, t0);
    CheckRateEffect(c, e, tool, t1);
    hide CheckStorm, CheckRate, Failures;
  }

  lemma CheckStormEffect(c: Config, e: Event, tool: string, key: string, t: Stats)
    ensures var (t', fs) := CheckStorm(c, e, tool, key, t);
      && t'.byArgs == t.byArgs && t'.all == t.all && t'.rateEmitted == t.rateEmitted
      && t'.storms == (if |Failures(t.Args(key))| > c.maxFailures then t.storms + {key} else t.storms)
      && (fs == [] <==> t'.storms == t.storms)
  {
    hide StormFinding, Failures;
  }

  lemma CheckRateEffect(c: Config, e: Event, tool: string, t: Stats)
    ensures var t' := CheckRate(c, e, tool, t).0;
      t'.byArgs == t.byArgs && t'.all == t.all && t'.storms == t.storms
  {
    hide RateFinding, Rate;
  }

  lemma FailuresSnoc(rs: seq<Record>, r: Record)
    ensures Failures(rs + [r]) == Failures(rs) + if r.success then [] else [r]
  {
    assert (rs + [r])[..|rs + [r]| - 1] == rs;
  }

  /** After any stream the storms reported are exactly the batch reference's. */
  lemma {:induction false} StormsEqualBatch(c: Config, es: seq<Event>, tool: string, key: string)
    ensures var t := Tool(Run(c, es).0, tool);
      && t.all == CallsOfTool(es, tool) && t.Args(key) == CallsOfArgs(es, tool, key)
      && (key in t.storms <==> BatchStorm(c, es, tool, key))
  {
    hide Run, ObserveCall;
    if es == [] {
      RunEmpty(c);
    } else {
      var init, e := es[..|es| - 1], es[|es| - 1];
      StormsEqualBatch(c, init, tool, key);
      StatsAdvance(c, es, tool);
      if CallsTool(e, tool) {
        ObserveCallEffect(c, Tool(Run(c, init).0, tool), e, key);
        FailuresSnoc(CallsOfArgs(init, tool, key), ToRecord(e));
      }
    }
  }

  lemma RunEmpty(c: Config)
    ensures Run(c, []) == (map[], [])
  {
  }

  // ---------------------------------------------------------------- retry storms, once each

  /** A storm is reported when the failure that first exceeds the limit arrives, and only then:
      it lists exactly `maxFailures + 1` failing calls, with confidence 0.65. */
  lemma StormReportedAtThreshold(c: Config, es: seq<Event>, e: Event)
    requires e.IsToolCall()
    ensures var tool, key := e.toolCall.value.toolName, e.toolCall.value.argsKey;
      var before, fs := Failures(CallsOfArgs(es, tool, key)), Step(c, Run(c, es).0, e).1;
      && StormCount(fs, tool, key) == (if !e.toolCall.value.success && |before| == c.maxFailures then 1 else 0)
      && forall f <- fs :: f.id.StormId? ==>
           && f.id.tool == tool && f.evidence.StormEvidence? && f.evidence.argsKey == key
           && f.eventIds == EventIds(before) + [e.id] && |f.eventIds| == c.maxFailures + 1
           && f.confidence == 0.65
  {
    hide Run, ObserveCall, Failures, StormFinding, StormCount;
    var tool, key, r := e.toolCall.value.toolName, e.toolCall.value.argsKey, ToRecord(e);
    StormsEqualBatch(c, es, tool, key);
    var t := Tool(Run(c, es).0, tool);
    var before, failed := Failures(t.Args(key)), Failures(t.Args(key) + [r]);
    FailuresSnoc(t.Args(key), r);
    var rate := ObserveCallReports(c, t, e);
    if |failed| == c.maxFailures + 1 && key !in t.storms {
      StormFindingAtThreshold(c, e, tool, key, before, r, |t.storms + {key}|);
      StormCountOfCall([StormFinding(c, e, tool, key, failed, |t.storms + {key}|)], rate, tool, key);
    } else {
      StormCountOfCall([], rate, tool, key);
      NoStorms(tool, key);
    }
  }

  lemma NoStorms(tool: string, key: string)
    ensures StormCount([], tool, key) == 0
  {
  }

  lemma ObserveCallReports(c: Config, t: Stats, e: Event) returns (rate: seq<Finding>)
    requires e.IsToolCall()
    ensures |rate| <= 1 && forall f <- rate :: f.id.RateId?
    ensures var tool, key := e.toolCall.value.toolName, e.toolCall.value.argsKey;
      var failed := Failures(t.Args(key) + [ToRecord(e)]);
      ObserveCall(c, t, e).1
        == (if key !in t.storms && |failed| > c.maxFailures
            then [StormFinding(c, e, tool, key, failed, |t.storms + {key}|)] else []) + rate
  {
    hide StormFinding, Failures, Rate;
    var tool, key := e.toolCall.value.toolName, e.toolCall.value.argsKey;
    var t1 := CheckStorm(c, e, tool, key, WithCall(t, key, ToRecord(e))).0;
    rate := CheckRate(c, e, tool, t1).1;
    assert forall f <- rate :: f.id.RateId? by {
      hide CheckStorm;
      assert rate != [] ==> rate == [RateFinding(c, e, tool, t1.all)];
    }
  }

  lemma StormFindingAtThreshold(c: Config, e: Event, tool: string, key: string, before: seq<Record>, r: Record,
                                number: nat)
    requires |before| == c.maxFailures
    ensures var f := StormFinding(c, e, tool, key, before + [r], number);
      && f.eventIds == EventIds(before) + [r.eventId] && |f.eventIds| == c.maxFailures + 1 && f.confidence == 0.65
      && IsStormOf(f, tool, key) && StormCount([f], tool, key) == 1
  {
    hide MaxRetry;
    var f := StormFinding(c, e, tool, key, before + [r], number);
    assert [f][..0] == [];
    assert (|before + [r]| - c.maxFailures) as real == 1.0;
  }

  /** How many storm findings a stream reported for a tool and argument key. */
  function StormCount(fs: seq<Finding>, tool: string, key: string): nat {
    if fs == [] then 0
    else StormCount(fs[..|fs| - 1], tool, key) + if IsStormOf(fs[|fs| - 1], tool, key) then 1 else 0
  }

  predicate IsStormOf(f: Finding, tool: string, key: string) {
    f.id.StormId? && f.id.tool == tool && f.evidence.StormEvidence? && f.evidence.argsKey == key
  }

  lemma StormCountOfCall(storm: seq<Finding>, rate: seq<Finding>, tool: string, key: string)
    requires |storm| <= 1 && |rate| <= 1
    requires forall f <- rate :: f.id.RateId?
    ensures StormCount(storm + rate, tool, key) == StormCount(storm, tool, key)
  {
    StormCountConcat(storm, rate, tool, key);
    assert rate == [] || (StormCount(rate[..0], tool, key) == 0 && rate[..|rate| - 1] == []);
  }

  lemma {:induction false} StormCountConcat(a: seq<Finding>, b: seq<Finding>, tool: string, key: string)
    ensures StormCount(a + b, tool, key) == StormCount(a, tool, key) + StormCount(b, tool, key)
  {
    if b == [] {
      assert a + b == a;
    } else {
      assert (a + b)[..|a + b| - 1] == a + b[..|b| - 1];
      StormCountConcat(a, b[..|b| - 1], tool, key);
    }
  }

  lemma {:induction false} StormCountZero(fs: seq<Finding>, tool: string, key: string)
    requires forall f <- fs :: !IsStormOf(f, tool, key)
    ensures StormCount(fs, tool, key) == 0
  {
    if fs != [] {
      StormCountZero(fs[..|fs| - 1], tool, key);
    }
  }

  /** Over any stream each (tool, arguments) pair is reported as a storm once if the batch
      criterion holds of the whole stream, and never otherwise. */
  lemma {:induction false} StormsReportedOnce(c: Config, es: seq<Event>, tool: string, key: string)
    ensures StormCount(Run(c, es).1, tool, key) == if BatchStorm(c, es, tool, key) then 1 else 0
  {
    if es != [] {
      var init, e := es[..|es| - 1], es[|es| - 1];
      StormsReportedOnce(c, init, tool, key);
      StormCountConcat(Run(c, init).1, Step(c, Run(c, init).0, e).1, tool, key);
      if e.IsToolCall() {
        StormReportedAtThreshold(c, init, e);
        FailuresSnoc(CallsOfArgs(init, tool, key), ToRecord(e));
        hide Step, Failures;
        if !CallsWith(e, tool, key) {
          StormCountZero(Step(c, Run(c, init).0, e).1, tool, key);
        }
      }
    }
  }

  // ---------------------------------------------------------------- failure rate, once per tool

  predicate HasStorm(c: Config, es: seq<Event>, tool: string) {
    Tool(Run(c, es).0, tool).storms != {}
  }

  /** No argument key of the tool is past the storm limit. */
  lemma HasStormIff(c: Config, es: seq<Event>, tool: string)
    ensures HasStorm(c, es, tool) <==> exists key :: BatchStorm(c, es, tool, key)
  {
    var t := Tool(Run(c, es).0, tool);
    forall key ensures key in t.storms <==> BatchStorm(c, es, tool, key) {
      StormsEqualBatch(c, es, tool, key);
    }
    if t.storms != {} {
      var key :| key in t.storms;
    }
  }

  /** The last event is a call of the tool, enough calls have been made, enough of them failed,
      and no storm has been reported for the tool. */
  predicate RateTriggers(c: Config, es: seq<Event>, tool: string) {
    && es != [] && CallsTool(es[|es| - 1], tool)
    && |CallsOfTool(es, tool)| >= c.minCalls && Rate(CallsOfTool(es, tool)) >= c.minRate
    && !HasStorm(c, es, tool)
  }

  /** Some point of the stream met the condition. */
  ghost predicate RateTriggered(c: Config, es: seq<Event>, tool: string) {
    exists k :: 0 <= k <= |es| && RateTriggers(c, es[..k], tool)
  }

  lemma RateTriggeredSnoc(c: Config, es: seq<Event>, tool: string)
    requires es != []
    ensures RateTriggered(c, es, tool) <==> RateTriggered(c, es[..|es| - 1], tool) || RateTriggers(c, es, tool)
  {
    hide RateTriggers;
    var init := es[..|es| - 1];
    assert es[..|es|] == es;
    forall k | 0 <= k <= |init| ensures init[..k] == es[..k] {
    }
    if RateTriggered(c, init, tool) {
      var k :| 0 <= k <= |init| && RateTriggers(c, init[..k], tool);
      assert RateTriggers(c, es[..k], tool);
    }
    if RateTriggered(c, es, tool) {
      var k :| 0 <= k <= |es| && RateTriggers(c, es[..k], tool);
      if k <= |init| {
        assert RateTriggers(c, init[..k], tool);
      }
    }
  }

  function RateCount(fs: seq<Finding>, tool: string): nat {
    if fs == [] then 0
    else RateCount(fs[..|fs| - 1], tool) + if fs[|fs| - 1].id.RateId? && fs[|fs| - 1].id.tool == tool then 1 else 0
  }

  lemma {:induction false} RateCountConcat(a: seq<Finding>, b: seq<Finding>, tool: string)
    ensures RateCount(a + b, tool) == RateCount(a, tool) + RateCount(b, tool)
  {
    if b == [] {
      assert a + b == a;
    } else {
      assert (a + b)[..|a + b| - 1] == a + b[..|b| - 1];
      RateCountConcat(a, b[..|b| - 1], tool);
    }
  }

  /** What a call does to the rate latch of its tool, and what it reports. */
  lemma ObserveCallRate(c: Config, t: Stats, e: Event, tool: string)
    requires e.IsToolCall() && c.Valid()
    ensures var (t', fs) := ObserveCall(c, t, e);
      var fires := !t.rateEmitted && |t'.all| >= c.minCalls && t'.all != [] && Rate(t'.all) >= c.minRate
        && t'.storms == {};
      && t'.rateEmitted == (t.rateEmitted || fires)
      && RateCount(fs, tool) == (if fires && CallsTool(e, tool) then 1 else 0)
  {
    hide CheckStorm, CheckRate, Failures, Rate;
    var own, key := e.toolCall.value.toolName, e.toolCall.value.argsKey;
    var t0 := WithCall(t, key, ToRecord(e));
    CheckStormEffect(c, e, own, key, t0);
    var (t1, storm) := CheckStorm(c, e, own, key, t0);
    var (t2, rate) := CheckRate(c, e, own, t1);
    CheckRateFires(c, e, own, t1);
    RateCountConcat(storm, rate, tool);
    StormIdOf(c, e, own, key, t0);
    assert storm == [] || storm[..0] == [];
    assert rate == [] || rate[..0] == [];
  }

  lemma CheckRateFires(c: Config, e: Event, tool: string, t: Stats)
    ensures var (t', fs) := CheckRate(c, e, tool, t);
      var fires := !t.rateEmitted && t.all != [] && |t.all| >= c.minCalls && Rate(t.all) >= c.minRate && t.storms == {};
      && t'.rateEmitted == (t.rateEmitted || fires) && t'.all == t.all && t'.storms == t.storms
      && |fs| == (if fires then 1 else 0) && forall f <- fs :: f.id == RateId(e.sessionId, tool)
  {
    hide Rate;
    RateIdOf(c, e, tool, t);
    hide RateFinding;
  }

  lemma StormIdOf(c: Config, e: Event, tool: string, key: string, t: Stats)
    ensures |CheckStorm(c, e, tool, key, t).1| <= 1
    ensures forall f <- CheckStorm(c, e, tool, key, t).1 :: f.id.StormId?
  {
    hide Failures, Round2, MaxRetry, EventIds;
  }

  lemma RateIdOf(c: Config, e: Event, tool: string, t: Stats)
    ensures forall f <- CheckRate(c, e, tool, t).1 :: f.id == RateId(e.sessionId, tool)
  {
    hide Failures, Round2, Rate, EventIds;
  }

  /** A tool's failure rate is reported once if some point of the stream met the condition, and
      never otherwise; in particular never once a storm has been reported for the tool. */
  lemma {:induction false} RateReportedOnce(c: Config, es: seq<Event>, tool: string)
    requires c.Valid()
    ensures RateCount(Run(c, es).1, tool) == (if RateTriggered(c, es, tool) then 1 else 0)
    ensures Tool(Run(c, es).0, tool).rateEmitted <==> RateTriggered(c, es, tool)
  {
    if es != [] {
      var init, e := es[..|es| - 1], es[|es| - 1];
      RateReportedOnce(c, init, tool);
      RateTriggeredSnoc(c, es, tool);
      StatsAdvance(c, es, tool);
      RateCountConcat(Run(c, init).1, Step(c, Run(c, init).0, e).1, tool);
      if e.IsToolCall() {
        StormsEqualBatch(c, es, tool, e.toolCall.value.argsKey);
        ObserveCallRate(c, Tool(Run(c, init).0, e.toolCall.value.toolName), e, tool);
        hide ObserveCall, Rate, RateTriggered;
      }
    }
  }

  lemma HasStormGrows(c: Config, es: seq<Event>, tool: string)
    requires es != [] && HasStorm(c, es[..|es| - 1], tool)
    ensures HasStorm(c, es, tool)
  {
    var key :| key in Tool(Run(c, es[..|es| - 1]).0, tool).storms;
    StatsAdvance(c, es, tool);
    if CallsTool(es[|es| - 1], tool) {
      ObserveCallEffect(c, Tool(Run(c, es[..|es| - 1]).0, tool), es[|es| - 1], key);
      hide ObserveCall;
    }
    assert key in Tool(Run(c, es).0, tool).storms;
  }

  /** With no report so far and no storm, enough calls mean the rate is still below the limit. */
  lemma {:induction false} RateBelowUntilReported(c: Config, es: seq<Event>, tool: string)
    requires c.Valid() && !RateTriggered(c, es, tool) && !HasStorm(c, es, tool)
    requires |CallsOfTool(es, tool)| >= c.minCalls
    ensures Rate(CallsOfTool(es, tool)) < c.minRate
  {
    hide Rate;
    RateTriggeredSnoc(c, es, tool);
    if !CallsTool(es[|es| - 1], tool) {
      StatsAdvance(c, es, tool);
      RateBelowUntilReported(c, es[..|es| - 1], tool);
    }
  }

  /** When the rate is reported with more than `minCalls` calls on record, the call that triggered
      the report is itself a failure. */
  lemma RateTriggerIsFailure(c: Config, es: seq<Event>, tool: string)
    requires c.Valid() && RateTriggers(c, es, tool) && !RateTriggered(c, es[..|es| - 1], tool)
    requires |CallsOfTool(es, tool)| > c.minCalls
    ensures CallsTool(es[|es| - 1], tool) && !es[|es| - 1].toolCall.value.success
  {
    hide Run, Rate, Failures, RateTriggered;
    var init, e := es[..|es| - 1], es[|es| - 1];
    if HasStorm(c, init, tool) {
      HasStormGrows(c, es, tool);
    }
    RateBelowUntilReported(c, init, tool);
    if e.toolCall.value.success {
      SuccessLowersRate(CallsOfTool(init, tool), ToRecord(e));
    }
  }

  lemma SuccessLowersRate(rs: seq<Record>, r: Record)
    requires rs != [] && r.success
    ensures Rate(rs + [r]) <= Rate(rs)
  {
    FailuresSnoc(rs, r);
    RateFalls(|Failures(rs)|, |rs|);
  }

  lemma RateFalls(failed: nat, total: nat)
    requires 0 < total
    ensures failed as real / (total + 1) as real <= failed as real / total as real
  {
    var f, n := failed as real, total as real;
    assert (total + 1) as real == n + 1.0;
    var q := f / n;
    assert q * (n + 1.0) == f + q;
    assert q >= 0.0;
    assert f / (n + 1.0) <= q;
  }
}
