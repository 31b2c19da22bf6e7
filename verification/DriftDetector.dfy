/** The goal-drift detector as the loops and objects it is, and its batch reference. */
module DriftDetector {
  import opened Events
  import opened GoalDrift

  /** Counts common and distinct tokens by walking over `b`. */
  method ComputeJaccard(a: set<string>, b: set<string>) returns (similarity: real)
    ensures similarity == Jaccard(a, b)
  {
    if |a| == 0 && |b| == 0 {
      return 1.0;
    }
    var unionSize, intersectSize := |a|, 0;
    var rest, seen := b, {};
    assert a * {} == {} && a + {} == a;
    while rest != {}
      invariant seen + rest == b && seen * rest == {}
      invariant intersectSize == |a * seen| && unionSize == |a + seen|
      decreases |rest|
    {
      var k :| k in rest;
      CountToken(a, seen, k);
      if k in a {
        intersectSize := intersectSize + 1;
      } else {
        unionSize := unionSize + 1;
      }
      rest, seen := rest - {k}, seen + {k};
    }
    assert seen == b;
    JaccardBounds(a, b);
    similarity := intersectSize as real / unionSize as real;
  }

  lemma CountToken(a: set<string>, seen: set<string>, k: string)
    requires k !in seen
    ensures |a * (seen + {k})| == |a * seen| + (if k in a then 1 else 0)
    ensures |a + (seen + {k})| == |a + seen| + (if k in a then 0 else 1)
  {
    if k in a {
      assert a * (seen + {k}) == a * seen + {k} && a + (seen + {k}) == a + seen;
    } else {
      assert a * (seen + {k}) == a * seen && a + (seen + {k}) == (a + seen) + {k};
    }
  }

  /** The prompts after the first whose similarity to it is below the threshold. */
  method CollectDrifted(c: Config, ps: seq<PromptRecord>) returns (drifted: seq<Drift>)
    requires ps != []
    ensures drifted == Drifted(c, ps) && Ids(drifted) == FarIds(c.threshold, ps, 1)
  {
    hide Ids, FarIds, FarApart;
    drifted := [];
    for i := 1 to |ps|
      invariant drifted == Drifted(c, ps[..i])
    {
      assert ps[..i + 1][..i] == ps[..i];
      var sim := ComputeJaccard(ps[0].tokens, ps[i].tokens);
      if sim < c.threshold {
        drifted := drifted + [Drift(ps[i].id, sim)];
      }
    }
    assert ps[..|ps|] == ps;
    DriftedAreFar(c, ps);
  }

  /** The ids, the sum and the smallest of the drifted prompts' similarities, in one loop. */
  method Summarise(drifted: seq<Drift>) returns (ids: seq<string>, sum: real, least: real)
    requires drifted != [] && forall d <- drifted :: 0.0 <= d.similarity <= 1.0
    ensures ids == Ids(drifted) && sum == Sum(drifted) && least == Least(drifted)
  {
    ids, sum, least := [], 0.0, drifted[0].similarity;
    for i := 0 to |drifted|
      invariant ids == Ids(drifted[..i]) && sum == Sum(drifted[..i])
      invariant least == if i == 0 then drifted[0].similarity else Least(drifted[..i])
    {
      assert drifted[..i + 1][..i] == drifted[..i];
      ids, sum := ids + [drifted[i].id], sum + drifted[i].similarity;
      if drifted[i].similarity < least {
        least := drifted[i].similarity;
      }
    }
    assert drifted[..|drifted|] == drifted;
  }

  /** Renders the report of `drifted`. */
  method Render(c: Config, event: Event, ps: seq<PromptRecord>, drifted: seq<Drift>) returns (finding: Finding)
    requires Reports(c, ps) && drifted == Drifted(c, ps)
    ensures finding == ToFinding(c, event, ps)
  {
    hide Drifted, Round2;
    var ids, sum, least := Summarise(drifted);
    var avg := sum / |drifted| as real;
    var confidence := Min(1.0 - avg + 0.1, 1.0);
    var totalSubsequent := |ps| - 1;
    var driftFraction := |drifted| as real / totalSubsequent as real;
    var severity := if driftFraction >= 0.8 then Error else Warning;
    finding := Finding(DriftId(event.sessionId), event.sessionId, event.agentId, event.tenantId, event.timestamp,
                       severity, Round2(confidence), ids, DriftEvidence(|drifted|, totalSubsequent, avg, least));
  }

  /** The batch reference: at most one report for the prompts of a whole session. */
  method Detect(c: Config, events: seq<Event>) returns (report: Option<(seq<string>, real, bool)>)
    ensures var ps := PromptsOf(events);
      report.Some? <==> |ps| >= 3 && exists i :: 1 <= i < |ps| && FarApart(c.threshold, ps[0].tokens, ps[i].tokens)
    ensures report.Some? ==> Reports(c, PromptsOf(events))
    ensures report.Some? ==> report.value.0 == FarIds(c.threshold, PromptsOf(events), 1)
    ensures report.Some? ==> (report.value.2 <==> 5 * |report.value.0| >= 4 * (|PromptsOf(events)| - 1))
    ensures report.Some? ==> forall e :: var f := ToFinding(c, e, PromptsOf(events));
      report.value == (f.eventIds, f.confidence, f.severity == Error)
  {
    hide Drifted, Round2;
    var ps := PromptsOf(events);
    if |ps| < MIN_PROMPTS {
      return None;
    }
    DriftedAreFar(c, ps);
    var drifted := CollectDrifted(c, ps);
    if drifted == [] {
      return None;
    }
    ShareAtLeast(|drifted|, |ps| - 1);
    var ids, sum, _ := Summarise(drifted);
    var confidence := Round2(Min(1.0 - sum / |drifted| as real + 0.1, 1.0));
    report := Some((ids, confidence, |drifted| as real / (|ps| - 1) as real >= 0.8));
  }

  class DriftSession {
    var prompts: seq<set<string>>
    var promptIds: seq<string>
    var emittedFinding: bool

    ghost predicate Valid() reads this { |prompts| == |promptIds| }

    function Records(): seq<PromptRecord>
      requires Valid()
      reads this
    {
      seq(|prompts|, i requires 0 <= i < |prompts| && Valid() reads this => PromptRecord(prompts[i], promptIds[i]))
    }

    ghost function State(): State
      requires Valid()
      reads this
    {
      GoalDrift.State(Records(), emittedFinding)
    }

    constructor ()
      ensures Valid() && State() == INITIAL
    {
      prompts, promptIds, emittedFinding := [], [], false;
    }

    method Observe(c: Config, event: Event) returns (findings: seq<Finding>)
      requires Valid() && event.IsPrompt()
      modifies this
      ensures Valid() && (State(), findings) == Step(c, old(State()), event)
    {
      hide Drifted, ToFinding;
      findings := [];
      ghost var before := Records();
      prompts, promptIds := prompts + [event.prompt.value.tokens], promptIds + [event.id];
      var ps := Records();
      assert ps == before + [PromptRecord(event.prompt.value.tokens, event.id)];
      if |prompts| >= MIN_PROMPTS && !emittedFinding {
        var drifted := CollectDrifted(c, ps);
        if drifted != [] {
          emittedFinding := true;
          var finding := Render(c, event, ps, drifted);
          findings := [finding];
        }
      }
      assert Records() == ps;
    }
  }

  /** The streaming detector: one `DriftSession` per session seen. */
  class DriftDetector {
    const config: Config
    var sessions: map<string, DriftSession>

    ghost function Repr(): set<object> reads this { {this} + sessions.Values }

    /** Sessions do not share state. */
    ghost predicate Valid()
      reads this, sessions.Values
    {
      && config.Valid()
      && (forall j, k :: j in sessions && k in sessions && j != k ==> sessions[j] != sessions[k])
      && (forall k :: k in sessions ==> sessions[k].Valid())
    }

    ghost function States(): map<string, State>
      requires Valid()
      reads this, sessions.Values
    {
      map k | k in sessions :: sessions[k].State()
    }

    constructor (similarityThreshold: real)
      ensures Valid() && States() == map[] && fresh(Repr())
      ensures config.threshold == if similarityThreshold <= 0.0 then 0.3 else similarityThreshold
    {
      config := Config(if similarityThreshold <= 0.0 then 0.3 else similarityThreshold);
      sessions := map[];
    }

    method Reset()
      requires Valid()
      modifies this
      ensures Valid() && States() == map[]
    {
      sessions := map[];
    }

    /** Only the event's own session moves on, and the findings come from it alone. */
    method Analyze(event: Event) returns (findings: seq<Finding>)
      requires Valid()
      modifies Repr()
      ensures Valid() && fresh(Repr() - old(Repr()))
      ensures (States(), findings) == Feed(config, old(States()), event)
    {
      hide Step;
      findings := [];
      if event.IsPrompt() {
        if event.sessionId !in sessions {
          var created := new DriftSession();
          sessions := sessions[event.sessionId := created];
        }
        assert sessions[event.sessionId].State() == Get(old(States()), event.sessionId);
        findings := sessions[event.sessionId].Observe(config, event);
        assert States() == old(States())[event.sessionId := sessions[event.sessionId].State()];
      }
    }
  }
}
