/** What the goal-drift detector does to one session, and how its single report compares with
    the batch reference (internal/analyzer/detectors/drift.go, archive/.../drift_detector.py). */
module GoalDrift {
  import opened Events

  const MIN_PROMPTS: nat := 3

  /** Prompts whose similarity to the first one is below `threshold` have drifted. */
  datatype Config = Config(threshold: real) {
    predicate Valid() { 0.0 < threshold }
  }

  datatype PromptRecord = PromptRecord(tokens: set<string>, id: string)

  datatype State = State(prompts: seq<PromptRecord>, emitted: bool)

  const INITIAL := State([], false)

  /** The share of common tokens; two empty sets count as identical. */
  function Jaccard(a: set<string>, b: set<string>): (r: real)
    ensures 0.0 <= r <= 1.0
    ensures r == 1.0 <==> a == b
    ensures r == 0.0 <==> a * b == {} && a + b != {}
  {
    if a + b == {} then 1.0
    else
      JaccardBounds(a, b);
      |a * b| as real / |a + b| as real
  }

  lemma JaccardBounds(a: set<string>, b: set<string>)
    requires a + b != {}
    ensures 0 <= |a * b| <= |a + b| && |a + b| > 0 && a * b == b * a && a + b == b + a
    ensures |a * b| == |a + b| <==> a == b
    ensures |a * b| == 0 <==> a * b == {}
  {
    assert a + b == (a * b) + ((a + b) - (a * b));
    if |a * b| == |a + b| {
      assert (a + b) - (a * b) == {};
      assert a == b;
    }
  }

  lemma JaccardSymmetric(a: set<string>, b: set<string>)
    ensures Jaccard(a, b) == Jaccard(b, a)
  {
    assert a + b == b + a && a * b == b * a;
  }

  // ---------------------------------------------------------------- the report

  datatype Drift = Drift(id: string, similarity: real)

  /** The prompts after the first that have drifted from it, in order. */
  function Drifted(c: Config, ps: seq<PromptRecord>): (r: seq<Drift>)
    ensures |ps| >= 1 ==> |r| <= |ps| - 1
    ensures |ps| <= 1 ==> r == []
    ensures forall d <- r :: 0.0 <= d.similarity <= 1.0
  {
    if |ps| <= 1 then []
    else
      var last := ps[|ps| - 1];
      var similarity := Jaccard(ps[0].tokens, last.tokens);
      Drifted(c, ps[..|ps| - 1]) + if similarity < c.threshold then [Drift(last.id, similarity)] else []
  }

  function Sum(ds: seq<Drift>): (r: real)
    requires forall d <- ds :: 0.0 <= d.similarity <= 1.0
    ensures 0.0 <= r <= |ds| as real
  {
    if ds == [] then 0.0 else Sum(ds[..|ds| - 1]) + ds[|ds| - 1].similarity
  }

  function Least(ds: seq<Drift>): real
    requires ds != []
  {
    if |ds| == 1 then ds[0].similarity
    else
      var m := Least(ds[..|ds| - 1]);
      if ds[|ds| - 1].similarity < m then ds[|ds| - 1].similarity else m
  }

  function Ids(ds: seq<Drift>): seq<string> {
    seq(|ds|, i requires 0 <= i < |ds| => ds[i].id)
  }

  /** Whether a batch of prompts is reported at all. */
  predicate Reports(c: Config, ps: seq<PromptRecord>) {
    |ps| >= MIN_PROMPTS && Drifted(c, ps) != []
  }

  /** The average similarity of the drifted prompts lies between 0 and 1. */
  function Average(ds: seq<Drift>): (r: real)
    requires ds != [] && forall d <- ds :: 0.0 <= d.similarity <= 1.0
    ensures 0.0 <= r <= 1.0
  {
    QuotientInUnit(Sum(ds), |ds| as real);
    Sum(ds) / |ds| as real
  }

  lemma QuotientInUnit(x: real, n: real)
    requires 0.0 <= x <= n && 0.0 < n
    ensures 0.0 <= x / n <= 1.0
  {
  }

  function ToFinding(c: Config, e: Event, ps: seq<PromptRecord>): Finding
    requires Reports(c, ps)
  {
    var ds := Drifted(c, ps);
    var total := |ps| - 1;
    Finding(DriftId(e.sessionId), e.sessionId, e.agentId, e.tenantId, e.timestamp,
            if |ds| as real / total as real >= 0.8 then Error else Warning,
            Round2(Min(1.0 - Average(ds) + 0.1, 1.0)), Ids(ds),
            DriftEvidence(|ds|, total, Average(ds), Least(ds)))
  }

  // ---------------------------------------------------------------- event by event

  function Step(c: Config, s: State, e: Event): (State, seq<Finding>) {
    if !e.IsPrompt() then (s, [])
    else
      var ps := s.prompts + [PromptRecord(e.prompt.value.tokens, e.id)];
      if s.emitted || !Reports(c, ps) then (State(ps, s.emitted), [])
      else (State(ps, true), [ToFinding(c, e, ps)])
  }

  function Run(c: Config, es: seq<Event>): (State, seq<Finding>) {
    if es == [] then (INITIAL, [])
    else
      var (s, fs) := Run(c, es[..|es| - 1]);
      var (s', gs) := Step(c, s, es[|es| - 1]);
      (s', fs + gs)
  }

  function Get(m: map<string, State>, session: string): State {
    if session in m then m[session] else INITIAL
  }

  /** The detector over all sessions: a prompt goes to its own session's state. */
  function Feed(c: Config, m: map<string, State>, e: Event): (map<string, State>, seq<Finding>) {
    if !e.IsPrompt() then (m, [])
    else
      var (s, fs) := Step(c, Get(m, e.sessionId), e);
      (m[e.sessionId := s], fs)
  }

  /** The prompts among a session's events. */
  function PromptsOf(es: seq<Event>): seq<PromptRecord> {
    if es == [] then []
    else
      var e := es[|es| - 1];
      if e.IsPrompt() then PromptsOf(es[..|es| - 1]) + [PromptRecord(e.prompt.value.tokens, e.id)]
      else PromptsOf(es[..|es| - 1])
  }

  /** A session has been reported exactly when the batch reference would report its prompts so far,
      and it is reported once. */
  lemma {:induction false} EmittedIffBatchReports(c: Config, es: seq<Event>)
    ensures var (s, fs) := Run(c, es);
      && s.prompts == PromptsOf(es)
      && (s.emitted <==> Reports(c, PromptsOf(es)))
      && |fs| == (if Reports(c, PromptsOf(es)) then 1 else 0)
  {
    if es != [] {
      EmittedIffBatchReports(c, es[..|es| - 1]);
      hide ToFinding;
      var ps := PromptsOf(es);
      if es[|es| - 1].IsPrompt() {
        assert ps[..|ps| - 1] == PromptsOf(es[..|es| - 1]);
      }
    }
  }

  /** What the one report says: made at the third prompt it names the drifted ones of the two
      prompts after the first, and is an error when both drifted; made later it names exactly
      the newest prompt and is a warning. */
  lemma ReportContents(c: Config, es: seq<Event>, e: Event, f: Finding)
    requires f in Step(c, Run(c, es).0, e).1
    ensures var ps := PromptsOf(es + [e]);
      && |ps| >= MIN_PROMPTS && f.eventIds == Ids(Drifted(c, ps))
      && (|ps| > MIN_PROMPTS ==> f.eventIds == [e.id])
      && (f.severity == Error <==> |ps| == MIN_PROMPTS && |f.eventIds| == 2)
      && 0.0 <= f.confidence <= 1.0
  {
    hide ToFinding, Jaccard;
    EmittedIffBatchReports(c, es);
    assert (es + [e])[..|es + [e]| - 1] == es;
    var ps := PromptsOf(es + [e]);
    assert ps == PromptsOf(es) + [PromptRecord(e.prompt.value.tokens, e.id)];
    assert ps[..|ps| - 1] == PromptsOf(es);
    FindingContents(c, e, ps);
  }

  lemma FindingContents(c: Config, e: Event, ps: seq<PromptRecord>)
    requires Reports(c, ps)
    ensures var f, ds := ToFinding(c, e, ps), Drifted(c, ps);
      && f.eventIds == Ids(ds) && 0.0 <= f.confidence <= 1.0
      && (f.severity == Error <==> 5 * |ds| >= 4 * (|ps| - 1))
  {
    hide Drifted, Round2, Least;
    ShareAtLeast(|Drifted(c, ps)|, |ps| - 1);
  }

  /** The share 0.8 as a comparison of whole numbers. */
  lemma ShareAtLeast(part: nat, total: nat)
    requires 0 < total
    ensures part as real / total as real >= 0.8 <==> 5 * part >= 4 * total
  {
    QuotientAtLeast(part as real, total as real, 0.8);
  }

  lemma QuotientAtLeast(p: real, n: real, k: real)
    requires 0.0 < n
    ensures p / n >= k <==> p >= k * n
  {
    var q := p / n;
    if q >= k {
      assert (q - k) * n >= 0.0;
    } else {
      assert (k - q) * n > 0.0;
    }
  }

  // ---------------------------------------------------------------- what is reported, from the tokens

  /** The prompts are the prompt events, in order. */
  lemma {:induction false} PromptsConcat(a: seq<Event>, b: seq<Event>)
    ensures PromptsOf(a + b) == PromptsOf(a) + PromptsOf(b)
  {
    if b == [] {
      assert a + b == a;
    } else {
      assert (a + b)[..|a + b| - 1] == a + b[..|b| - 1];
      PromptsConcat(a, b[..|b| - 1]);
    }
  }

  lemma PromptsOfOne(e: Event)
    ensures PromptsOf([e]) == if e.kind == PromptEvent && e.prompt.Some? then
                                [PromptRecord(e.prompt.value.tokens, e.id)] else []
  {
    assert [e][..0] == [];
  }

  /** The sets share less than a share `threshold` of their tokens; two empty sets share all. */
  predicate FarApart(threshold: real, a: set<string>, b: set<string>) {
    if a + b == {} then 1.0 < threshold else |a * b| as real < threshold * |a + b| as real
  }

  /** The ids of the prompts from the `i`-th on that are far from the first one, in order. */
  function FarIds(threshold: real, ps: seq<PromptRecord>, i: nat): seq<string>
    requires i <= |ps|
    decreases |ps| - i
  {
    if i == |ps| then []
    else if FarApart(threshold, ps[0].tokens, ps[i].tokens) then [ps[i].id] + FarIds(threshold, ps, i + 1)
    else FarIds(threshold, ps, i + 1)
  }

  lemma BelowIffFar(threshold: real, a: set<string>, b: set<string>)
    ensures Jaccard(a, b) < threshold <==> FarApart(threshold, a, b)
  {
    if a + b != {} {
      JaccardBounds(a, b);
      QuotientAtLeast(|a * b| as real, |a + b| as real, threshold);
    }
  }

  lemma {:induction false} FarIdsSnoc(threshold: real, ps: seq<PromptRecord>, i: nat)
    requires 1 <= i < |ps|
    ensures var n := |ps| - 1;
      FarIds(threshold, ps, i) == FarIds(threshold, ps[..n], i)
                                  + if FarApart(threshold, ps[0].tokens, ps[n].tokens) then [ps[n].id] else []
    decreases |ps| - i
  {
    hide FarApart;
    if i < |ps| - 1 {
      FarIdsSnoc(threshold, ps, i + 1);
    } else {
      assert FarIds(threshold, ps, |ps|) == [] && FarIds(threshold, ps[..i], i) == [];
    }
  }

  lemma {:induction false} DriftedAreFar(c: Config, ps: seq<PromptRecord>)
    requires ps != []
    ensures Ids(Drifted(c, ps)) == FarIds(c.threshold, ps, 1)
    ensures Drifted(c, ps) != [] <==> exists i :: 1 <= i < |ps| && FarApart(c.threshold, ps[0].tokens, ps[i].tokens)
  {
    var n := |ps| - 1;
    if n > 0 {
      DriftedAreFar(c, ps[..n]);
      BelowIffFar(c.threshold, ps[0].tokens, ps[n].tokens);
      hide FarApart, Jaccard;
      FarIdsSnoc(c.threshold, ps, 1);
      assert Drifted(c, ps[..n]) != [] ==>
        exists i :: 1 <= i < n && FarApart(c.threshold, ps[..n][0].tokens, ps[..n][i].tokens);
    }
  }

  /** A session has been reported, once, exactly when it has three prompts or more and some later one
      shares less than the threshold's share of its tokens with the first. */
  lemma ReportedIffFar(c: Config, es: seq<Event>)
    ensures var ps := PromptsOf(es);
      |Run(c, es).1| == if |ps| >= 3 && exists i :: 1 <= i < |ps| && FarApart(c.threshold, ps[0].tokens, ps[i].tokens)
                        then 1 else 0
  {
    EmittedIffBatchReports(c, es);
    if PromptsOf(es) != [] {
      DriftedAreFar(c, PromptsOf(es));
    }
  }

  lemma ReportIsOf(c: Config, es: seq<Event>, e: Event, f: Finding)
    requires f in Step(c, Run(c, es).0, e).1
    ensures Reports(c, PromptsOf(es + [e])) && f == ToFinding(c, e, PromptsOf(es + [e]))
  {
    hide Drifted, ToFinding, Run, Reports;
    EmittedIffBatchReports(c, es);
    assert (es + [e])[..|es|] == es;
    assert PromptsOf(es + [e]) == PromptsOf(es) + [PromptRecord(e.prompt.value.tokens, e.id)];
  }

  /** The report is stamped by the prompt that leads to it and names exactly the prompts far from the
      first, one or two of them. */
  lemma ReportSays(c: Config, es: seq<Event>, e: Event, f: Finding)
    requires f in Step(c, Run(c, es).0, e).1
    ensures var ps := PromptsOf(es + [e]);
      && ps != [] && f.eventIds == FarIds(c.threshold, ps, 1)
      && (|f.eventIds| == 1 || (|f.eventIds| == 2 && |ps| == 3))
      && f.id == DriftId(e.sessionId) && f.sessionId == e.sessionId && f.agentId == e.agentId
      && f.tenantId == e.tenantId && f.timestamp == e.timestamp
  {
    ReportIsOf(c, es, e, f);
    ReportContents(c, es, e, f);
    hide Drifted, Round2, Run, Step, FarIds, PromptsOf;
    DriftedAreFar(c, PromptsOf(es + [e]));
  }

  /** How similar two prompts are: the share of common tokens. */
  ghost predicate IsShare(r: real, a: set<string>, b: set<string>) {
    if a + b == {} then r == 1.0 else r * |a + b| as real == |a * b| as real
  }

  lemma JaccardIsShare(a: set<string>, b: set<string>)
    ensures IsShare(Jaccard(a, b), a, b)
  {
  }

  /** The numbers of a report at the prompts `ps` from the similarities of the one or two prompts named. */
  ghost predicate NumbersOf(f: Finding, n: nat, least: real, most: real) {
    var average := (least + most) / 2.0;
    && f.evidence == DriftEvidence(|f.eventIds|, n, average, least)
    && IsRounded(f.confidence, if average <= 0.1 then 1.0 else 1.1 - average)
  }

  lemma NumbersOfReport(c: Config, e: Event, ps: seq<PromptRecord>)
    requires Reports(c, ps)
    ensures var f, ds := ToFinding(c, e, ps), Drifted(c, ps);
      && (|ds| == 1 ==> NumbersOf(f, |ps| - 1, ds[0].similarity, ds[0].similarity))
      && (|ds| == 2 ==> var u, v := ds[0].similarity, ds[1].similarity;
           NumbersOf(f, |ps| - 1, if u <= v then u else v, if u <= v then v else u))
  {
    hide Drifted, Round2, IsRounded;
    var ds := Drifted(c, ps);
    Round2IsRounded(Min(1.0 - Average(ds) + 0.1, 1.0));
    if |ds| == 1 {
      assert ds[..0] == [] && Sum(ds) == ds[0].similarity == Least(ds);
    } else if |ds| == 2 {
      assert ds[..1] == [ds[0]] && Sum(ds[..1]) == ds[0].similarity && Sum(ds) == ds[0].similarity + ds[1].similarity;
      assert Least(ds[..1]) == ds[0].similarity;
    }
  }

  lemma {:induction false} DriftedFrom(c: Config, ps: seq<PromptRecord>, d: Drift) returns (i: nat)
    requires d in Drifted(c, ps)
    ensures 1 <= i < |ps| && d.id == ps[i].id && IsShare(d.similarity, ps[0].tokens, ps[i].tokens)
  {
    var n := |ps| - 1;
    if d in Drifted(c, ps[..n]) {
      i := DriftedFrom(c, ps[..n], d);
    } else {
      JaccardIsShare(ps[0].tokens, ps[n].tokens);
      i := n;
    }
  }

  lemma BothDrifted(c: Config, ps: seq<PromptRecord>)
    requires |ps| == 3 && |Drifted(c, ps)| == 2
    ensures forall k | 1 <= k <= 2 ::
      Drifted(c, ps)[k - 1].id == ps[k].id && IsShare(Drifted(c, ps)[k - 1].similarity, ps[0].tokens, ps[k].tokens)
  {
    hide Jaccard, IsShare;
    JaccardIsShare(ps[0].tokens, ps[1].tokens);
    JaccardIsShare(ps[0].tokens, ps[2].tokens);
    assert Drifted(c, ps[..2][..1]) == [];
    assert |Drifted(c, ps[..2])| == 1 && ps[..2][0] == ps[0] && ps[..2][1] == ps[1];
  }

  /** The numbers of the report come from the similarities of the prompts it names: `i` is the less
      similar one, and `j` the other if there are two. */
  lemma ReportNumbers(c: Config, es: seq<Event>, e: Event, f: Finding) returns (i: nat, j: nat, least: real, most: real)
    requires f in Step(c, Run(c, es).0, e).1
    ensures var ps := PromptsOf(es + [e]);
      && 1 <= i < |ps| && 1 <= j < |ps| && ps[i].id in f.eventIds && ps[j].id in f.eventIds
      && (|f.eventIds| == 1 <==> i == j) && least <= most && (i == j ==> least == most)
      && IsShare(least, ps[0].tokens, ps[i].tokens) && IsShare(most, ps[0].tokens, ps[j].tokens)
      && NumbersOf(f, |ps| - 1, least, most)
  {
    var ps := PromptsOf(es + [e]);
    hide Run, Step, Drifted, FarIds, FarApart, IsShare, NumbersOf, PromptsOf, ToFinding, Reports;
    ReportIsOf(c, es, e, f);
    ReportSays(c, es, e, f);
    NumbersOfReport(c, e, ps);
    FindingContents(c, e, ps);
    hide Ids;
    var ds := Drifted(c, ps);
    SameIds(ds, f.eventIds);
    if |ds| == 1 {
      i := DriftedFrom(c, ps, ds[0]);
      j, least, most := i, ds[0].similarity, ds[0].similarity;
    } else {
      BothDrifted(c, ps);
      i, j, least, most := 1, 2, ds[0].similarity, ds[1].similarity;
      if least > most {
        i, j, least, most := 2, 1, most, least;
      }
    }
  }

  lemma SameIds(ds: seq<Drift>, ids: seq<string>)
    requires ids == Ids(ds)
    ensures |ids| == |ds| && forall k :: 0 <= k < |ds| ==> ids[k] == ds[k].id && ds[k].id in ids
  {
    forall k | 0 <= k < |ds| ensures ids[k] == ds[k].id && ds[k].id in ids {
      assert ids[k] in ids;
    }
  }
}
