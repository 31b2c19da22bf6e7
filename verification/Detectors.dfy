/** The detectors as the analyzer sees them: a list, fed one event at a time
    (internal/analyzer/detector.go, internal/analyzer/analyzer.go). */
module Detectors {
  import opened Events
  import Loop = LoopStreaming
  import Misuse = ToolMisuse
  import Drift = GoalDrift

  datatype Config =
    | LoopConfig(loop: Loop.Config)
    | MisuseConfig(misuse: Misuse.Config)
    | DriftConfig(drift: Drift.Config)
  {
    ghost predicate Valid() {
      match this
      case LoopConfig(c) => c.Valid()
      case MisuseConfig(c) => c.Valid()
      case DriftConfig(c) => c.Valid()
    }
  }

  /** A detector's state: what it keeps for each session. */
  datatype States =
    | LoopStates(loop: map<string, Loop.State>)
    | MisuseStates(misuse: map<string, Misuse.State>)
    | DriftStates(drift: map<string, Drift.State>)

  ghost predicate Matches(c: Config, s: States) {
    c.Valid() &&
    match c
    case LoopConfig(_) => s.LoopStates?
    case MisuseConfig(_) => s.MisuseStates?
    case DriftConfig(_) => s.DriftStates?
  }

  ghost function Init(c: Config): States {
    match c
    case LoopConfig(_) => LoopStates(map[])
    case MisuseConfig(_) => MisuseStates(map[])
    case DriftConfig(_) => DriftStates(map[])
  }

  /** One detector analyzes one event. */
  ghost function Feed(c: Config, s: States, e: Event): (r: (States, seq<Finding>))
    requires Matches(c, s)
    ensures Matches(c, r.0)
  {
    match c
    case LoopConfig(c) => var (m, fs) := Loop.Feed(c, s.loop, e); (LoopStates(m), fs)
    case MisuseConfig(c) => var (m, fs) := Misuse.Feed(c, s.misuse, e); (MisuseStates(m), fs)
    case DriftConfig(c) => var (m, fs) := Drift.Feed(c, s.drift, e); (DriftStates(m), fs)
  }

  /** All detectors analyze one event, in list order. */
  ghost function FeedAll(cs: seq<Config>, ss: seq<States>, e: Event): (r: (seq<States>, seq<Finding>))
    requires AllMatch(cs, ss)
    ensures AllMatch(cs, r.0)
  {
    if cs == [] then ([], [])
    else
      var n := |cs| - 1;
      var (before, fs) := FeedAll(cs[..n], ss[..n], e);
      var (s, gs) := Feed(cs[n], ss[n], e);
      (before + [s], fs + gs)
  }

  lemma FeedAllNone(e: Event)
    ensures FeedAll([], [], e) == ([], [])
  {
  }

  /** One more detector has analyzed the event. */
  lemma FeedAllStep(cs: seq<Config>, ss: seq<States>, k: nat, e: Event)
    requires AllMatch(cs, ss) && k < |cs|
    ensures var (before, fs) := FeedAll(cs[..k], ss[..k], e);
      FeedAll(cs[..k + 1], ss[..k + 1], e) == (before + [Feed(cs[k], ss[k], e).0], fs + Feed(cs[k], ss[k], e).1)
  {
    hide Feed;
    assert cs[..k + 1][..k] == cs[..k] && ss[..k + 1][..k] == ss[..k];
  }

  ghost predicate AllMatch(cs: seq<Config>, ss: seq<States>) {
    |cs| == |ss| && forall i :: 0 <= i < |cs| ==> Matches(cs[i], ss[i])
  }

  ghost predicate AllValid(cs: seq<Config>) {
    forall c <- cs :: c.Valid()
  }

  ghost function InitAll(cs: seq<Config>): (r: seq<States>)
    requires AllValid(cs)
    ensures AllMatch(cs, r)
  {
    seq(|cs|, i requires 0 <= i < |cs| => Init(cs[i]))
  }

  /** An uninterrupted run of the detectors over a sequence of events. */
  ghost function Run(cs: seq<Config>, es: seq<Event>): (r: (seq<States>, seq<Finding>))
    requires AllValid(cs)
    ensures AllMatch(cs, r.0)
  {
    if es == [] then (InitAll(cs), [])
    else
      var (ss, fs) := Run(cs, es[..|es| - 1]);
      var (ss', gs) := FeedAll(cs, ss, es[|es| - 1]);
      (ss', fs + gs)
  }

  // ---------------------------------------------------------------- sessions do not interfere

  /** What a detector keeps for one session. */
  datatype AtSession = AtLoop(loop: Loop.State) | AtMisuse(misuse: Misuse.State) | AtDrift(drift: Drift.State)

  ghost function At(s: States, session: string): AtSession {
    match s
    case LoopStates(m) => AtLoop(Loop.Get(m, session))
    case MisuseStates(m) => AtMisuse(Misuse.Get(m, session))
    case DriftStates(m) => AtDrift(Drift.Get(m, session))
  }

  /** What an event reports depends only on its own session's state, and so does the new state. */
  lemma FeedIsLocal(c: Config, s: States, s': States, e: Event)
    requires Matches(c, s) && Matches(c, s') && At(s, e.sessionId) == At(s', e.sessionId)
    ensures Feed(c, s, e).1 == Feed(c, s', e).1
    ensures At(Feed(c, s, e).0, e.sessionId) == At(Feed(c, s', e).0, e.sessionId)
  {
    hide Loop.Step, Misuse.Step, Drift.Step;
  }

  lemma FeedLeavesOthers(c: Config, s: States, e: Event, session: string)
    requires Matches(c, s) && session != e.sessionId
    ensures At(Feed(c, s, e).0, session) == At(s, session)
  {
    hide Loop.Step, Misuse.Step, Drift.Step;
  }

  lemma FindingsCarrySession(c: Config, s: States, e: Event)
    requires Matches(c, s)
    ensures forall f <- Feed(c, s, e).1 :: f.sessionId == e.sessionId
  {
    hide Loop.Feed, Misuse.Feed, Drift.Feed;
    match c
    case LoopConfig(c) => LoopFindingsCarrySession(c, s.loop, e);
    case MisuseConfig(c) => MisuseFindingsCarrySession(c, s.misuse, e);
    case DriftConfig(c) => DriftFindingsCarrySession(c, s.drift, e);
  }

  lemma LoopFindingsCarrySession(c: Loop.Config, m: map<string, Loop.State>, e: Event)
    requires c.Valid()
    ensures forall f <- Loop.Feed(c, m, e).1 :: f.sessionId == e.sessionId
  {
    hide Loop.Spans, Loop.Emit, Loop.Append;
    if e.IsToolCall() {
      var s0 := Loop.Get(m, e.sessionId);
      var s1 := Loop.State(Loop.Append(c, s0.calls, Loop.ToCall(e)), s0.emitted);
      forall f | f in Loop.Emit(c, e, s1, Loop.Spans(c, s1.calls)).0 ensures f.sessionId == e.sessionId {
        var _, _ := Loop.FindingSource(c, e, s1, Loop.Spans(c, s1.calls), f);
      }
    }
  }

  lemma MisuseFindingsCarrySession(c: Misuse.Config, m: map<string, Misuse.State>, e: Event)
    ensures forall f <- Misuse.Feed(c, m, e).1 :: f.sessionId == e.sessionId
  {
    hide Misuse.Failures, Misuse.Rate, Misuse.MaxRetry, Round2;
  }

  lemma DriftFindingsCarrySession(c: Drift.Config, m: map<string, Drift.State>, e: Event)
    ensures forall f <- Drift.Feed(c, m, e).1 :: f.sessionId == e.sessionId
  {
    hide Drift.Drifted, Drift.Average, Drift.Least, Round2;
  }

  ghost predicate SameAt(ss: seq<States>, ss': seq<States>, session: string) {
    |ss| == |ss'| && forall i :: 0 <= i < |ss| ==> At(ss[i], session) == At(ss'[i], session)
  }

  lemma {:induction false} FeedAllIsLocal(cs: seq<Config>, ss: seq<States>, ss': seq<States>, e: Event)
    requires AllMatch(cs, ss) && AllMatch(cs, ss') && SameAt(ss, ss', e.sessionId)
    ensures FeedAll(cs, ss, e).1 == FeedAll(cs, ss', e).1
    ensures SameAt(FeedAll(cs, ss, e).0, FeedAll(cs, ss', e).0, e.sessionId)
  {
    hide Feed, At;
    if cs != [] {
      var n := |cs| - 1;
      FeedAllIsLocal(cs[..n], ss[..n], ss'[..n], e);
      FeedIsLocal(cs[n], ss[n], ss'[n], e);
    }
  }

  lemma {:induction false} FeedAllLeavesOthers(cs: seq<Config>, ss: seq<States>, e: Event, session: string)
    requires AllMatch(cs, ss) && session != e.sessionId
    ensures SameAt(FeedAll(cs, ss, e).0, ss, session)
  {
    hide Feed, At;
    if cs != [] {
      var n := |cs| - 1;
      FeedAllLeavesOthers(cs[..n], ss[..n], e, session);
      FeedLeavesOthers(cs[n], ss[n], e, session);
    }
  }

  lemma {:induction false} AllFindingsCarrySession(cs: seq<Config>, ss: seq<States>, e: Event)
    requires AllMatch(cs, ss)
    ensures forall f <- FeedAll(cs, ss, e).1 :: f.sessionId == e.sessionId
  {
    hide Feed;
    if cs != [] {
      var n := |cs| - 1;
      AllFindingsCarrySession(cs[..n], ss[..n], e);
      FindingsCarrySession(cs[n], ss[n], e);
    }
  }

  lemma RunSnoc(cs: seq<Config>, es: seq<Event>, e: Event)
    requires AllValid(cs)
    ensures var (ss, fs) := Run(cs, es);
      Run(cs, es + [e]) == (FeedAll(cs, ss, e).0, fs + FeedAll(cs, ss, e).1)
  {
    assert (es + [e])[..|es + [e]| - 1] == es;
  }

  /** For every interleaving of sessions, what the detectors report for a session is what they
      report when run over that session's events alone. */
  lemma {:induction false} SessionsDoNotInterfere(cs: seq<Config>, es: seq<Event>, session: string)
    requires AllValid(cs)
    ensures SameAt(Run(cs, es).0, Run(cs, OfSession(es, session)).0, session)
    ensures FindingsOf(Run(cs, es).1, session) == Run(cs, OfSession(es, session)).1
  {
    if es != [] {
      var init, e := es[..|es| - 1], es[|es| - 1];
      SessionsDoNotInterfere(cs, init, session);
      var (ss, fs) := Run(cs, init);
      var (ss', fs') := Run(cs, OfSession(init, session));
      var gs := FeedAll(cs, ss, e).1;
      FindingsOfConcat(fs, gs, session);
      AllFindingsCarrySession(cs, ss, e);
      FindingsOfOne(gs, e.sessionId, session);
      if e.sessionId == session {
        FeedAllIsLocal(cs, ss, ss', e);
        RunSnoc(cs, OfSession(init, session), e);
      } else {
        FeedAllLeavesOthers(cs, ss, e, session);
        assert OfSession(es, session) == OfSession(init, session);
        assert FindingsOf(fs, session) + [] == FindingsOf(fs, session);
      }
      hide FeedAll, At;
    }
  }

  // ------------------------------------------------ the per-session theorems apply to what is reported

  lemma FeedOne(c: Config, s: States, e: Event)
    requires Matches(c, s)
    ensures FeedAll([c], [s], e) == ([Feed(c, s, e).0], Feed(c, s, e).1)
  {
    hide Feed;
    assert [c][..0] == [] && [s][..0] == [];
    assert FeedAll([], [], e) == ([], []);
    var (s', fs) := Feed(c, s, e);
    assert [] + [s'] == [s'] && [] + fs == fs;
  }

  /** Over one session's events a detector does what its own module's `Run` says. */
  lemma {:induction false} RunOne(c: Config, es: seq<Event>, session: string)
    requires c.Valid() && forall e <- es :: e.sessionId == session
    ensures var (ss, fs) := Run([c], es);
      match c
      case LoopConfig(c) => AtLoop(Loop.Run(c, es).0) == At(ss[0], session) && fs == Loop.Run(c, es).1
      case MisuseConfig(c) => AtMisuse(Misuse.Run(c, es).0) == At(ss[0], session) && fs == Misuse.Run(c, es).1
      case DriftConfig(c) => AtDrift(Drift.Run(c, es).0) == At(ss[0], session) && fs == Drift.Run(c, es).1
  {
    hide Loop.Step, Misuse.Step, Drift.Step;
    if es != [] {
      var init, e := es[..|es| - 1], es[|es| - 1];
      RunOne(c, init, session);
      FeedOne(c, Run([c], init).0[0], e);
      StepIgnores(c, Run([c], init).0[0], e);
    }
  }

  lemma StepIgnores(c: Config, s: States, e: Event)
    requires Matches(c, s)
    ensures match c
      case LoopConfig(c) =>
        !e.IsToolCall() ==> Loop.Step(c, Loop.Get(s.loop, e.sessionId), e) == (Loop.Get(s.loop, e.sessionId), [])
      case MisuseConfig(c) =>
        var t := Misuse.Get(s.misuse, e.sessionId);
        !e.IsToolCall() ==> Misuse.Step(c, t, e) == (t, [])
      case DriftConfig(c) =>
        !e.IsPrompt() ==> Drift.Step(c, Drift.Get(s.drift, e.sessionId), e) == (Drift.Get(s.drift, e.sessionId), [])
  {
  }

  /** A lone detector fed any interleaving reports for each session what its own module's `Run`
      over that session's events says. */
  lemma DetectorReportsPerSession(c: Config, es: seq<Event>, session: string)
    requires c.Valid()
    ensures FindingsOf(Run([c], es).1, session) ==
      match c
      case LoopConfig(c) => Loop.Run(c, OfSession(es, session)).1
      case MisuseConfig(c) => Misuse.Run(c, OfSession(es, session)).1
      case DriftConfig(c) => Drift.Run(c, OfSession(es, session)).1
  {
    SessionsDoNotInterfere([c], es, session);
    RunOne(c, OfSession(es, session), session);
  }
}
