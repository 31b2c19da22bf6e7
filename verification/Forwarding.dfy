/** The analysis forwarder as a step machine (cmd/ingestion/analysis.go): a bounded channel, a
    batcher, per-session grouping and the circuit breaker. Each step is atomic, and submissions may
    fall between any two steps of the batcher. */
module Forwarding {
  import opened Events
  import CircuitBreaker

  datatype Config = Config(batchSize: nat, breaker: CircuitBreaker.Config)

  /** The capacity of the event channel. */
  const CAPACITY: nat := 1000

  /** What one flush meets: when it starts and ends, whether dialling would succeed, and the
      sessions whose request fails. */
  datatype Network = Network(start: int, end: int, dials: bool, rejects: set<string>)

  datatype Outcome = Skipped | Undialled | Sent(requests: map<string, seq<Event>>)

  datatype Record = Record(batch: seq<Event>, net: Network, outcome: Outcome) {
    /** Every request was made and none failed. */
    predicate Succeeded() { outcome.Sent? && outcome.requests.Keys !! net.rejects }

    /** The session's events in this batch, if it has any, reached the engine. */
    predicate Reached(session: string) { outcome.Sent? && session !in net.rejects }
  }

  datatype Phase = Running | Draining | Stopped

  datatype State = State(
    queue: seq<Event>, batch: seq<Event>, connected: bool, breaker: CircuitBreaker.Breaker,
    phase: Phase, log: seq<Record>)

  function SessionsOf(es: seq<Event>): set<string> { set e | e in es :: e.sessionId }

  /** The batch split by session. */
  function Groups(es: seq<Event>): map<string, seq<Event>> {
    map s | s in SessionsOf(es) :: OfSession(es, s)
  }

  function Flush(c: Config, st: State, es: seq<Event>, net: Network): State {
    var (b, allowed) := CircuitBreaker.Admit(st.breaker, net.start);
    if !allowed then st.(breaker := b, log := st.log + [Record(es, net, Skipped)])
    else if !st.connected && !net.dials then
      st.(breaker := CircuitBreaker.RecordFailure(c.breaker, b, net.end),
          log := st.log + [Record(es, net, Undialled)])
    else
      var sent := Record(es, net, Sent(Groups(es)));
      st.(connected := true,
          breaker := if sent.Succeeded() then CircuitBreaker.RecordSuccess(b)
                     else CircuitBreaker.RecordFailure(c.breaker, b, net.end),
          log := st.log + [sent])
  }

  datatype Action = Submit(event: Event) | Receive(net: Network) | Tick(net: Network) | Cancel | Drain(net: Network)

  /** One step; a step that is not enabled changes nothing. */
  function Step(c: Config, st: State, a: Action): State {
    match a
    case Submit(e) => if |st.queue| < CAPACITY then st.(queue := st.queue + [e]) else st
    case Receive(net) =>
      if st.phase != Running || st.queue == [] then st
      else
        var batch, rest := st.batch + [st.queue[0]], st.queue[1..];
        if |batch| >= c.batchSize then Flush(c, st.(queue := rest, batch := []), batch, net)
        else st.(queue := rest, batch := batch)
    case Tick(net) =>
      if st.phase != Running || st.batch == [] then st
      else Flush(c, st.(batch := []), st.batch, net)
    case Cancel => if st.phase == Running then st.(phase := Draining) else st
    case Drain(net) =>
      if st.phase != Draining then st
      else if st.queue != [] then st.(queue := st.queue[1..], batch := st.batch + [st.queue[0]])
      else if st.batch != [] then Flush(c, st.(batch := [], phase := Stopped), st.batch, net)
      else st.(phase := Stopped)
  }

  function Start(connected: bool): State { State([], [], connected, CircuitBreaker.CLOSED, Running, []) }

  function Run(c: Config, connected: bool, actions: seq<Action>): State {
    if actions == [] then Start(connected)
    else Step(c, Run(c, connected, actions[..|actions| - 1]), actions[|actions| - 1])
  }

  /** The submissions the channel had room for, in order. */
  function Accepted(c: Config, connected: bool, actions: seq<Action>): seq<Event> {
    if actions == [] then []
    else
      var init, last := actions[..|actions| - 1], actions[|actions| - 1];
      Accepted(c, connected, init)
      + if last.Submit? && |Run(c, connected, init).queue| < CAPACITY then [last.event] else []
  }

  /** The flushed batches, concatenated. */
  function Flushed(log: seq<Record>): seq<Event> {
    if log == [] then [] else Flushed(log[..|log| - 1]) + log[|log| - 1].batch
  }

  // ---------------------------------------------------------------- conservation

  /** The largest batch the running batcher flushes. */
  function Full(c: Config): nat { if c.batchSize < 1 then 1 else c.batchSize }

  predicate Bounded(c: Config, st: State) {
    && |st.queue| <= CAPACITY
    && (st.phase == Running ==> |st.batch| < Full(c))
    && (st.phase == Stopped ==> st.batch == [])
    && (forall i :: 0 <= i < |st.log| ==>
          st.log[i].batch != [] && (st.phase != Stopped || i < |st.log| - 1 ==> |st.log[i].batch| <= Full(c)))
  }

  /** Everything the forwarder has flushed or still holds, oldest first. */
  function Carried(st: State): seq<Event> { Flushed(st.log) + st.batch + st.queue }

  lemma FlushKeeps(c: Config, st: State, es: seq<Event>, net: Network)
    ensures var st' := Flush(c, st, es, net);
      && st'.queue == st.queue && st'.batch == st.batch && st'.phase == st.phase
      && |st'.log| == |st.log| + 1 && st'.log[..|st.log|] == st.log && st'.log[|st.log|].batch == es
      && Flushed(st'.log) == Flushed(st.log) + es
  {
  }

  /** Nothing accepted is lost, repeated or reordered on its way through the forwarder: flushed
      batches, current batch and channel concatenate to the accepted submissions in every reachable
      state. The channel and the batch stay bounded, and no flush is empty. */
  lemma {:induction false} Conservation(c: Config, connected: bool, actions: seq<Action>)
    ensures var st := Run(c, connected, actions);
      && Carried(st) == Accepted(c, connected, actions)
      && Bounded(c, st)
  {
    if actions != [] {
      hide Flush, Flushed;
      var init, last := actions[..|actions| - 1], actions[|actions| - 1];
      Conservation(c, connected, init);
      StepConserves(c, Run(c, connected, init), last);
      StepStaysBounded(c, Run(c, connected, init), last);
    }
  }

  lemma StepConserves(c: Config, st: State, a: Action)
    ensures Carried(Step(c, st, a)) == Carried(st) + if a.Submit? && |st.queue| < CAPACITY then [a.event] else []
  {
    hide Flush, Flushed;
    match a
    case Submit(e) =>
    case Cancel =>
    case Receive(net) =>
      if st.phase == Running && st.queue != [] {
        var batch := st.batch + [st.queue[0]];
        assert st.batch + st.queue == batch + st.queue[1..];
        FlushKeeps(c, st.(queue := st.queue[1..], batch := []), batch, net);
      }
    case Tick(net) =>
      if st.phase == Running && st.batch != [] {
        FlushKeeps(c, st.(batch := []), st.batch, net);
      }
    case Drain(net) =>
      if st.phase == Draining && st.queue != [] {
        assert st.batch + st.queue == st.batch + [st.queue[0]] + st.queue[1..];
      } else if st.phase == Draining && st.batch != [] {
        FlushKeeps(c, st.(batch := [], phase := Stopped), st.batch, net);
      }
  }

  lemma StepStaysBounded(c: Config, st: State, a: Action)
    requires Bounded(c, st)
    ensures Bounded(c, Step(c, st, a))
  {
    hide Flush, Flushed;
    match a
    case Submit(e) =>
    case Cancel =>
    case Receive(net) =>
      if st.phase == Running && st.queue != [] {
        FlushKeeps(c, st.(queue := st.queue[1..], batch := []), st.batch + [st.queue[0]], net);
      }
    case Tick(net) =>
      if st.phase == Running && st.batch != [] {
        FlushKeeps(c, st.(batch := []), st.batch, net);
      }
    case Drain(net) =>
      if st.phase == Draining && st.queue == [] && st.batch != [] {
        FlushKeeps(c, st.(batch := [], phase := Stopped), st.batch, net);
      }
  }

  // ---------------------------------------------------------------- shutdown

  lemma DrainProgresses(c: Config, st: State, net: Network)
    requires st.phase == Draining
    ensures var st' := Step(c, st, Drain(net));
      st'.phase == Stopped || (st'.phase == Draining && |st'.queue| < |st.queue|)
  {
  }

  /** Draining with no submission in between, until the batcher stops. */
  function Drained(c: Config, st: State, net: Network): State
    decreases if st.phase == Draining then |st.queue| + 1 else 0
  {
    if st.phase != Draining then st
    else
      DrainProgresses(c, st, net);
      Drained(c, Step(c, st, Drain(net)), net)
  }

  /** Draining sends the batch and the channel as one flush, and leaves both empty. */
  lemma {:induction false} DrainedIsOneFlush(c: Config, st: State, net: Network)
    requires st.phase == Draining
    ensures var rest, done := st.batch + st.queue, st.(queue := [], batch := [], phase := Stopped);
      Drained(c, st, net) == if rest == [] then done else Flush(c, done, rest, net)
    decreases |st.queue|
  {
    hide Flush;
    if st.queue != [] {
      var st' := st.(queue := st.queue[1..], batch := st.batch + [st.queue[0]]);
      assert st'.batch + st'.queue == st.batch + st.queue;
      DrainedIsOneFlush(c, st', net);
    } else {
      assert st.batch + st.queue == st.batch;
      FlushKeeps(c, st.(batch := [], phase := Stopped), st.batch, net);
      assert st.(queue := [], batch := [], phase := Stopped) == st.(batch := [], phase := Stopped);
    }
  }

  /** Shutdown flushes everything accepted before it finishes, and nothing is flushed after. */
  lemma StopFlushesEverything(c: Config, connected: bool, actions: seq<Action>, more: seq<Action>)
    requires actions != [] && Run(c, connected, actions).phase == Stopped
    requires Run(c, connected, actions[..|actions| - 1]).phase != Stopped
    ensures Flushed(Run(c, connected, actions + more).log) == Accepted(c, connected, actions)
    decreases |more|
  {
    hide Flush;
    if more == [] {
      var init, last := actions[..|actions| - 1], actions[|actions| - 1];
      var st := Run(c, connected, init);
      assert actions + more == actions;
      Conservation(c, connected, actions);
      if last.Receive? {
        FlushKeeps(c, st.(queue := st.queue[1..], batch := []), st.batch + [st.queue[0]], last.net);
      } else if last.Tick? {
        FlushKeeps(c, st.(batch := []), st.batch, last.net);
      } else if last.Drain? {
        FlushKeeps(c, st.(batch := [], phase := Stopped), st.batch, last.net);
      }
    } else {
      StaysStopped(c, connected, actions, more);
      StopFlushesEverything(c, connected, actions, []);
      assert actions + [] == actions;
    }
  }

  lemma {:induction false} StaysStopped(c: Config, connected: bool, actions: seq<Action>, more: seq<Action>)
    requires Run(c, connected, actions).phase == Stopped
    ensures Run(c, connected, actions + more).phase == Stopped
    ensures Run(c, connected, actions + more).log == Run(c, connected, actions).log
  {
    if more == [] {
      assert actions + more == actions;
    } else {
      StaysStopped(c, connected, actions, more[..|more| - 1]);
      assert (actions + more)[..|actions + more| - 1] == actions + more[..|more| - 1];
    }
  }

  // ---------------------------------------------------------------- grouping and delivery

  lemma {:induction false} GroupOf(es: seq<Event>, session: string)
    ensures session in Groups(es) <==> OfSession(es, session) != []
    ensures session in Groups(es) ==> Groups(es)[session] == OfSession(es, session)
  {
    if es != [] {
      GroupOf(es[..|es| - 1], session);
      assert es == es[..|es| - 1] + [es[|es| - 1]];
    }
  }

  /** Appending an event to its session's group regroups the extended batch. */
  lemma GroupsSnoc(es: seq<Event>, e: Event)
    ensures var s := e.sessionId;
      Groups(es + [e]) == Groups(es)[s := (if s in Groups(es) then Groups(es)[s] else []) + [e]]
  {
    SessionsSnoc(es, e);
    GroupOf(es, e.sessionId);
    hide OfSession, SessionsOf;
    var after := Groups(es)[e.sessionId := (if e.sessionId in Groups(es) then Groups(es)[e.sessionId] else []) + [e]];
    forall s | s in SessionsOf(es + [e]) ensures s in after && after[s] == OfSession(es + [e], s) {
      OfSessionSnoc(es, e, s);
    }
    assert after.Keys == SessionsOf(es + [e]);
  }

  lemma SessionsSnoc(es: seq<Event>, e: Event)
    ensures SessionsOf(es + [e]) == SessionsOf(es) + {e.sessionId}
  {
  }

  /** The groups of a flush partition its batch: each event is in its own session's group as often
      as in the batch and in no other group. */
  lemma GroupsPartitionBatch(es: seq<Event>, e: Event, s: string)
    ensures multiset(if s in Groups(es) then Groups(es)[s] else [])[e]
            == if e.sessionId == s then multiset(es)[e] else 0
  {
    hide Groups;
    GroupOf(es, s);
    CountsInSession(es, e, s);
  }

  lemma {:induction false} CountsInSession(es: seq<Event>, e: Event, s: string)
    ensures multiset(OfSession(es, s))[e] == if e.sessionId == s then multiset(es)[e] else 0
  {
    if es != [] {
      CountsInSession(es[..|es| - 1], e, s);
      assert es == es[..|es| - 1] + [es[|es| - 1]];
    }
  }

  /** The events of one session the engine received, over all requests. */
  function Received(log: seq<Record>, session: string): seq<Event> {
    if log == [] then []
    else
      var last := log[|log| - 1];
      Received(log[..|log| - 1], session)
      + if last.Reached(session) && session in last.outcome.requests then last.outcome.requests[session] else []
  }

  /** The batches whose requests for the session did not fail. */
  function Reaching(log: seq<Record>, session: string): seq<Record> {
    if log == [] then []
    else Reaching(log[..|log| - 1], session) + if log[|log| - 1].Reached(session) then [log[|log| - 1]] else []
  }

  predicate Grouped(log: seq<Record>) {
    forall i :: 0 <= i < |log| && log[i].outcome.Sent? ==> log[i].outcome.requests == Groups(log[i].batch)
  }

  lemma {:induction false} RunGroups(c: Config, connected: bool, actions: seq<Action>)
    ensures Grouped(Run(c, connected, actions).log)
  {
    hide Groups, Flush;
    if actions != [] {
      var st, last := Run(c, connected, actions[..|actions| - 1]), actions[|actions| - 1];
      RunGroups(c, connected, actions[..|actions| - 1]);
      if last.Receive? && st.queue != [] {
        FlushGroups(c, st.(queue := st.queue[1..], batch := []), st.batch + [st.queue[0]], last.net);
      } else if last.Tick? {
        FlushGroups(c, st.(batch := []), st.batch, last.net);
      } else if last.Drain? {
        FlushGroups(c, st.(batch := [], phase := Stopped), st.batch, last.net);
      }
    }
  }

  lemma FlushGroups(c: Config, st: State, es: seq<Event>, net: Network)
    requires Grouped(st.log)
    ensures Grouped(Flush(c, st, es, net).log)
  {
    hide Groups;
  }

  lemma {:induction false} ReceivedIsReaching(log: seq<Record>, session: string)
    requires Grouped(log)
    ensures Received(log, session) == OfSession(Flushed(Reaching(log, session)), session)
  {
    if log != [] {
      hide Groups, OfSession, Flushed;
      var init, last := log[..|log| - 1], log[|log| - 1];
      ReceivedIsReaching(init, session);
      if last.Reached(session) {
        ReachingSnoc(Reaching(init, session), last, session);
        GroupOf(last.batch, session);
      } else {
        assert Reaching(log, session) == Reaching(init, session);
      }
    }
  }

  lemma ReachingSnoc(reaching: seq<Record>, last: Record, session: string)
    ensures OfSession(Flushed(reaching + [last]), session)
            == OfSession(Flushed(reaching), session) + OfSession(last.batch, session)
  {
    hide OfSession;
    assert (reaching + [last])[..|reaching|] == reaching;
    OfSessionConcat(Flushed(reaching), last.batch, session);
  }

  lemma {:induction false} AllReaching(log: seq<Record>, session: string)
    requires forall r <- log :: r.Reached(session)
    ensures Reaching(log, session) == log
  {
    hide Record.Reached;
    if log != [] {
      var init, last := log[..|log| - 1], log[|log| - 1];
      assert last in log && log == init + [last];
      forall r | r in init ensures r.Reached(session) {
        assert r in log;
      }
      AllReaching(init, session);
    }
  }

  /** What the engine receives of a session is, in order, what was flushed of it in the batches
      that were neither skipped nor refused; if that was every batch, the engine has received the
      session's accepted events up to those still waiting. */
  lemma DeliveredInOrder(c: Config, connected: bool, actions: seq<Action>, session: string)
    ensures var st := Run(c, connected, actions);
      && Received(st.log, session) == OfSession(Flushed(Reaching(st.log, session)), session)
      && ((forall r <- st.log :: r.Reached(session)) ==>
            Received(st.log, session) + OfSession(st.batch + st.queue, session)
            == OfSession(Accepted(c, connected, actions), session))
  {
    hide Run, Received, Reaching, Flushed, OfSession, Accepted, Bounded, Grouped;
    var st := Run(c, connected, actions);
    RunGroups(c, connected, actions);
    ReceivedIsReaching(st.log, session);
    if forall r <- st.log :: r.Reached(session) {
      AllReaching(st.log, session);
      Conservation(c, connected, actions);
      assert Accepted(c, connected, actions) == Flushed(st.log) + (st.batch + st.queue);
      OfSessionConcat(Flushed(st.log), st.batch + st.queue, session);
    }
  }

  // ---------------------------------------------------------------- the breaker inside

  /** The flushes of a log as the breaker sees them. */
  function Flushes(log: seq<Record>): (r: seq<CircuitBreaker.Flush>)
    ensures |r| == |log|
  {
    if log == [] then []
    else
      var last := log[|log| - 1];
      Flushes(log[..|log| - 1]) + [CircuitBreaker.Flush(last.net.start, last.net.end, last.Succeeded())]
  }

  function Attempted(log: seq<Record>): (r: seq<bool>)
    ensures |r| == |log|
  {
    if log == [] then [] else Attempted(log[..|log| - 1]) + [!log[|log| - 1].outcome.Skipped?]
  }

  predicate Tracks(c: Config, st: State) {
    CircuitBreaker.Run(c.breaker, Flushes(st.log)) == (st.breaker, Attempted(st.log))
  }

  /** The forwarder's breaker is in the state its flushes put it in, and exactly the flushes it
      turned away were skipped. */
  lemma {:induction false} BreakerFollowsFlushes(c: Config, connected: bool, actions: seq<Action>)
    ensures Tracks(c, Run(c, connected, actions))
  {
    if actions != [] {
      BreakerFollowsFlushes(c, connected, actions[..|actions| - 1]);
      hide Step, Tracks;
      StepMovesBreaker(c, Run(c, connected, actions[..|actions| - 1]), actions[|actions| - 1]);
    }
  }

  lemma StepMovesBreaker(c: Config, st: State, a: Action)
    requires Tracks(c, st)
    ensures Tracks(c, Step(c, st, a))
  {
    hide Flush, Flushes, Attempted, CircuitBreaker.Run;
    match a
    case Submit(_) =>
    case Cancel =>
    case Receive(net) =>
      if st.phase == Running && st.queue != [] {
        FlushMovesBreaker(c, st.(queue := st.queue[1..], batch := []), st.batch + [st.queue[0]], net);
      }
    case Tick(net) => FlushMovesBreaker(c, st.(batch := []), st.batch, net);
    case Drain(net) => FlushMovesBreaker(c, st.(batch := [], phase := Stopped), st.batch, net);
  }

  lemma FlushMovesBreaker(c: Config, st: State, es: seq<Event>, net: Network)
    requires Tracks(c, st)
    ensures Tracks(c, Flush(c, st, es, net))
  {
    hide Groups, CircuitBreaker.Admit, CircuitBreaker.RecordFailure, CircuitBreaker.RecordSuccess;
    var st' := Flush(c, st, es, net);
    var last := st'.log[|st.log|];
    TracksSnoc(c, st, st', last);
  }

  lemma TracksSnoc(c: Config, st: State, st': State, last: Record)
    requires Tracks(c, st) && st'.log == st.log + [last]
    requires var told := CircuitBreaker.Flush(last.net.start, last.net.end, last.Succeeded());
      CircuitBreaker.Step(c.breaker, st.breaker, told) == (st'.breaker, !last.outcome.Skipped?)
    ensures Tracks(c, st')
  {
    hide CircuitBreaker.Step;
    assert st'.log[..|st.log|] == st.log;
    assert Flushes(st'.log)[..|st.log|] == Flushes(st.log);
  }

  /** Batch by batch, the engine is left alone while the circuit is open: in an outage at most
      `Limit` flushes within one cooldown are attempted, whatever is submitted. */
  lemma OutageSparesEngine(c: Config, connected: bool, actions: seq<Action>, s: int, u: int)
    requires var fs := Flushes(Run(c, connected, actions).log);
      CircuitBreaker.Ordered(fs) && CircuitBreaker.Outage(fs, s, u)
    requires u - s <= c.breaker.cooldown
    ensures var log := Run(c, connected, actions).log;
      CircuitBreaker.Attempts(Flushes(log), Attempted(log), s, u) <= CircuitBreaker.Limit(c.breaker)
  {
    BreakerFollowsFlushes(c, connected, actions);
    CircuitBreaker.OutageBound(c.breaker, Flushes(Run(c, connected, actions).log), s, u);
  }

  // ---------------------------------------------------------------- dialling

  predicate SomeSent(log: seq<Record>) { exists i :: 0 <= i < |log| && log[i].outcome.Sent? }

  /** The `i`-th flush was skipped, or it failed for want of a connection exactly when there had been
      none at the start, no earlier flush had been sent and dialling failed. */
  predicate DialledRight(connected: bool, log: seq<Record>, i: nat)
    requires i < |log|
  {
    log[i].outcome.Skipped? || (log[i].outcome.Undialled? <==> !connected && !SomeSent(log[..i]) && !log[i].net.dials)
  }

  /** The forwarder is connected exactly when it was at the start or a flush has been sent. */
  predicate Dialled(connected: bool, st: State) {
    && (st.connected <==> connected || SomeSent(st.log))
    && forall i :: 0 <= i < |st.log| ==> DialledRight(connected, st.log, i)
  }

  lemma DialledSnoc(connected: bool, st: State, st': State, last: Record)
    requires Dialled(connected, st) && st'.log == st.log + [last]
    requires last.outcome.Skipped? ==> st'.connected == st.connected
    requires last.outcome.Undialled? ==> !st.connected && !last.net.dials && !st'.connected
    requires last.outcome.Sent? ==> st'.connected && (st.connected || last.net.dials)
    ensures Dialled(connected, st')
  {
    var n := |st.log|;
    assert st'.log[n] == last && st'.log[..n] == st.log;
    assert SomeSent(st'.log) <==> SomeSent(st.log) || last.outcome.Sent? by {
      if SomeSent(st.log) {
        var i :| 0 <= i < n && st.log[i].outcome.Sent?;
        assert st'.log[i].outcome.Sent?;
      }
    }
    forall i | 0 <= i < n + 1 ensures DialledRight(connected, st'.log, i) {
      if i < n {
        assert DialledRight(connected, st.log, i) && st'.log[..i] == st.log[..i];
      }
    }
  }

  lemma FlushDials(c: Config, connected: bool, st: State, es: seq<Event>, net: Network)
    requires Dialled(connected, st)
    ensures Dialled(connected, Flush(c, st, es, net))
  {
    hide Groups, Dialled;
    var st' := Flush(c, st, es, net);
    DialledSnoc(connected, st, st', st'.log[|st.log|]);
  }

  /** Over every run: the forwarder is connected exactly when it was at the start or has sent a flush,
      and a flush the breaker admits is undialled exactly when neither holds and dialling fails; it is
      sent otherwise. */
  lemma {:induction false} RunDials(c: Config, connected: bool, actions: seq<Action>)
    ensures Dialled(connected, Run(c, connected, actions))
  {
    if actions != [] {
      var init, a := actions[..|actions| - 1], actions[|actions| - 1];
      RunDials(c, connected, init);
      hide Flush, Dialled;
      var st := Run(c, connected, init);
      match a
      case Submit(_) => SameDialled(connected, st, Step(c, st, a));
      case Cancel => SameDialled(connected, st, Step(c, st, a));
      case Receive(net) =>
        if st.phase == Running && st.queue != [] {
          var st0 := st.(queue := st.queue[1..], batch := []);
          SameDialled(connected, st, st0);
          SameDialled(connected, st, st0.(batch := st.batch + [st.queue[0]]));
          FlushDials(c, connected, st0, st.batch + [st.queue[0]], net);
        }
      case Tick(net) =>
        SameDialled(connected, st, st.(batch := []));
        FlushDials(c, connected, st.(batch := []), st.batch, net);
      case Drain(net) =>
        var st0 := st.(batch := [], phase := Stopped);
        SameDialled(connected, st, st0);
        FlushDials(c, connected, st0, st.batch, net);
        if st.phase == Draining && (st.queue != [] || st.batch == []) {
          SameDialled(connected, st, Step(c, st, a));
        }
    }
  }

  lemma SameDialled(connected: bool, st: State, st': State)
    requires Dialled(connected, st) && st'.connected == st.connected && st'.log == st.log
    ensures Dialled(connected, st')
  {
  }

  /** A forwarder that never has to do without a connection, is never turned away by the breaker and
      has none of a session's requests rejected has sent the engine all of that session's accepted
      events, in order, up to those still waiting. */
  lemma HealthyRunDeliversAll(c: Config, connected: bool, actions: seq<Action>, session: string)
    requires var log := Run(c, connected, actions).log;
      && (connected || forall r <- log :: r.net.dials)
      && forall r <- log :: !r.outcome.Skipped? && session !in r.net.rejects
    ensures var st := Run(c, connected, actions);
      Received(st.log, session) + OfSession(st.batch + st.queue, session)
      == OfSession(Accepted(c, connected, actions), session)
  {
    hide Run, Received, OfSession, Accepted, Reaching, Flushed;
    var log := Run(c, connected, actions).log;
    RunDials(c, connected, actions);
    DeliveredInOrder(c, connected, actions, session);
    forall r | r in log ensures r.Reached(session) {
      var i :| 0 <= i < |log| && log[i] == r;
      assert DialledRight(connected, log, i);
    }
  }

  // ---------------------------------------------------------------- when events are taken and flushed

  /** A submission is accepted exactly while fewer than 1000 events are queued. */
  lemma AcceptedBelowCapacity(c: Config, connected: bool, actions: seq<Action>, e: Event)
    ensures Accepted(c, connected, actions + [Submit(e)])
            == Accepted(c, connected, actions) + if |Run(c, connected, actions).queue| < 1000 then [e] else []
  {
    assert (actions + [Submit(e)])[..|actions|] == actions;
  }

  /** Receiving an event flushes exactly when it fills the batch, and a tick leaves nothing behind. */
  lemma FlushesWhenFull(c: Config, connected: bool, actions: seq<Action>, net: Network)
    requires Run(c, connected, actions).phase == Running
    ensures var st := Run(c, connected, actions);
      && (st.queue != [] ==> var st' := Step(c, st, Receive(net));
            if |st.batch| + 1 == (if c.batchSize <= 1 then 1 else c.batchSize)
            then |st'.log| == |st.log| + 1 && st'.batch == []
            else st'.log == st.log && st'.batch == st.batch + [st.queue[0]])
      && Step(c, st, Tick(net)).batch == []
      && |Step(c, st, Tick(net)).log| == |st.log| + if st.batch == [] then 0 else 1
  {
    hide Flush, Flushed;
    Conservation(c, connected, actions);
    var st := Run(c, connected, actions);
    if st.queue != [] {
      FlushKeeps(c, st.(queue := st.queue[1..], batch := []), st.batch + [st.queue[0]], net);
    }
    FlushKeeps(c, st.(batch := []), st.batch, net);
  }

  /** Cancelling a running forwarder and letting it drain flushes everything accepted. */
  lemma CancelFlushesAll(c: Config, connected: bool, actions: seq<Action>, net: Network)
    requires Run(c, connected, actions).phase != Stopped
    ensures var done := Drained(c, Step(c, Run(c, connected, actions), Cancel), net);
      && done.phase == Stopped && done.batch == [] && done.queue == []
      && Flushed(done.log) == Accepted(c, connected, actions)
  {
    hide Flush, Flushed, Drained;
    Conservation(c, connected, actions);
    var st := Step(c, Run(c, connected, actions), Cancel);
    DrainedIsOneFlush(c, st, net);
    FlushKeeps(c, st.(queue := [], batch := [], phase := Stopped), st.batch + st.queue, net);
  }

  /** What the breaker is told of each flush: a success exactly when it was sent and no event's session
      was rejected. */
  lemma {:induction false} FlushesAre(c: Config, connected: bool, actions: seq<Action>)
    ensures var log := Run(c, connected, actions).log;
      forall i :: 0 <= i < |log| ==> var r, told := log[i], Flushes(log)[i];
        && told.start == r.net.start && told.end == r.net.end
        && (told.ok <==> r.outcome.Sent? && forall e <- r.batch :: e.sessionId !in r.net.rejects)
  {
    RunGroups(c, connected, actions);
    hide Run;
    LogAsTold(Run(c, connected, actions).log);
  }

  lemma {:induction false} LogAsTold(log: seq<Record>)
    requires Grouped(log)
    ensures forall i :: 0 <= i < |log| ==> var r, told := log[i], Flushes(log)[i];
        && told.start == r.net.start && told.end == r.net.end
        && (told.ok <==> r.outcome.Sent? && forall e <- r.batch :: e.sessionId !in r.net.rejects)
  {
    if log != [] {
      LogAsTold(log[..|log| - 1]);
      var r := log[|log| - 1];
      assert r.outcome.Sent? ==> r.outcome.requests.Keys == SessionsOf(r.batch);
    }
  }
}
