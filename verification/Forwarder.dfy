/** The analysis forwarder as the object it is (cmd/ingestion/analysis.go). The batcher's local
    batch is a field, and each step that touches the network is told what it meets there. */
module Forwarder {
  import opened Events
  import CircuitBreaker
  import opened Forwarding

  /** Splits a batch by session, in one pass. */
  method GroupBySession(events: seq<Event>) returns (sessions: map<string, seq<Event>>)
    ensures sessions == Groups(events)
  {
    sessions := map[];
    for i := 0 to |events|
      invariant sessions == Groups(events[..i])
    {
      var e := events[i];
      assert events[..i + 1] == events[..i] + [e];
      GroupsSnoc(events[..i], e);
      var group := if e.sessionId in sessions then sessions[e.sessionId] else [];
      sessions := sessions[e.sessionId := group + [e]];
    }
    assert events[..|events|] == events;
  }

  class AnalysisForwarder {
    const cfg: Forwarding.Config
    var eventCh: seq<Event>
    var batch: seq<Event>
    var connected: bool
    var failures: int
    var circuitOpen: bool
    var openUntil: int
    var phase: Phase
    ghost var log: seq<Record>

    ghost function State(): State reads this {
      Forwarding.State(eventCh, batch, connected, CircuitBreaker.Breaker(failures, circuitOpen, openUntil), phase, log)
    }

    constructor (cfg: Forwarding.Config, dialled: bool)
      ensures this.cfg == cfg && State() == Start(dialled)
    {
      this.cfg, eventCh, batch, connected, failures := cfg, [], [], dialled, 0;
      circuitOpen, openUntil, phase, log := false, 0, Running, [];
    }

    /** Enqueues an event, or drops it when the channel is full; never blocks. */
    method Submit(event: Event) returns (accepted: bool)
      modifies this`eventCh
      ensures State() == Forwarding.Step(cfg, old(State()), Forwarding.Submit(event))
      ensures accepted <==> |old(eventCh)| < CAPACITY
    {
      accepted := |eventCh| < CAPACITY;
      if accepted {
        eventCh := eventCh + [event];
      }
    }

    method CircuitAllows(now: int) returns (allowed: bool)
      modifies this`failures, this`circuitOpen
      ensures (CircuitBreaker.Breaker(failures, circuitOpen, openUntil), allowed)
              == CircuitBreaker.Admit(old(CircuitBreaker.Breaker(failures, circuitOpen, openUntil)), now)
    {
      if circuitOpen {
        if now > openUntil {
          circuitOpen, failures := false, 0;
          return true;
        }
        return false;
      }
      return true;
    }

    method RecordFailure(now: int)
      modifies this`failures, this`circuitOpen, this`openUntil
      ensures CircuitBreaker.Breaker(failures, circuitOpen, openUntil)
              == CircuitBreaker.RecordFailure(cfg.breaker,
                                              old(CircuitBreaker.Breaker(failures, circuitOpen, openUntil)), now)
    {
      failures := failures + 1;
      if failures >= cfg.breaker.threshold {
        circuitOpen, openUntil := true, now + cfg.breaker.cooldown;
      }
    }

    method RecordSuccess()
      modifies this`failures
      ensures CircuitBreaker.Breaker(failures, circuitOpen, openUntil)
              == CircuitBreaker.RecordSuccess(old(CircuitBreaker.Breaker(failures, circuitOpen, openUntil)))
    {
      failures := 0;
    }

    /** One request per session, in any order; all are tried even if one fails. */
    method SendAll(sessions: map<string, seq<Event>>, net: Network) returns (allOK: bool)
      ensures allOK <==> sessions.Keys !! net.rejects
    {
      allOK := true;
      var remaining := sessions.Keys;
      while remaining != {}
        invariant remaining <= sessions.Keys
        invariant allOK <==> (sessions.Keys - remaining) !! net.rejects
        decreases |remaining|
      {
        var session :| session in remaining;
        remaining := remaining - {session};
        if session in net.rejects {
          allOK := false;
        }
      }
    }

    method Flush(events: seq<Event>, net: Network)
      modifies this`connected, this`failures, this`circuitOpen, this`openUntil, this`log
      ensures State() == Forwarding.Flush(cfg, old(State()), events, net)
    {
      hide Groups;
      var allowed := CircuitAllows(net.start);
      if !allowed {
        log := log + [Record(events, net, Skipped)];
        return;
      }
      if !connected {
        if !net.dials {
          RecordFailure(net.end);
          log := log + [Record(events, net, Undialled)];
          return;
        }
        connected := true;
      }
      var sessions := GroupBySession(events);
      var allOK := SendAll(sessions, net);
      log := log + [Record(events, net, Sent(sessions))];
      if allOK {
        RecordSuccess();
      } else {
        RecordFailure(net.end);
      }
    }

    /** The batcher receives one event, and flushes when the batch is full. */
    method Receive(net: Network)
      requires phase == Running && eventCh != []
      modifies this
      ensures State() == Forwarding.Step(cfg, old(State()), Forwarding.Receive(net))
    {
      hide Forwarding.Flush;
      batch, eventCh := batch + [eventCh[0]], eventCh[1..];
      if |batch| >= cfg.batchSize {
        var full := batch;
        batch := [];
        Flush(full, net);
      }
    }

    /** The ticker fires: whatever is in the batch is flushed. */
    method Tick(net: Network)
      requires phase == Running
      modifies this
      ensures State() == Forwarding.Step(cfg, old(State()), Forwarding.Tick(net))
    {
      hide Forwarding.Flush;
      if |batch| > 0 {
        var partial := batch;
        batch := [];
        Flush(partial, net);
      }
    }

    /** One round of the shutdown loop: take an event, or flush the final batch and stop. */
    method Drain(net: Network)
      requires phase == Draining
      modifies this
      ensures State() == Forwarding.Step(cfg, old(State()), Forwarding.Drain(net))
    {
      hide Forwarding.Flush;
      if eventCh != [] {
        batch, eventCh := batch + [eventCh[0]], eventCh[1..];
      } else {
        var final := batch;
        batch, phase := [], Stopped;
        if |final| > 0 {
          Flush(final, net);
        }
      }
    }

    /** Empties the channel and flushes the rest; no submission comes in between. */
    method DrainAndFlush(net: Network)
      requires phase == Draining
      modifies this
      ensures State() == Drained(cfg, old(State()), net)
    {
      hide Step;
      while phase == Draining
        invariant Drained(cfg, State(), net) == Drained(cfg, old(State()), net)
        decreases if phase == Draining then |eventCh| + 1 else 0
      {
        DrainProgresses(cfg, State(), net);
        Drain(net);
      }
    }

    /** The batcher's loop under a schedule of its own steps and of submissions by others. */
    method RunBatcher(schedule: seq<Action>)
      requires State() == Start(connected)
      modifies this
      ensures State() == Run(cfg, old(connected), schedule)
    {
      hide Step;
      for i := 0 to |schedule|
        invariant State() == Run(cfg, old(connected), schedule[..i])
      {
        assert schedule[..i + 1][..i] == schedule[..i];
        Act(schedule[i]);
      }
      assert schedule[..|schedule|] == schedule;
    }

    method Act(a: Action)
      modifies this
      ensures State() == Step(cfg, old(State()), a)
    {
      hide Forwarding.Flush;
      match a
      case Submit(event) => var _ := Submit(event);
      case Receive(net) => if phase == Running && eventCh != [] { Receive(net); }
      case Tick(net) => if phase == Running { Tick(net); }
      case Cancel => if phase == Running { phase := Draining; }
      case Drain(net) => if phase == Draining { Drain(net); }
    }
  }
}
