/** Tailing under any filter, limit and delivery (internal/eventstore/jsonl.go): when a stream has
    emitted exactly what is no later than the time it remembers, so that the next poll asks for
    exactly the rest. */
module TailOnTrack {
  import opened Events
  import opened Tailing
  import opened TailAllTenants

  /** The events no later than a time. */
  function UpTo(es: seq<Event>, x: int): seq<Event> {
    if es == [] then []
    else
      var earlier, last := UpTo(es[..|es| - 1], x), es[|es| - 1];
      if last.timestamp <= x then earlier + [last] else earlier
  }

  lemma {:induction false} UpToCount(es: seq<Event>, x: int, e: Event)
    ensures multiset(UpTo(es, x))[e] == if e.timestamp <= x then multiset(es)[e] else 0
  {
    if es != [] {
      UpToCount(es[..|es| - 1], x, e);
      assert es == es[..|es| - 1] + [es[|es| - 1]];
    }
  }

  // ---------------------------------------------------------------- what polls find, from the times

  /** What the last of the polls finds. */
  function Found(f: Filter, es: seq<Event>, polls: seq<Poll>): seq<Event>
    requires InRange(es, polls) && polls != []
    decreases |polls|, 0
  {
    var p := polls[|polls| - 1];
    Scan(es[..p.appended], p.listing, NextFilter(f, Tail(Reached(f, es, polls[..|polls| - 1]), [])))
  }

  /** What it delivers of that. */
  function Sent(f: Filter, es: seq<Event>, polls: seq<Poll>): (s: seq<Event>)
    requires InRange(es, polls) && polls != []
    ensures s <= Found(f, es, polls)
    decreases |polls|, 1
  {
    var r, n := First(f.limit, Found(f, es, polls)), polls[|polls| - 1].delivered;
    if n < |r| then r[..n] else r
  }

  /** The time of the last event delivered. */
  function Reached(f: Filter, es: seq<Event>, polls: seq<Poll>): int
    requires InRange(es, polls)
    decreases |polls|, 2
  {
    if polls == [] then 0
    else LastTime(Reached(f, es, polls[..|polls| - 1]), Sent(f, es, polls))
  }

  function LastTime(x: int, sent: seq<Event>): int { if sent == [] then x else sent[|sent| - 1].timestamp }

  /** The polls find and deliver what the times say. */
  lemma {:induction false} RunReaches(f: Filter, es: seq<Event>, polls: seq<Poll>)
    requires InRange(es, polls)
    ensures Run(f, es, polls).lastSeen == Reached(f, es, polls)
    ensures polls != [] ==>
      Run(f, es, polls).emitted == Run(f, es, polls[..|polls| - 1]).emitted + Sent(f, es, polls)
  {
    if polls != [] {
      RunReaches(f, es, polls[..|polls| - 1]);
      hide Scan, Deliver, First, NextFilter, Matching;
      var t, p := Run(f, es, polls[..|polls| - 1]), polls[|polls| - 1];
      SameNextFilter(f, t);
      DeliverSent(t, First(f.limit, Found(f, es, polls)), p.delivered);
    }
  }

  lemma SameNextFilter(f: Filter, t: Tail)
    ensures NextFilter(f, t) == NextFilter(f, Tail(t.lastSeen, [])) && NextFilter(f, t).limit == f.limit
  {
  }

  lemma DeliverSent(t: Tail, results: seq<Event>, delivered: nat)
    ensures var sent := if delivered < |results| then results[..delivered] else results;
      Deliver(t, results, delivered) == Tail(LastTime(t.lastSeen, sent), t.emitted + sent)
  {
  }

  // ---------------------------------------------------------------- on track

  /** The stream has emitted each matching event no later than the time it remembers exactly once,
      and nothing else: none was passed over, and the next poll asks for exactly the others. */
  ghost predicate OnTrack(f: Filter, es: seq<Event>, polls: seq<Poll>)
    requires InRange(es, polls)
  {
    multiset(Run(f, es, polls).emitted) == multiset(UpTo(Seen(f, es, polls), Run(f, es, polls).lastSeen))
  }

  ghost predicate AlwaysOnTrack(f: Filter, es: seq<Event>, polls: seq<Poll>)
    requires InRange(es, polls)
  {
    polls == [] || (AlwaysOnTrack(f, es, polls[..|polls| - 1]) && OnTrack(f, es, polls))
  }

  /** What was appended since the poll before is later than all that was delivered until then, and what
      the last poll delivers is cut off by time: up to the time of its last event, and nothing it
      found and did not deliver is that early. */
  ghost predicate PollInStep(f: Filter, es: seq<Event>, polls: seq<Poll>)
    requires InRange(es, polls) && polls != []
  {
    var found, sent := Found(f, es, polls), Sent(f, es, polls);
    && (forall e <- Matching(Added(es, polls), f) :: e.timestamp > Reached(f, es, polls[..|polls| - 1]))
    && CutByTime(sent, found[|sent|..])
  }

  ghost predicate CutByTime(sent: seq<Event>, rest: seq<Event>) {
    sent != [] ==> Split(sent, rest, sent[|sent| - 1].timestamp)
  }

  ghost predicate InStep(f: Filter, es: seq<Event>, polls: seq<Poll>)
    requires InRange(es, polls)
  {
    polls == [] || (InStep(f, es, polls[..|polls| - 1]) && PollInStep(f, es, polls))
  }

  // ---------------------------------------------------------------- one poll

  /** An event is counted right after a poll exactly when it is not new and early, sent and late, or
      left and early. */
  lemma CountIff(a: seq<Event>, b: seq<Event>, sent: seq<Event>, rest: seq<Event>, x: int, e: Event)
    requires multiset(sent + rest) == multiset(Later(a + b, x))
    ensures var x' := LastTime(x, sent);
      multiset(UpTo(a, x) + sent)[e] == multiset(UpTo(a + b, x'))[e]
      <==> && (e in b ==> e.timestamp > x)
           && (sent != [] ==> (e in sent ==> e.timestamp <= x') && (e in rest ==> e.timestamp > x'))
  {
    UpToCount(a, x, e);
    UpToCount(a + b, LastTime(x, sent), e);
    LaterCount(a + b, x, e);
    var left := multiset(Later(a + b, x));
    assert left[e] == multiset(sent)[e] + multiset(rest)[e];
    if sent != [] {
      var last := sent[|sent| - 1];
      LaterCount(a + b, x, last);
      assert last in sent && multiset(sent)[last] > 0 && left[last] == multiset(sent)[last] + multiset(rest)[last];
    }
    hide UpTo, Later;
    assert multiset(a + b)[e] == multiset(a)[e] + multiset(b)[e];
    assert multiset(UpTo(a, x) + sent)[e] == multiset(UpTo(a, x))[e] + multiset(sent)[e];
  }

  lemma LastTimeOf(x: int, sent: seq<Event>)
    ensures sent != [] ==> LastTime(x, sent) == sent[|sent| - 1].timestamp
  {
  }

  lemma PollIff(emitted: seq<Event>, a: seq<Event>, b: seq<Event>, sent: seq<Event>, rest: seq<Event>, x: int)
    requires multiset(emitted) == multiset(UpTo(a, x)) && multiset(sent + rest) == multiset(Later(a + b, x))
    ensures multiset(emitted + sent) == multiset(UpTo(a + b, LastTime(x, sent)))
            <==> (forall e <- b :: e.timestamp > x) && CutByTime(sent, rest)
  {
    hide UpTo, Later, LastTime;
    forall e
      ensures multiset(UpTo(a, x) + sent)[e] == multiset(UpTo(a + b, LastTime(x, sent)))[e]
              <==> && (e in b ==> e.timestamp > x)
                   && (sent != [] ==>
                        && (e in sent ==> e.timestamp <= LastTime(x, sent))
                        && (e in rest ==> e.timestamp > LastTime(x, sent)))
    {
      CountIff(a, b, sent, rest, x, e);
    }
    LastTimeOf(x, sent);
    assert multiset(emitted + sent) == multiset(UpTo(a, x) + sent);
  }

  /** A stream asks for what is later than the time it remembers, and that is what it finds. */
  lemma FindsLater(f: Filter, es: seq<Event>, polls: seq<Poll>)
    requires polls != [] && Growing(es, polls) && forall e <- es :: e.timestamp > 0
    requires var x := Reached(f, es, polls[..|polls| - 1]); x == 0 || (x > 0 && (f.after == 0 || f.after <= x))
    ensures multiset(Found(f, es, polls)) == multiset(Later(Seen(f, es, polls), Reached(f, es, polls[..|polls| - 1])))
    ensures var x := Reached(f, es, polls); x == 0 || (x > 0 && (f.after == 0 || f.after <= x))
  {
    var p, x := polls[|polls| - 1], Reached(f, es, polls[..|polls| - 1]);
    assert p in polls;
    var seen := es[..p.appended];
    var g := NextFilter(f, Tail(x, []));
    ListingIsDistinct(p.listing, seen);
    ScanIsPermutation(seen, p.listing, g);
    assert forall e <- seen :: e in es;
    ScanIsMatch(seen, p.listing, g);
    hide Scan, Matching, Later, IsListing;
    if x == 0 {
      AllArePositive(seen, f);
    } else {
      AfterKeepsLater(seen, f, x);
    }
    var sent := Sent(f, es, polls);
    if sent != [] {
      assert sent[|sent| - 1] in Found(f, es, polls);
    }
  }

  lemma AllArePositive(seen: seq<Event>, f: Filter)
    requires forall e <- seen :: e.timestamp > 0
    ensures multiset(Later(Matching(seen, f), 0)) == multiset(Matching(seen, f))
  {
    forall e ensures multiset(Later(Matching(seen, f), 0))[e] == multiset(Matching(seen, f))[e] {
      LaterCount(Matching(seen, f), 0, e);
      MatchingMembers(seen, f, e);
      hide Later, Matching;
    }
  }

  /** Under any filter, limit and delivery, whatever the order of the timestamps: from a stream on
      track, a poll leaves it on track if and only if the poll is in step. */
  lemma PollOnTrackIff(f: Filter, es: seq<Event>, polls: seq<Poll>)
    requires polls != [] && Growing(es, polls) && forall e <- es :: e.timestamp > 0
    requires OnTrack(f, es, polls[..|polls| - 1])
    requires var x := Reached(f, es, polls[..|polls| - 1]); x == 0 || (x > 0 && (f.after == 0 || f.after <= x))
    ensures OnTrack(f, es, polls) <==> PollInStep(f, es, polls)
  {
    var init, sent := polls[..|polls| - 1], Sent(f, es, polls);
    assert InRange(es, polls) && Reached(f, es, polls) == LastTime(Reached(f, es, init), sent);
    hide Run, Found, Sent, Seen, Matching, Added, Later, UpTo, Growing, CutByTime, InRange, Exact, Reached, LastTime;
    RunReaches(f, es, polls);
    RunReaches(f, es, init);
    SeenAdds(f, es, polls);
    FindsLater(f, es, polls);
    TrackIff(Run(f, es, init), Run(f, es, polls), Seen(f, es, init), Matching(Added(es, polls), f),
             Found(f, es, polls), sent);
  }

  lemma TrackIff(t: Tail, t': Tail, a: seq<Event>, b: seq<Event>, found: seq<Event>, sent: seq<Event>)
    requires t' == Tail(LastTime(t.lastSeen, sent), t.emitted + sent) && sent <= found
    requires multiset(t.emitted) == multiset(UpTo(a, t.lastSeen))
    requires multiset(found) == multiset(Later(a + b, t.lastSeen))
    ensures multiset(t'.emitted) == multiset(UpTo(a + b, t'.lastSeen))
            <==> (forall e <- b :: e.timestamp > t.lastSeen) && CutByTime(sent, found[|sent|..])
  {
    hide UpTo, Later, LastTime, CutByTime;
    assert sent + found[|sent|..] == found;
    PollIff(t.emitted, a, b, sent, found[|sent|..], t.lastSeen);
  }

  /** Under any filter, limit and delivery, and whatever the order of the timestamps: after every poll
      the stream has emitted each matching event up to the time it remembers exactly once, and no
      other, if and only if every poll is in step. */
  lemma {:induction false} StreamOnTrackIff(f: Filter, es: seq<Event>, polls: seq<Poll>)
    requires Growing(es, polls) && forall e <- es :: e.timestamp > 0
    ensures AlwaysOnTrack(f, es, polls) <==> InStep(f, es, polls)
    ensures AlwaysOnTrack(f, es, polls) ==> OnTrack(f, es, polls)
    ensures var x := Reached(f, es, polls); x == 0 || (x > 0 && (f.after == 0 || f.after <= x))
  {
    hide OnTrack, PollInStep;
    if polls == [] {
      NothingYet(f, es);
    } else {
      var init := polls[..|polls| - 1];
      SeenAdds(f, es, polls);
      StreamOnTrackIff(f, es, init);
      hide Growing, Reached;
      FindsLater(f, es, polls);
      if AlwaysOnTrack(f, es, init) {
        PollOnTrackIff(f, es, polls);
      }
    }
  }

  lemma NothingYet(f: Filter, es: seq<Event>)
    ensures OnTrack(f, es, [])
  {
  }

  /** A stream on track whose last poll delivered all it found has emitted every matching event once. */
  lemma OnTrackAndDone(f: Filter, es: seq<Event>, polls: seq<Poll>)
    requires polls != [] && Growing(es, polls) && (forall e <- es :: e.timestamp > 0) && InStep(f, es, polls)
    requires Sent(f, es, polls) == Found(f, es, polls)
    ensures Exact(f, es, polls)
  {
    assert InRange(es, polls) && PollInStep(f, es, polls);
    assert Found(f, es, polls)[|Sent(f, es, polls)|..] == [];
    var init, sent := polls[..|polls| - 1], Sent(f, es, polls);
    assert Reached(f, es, polls) == LastTime(Reached(f, es, init), sent) && CutByTime(sent, []);
    hide Found, Sent, Seen, Matching, Growing, Run, InStep, AlwaysOnTrack, Later, UpTo, Added;
    hide CutByTime, Reached, LastTime, InRange, PollInStep;
    SeenAdds(f, es, polls);
    StreamOnTrackIff(f, es, polls);
    StreamOnTrackIff(f, es, init);
    RunReaches(f, es, polls);
    FindsLater(f, es, polls);
    NothingBeyond(Seen(f, es, polls), sent, Reached(f, es, init));
  }

  lemma NothingBeyond(m: seq<Event>, sent: seq<Event>, x: int)
    requires multiset(sent) == multiset(Later(m, x)) && CutByTime(sent, [])
    ensures multiset(UpTo(m, LastTime(x, sent))) == multiset(m)
  {
    forall e ensures multiset(UpTo(m, LastTime(x, sent)))[e] == multiset(m)[e] {
      UpToCount(m, LastTime(x, sent), e);
      LaterCount(m, x, e);
      hide UpTo, Later;
      assert e in sent <==> multiset(sent)[e] > 0;
      if sent != [] {
        LaterCount(m, x, sent[|sent| - 1]);
        assert multiset(sent)[sent[|sent| - 1]] > 0;
      }
    }
  }
}
