/** Tailing one tenant whose timestamps may repeat (internal/eventstore/jsonl.go): a stream asks for
    events later than the last one it saw, and so passes over those of the same time. */
module TailTies {
  import opened Events
  import opened Tailing

  /** How far the polls reach into the matching events when nothing is passed over. */
  function Position(f: Filter, es: seq<Event>, polls: seq<Poll>): int
    requires forall p <- polls :: p.appended <= |es|
  {
    if polls == [] then 0
    else Reach(f.limit, Position(f, es, polls[..|polls| - 1]), |Seen(f, es, polls)|, polls[|polls| - 1].delivered)
  }

  /** The event at a position does not share the time of the one before it. */
  predicate NoTieAt(m: seq<Event>, j: int) { 0 < j < |m| ==> m[j].timestamp != m[j - 1].timestamp }

  /** No poll that delivers anything starts between two matching events with the same timestamp. */
  predicate Untied(f: Filter, es: seq<Event>, polls: seq<Poll>)
    requires forall p <- polls :: p.appended <= |es|
  {
    polls == [] ||
    (Untied(f, es, polls[..|polls| - 1])
     && (polls[|polls| - 1].delivered == 0 || NoTieAt(Seen(f, es, polls), Position(f, es, polls[..|polls| - 1]))))
  }

  /** The stream has passed over the event at some position `j` before `pos`. */
  ghost predicate Lost(t: Tail, m: seq<Event>, pos: int) {
    exists j: nat :: PassedOver(t, m, pos, j)
  }

  predicate PassedOver(t: Tail, m: seq<Event>, pos: int, j: nat) {
    && j < pos <= |m| && j <= |t.emitted| && 0 < m[j].timestamp <= t.lastSeen
    && (j < |t.emitted| ==> t.emitted[j].timestamp > m[j].timestamp)
  }

  lemma {:induction false} ScanMatches(es: seq<Event>, listing: seq<Bucket>, f: Filter)
    ensures forall e <- Scan(es, listing, f) :: Matches(e, f)
  {
    if listing != [] {
      ScanMatches(es, listing[..|listing| - 1], f);
      MatchingIsAfter(InBucket(es, listing[|listing| - 1]), f);
    }
  }

  /** Once a stream has seen an event it only delivers later ones. */
  lemma DeliversLater(es: seq<Event>, listing: seq<Bucket>, f: Filter, t: Tail, delivered: nat)
    requires t.lastSeen != 0
    ensures var t' := Deliver(t, Query(es, listing, NextFilter(f, t)), delivered);
      && t.emitted <= t'.emitted && t.lastSeen <= t'.lastSeen
      && forall i :: |t.emitted| <= i < |t'.emitted| ==> t'.emitted[i].timestamp > t.lastSeen
  {
    ScanMatches(es, listing, NextFilter(f, t));
    hide Scan;
    var results, found := Query(es, listing, NextFilter(f, t)), Scan(es, listing, NextFilter(f, t));
    forall i | 0 <= i < |results| ensures results[i].timestamp > t.lastSeen {
      assert results[i] == found[i] && found[i] in found;
    }
    var t' := Deliver(t, results, delivered);
    assert forall i :: |t.emitted| <= i < |t'.emitted| ==> t'.emitted[i] in results;
  }

  lemma LostStays(t: Tail, t': Tail, m: seq<Event>, m': seq<Event>, pos: int, pos': int)
    requires Lost(t, m, pos) && m <= m' && pos <= pos' <= |m'|
    requires t.emitted <= t'.emitted && t.lastSeen <= t'.lastSeen
    requires forall i :: |t.emitted| <= i < |t'.emitted| ==> t'.emitted[i].timestamp > t.lastSeen
    ensures Lost(t', m', pos')
  {
    var j: nat :| PassedOver(t, m, pos, j);
    assert PassedOver(t', m', pos', j);
  }

  /** A poll from a position without a tie goes on from there. */
  lemma UntiedPollAdvances(f: Filter, seen: seq<Event>, listing: seq<Bucket>, t: Tail, delivered: nat)
    requires f.tenantId != "" && Nondecreasing(seen, f.tenantId) && Positive(seen, f.tenantId)
      && IsListing(listing, seen)
    requires At(t, Matching(seen, f)) && (delivered == 0 || NoTieAt(Matching(seen, f), |t.emitted|))
    ensures var t' := Deliver(t, Query(seen, listing, NextFilter(f, t)), delivered);
      At(t', Matching(seen, f)) && |t'.emitted| == Reach(f.limit, |t.emitted|, |Matching(seen, f)|, delivered)
  {
    if delivered != 0 {
      var m, j := Matching(seen, f), |t.emitted|;
      LastIsPositive(seen, f, j);
      MatchingOrdered(seen, f);
      hide Matching, Nondecreasing, Positive, IsListing;
      assert forall i :: j < i < |m| ==> NotAfter(m[j], m[i], false);
      assert 0 < j < |m| ==> NotAfter(m[j - 1], m[j], false);
      PollFindsRest(seen, listing, f, t, j);
      DeliverAdvances(t, m, f.limit, delivered);
    } else {
      DeliverNothing(t, Matching(seen, f), f.limit);
    }
  }

  lemma DeliverNothing(t: Tail, m: seq<Event>, limit: int)
    requires At(t, m)
    ensures Reach(limit, |t.emitted|, |m|, 0) == |t.emitted|
  {
  }

  lemma LastIsPositive(es: seq<Event>, f: Filter, j: nat)
    requires f.tenantId != "" && Positive(es, f.tenantId) && j <= |Matching(es, f)|
    ensures forall i :: 0 <= i < |Matching(es, f)| ==> Matching(es, f)[i].timestamp > 0
  {
    MatchingIsAfter(es, f);
  }

  /** A poll from a position with a tie passes over the event there. */
  lemma TiedPollLoses(f: Filter, seen: seq<Event>, listing: seq<Bucket>, t: Tail, delivered: nat)
    requires f.tenantId != "" && Positive(seen, f.tenantId)
    requires At(t, Matching(seen, f)) && delivered > 0 && !NoTieAt(Matching(seen, f), |t.emitted|)
    ensures var t' := Deliver(t, Query(seen, listing, NextFilter(f, t)), delivered);
      Lost(t', Matching(seen, f), Reach(f.limit, |t.emitted|, |Matching(seen, f)|, delivered))
  {
    var m, j := Matching(seen, f), |t.emitted|;
    LastIsPositive(seen, f, j);
    hide Matching, Query, Deliver, Positive;
    assert t.emitted[j - 1] == m[j - 1];
    DeliversLater(seen, listing, f, t, delivered);
    var t' := Deliver(t, Query(seen, listing, NextFilter(f, t)), delivered);
    assert PassedOver(t', m, Reach(f.limit, j, |m|, delivered), j);
  }

  lemma SeenGrows(f: Filter, es: seq<Event>, polls: seq<Poll>)
    requires polls != [] && Growing(es, polls)
    ensures Seen(f, es, polls[..|polls| - 1]) <= Seen(f, es, polls)
  {
    var init, last := polls[..|polls| - 1], polls[|polls| - 1];
    if init != [] {
      MatchingGrows(es, init[|init| - 1].appended, last.appended, f);
    }
  }

  lemma {:induction false} PositionInRange(f: Filter, es: seq<Event>, polls: seq<Poll>)
    requires Growing(es, polls)
    ensures 0 <= Position(f, es, polls) <= |Seen(f, es, polls)|
    ensures polls != [] ==> Position(f, es, polls[..|polls| - 1]) <= Position(f, es, polls)
  {
    if polls != [] {
      hide Seen;
      PositionInRange(f, es, polls[..|polls| - 1]);
      SeenGrows(f, es, polls);
    }
  }

  /** Where the stream stands: at its position as long as no poll was tied, and past an event it never
      emitted otherwise. */
  ghost predicate Stands(f: Filter, es: seq<Event>, polls: seq<Poll>)
    requires forall p <- polls :: p.appended <= |es|
  {
    var t, m, pos := Run(f, es, polls), Seen(f, es, polls), Position(f, es, polls);
    if Untied(f, es, polls) then At(t, m) && |t.emitted| == pos else Lost(t, m, pos)
  }

  lemma {:induction false} StreamStands(f: Filter, es: seq<Event>, polls: seq<Poll>)
    requires f.tenantId != "" && Nondecreasing(es, f.tenantId) && Positive(es, f.tenantId) && Growing(es, polls)
    ensures Stands(f, es, polls)
  {
    if polls != [] {
      StreamStands(f, es, polls[..|polls| - 1]);
      PollStands(f, es, polls);
    }
  }

  lemma PollStands(f: Filter, es: seq<Event>, polls: seq<Poll>)
    requires f.tenantId != "" && Nondecreasing(es, f.tenantId) && Positive(es, f.tenantId) && Growing(es, polls)
    requires polls != [] && Stands(f, es, polls[..|polls| - 1])
    ensures Stands(f, es, polls)
  {
    var init, last := polls[..|polls| - 1], polls[|polls| - 1];
    hide Matching, Deliver, Query, IsListing, NextFilter, Reach, Lost, NoTieAt;
    var t, seen := Run(f, es, init), es[..last.appended];
    SeenGrows(f, es, polls);
    PositionInRange(f, es, polls);
    if Untied(f, es, init) {
      assert At(t, Seen(f, es, polls));
      if last.delivered == 0 || NoTieAt(Seen(f, es, polls), Position(f, es, init)) {
        UntiedPollAdvances(f, seen, last.listing, t, last.delivered);
      } else {
        TiedPollLoses(f, seen, last.listing, t, last.delivered);
      }
    } else {
      LostHasSeen(t, Seen(f, es, init), Position(f, es, init));
      DeliversLater(seen, last.listing, f, t, last.delivered);
      LostStays(t, Run(f, es, polls), Seen(f, es, init), Seen(f, es, polls), Position(f, es, init),
                Position(f, es, polls));
    }
  }

  lemma LostHasSeen(t: Tail, m: seq<Event>, pos: int)
    requires Lost(t, m, pos)
    ensures t.lastSeen != 0 && pos <= |m| && t.emitted != m[..if pos < 0 then 0 else pos]
  {
    var j: nat :| PassedOver(t, m, pos, j);
    if j < |t.emitted| {
      assert t.emitted[j] != m[..pos][j];
    }
  }

  /** For one tenant whose timestamps never decrease, any limit and any part of each poll delivered: the
      stream has emitted the matching events up to where its polls reach if and only if no poll that
      delivered anything started between two matching events with the same timestamp. Otherwise the
      second of the two is never emitted. */
  lemma TailMissesTies(f: Filter, es: seq<Event>, polls: seq<Poll>)
    requires f.tenantId != "" && Nondecreasing(es, f.tenantId) && Positive(es, f.tenantId) && Growing(es, polls)
    ensures 0 <= Position(f, es, polls) <= |Seen(f, es, polls)|
    ensures Run(f, es, polls).emitted == Seen(f, es, polls)[..Position(f, es, polls)] <==> Untied(f, es, polls)
  {
    StreamStands(f, es, polls);
    PositionInRange(f, es, polls);
    if !Untied(f, es, polls) {
      LostHasSeen(Run(f, es, polls), Seen(f, es, polls), Position(f, es, polls));
    }
  }
}
