/** Tailing under a filter that need not name a tenant (internal/eventstore/jsonl.go): results come
    tenant by tenant, and the stream remembers the time of the last one. */
module TailAllTenants {
  import opened Events
  import opened Tailing

  // ---------------------------------------------------------------- counting

  lemma {:induction false} MatchingConcat(a: seq<Event>, b: seq<Event>, f: Filter)
    ensures Matching(a + b, f) == Matching(a, f) + Matching(b, f)
  {
    if b == [] {
      assert a + b == a;
    } else {
      assert (a + b)[..|a + b| - 1] == a + b[..|b| - 1];
      MatchingConcat(a, b[..|b| - 1], f);
    }
  }

  lemma {:induction false} InBucketConcat(a: seq<Event>, b: seq<Event>, k: Bucket)
    ensures InBucket(a + b, k) == InBucket(a, k) + InBucket(b, k)
  {
    if b == [] {
      assert a + b == a;
    } else {
      assert (a + b)[..|a + b| - 1] == a + b[..|b| - 1];
      InBucketConcat(a, b[..|b| - 1], k);
    }
  }

  lemma {:induction false} LaterConcat(a: seq<Event>, b: seq<Event>, x: int)
    ensures Later(a + b, x) == Later(a, x) + Later(b, x)
  {
    if b == [] {
      assert a + b == a;
    } else {
      assert (a + b)[..|a + b| - 1] == a + b[..|b| - 1];
      LaterConcat(a, b[..|b| - 1], x);
    }
  }

  lemma {:induction false} LaterCount(es: seq<Event>, x: int, e: Event)
    ensures multiset(Later(es, x))[e] == if e.timestamp > x then multiset(es)[e] else 0
  {
    if es != [] {
      LaterCount(es[..|es| - 1], x, e);
      assert es == es[..|es| - 1] + [es[|es| - 1]];
    }
  }

  /** A file holds its bucket's share of the matching events. */
  lemma {:induction false} BucketCount(es: seq<Event>, k: Bucket, f: Filter, e: Event)
    ensures multiset(Matching(InBucket(es, k), f))[e] == if BucketOf(e) == k then multiset(Matching(es, f))[e] else 0
  {
    if es != [] {
      var n := |es| - 1;
      BucketCount(es[..n], k, f, e);
      MatchingSnoc(InBucket(es[..n], k), es[n], f);
    }
  }

  lemma {:induction false} ScanCount(es: seq<Event>, listing: seq<Bucket>, f: Filter, e: Event)
    requires forall i, j :: 0 <= i < j < |listing| ==> listing[i] != listing[j]
    ensures multiset(Scan(es, listing, f))[e] == if BucketOf(e) in listing then multiset(Matching(es, f))[e] else 0
  {
    if listing != [] {
      var n := |listing| - 1;
      ScanCount(es, listing[..n], f, e);
      BucketCount(es, listing[n], f, e);
      hide Matching, InBucket, BucketOf;
      assert listing == listing[..n] + [listing[n]];
    }
  }

  lemma {:induction false} MatchingMembers(es: seq<Event>, f: Filter, e: Event)
    ensures e in Matching(es, f) ==> e in es && Matches(e, f)
  {
    MatchingIsAfter(es, f);
  }

  /** Scanning a listing that has the bucket of every event finds every matching event exactly once. */
  lemma ScanIsPermutation(es: seq<Event>, listing: seq<Bucket>, f: Filter)
    requires forall i, j :: 0 <= i < j < |listing| ==> listing[i] != listing[j]
    requires forall i :: 0 <= i < |es| ==> BucketOf(es[i]) in listing
    ensures multiset(Scan(es, listing, f)) == multiset(Matching(es, f))
  {
    forall e ensures multiset(Scan(es, listing, f))[e] == multiset(Matching(es, f))[e] {
      ScanCount(es, listing, f, e);
      MatchingMembers(es, f, e);
      hide Scan, Matching, BucketOf;
      if BucketOf(e) !in listing {
        assert e !in es;
        assert e !in Matching(es, f);
      }
    }
  }

  lemma ListingIsDistinct(listing: seq<Bucket>, es: seq<Event>)
    requires IsListing(listing, es)
    ensures forall i, j :: 0 <= i < j < |listing| ==> listing[i] != listing[j]
    ensures forall i :: 0 <= i < |es| ==> BucketOf(es[i]) in listing
  {
    forall i, j | 0 <= i < j < |listing| ensures listing[i] != listing[j] {
      NotBeforeItself(listing[i].tenant);
    }
  }

  // ---------------------------------------------------------------- what a poll adds

  /** When the old matching events are no later than `x` and the new ones are, asking for those after
      `x` finds just what scanning the new events finds. */
  lemma {:induction false} ScanOfNew(seen: seq<Event>, more: seq<Event>, listing: seq<Bucket>, f: Filter, x: int)
    requires x != 0 && (f.after == 0 || f.after <= x)
    requires (forall e <- Matching(seen, f) :: e.timestamp <= x) && forall e <- Matching(more, f) :: e.timestamp > x
    ensures Scan(seen + more, listing, f.(after := x)) == Scan(more, listing, f)
  {
    if listing != [] {
      ScanOfNew(seen, more, listing[..|listing| - 1], f, x);
      BucketOfNew(seen, more, listing[|listing| - 1], f, x);
    }
  }

  lemma BucketOfNew(seen: seq<Event>, more: seq<Event>, k: Bucket, f: Filter, x: int)
    requires x != 0 && (f.after == 0 || f.after <= x)
    requires (forall e <- Matching(seen, f) :: e.timestamp <= x) && forall e <- Matching(more, f) :: e.timestamp > x
    ensures Matching(InBucket(seen + more, k), f.(after := x)) == Matching(InBucket(more, k), f)
  {
    hide Matching, InBucket, Later;
    var a, b := InBucket(seen, k), InBucket(more, k);
    InBucketConcat(seen, more, k);
    AfterKeepsLater(a + b, f, x);
    MatchingConcat(a, b, f);
    LaterConcat(Matching(a, f), Matching(b, f), x);
    InBucketMatches(seen, k, f);
    InBucketMatches(more, k, f);
    LaterIsSuffix(Matching(a, f), |Matching(a, f)|, x);
    LaterIsSuffix(Matching(b, f), 0, x);
  }

  lemma InBucketMatches(es: seq<Event>, k: Bucket, f: Filter)
    ensures forall e <- Matching(InBucket(es, k), f) :: e in Matching(es, f)
  {
    forall e | e in Matching(InBucket(es, k), f) ensures e in Matching(es, f) {
      BucketCount(es, k, f, e);
      hide Matching, InBucket;
    }
  }

  /** The same when no old event matches at all. */
  lemma {:induction false} ScanOfNewOnly(seen: seq<Event>, more: seq<Event>, listing: seq<Bucket>, f: Filter)
    requires Matching(seen, f) == []
    ensures Scan(seen + more, listing, f) == Scan(more, listing, f)
  {
    if listing != [] {
      var k := listing[|listing| - 1];
      ScanOfNewOnly(seen, more, listing[..|listing| - 1], f);
      InBucketConcat(seen, more, k);
      MatchingConcat(InBucket(seen, k), InBucket(more, k), f);
      forall e ensures e !in Matching(InBucket(seen, k), f) {
        BucketCount(seen, k, f, e);
      }
      NoMembers(Matching(InBucket(seen, k), f));
    }
  }

  lemma NoMembers(es: seq<Event>)
    ensures es != [] ==> exists e :: e in es
  {
    if es != [] {
      assert es[0] in es;
    }
  }

  /** Emitting those of `a + b` that are later than `x`, when all of `a` has been emitted, completes `b`
      exactly when nothing in `a` is later and everything in `b` is. */
  lemma CompletesIff(a: seq<Event>, b: seq<Event>, x: int)
    ensures multiset(Later(a + b, x)) == multiset(b)
            <==> (forall e <- a :: e.timestamp <= x) && forall e <- b :: e.timestamp > x
  {
    LaterConcat(a, b, x);
    forall e
      ensures multiset(Later(a, x))[e] == if e.timestamp > x then multiset(a)[e] else 0
      ensures multiset(Later(b, x))[e] == if e.timestamp > x then multiset(b)[e] else 0
    {
      LaterCount(a, x, e);
      LaterCount(b, x, e);
    }
    hide Later;
    var left := multiset(Later(a, x)) + multiset(Later(b, x));
    if left == multiset(b) {
      forall e | e in a ensures e.timestamp <= x {
        assert left[e] == multiset(b)[e] && multiset(a)[e] > 0;
      }
      forall e | e in b ensures e.timestamp > x {
        assert left[e] == multiset(b)[e] && multiset(b)[e] > 0;
      }
    }
    if (forall e <- a :: e.timestamp <= x) && forall e <- b :: e.timestamp > x {
      forall e ensures left[e] == multiset(b)[e] {
        assert multiset(a)[e] > 0 <==> e in a;
        assert multiset(b)[e] > 0 <==> e in b;
      }
    }
  }

  // ---------------------------------------------------------------- whole runs

  /** What was appended between the last poll and the one before it. */
  function Added(es: seq<Event>, polls: seq<Poll>): seq<Event>
    requires InRange(es, polls) && polls != []
  {
    var last, n := polls[|polls| - 1].appended, |polls|;
    var before := if n == 1 then 0 else polls[n - 2].appended;
    if before <= last then es[before..last] else []
  }

  /** Its matching events in the order the last poll scans them. */
  function Fresh(f: Filter, es: seq<Event>, polls: seq<Poll>): seq<Event>
    requires InRange(es, polls) && polls != []
  {
    Scan(Added(es, polls), polls[|polls| - 1].listing, f)
  }

  /** The time of the last event, in scan order, that some poll found newly appended. */
  function Mark(f: Filter, es: seq<Event>, polls: seq<Poll>): int
    requires InRange(es, polls)
  {
    if polls == [] then 0
    else NextMark(Mark(f, es, polls[..|polls| - 1]), Fresh(f, es, polls))
  }

  /** Once something matching has been seen, no event seen before the last poll is later than the mark,
      and every event appended since is. */
  ghost predicate PollInTime(f: Filter, es: seq<Event>, polls: seq<Poll>)
    requires InRange(es, polls) && polls != []
  {
    var init := polls[..|polls| - 1];
    Seen(f, es, init) != [] ==> Split(Seen(f, es, init), Matching(Added(es, polls), f), Mark(f, es, init))
  }

  ghost predicate InTime(f: Filter, es: seq<Event>, polls: seq<Poll>)
    requires InRange(es, polls)
  {
    polls == [] || (InTime(f, es, polls[..|polls| - 1]) && PollInTime(f, es, polls))
  }

  /** The stream has emitted each matching event it could see exactly once. */
  ghost predicate Exact(f: Filter, es: seq<Event>, polls: seq<Poll>)
    requires InRange(es, polls)
  {
    multiset(Run(f, es, polls).emitted) == multiset(Seen(f, es, polls))
  }

  /** Every poll is complete and without a limit, the store grows, and times are not zero. */
  ghost predicate Complete(f: Filter, es: seq<Event>, polls: seq<Poll>) {
    && f.limit <= 0 && Growing(es, polls)
    && (forall p <- polls :: p.delivered >= p.appended)
    && forall e <- es :: e.timestamp > 0
  }

  lemma SeenAdds(f: Filter, es: seq<Event>, polls: seq<Poll>)
    requires polls != [] && Growing(es, polls)
    ensures Growing(es, polls[..|polls| - 1])
    ensures var last := polls[|polls| - 1]; IsListing(last.listing, es[..last.appended])
    ensures Seen(f, es, polls) == Seen(f, es, polls[..|polls| - 1]) + Matching(Added(es, polls), f)
    ensures es[..polls[|polls| - 1].appended] == Old(es, polls) + Added(es, polls)
    ensures Matching(Old(es, polls), f) == Seen(f, es, polls[..|polls| - 1])
  {
    NothingMatches(f);
    hide IsListing, Matching;
    var init, last := polls[..|polls| - 1], polls[|polls| - 1];
    assert last in polls && (forall p <- init :: p in polls);
    assert init != [] ==> polls[|polls| - 2].appended <= last.appended;
    assert es[..last.appended] == Old(es, polls) + Added(es, polls);
    MatchingConcat(Old(es, polls), Added(es, polls), f);
  }

  lemma NothingMatches(f: Filter)
    ensures Matching([], f) == []
  {
  }

  lemma CompleteBefore(f: Filter, es: seq<Event>, polls: seq<Poll>)
    requires polls != [] && Complete(f, es, polls)
    ensures Complete(f, es, polls[..|polls| - 1])
    ensures var last := polls[|polls| - 1]; IsListing(last.listing, es[..last.appended])
    ensures Seen(f, es, polls) == Seen(f, es, polls[..|polls| - 1]) + Matching(Added(es, polls), f)
    ensures es[..polls[|polls| - 1].appended] == Old(es, polls) + Added(es, polls)
    ensures Matching(Old(es, polls), f) == Seen(f, es, polls[..|polls| - 1])
  {
    hide Growing, IsListing, Added, Old, Seen, Matching;
    SeenAdds(f, es, polls);
    assert forall p <- polls[..|polls| - 1] :: p in polls;
  }

  /** What had been appended by the poll before the last. */
  function Old(es: seq<Event>, polls: seq<Poll>): seq<Event>
    requires InRange(es, polls) && polls != []
  {
    if |polls| == 1 then [] else es[..polls[|polls| - 2].appended]
  }

  lemma {:induction false} ScanIsMatch(es: seq<Event>, listing: seq<Bucket>, f: Filter)
    requires forall e <- es :: e.timestamp > 0
    ensures forall e <- Scan(es, listing, f) :: Matches(e, f) && e.timestamp > 0
  {
    if listing != [] {
      var k := listing[|listing| - 1];
      ScanIsMatch(es, listing[..|listing| - 1], f);
      forall e | e in Matching(InBucket(es, k), f) ensures Matches(e, f) && e.timestamp > 0 {
        BucketCount(es, k, f, e);
        MatchingMembers(es, f, e);
      }
    }
  }

  /** The newly appended events are scanned as a permutation. */
  lemma ScanOfAdded(seen: seq<Event>, more: seq<Event>, listing: seq<Bucket>, f: Filter)
    requires IsListing(listing, seen + more)
    ensures multiset(Scan(more, listing, f)) == multiset(Matching(more, f))
  {
    ListingIsDistinct(listing, seen + more);
    hide IsListing, BucketOf;
    assert forall i :: 0 <= i < |more| ==> more[i] == (seen + more)[|seen| + i];
    ScanIsPermutation(more, listing, f);
  }

  lemma FreshIsPermutation(f: Filter, es: seq<Event>, polls: seq<Poll>)
    requires polls != [] && Complete(f, es, polls)
    ensures multiset(Fresh(f, es, polls)) == multiset(Matching(Added(es, polls), f))
  {
    CompleteBefore(f, es, polls);
    hide Complete, IsListing, Added, Old, Seen, Matching;
    ScanOfAdded(Old(es, polls), Added(es, polls), polls[|polls| - 1].listing, f);
  }

  /** The mark is the time of a matching event as soon as there is one, and zero before. */
  lemma {:induction false} MarkIsSeen(f: Filter, es: seq<Event>, polls: seq<Poll>)
    requires Complete(f, es, polls)
    ensures Seen(f, es, polls) == [] ==> Mark(f, es, polls) == 0
    ensures Seen(f, es, polls) != [] ==> Mark(f, es, polls) > 0 && (f.after == 0 || f.after <= Mark(f, es, polls))
  {
    if polls != [] {
      CompleteBefore(f, es, polls);
      MarkIsSeen(f, es, polls[..|polls| - 1]);
      FreshIsPermutation(f, es, polls);
      var found := Fresh(f, es, polls);
      AddedIsPositive(f, es, polls);
      ScanIsMatch(Added(es, polls), polls[|polls| - 1].listing, f);
      hide Matching, Seen, Added, Complete, Scan;
      if found != [] {
        assert found[|found| - 1] in found;
      }
      assert |found| == |multiset(found)|;
      assert |Matching(Added(es, polls), f)| == |multiset(Matching(Added(es, polls), f))|;
    }
  }

  lemma AddedIsPositive(f: Filter, es: seq<Event>, polls: seq<Poll>)
    requires polls != [] && Complete(f, es, polls)
    ensures forall e <- Added(es, polls) :: e.timestamp > 0
  {
    assert forall e <- Added(es, polls) :: e in es;
  }

  lemma DeliverAll(t: Tail, results: seq<Event>, delivered: nat)
    requires |results| <= delivered
    ensures Deliver(t, results, delivered)
            == Tail(if results == [] then t.lastSeen else results[|results| - 1].timestamp, t.emitted + results)
  {
  }

  lemma {:induction false} AtMostAll(es: seq<Event>, f: Filter)
    ensures |Matching(es, f)| <= |es|
  {
    if es != [] {
      AtMostAll(es[..|es| - 1], f);
    }
  }

  /** A complete poll emits all that it finds, which is a permutation of the matching events it asks for. */
  lemma PollEmits(f: Filter, seen: seq<Event>, listing: seq<Bucket>, t: Tail, delivered: nat)
    requires f.limit <= 0 && IsListing(listing, seen) && |seen| <= delivered
    ensures var results := Scan(seen, listing, NextFilter(f, t));
      && Deliver(t, Query(seen, listing, NextFilter(f, t)), delivered)
         == Tail(if results == [] then t.lastSeen else results[|results| - 1].timestamp, t.emitted + results)
      && multiset(results) == multiset(Matching(seen, NextFilter(f, t)))
  {
    var g := NextFilter(f, t);
    var results := Scan(seen, listing, g);
    ListingIsDistinct(listing, seen);
    ScanIsPermutation(seen, listing, g);
    AtMostAll(seen, g);
    hide Matching, Scan, IsListing;
    assert |results| == |multiset(results)| == |multiset(Matching(seen, g))|;
    DeliverAll(t, results, delivered);
  }

  /** The time a poll leaves when it finds exactly the newly appended events. */
  function NextMark(mark: int, found: seq<Event>): int {
    if found == [] then mark else found[|found| - 1].timestamp
  }

  /** Nothing in `a` is later than the mark, and everything in `b` is. */
  ghost predicate Split(a: seq<Event>, b: seq<Event>, mark: int) {
    (forall e <- a :: e.timestamp <= mark) && forall e <- b :: e.timestamp > mark
  }

  lemma FirstPollIsExact(f: Filter, seen: seq<Event>, more: seq<Event>, listing: seq<Bucket>, t: Tail, delivered: nat)
    requires f.limit <= 0 && IsListing(listing, seen + more) && |seen + more| <= delivered
    requires Matching(seen, f) == [] && multiset(t.emitted) == multiset(Matching(seen, f)) && t.lastSeen == 0
    ensures var t' := Deliver(t, Query(seen + more, listing, NextFilter(f, t)), delivered);
      && multiset(t'.emitted) == multiset(Matching(seen + more, f))
      && t'.lastSeen == NextMark(0, Scan(more, listing, f))
  {
    hide Matching, Scan, IsListing, Deliver, Query;
    ScanOfNewOnly(seen, more, listing, f);
    PollEmits(f, seen + more, listing, t, delivered);
    assert |t.emitted| == |multiset(t.emitted)| == 0;
  }

  /** From an exact state, a poll keeps it exact if and only if the mark splits old from new. */
  lemma LaterPollIsExactIff(f: Filter, seen: seq<Event>, more: seq<Event>, listing: seq<Bucket>, t: Tail,
                            delivered: nat)
    requires f.limit <= 0 && IsListing(listing, seen + more) && |seen + more| <= delivered
    requires multiset(t.emitted) == multiset(Matching(seen, f))
    requires t.lastSeen > 0 && (f.after == 0 || f.after <= t.lastSeen)
    ensures var t' := Deliver(t, Query(seen + more, listing, NextFilter(f, t)), delivered);
      var split := Split(Matching(seen, f), Matching(more, f), t.lastSeen);
      && (multiset(t'.emitted) == multiset(Matching(seen + more, f)) <==> split)
      && (split ==> t'.lastSeen == NextMark(t.lastSeen, Scan(more, listing, f)))
  {
    hide Matching, Scan, IsListing, Deliver, Query, Later;
    var a, b := Matching(seen, f), Matching(more, f);
    MatchingConcat(seen, more, f);
    AfterKeepsLater(seen + more, f, t.lastSeen);
    PollEmits(f, seen + more, listing, t, delivered);
    CompletesIff(a, b, t.lastSeen);
    AddsIff(t.emitted, Scan(seen + more, listing, NextFilter(f, t)), a, b);
    if Split(a, b, t.lastSeen) {
      ScanOfNew(seen, more, listing, f, t.lastSeen);
    }
  }

  /** From an exact state, a poll keeps it exact if and only if it is in time. */
  lemma PollIsExactIff(f: Filter, es: seq<Event>, polls: seq<Poll>)
    requires polls != [] && Complete(f, es, polls)
    requires Exact(f, es, polls[..|polls| - 1])
      && Run(f, es, polls[..|polls| - 1]).lastSeen == Mark(f, es, polls[..|polls| - 1])
    ensures Exact(f, es, polls) <==> PollInTime(f, es, polls)
    ensures PollInTime(f, es, polls) ==> Run(f, es, polls).lastSeen == Mark(f, es, polls)
  {
    var init, last := polls[..|polls| - 1], polls[|polls| - 1];
    CompleteBefore(f, es, polls);
    MarkIsSeen(f, es, init);
    var t := Run(f, es, init);
    assert Run(f, es, polls) == Deliver(t, Query(es[..last.appended], last.listing, NextFilter(f, t)), last.delivered);
    assert Seen(f, es, polls) == Matching(es[..last.appended], f);
    assert f.limit <= 0 && last.delivered >= last.appended;
    hide Matching, Scan, Complete, Added, Old, Run, Seen, Deliver, Query, NextFilter, IsListing;
    if Seen(f, es, init) == [] {
      FirstPollIsExact(f, Old(es, polls), Added(es, polls), last.listing, t, last.delivered);
    } else {
      LaterPollIsExactIff(f, Old(es, polls), Added(es, polls), last.listing, t, last.delivered);
    }
  }

  lemma AddsIff(emitted: seq<Event>, results: seq<Event>, a: seq<Event>, b: seq<Event>)
    requires multiset(emitted) == multiset(a)
    ensures multiset(emitted + results) == multiset(a + b) <==> multiset(results) == multiset(b)
  {
    assert multiset(emitted + results) == multiset(a) + multiset(results);
    assert multiset(a + b) == multiset(a) + multiset(b);
    if multiset(a) + multiset(results) == multiset(a) + multiset(b) {
      assert multiset(results) == multiset(a) + multiset(results) - multiset(a);
      assert multiset(b) == multiset(a) + multiset(b) - multiset(a);
    }
  }

  /** After every poll the stream is exact. */
  ghost predicate AlwaysExact(f: Filter, es: seq<Event>, polls: seq<Poll>)
    requires InRange(es, polls)
  {
    polls == [] || (AlwaysExact(f, es, polls[..|polls| - 1]) && Exact(f, es, polls))
  }

  /** A stream over any tenants, with complete polls and no limit, has after every poll emitted each
      matching event exactly once if and only if its polls are in time: nothing already seen is later
      than the last newly appended event in scan order, and everything appended afterwards is. */
  lemma StreamIsExactIff(f: Filter, es: seq<Event>, polls: seq<Poll>)
    requires Complete(f, es, polls)
    ensures AlwaysExact(f, es, polls) <==> InTime(f, es, polls)
  {
    StreamFollowsMark(f, es, polls);
  }

  lemma {:induction false} StreamFollowsMark(f: Filter, es: seq<Event>, polls: seq<Poll>)
    requires Complete(f, es, polls)
    ensures AlwaysExact(f, es, polls) <==> InTime(f, es, polls)
    ensures InTime(f, es, polls) ==> Exact(f, es, polls) && Run(f, es, polls).lastSeen == Mark(f, es, polls)
  {
    if polls != [] {
      CompleteBefore(f, es, polls);
      StreamFollowsMark(f, es, polls[..|polls| - 1]);
      hide Exact, PollInTime, Complete, Run, Mark;
      if InTime(f, es, polls[..|polls| - 1]) {
        PollIsExactIff(f, es, polls);
      }
    }
  }

  // ---------------------------------------------------------------- an order that repeats

  lemma InBucketOfTwo(a: Event, b: Event, k: Bucket)
    ensures InBucket([a, b], k) == (if BucketOf(a) == k then [a] else []) + if BucketOf(b) == k then [b] else []
  {
    assert [a, b][..1] == [a] && [a][..0] == [];
    assert InBucket([a], k) == if BucketOf(a) == k then [a] else [];
  }

  lemma ScanOfTwo(es: seq<Event>, j: Bucket, k: Bucket, f: Filter)
    ensures Scan(es, [j, k], f) == Matching(InBucket(es, j), f) + Matching(InBucket(es, k), f)
  {
    assert [j, k][..1] == [j] && [j][..0] == [];
    assert Scan(es, [j], f) == Matching(InBucket(es, j), f);
  }

  lemma ListingOfTwo(a: Event, b: Event)
    requires Before(BucketOf(a), BucketOf(b))
    ensures IsListing([BucketOf(a), BucketOf(b)], [a, b])
  {
    var es := [a, b];
    assert BucketOf(es[0]) == BucketOf(a) && BucketOf(es[1]) == BucketOf(b);
  }

  const ALL := Filter("", "", "", 0, 0, [], 0)

  lemma ScanAllOfTwo(a: Event, b: Event, f: Filter)
    requires BucketOf(a) != BucketOf(b)
    ensures Scan([a, b], [BucketOf(a), BucketOf(b)], f)
            == (if Matches(a, f) then [a] else []) + if Matches(b, f) then [b] else []
  {
    InBucketOfTwo(a, b, BucketOf(a));
    InBucketOfTwo(a, b, BucketOf(b));
    ScanOfTwo([a, b], BucketOf(a), BucketOf(b), f);
    MatchingSnoc([], a, f);
    MatchingSnoc([], b, f);
    assert [] + [a] == [a] && [] + [b] == [b];
  }

  /** Naming a tenant matters: files are scanned tenant by tenant, so a stream over all tenants that
      finishes a poll on an event older than one it emitted before emits that one again. */
  lemma UnscopedTailRepeats(a: Event, b: Event)
    requires Before(BucketOf(a), BucketOf(b)) && BucketOf(a) != BucketOf(b) && 0 < b.timestamp < a.timestamp
    ensures var poll := Poll(2, [BucketOf(a), BucketOf(b)], 2);
      Growing([a, b], [poll, poll]) && Run(ALL, [a, b], [poll, poll]).emitted == [a, b, a]
  {
    var poll := Poll(2, [BucketOf(a), BucketOf(b)], 2);
    ListingOfTwo(a, b);
    StepsOfTwo(a, b, poll);
    hide IsListing, Step, BucketOf;
    assert [a, b][..2] == [a, b] && [poll, poll][..1] == [poll] && [poll][..0] == [];
    assert Run(ALL, [a, b], [poll]) == Tail(b.timestamp, [a, b]);
  }

  lemma StepsOfTwo(a: Event, b: Event, poll: Poll)
    requires BucketOf(a) != BucketOf(b) && 0 < b.timestamp < a.timestamp
    requires poll == Poll(2, [BucketOf(a), BucketOf(b)], 2)
    ensures Step(ALL, [a, b], Tail(0, []), poll) == Tail(b.timestamp, [a, b])
    ensures Step(ALL, [a, b], Tail(b.timestamp, [a, b]), poll) == Tail(a.timestamp, [a, b, a])
  {
    hide Scan, BucketOf, Step;
    QueryOfTwo(a, b, poll, 0, [a, b]);
    QueryOfTwo(a, b, poll, b.timestamp, [a]);
    StepIs(ALL, [a, b], Tail(0, []), poll, [a, b]);
    StepIs(ALL, [a, b], Tail(b.timestamp, [a, b]), poll, [a]);
  }

  lemma QueryOfTwo(a: Event, b: Event, poll: Poll, after: int, found: seq<Event>)
    requires BucketOf(a) != BucketOf(b) && poll == Poll(2, [BucketOf(a), BucketOf(b)], 2)
    requires found == (if after == 0 || a.timestamp > after then [a] else [])
                      + if after == 0 || b.timestamp > after then [b] else []
    ensures Query([a, b][..poll.appended], poll.listing, NextFilter(ALL, Tail(after, []))) == found
  {
    ScanAllOfTwo(a, b, ALL.(after := after));
    hide Scan, BucketOf;
    assert [a, b][..2] == [a, b];
  }

  lemma StepIs(f: Filter, es: seq<Event>, t: Tail, poll: Poll, found: seq<Event>)
    requires poll.appended <= |es| && found != [] && |found| <= poll.delivered
    requires Query(es[..poll.appended], poll.listing, NextFilter(f, Tail(t.lastSeen, []))) == found
    ensures Step(f, es, t, poll) == Tail(found[|found| - 1].timestamp, t.emitted + found)
  {
    assert NextFilter(f, t) == NextFilter(f, Tail(t.lastSeen, []));
    hide Query, NextFilter;
  }
}
