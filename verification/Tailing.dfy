/** Querying and tailing the event store, over the sequence of appended events
    (internal/eventstore/jsonl.go). The zero time is 0 and all timestamps are in nanoseconds. */
module Tailing {
  import opened Events

  /** One file per tenant and day. */
  datatype Bucket = Bucket(tenant: string, day: int)

  const DAY := 86_400_000_000_000

  function BucketOf(e: Event): Bucket { Bucket(e.tenantId, e.timestamp / DAY) }

  datatype Filter = Filter(
    sessionId: string, agentId: string, tenantId: string, after: int, before: int, types: seq<EventType>, limit: int)

  predicate Matches(e: Event, f: Filter) {
    && (f.sessionId == "" || e.sessionId == f.sessionId)
    && (f.agentId == "" || e.agentId == f.agentId)
    && (f.tenantId == "" || e.tenantId == f.tenantId)
    && (f.after == 0 || e.timestamp > f.after)
    && (f.before == 0 || e.timestamp < f.before)
    && (f.types == [] || e.kind in f.types)
  }

  /** The events that match a filter, in append order. */
  function Matching(es: seq<Event>, f: Filter): seq<Event> {
    if es == [] then []
    else
      var earlier, last := Matching(es[..|es| - 1], f), es[|es| - 1];
      if Matches(last, f) then earlier + [last] else earlier
  }

  /** The content of one file. */
  function InBucket(es: seq<Event>, b: Bucket): seq<Event> {
    if es == [] then []
    else
      var earlier, last := InBucket(es[..|es| - 1], b), es[|es| - 1];
      if BucketOf(last) == b then earlier + [last] else earlier
  }

  /** What scanning the files in the given order finds. */
  function Scan(es: seq<Event>, listing: seq<Bucket>, f: Filter): seq<Event> {
    if listing == [] then []
    else Scan(es, listing[..|listing| - 1], f) + Matching(InBucket(es, listing[|listing| - 1]), f)
  }

  function First(limit: int, es: seq<Event>): seq<Event> {
    if 0 < limit <= |es| then es[..limit] else es
  }

  /** The result of a query: the first `limit` of what the files hold. */
  function Query(es: seq<Event>, listing: seq<Bucket>, f: Filter): seq<Event> {
    First(f.limit, Scan(es, listing, f))
  }

  // ---------------------------------------------------------------- bucket order is append order

  /** Text order, as directories are listed. */
  predicate TextBefore(a: string, b: string) {
    b != [] && (a == [] || a[0] < b[0] || (a[0] == b[0] && TextBefore(a[1..], b[1..])))
  }

  predicate Before(a: Bucket, b: Bucket) { TextBefore(a.tenant, b.tenant) || (a.tenant == b.tenant && a.day < b.day) }

  /** The directory walk lists every file once, tenant by tenant and day by day. */
  ghost predicate IsListing(listing: seq<Bucket>, es: seq<Event>) {
    && (forall b :: b in listing <==> exists i :: 0 <= i < |es| && BucketOf(es[i]) == b)
    && (forall i, j :: 0 <= i < j < |listing| ==> Before(listing[i], listing[j]))
  }

  /** A tenant's timestamps never decrease in append order. */
  predicate Nondecreasing(es: seq<Event>, tenant: string) {
    forall i, j :: 0 <= i < j < |es| && es[i].tenantId == es[j].tenantId == tenant
      ==> es[i].timestamp <= es[j].timestamp
  }

  /** Matching events of some buckets, in append order. */
  function MatchingIn(es: seq<Event>, f: Filter, bs: seq<Bucket>): seq<Event> {
    if es == [] then []
    else
      var earlier, last := MatchingIn(es[..|es| - 1], f, bs), es[|es| - 1];
      if Matches(last, f) && BucketOf(last) in bs then earlier + [last] else earlier
  }

  lemma NotBeforeItself(t: string)
    ensures !TextBefore(t, t)
  {
  }

  lemma DayOrder(a: int, b: int)
    ensures a <= b ==> a / DAY <= b / DAY
  {
  }

  /** A tenant's later file only holds later events, so it can be scanned last. */
  lemma {:induction false} LaterBucketComesLast(es: seq<Event>, f: Filter, bs: seq<Bucket>, b: Bucket)
    requires f.tenantId != "" && Nondecreasing(es, f.tenantId) && b !in bs
    requires b.tenant == f.tenantId ==> forall a <- bs :: a.tenant == b.tenant ==> a.day < b.day
    ensures MatchingIn(es, f, bs + [b]) == MatchingIn(es, f, bs) + Matching(InBucket(es, b), f)
  {
    if es != [] {
      var n := |es| - 1;
      LaterBucketComesLast(es[..n], f, bs, b);
      if Matches(es[n], f) && BucketOf(es[n]) in bs {
        NothingLater(es[..n], f, b, es[n]);
      } else if BucketOf(es[n]) == b {
        MatchingSnoc(InBucket(es[..n], b), es[n], f);
      }
    }
  }

  lemma MatchingSnoc(es: seq<Event>, e: Event, f: Filter)
    ensures Matching(es + [e], f) == if Matches(e, f) then Matching(es, f) + [e] else Matching(es, f)
  {
    assert (es + [e])[..|es|] == es;
  }

  /** No earlier event of the tenant sits in a later file. */
  lemma {:induction false} NothingLater(es: seq<Event>, f: Filter, b: Bucket, e: Event)
    requires Matches(e, f) && f.tenantId != "" && (b.tenant == f.tenantId ==> BucketOf(e).day < b.day)
    requires forall i :: 0 <= i < |es| && es[i].tenantId == f.tenantId ==> es[i].timestamp <= e.timestamp
    ensures Matching(InBucket(es, b), f) == []
  {
    if es != [] {
      var n := |es| - 1;
      NothingLater(es[..n], f, b, e);
      if BucketOf(es[n]) == b {
        MatchingSnoc(InBucket(es[..n], b), es[n], f);
        DayOrder(es[n].timestamp, e.timestamp);
      }
    }
  }

  lemma {:induction false} ScanIsMatchingIn(es: seq<Event>, listing: seq<Bucket>, f: Filter)
    requires f.tenantId != "" && Nondecreasing(es, f.tenantId)
    requires forall i, j :: 0 <= i < j < |listing| ==> Before(listing[i], listing[j])
    ensures Scan(es, listing, f) == MatchingIn(es, f, listing)
  {
    if listing == [] {
      NoBuckets(es, f);
    } else {
      var n := |listing| - 1;
      var b := listing[n];
      ScanIsMatchingIn(es, listing[..n], f);
      NotBeforeItself(b.tenant);
      forall a | a in listing[..n] ensures Before(a, b) {
      }
      LaterBucketComesLast(es, f, listing[..n], b);
      assert listing == listing[..n] + [b];
    }
  }

  lemma {:induction false} NoBuckets(es: seq<Event>, f: Filter)
    ensures MatchingIn(es, f, []) == []
  {
    if es != [] {
      NoBuckets(es[..|es| - 1], f);
    }
  }

  lemma {:induction false} AllBuckets(es: seq<Event>, f: Filter, bs: seq<Bucket>)
    requires forall i :: 0 <= i < |es| ==> BucketOf(es[i]) in bs
    ensures MatchingIn(es, f, bs) == Matching(es, f)
  {
    if es != [] {
      AllBuckets(es[..|es| - 1], f, bs);
    }
  }

  /** For a filter that names a tenant whose timestamps never decrease, scanning the files in bucket
      order finds the matching events in the order they were appended. */
  lemma ScanIsMatching(es: seq<Event>, listing: seq<Bucket>, f: Filter)
    requires f.tenantId != "" && Nondecreasing(es, f.tenantId) && IsListing(listing, es)
    ensures Scan(es, listing, f) == Matching(es, f)
  {
    ScanIsMatchingIn(es, listing, f);
    AllBuckets(es, f, listing);
  }

  // ---------------------------------------------------------------- tailing

  /** One poll of a stream: how much had been appended, the listing it saw, and how many results it
      delivered (none when the query failed, not all when the stream was cancelled). */
  datatype Poll = Poll(appended: nat, listing: seq<Bucket>, delivered: nat)

  datatype Tail = Tail(lastSeen: int, emitted: seq<Event>)

  /** The filter of the next poll: after the last event seen, once there is one. */
  function NextFilter(f: Filter, t: Tail): Filter { if t.lastSeen != 0 then f.(after := t.lastSeen) else f }

  function Deliver(t: Tail, results: seq<Event>, delivered: nat): Tail {
    if delivered == 0 || results == [] then t
    else
      var sent := if delivered < |results| then results[..delivered] else results;
      Tail(sent[|sent| - 1].timestamp, t.emitted + sent)
  }

  function Step(f: Filter, es: seq<Event>, t: Tail, p: Poll): Tail
    requires p.appended <= |es|
  {
    Deliver(t, Query(es[..p.appended], p.listing, NextFilter(f, t)), p.delivered)
  }

  function Run(f: Filter, es: seq<Event>, polls: seq<Poll>): Tail
    requires forall p <- polls :: p.appended <= |es|
  {
    if polls == [] then Tail(0, []) else Step(f, es, Run(f, es, polls[..|polls| - 1]), polls[|polls| - 1])
  }

  predicate InRange(es: seq<Event>, polls: seq<Poll>) { forall p <- polls :: p.appended <= |es| }

  /** The matching events the last of the polls could see, in append order. */
  function Seen(f: Filter, es: seq<Event>, polls: seq<Poll>): seq<Event>
    requires InRange(es, polls)
  {
    if polls == [] then [] else Matching(es[..polls[|polls| - 1].appended], f)
  }

  /** The store only grows between polls, and each poll sees all of it. */
  ghost predicate Growing(es: seq<Event>, polls: seq<Poll>) {
    && (forall p <- polls :: p.appended <= |es| && IsListing(p.listing, es[..p.appended]))
    && (forall i, j :: 0 <= i < j < |polls| ==> polls[i].appended <= polls[j].appended)
  }

  predicate Increasing(es: seq<Event>, tenant: string) {
    forall i, j :: 0 <= i < j < |es| && es[i].tenantId == es[j].tenantId == tenant ==> es[i].timestamp < es[j].timestamp
  }

  predicate Positive(es: seq<Event>, tenant: string) {
    forall i :: 0 <= i < |es| && es[i].tenantId == tenant ==> es[i].timestamp > 0
  }

  /** The events later than a time. */
  function Later(es: seq<Event>, x: int): seq<Event> {
    if es == [] then []
    else
      var earlier, last := Later(es[..|es| - 1], x), es[|es| - 1];
      if last.timestamp > x then earlier + [last] else earlier
  }

  lemma {:induction false} AfterKeepsLater(es: seq<Event>, f: Filter, x: int)
    requires x != 0 && (f.after == 0 || f.after <= x)
    ensures Matching(es, f.(after := x)) == Later(Matching(es, f), x)
  {
    if es != [] {
      var n := |es| - 1;
      AfterKeepsLater(es[..n], f, x);
      assert Matches(es[n], f.(after := x)) <==> Matches(es[n], f) && es[n].timestamp > x;
      LaterSnoc(Matching(es[..n], f), es[n], x);
      hide Matches, Later;
    }
  }

  lemma LaterSnoc(es: seq<Event>, e: Event, x: int)
    ensures Later(es + [e], x) == if e.timestamp > x then Later(es, x) + [e] else Later(es, x)
  {
    assert (es + [e])[..|es|] == es;
  }

  lemma {:induction false} LaterIsSuffix(es: seq<Event>, j: nat, x: int)
    requires j <= |es|
    requires forall i :: 0 <= i < j ==> es[i].timestamp <= x
    requires forall i :: j <= i < |es| ==> es[i].timestamp > x
    ensures Later(es, x) == es[j..]
  {
    if es != [] {
      var n := |es| - 1;
      if j == |es| {
        LaterIsSuffix(es[..n], n, x);
      } else {
        LaterIsSuffix(es[..n], j, x);
        assert es[j..] == es[..n][j..] + [es[n]];
      }
    }
  }

  /** Appending only extends what matches. */
  lemma {:induction false} MatchingGrows(es: seq<Event>, m: nat, n: nat, f: Filter)
    requires m <= n <= |es|
    ensures Matching(es[..m], f) <= Matching(es[..n], f)
  {
    if m < n {
      MatchingGrows(es, m, n - 1, f);
      assert es[..n][..n - 1] == es[..n - 1];
    }
  }

  /** What matches inherits the order of the tenant's timestamps. */
  lemma MatchingOrdered(es: seq<Event>, f: Filter)
    requires f.tenantId != ""
    ensures Nondecreasing(es, f.tenantId) ==> Sorted(Matching(es, f), false)
    ensures Increasing(es, f.tenantId) ==> Sorted(Matching(es, f), true)
  {
    if Nondecreasing(es, f.tenantId) {
      MatchingSorted(es, f, false);
    }
    if Increasing(es, f.tenantId) {
      MatchingSorted(es, f, true);
    }
  }

  predicate NotAfter(a: Event, b: Event, strict: bool) {
    if strict then a.timestamp < b.timestamp else a.timestamp <= b.timestamp
  }

  predicate Sorted(es: seq<Event>, strict: bool) {
    forall i, j :: 0 <= i < j < |es| ==> NotAfter(es[i], es[j], strict)
  }

  lemma {:induction false} MatchingSorted(es: seq<Event>, f: Filter, strict: bool)
    requires f.tenantId != ""
    requires forall i, j :: 0 <= i < j < |es| && es[i].tenantId == es[j].tenantId == f.tenantId
               ==> NotAfter(es[i], es[j], strict)
    ensures Sorted(Matching(es, f), strict)
  {
    hide NotAfter;
    if es != [] {
      var n := |es| - 1;
      MatchingSorted(es[..n], f, strict);
      if Matches(es[n], f) {
        MatchingIsOlder(es[..n], f, es[n], strict);
      }
    }
  }

  lemma {:induction false} MatchingIsOlder(es: seq<Event>, f: Filter, e: Event, strict: bool)
    requires f.tenantId != ""
    requires forall i :: 0 <= i < |es| && es[i].tenantId == f.tenantId ==> NotAfter(es[i], e, strict)
    ensures forall i :: 0 <= i < |Matching(es, f)| ==> NotAfter(Matching(es, f)[i], e, strict)
  {
    hide NotAfter;
    if es != [] {
      MatchingIsOlder(es[..|es| - 1], f, e, strict);
    }
  }

  // ---------------------------------------------------------------- exactly once

  /** What a poll finds when the stream has so far emitted the first `j` matching events and no two
      of them share a timestamp: the rest, up to the limit. */
  lemma PollFindsRest(es: seq<Event>, listing: seq<Bucket>, f: Filter, t: Tail, j: nat)
    requires f.tenantId != "" && Nondecreasing(es, f.tenantId) && IsListing(listing, es)
    requires j <= |Matching(es, f)|
    requires if j == 0 then t.lastSeen == 0 else t.lastSeen == Matching(es, f)[j - 1].timestamp != 0
    requires forall i :: j <= i < |Matching(es, f)| && j > 0 ==> Matching(es, f)[i].timestamp > t.lastSeen
    ensures Query(es, listing, NextFilter(f, t)) == First(f.limit, Matching(es, f)[j..])
  {
    hide Matching, Scan, IsListing, Nondecreasing, Later, Matches, First;
    var m := Matching(es, f);
    ScanIsMatching(es, listing, NextFilter(f, t));
    if j > 0 {
      MatchingOrdered(es, f);
      MatchedIsAfter(es, f, j - 1);
      AfterKeepsLater(es, f, t.lastSeen);
      LaterIsSuffix(m, j, t.lastSeen);
    }
  }

  lemma MatchedIsAfter(es: seq<Event>, f: Filter, i: nat)
    requires i < |Matching(es, f)|
    ensures f.after == 0 || f.after < Matching(es, f)[i].timestamp
  {
    MatchingIsAfter(es, f);
    hide Matching;
  }

  lemma {:induction false} MatchingIsAfter(es: seq<Event>, f: Filter)
    ensures forall i :: 0 <= i < |Matching(es, f)| ==> Matches(Matching(es, f)[i], f) && Matching(es, f)[i] in es
  {
    if es != [] {
      MatchingIsAfter(es[..|es| - 1], f);
    }
  }

  /** The stream's position: it has emitted a prefix of what matches and remembers its last time. */
  predicate At(t: Tail, m: seq<Event>) {
    && t.emitted <= m
    && t.lastSeen == if t.emitted == [] then 0 else t.emitted[|t.emitted| - 1].timestamp
  }

  function Minimum(a: int, b: int): int { if a <= b then a else b }

  /** How far the stream is after a poll that delivers up to `delivered` results. */
  function Reach(limit: int, had: int, total: int, delivered: int): int {
    had + Minimum(delivered, if limit > 0 then Minimum(limit, total - had) else total - had)
  }

  lemma DeliverAdvances(t: Tail, m: seq<Event>, limit: int, delivered: nat)
    requires At(t, m)
    ensures var t' := Deliver(t, First(limit, m[|t.emitted|..]), delivered);
      At(t', m) && |t'.emitted| == Reach(limit, |t.emitted|, |m|, delivered)
  {
    var results := First(limit, m[|t.emitted|..]);
    var t' := Deliver(t, results, delivered);
    assert t'.emitted == m[..|t'.emitted|];
  }

  lemma PollAdvances(f: Filter, seen: seq<Event>, listing: seq<Bucket>, t: Tail, delivered: nat)
    requires f.tenantId != "" && Increasing(seen, f.tenantId) && Positive(seen, f.tenantId) && IsListing(listing, seen)
    requires At(t, Matching(seen, f))
    ensures var t' := Deliver(t, Query(seen, listing, NextFilter(f, t)), delivered);
      && At(t', Matching(seen, f))
      && |t'.emitted| == Reach(f.limit, |t.emitted|, |Matching(seen, f)|, delivered)
  {
    RestIsLater(seen, f, |t.emitted|);
    PollFindsRest(seen, listing, f, t, |t.emitted|);
    DeliverAdvances(t, Matching(seen, f), f.limit, delivered);
  }

  lemma StillAt(f: Filter, es: seq<Event>, t: Tail, m: nat, n: nat)
    requires m <= n <= |es| && At(t, Matching(es[..m], f))
    ensures At(t, Matching(es[..n], f))
  {
    MatchingGrows(es, m, n, f);
  }

  /** Tailing is exactly once. For a filter naming a tenant whose timestamps strictly increase, after
      any polls the stream has emitted a prefix of the matching events, with no gap or repeat, for
      any limit and however much of each poll was delivered; every poll reaches as far as it can. */
  lemma {:induction false} TailIsPrefix(f: Filter, es: seq<Event>, polls: seq<Poll>)
    requires f.tenantId != "" && Increasing(es, f.tenantId) && Positive(es, f.tenantId) && Growing(es, polls)
    ensures polls != [] ==>
      var last := polls[|polls| - 1];
      var m := Matching(es[..last.appended], f);
      && At(Run(f, es, polls), m)
      && |Run(f, es, polls).emitted|
         == Reach(f.limit, |Run(f, es, polls[..|polls| - 1]).emitted|, |m|, last.delivered)
  {
    if polls != [] {
      var init, last := polls[..|polls| - 1], polls[|polls| - 1];
      hide At, Matching, Deliver, Query, IsListing, NextFilter, Reach;
      TailIsPrefix(f, es, init);
      if init == [] {
        StartsAt(Matching(es[..last.appended], f));
      } else {
        StillAt(f, es, Run(f, es, init), init[|init| - 1].appended, last.appended);
      }
      PollAdvances(f, es[..last.appended], last.listing, Run(f, es, init), last.delivered);
    }
  }

  lemma StartsAt(m: seq<Event>)
    ensures At(Tail(0, []), m)
  {
  }

  lemma RestIsLater(es: seq<Event>, f: Filter, j: nat)
    requires f.tenantId != "" && Increasing(es, f.tenantId) && Positive(es, f.tenantId) && j <= |Matching(es, f)|
    ensures Nondecreasing(es, f.tenantId)
    ensures j > 0 ==> Matching(es, f)[j - 1].timestamp != 0
    ensures forall i :: j <= i < |Matching(es, f)| && j > 0
              ==> Matching(es, f)[i].timestamp > Matching(es, f)[j - 1].timestamp
  {
    MatchingOrdered(es, f);
    MatchingIsAfter(es, f);
    if j > 0 {
      var e := Matching(es, f)[j - 1];
      assert Matches(e, f) && e in es;
    }
    assert Sorted(Matching(es, f), true);
    hide Increasing, Matching;
    assert forall i :: j <= i < |Matching(es, f)| && j > 0
             ==> NotAfter(Matching(es, f)[j - 1], Matching(es, f)[i], true);
  }

  /** Without a limit, every complete poll leaves nothing behind. */
  lemma TailIsComplete(f: Filter, es: seq<Event>, polls: seq<Poll>)
    requires f.tenantId != "" && Increasing(es, f.tenantId) && Positive(es, f.tenantId) && Growing(es, polls)
    requires f.limit <= 0 && polls != []
    requires polls[|polls| - 1].delivered >= |Matching(es[..polls[|polls| - 1].appended], f)|
    ensures Run(f, es, polls).emitted == Matching(es[..polls[|polls| - 1].appended], f)
  {
    TailIsPrefix(f, es, polls);
  }
}
