/** What a query of the event store returns (internal/eventstore/jsonl.go), in terms of the events
    stored. */
module Querying {
  import opened Events
  import opened Tailing
  import opened TailAllTenants

  /** A query without a limit returns exactly the stored events of the session, agent and tenant asked
      for, later and earlier than the times given and of one of the types, each once; what is left
      empty, and a time of zero, excludes nothing. */
  lemma QueryFinds(es: seq<Event>, listing: seq<Bucket>, f: Filter, e: Event)
    requires IsListing(listing, es) && f.limit <= 0
    ensures var wanted :=
        && f.sessionId in {"", e.sessionId} && f.agentId in {"", e.agentId} && f.tenantId in {"", e.tenantId}
        && (f.after != 0 ==> f.after < e.timestamp) && (f.before != 0 ==> e.timestamp < f.before)
        && (f.types != [] ==> exists i :: 0 <= i < |f.types| && f.types[i] == e.kind);
      multiset(Query(es, listing, f))[e] == if wanted then multiset(es)[e] else 0
  {
    ListingIsDistinct(listing, es);
    ScanIsPermutation(es, listing, f);
    MatchingCount(es, f, e);
    hide Scan, Matching, IsListing;
    assert e.kind in f.types <==> exists i :: 0 <= i < |f.types| && f.types[i] == e.kind;
  }

  lemma {:induction false} MatchingCount(es: seq<Event>, f: Filter, e: Event)
    ensures multiset(Matching(es, f))[e] == if Matches(e, f) then multiset(es)[e] else 0
  {
    if es != [] {
      MatchingCount(es[..|es| - 1], f, e);
      assert es == es[..|es| - 1] + [es[|es| - 1]];
    }
  }

  /** With a limit it returns the first of these, up to the limit. */
  lemma QueryIsFirst(es: seq<Event>, listing: seq<Bucket>, f: Filter, limit: int)
    requires 0 < limit && f.limit <= 0
    ensures var all := Query(es, listing, f);
      Query(es, listing, f.(limit := limit)) == if |all| <= limit then all else all[..limit]
  {
    LimitDoesNotFilter(es, listing, f, limit);
    hide Scan;
  }

  lemma {:induction false} LimitDoesNotFilter(es: seq<Event>, listing: seq<Bucket>, f: Filter, limit: int)
    ensures Scan(es, listing, f.(limit := limit)) == Scan(es, listing, f)
  {
    if listing != [] {
      LimitDoesNotFilter(es, listing[..|listing| - 1], f, limit);
      SameMatching(InBucket(es, listing[|listing| - 1]), f, limit);
    }
  }

  lemma {:induction false} SameMatching(es: seq<Event>, f: Filter, limit: int)
    ensures Matching(es, f.(limit := limit)) == Matching(es, f)
  {
    if es != [] {
      SameMatching(es[..|es| - 1], f, limit);
    }
  }

  /** Events share a file when they are of one tenant and one day of 24 hours. */
  lemma SameFileIff(e: Event, e': Event)
    ensures BucketOf(e) == BucketOf(e') <==>
      e.tenantId == e'.tenantId && e.timestamp / (24 * 3_600_000_000_000) == e'.timestamp / (24 * 3_600_000_000_000)
  {
  }

  /** Files are listed tenant by tenant in the order of their names, and day by day. */
  lemma {:induction false} TextBeforeIff(a: string, b: string)
    ensures TextBefore(a, b) <==> exists k: nat :: FirstDifference(a, b, k)
  {
    SameHeads(a, b);
    if a != [] && b != [] && a[0] == b[0] {
      TextBeforeIff(a[1..], b[1..]);
      if k: nat :| FirstDifference(a[1..], b[1..], k) {
        assert a[..k + 1] == [a[0]] + a[1..][..k] && b[..k + 1] == [b[0]] + b[1..][..k];
        assert FirstDifference(a, b, k + 1);
      }
      if k: nat :| FirstDifference(a, b, k) {
        assert k > 0 by { assert a[..k] == b[..k]; }
        assert a[1..][..k - 1] == a[..k][1..] && b[1..][..k - 1] == b[..k][1..];
        assert FirstDifference(a[1..], b[1..], k - 1);
      }
    } else if b != [] && (a == [] || a[0] < b[0]) {
      assert FirstDifference(a, b, 0);
    }
  }

  lemma SameHeads(a: string, b: string)
    ensures forall k: nat :: 0 < k && FirstDifference(a, b, k) ==> a != [] && b != [] && a[0] == b[0]
  {
    forall k: nat | 0 < k && FirstDifference(a, b, k) ensures a != [] && b != [] && a[0] == b[0] {
      assert a[..k][0] == b[..k][0];
    }
  }

  /** The texts agree up to `k`, where the first one ends or has the smaller character. */
  predicate FirstDifference(a: string, b: string, k: nat) {
    k <= |a| && k < |b| && a[..k] == b[..k] && (k == |a| || a[k] < b[k])
  }
}
