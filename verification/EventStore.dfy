/** The JSONL event store and its polling stream as objects (internal/eventstore/jsonl.go). */
module EventStore {
  import opened Events
  import opened Tailing

  /** Control characters, and the white space `strings.TrimSpace` removes. */
  predicate IsControl(ch: char) { ch < ' ' || '\U{7F}' <= ch <= '\U{9F}' }

  predicate IsSpace(ch: char) {
    || '\t' <= ch <= '\r' || ch == ' ' || ch == '\U{85}' || ch == '\U{A0}' || ch == '\U{1680}'
    || '\U{2000}' <= ch <= '\U{200A}' || ch == '\U{2028}' || ch == '\U{2029}' || ch == '\U{202F}'
    || ch == '\U{205F}' || ch == '\U{3000}'
  }

  /** A tenant name that is safe as a directory name. */
  predicate ValidTenant(id: string) {
    && id != "" && id != "." && id != ".."
    && '/' !in id && '\\' !in id && ':' !in id
    && !IsSpace(id[0]) && !IsSpace(id[|id| - 1])
    && forall ch <- id :: !IsControl(ch)
  }

  /** Codes that may not appear in a tenant name: control characters, a slash, a backslash, a colon. */
  predicate Forbidden(code: int) { code < 32 || 127 <= code < 160 || code == 47 || code == 92 || code == 58 }

  /** The codes of Unicode's white space. */
  predicate Blank(code: int) {
    || 9 <= code < 14 || code in {32, 133, 160, 5760, 8232, 8233, 8239, 8287, 12288} || 8192 <= code < 8203
  }

  /** A tenant is refused exactly when its name is empty, one or two dots, starts or ends with white
      space, or holds a forbidden character. */
  lemma TenantRefusedIff(id: string)
    ensures !ValidTenant(id) <==>
      || id == "" || id == "." || id == ".." || Blank(id[0] as int) || Blank(id[|id| - 1] as int)
      || exists i :: 0 <= i < |id| && Forbidden(id[i] as int)
  {
    forall ch: char ensures IsControl(ch) || ch == '/' || ch == '\\' || ch == ':' <==> Forbidden(ch as int) {
      Codes(ch);
    }
    forall ch: char ensures IsSpace(ch) <==> Blank(ch as int) {
      Codes(ch);
    }
    hide IsSpace, IsControl, Blank, Forbidden;
    if ch :| ch in id && Forbidden(ch as int) {
      var i :| 0 <= i < |id| && id[i] == ch;
      assert Forbidden(id[i] as int);
    }
    if i :| 0 <= i < |id| && Forbidden(id[i] as int) {
      assert id[i] in id;
    }
  }

  lemma Codes(ch: char)
    ensures (IsControl(ch) || ch == '/' || ch == '\\' || ch == ':' <==> Forbidden(ch as int))
    ensures IsSpace(ch) <==> Blank(ch as int)
  {
    var code := ch as int;
    assert code as char == ch;
  }

  method MatchesFilter(e: Event, f: Filter) returns (matched: bool)
    ensures matched <==> Matches(e, f)
  {
    if f.sessionId != "" && e.sessionId != f.sessionId { return false; }
    if f.agentId != "" && e.agentId != f.agentId { return false; }
    if f.tenantId != "" && e.tenantId != f.tenantId { return false; }
    if f.after != 0 && !(e.timestamp > f.after) { return false; }
    if f.before != 0 && !(e.timestamp < f.before) { return false; }
    if |f.types| > 0 {
      for i := 0 to |f.types|
        invariant e.kind !in f.types[..i]
      {
        if e.kind == f.types[i] {
          return true;
        }
      }
      return false;
    }
    return true;
  }

  /** Scanning more files only adds to what was found. */
  lemma {:induction false} ScanExtends(es: seq<Event>, listing: seq<Bucket>, i: nat, f: Filter)
    requires i <= |listing|
    ensures Scan(es, listing[..i], f) <= Scan(es, listing, f)
  {
    if i < |listing| {
      var n := |listing| - 1;
      ScanExtends(es, listing[..n], i, f);
      assert listing[..n][..i] == listing[..i];
    } else {
      assert listing[..i] == listing;
    }
  }

  function BucketsOf(es: seq<Event>): set<Bucket> { set e | e in es :: BucketOf(e) }

  /** The files hold exactly these events, each in its own bucket and in order. */
  predicate Holds(files: map<Bucket, seq<Event>>, es: seq<Event>) {
    files.Keys == BucketsOf(es) && forall b <- files :: files[b] == InBucket(es, b)
  }

  lemma AppendHolds(files: map<Bucket, seq<Event>>, es: seq<Event>, e: Event)
    requires Holds(files, es)
    ensures Holds(files[BucketOf(e) := (if BucketOf(e) in files then files[BucketOf(e)] else []) + [e]], es + [e])
  {
    NoFileNoEvents(es, BucketOf(e));
    assert BucketsOf(es + [e]) == BucketsOf(es) + {BucketOf(e)};
    assert (es + [e])[..|es|] == es;
    hide BucketsOf, BucketOf;
  }

  lemma {:induction false} NoFileNoEvents(es: seq<Event>, b: Bucket)
    ensures b !in BucketsOf(es) ==> InBucket(es, b) == []
  {
    if es != [] {
      NoFileNoEvents(es[..|es| - 1], b);
      assert es == es[..|es| - 1] + [es[|es| - 1]];
    }
  }

  class JSONLStore {
    var files: map<Bucket, seq<Event>>
    ghost var appended: seq<Event>

    ghost predicate Valid() reads this {
      Holds(files, appended) && forall e <- appended :: ValidTenant(e.tenantId)
    }

    constructor ()
      ensures Valid() && appended == []
    {
      files, appended := map[], [];
    }

    /** Appends an event to its file and returns where it went; an unsafe tenant is refused. */
    method Append(event: Event) returns (id: Option<(Bucket, string)>)
      requires Valid()
      modifies this
      ensures Valid()
      ensures if ValidTenant(event.tenantId)
              then id == Some((BucketOf(event), event.id)) && appended == old(appended) + [event]
              else id == None && appended == old(appended) && files == old(files)
    {
      if !ValidTenant(event.tenantId) {
        return None;
      }
      var bucket := BucketOf(event);
      var content := if bucket in files then files[bucket] else [];
      AppendHolds(files, appended, event);
      hide Holds;
      files := files[bucket := content + [event]];
      appended := appended + [event];
      return Some((bucket, event.id));
    }

    /** The matching events of one file. */
    method ScanFile(b: Bucket, f: Filter) returns (results: seq<Event>)
      requires Valid() && b in files
      ensures results == Matching(InBucket(appended, b), f)
    {
      results := [];
      var lines := files[b];
      for i := 0 to |lines|
        invariant results == Matching(lines[..i], f)
      {
        assert lines[..i + 1] == lines[..i] + [lines[i]];
        MatchingSnoc(lines[..i], lines[i], f);
        var matched := MatchesFilter(lines[i], f);
        if matched {
          results := results + [lines[i]];
        }
      }
      assert lines[..|lines|] == lines;
    }

    /** Scans the files in the order of the walk, until the limit is reached. */
    method Query(f: Filter, listing: seq<Bucket>) returns (results: seq<Event>)
      requires Valid() && IsListing(listing, appended)
      ensures results == Tailing.Query(appended, listing, f)
    {
      hide Matching, InBucket;
      results := [];
      for i := 0 to |listing|
        invariant results == Scan(appended, listing[..i], f)
        invariant i > 0 && f.limit > 0 ==> |results| < f.limit
      {
        assert listing[i] in listing && listing[i] in BucketsOf(appended);
        var found := ScanFile(listing[i], f);
        results := results + found;
        assert listing[..i + 1][..i] == listing[..i];
        if f.limit > 0 && |results| >= f.limit {
          ScanExtends(appended, listing, i + 1, f);
          return results[..f.limit];
        }
      }
      assert listing[..|listing|] == listing;
    }
  }

  /** A stream that tails the store by polling it. */
  class Stream {
    const filter: Filter
    var lastSeen: int
    var emitted: seq<Event>

    ghost function State(): Tail reads this { Tail(lastSeen, emitted) }

    constructor (filter: Filter)
      ensures this.filter == filter && State() == Tail(0, [])
    {
      this.filter, lastSeen, emitted := filter, 0, [];
    }

    /** One tick: queries what is new and sends it on, at most `delivered` results before the stream
        is cancelled. */
    method PollEvents(store: JSONLStore, listing: seq<Bucket>, delivered: nat)
      requires store.Valid() && IsListing(listing, store.appended)
      modifies this
      ensures State() == Deliver(old(State()),
                                 Tailing.Query(store.appended, listing, NextFilter(filter, old(State()))), delivered)
    {
      hide IsListing, Tailing.Query;
      var f := filter;
      if lastSeen != 0 {
        f := f.(after := lastSeen);
      }
      var events := store.Query(f, listing);
      ghost var sent := emitted;
      var i := 0;
      while i < |events| && i < delivered
        invariant 0 <= i <= |events| && i <= delivered
        invariant emitted == sent + events[..i]
        invariant lastSeen == if i == 0 then old(lastSeen) else events[i - 1].timestamp
      {
        emitted := emitted + [events[i]];
        lastSeen := events[i].timestamp;
        i := i + 1;
      }
      assert events[..|events|] == events;
    }
  }
}
