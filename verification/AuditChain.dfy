/** The hash-chained audit log as data: what its lines hold, what verification says about
    them, and how they grow (internal/audit/hashchain.go, internal/audit/sink.go). */
module AuditChain {
  import opened Events

  const GENESIS: string := Zeros(64)

  function Zeros(n: nat): (s: string)
    ensures |s| == n && forall ch <- s :: ch == '0'
  {
    if n == 0 then "" else Zeros(n - 1) + "0"
  }

  /** A line must fit the scanner's buffer together with its newline. */
  const LINE_LIMIT: nat := 262144

  datatype Entry = Entry(
    timestamp: int, action: string, outcome: string, actorId: string, resource: string, detail: string,
    sourceIp: string, correlationId: string, labels: map<string, string>,
    previousHash: string, entryHash: string, sequenceNum: int)

  /** The parts of the system the log is built on: the hash, the rendering of a timestamp, the length
      of an entry's line, and what an entry's own fields are read back as from its line. Text that is
      not valid UTF-8, for one, is read back with replacement characters. */
  datatype Codec = Codec(hash: string -> string, time: int -> string, size: Entry -> nat, readBack: Entry -> Entry)

  /** What is assumed of the hash: it is injective, never yields genesis, and yields hex digits. */
  ghost predicate Lawful(c: Codec) {
    && (forall x, y :: c.hash(x) == c.hash(y) ==> x == y)
    && (forall x :: c.hash(x) != GENESIS && NoBar(c.hash(x)))
  }

  predicate NoBar(s: string) { '|' !in s }

  // ---------------------------------------------------------------- what is hashed

  function Digits(n: nat): string {
    if n < 10 then [('0' as int + n) as char] else Digits(n / 10) + [('0' as int + n % 10) as char]
  }

  function Decimal(n: int): string {
    if n < 0 then "-" + Digits(-n) else Digits(n)
  }

  /** The hashed text: eight fields separated by bars. */
  function Preimage(c: Codec, e: Entry): string {
    Decimal(e.sequenceNum) + "|" + (e.previousHash + "|" + Content(c, e))
  }

  function Content(c: Codec, e: Entry): string {
    c.time(e.timestamp) + "|" + (e.action + "|" + (e.outcome + "|" + (e.actorId + "|" + (e.resource + "|" + e.detail))))
  }

  function ComputeHash(c: Codec, e: Entry): string { c.hash(Preimage(c, e)) }

  lemma {:induction false} DigitsAreDigits(n: nat)
    ensures Digits(n) != [] && forall ch <- Digits(n) :: '0' <= ch <= '9'
  {
    if n >= 10 {
      DigitsAreDigits(n / 10);
    }
  }

  lemma {:induction false} DigitsInjective(m: nat, n: nat)
    requires Digits(m) == Digits(n)
    ensures m == n
  {
    DigitsAreDigits(m / 10);
    DigitsAreDigits(n / 10);
    var dm, dn := Digits(m), Digits(n);
    assert dm[|dm| - 1] == dn[|dn| - 1];
    if m >= 10 && n >= 10 {
      assert dm[..|dm| - 1] == Digits(m / 10) && dn[..|dn| - 1] == Digits(n / 10);
      DigitsInjective(m / 10, n / 10);
    }
  }

  lemma DecimalInjective(m: int, n: int)
    requires Decimal(m) == Decimal(n)
    ensures m == n
  {
    DecimalSign(m);
    DecimalSign(n);
    if m < 0 {
      assert Decimal(m)[1..] == Digits(-m) && Decimal(n)[1..] == Digits(-n);
      DigitsInjective(-m, -n);
    } else {
      DigitsInjective(m, n);
    }
  }

  lemma DecimalSign(n: int)
    ensures Decimal(n) != [] && (Decimal(n)[0] == '-' <==> n < 0)
  {
    DigitsAreDigits(if n < 0 then -n else n);
    assert n >= 0 ==> Decimal(n)[0] in Digits(n);
  }

  lemma DecimalHasNoBar(n: int)
    ensures NoBar(Decimal(n))
  {
    DigitsAreDigits(if n < 0 then -n else n);
  }

  /** The text up to the first bar is determined, and so is the rest. */
  lemma SplitAtBar(a: string, x: string, b: string, y: string)
    requires NoBar(a) && NoBar(b) && a + "|" + x == b + "|" + y
    ensures a == b && x == y
  {
    var l, r := a + "|" + x, b + "|" + y;
    assert l[|a|] == '|' && r[|b|] == '|';
    assert forall i :: 0 <= i < |a| ==> l[i] == a[i];
    assert forall i :: 0 <= i < |b| ==> r[i] == b[i];
    assert |a| == |b|;
    assert l[..|a|] == a && r[..|a|] == b;
    assert l[|a| + 1..] == x && r[|a| + 1..] == y;
  }

  lemma PreimageSeq(c: Codec, e: Entry, e': Entry)
    requires Preimage(c, e) == Preimage(c, e')
    ensures e.sequenceNum == e'.sequenceNum
    ensures e.previousHash + "|" + Content(c, e) == e'.previousHash + "|" + Content(c, e')
  {
    DecimalHasNoBar(e.sequenceNum);
    DecimalHasNoBar(e'.sequenceNum);
    hide Decimal, Content;
    SplitAtBar(Decimal(e.sequenceNum), e.previousHash + "|" + Content(c, e),
               Decimal(e'.sequenceNum), e'.previousHash + "|" + Content(c, e'));
    DecimalInjective(e.sequenceNum, e'.sequenceNum);
  }

  /** Sequence number and previous hash can always be read back from the hashed text. */
  lemma PreimageHead(c: Codec, e: Entry, e': Entry)
    requires Preimage(c, e) == Preimage(c, e') && NoBar(e.previousHash) && NoBar(e'.previousHash)
    ensures e.sequenceNum == e'.sequenceNum && e.previousHash == e'.previousHash && Content(c, e) == Content(c, e')
  {
    hide Content;
    PreimageSeq(c, e, e');
    SplitAtBar(e.previousHash, Content(c, e), e'.previousHash, Content(c, e'));
  }

  /** The fields before the detail contain no bar. */
  predicate Separable(c: Codec, e: Entry) {
    && NoBar(e.previousHash) && NoBar(c.time(e.timestamp)) && NoBar(e.action) && NoBar(e.outcome)
    && NoBar(e.actorId) && NoBar(e.resource)
  }

  /** When those fields contain no bar, the hashed text determines every hashed field. */
  lemma PreimageFields(c: Codec, e: Entry, e': Entry)
    requires Preimage(c, e) == Preimage(c, e') && Separable(c, e) && Separable(c, e')
    ensures e.sequenceNum == e'.sequenceNum && e.previousHash == e'.previousHash
      && c.time(e.timestamp) == c.time(e'.timestamp)
    ensures e.action == e'.action && e.outcome == e'.outcome && e.actorId == e'.actorId
    ensures e.resource == e'.resource && e.detail == e'.detail
  {
    hide NoBar;
    PreimageHead(c, e, e');
    var f, f' := e.resource + "|" + e.detail, e'.resource + "|" + e'.detail;
    var g, g' := e.actorId + "|" + f, e'.actorId + "|" + f';
    var h, h' := e.outcome + "|" + g, e'.outcome + "|" + g';
    var i, i' := e.action + "|" + h, e'.action + "|" + h';
    SplitAtBar(c.time(e.timestamp), i, c.time(e'.timestamp), i');
    SplitAtBar(e.action, h, e'.action, h');
    SplitAtBar(e.outcome, g, e'.outcome, g');
    SplitAtBar(e.actorId, f, e'.actorId, f');
    SplitAtBar(e.resource, e.detail, e'.resource, e'.detail);
  }

  // ---------------------------------------------------------------- verification

  /** A line of the file: its length, and the entry it parses to, if any. */
  datatype Line = Line(size: nat, entry: Option<Entry>)

  predicate Fits(l: Line) { l.size < LINE_LIMIT }

  datatype Verdict = Intact | Broken(seqNum: int) | Corrupt(after: int) | TooLong {
    /** The number reported with the verdict. */
    function Code(): int {
      match this
      case Intact => -1
      case Broken(n) => n
      case Corrupt(n) => n + 1
      case TooLong => -1
    }

    predicate IsError() { Corrupt? || TooLong? }
  }

  /** What the entry on line `i` must name as its predecessor's hash. */
  function HashBefore(lines: seq<Line>, i: nat): string
    requires i <= |lines|
  {
    if i == 0 || lines[i - 1].entry.None? then GENESIS else lines[i - 1].entry.value.entryHash
  }

  function SeqBefore(lines: seq<Line>, i: nat): int
    requires i <= |lines|
  {
    if i == 0 || lines[i - 1].entry.None? then 0 else lines[i - 1].entry.value.sequenceNum
  }

  /** Line `i` can be read, and unless its entry lies before `from` its link and hash check. */
  predicate Sound(c: Codec, lines: seq<Line>, from: int, i: nat)
    requires i < |lines|
  {
    && Fits(lines[i]) && lines[i].entry.Some?
    && var e := lines[i].entry.value;
       e.sequenceNum < from || (e.previousHash == HashBefore(lines, i) && e.entryHash == ComputeHash(c, e))
  }

  /** The first line from `i` on that does not check. */
  function FirstUnsound(c: Codec, lines: seq<Line>, from: int, i: nat): (k: nat)
    requires i <= |lines|
    ensures i <= k <= |lines|
    ensures forall j :: i <= j < k ==> Sound(c, lines, from, j)
    ensures k < |lines| ==> !Sound(c, lines, from, k)
    decreases |lines| - i
  {
    if i < |lines| && Sound(c, lines, from, i) then FirstUnsound(c, lines, from, i + 1) else i
  }

  /** The verdict the first line that does not check leads to. */
  function VerdictAt(c: Codec, lines: seq<Line>, k: nat): Verdict
    requires k <= |lines|
  {
    if k == |lines| then Intact
    else if !Fits(lines[k]) then TooLong
    else match lines[k].entry
         case None => Corrupt(SeqBefore(lines, k))
         case Some(e) => Broken(e.sequenceNum)
  }

  function Verify(c: Codec, lines: seq<Line>, from: int): Verdict {
    VerdictAt(c, lines, FirstUnsound(c, lines, from, 0))
  }

  /** The verdict is `Intact` exactly when every line checks. */
  lemma VerifyIntactIff(c: Codec, lines: seq<Line>, from: int)
    ensures Verify(c, lines, from) == Intact <==> forall i :: 0 <= i < |lines| ==> Sound(c, lines, from, i)
  {
    var k := FirstUnsound(c, lines, from, 0);
  }

  /** Otherwise it is that of the first line that does not. */
  lemma VerifyNamesFirst(c: Codec, lines: seq<Line>, from: int, k: nat)
    requires k < |lines| && !Sound(c, lines, from, k)
    requires forall j :: 0 <= j < k ==> Sound(c, lines, from, j)
    ensures Verify(c, lines, from) == VerdictAt(c, lines, k)
  {
    assert FirstUnsound(c, lines, from, 0) == k;
  }

  /** The reported number -1 without an error means an intact chain whenever the starting point is
      not negative. */
  lemma MinusOneMeansIntact(c: Codec, lines: seq<Line>, from: int)
    requires 0 <= from
    ensures (Verify(c, lines, from).Code() == -1 && !Verify(c, lines, from).IsError())
       <==> forall i :: 0 <= i < |lines| ==> Sound(c, lines, from, i)
  {
    VerifyIntactIff(c, lines, from);
  }

  /** From any negative starting point it need not: a broken entry numbered -1 is reported as -1. */
  lemma MinusOneCanMeanBroken(c: Codec, l: Line, from: int)
    requires from < 0 && Fits(l) && l.entry.Some?
    requires l.entry.value.sequenceNum == -1 && l.entry.value.previousHash != GENESIS
    ensures var v := Verify(c, [l], from);
      v.Code() == -1 && !v.IsError() && v != Intact
  {
    VerifyNamesFirst(c, [l], from, 0);
  }

  /** Whether the reported number can be trusted whatever the file holds. */
  ghost predicate MinusOneIsReliable(c: Codec, from: int) {
    forall lines :: Verify(c, lines, from).Code() == -1 && !Verify(c, lines, from).IsError() ==>
      Verify(c, lines, from) == Intact
  }

  /** So -1 without an error can be trusted exactly from the starting points that are not negative. */
  lemma MinusOneIsReliableIff(c: Codec, from: int)
    ensures MinusOneIsReliable(c, from) <==> 0 <= from
  {
    if 0 <= from {
      forall lines | Verify(c, lines, from).Code() == -1 && !Verify(c, lines, from).IsError()
        ensures Verify(c, lines, from) == Intact
      {
        MinusOneMeansIntact(c, lines, from);
        VerifyIntactIff(c, lines, from);
      }
    } else {
      var e := Entry(0, "", "", "", "", "", "", "", map[], "", "", -1);
      var l := Line(100, Some(e));
      MinusOneCanMeanBroken(c, l, from);
      assert Verify(c, [l], from).Code() == -1;
    }
  }

  // ---------------------------------------------------------------- the head binds the log

  function Head(lines: seq<Line>): string { HashBefore(lines, |lines|) }

  lemma IntactBefore(c: Codec, lines: seq<Line>, from: int)
    requires lines != [] && Verify(c, lines, from) == Intact
    ensures Verify(c, lines[..|lines| - 1], from) == Intact
  {
    VerifyIntactIff(c, lines, from);
    var init := lines[..|lines| - 1];
    forall i | 0 <= i < |init| ensures Sound(c, init, from, i) {
      assert Sound(c, lines, from, i);
    }
    VerifyIntactIff(c, init, from);
  }

  /** All entries are at or behind the starting point, so none is taken on trust. */
  predicate CoveredFrom(lines: seq<Line>, from: int) {
    forall i :: 0 <= i < |lines| ==> lines[i].entry.Some? ==> lines[i].entry.value.sequenceNum >= from
  }

  lemma CoveredBefore(lines: seq<Line>, from: int)
    requires lines != [] && CoveredFrom(lines, from)
    ensures CoveredFrom(lines[..|lines| - 1], from)
  {
  }

  /** What the last line of a verified log says. */
  lemma LastEntry(c: Codec, lines: seq<Line>, from: int) returns (e: Entry)
    requires lines != [] && Verify(c, lines, from) == Intact && CoveredFrom(lines, from)
    ensures lines[|lines| - 1].entry == Some(e)
    ensures e.previousHash == Head(lines[..|lines| - 1]) && Head(lines) == ComputeHash(c, e)
  {
    VerifyIntactIff(c, lines, from);
    assert Sound(c, lines, from, |lines| - 1);
    e := lines[|lines| - 1].entry.value;
  }

  lemma HeadHasNoBar(c: Codec, lines: seq<Line>, from: int)
    requires Lawful(c) && Verify(c, lines, from) == Intact && CoveredFrom(lines, from)
    ensures NoBar(Head(lines)) && (Head(lines) == GENESIS <==> lines == [])
  {
    if lines != [] {
      var e := LastEntry(c, lines, from);
    }
  }

  /** Both logs hold entries with the same hashed text at every position. */
  ghost predicate SamePreimages(c: Codec, a: seq<Line>, b: seq<Line>) {
    |a| == |b| && forall i :: 0 <= i < |a| ==>
      (a[i].entry.Some? && b[i].entry.Some? && Preimage(c, a[i].entry.value) == Preimage(c, b[i].entry.value))
  }

  /** The head binds the log: two logs that both verify from a point before all their entries and
      end in the same hash have the same length and the same hashed text at every position. */
  lemma {:induction false} HeadBindsLog(c: Codec, a: seq<Line>, b: seq<Line>, from: int)
    requires Lawful(c) && CoveredFrom(a, from) && CoveredFrom(b, from)
    requires Verify(c, a, from) == Intact && Verify(c, b, from) == Intact && Head(a) == Head(b)
    ensures SamePreimages(c, a, b)
  {
    hide Preimage, Verify, Head, CoveredFrom;
    HeadHasNoBar(c, a, from);
    HeadHasNoBar(c, b, from);
    if a != [] {
      CoveredBefore(a, from);
      CoveredBefore(b, from);
      var a', b' := a[..|a| - 1], b[..|b| - 1];
      var e := LastEntry(c, a, from);
      var f := LastEntry(c, b, from);
      IntactBefore(c, a, from);
      IntactBefore(c, b, from);
      HeadHasNoBar(c, a', from);
      HeadHasNoBar(c, b', from);
      PreimageHead(c, e, f);
      HeadBindsLog(c, a', b', from);
      SameSnoc(c, a, b);
    }
  }

  lemma SameSnoc(c: Codec, a: seq<Line>, b: seq<Line>)
    requires a != [] && b != [] && SamePreimages(c, a[..|a| - 1], b[..|b| - 1])
    requires a[|a| - 1].entry.Some? && b[|b| - 1].entry.Some?
    requires Preimage(c, a[|a| - 1].entry.value) == Preimage(c, b[|b| - 1].entry.value)
    ensures SamePreimages(c, a, b)
  {
    hide Preimage;
    var n := |a| - 1;
    forall i | 0 <= i < n
      ensures a[i].entry.Some? && b[i].entry.Some? && Preimage(c, a[i].entry.value) == Preimage(c, b[i].entry.value)
    {
      assert a[..n][i] == a[i] && b[..n][i] == b[i];
    }
  }

  // ---------------------------------------------------------------- logging and restarting

  /** The file, and what the sink remembers of the chain. */
  datatype Sink = Sink(lines: seq<Line>, previousHash: string, seqNum: int)

  const EMPTY := Sink([], GENESIS, 0)

  /** The entry as it is written: numbered, linked and hashed. */
  function Chained(c: Codec, s: Sink, e: Entry): Entry {
    var linked := e.(sequenceNum := s.seqNum + 1, previousHash := s.previousHash);
    linked.(entryHash := ComputeHash(c, linked))
  }

  /** What its line parses to: number and hashes are plain digits and survive. */
  function ReadBack(c: Codec, e: Entry, chained: Entry): Entry {
    c.readBack(e).(sequenceNum := chained.sequenceNum, previousHash := chained.previousHash,
                   entryHash := chained.entryHash)
  }

  /** The hashed fields are read back as they were hashed. */
  predicate Survives(c: Codec, e: Entry) { Content(c, c.readBack(e)) == Content(c, e) }

  function Log(c: Codec, s: Sink, e: Entry): Sink {
    var x := Chained(c, s, e);
    Sink(s.lines + [Line(c.size(x), Some(ReadBack(c, e, x)))], x.entryHash, x.sequenceNum)
  }

  /** A call that fails after hashing advances the sink without writing. */
  function LogFailed(c: Codec, s: Sink, e: Entry): Sink {
    var x := Chained(c, s, e);
    Sink(s.lines, x.entryHash, x.sequenceNum)
  }

  predicate AllFit(lines: seq<Line>) { forall l <- lines :: Fits(l) }

  /** The last entry that parses. */
  function LastParsed(lines: seq<Line>): Option<Entry> {
    if lines == [] then None
    else if lines[|lines| - 1].entry.Some? then lines[|lines| - 1].entry
    else LastParsed(lines[..|lines| - 1])
  }

  /** A sink opened on an existing file; too long a line makes that fail. */
  function Resume(lines: seq<Line>): Option<Sink> {
    if !AllFit(lines) then None
    else match LastParsed(lines)
         case None => Some(Sink(lines, GENESIS, 0))
         case Some(e) => Some(Sink(lines, e.entryHash, e.sequenceNum))
  }

  function RunLogs(c: Codec, es: seq<Entry>): Sink {
    if es == [] then EMPTY else Log(c, RunLogs(c, es[..|es| - 1]), es[|es| - 1])
  }

  /** The entry carries the hash of an entry with its number. */
  ghost predicate Stamped(c: Codec, e: Entry) {
    exists x :: e.entryHash == ComputeHash(c, x) && x.sequenceNum == e.sequenceNum
  }

  /** Line `i` holds entry `i + 1`, linked to the line before. */
  ghost predicate Linked(c: Codec, lines: seq<Line>, i: nat)
    requires i < |lines|
  {
    lines[i].entry.Some? &&
    var e := lines[i].entry.value;
    e.sequenceNum == i + 1 && e.previousHash == HashBefore(lines, i) && Stamped(c, e)
  }

  /** The line's entry carries its own hash. */
  predicate Hashed(c: Codec, l: Line) { l.entry.Some? && l.entry.value.entryHash == ComputeHash(c, l.entry.value) }

  /** The sink stands behind a file of linked lines. */
  ghost predicate Numbered(c: Codec, s: Sink) {
    && (forall i :: 0 <= i < |s.lines| ==> Linked(c, s.lines, i))
    && s.seqNum == |s.lines| && s.previousHash == Head(s.lines)
  }

  /** The file is an unbroken chain: its lines are linked and carry their own hashes. */
  ghost predicate Chain(c: Codec, s: Sink) { Numbered(c, s) && forall l <- s.lines :: Hashed(c, l) }

  /** A written entry is numbered and linked; it extends the chain exactly when its hashed fields
      survive being written. */
  lemma LogExtends(c: Codec, s: Sink, e: Entry)
    requires Numbered(c, s)
    ensures Numbered(c, Log(c, s, e))
    ensures Lawful(c) ==> (Hashed(c, Log(c, s, e).lines[|s.lines|]) <==> Survives(c, e))
    ensures Lawful(c) ==> (Chain(c, Log(c, s, e)) <==> Chain(c, s) && Survives(c, e))
  {
    LogNumbers(c, s, e);
    if Lawful(c) {
      HashedIffSurvives(c, s, e);
      hide Survives, Numbered, Hashed;
      var last := Log(c, s, e).lines[|s.lines|];
      assert Log(c, s, e).lines == s.lines + [last];
      assert forall l :: l in s.lines + [last] <==> l in s.lines || l == last;
    }
  }

  lemma LogNumbers(c: Codec, s: Sink, e: Entry)
    requires Numbered(c, s)
    ensures Numbered(c, Log(c, s, e))
  {
    ChainedHash(c, s, e);
    hide Preimage;
    var s', n := Log(c, s, e), |s.lines|;
    forall i | 0 <= i < n ensures Linked(c, s'.lines, i) {
      assert Linked(c, s.lines, i) && HashBefore(s'.lines, i) == HashBefore(s.lines, i);
    }
    assert HashBefore(s'.lines, n) == HashBefore(s.lines, n) && Linked(c, s'.lines, n);
  }

  lemma ChainedHash(c: Codec, s: Sink, e: Entry)
    ensures var x := Chained(c, s, e); ComputeHash(c, x) == x.entryHash
  {
  }

  lemma HashedIffSurvives(c: Codec, s: Sink, e: Entry)
    requires Lawful(c)
    ensures Hashed(c, Log(c, s, e).lines[|s.lines|]) <==> Survives(c, e)
  {
    var x := Chained(c, s, e);
    var y := ReadBack(c, e, x);
    assert Content(c, x) == Content(c, e) && Content(c, y) == Content(c, c.readBack(e));
    assert ComputeHash(c, x) == x.entryHash;
    hide Content;
    SameHeadIff(Decimal(x.sequenceNum), x.previousHash, Content(c, x), Content(c, y));
    assert Preimage(c, x) == Preimage(c, y) <==> Content(c, x) == Content(c, y);
  }

  lemma SameHeadIff(a: string, b: string, u: string, v: string)
    ensures a + "|" + (b + "|" + u) == a + "|" + (b + "|" + v) <==> u == v
  {
    var n := |a| + 1 + |b| + 1;
    assert (a + "|" + (b + "|" + u))[n..] == u;
    assert (a + "|" + (b + "|" + v))[n..] == v;
  }

  /** Successful calls number their entries 1, 2, 3, ... and link each to the one before; they leave an
      unbroken chain exactly when the hashed fields of all survive being written. */
  lemma {:induction false} RunLogsChains(c: Codec, es: seq<Entry>)
    ensures Numbered(c, RunLogs(c, es)) && |RunLogs(c, es).lines| == |es|
    ensures Lawful(c) ==> (Chain(c, RunLogs(c, es)) <==> forall e <- es :: Survives(c, e))
  {
    hide Preimage, Chained, Chain, Numbered, Survives, Hashed;
    if es != [] {
      var init, e := es[..|es| - 1], es[|es| - 1];
      RunLogsChains(c, init);
      LogExtends(c, RunLogs(c, init), e);
      assert es == init + [e];
    } else {
      EmptyChains(c);
    }
  }

  lemma EmptyChains(c: Codec)
    ensures Chain(c, EMPTY)
  {
  }

  /** A file of linked lines verifies from a starting point exactly when its lines fit and those from
      that point on carry their own hashes. */
  lemma NumberedVerifiesIff(c: Codec, s: Sink, from: int)
    requires Numbered(c, s)
    ensures Verify(c, s.lines, from) == Intact
       <==> AllFit(s.lines) && forall i :: 0 <= i < |s.lines| && from <= i + 1 ==> Hashed(c, s.lines[i])
  {
    hide Preimage;
    VerifyIntactIff(c, s.lines, from);
    forall i | 0 <= i < |s.lines|
      ensures Sound(c, s.lines, from, i) <==> Fits(s.lines[i]) && (from <= i + 1 ==> Hashed(c, s.lines[i]))
    {
      assert Linked(c, s.lines, i);
    }
    assert AllFit(s.lines) <==> forall i :: 0 <= i < |s.lines| ==> Fits(s.lines[i]);
    hide Sound, Hashed, Fits;
    assert (forall i :: 0 <= i < |s.lines| ==> Sound(c, s.lines, from, i)) <==>
      (forall i :: 0 <= i < |s.lines| ==> Fits(s.lines[i]) && (from <= i + 1 ==> Hashed(c, s.lines[i])));
  }

  /** Opening it yields the sink that wrote it, exactly when its lines fit. */
  lemma NumberedResumes(c: Codec, s: Sink)
    requires Numbered(c, s)
    ensures Resume(s.lines) == if AllFit(s.lines) then Some(s) else None
  {
    if s.lines != [] {
      assert Linked(c, s.lines, |s.lines| - 1);
    }
  }

  /** A chain whose lines fit verifies from every starting point, and opening its file yields the
      sink that wrote it; with a line over the limit neither holds. */
  lemma ChainVerifiesAndResumes(c: Codec, s: Sink, from: int)
    requires Chain(c, s)
    ensures Verify(c, s.lines, from) == Intact <==> AllFit(s.lines)
    ensures Resume(s.lines) == if AllFit(s.lines) then Some(s) else None
  {
    NumberedVerifiesIff(c, s, from);
    NumberedResumes(c, s);
    hide Hashed, Resume;
    assert forall i :: 0 <= i < |s.lines| ==> Hashed(c, s.lines[i]);
  }

  // ---------------------------------------------------------------- runs with restarts and failures

  /** How a call of `Log` ends. Marshalling fails on a timestamp whose year is outside 0 to 9999; a
      failed write leaves the buffered writer in error until the file is reopened; a failed sync
      returns an error although the entry is in the file. */
  datatype Outcome = Written | SyncFails | MarshalFails | WriteFails {
    predicate Reaches() { Written? || SyncFails? }
  }

  /** A sink with its writer, which is `stuck` after a failed write. */
  datatype Handle = Handle(sink: Sink, stuck: bool)

  function Attempt(c: Codec, h: Handle, e: Entry, o: Outcome): Handle {
    if o.Reaches() && !h.stuck then Handle(Log(c, h.sink, e), false)
    else Handle(LogFailed(c, h.sink, e), h.stuck || o.WriteFails?)
  }

  datatype Op = LogOp(entry: Entry, outcome: Outcome) | Reopen

  /** A run of calls and restarts; none when a restart fails. */
  function Run(c: Codec, ops: seq<Op>): Option<Handle> {
    if ops == [] then Some(Handle(EMPTY, false))
    else match Run(c, ops[..|ops| - 1])
         case None => None
         case Some(h) =>
           match ops[|ops| - 1]
           case LogOp(e, o) => Some(Attempt(c, h, e, o))
           case Reopen =>
             match Resume(h.sink.lines)
             case None => None
             case Some(s) => Some(Handle(s, false))
  }

  /** A write has failed since the file was last opened. */
  predicate Stuck(ops: seq<Op>) {
    ops != [] &&
    match ops[|ops| - 1]
    case LogOp(_, o) => Stuck(ops[..|ops| - 1]) || o.WriteFails?
    case Reopen => false
  }

  /** The last operation put an entry into the file. */
  predicate Writes(ops: seq<Op>) {
    ops != [] && ops[|ops| - 1].LogOp? && ops[|ops| - 1].outcome.Reaches() && !Stuck(ops[..|ops| - 1])
  }

  /** Some call has left no entry since the file was last opened. */
  predicate Failed(ops: seq<Op>) {
    ops != [] && ops[|ops| - 1].LogOp? && (Failed(ops[..|ops| - 1]) || !Writes(ops))
  }

  /** No entry is written between such a call and the next reopening. */
  predicate Safe(ops: seq<Op>) {
    ops == [] || (Safe(ops[..|ops| - 1]) && (Writes(ops) ==> !Failed(ops[..|ops| - 1])))
  }

  /** The entries that reached the file. */
  function Logged(ops: seq<Op>): seq<Entry> {
    if ops == [] then []
    else if Writes(ops) then Logged(ops[..|ops| - 1]) + [ops[|ops| - 1].entry]
    else Logged(ops[..|ops| - 1])
  }

  /** Every restart finds only lines that fit the scanner. */
  ghost predicate Reopenable(c: Codec, ops: seq<Op>) {
    forall i :: 0 <= i < |ops| && ops[i].Reopen? ==> AllFit(RunLogs(c, Logged(ops[..i])).lines)
  }

  lemma ReopenableSnoc(c: Codec, ops: seq<Op>)
    requires ops != []
    ensures var init, last := ops[..|ops| - 1], ops[|ops| - 1];
      Reopenable(c, ops) <==> Reopenable(c, init) && (last.Reopen? ==> AllFit(RunLogs(c, Logged(init)).lines))
  {
    hide RunLogs, AllFit, Logged;
    var init := ops[..|ops| - 1];
    assert forall i :: 0 <= i < |init| ==> init[..i] == ops[..i];
    if Reopenable(c, init) && (ops[|ops| - 1].Reopen? ==> AllFit(RunLogs(c, Logged(init)).lines)) {
      forall i | 0 <= i < |ops| && ops[i].Reopen? ensures AllFit(RunLogs(c, Logged(ops[..i])).lines) {
        if i < |init| { assert init[i].Reopen?; }
      }
    }
    if Reopenable(c, ops) {
      forall i | 0 <= i < |init| && init[i].Reopen? ensures AllFit(RunLogs(c, Logged(init[..i])).lines) {
        assert ops[i].Reopen?;
      }
    }
  }

  /** The sink remembers the hash of an entry numbered beyond the file's end. */
  ghost predicate Ahead(c: Codec, s: Sink) {
    exists x :: s.previousHash == ComputeHash(c, x) && x.sequenceNum == s.seqNum && s.seqNum > |s.lines|
  }

  lemma FailureRunsAhead(c: Codec, s: Sink, e: Entry)
    requires Numbered(c, s) || Ahead(c, s)
    ensures Ahead(c, LogFailed(c, s, e)) && LogFailed(c, s, e).lines == s.lines
  {
    var x := Chained(c, s, e);
    assert ComputeHash(c, x) == x.entryHash;
  }

  /** What a safe run leaves: the uninterrupted file, and a sink that matches it unless a call has
      failed since. */
  ghost predicate Follows(c: Codec, h: Handle, ops: seq<Op>) {
    && h.stuck == Stuck(ops) && h.sink.lines == RunLogs(c, Logged(ops)).lines
    && if Failed(ops) then Ahead(c, h.sink) else h == Handle(RunLogs(c, Logged(ops)), false)
  }

  lemma LoggedSnoc(ops: seq<Op>)
    requires ops != []
    ensures var init := ops[..|ops| - 1];
      Logged(ops) == if Writes(ops) then Logged(init) + [ops[|ops| - 1].entry] else Logged(init)
  {
  }

  lemma CallFollows(c: Codec, h: Handle, ops: seq<Op>)
    requires ops != [] && ops[|ops| - 1].LogOp? && Safe(ops) && Follows(c, h, ops[..|ops| - 1])
    ensures Follows(c, Attempt(c, h, ops[|ops| - 1].entry, ops[|ops| - 1].outcome), ops)
  {
    hide Chain, Numbered, Ahead, Log, LogFailed, RunLogs, Logged, Stuck, Safe, Chained, Writes, Failed;
    var init, e, o := ops[..|ops| - 1], ops[|ops| - 1].entry, ops[|ops| - 1].outcome;
    LoggedSnoc(ops);
    StuckSnoc(ops);
    CallSnoc(ops);
    if Writes(ops) {
      RunLogsSnoc(c, Logged(init), e);
    } else {
      RunLogsChains(c, Logged(init));
      FailureRunsAhead(c, h.sink, e);
    }
  }

  lemma CallSnoc(ops: seq<Op>)
    requires ops != [] && ops[|ops| - 1].LogOp?
    ensures Writes(ops) <==> ops[|ops| - 1].outcome.Reaches() && !Stuck(ops[..|ops| - 1])
    ensures Failed(ops) <==> Failed(ops[..|ops| - 1]) || !Writes(ops)
  {
    hide Stuck;
  }

  lemma StuckSnoc(ops: seq<Op>)
    requires ops != [] && ops[|ops| - 1].LogOp?
    ensures Stuck(ops) <==> Stuck(ops[..|ops| - 1]) || ops[|ops| - 1].outcome.WriteFails?
    ensures Safe(ops) ==> (Writes(ops) ==> !Failed(ops[..|ops| - 1]))
  {
  }

  lemma RunLogsSnoc(c: Codec, es: seq<Entry>, e: Entry)
    ensures RunLogs(c, es + [e]) == Log(c, RunLogs(c, es), e)
  {
    assert (es + [e])[..|es|] == es;
  }

  /** The chain survives restarts: however calls, failed or not, are split by restarts, as long as
      none writes behind a failure the file is that of the uninterrupted run of the calls that
      reached it, and the sink is too unless a call has failed since; restarts succeed exactly as
      long as none meets a line over the scanner's limit. */
  lemma {:induction false} RestartsDoNotMatter(c: Codec, ops: seq<Op>)
    requires Safe(ops)
    ensures Run(c, ops).Some? <==> Reopenable(c, ops)
    ensures Run(c, ops).Some? ==> Follows(c, Run(c, ops).value, ops)
  {
    hide Preimage, Chained, Reopenable, AllFit, Ahead, Numbered, Chain;
    if ops == [] {
      NothingToReopen(c);
    } else {
      var init := ops[..|ops| - 1];
      RestartsDoNotMatter(c, init);
      ReopenableSnoc(c, ops);
      if Run(c, init).Some? {
        if ops[|ops| - 1].LogOp? {
          CallFollows(c, Run(c, init).value, ops);
        } else {
          RunLogsChains(c, Logged(init));
          NumberedResumes(c, RunLogs(c, Logged(init)));
        }
      }
    }
  }

  lemma NothingToReopen(c: Codec)
    ensures Reopenable(c, [])
  {
  }

  /** Some line does not check. */
  ghost predicate BrokenWithin(c: Codec, lines: seq<Line>, from: int) {
    exists i :: 0 <= i < |lines| && !Sound(c, lines, from, i)
  }

  lemma BrokenStays(c: Codec, lines: seq<Line>, more: seq<Line>, from: int)
    requires BrokenWithin(c, lines, from)
    ensures BrokenWithin(c, lines + more, from)
  {
    hide Preimage;
    var i :| 0 <= i < |lines| && !Sound(c, lines, from, i);
    assert HashBefore(lines + more, i) == HashBefore(lines, i);
    assert !Sound(c, lines + more, from, i);
  }

  /** An entry written by a sink that is ahead of its file does not check. */
  lemma WritingAheadBreaks(c: Codec, s: Sink, es: seq<Entry>, e: Entry, from: int)
    requires Lawful(c) && from <= 1 && s.lines == RunLogs(c, es).lines && Ahead(c, s)
    ensures BrokenWithin(c, Log(c, s, e).lines, from)
  {
    var n, lines := |s.lines|, Log(c, s, e).lines;
    var x :| s.previousHash == ComputeHash(c, x) && x.sequenceNum == s.seqNum && s.seqNum > n;
    RunLogsChains(c, es);
    hide Preimage;
    assert lines[n].entry.value.previousHash == s.previousHash && HashBefore(lines, n) == HashBefore(s.lines, n);
    if n > 0 {
      assert Linked(c, s.lines, n - 1);
      var e := s.lines[n - 1].entry.value;
      var y :| e.entryHash == ComputeHash(c, y) && y.sequenceNum == e.sequenceNum;
      if Preimage(c, x) == Preimage(c, y) {
        PreimageSeq(c, x, y);
        assert false;
      }
    }
    assert !Sound(c, lines, from, n);
  }

  /** A run that writes behind a failure leaves a line that does not check, for good. */
  lemma {:induction false} UnsafeRunBreaks(c: Codec, ops: seq<Op>, from: int)
    requires Lawful(c) && from <= 1 && Run(c, ops).Some? && !Safe(ops)
    ensures BrokenWithin(c, Run(c, ops).value.sink.lines, from)
  {
    hide Preimage, Chained, Ahead, BrokenWithin, Lawful;
    var init, last := ops[..|ops| - 1], ops[|ops| - 1];
    var h := Run(c, init).value;
    if Safe(init) {
      RestartsDoNotMatter(c, init);
      WritingAheadBreaks(c, h.sink, Logged(init), last.entry, from);
    } else {
      UnsafeRunBreaks(c, init, from);
      var lines := Run(c, ops).value.sink.lines;
      assert lines == h.sink.lines + lines[|h.sink.lines|..];
      BrokenStays(c, h.sink.lines, lines[|h.sink.lines|..], from);
    }
  }

  /** Over every run of calls, failures and restarts, verification from any point up to the first
      entry succeeds exactly when the lines fit the scanner and no entry was written between a
      failure and the next reopening, and the hashed fields of every entry written survived it. */
  lemma RunVerifiesIff(c: Codec, ops: seq<Op>, from: int)
    requires Lawful(c) && from <= 1 && Run(c, ops).Some?
    ensures var lines := Run(c, ops).value.sink.lines;
      Verify(c, lines, from) == Intact <==> AllFit(lines) && Safe(ops) && forall e <- Logged(ops) :: Survives(c, e)
  {
    hide Run, Verify, AllFit, Logged, Survives, Lawful, BrokenWithin;
    var lines := Run(c, ops).value.sink.lines;
    if Safe(ops) {
      SafeRunVerifiesIff(c, ops, from);
    } else {
      UnsafeRunBreaks(c, ops, from);
      BrokenIsNotIntact(c, lines, from);
    }
  }

  lemma BrokenIsNotIntact(c: Codec, lines: seq<Line>, from: int)
    requires BrokenWithin(c, lines, from)
    ensures Verify(c, lines, from) != Intact
  {
    hide Sound;
    VerifyIntactIff(c, lines, from);
  }

  lemma SafeRunVerifiesIff(c: Codec, ops: seq<Op>, from: int)
    requires Lawful(c) && from <= 1 && Run(c, ops).Some? && Safe(ops)
    ensures var lines := Run(c, ops).value.sink.lines;
      Verify(c, lines, from) == Intact <==> AllFit(lines) && forall e <- Logged(ops) :: Survives(c, e)
  {
    RestartsDoNotMatter(c, ops);
    hide Run, Stuck, Failed, Ahead, Numbered, Hashed, Survives, AllFit, Safe, Logged, RunLogs, Verify, Sound, Lawful;
    var s := RunLogs(c, Logged(ops));
    assert Run(c, ops).value.sink.lines == s.lines;
    RunLogsChains(c, Logged(ops));
    NumberedVerifiesIff(c, s, from);
    assert (forall l <- s.lines :: Hashed(c, l)) <==> forall i :: 0 <= i < |s.lines| ==> Hashed(c, s.lines[i]);
  }

  // ---------------------------------------------------------------- damage is found where it is

  lemma ChainIsSound(c: Codec, s: Sink, from: int, i: nat)
    requires Chain(c, s) && AllFit(s.lines) && i < |s.lines|
    ensures Sound(c, s.lines, from, i) && Linked(c, s.lines, i) && Hashed(c, s.lines[i])
  {
    assert Linked(c, s.lines, i) && s.lines[i] in s.lines;
  }

  /** Changing the hashed text of entry `k`, its number and stored hash left alone, makes
      verification from any point up to `k` name `k`; from later points it is not looked at. */
  lemma ChangeIsLocalised(c: Codec, s: Sink, k: int, changed: Line, from: int)
    requires Lawful(c) && Chain(c, s) && AllFit(s.lines) && 1 <= k <= |s.lines|
    requires Fits(changed) && changed.entry.Some? && s.lines[k - 1].entry.Some?
    requires var x, y := changed.entry.value, s.lines[k - 1].entry.value;
      x.sequenceNum == y.sequenceNum && x.entryHash == y.entryHash && Preimage(c, x) != Preimage(c, y)
    ensures Verify(c, s.lines[k - 1 := changed], from) == if from <= k then Broken(k) else Intact
  {
    hide Preimage;
    var lines := s.lines[k - 1 := changed];
    ChainIsSound(c, s, from, k - 1);
    forall i | 0 <= i < |lines| && i != k - 1 ensures Sound(c, lines, from, i) {
      ChainIsSound(c, s, from, i);
      assert HashBefore(lines, i) == HashBefore(s.lines, i);
    }
    if from <= k {
      VerifyNamesFirst(c, lines, from, k - 1);
    } else {
      VerifyIntactIff(c, lines, from);
    }
  }

  /** Different entries of a chain have different hashes. */
  lemma HashesDiffer(c: Codec, s: Sink, i: nat, j: nat)
    requires Lawful(c) && Numbered(c, s) && i < j <= |s.lines|
    ensures HashBefore(s.lines, i) != HashBefore(s.lines, j)
  {
    hide Preimage;
    assert Linked(c, s.lines, j - 1);
    var f := s.lines[j - 1].entry.value;
    var y :| f.entryHash == ComputeHash(c, y) && y.sequenceNum == f.sequenceNum;
    if i > 0 {
      assert Linked(c, s.lines, i - 1);
      var e := s.lines[i - 1].entry.value;
      var x :| e.entryHash == ComputeHash(c, x) && x.sequenceNum == e.sequenceNum;
      if Preimage(c, x) == Preimage(c, y) {
        PreimageSeq(c, x, y);
      }
    }
  }

  /** Deleting entry `k`, not the last, makes verification from any point up to `k + 1` name
      `k + 1`; deleting the last entry leaves a shorter chain that verifies. */
  lemma DeletionIsLocalised(c: Codec, s: Sink, k: int, from: int)
    requires Lawful(c) && Chain(c, s) && AllFit(s.lines) && 1 <= k <= |s.lines|
    ensures Verify(c, s.lines[..k - 1] + s.lines[k..], from)
         == if k < |s.lines| && from <= k + 1 then Broken(k + 1) else Intact
  {
    hide Preimage, Numbered, Linked, AllFit, Verify, Stamped;
    var lines := s.lines[..k - 1] + s.lines[k..];
    forall i | 0 <= i < k - 1 ensures Sound(c, lines, from, i) {
      ChainIsSound(c, s, from, i);
      assert HashBefore(lines, i) == HashBefore(s.lines, i);
    }
    forall i | k <= i < |lines| ensures Sound(c, lines, from, i) {
      ChainIsSound(c, s, from, i + 1);
      assert lines[i] == s.lines[i + 1] && lines[i - 1] == s.lines[i];
    }
    if k < |s.lines| {
      ChainIsSound(c, s, from, k);
      assert lines[k - 1] == s.lines[k] && HashBefore(lines, k - 1) == HashBefore(s.lines, k - 1);
      HashesDiffer(c, s, k - 1, k);
      if from <= k + 1 {
        VerifyNamesFirst(c, lines, from, k - 1);
      } else {
        VerifyIntactIff(c, lines, from);
      }
    } else {
      VerifyIntactIff(c, lines, from);
    }
  }

  /** A call that fails after hashing breaks the chain: the next entry written is named broken,
      because it links to a hash that is in no line. Reopening first avoids that. */
  lemma FailedLogBreaksNext(c: Codec, s: Sink, lost: Entry, next: Entry, from: int)
    requires Lawful(c) && Chain(c, s) && from <= |s.lines| + 2
    requires AllFit(Log(c, LogFailed(c, s, lost), next).lines)
    ensures Verify(c, Log(c, LogFailed(c, s, lost), next).lines, from) == Broken(|s.lines| + 2)
    ensures Resume(LogFailed(c, s, lost).lines) == Some(s)
  {
    var t := LogFailed(c, s, lost);
    var lines := Log(c, t, next).lines;
    var n := |s.lines|;
    assert AllFit(s.lines) by {
      assert forall l <- s.lines :: l in lines;
    }
    ChainVerifiesAndResumes(c, s, from);
    LogExtends(c, s, lost);
    HashesDiffer(c, Log(c, s, lost), n, n + 1);
    hide Preimage;
    forall i | 0 <= i < n ensures Sound(c, lines, from, i) {
      ChainIsSound(c, s, from, i);
      assert HashBefore(lines, i) == HashBefore(s.lines, i);
    }
    assert HashBefore(lines, n) == HashBefore(Log(c, s, lost).lines, n);
    VerifyNamesFirst(c, lines, from, n);
  }

  /** An entry whose hashed fields do not survive being written is itself named broken. */
  lemma UnreadableEntryIsNamed(c: Codec, s: Sink, e: Entry, from: int)
    requires Lawful(c) && Chain(c, s) && !Survives(c, e) && AllFit(Log(c, s, e).lines) && from <= |s.lines| + 1
    ensures Verify(c, Log(c, s, e).lines, from) == Broken(|s.lines| + 1)
  {
    var lines, n := Log(c, s, e).lines, |s.lines|;
    LogExtends(c, s, e);
    hide Preimage, Survives;
    assert lines[..n] == s.lines && AllFit(s.lines) by {
      assert forall l <- s.lines :: l in lines;
    }
    forall i | 0 <= i < n ensures Sound(c, lines, from, i) {
      ChainIsSound(c, s, from, i);
      assert HashBefore(lines, i) == HashBefore(s.lines, i);
    }
    assert !Sound(c, lines, from, n);
    VerifyNamesFirst(c, lines, from, n);
    assert lines[n] in lines;
  }

  // ---------------------------------------------------------------- in plain terms

  /** A chain starts from 64 zeros. */
  lemma GenesisIs()
    ensures GENESIS == seq(64, _ => '0')
  {
    forall i | 0 <= i < 64 ensures GENESIS[i] == '0' {
      assert GENESIS[i] in GENESIS;
    }
  }

  /** A line is readable when it is shorter than 256 KiB, its newline counted. */
  lemma FitsIff(l: Line)
    ensures Fits(l) <==> l.size + 1 <= 256 * 1024
  {
  }

  /** Reopening resumes from the last line that parses, however many unparsable ones follow. */
  lemma {:induction false} ResumesFromLastParsed(lines: seq<Line>, k: nat)
    requires (forall l <- lines :: l.size < 262144) && k <= |lines|
    requires forall i :: k <= i < |lines| ==> lines[i].entry.None?
    ensures k == 0 ==> Resume(lines) == Some(Sink(lines, seq(64, _ => '0'), 0))
    ensures k > 0 && lines[k - 1].entry.Some? ==>
      Resume(lines) == Some(Sink(lines, lines[k - 1].entry.value.entryHash, lines[k - 1].entry.value.sequenceNum))
  {
    LastParsedIs(lines, k);
    GenesisIs();
  }

  lemma {:induction false} LastParsedIs(lines: seq<Line>, k: nat)
    requires k <= |lines| && forall i :: k <= i < |lines| ==> lines[i].entry.None?
    ensures k == 0 ==> LastParsed(lines) == None
    ensures k > 0 && lines[k - 1].entry.Some? ==> LastParsed(lines) == lines[k - 1].entry
  {
    if k < |lines| {
      LastParsedIs(lines[..|lines| - 1], k);
    }
  }

  /** What a failed verification reports: -1 and an error for a line that is too long; the number
      behind the last entry read, and an error, for one that does not parse; the entry's number
      when its link or hash does not check. */
  lemma VerifyReports(c: Codec, lines: seq<Line>, from: int, k: nat)
    requires k < |lines| && !Sound(c, lines, from, k) && forall j :: 0 <= j < k ==> Sound(c, lines, from, j)
    ensures var v := Verify(c, lines, from);
      if lines[k].size >= 262144 then v.Code() == -1 && v.IsError()
      else match lines[k].entry
           case None => v.Code() == (if k == 0 then 1 else SequenceOf(lines[k - 1]) + 1) && v.IsError()
           case Some(e) => v.Code() == e.sequenceNum && !v.IsError()
  {
    VerifyNamesFirst(c, lines, from, k);
    if k > 0 {
      assert Sound(c, lines, from, k - 1);
    }
  }

  function SequenceOf(l: Line): int { if l.entry.Some? then l.entry.value.sequenceNum else 0 }

  /** A line checks when it is readable and either lies before the starting point or continues the
      line before it and carries the hash of its own fields. */
  lemma SoundIff(c: Codec, lines: seq<Line>, from: int, i: nat)
    requires i < |lines|
    ensures Sound(c, lines, from, i) <==>
      && lines[i].size < 262144 && lines[i].entry.Some?
      && var e := lines[i].entry.value;
         from <= e.sequenceNum ==>
           && e.entryHash == c.hash(Preimage(c, e))
           && (i == 0 ==> e.previousHash == seq(64, _ => '0'))
           && (i > 0 && lines[i - 1].entry.Some? ==> e.previousHash == lines[i - 1].entry.value.entryHash)
           && (i > 0 && lines[i - 1].entry.None? ==> e.previousHash == seq(64, _ => '0'))
  {
    hide Preimage;
    GenesisIs();
  }

  /** The text between bars. */
  function Fields(s: string): (fs: seq<string>)
    ensures fs != []
  {
    if s == "" then [""]
    else
      var rest := Fields(s[1..]);
      if s[0] == '|' then [""] + rest else [[s[0]] + rest[0]] + rest[1..]
  }

  lemma {:induction false} FieldsOfBar(a: string, rest: string)
    requires '|' !in a
    ensures Fields(a + "|" + rest) == [a] + Fields(rest)
  {
    var s := a + "|" + rest;
    if a == "" {
      assert s[0] == '|' && s[1..] == rest;
    } else {
      assert s[0] == a[0] && s[1..] == a[1..] + "|" + rest;
      FieldsOfBar(a[1..], rest);
      assert a == [a[0]] + a[1..];
    }
  }

  lemma {:induction false} FieldsOfOne(a: string)
    requires '|' !in a
    ensures Fields(a) == [a]
  {
    if a != "" {
      FieldsOfOne(a[1..]);
      assert a == [a[0]] + a[1..];
    }
  }

  /** What is hashed are eight fields between bars, in this order. */
  lemma PreimageIs(c: Codec, e: Entry)
    requires forall s <- [e.previousHash, c.time(e.timestamp), e.action, e.outcome, e.actorId, e.resource, e.detail] ::
      '|' !in s
    ensures Fields(Preimage(c, e))
            == [Decimal(e.sequenceNum), e.previousHash, c.time(e.timestamp), e.action, e.outcome, e.actorId,
                e.resource, e.detail]
    ensures c.hash(Preimage(c, e)) == ComputeHash(c, e)
  {
    DecimalHasNoBar(e.sequenceNum);
    hide Decimal, Fields;
    var fs := [e.previousHash, c.time(e.timestamp), e.action, e.outcome, e.actorId, e.resource, e.detail];
    assert fs[0] in fs && fs[1] in fs && fs[2] in fs && fs[3] in fs && fs[4] in fs && fs[5] in fs && fs[6] in fs;
    FieldsOfOne(e.detail);
    FieldsOfBar(e.resource, e.detail);
    FieldsOfBar(e.actorId, e.resource + "|" + e.detail);
    FieldsOfBar(e.outcome, e.actorId + "|" + (e.resource + "|" + e.detail));
    FieldsOfBar(e.action, e.outcome + "|" + (e.actorId + "|" + (e.resource + "|" + e.detail)));
    FieldsOfBar(c.time(e.timestamp),
                e.action + "|" + (e.outcome + "|" + (e.actorId + "|" + (e.resource + "|" + e.detail))));
    FieldsOfBar(e.previousHash, Content(c, e));
    FieldsOfBar(Decimal(e.sequenceNum), e.previousHash + "|" + Content(c, e));
    assert Preimage(c, e) == Decimal(e.sequenceNum) + "|" + (e.previousHash + "|" + Content(c, e));
  }

  /** The number a text of decimal digits denotes. */
  function ValueOf(s: string): int {
    if s == "" then 0
    else if s[0] == '-' then -ValueOf(s[1..])
    else 10 * ValueOf(s[..|s| - 1]) + (s[|s| - 1] as int - '0' as int)
  }

  lemma {:induction false} DigitsValue(n: nat)
    ensures Digits(n) != "" && Digits(n)[0] != '-' && ValueOf(Digits(n)) == n
  {
    var s := Digits(n);
    if n < 10 {
      assert s[..0] == "" && ValueOf(s[..0]) == 0;
    } else {
      DigitsValue(n / 10);
      assert s[..|s| - 1] == Digits(n / 10);
    }
  }

  /** A number is written so that it can be read back. */
  lemma DecimalValue(n: int)
    ensures ValueOf(Decimal(n)) == n
  {
    if n < 0 {
      DigitsValue(-n);
      assert Decimal(n)[1..] == Digits(-n);
    } else {
      DigitsValue(n);
    }
  }

  /** What one call does: the sink always moves on to the entry's number and hash; the entry is in the
      file unless marshalling or writing failed, now or since the file was opened, even if syncing
      failed; only a failed write keeps later calls from writing. */
  lemma AttemptSays(c: Codec, h: Handle, e: Entry, o: Outcome)
    ensures var h' := Attempt(c, h, e, o);
      && h'.sink.seqNum == h.sink.seqNum + 1
      && h'.sink.previousHash
         == c.hash(Preimage(c, e.(sequenceNum := h.sink.seqNum + 1, previousHash := h.sink.previousHash)))
      && (h.stuck || o == MarshalFails || o == WriteFails ==> h'.sink.lines == h.sink.lines)
      && (!h.stuck && (o == Written || o == SyncFails) ==>
            && |h'.sink.lines| == |h.sink.lines| + 1 && h'.sink.lines[..|h.sink.lines|] == h.sink.lines
            && var l := h'.sink.lines[|h.sink.lines|];
               && l.entry.Some? && l.entry.value.sequenceNum == h.sink.seqNum + 1
               && l.entry.value.previousHash == h.sink.previousHash && l.entry.value.entryHash == h'.sink.previousHash
               && l.entry.value.detail == c.readBack(e).detail && l.entry.value.action == c.readBack(e).action)
      && (h'.stuck <==> h.stuck || o == WriteFails)
  {
    hide Decimal, Content;
  }
}
