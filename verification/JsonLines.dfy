/** The incremental reader of newline-delimited event files
    (internal/analyzer/analyzer.go, readNewEvents). Parsing one line is a parameter. */
module JsonLines {
  import opened Events

  newtype Byte = x: int | 0 <= x < 256

  const NEWLINE: Byte := 10
  const CARRIAGE_RETURN: Byte := 13

  type Parser = seq<Byte> -> Option<Event>

  /** The end of the line that starts at `i`: just after its newline, or the end of input. */
  function LineEnd(b: seq<Byte>, i: nat): (n: nat)
    requires i <= |b|
    ensures i <= n <= |b| && (i < |b| ==> i < n)
    decreases |b| - i
  {
    if i == |b| then i else if b[i] == NEWLINE then i + 1 else LineEnd(b, i + 1)
  }

  function Trim(line: seq<Byte>): seq<Byte> {
    if line != [] && (line[|line| - 1] == NEWLINE || line[|line| - 1] == CARRIAGE_RETURN) then Trim(line[..|line| - 1])
    else line
  }

  /** The event on a line, if it holds one. */
  function LineEvents(p: Parser, line: seq<Byte>): seq<Event> {
    var trimmed := Trim(line);
    if trimmed == [] then []
    else match p(trimmed)
         case None => []
         case Some(e) => [e]
  }

  /** The well-formed events of some input, in order. */
  function EventsIn(p: Parser, b: seq<Byte>): seq<Event> {
    if b == [] then [] else LineEvents(p, b[..LineEnd(b, 0)]) + EventsIn(p, b[LineEnd(b, 0)..])
  }

  predicate EndsAtNewline(b: seq<Byte>) { b == [] || b[|b| - 1] == NEWLINE }

  // ---------------------------------------------------------------- the loops

  /** Reads up to and including the next newline, or to the end of input. */
  method ReadLine(b: seq<Byte>, pos: nat) returns (line: seq<Byte>, eof: bool)
    requires pos <= |b|
    ensures line == b[pos..LineEnd(b, pos)]
    ensures eof ==> pos + |line| == |b|
    ensures !eof ==> line != []
  {
    var i := pos;
    while i < |b| && b[i] != NEWLINE
      invariant pos <= i <= |b| && LineEnd(b, i) == LineEnd(b, pos)
    {
      i := i + 1;
    }
    eof := i == |b|;
    line := if eof then b[pos..] else b[pos..i + 1];
  }

  method TrimLine(line: seq<Byte>) returns (trimmed: seq<Byte>)
    ensures trimmed == Trim(line)
  {
    trimmed := line;
    while |trimmed| > 0 && (trimmed[|trimmed| - 1] == NEWLINE || trimmed[|trimmed| - 1] == CARRIAGE_RETURN)
      invariant Trim(trimmed) == Trim(line)
    {
      trimmed := trimmed[..|trimmed| - 1];
    }
  }

  /** What lies behind `offset`; nothing when the file is shorter than that. */
  function Unread(file: seq<Byte>, offset: nat): seq<Byte> {
    if offset <= |file| then file[offset..] else []
  }

  /** Parses one line; blank and malformed lines are skipped. */
  method ParseLine(p: Parser, line: seq<Byte>) returns (events: seq<Event>)
    ensures events == LineEvents(p, line)
  {
    var trimmed := TrimLine(line);
    events := [];
    if |trimmed| > 0 {
      match p(trimmed)
      case None =>
      case Some(e) => events := [e];
    }
  }

  /** Reads every line behind `offset`; the new offset counts the bytes consumed. */
  method ReadNewEvents(p: Parser, file: seq<Byte>, offset: nat) returns (events: seq<Event>, newOffset: nat)
    ensures events == EventsIn(p, Unread(file, offset))
    ensures newOffset == offset + |Unread(file, offset)|
    ensures if offset <= |file| then events == EventsIn(p, file[offset..]) && newOffset == |file|
            else events == [] && newOffset == offset
  {
    hide EventsIn, LineEvents, LineEnd;
    var rest := Unread(file, offset);
    newOffset, events := offset, [];
    var pos, eof := 0, false;
    assert rest[0..] == rest;
    NothingRead(p);
    while !eof
      invariant pos <= |rest| && newOffset == offset + pos && (eof ==> pos == |rest|)
      invariant events + EventsIn(p, rest[pos..]) == EventsIn(p, rest)
      decreases !eof, |rest| - pos
    {
      var line;
      line, eof := ReadLine(rest, pos);
      EventsStep(p, rest, pos);
      if |line| > 0 {
        newOffset := newOffset + |line|;
        var parsed := ParseLine(p, line);
        events := events + parsed;
      }
      pos := pos + |line|;
    }
    EventsStep(p, rest, |rest|);
  }

  lemma EventsStep(p: Parser, b: seq<Byte>, pos: nat)
    requires pos <= |b|
    ensures EventsIn(p, b[pos..]) ==
      if pos == |b| then [] else LineEvents(p, b[pos..LineEnd(b, pos)]) + EventsIn(p, b[LineEnd(b, pos)..])
  {
    LineEndShift(b, pos);
    LineEndFrom(b, pos, pos);
    assert b[pos..][LineEnd(b[pos..], 0)..] == b[LineEnd(b, pos)..];
  }

  lemma {:induction false} LineEndFrom(b: seq<Byte>, pos: nat, i: nat)
    requires pos <= i <= |b|
    ensures LineEnd(b[pos..], i - pos) == LineEnd(b, i) - pos
    decreases |b| - i
  {
    if i < |b| && b[i] != NEWLINE {
      LineEndFrom(b, pos, i + 1);
    }
  }

  lemma LineEndShift(b: seq<Byte>, pos: nat)
    requires pos <= |b|
    ensures b[pos..][..LineEnd(b[pos..], 0)] == b[pos..LineEnd(b, pos)]
  {
    LineEndFrom(b, pos, pos);
  }

  // ---------------------------------------------------------------- cutting the input

  lemma {:induction false} LineEndKept(a: seq<Byte>, b: seq<Byte>, i: nat)
    requires i < |a| && a[|a| - 1] == NEWLINE
    ensures LineEnd(a + b, i) == LineEnd(a, i) && a[LineEnd(a, i) - 1] == NEWLINE
    decreases |a| - i
  {
    if a[i] != NEWLINE {
      LineEndKept(a, b, i + 1);
    }
  }

  /** Cutting the input at a newline changes nothing. */
  lemma {:induction false} EventsConcat(p: Parser, a: seq<Byte>, b: seq<Byte>)
    requires EndsAtNewline(a)
    ensures EventsIn(p, a + b) == EventsIn(p, a) + EventsIn(p, b)
  {
    if a == [] {
      assert a + b == b;
    } else {
      LineEndKept(a, b, 0);
      var n := LineEnd(a, 0);
      assert (a + b)[..n] == a[..n] && (a + b)[n..] == a[n..] + b;
      EventsConcat(p, a[n..], b);
    }
  }

  /** Where the last, unfinished line starts: behind the last newline. */
  function LineStart(b: seq<Byte>): (n: nat)
    ensures n <= |b| && EndsAtNewline(b[..n]) && NEWLINE !in b[n..]
  {
    if b == [] || b[|b| - 1] == NEWLINE then |b|
    else
      var n := LineStart(b[..|b| - 1]);
      assert b[n..] == b[..|b| - 1][n..] + [b[|b| - 1]] && b[..n] == b[..|b| - 1][..n];
      n
  }

  /** Cutting `a + b` between the two does no harm: there is no line to tear, or the torn line holds
      the events of its two parts. */
  predicate CleanCut(p: Parser, a: seq<Byte>, b: seq<Byte>) {
    var torn, rest := a[LineStart(a)..], b[..LineEnd(b, 0)];
    torn == [] || LineEvents(p, torn + rest) == LineEvents(p, torn) + LineEvents(p, rest)
  }

  lemma {:induction false} LineEndPast(torn: seq<Byte>, b: seq<Byte>, i: nat)
    requires NEWLINE !in torn && i <= |torn|
    ensures LineEnd(torn + b, i) == |torn| + LineEnd(b, 0)
    decreases |torn| - i
  {
    if i < |torn| {
      assert (torn + b)[i] == torn[i] && torn[i] in torn;
      LineEndPast(torn, b, i + 1);
    } else {
      LineEndFrom(torn + b, |torn|, |torn|);
      assert (torn + b)[|torn|..] == b;
    }
  }

  lemma EventsOfFirst(p: Parser, b: seq<Byte>)
    ensures EventsIn(p, b) == LineEvents(p, b[..LineEnd(b, 0)]) + EventsIn(p, b[LineEnd(b, 0)..])
  {
  }

  lemma EventsOfTorn(p: Parser, torn: seq<Byte>, b: seq<Byte>)
    requires torn != [] && NEWLINE !in torn
    ensures EventsIn(p, torn + b) == LineEvents(p, torn + b[..LineEnd(b, 0)]) + EventsIn(p, b[LineEnd(b, 0)..])
  {
    hide EventsIn, LineEvents;
    LineEndPast(torn, b, 0);
    EventsOfFirst(p, torn + b);
    hide LineEnd;
    var n := LineEnd(b, 0);
    assert (torn + b)[..|torn| + n] == torn + b[..n] && (torn + b)[|torn| + n..] == b[n..];
  }

  lemma NothingRead(p: Parser)
    ensures EventsIn(p, []) == []
  {
  }

  lemma EventsOfTornAlone(p: Parser, torn: seq<Byte>)
    requires torn != [] && NEWLINE !in torn
    ensures EventsIn(p, torn) == LineEvents(p, torn)
  {
    hide EventsIn, LineEvents;
    var none: seq<Byte> := [];
    EventsOfTorn(p, torn, none);
    NothingRead(p);
    assert torn + none == torn && none[..LineEnd(none, 0)] == none;
  }

  /** Cutting the input changes nothing exactly when the cut is clean. */
  lemma CleanCutIff(p: Parser, a: seq<Byte>, b: seq<Byte>)
    ensures EventsIn(p, a + b) == EventsIn(p, a) + EventsIn(p, b) <==> CleanCut(p, a, b)
  {
    var n := LineStart(a);
    assert a == a[..n] + a[n..];
    if a[n..] == [] {
      EventsConcat(p, a, b);
    } else {
      hide EventsIn, LineEvents, LineEnd, LineStart;
      CutInLineIff(p, a[..n], a[n..], b);
    }
  }

  lemma CutInLineIff(p: Parser, whole: seq<Byte>, torn: seq<Byte>, b: seq<Byte>)
    requires EndsAtNewline(whole) && torn != [] && NEWLINE !in torn
    ensures EventsIn(p, whole + torn + b) == EventsIn(p, whole + torn) + EventsIn(p, b)
            <==> var first := b[..LineEnd(b, 0)];
                 LineEvents(p, torn + first) == LineEvents(p, torn) + LineEvents(p, first)
  {
    hide EventsIn, LineEvents, LineEnd;
    assert whole + torn + b == whole + (torn + b);
    EventsConcat(p, whole, torn);
    EventsConcat(p, whole, torn + b);
    EventsOfTorn(p, torn, b);
    EventsOfTornAlone(p, torn);
    EventsOfFirst(p, b);
    var first, more := b[..LineEnd(b, 0)], b[LineEnd(b, 0)..];
    Cancel(EventsIn(p, whole), LineEvents(p, torn + first), LineEvents(p, torn), LineEvents(p, first),
           EventsIn(p, more));
  }

  lemma Cancel<T>(w: seq<T>, x: seq<T>, y: seq<T>, z: seq<T>, m: seq<T>)
    ensures w + (x + m) == w + y + (z + m) <==> x == y + z
  {
    var l, r := w + (x + m), w + y + (z + m);
    assert w + y + (z + m) == w + ((y + z) + m);
    assert l[|w|..] == x + m && r[|w|..] == (y + z) + m;
    assert (x + m)[..|x + m| - |m|] == x && ((y + z) + m)[..|(y + z) + m| - |m|] == y + z;
  }

  lemma {:induction false} LineEndWithoutNewline(b: seq<Byte>, q: seq<Byte>, i: nat)
    requires NEWLINE !in b && i <= |b| && q != [] && q[|q| - 1] == NEWLINE && NEWLINE !in q[..|q| - 1]
    ensures LineEnd(b, i) == |b| && LineEnd(b + q, i) == |b + q|
    decreases |b + q| - i
  {
    if i < |b| {
      LineEndWithoutNewline(b, q, i + 1);
    } else {
      LineEndOfRest(b + q, i);
    }
  }

  lemma {:induction false} LineEndOfRest(b: seq<Byte>, i: nat)
    requires i < |b| && b[|b| - 1] == NEWLINE && forall k :: i <= k < |b| - 1 ==> b[k] != NEWLINE
    ensures LineEnd(b, i) == |b|
    decreases |b| - i
  {
    if i < |b| - 1 {
      LineEndOfRest(b, i + 1);
    }
  }

  /** Cutting a line in two: a line `start + rest` that holds an event, neither half of which
      parses on its own, yields its event when read whole and nothing when read in halves. */
  lemma TornLineYieldsNothing(p: Parser, start: seq<Byte>, rest: seq<Byte>, e: Event)
    requires start != [] && NEWLINE !in start
    requires rest != [] && rest[|rest| - 1] == NEWLINE && NEWLINE !in rest[..|rest| - 1]
    requires LineEvents(p, start) == [] && LineEvents(p, rest) == [] && LineEvents(p, start + rest) == [e]
    ensures EventsIn(p, start + rest) == [e] && EventsIn(p, start) == [] && EventsIn(p, rest) == []
  {
    LineEndWithoutNewline(start, rest, 0);
    LineEndOfRest(rest, 0);
    assert (start + rest)[..|start + rest|] == start + rest && start[..|start|] == start && rest[..|rest|] == rest;
    assert EventsIn(p, []) == [];
  }

  // ---------------------------------------------------------------- what lines yield

  /** The event the text itself parses to, if it is not blank. */
  function Parsed(p: Parser, body: seq<Byte>): seq<Event> {
    if body == [] || p(body).None? then [] else [p(body).value]
  }

  /** Text that does not end in a line feed (10) or a carriage return (13). */
  predicate Trimmed(body: seq<Byte>) { body != [] ==> body[|body| - 1] != 10 && body[|body| - 1] != 13 }

  /** A line yields what its text parses to, whatever line feeds and carriage returns end it. */
  lemma {:induction false} LineYields(p: Parser, body: seq<Byte>, tail: seq<Byte>)
    requires Trimmed(body) && forall b <- tail :: b == 10 || b == 13
    ensures LineEvents(p, body + tail) == Parsed(p, body)
  {
    if tail == [] {
      assert body + tail == body;
    } else {
      var n := |tail| - 1;
      assert tail[n] in tail && (body + tail)[..|body + tail| - 1] == body + tail[..n];
      forall b | b in tail[..n] ensures b == 10 || b == 13 {
        assert b in tail;
      }
      LineYields(p, body, tail[..n]);
    }
  }

  /** Reading one line, ended by nothing, a line feed, or a carriage return and a line feed. */
  lemma ReadingYields(p: Parser, body: seq<Byte>)
    requires Trimmed(body) && 10 !in body
    ensures EventsIn(p, body) == EventsIn(p, body + [10]) == EventsIn(p, body + [13, 10]) == Parsed(p, body)
  {
    assert Parsed(p, []) == [];
    hide EventsIn, LineEvents, Parsed;
    OneLine(p, body + [10]);
    OneLine(p, body + [13, 10]);
    LineYields(p, body, [10]);
    LineYields(p, body, [13, 10]);
    LineYields(p, body, []);
    assert body + [] == body;
    if body == [] {
      NothingRead(p);
    } else {
      EventsOfTornAlone(p, body);
    }
  }

  lemma OneLine(p: Parser, line: seq<Byte>)
    requires line != [] && line[|line| - 1] == 10 && 10 !in line[..|line| - 1]
    ensures EventsIn(p, line) == LineEvents(p, line)
  {
    hide LineEvents;
    LineEndOfRest(line, 0);
    NothingRead(p);
    assert line[..|line|] == line && line[|line|..] == [];
  }

  /** Texts as written: each with any number of carriage returns, and a line feed. */
  function Written(lines: seq<(seq<Byte>, nat)>): seq<Byte> {
    if lines == [] then []
    else Written(lines[..|lines| - 1]) + (lines[|lines| - 1].0 + seq(lines[|lines| - 1].1, _ => 13) + [10])
  }

  function AllParsed(p: Parser, lines: seq<(seq<Byte>, nat)>): seq<Event> {
    if lines == [] then [] else AllParsed(p, lines[..|lines| - 1]) + Parsed(p, lines[|lines| - 1].0)
  }

  /** A file of whole lines yields what their texts parse to, in order. */
  lemma {:induction false} FileYields(p: Parser, lines: seq<(seq<Byte>, nat)>)
    requires forall l <- lines :: Trimmed(l.0) && 10 !in l.0
    ensures EventsIn(p, Written(lines)) == AllParsed(p, lines) && EndsAtNewline(Written(lines))
  {
    hide EventsIn, Parsed, LineEvents;
    if lines == [] {
      NothingRead(p);
    } else {
      var n := |lines| - 1;
      var body, count := lines[n].0, lines[n].1;
      assert lines[n] in lines;
      var tail: seq<Byte> := seq(count, _ => 13) + [10];
      var line := body + seq(count, _ => 13) + [10];
      FileYields(p, lines[..n]);
      EventsConcat(p, Written(lines[..n]), line);
      assert line[..|line| - 1] == body + seq(count, _ => 13);
      OneLine(p, line);
      assert line == body + tail;
      LineYields(p, body, tail);
    }
  }
}
