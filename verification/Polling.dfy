/** Where polls cut the growing event files does not matter
    (internal/analyzer/analyzer.go, poll; internal/analyzer/cursor.go). */
module Polling {
  import opened Events
  import opened JsonLines
  import Detectors

  /** One event file as a poll sees it. */
  datatype File = File(name: string, content: seq<Byte>)

  /** An event and the file it was read from. */
  datatype Tagged = Tagged(file: string, event: Event)

  /** The saved offsets, and every event handed to the detectors so far. */
  datatype Reader = Reader(offsets: map<string, nat>, log: seq<Tagged>) {
    function Offset(name: string): nat { if name in offsets then offsets[name] else 0 }
  }

  const START := Reader(map[], [])

  function Tag(name: string, es: seq<Event>): seq<Tagged> {
    seq(|es|, i requires 0 <= i < |es| => Tagged(name, es[i]))
  }

  function Untag(log: seq<Tagged>): seq<Event> {
    seq(|log|, i requires 0 <= i < |log| => log[i].event)
  }

  /** The events that came from one file, in order. */
  function FromFile(log: seq<Tagged>, name: string): seq<Event> {
    if log == [] then []
    else if log[|log| - 1].file == name then FromFile(log[..|log| - 1], name) + [log[|log| - 1].event]
    else FromFile(log[..|log| - 1], name)
  }

  /** Reads one file; with no well-formed event to be had, the offset stays where it is. */
  function PollFile(p: Parser, r: Reader, f: File): Reader {
    var unread := Unread(f.content, r.Offset(f.name));
    var es := EventsIn(p, unread);
    if es == [] then r
    else Reader(r.offsets[f.name := r.Offset(f.name) + |unread|], r.log + Tag(f.name, es))
  }

  /** One poll reads the files in listing order. */
  function Poll(p: Parser, r: Reader, dir: seq<File>): Reader {
    if dir == [] then r else PollFile(p, Poll(p, r, dir[..|dir| - 1]), dir[|dir| - 1])
  }

  /** A run of polls, each of which finds the directory as given. */
  function Polls(p: Parser, runs: seq<seq<File>>): Reader {
    if runs == [] then START else Poll(p, Polls(p, runs[..|runs| - 1]), runs[|runs| - 1])
  }

  /** What a listing holds under a name; a missing file counts as empty. */
  function Content(dir: seq<File>, name: string): seq<Byte> {
    if dir == [] then []
    else if dir[|dir| - 1].name == name then dir[|dir| - 1].content
    else Content(dir[..|dir| - 1], name)
  }

  predicate DistinctNames(dir: seq<File>) {
    forall i, j :: 0 <= i < j < |dir| ==> dir[i].name != dir[j].name
  }

  // ---------------------------------------------------------------- one poll

  lemma {:induction false} FromFileConcat(a: seq<Tagged>, b: seq<Tagged>, name: string)
    ensures FromFile(a + b, name) == FromFile(a, name) + FromFile(b, name)
  {
    if b == [] {
      assert a + b == a;
    } else {
      assert (a + b)[..|a + b| - 1] == a + b[..|b| - 1];
      FromFileConcat(a, b[..|b| - 1], name);
    }
  }

  lemma {:induction false} FromFileTag(file: string, es: seq<Event>, name: string)
    ensures FromFile(Tag(file, es), name) == if file == name then es else []
  {
    if es != [] {
      assert Tag(file, es)[..|es| - 1] == Tag(file, es[..|es| - 1]);
      FromFileTag(file, es[..|es| - 1], name);
    }
  }

  /** What a poll does to one file: exactly what reading that file alone would. */
  lemma {:induction false} PollPerFile(p: Parser, r: Reader, dir: seq<File>, name: string)
    requires DistinctNames(dir)
    ensures var r', unread := Poll(p, r, dir), Unread(Content(dir, name), r.Offset(name));
      var es := EventsIn(p, unread);
      && FromFile(r'.log, name) == FromFile(r.log, name) + es
      && r'.Offset(name) == (if es == [] then r.Offset(name) else r.Offset(name) + |unread|)
  {
    hide EventsIn, PollFile;
    if dir == [] {
      assert Unread([], r.Offset(name)) == [];
      NoEventsInNothing(p);
    } else {
      var before, f := dir[..|dir| - 1], dir[|dir| - 1];
      PollPerFile(p, r, before, name);
      PollFilePerFile(p, Poll(p, r, before), f, name);
      if f.name == name {
        ContentAbsent(before, name);
        assert Unread([], r.Offset(name)) == [];
        NoEventsInNothing(p);
      }
    }
  }

  lemma PollFilePerFile(p: Parser, r: Reader, f: File, name: string)
    ensures var r', unread := PollFile(p, r, f), Unread(f.content, r.Offset(name));
      var es := if f.name == name then EventsIn(p, unread) else [];
      && FromFile(r'.log, name) == FromFile(r.log, name) + es
      && r'.Offset(name) == (if es == [] then r.Offset(name) else r.Offset(name) + |unread|)
  {
    hide EventsIn, FromFile;
    var es := EventsIn(p, Unread(f.content, r.Offset(f.name)));
    FromFileConcat(r.log, Tag(f.name, es), name);
    FromFileTag(f.name, es, name);
    assert FromFile(r.log, name) + [] == FromFile(r.log, name);
  }

  lemma NoEventsInNothing(p: Parser)
    ensures EventsIn(p, []) == []
  {
  }

  lemma {:induction false} ContentAbsent(dir: seq<File>, name: string)
    requires forall f <- dir :: f.name != name
    ensures Content(dir, name) == []
  {
    if dir != [] {
      ContentAbsent(dir[..|dir| - 1], name);
    }
  }

  // ---------------------------------------------------------------- whole runs

  /** What a poll may find under a name: more of the file than before, such that the cut left by the
      polls so far turns out to be clean. */
  ghost predicate SoundSnapshot(p: Parser, runs: seq<seq<File>>, name: string, i: nat)
    requires i < |runs|
  {
    var content, off := Content(runs[i], name), Polls(p, runs[..i]).Offset(name);
    && Grows(runs, name, i)
    && off <= |content| && CleanCut(p, content[..off], content[off..])
  }

  predicate Grows(runs: seq<seq<File>>, name: string, i: nat)
    requires i < |runs|
  {
    DistinctNames(runs[i]) && (i > 0 ==> Content(runs[i - 1], name) <= Content(runs[i], name))
  }

  predicate Growing(runs: seq<seq<File>>, name: string) {
    forall i :: 0 <= i < |runs| ==> Grows(runs, name, i)
  }

  ghost predicate SoundRun(p: Parser, runs: seq<seq<File>>, name: string) {
    forall i :: 0 <= i < |runs| ==> SoundSnapshot(p, runs, name, i)
  }

  lemma SoundRunBefore(p: Parser, runs: seq<seq<File>>, name: string)
    requires runs != [] && SoundRun(p, runs, name)
    ensures SoundRun(p, runs[..|runs| - 1], name)
  {
    var init := runs[..|runs| - 1];
    forall i | 0 <= i < |init| ensures SoundSnapshot(p, init, name, i) {
      assert SoundSnapshot(p, runs, name, i) && init[..i] == runs[..i];
    }
  }

  lemma SoundRunSnoc(p: Parser, runs: seq<seq<File>>, name: string)
    requires runs != [] && SoundRun(p, runs[..|runs| - 1], name) && SoundSnapshot(p, runs, name, |runs| - 1)
    ensures SoundRun(p, runs, name)
  {
    var init := runs[..|runs| - 1];
    forall i | 0 <= i < |runs| ensures SoundSnapshot(p, runs, name, i) {
      if i < |init| {
        assert SoundSnapshot(p, init, name, i) && init[..i] == runs[..i];
      }
    }
  }

  function Last(runs: seq<seq<File>>, name: string): seq<Byte> {
    if runs == [] then [] else Content(runs[|runs| - 1], name)
  }

  /** One more poll of a file whose events up to the offset have been delivered: afterwards exactly
      what the file holds has been delivered, if and only if the cut at the offset is clean. */
  lemma PollDelivers(p: Parser, r: Reader, dir: seq<File>, name: string)
    requires DistinctNames(dir) && r.Offset(name) <= |Content(dir, name)|
    requires FromFile(r.log, name) == EventsIn(p, Content(dir, name)[..r.Offset(name)])
    ensures var r', content, off := Poll(p, r, dir), Content(dir, name), r.Offset(name);
      && (FromFile(r'.log, name) == EventsIn(p, content) <==> CleanCut(p, content[..off], content[off..]))
      && r'.Offset(name) <= |content|
      && (r'.Offset(name) == off || r'.Offset(name) == |content|)
      && (FromFile(r'.log, name) == EventsIn(p, content) ==>
            FromFile(r'.log, name) == EventsIn(p, content[..r'.Offset(name)]))
  {
    hide EventsIn, CleanCut, FromFile, Poll;
    var content, off := Content(dir, name), r.Offset(name);
    PollPerFile(p, r, dir, name);
    CleanCutIff(p, content[..off], content[off..]);
    assert content[..off] + content[off..] == content && content[..|content|] == content;
    assert FromFile(r.log, name) + [] == FromFile(r.log, name);
  }

  /** Every well-formed event of a file reaches the detectors exactly once, in file order,
      wherever the polls cut the file, as long as the cuts are clean. */
  lemma {:induction false} DeliveredOnce(p: Parser, runs: seq<seq<File>>, name: string)
    requires SoundRun(p, runs, name)
    ensures var r, content := Polls(p, runs), Last(runs, name);
      && r.Offset(name) <= |content|
      && FromFile(r.log, name) == EventsIn(p, content[..r.Offset(name)]) == EventsIn(p, content)
  {
    hide EventsIn, CleanCut, Poll, FromFile;
    NoEventsInNothing(p);
    if runs == [] {
      NothingFromNoFile(name);
    } else {
      var init, dir := runs[..|runs| - 1], runs[|runs| - 1];
      SoundRunBefore(p, runs, name);
      DeliveredOnce(p, init, name);
      assert SoundSnapshot(p, runs, name, |runs| - 1);
      var off := Polls(p, init).Offset(name);
      assert Last(init, name)[..off] == Content(dir, name)[..off];
      PollDelivers(p, Polls(p, init), dir, name);
    }
  }

  lemma NothingFromNoFile(name: string)
    ensures FromFile([], name) == []
  {
  }

  /** After every poll exactly the file's events have been delivered. */
  ghost predicate AlwaysDelivered(p: Parser, runs: seq<seq<File>>, name: string) {
    forall k :: 0 <= k <= |runs| ==> FromFile(Polls(p, runs[..k]).log, name) == EventsIn(p, Last(runs[..k], name))
  }

  /** Of a growing file every event is delivered exactly once after every poll, if and only if each
      poll finds the cut left by the earlier ones clean. */
  lemma {:induction false} DeliveredOnceIff(p: Parser, runs: seq<seq<File>>, name: string)
    requires Growing(runs, name)
    ensures AlwaysDelivered(p, runs, name) <==> SoundRun(p, runs, name)
  {
    if SoundRun(p, runs, name) {
      SoundRunDelivers(p, runs, name);
    }
    if AlwaysDelivered(p, runs, name) {
      DeliveringRunIsSound(p, runs, name);
    }
  }

  lemma {:induction false} SoundRunDelivers(p: Parser, runs: seq<seq<File>>, name: string)
    requires SoundRun(p, runs, name)
    ensures AlwaysDelivered(p, runs, name)
  {
    hide EventsIn, CleanCut, Poll, FromFile, SoundRun, Polls;
    if runs != [] {
      var init := runs[..|runs| - 1];
      SoundRunBefore(p, runs, name);
      SoundRunDelivers(p, init, name);
      assert forall k :: 0 <= k <= |init| ==> init[..k] == runs[..k];
    }
    DeliveredOnce(p, runs, name);
    assert runs[..|runs|] == runs;
  }

  lemma {:induction false} DeliveringRunIsSound(p: Parser, runs: seq<seq<File>>, name: string)
    requires Growing(runs, name) && AlwaysDelivered(p, runs, name)
    ensures SoundRun(p, runs, name)
  {
    if runs != [] {
      var init, dir := runs[..|runs| - 1], runs[|runs| - 1];
      GrowingBefore(runs, name);
      DeliveredBefore(p, runs, name);
      hide EventsIn, CleanCut, Poll, FromFile, AlwaysDelivered, SoundRun, Growing, Grows;
      DeliveringRunIsSound(p, init, name);
      DeliveredOnce(p, init, name);
      var off := Polls(p, init).Offset(name);
      assert Last(init, name)[..off] == Content(dir, name)[..off];
      PollDelivers(p, Polls(p, init), dir, name);
      SoundRunSnoc(p, runs, name);
    }
  }

  lemma GrowingBefore(runs: seq<seq<File>>, name: string)
    requires runs != [] && Growing(runs, name)
    ensures var init, last := runs[..|runs| - 1], runs[|runs| - 1];
      && Growing(init, name) && Grows(runs, name, |runs| - 1)
      && DistinctNames(last) && Last(init, name) <= Content(last, name)
  {
    var init := runs[..|runs| - 1];
    assert Grows(runs, name, |runs| - 1);
    forall i | 0 <= i < |init| ensures Grows(init, name, i) {
      assert Grows(runs, name, i);
    }
  }

  lemma DeliveredBefore(p: Parser, runs: seq<seq<File>>, name: string)
    requires runs != [] && AlwaysDelivered(p, runs, name)
    ensures AlwaysDelivered(p, runs[..|runs| - 1], name)
    ensures FromFile(Polls(p, runs).log, name) == EventsIn(p, Last(runs, name))
  {
    hide EventsIn, Poll, FromFile, Polls;
    var init := runs[..|runs| - 1];
    assert forall k :: 0 <= k <= |init| ==> init[..k] == runs[..k];
    assert runs[..|runs|] == runs;
  }

  /** The poll finds the file ending at a newline, or no well-formed event in what is unread. */
  ghost predicate WholeLines(p: Parser, runs: seq<seq<File>>, name: string, i: nat)
    requires i < |runs|
  {
    var content := Content(runs[i], name);
    EndsAtNewline(content) || EventsIn(p, Unread(content, Polls(p, runs[..i]).Offset(name))) == []
  }

  /** In particular polls that only find whole lines are sound, and leave the offset at a newline. */
  lemma {:induction false} WholeLinesAreSound(p: Parser, runs: seq<seq<File>>, name: string)
    requires Growing(runs, name) && forall i :: 0 <= i < |runs| ==> WholeLines(p, runs, name, i)
    ensures SoundRun(p, runs, name)
    ensures var off, content := Polls(p, runs).Offset(name), Last(runs, name);
      off <= |content| && EndsAtNewline(content[..off])
  {
    if runs != [] {
      var init, dir := runs[..|runs| - 1], runs[|runs| - 1];
      GrowingBefore(runs, name);
      forall i | 0 <= i < |init| ensures WholeLines(p, init, name, i) {
        assert WholeLines(p, runs, name, i) && init[..i] == runs[..i];
      }
      assert WholeLines(p, runs, name, |runs| - 1) && Grows(runs, name, |runs| - 1);
      hide WholeLines, Growing, Grows, SoundRun;
      WholeLinesAreSound(p, init, name);
      LastWholeLines(p, runs, name);
    }
  }

  lemma {:induction false} LastWholeLines(p: Parser, runs: seq<seq<File>>, name: string)
    requires runs != [] && SoundRun(p, runs[..|runs| - 1], name)
    requires Grows(runs, name, |runs| - 1) && WholeLines(p, runs, name, |runs| - 1)
    requires var off, content := Polls(p, runs[..|runs| - 1]).Offset(name), Last(runs[..|runs| - 1], name);
      off <= |content| && EndsAtNewline(content[..off])
    ensures SoundRun(p, runs, name)
    ensures var off, content := Polls(p, runs).Offset(name), Last(runs, name);
      off <= |content| && EndsAtNewline(content[..off])
  {
    hide EventsIn, CleanCut, Poll, FromFile, SoundRun;
    var init, dir := runs[..|runs| - 1], runs[|runs| - 1];
    var off, content := Polls(p, init).Offset(name), Content(dir, name);
    assert Last(init, name)[..off] == content[..off];
    NewlineIsClean(p, content[..off], content[off..]);
    SoundRunSnoc(p, runs, name);
    PollPerFile(p, Polls(p, init), dir, name);
    assert content[..|content|] == content;
  }

  // ---------------------------------------------------------------- findings per session

  lemma {:induction false} SessionFromOneFile(log: seq<Tagged>, session: string, name: string)
    requires forall t <- log :: t.event.sessionId == session ==> t.file == name
    ensures OfSession(Untag(log), session) == OfSession(FromFile(log, name), session)
  {
    if log != [] {
      var init, t := log[..|log| - 1], log[|log| - 1];
      SessionFromOneFile(init, session, name);
      assert Untag(log) == Untag(init) + [t.event];
      OfSessionSnoc(Untag(init), t.event, session);
      assert t in log;
      if t.file == name {
        OfSessionSnoc(FromFile(init, name), t.event, session);
      } else {
        assert OfSession(Untag(init), session) + [] == OfSession(Untag(init), session);
      }
    }
  }

  lemma {:induction false} LoggedEventIsFromItsFile(log: seq<Tagged>, t: Tagged)
    requires t in log
    ensures t.event in FromFile(log, t.file)
  {
    if t != log[|log| - 1] {
      LoggedEventIsFromItsFile(log[..|log| - 1], t);
    }
  }

  /** All events of the session are in the file `name`, at the end of the run. */
  ghost predicate Confined(p: Parser, runs: seq<seq<File>>, session: string, name: string) {
    forall other, e :: e in EventsIn(p, Last(runs, other)) && e.sessionId == session ==> other == name
  }

  /** Poll-chunking invariance: however polls interleave with file growth, the findings of a
      session confined to one file are those of one uninterrupted run of the detectors over
      that session's events. */
  lemma ChunkingDoesNotMatter(p: Parser, cs: seq<Detectors.Config>, runs: seq<seq<File>>, session: string, name: string)
    requires Detectors.AllValid(cs) && forall other :: SoundRun(p, runs, other)
    requires Confined(p, runs, session, name)
    ensures FindingsOf(Detectors.Run(cs, Untag(Polls(p, runs).log)).1, session)
         == Detectors.Run(cs, OfSession(EventsIn(p, Last(runs, name)), session)).1
  {
    var log := Polls(p, runs).log;
    forall t | t in log && t.event.sessionId == session ensures t.file == name {
      LoggedEventIsFromItsFile(log, t);
      DeliveredOnce(p, runs, t.file);
    }
    DeliveredOnce(p, runs, name);
    SessionFromOneFile(log, session, name);
    Detectors.SessionsDoNotInterfere(cs, Untag(log), session);
  }

  // ---------------------------------------------------------------- polling into a torn line

  /** After any sound run that ends with a poll finding the file at `start`, inside a line, a poll
      finds that line complete. The file's events are then all delivered exactly once if and only if
      the earlier poll found no event and the cut before it is still clean, or it found one and the
      line holds the events of its two parts. */
  lemma TornLineIff(p: Parser, runs: seq<seq<File>>, torn: seq<File>, complete: seq<File>, name: string,
                    whole: seq<Byte>, start: seq<Byte>, rest: seq<Byte>, more: seq<Byte>)
    requires SoundRun(p, runs + [torn], name) && Grows(runs + [torn, complete], name, |runs| + 1)
    requires Content(torn, name) == whole + start && Content(complete, name) == whole + start + (rest + more)
    requires IsTorn(whole, start, rest)
    ensures var off, content := Polls(p, runs).Offset(name), whole + start + (rest + more);
      && off <= |whole + start|
      && (FromFile(Polls(p, runs + [torn, complete]).log, name) == EventsIn(p, content)
          <==> if EventsIn(p, (whole + start)[off..]) == [] then CleanCut(p, content[..off], content[off..])
               else LineEvents(p, start + rest) == LineEvents(p, start) + LineEvents(p, rest))
  {
    hide EventsIn, CleanCut, FromFile, Poll, LineEvents, SoundRun;
    var before, all := runs + [torn], runs + [torn, complete];
    var content := whole + start + (rest + more);
    assert before[..|before| - 1] == runs && all[..|all| - 1] == before;
    SoundRunBefore(p, before, name);
    DeliveredOnce(p, runs, name);
    DeliveredOnce(p, before, name);
    SoundRunGrows(p, before, name);
    var off, off1 := Polls(p, runs).Offset(name), Polls(p, before).Offset(name);
    PollPerFile(p, Polls(p, runs), torn, name);
    assert content[..off1] == (whole + start)[..off1];
    PollDelivers(p, Polls(p, before), complete, name);
    assert content[..|whole + start|] == whole + start && content[|whole + start|..] == rest + more;
    CleanCutInLine(p, whole, start, rest, more);
  }

  /** `whole` ends at a newline, and `start + rest` is one line behind it. */
  predicate IsTorn(whole: seq<Byte>, start: seq<Byte>, rest: seq<Byte>) {
    && EndsAtNewline(whole) && start != [] && NEWLINE !in start
    && rest != [] && rest[|rest| - 1] == NEWLINE && NEWLINE !in rest[..|rest| - 1]
  }

  lemma SoundRunGrows(p: Parser, runs: seq<seq<File>>, name: string)
    requires SoundRun(p, runs, name) && |runs| > 0
    ensures Grows(runs, name, |runs| - 1) && (|runs| > 1 ==> Last(runs[..|runs| - 1], name) <= Last(runs, name))
    ensures var off := Polls(p, runs[..|runs| - 1]).Offset(name); off <= |Last(runs, name)|
  {
    assert SoundSnapshot(p, runs, name, |runs| - 1);
  }

  lemma CleanCutInLine(p: Parser, whole: seq<Byte>, start: seq<Byte>, rest: seq<Byte>, more: seq<Byte>)
    requires IsTorn(whole, start, rest)
    ensures CleanCut(p, whole + start, rest + more)
            <==> LineEvents(p, start + rest) == LineEvents(p, start) + LineEvents(p, rest)
  {
    LineStartBehind(whole, start);
    LineEndOfRest(rest, 0);
    LineEndKept(rest, more, 0);
    assert (whole + start)[|whole|..] == start && (rest + more)[..|rest|] == rest;
  }

  lemma {:induction false} LineStartBehind(whole: seq<Byte>, start: seq<Byte>)
    requires EndsAtNewline(whole) && NEWLINE !in start
    ensures LineStart(whole + start) == |whole|
  {
    if start == [] {
      assert whole + start == whole;
    } else {
      assert start[|start| - 1] in start;
      assert (whole + start)[..|whole + start| - 1] == whole + start[..|start| - 1];
      LineStartBehind(whole, start[..|start| - 1]);
    }
  }

  /** When all polls before found whole lines, a line is torn for good exactly when the poll that
      tore it also found an event, be it a complete one before or the part itself, and the line does
      not hold the events of its two parts. A line of which neither part parses is then lost. */
  lemma TornLineLostIff(p: Parser, runs: seq<seq<File>>, torn: seq<File>, complete: seq<File>, name: string,
                        whole: seq<Byte>, start: seq<Byte>, rest: seq<Byte>, more: seq<Byte>)
    requires Growing(runs + [torn, complete], name) && forall i :: 0 <= i < |runs| ==> WholeLines(p, runs, name, i)
    requires Content(torn, name) == whole + start && Content(complete, name) == whole + start + (rest + more)
    requires IsTorn(whole, start, rest)
    ensures var off, content := Polls(p, runs).Offset(name), whole + start + (rest + more);
      && off <= |whole + start|
      && (FromFile(Polls(p, runs + [torn, complete]).log, name) == EventsIn(p, content)
          <==> EventsIn(p, (whole + start)[off..]) == []
               || LineEvents(p, start + rest) == LineEvents(p, start) + LineEvents(p, rest))
  {
    hide EventsIn, FromFile, Poll, LineEvents;
    var before, all := runs + [torn], runs + [torn, complete];
    var content := whole + start + (rest + more);
    forall i | 0 <= i < |runs| ensures Grows(runs, name, i) {
      assert Grows(all, name, i);
    }
    assert Grows(all, name, |runs|) && Grows(all, name, |runs| + 1);
    WholeLinesAreSound(p, runs, name);
    var off := Polls(p, runs).Offset(name);
    assert off <= |whole + start| && Last(runs, name)[..off] == (whole + start)[..off] == content[..off];
    NewlineIsClean(p, (whole + start)[..off], (whole + start)[off..]);
    NewlineIsClean(p, content[..off], content[off..]);
    hide CleanCut;
    assert before[..|runs|] == runs;
    SoundRunSnoc(p, before, name);
    TornLineIff(p, runs, torn, complete, name, whole, start, rest, more);
  }

  lemma NewlineIsClean(p: Parser, a: seq<Byte>, b: seq<Byte>)
    requires EndsAtNewline(a)
    ensures CleanCut(p, a, b)
  {
    EventsConcat(p, a, b);
    CleanCutIff(p, a, b);
  }
}
