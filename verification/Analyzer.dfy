/** The analyzer's event loop: cursor, incremental reader and detector dispatch, in place
    (internal/analyzer/analyzer.go, internal/analyzer/cursor.go). */
module Analyzer {
  import opened Events
  import opened JsonLines
  import opened Polling
  import Detectors
  import LoopDetector
  import ToolMisuseDetector
  import DriftDetector

  // ---------------------------------------------------------------- the cursor

  datatype FileCursor = FileCursor(offset: nat, lastRead: int)

  const UNSEEN := FileCursor(0, 0)

  datatype CursorEntry = CursorEntry(name: string, position: FileCursor)

  /** The cursor file: absent, not readable as a cursor, or a list of entries. */
  datatype CursorFile = Absent | Malformed | Entries(entries: seq<CursorEntry>)

  /** The position a list of entries gives a file; a later entry replaces an earlier one. */
  function PositionIn(entries: seq<CursorEntry>, name: string): FileCursor {
    if entries == [] then UNSEEN
    else
      var last := entries[|entries| - 1];
      if last.name == name then last.position else PositionIn(entries[..|entries| - 1], name)
  }

  /** The read position of each event file. */
  class Cursor {
    var files: map<string, FileCursor>

    constructor ()
      ensures files == map[] && forall name :: Get(name) == UNSEEN
    {
      files := map[];
    }

    /** Reads the cursor file; an absent one gives a fresh cursor, a malformed one none. */
    static method Load(file: CursorFile) returns (c: Option<Cursor>)
      ensures c.None? <==> file.Malformed?
      ensures c.Some? ==> fresh(c.value)
      ensures file.Absent? ==> forall name :: c.value.Get(name) == UNSEEN
      ensures file.Entries? ==> forall name :: c.value.Get(name) == PositionIn(file.entries, name)
    {
      if file.Malformed? {
        return None;
      }
      var loaded := new Cursor();
      if file.Entries? {
        for i := 0 to |file.entries|
          invariant fresh(loaded) && forall name :: loaded.Get(name) == PositionIn(file.entries[..i], name)
        {
          assert file.entries[..i + 1][..i] == file.entries[..i];
          loaded.Set(file.entries[i].name, file.entries[i].position);
        }
        assert file.entries[..|file.entries|] == file.entries;
      }
      return Some(loaded);
    }

    /** Writes every position, in any order. */
    method Save() returns (file: CursorFile)
      ensures file.Entries? && forall name :: PositionIn(file.entries, name) == Get(name)
    {
      var entries: seq<CursorEntry> := [];
      var remaining := files.Keys;
      while remaining != {}
        invariant remaining <= files.Keys
        invariant forall name :: PositionIn(entries, name) == if name in remaining then UNSEEN else Get(name)
        decreases |remaining|
      {
        var name :| name in remaining;
        ghost var before := entries;
        entries := entries + [CursorEntry(name, files[name])];
        assert entries[..|before|] == before;
        remaining := remaining - {name};
      }
      file := Entries(entries);
    }

    /** Saving and loading gives back every position. */
    method SaveAndLoad() returns (c: Cursor)
      ensures fresh(c) && forall name :: c.Get(name) == Get(name)
    {
      var file := Save();
      var loaded := Load(file);
      c := loaded.value;
    }

    /** The entry of a file, zero when the file has not been seen. */
    function Get(name: string): FileCursor
      reads this
    {
      if name in files then files[name] else UNSEEN
    }

    method Set(name: string, fc: FileCursor)
      modifies this
      ensures files == old(files)[name := fc]
      ensures Get(name) == fc && forall other :: other != name ==> Get(other) == old(Get(other))
    {
      files := files[name := fc];
    }

    ghost function Offsets(): map<string, nat> reads this { map n | n in files :: files[n].offset }
  }

  // ---------------------------------------------------------------- the detectors

  /** The three detectors behind one interface. */
  datatype Detector =
    | Loop(loop: LoopDetector.LoopDetector)
    | Misuse(misuse: ToolMisuseDetector.ToolMisuseDetector)
    | Drift(drift: DriftDetector.DriftDetector)
  {
    /** The detector object itself. */
    ghost function Core(): object {
      match this
      case Loop(d) => d
      case Misuse(d) => d
      case Drift(d) => d
    }

    ghost function Repr(): (r: set<object>)
      ensures Core() in r
      reads Core()
    {
      match this
      case Loop(d) => d.Repr()
      case Misuse(d) => d.Repr()
      case Drift(d) => d.Repr()
    }

    ghost predicate Valid()
      reads Repr()
    {
      match this
      case Loop(d) => d.Valid()
      case Misuse(d) => d.Valid()
      case Drift(d) => d.Valid()
    }

    ghost function Config(): Detectors.Config {
      match this
      case Loop(d) => Detectors.LoopConfig(d.config)
      case Misuse(d) => Detectors.MisuseConfig(d.config)
      case Drift(d) => Detectors.DriftConfig(d.config)
    }

    ghost function States(): (s: Detectors.States)
      requires Valid()
      reads Repr()
      ensures Detectors.Matches(Config(), s)
    {
      match this
      case Loop(d) => Detectors.LoopStates(d.States())
      case Misuse(d) => Detectors.MisuseStates(d.States())
      case Drift(d) => Detectors.DriftStates(d.States())
    }

    method Analyze(event: Event) returns (findings: seq<Finding>)
      requires Valid()
      modifies Repr()
      ensures Valid() && fresh(Repr() - old(Repr()))
      ensures (States(), findings) == Detectors.Feed(Config(), old(States()), event)
    {
      match this
      case Loop(d) => findings := d.Analyze(event);
      case Misuse(d) => findings := d.Analyze(event);
      case Drift(d) => findings := d.Analyze(event);
    }
  }

  ghost function Configs(ds: seq<Detector>): seq<Detectors.Config> {
    seq(|ds|, i requires 0 <= i < |ds| => ds[i].Config())
  }

  /** Every object some detector owns. */
  ghost function Owned(ds: seq<Detector>): set<object>
    reads set i | 0 <= i < |ds| :: ds[i].Core()
  {
    set i, o | 0 <= i < |ds| && o in ds[i].Repr() :: o
  }

  /** All detectors are in order and share nothing. */
  ghost predicate Ready(ds: seq<Detector>)
    reads set i | 0 <= i < |ds| :: ds[i].Core()
    reads Owned(ds)
  {
    && (forall i :: 0 <= i < |ds| ==> ds[i].Valid())
    && (forall i, j :: 0 <= i < j < |ds| ==> ds[i].Repr() !! ds[j].Repr())
  }

  ghost function StatesOf(ds: seq<Detector>): (ss: seq<Detectors.States>)
    requires Ready(ds)
    reads set i | 0 <= i < |ds| :: ds[i].Core()
    reads Owned(ds)
    ensures Detectors.AllMatch(Configs(ds), ss)
  {
    seq(|ds|, i requires 0 <= i < |ds| && Ready(ds)
      reads set i | 0 <= i < |ds| :: ds[i].Core()
      reads Owned(ds)
      => ds[i].States())
  }

  lemma OwnedIsAllocated(ds: seq<Detector>)
    ensures forall o <- Owned(ds) :: allocated(o)
  {
  }

  /** Nothing the detectors own changed, so neither did they. */
  twostate lemma Undisturbed(ds: seq<Detector>)
    requires old(Ready(ds)) && forall o <- old(Owned(ds)) :: old(allocated(o)) && unchanged(o)
    ensures Ready(ds) && Owned(ds) == old(Owned(ds)) && StatesOf(ds) == old(StatesOf(ds))
  {
    hide Detector.Valid, Detector.States, Detector.Config;
    forall i | 0 <= i < |ds|
      ensures ds[i].Valid() && ds[i].Repr() == old(ds[i].Repr()) && ds[i].States() == old(ds[i].States())
    {
      assert ds[i].Core() in old(ds[i].Repr());
      assert old(ds[i].Repr()) <= old(Owned(ds));
    }
  }

  /** One detector analyzes the event; the others are not touched. */
  method Advance(ds: seq<Detector>, k: nat, event: Event) returns (findings: seq<Finding>)
    requires Ready(ds) && k < |ds|
    modifies Owned(ds)
    ensures Ready(ds) && fresh(Owned(ds) - old(Owned(ds)))
    ensures var (s, fs) := Detectors.Feed(ds[k].Config(), old(StatesOf(ds)[k]), event);
      StatesOf(ds) == old(StatesOf(ds))[k := s] && findings == fs
  {
    hide Detectors.Feed, Detector.Valid, Detector.States, Detector.Config;
    findings := AnalyzeOne(ds, k, event);
  }

  /** A detector whose objects did not change has kept its state. */
  twostate lemma Untouched(d: Detector)
    requires old(d.Valid()) && forall o <- old(d.Repr()) :: old(allocated(o)) && unchanged(o)
    ensures d.Valid() && d.Repr() == old(d.Repr()) && d.States() == old(d.States())
  {
    hide Detector.Valid, Detector.States;
  }

  method AnalyzeOne(ds: seq<Detector>, k: nat, event: Event) returns (findings: seq<Finding>)
    requires Ready(ds) && k < |ds|
    modifies ds[k].Repr()
    ensures Ready(ds) && fresh(ds[k].Repr() - old(ds[k].Repr()))
    ensures forall i :: 0 <= i < |ds| && i != k
              ==> ds[i].Repr() == old(ds[i].Repr()) && ds[i].States() == old(ds[i].States())
    ensures (ds[k].States(), findings) == Detectors.Feed(ds[k].Config(), old(ds[k].States()), event)
  {
    hide Detectors.Feed, Detector.Valid, Detector.States, Detector.Config, Detector.Repr;
    OwnedIsAllocated(ds);
    assert forall i :: 0 <= i < |ds| && i != k ==> ds[i].Repr() !! ds[k].Repr();
    ghost var before := ds[k].Repr();
    findings := ds[k].Analyze(event);
    forall i | 0 <= i < |ds| && i != k
      ensures ds[i].Valid() && ds[i].Repr() == old(ds[i].Repr()) && ds[i].States() == old(ds[i].States())
    {
      assert old(ds[i].Repr()) <= old(Owned(ds));
      Untouched(ds[i]);
    }
    assert forall o <- ds[k].Repr() :: o in before || (o in ds[k].Repr() - before && !old(allocated(o)));
    forall i | 0 <= i < |ds| && i != k ensures ds[i].Repr() !! ds[k].Repr() {
      assert forall o <- ds[i].Repr() :: o in old(Owned(ds)) && old(allocated(o));
    }
  }

  /** Hands one event to every detector in turn. */
  method Dispatch(ds: seq<Detector>, event: Event) returns (findings: seq<Finding>)
    requires Ready(ds)
    modifies Owned(ds)
    ensures Ready(ds) && fresh(Owned(ds) - old(Owned(ds)))
    ensures (StatesOf(ds), findings) == Detectors.FeedAll(Configs(ds), old(StatesOf(ds)), event)
  {
    hide Detectors.Feed, Detectors.FeedAll, Owned, Ready, StatesOf;
    findings := [];
    ghost var cs, ss := Configs(ds), StatesOf(ds);
    Detectors.FeedAllNone(event);
    assert cs[..0] == [] && ss[..0] == [] && StatesOf(ds)[..0] == [];
    for k := 0 to |ds|
      invariant Ready(ds) && forall o <- Owned(ds) :: o in old(Owned(ds)) || fresh(o)
      invariant StatesOf(ds)[k..] == ss[k..]
      invariant (StatesOf(ds)[..k], findings) == Detectors.FeedAll(cs[..k], ss[..k], event)
    {
      ghost var before := StatesOf(ds);
      assert before[k] == before[k..][0] == ss[k..][0];
      ghost var owned := Owned(ds);
      label L:
      var fs := Advance(ds, k, event);
      findings := findings + fs;
      Detectors.FeedAllStep(cs, ss, k, event);
      assert StatesOf(ds)[..k + 1] == before[..k] + [StatesOf(ds)[k]];
      assert forall o <- Owned(ds) :: o in owned || (o in Owned(ds) - owned && !old@L(allocated(o)));
    }
    assert cs[..|ds|] == cs && ss[..|ds|] == ss && StatesOf(ds)[..|ds|] == StatesOf(ds);
  }

  // ---------------------------------------------------------------- the event loop

  /** Hands a chunk of events to the detectors; `seen` are the events they got before. */
  method RunDetectors(ds: seq<Detector>, events: seq<Event>, ghost seen: seq<Event>) returns (all: seq<Finding>)
    requires Ready(ds) && Detectors.AllValid(Configs(ds)) && StatesOf(ds) == Detectors.Run(Configs(ds), seen).0
    modifies Owned(ds)
    ensures Ready(ds) && fresh(Owned(ds) - old(Owned(ds)))
    ensures (StatesOf(ds), Detectors.Run(Configs(ds), seen).1 + all) == Detectors.Run(Configs(ds), seen + events)
  {
    hide Detectors.FeedAll, Detectors.Run, Owned, Ready, StatesOf;
    all := [];
    ghost var cs := Configs(ds);
    assert seen + events[..0] == seen && Detectors.Run(cs, seen).1 + [] == Detectors.Run(cs, seen).1;
    for k := 0 to |events|
      invariant Ready(ds) && forall o <- Owned(ds) :: o in old(Owned(ds)) || fresh(o)
      invariant (StatesOf(ds), Detectors.Run(cs, seen).1 + all) == Detectors.Run(cs, seen + events[..k])
    {
      ghost var owned := Owned(ds);
      label L:
      var fs := Dispatch(ds, events[k]);
      Detectors.RunSnoc(cs, seen + events[..k], events[k]);
      assert seen + events[..k] + [events[k]] == seen + events[..k + 1];
      assert Detectors.Run(cs, seen).1 + all + fs == Detectors.Run(cs, seen).1 + (all + fs);
      all := all + fs;
      assert forall o <- Owned(ds) :: o in owned || (o in Owned(ds) - owned && !old@L(allocated(o)));
    }
    assert events[..|events|] == events;
  }

  /** The latest time, when the times of the last event read from each file are taken in turn. */
  function Latest(p: Parser, r: Reader, dir: seq<File>, last: int): (t: int)
    ensures t >= last
  {
    if dir == [] then last
    else
      var n := |dir| - 1;
      var before, read := Latest(p, r, dir[..n], last), Polling.Poll(p, r, dir[..n]);
      Later(before, EventsIn(p, Unread(dir[n].content, read.Offset(dir[n].name))))
  }

  function Later(last: int, es: seq<Event>): int {
    if es != [] && es[|es| - 1].timestamp > last then es[|es| - 1].timestamp else last
  }

  lemma RunNothing(cs: seq<Detectors.Config>)
    requires Detectors.AllValid(cs)
    ensures Detectors.Run(cs, Untag([])) == (Detectors.InitAll(cs), [])
  {
  }

  /** The analyzer: its detectors, its cursor, and the findings written so far. */
  class Analyzer {
    const parse: Parser
    const detectors: seq<Detector>
    const cursor: Cursor
    var findings: seq<Finding>
    var lastProcessed: int
    ghost var log: seq<Tagged>

    ghost function Footprint(): set<object>
      reads set i | 0 <= i < |detectors| :: detectors[i].Core()
    {
      {this, cursor} + Owned(detectors)
    }

    /** What has been written is what one uninterrupted run over the dispatched events reports. */
    ghost predicate Valid()
      reads set i | 0 <= i < |detectors| :: detectors[i].Core()
      reads Footprint()
    {
      && Ready(detectors) && Detectors.AllValid(Configs(detectors))
      && this !in Owned(detectors) && cursor !in Owned(detectors)
      && (StatesOf(detectors), findings) == Detectors.Run(Configs(detectors), Untag(log))
    }

    ghost function Reader(): Polling.Reader
      reads this, cursor
    {
      Polling.Reader(cursor.Offsets(), log)
    }

    constructor (parse: Parser, detectors: seq<Detector>)
      requires Ready(detectors) && Detectors.AllValid(Configs(detectors))
      requires StatesOf(detectors) == Detectors.InitAll(Configs(detectors))
      ensures Valid() && this.parse == parse && this.detectors == detectors
      ensures Reader() == Polling.START && findings == []
    {
      hide Detectors.Run, Owned, Ready, StatesOf;
      RunNothing(Configs(detectors));
      OwnedIsAllocated(detectors);
      this.parse, this.detectors := parse, detectors;
      cursor := new Cursor();
      findings, lastProcessed, log := [], 0, [];
      new;
      Undisturbed(detectors);
    }

    /** Reads one file from its saved offset and runs the detectors over what is new. */
    method PollOne(file: File, now: int)
      requires Valid()
      modifies Footprint()
      ensures Valid() && fresh(Footprint() - old(Footprint()))
      ensures Reader() == PollFile(parse, old(Reader()), file)
      ensures var es := EventsIn(parse, Unread(file.content, old(cursor.Get(file.name)).offset));
        && lastProcessed == Later(old(lastProcessed), es)
        && (es != [] ==> cursor.Get(file.name).lastRead == now)
        && forall other :: es == [] || other != file.name ==> cursor.Get(other) == old(cursor.Get(other))
    {
      hide Detectors.Run, EventsIn, Owned, Ready, StatesOf;
      OwnedIsAllocated(detectors);
      var fc := cursor.Get(file.name);
      var events, newOffset := ReadNewEvents(parse, file.content, fc.offset);
      Undisturbed(detectors);
      if |events| == 0 {
        return;
      }
      var found := RunDetectors(detectors, events, Untag(log));
      OwnedIsAllocated(detectors);
      assert this !in Owned(detectors) && cursor !in Owned(detectors) by {
        assert forall o <- Owned(detectors) :: o in old(Owned(detectors))
                 || o in Owned(detectors) - old(Owned(detectors));
      }
      label L:
      findings := findings + found;
      assert Untag(log + Tag(file.name, events)) == Untag(log) + events;
      log := log + Tag(file.name, events);
      cursor.Set(file.name, FileCursor(newOffset, now));
      assert cursor.Offsets() == old(cursor.Offsets())[file.name := newOffset];
      if events[|events| - 1].timestamp > lastProcessed {
        lastProcessed := events[|events| - 1].timestamp;
      }
      Undisturbed@L(detectors);
    }

    /** One poll of the directory, file by file. */
    method Poll(dir: seq<File>, now: int)
      requires Valid()
      modifies Footprint()
      ensures Valid() && fresh(Footprint() - old(Footprint()))
      ensures Reader() == Polling.Poll(parse, old(Reader()), dir)
      ensures lastProcessed == Latest(parse, old(Reader()), dir, old(lastProcessed)) >= old(lastProcessed)
    {
      hide Valid, Footprint, PollFile, Later;
      assert dir[..0] == [];
      for i := 0 to |dir|
        invariant Valid() && forall o <- Footprint() :: o in old(Footprint()) || fresh(o)
        invariant Reader() == Polling.Poll(parse, old(Reader()), dir[..i])
        invariant lastProcessed == Latest(parse, old(Reader()), dir[..i], old(lastProcessed))
      {
        ghost var footprint := Footprint();
        label L:
        assert Reader().Offset(dir[i].name) == cursor.Get(dir[i].name).offset;
        PollOne(dir[i], now);
        assert dir[..i + 1][..i] == dir[..i];
        assert forall o <- Footprint() :: o in footprint || (o in Footprint() - footprint && !old@L(allocated(o)));
      }
      assert dir[..|dir|] == dir;
    }
  }
}
