/** The hash-chained audit sink as the object it is (internal/audit/hashchain.go). */
module HashChainSink {
  import opened Events
  import opened AuditChain

  /** The append-only file; it outlives the sinks opened on it. */
  class LogFile {
    var lines: seq<Line>

    constructor ()
      ensures lines == []
    {
      lines := [];
    }
  }

  class HashChainSink {
    const codec: Codec
    const file: LogFile
    var previousHash: string
    var lastSeq: int
    var stuck: bool

    ghost function State(): Handle
      reads this, file
    {
      Handle(Sink(file.lines, previousHash, lastSeq), stuck)
    }

    constructor At(codec: Codec, file: LogFile, previousHash: string, lastSeq: int)
      ensures this.codec == codec && this.file == file
      ensures State() == Handle(Sink(file.lines, previousHash, lastSeq), false)
    {
      this.codec, this.file, this.previousHash, this.lastSeq, stuck := codec, file, previousHash, lastSeq, false;
    }

    /** Opens a sink on a file, resuming from its last entry; fails on a line over the limit. */
    static method Open(codec: Codec, file: LogFile) returns (sink: Option<HashChainSink>)
      ensures sink.Some? <==> Resume(file.lines).Some?
      ensures sink.Some? ==> fresh(sink.value) && sink.value.codec == codec && sink.value.file == file
                             && sink.value.State() == Handle(Resume(file.lines).value, false)
      ensures file.lines == old(file.lines)
    {
      var lastEntry: Option<Entry> := None;
      for i := 0 to |file.lines|
        invariant AllFit(file.lines[..i]) && lastEntry == LastParsed(file.lines[..i])
      {
        var line := file.lines[i];
        assert file.lines[..i + 1][..i] == file.lines[..i] && line in file.lines;
        if !Fits(line) {
          return None;
        }
        if line.entry.Some? {
          lastEntry := line.entry;
        }
      }
      assert file.lines[..|file.lines|] == file.lines;
      var hash, number := GENESIS, 0;
      if lastEntry.Some? {
        hash, number := lastEntry.value.entryHash, lastEntry.value.sequenceNum;
      }
      var resumed := new HashChainSink.At(codec, file, hash, number);
      sink := Some(resumed);
    }

    /** Numbers, links and hashes an entry and appends it. A zero timestamp becomes `now`; `outcome`
        is how marshalling, writing and syncing go. */
    method Log(entry: Entry, now: int, outcome: Outcome) returns (ok: bool)
      modifies this, file
      ensures ok <==> outcome.Written? && !old(stuck)
      ensures var e := if entry.timestamp == 0 then entry.(timestamp := now) else entry;
        State() == Attempt(codec, old(State()), e, outcome)
    {
      lastSeq := lastSeq + 1;
      var written := entry.(sequenceNum := lastSeq, previousHash := previousHash);
      if written.timestamp == 0 {
        written := written.(timestamp := now);
      }
      written := written.(entryHash := ComputeHash(codec, written));
      previousHash := written.entryHash;
      if outcome.MarshalFails? {
        return false;
      }
      if stuck || outcome.WriteFails? {
        stuck := true;
        return false;
      }
      var sent := entry.(timestamp := written.timestamp);
      file.lines := file.lines + [Line(codec.size(written), Some(ReadBack(codec, sent, written)))];
      ok := outcome.Written?;
    }

    /** Walks the file; -1 without an error stands for an intact chain. */
    method Verify(fromSeq: int) returns (brokenAt: int, failed: bool)
      ensures var v := AuditChain.Verify(codec, file.lines, fromSeq); brokenAt == v.Code() && failed == v.IsError()
    {
      hide Preimage, Content, ReadBack, Chained, FirstUnsound, AuditChain.Verify;
      var expectedPrev, last := GENESIS, 0;
      var i := 0;
      while i < |file.lines|
        invariant i <= |file.lines|
        invariant expectedPrev == HashBefore(file.lines, i) && last == SeqBefore(file.lines, i)
        invariant forall j :: 0 <= j < i ==> Sound(codec, file.lines, fromSeq, j)
      {
        if !Fits(file.lines[i]) {
          VerifyNamesFirst(codec, file.lines, fromSeq, i);
          return -1, true;
        }
        if file.lines[i].entry.None? {
          VerifyNamesFirst(codec, file.lines, fromSeq, i);
          return last + 1, true;
        }
        var entry := file.lines[i].entry.value;
        if entry.sequenceNum >= fromSeq {
          if entry.previousHash != expectedPrev {
            VerifyNamesFirst(codec, file.lines, fromSeq, i);
            return entry.sequenceNum, false;
          }
          var computed := ComputeHash(codec, entry);
          if entry.entryHash != computed {
            VerifyNamesFirst(codec, file.lines, fromSeq, i);
            return entry.sequenceNum, false;
          }
        }
        expectedPrev, last := entry.entryHash, entry.sequenceNum;
        i := i + 1;
      }
      VerifyIntactIff(codec, file.lines, fromSeq);
      return -1, false;
    }

    /** The current chain head: for a sink that matches its file, the hash of the last entry and the
        number of entries, which is also what a sink reopened on the file reports. */
    method LatestCheckpoint() returns (hash: string, sequenceNum: int)
      ensures hash == State().sink.previousHash && sequenceNum == State().sink.seqNum
      ensures Numbered(codec, State().sink) ==> hash == Head(file.lines) && sequenceNum == |file.lines|
      ensures Numbered(codec, State().sink) && AllFit(file.lines) ==>
        Resume(file.lines) == Some(Sink(file.lines, hash, sequenceNum))
    {
      if Numbered(codec, State().sink) {
        NumberedResumes(codec, State().sink);
      }
      return previousHash, lastSeq;
    }
  }
}
