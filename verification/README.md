# Agent Transponder: verified model

Agent Transponder records what AI agents do and watches the record. This project models the seven
stateful parts of it whose guarantees hold over whole runs, and proves those guarantees.

| files | what they model |
|---|---|
| `Events`, `Arithmetic` | telemetry events and findings; facts about remainders |
| `LoopScan`, `LoopStreaming`, `LoopDetector` | the loop search, its streaming and batch forms, and the detector objects |
| `LoopReports` | what loop findings and detections say, in the terms of a session's calls |
| `LoopOnce`, `LoopTwice` | what a session reports, told from times and tool names; when a run is reported twice |
| `ToolMisuse`, `MisuseReports`, `ToolMisuseDetector` | retry storms and failure rates |
| `GoalDrift`, `DriftDetector` | drift of prompts from the first one |
| `Detectors` | all detectors together; sessions do not interfere |
| `JsonLines`, `Polling`, `Analyzer` | reading growing JSONL files from saved offsets and running the detectors |
| `AuditChain`, `HashChainSink` | the hash-chained audit log |
| `TokenBucket`, `PolicyEngine`, `ConfigEngine` | authorization and rate limits |
| `CircuitBreaker`, `Forwarding`, `Forwarder` | the analysis forwarder |
| `KeyStore`, `KeyRotation`, `KeyRuns`, `LocalManager` | the envelope key manager: its operations, rotation, whole runs, and the object |
| `Tailing`, `TailTies`, `TailAllTenants`, `TailOnTrack`, `Querying`, `EventStore` | the event store, its streams and its queries |
| `Uuid7` | time-ordered identifiers |

Code that updates objects, arrays or maps in place is modelled as classes and loops. Each of their
methods is proved to compute a pure step function, and the main theorems are about every run of
these functions. Clocks, random bytes, the network, cryptography and JSON parsing are parameters.
Where a proof needs a law of one of them it is a `requires` clause: the audit hash is injective and
never yields the genesis hash, and unwrapping undoes wrapping under the same key only. Of an audit
line only number and hashes, which are plain digits, are taken to be read back as they were written.

Verify with `dafny verify dfyconfig.toml`.

Some results differ from what comments in the code say, or state a limit of the code:

- With a time window one run of calls can be reported as several loops. Two findings report one run when they name the same block, wherever in it they start, and share a call or are joined by further repetitions of it. This happens exactly when the window cuts a run (`LoopTwice.ReportedTwiceIff`): A A A under a least length of one, and A B A B A, reported as A B and again as B A, under the default least length of two (`LoopTwice.OnceFailsWithWindow`, `LoopTwice.TurnedRunReportedAgain`). Without expiring calls each run is reported once (`LoopTwice.NeverTwice`), at its threshold, so repetitions beyond it never raise the confidence (`LoopStreaming.FoundAtThreshold`).
- The reader's offset can stand inside a line. The line's event is then delivered once only if the cut turns out to be clean, that is, the line holds the events of its two parts (`Polling.DeliveredOnceIff`, `Polling.TornLineIff`); a line torn behind an event read by the same poll, neither part of which parses, is lost (`Polling.TornLineLostIff`).
- An audit `Log` call that leaves no entry in the file breaks the chain for the next one written, unless the file is reopened in between (`AuditChain.RunVerifiesIff`). The real input is an entry that `json.Marshal` refuses, such as one whose timestamp has a year outside 0 to 9999: the chain has moved on, nothing is written, and the next call succeeds. A failed write leaves the buffered writer in error, so later calls fail too until the file is reopened; a failed `Sync` (internal/audit/hashchain.go:95-97) returns an error although the entry is in the file, and breaks nothing.
- Verification also names an intact entry whose hashed text is not read back as it was hashed, such as a detail that is not valid UTF-8: it is hashed as it is, but `json.Marshal` writes replacement characters (`AuditChain.UnreadableEntryIsNamed`; the condition is part of `AuditChain.RunVerifiesIff`).
- The verdict -1 can be trusted exactly from starting points that are not negative (`AuditChain.MinusOneIsReliableIff`).
- The key encryption key a rotation draws is kept only in memory (internal/keymanager/local.go:136-165), while a restart uses the configured one (cmd/ingestion/main.go:333-347). After a rotation that succeeds, a restart under the configured KEK loses every key (`KeyRuns.RotationThenRestart`, with the run generate, rotate, restart in `KeyRuns.RotatedKeyIsLost`).
- Rotation succeeds in every order only if every DEK opens under the KEK in force and, unless there is only one, also under the new KEK (`KeyRotation.RotateAlwaysSucceedsIff`), so usually only with all raw keys in memory (`KeyRotation.UnderOneAlwaysSucceedsIff`); generate two, restart, rotate always fails (`KeyRuns.RotationCanFail`). The store is untouched by the failure itself. The next save mixes DEKs under two KEKs unless all DEKs it saves are under one (`KeyRuns.GeneratingReadableIff`, `KeyRuns.ShreddingReadableIff`); after the first failed rotation from a state under one KEK that means it replaced or removed the only DEK not visited, or removed the only one visited (`KeyRuns.GeneratingAfterFailure`, `KeyRuns.ShreddingAfterFailure`).
- A stream over one tenant loses an event whose timestamp equals that of the last one emitted before it by an earlier poll (`TailTies.TailMissesTies`).
- A stream over all tenants, or over timestamps that are out of order, emits again or passes over events unless every poll finds only later events appended and delivers a part cut off by time (`TailOnTrack.StreamOnTrackIff`, for any filter, limit and delivery; `TailAllTenants.StreamIsExactIff` for complete polls).

## Model

| member | source | states |
|---|---|---|
| `LoopScan.ScanSoundAndMaximal` | internal/analyzer/detectors/loop.go:129-195 | every recorded span is a block of length in [minSeqLen, n/minReps] repeated exactly `reps` >= minReps times in a row, with no further copy behind it; no span starts inside an earlier one and spans of equal length are disjoint |
| `LoopScan.ScanComplete` | internal/analyzer/detectors/loop.go:129-195 | wherever some block of length at least minSeqLen occurs minReps times in a row, its first position lies inside a recorded span |
| `LoopScan.ScanEmptyIff` | internal/analyzer/detectors/loop.go:129-195 | something is recorded if and only if there is a loop to record |
| `LoopScan.RepsIffRepeats` | internal/analyzer/detectors/loop.go:143-150 | the inner loop counts m or more blocks exactly when m consecutive equal blocks fit there |
| `LoopScan.PassSound` | internal/analyzer/detectors/loop.go:132-194 | the pass for one block length records disjoint genuine loops, none starting in a position covered before |
| `LoopScan.PassComplete` | internal/analyzer/detectors/loop.go:132-194 | the pass for one block length misses no repetition of that length that is not covered already |
| `LoopScan.ScanStable` | internal/analyzer/detectors/loop.go:129-195 | one more call never withdraws a recorded loop or moves its start, and each new loop has its minReps-th block ending at that call |
| `LoopStreaming.StreamingEqualsBatch` | internal/analyzer/detectors/loop.go:87-198 | while no call has left the time window, the reported start events are exactly those of the loops the batch reference finds in the whole stream |
| `LoopStreaming.FindingsNumberedAndUnique` | internal/analyzer/detectors/loop.go:155-166 | a session's findings are numbered 1, 2, 3, ...; no start event is reported twice and there is one finding per distinct start event |
| `LoopStreaming.FoundAtThreshold` | internal/analyzer/detectors/loop.go:168-187 | while nothing expires every finding has exactly minReps repetitions, ends at the newest call and has confidence 0.5 |
| `LoopStreaming.WindowIsExact` | internal/analyzer/detectors/loop.go:103-116 | with a window and nondecreasing timestamps the scanned sequence is exactly the calls of the last windowSeconds |
| `LoopStreaming.NoLoopEscapes` | internal/analyzer/detectors/loop.go:87-198 | after any stream, every repetition in the retained calls lies in a loop whose start event has been reported |
| `LoopStreaming.FrontLoopReported` | internal/analyzer/detectors/loop.go:103-166 | a repetition at the front of the retained calls is reported under the first retained call |
| `LoopOnce.FindingsAreNewLoops` | internal/analyzer/detectors/loop.go:87-198 | over any stream with distinct event ids, a session retains the calls its times say, and its findings render, in order, the loops that start where none started in an earlier window |
| `LoopOnce.EmitIsUnseen` | internal/analyzer/detectors/loop.go:155-187 | one event reports, in order, the scanned loops whose start was not seen before |
| `LoopTwice.ReportedTwiceIff` | internal/analyzer/detectors/loop.go:21-26 | with distinct event ids two findings report one run (blocks equal up to rotation, and a shared call or the same repetition between them) if and only if the window cuts a run: a loop with the same block up to rotation starts inside a first recorded loop or continues it, recorded in a window whose front has moved |
| `LoopTwice.CutIsTold` | internal/analyzer/detectors/loop.go:103-153 | whether a run is cut depends on the calls' times and tool names only |
| `LoopTwice.NeverTwice` | internal/analyzer/detectors/loop.go:21-26 | while no call has left the window no run is reported twice, not even under a rotated block |
| `LoopTwice.EachDetectionFoundOnce` | internal/analyzer/detectors/loop.go:87-198 | while no call has left the window there are as many findings as batch detections, and each detection has exactly one finding, with its block, minReps repetitions and a prefix of its event ids |
| `LoopTwice.StartTellsBlock` | internal/analyzer/detectors/loop.go:129-195 | loops recorded at one start, in whatever windows, have the same block, the shortest that repeats there |
| `LoopTwice.OverlapNeedsExpiry` | internal/analyzer/detectors/loop.go:103-195 | a loop starts inside another with a block of the same length, or continues its repetition, only if the window's front moved between the two |
| `LoopTwice.FirstAtThreshold` | internal/analyzer/detectors/loop.go:155-187 | a loop first recorded in a step in which nothing expired has exactly minReps repetitions and ends at the newest call, whatever expired before |
| `LoopTwice.CutRunReportedAgain` | internal/analyzer/detectors/loop.go:21-26 | when the window's front comes to lie inside a reported loop or its continuation, and blocks of its length, but no shorter ones, still repeat minReps times there, the same run is reported twice; equal blocks need no check for shorter ones |
| `LoopTwice.EvenRunIsCut` | internal/analyzer/detectors/loop.go:103-166 | for any least length and threshold, a run with one call per second is cut by its last call when it is one call longer than the threshold asks and the window holds |
| `LoopTwice.OnceFailsWithWindow` | internal/analyzer/detectors/loop.go:21-26 | any three calls of one tool, one second apart, are reported as the same run twice under a window of one second and a threshold of two |
| `LoopTwice.TurnedRunReportedAgain` | internal/analyzer/detectors/loop.go:21-26 | any five calls of two alternating tools, one second apart, are reported as the same run twice under a window of three seconds, a threshold of two and a least length of two |
| `LoopStreaming.NewSpanEndsNow` | internal/analyzer/detectors/loop.go:155-166 | a scanned loop whose start event is new ends at the newest call with exactly minReps repetitions |
| `LoopStreaming.EmitNumbers` | internal/analyzer/detectors/loop.go:155-166 | the findings of one event continue the numbering, each under a start event not reported before |
| `LoopStreaming.EmitMarksAll` | internal/analyzer/detectors/loop.go:155-166 | after an event the start of every scanned loop counts as reported |
| `LoopStreaming.FindingSource` | internal/analyzer/detectors/loop.go:168-187 | each finding renders a scanned loop whose start event was not reported before |
| `LoopDetector.SliceEq` | internal/analyzer/detectors/loop.go:201-211 | true exactly when the two name slices are equal |
| `LoopDetector.CountReps` | internal/analyzer/detectors/loop.go:143-150 | the counting loop returns the number of consecutive copies of the block |
| `LoopDetector.Mark` | internal/analyzer/detectors/loop.go:189-192 | marks exactly the positions of the recorded loop, in addition to those marked before |
| `LoopDetector.Detect` | archive/analysis-python/flight_recorder_analysis/detectors/loop_detector.py:59-130 | the batch reference returns one detection for each scanned loop, in order; each names a block of the session's calls that occurs often enough and no further, its calls, and a confidence of 0.5 and 0.1 more for each repetition beyond the threshold, up to 1 |
| `LoopDetector.LoopSession.Append` | internal/analyzer/detectors/loop.go:98-115 | appends the call and drops the calls before the window's cutoff |
| `LoopDetector.LoopSession.DetectLoops` | internal/analyzer/detectors/loop.go:121-198 | the three nested loops with the set of reported positions compute the scan and report its new starts |
| `LoopDetector.LoopSession.DetectLength` | internal/analyzer/detectors/loop.go:132-194 | the loop over start positions computes one pass |
| `LoopDetector.LoopSession.Report` | internal/analyzer/detectors/loop.go:155-187 | reports a loop, with the specified confidence, unless its first event was reported before |
| `LoopReports.EveryFindingSays` | internal/analyzer/detectors/loop.go:155-187 | every finding of any stream carries the session, agent, tenant and time of the event that led to it, and names a block among the calls retained then that occurs in a row as often as stated and no further, with the ids of exactly these calls; with k repetitions beyond the threshold its confidence is (50 + 10k)/100 for k up to 5 and 1 beyond |
| `LoopReports.DetectionSays` | archive/analysis-python/flight_recorder_analysis/detectors/loop_detector.py:95-130 | the same of every detection of the batch reference |
| `LoopReports.CallsConcat` | internal/analyzer/detectors/loop.go:87-103 | a session's calls are its tool-call events, in order, |
| `LoopReports.CallsOfOne` | internal/analyzer/detectors/loop.go:87-103 | each with its tool name, event id and time |
| `LoopDetector.LoopSession.Observe` | internal/analyzer/detectors/loop.go:98-117 | one tool call moves the session on as the step function of the stream says |
| `LoopDetector.LoopDetector.constructor` | internal/analyzer/detectors/loop.go:63-76 | non-positive threshold and minimum length become 3 and 2; no sessions |
| `LoopDetector.LoopDetector.Reset` | internal/analyzer/detectors/loop.go:82-84 | forgets all sessions |
| `LoopDetector.LoopDetector.Analyze` | internal/analyzer/detectors/loop.go:87-118 | an event moves on only its own session's state, and the findings are those of that session's step |
| `ToolMisuse.StormsEqualBatch` | internal/analyzer/detectors/toolmisuse.go:127-170 | after any stream the reported (tool, arguments) storms are exactly those of the batch reference, over the recorded calls |
| `ToolMisuse.StormReportedAtThreshold` | internal/analyzer/detectors/toolmisuse.go:127-170 | a storm is reported when the failure that first exceeds the limit arrives and only then, listing exactly max + 1 failing calls with confidence 0.65 |
| `ToolMisuse.StormsReportedOnce` | internal/analyzer/detectors/toolmisuse.go:127-170 | each (tool, arguments) pair is reported once if the batch criterion holds of the whole stream and never otherwise |
| `ToolMisuse.RateReportedOnce` | internal/analyzer/detectors/toolmisuse.go:172-214 | a tool's failure rate is reported once if some point of the stream met the condition, and never otherwise; the latch says which |
| `ToolMisuse.RateTriggerIsFailure` | internal/analyzer/detectors/toolmisuse.go:172-214 | with more than minCalls calls on record the call that triggers the rate report is itself a failure |
| `ToolMisuse.RateBelowUntilReported` | internal/analyzer/detectors/toolmisuse.go:172-190 | with no report and no storm so far, enough calls mean the rate is below the limit |
| `ToolMisuse.HasStormIff` | internal/analyzer/detectors/toolmisuse.go:189-191 | a tool has a storm exactly when the batch criterion holds for some of its argument keys |
| `ToolMisuse.ObserveCallEffect` | internal/analyzer/detectors/toolmisuse.go:118-133 | what one call adds to the records of its tool and when its arguments become a storm |
| `ToolMisuse.ObserveCallRate` | internal/analyzer/detectors/toolmisuse.go:172-192 | when one call sets the rate latch and what it reports |
| `MisuseReports.FindingSays` | internal/analyzer/detectors/toolmisuse.go:127-214 | every finding of any stream carries the session, agent, tenant and time of its event and is either a storm, numbered, naming all failing calls with the same tool and arguments, one more than the limit, and their largest retry count, or a rate, naming all failing calls of the tool and their share of all its calls, at least the limit, with confidence 0.5 and 0.4 times that share, rounded |
| `MisuseReports.CriteriaAre` | internal/analyzer/detectors/toolmisuse.go:127-190 | when a pair is a storm and when a rate is reported, counted in failing calls of the stream's events |
| `MisuseReports.ToolCallsOfOne` | internal/analyzer/detectors/toolmisuse.go:98-125 | what a tool-call event is recorded as |
| `ToolMisuseDetector.CollectFailures` | internal/analyzer/detectors/toolmisuse.go:131-136 | collects exactly the failing calls, in order |
| `ToolMisuseDetector.GroupCalls` | archive/analysis-python/flight_recorder_analysis/detectors/tool_misuse.py:89-103 | groups a session's calls by tool and arguments, in order |
| `ToolMisuseDetector.DetectStorms` | archive/analysis-python/flight_recorder_analysis/detectors/tool_misuse.py:106-125 | the batch reference reports exactly the groups with more failing calls than the limit, with their ids |
| `ToolMisuseDetector.MisuseSession.Observe` | internal/analyzer/detectors/toolmisuse.go:109-216 | one tool call moves the session on as the step function says |
| `ToolMisuseDetector.ToolMisuseDetector.constructor` | internal/analyzer/detectors/toolmisuse.go:69-85 | non-positive parameters become 5, 0.7 and 3; no sessions |
| `ToolMisuseDetector.ToolMisuseDetector.Analyze` | internal/analyzer/detectors/toolmisuse.go:98-217 | an event moves on only its own session's state, and the findings are those of that session's step |
| `GoalDrift.Jaccard` | internal/analyzer/detectors/drift.go:28-46 | the similarity lies in [0, 1], is 1 exactly for equal sets and 0 exactly for disjoint sets not both empty |
| `GoalDrift.JaccardSymmetric` | internal/analyzer/detectors/drift.go:28-46 | the similarity is symmetric |
| `GoalDrift.EmittedIffBatchReports` | archive/analysis-python/flight_recorder_analysis/detectors/drift_detector.py:84-141 | a session has been reported exactly when the batch reference would report its prompts so far, and it is reported once |
| `GoalDrift.ReportedIffFar` | internal/analyzer/detectors/drift.go:110-138 | over any stream a session has one report exactly when it has three prompts or more and some later one has fewer tokens in common with the first than the threshold times their tokens together (two empty prompts count as equal), and none otherwise |
| `GoalDrift.ReportSays` | internal/analyzer/detectors/drift.go:117-177 | the report names exactly the prompts that are so far from the first, in order, and carries the session, agent, tenant and time of its event |
| `GoalDrift.ReportNumbers` | internal/analyzer/detectors/drift.go:138-177 | its average and least similarity are those of the prompts it names, and its confidence is 1.1 less the average, at most 1, rounded |
| `GoalDrift.PromptsConcat` | internal/analyzer/detectors/drift.go:92-105 | a session's prompts are its prompt events, in order, |
| `GoalDrift.PromptsOfOne` | internal/analyzer/detectors/drift.go:92-105 | each with its tokens and event id |
| `GoalDrift.ReportContents` | internal/analyzer/detectors/drift.go:110-177 | a report made after the third prompt names exactly the newest prompt and is a warning; it is an error only at the third prompt with both later prompts drifted; confidence lies in [0, 1] |
| `DriftDetector.ComputeJaccard` | internal/analyzer/detectors/drift.go:28-46 | the counting loop computes the share of common tokens |
| `DriftDetector.CollectDrifted` | internal/analyzer/detectors/drift.go:118-132 | collects the prompts after the first that are below the threshold: their ids are those of the prompts whose common tokens with the first are fewer than the threshold times their tokens together |
| `DriftDetector.Detect` | archive/analysis-python/flight_recorder_analysis/detectors/drift_detector.py:84-141 | the batch reference reports exactly when there are three prompts and one is that far from the first; it names exactly these, as an error when they are at least four fifths of the later ones, with the streaming report's confidence |
| `DriftDetector.DriftSession.Observe` | internal/analyzer/detectors/drift.go:104-177 | one prompt moves the session on as the step function says |
| `DriftDetector.DriftDetector.constructor` | internal/analyzer/detectors/drift.go:72-81 | a non-positive threshold becomes 0.3; no sessions |
| `DriftDetector.DriftDetector.Analyze` | internal/analyzer/detectors/drift.go:92-178 | an event moves on only its own session's state, and the findings are those of that session's step |
| `Detectors.SessionsDoNotInterfere` | internal/analyzer/analyzer.go:258-272 | for every interleaving of sessions, all detectors together report for a session what they report over that session's events alone |
| `Detectors.DetectorReportsPerSession` | internal/analyzer/analyzer.go:258-272 | a lone detector fed any interleaving reports for each session what its own run over that session's events says |
| `Detectors.FeedIsLocal` | internal/analyzer/analyzer.go:258-272 | what an event reports depends only on its own session's state |
| `JsonLines.ReadNewEvents` | internal/analyzer/analyzer.go:209-254 | reads every well-formed event behind the offset in order and advances the offset to the end of the file; of a file shorter than the offset it reads nothing |
| `JsonLines.ReadLine` | internal/analyzer/analyzer.go:231-233 | returns the bytes up to and including the next newline, or to the end of input |
| `JsonLines.ParseLine` | internal/analyzer/analyzer.go:235-246 | skips blank and malformed lines |
| `JsonLines.LineYields` | internal/analyzer/analyzer.go:235-246 | a line yields exactly the event its text parses to, if any, where the text is the line without the bytes 10 and 13 at its end; one of only such bytes yields nothing |
| `JsonLines.ReadingYields` | internal/analyzer/analyzer.go:231-246 | the same of a file of one line, ended by nothing, by byte 10 or by bytes 13 and 10 |
| `JsonLines.FileYields` | internal/analyzer/analyzer.go:209-254 | a file of whole lines yields what their texts parse to, in order |
| `JsonLines.EventsConcat` | internal/analyzer/analyzer.go:209-254 | cutting the input at a newline does not change the events read |
| `JsonLines.CleanCutIff` | internal/analyzer/analyzer.go:206-254 | reading a file in two parts yields the events of the whole exactly when the cut is at a line's start or the torn line holds the events of its two parts |
| `JsonLines.TornLineYieldsNothing` | internal/analyzer/analyzer.go:206-208 | a line read in two halves yields nothing although it holds an event, contrary to the comment that the offset stands behind the last complete line |
| `Polling.DeliveredOnce` | internal/analyzer/analyzer.go:119-184 | every well-formed event of a file reaches the detectors exactly once and in file order, wherever polls cut the file, as long as each poll finds the cut left by the earlier ones clean |
| `Polling.DeliveredOnceIff` | internal/analyzer/analyzer.go:119-184 | of a growing file, exactly its events have been delivered after every poll if and only if each poll finds the cut left by the earlier ones clean |
| `Polling.WholeLinesAreSound` | internal/analyzer/analyzer.go:119-184 | polls that find whole lines, or no event in what is unread, leave only clean cuts |
| `Polling.ChunkingDoesNotMatter` | internal/analyzer/analyzer.go:119-184 | however polls interleave with file growth, as long as their cuts are clean, the findings of a session confined to one file are those of one uninterrupted run over its events |
| `Polling.PollPerFile` | internal/analyzer/analyzer.go:131-160 | a poll of the directory does to each file what reading that file alone would, and leaves the offset when there is no well-formed event |
| `Polling.TornLineIff` | internal/analyzer/analyzer.go:119-184 | after any sound run, when a poll finds a file ending inside a line and the next finds that line complete, all events are delivered exactly once if and only if the first of the two found no event and the cut before it is still clean, or it found one and the line holds the events of its two parts |
| `Polling.TornLineLostIff` | internal/analyzer/analyzer.go:119-184 | when the polls before found whole lines, the file's events are all delivered exactly once if and only if the poll that met the torn line found no event or the line holds the events of its two parts |
| `Analyzer.Cursor.Set` | internal/analyzer/cursor.go:109-111 | sets one file's entry and no other |
| `Analyzer.Cursor.Load` | internal/analyzer/cursor.go:43-60 | fails exactly on a malformed file; an absent file gives every event file position zero, a saved one the position its last entry names |
| `Analyzer.Cursor.Save` | internal/analyzer/cursor.go:76-101 | writes a file from which every position, and zero for every other name, can be read |
| `Analyzer.Cursor.SaveAndLoad` | internal/analyzer/cursor.go:43-101 | loading what was saved gives back every position |
| `Analyzer.Dispatch` | internal/analyzer/analyzer.go:258-272 | hands one event to every detector in list order; each moves on by its own step |
| `Analyzer.RunDetectors` | internal/analyzer/analyzer.go:258-272 | the findings of a chunk continue an uninterrupted run of the detectors |
| `Analyzer.Analyzer.PollOne` | internal/analyzer/analyzer.go:131-160 | reads one file from its cursor, runs the detectors and moves that cursor, and no other, to what was read and now; written findings stay those of one uninterrupted run |
| `Analyzer.Analyzer.Poll` | internal/analyzer/analyzer.go:119-184 | polls the files in order with that effect; the last processed time is the latest among those of the last event read from each file, and never goes back |
| `AuditChain.VerifyIntactIff` | internal/audit/hashchain.go:104-153 | verification succeeds exactly when every line parses or is skipped as the code does and every scanned link and hash checks |
| `AuditChain.VerifyNamesFirst` | internal/audit/hashchain.go:104-153 | otherwise the verdict is that of the first line that does not check |
| `AuditChain.SoundIff` | internal/audit/hashchain.go:124-146 | a line checks exactly when it is readable and lies before the starting point, or names the hash of the line before it, 64 zeros for the first, and carries the hash of its own fields |
| `AuditChain.VerifyReports` | internal/audit/hashchain.go:117-153 | the number and error reported for the first line that does not check: -1 and an error for one that is too long, the number after the last entry and an error for one that does not parse, its own number otherwise |
| `AuditChain.FitsIff` | internal/audit/hashchain.go:113-114 | a line is readable when it is shorter than 256 KiB with its newline |
| `AuditChain.MinusOneMeansIntact` | internal/audit/hashchain.go:104-153 | from a non-negative starting point the number -1 without an error means every line checks, and conversely |
| `AuditChain.MinusOneCanMeanBroken` | internal/audit/hashchain.go:128-146 | from every negative starting point a broken entry numbered -1, in any line that fits the scanner, is reported as -1 without an error |
| `AuditChain.MinusOneIsReliableIff` | internal/audit/hashchain.go:104-153 | -1 without an error means an intact chain, whatever the file holds, if and only if the starting point is not negative |
| `AuditChain.HeadBindsLog` | internal/audit/hashchain.go:104-186 | two logs that verify from a point before all their entries and end in the same hash have equal length and equal hashed text at every position |
| `AuditChain.PreimageHead` | internal/audit/hashchain.go:173-186 | the hashed text determines sequence number and previous hash |
| `AuditChain.PreimageFields` | internal/audit/hashchain.go:173-186 | it determines every hashed field when the fields before the detail contain no bar |
| `AuditChain.PreimageIs` | internal/audit/hashchain.go:173-186 | split at its bars, the hashed text is number, previous hash, time, action, outcome, actor, resource and detail, in this order |
| `AuditChain.DecimalValue` | internal/audit/hashchain.go:173-186 | numbers are written so that they can be read back |
| `AuditChain.AttemptSays` | internal/audit/hashchain.go:63-100 | one call always moves the sink to the entry's number and hash; the entry is in the file unless marshalling or writing failed, even if syncing did; only a failed write keeps later calls from writing |
| `AuditChain.ResumesFromLastParsed` | internal/audit/hashchain.go:188-221 | reopening resumes from the last line that parses, whatever follows it, and from 64 zeros and 0 when none does |
| `AuditChain.RunLogsChains` | internal/audit/hashchain.go:63-100 | successful calls number their entries 1, 2, 3, ... and link each to the one before; every line carries its own hash exactly when the hashed text of every entry survives being written and read |
| `AuditChain.ChainVerifiesAndResumes` | internal/audit/hashchain.go:104-221 | a written chain verifies from every starting point, and reopening it restores the sink, exactly when all its lines fit the scanner |
| `AuditChain.RestartsDoNotMatter` | internal/audit/hashchain.go:34-100 | however calls that write, fail to marshal, fail to write or fail to sync are split by restarts, as long as no entry is written between a failure and the next reopening the file is that of the uninterrupted run of the calls that reached it; restarts succeed exactly as long as none meets a line over the scanner's limit |
| `AuditChain.RunVerifiesIff` | internal/audit/hashchain.go:34-153 | over every run of calls, failures and restarts, verification from any point up to the first entry succeeds if and only if all lines fit the scanner, no entry was written between a failure and the next reopening, and the hashed text of every entry written survives being written and read |
| `AuditChain.UnreadableEntryIsNamed` | internal/audit/hashchain.go:76-146 | an entry whose hashed text does not survive is itself named broken |
| `AuditChain.ChangeIsLocalised` | internal/audit/hashchain.go:104-153 | changing the hashed text of entry k makes verification from any point up to k name k, and is not seen from later points |
| `AuditChain.DeletionIsLocalised` | internal/audit/hashchain.go:104-153 | deleting entry k, not the last, makes verification from any point up to k + 1 name k + 1 |
| `AuditChain.FailedLogBreaksNext` | internal/audit/hashchain.go:63-100 | on any chain, after a call that fails behind the hash computation the next written entry is the one named broken; reopening first restores the chain |
| `HashChainSink.HashChainSink.Open` | internal/audit/hashchain.go:34-60 | opens a sink in the state its file's last parsable entry says; fails on a line over the limit |
| `HashChainSink.HashChainSink.Log` | internal/audit/hashchain.go:63-100 | numbers, links, hashes and appends an entry; the sink advances however the call ends, and the entry is in the file exactly when marshalling and writing succeed, even if syncing then fails |
| `HashChainSink.HashChainSink.Verify` | internal/audit/hashchain.go:104-153 | the scanning loop returns the number and error of the specified verdict |
| `HashChainSink.HashChainSink.LatestCheckpoint` | internal/audit/hashchain.go:156-160 | for a sink that matches its file, the hash of the last line and the number of entries, and what a sink reopened on the file reports |
| `TokenBucket.WindowBound` | internal/policy/config.go:167-198 | between any two instants at most burst + rate * elapsed calls are allowed, for any bucket and any call sequence (a negative burst or rate counts as zero) |
| `TokenBucket.TokensStayInRange` | internal/policy/config.go:167-198 | with a rate and burst that are not negative the tokens stay in [0, burst] |
| `TokenBucket.BurstIsExact` | internal/policy/config.go:158-198 | a bucket that is full, or has had the time to fill, allows exactly as many calls made at one instant as the burst holds whole tokens |
| `TokenBucket.DelayIsOneToken` | internal/policy/config.go:180-188 | the delay times the rate is one token, and the delay is one second when the rate is not positive |
| `TokenBucket.GreedyIsOptimal` | internal/policy/config.go:167-198 | at every prefix `allow` has admitted at least as many calls as any other choice feasible under the same refill |
| `TokenBucket.GreedyLeads` | internal/policy/config.go:167-198 | any feasible choice holds at most the greedy bucket's tokens plus the difference in admitted calls |
| `TokenBucket.WaitingSufficesIff` | internal/policy/config.go:180-188 | after a refusal, waiting the reported delay makes the next call succeed exactly when the rate is positive and the burst holds a whole token |
| `TokenBucket.WithinStep` | internal/policy/config.go:167-198 | one call keeps the window invariant that ties tokens in hand to calls allowed so far |
| `PolicyEngine.AgentWindowBound` | internal/policy/config.go:51-95 | between reloads each agent is allowed at most its burst plus its rate times the elapsed time between any two instants, under any rules and whatever the other agents do |
| `PolicyEngine.DeniedConsumesNothing` | internal/policy/config.go:55-84 | a denial changes no bucket, and no request touches another agent's bucket |
| `PolicyEngine.EvaluateFits` | internal/policy/config.go:51-95 | a request without identity is denied for that; one of an agent on the deny list is denied for that, whatever its actions and bucket; one of an agent with an action list that has neither the action nor a star is denied for that; every other request is allowed or throttled |
| `PolicyEngine.RunFits` | internal/policy/config.go:51-95 | so is every request of a run between reloads |
| `PolicyEngine.ListedNeverAllowed` | internal/policy/config.go:59-64 | an agent on the deny list is never allowed anything between reloads |
| `PolicyEngine.ThrottledDelay` | internal/policy/config.go:86-93 | a throttled caller is told the time one token takes at its agent's rate, or one second when the rate is not positive |
| `PolicyEngine.FirstBurst` | internal/policy/config.go:133-178 | of the first requests of an agent that is not denied, made at one instant, exactly as many are allowed as its burst holds |
| `PolicyEngine.LimitInForce` | internal/policy/config.go:109-140 | an override is in force as it is, other agents have the default with zeros replaced by 100 and 500 |
| `ConfigEngine.BucketObject.Fill` | internal/policy/config.go:190-198 | refills up to the burst |
| `ConfigEngine.BucketObject.TryTake` | internal/policy/config.go:167-178 | refills and takes a token if a whole one is there |
| `ConfigEngine.BucketObject.Delay` | internal/policy/config.go:180-188 | for a bucket just refused, a positive delay after which the next call is allowed exactly when the rate is positive and the burst holds a whole token |
| `TokenBucket.DelayFillsIff` | internal/policy/config.go:180-188 | the same for any bucket without a whole token, counted from its last refill |
| `ConfigEngine.ConfigEngine.Reload` | internal/policy/config.go:98-124 | replaces zero defaults by 100 and 500 and forgets all buckets |
| `ConfigEngine.ConfigEngine.IsDenied` | internal/policy/config.go:59-64 | the loop finds whether the agent is on the deny list |
| `ConfigEngine.ConfigEngine.IsActionAllowed` | internal/policy/config.go:67-83 | the loop finds whether the action or a star is allowed; agents without a list may do anything |
| `ConfigEngine.ConfigEngine.GetBucket` | internal/policy/config.go:133-147 | returns the agent's bucket, creating it full from the agent's override or the default; others are untouched |
| `ConfigEngine.ConfigEngine.Evaluate` | internal/policy/config.go:51-95 | the deny list, then the action list, then one token of the agent's bucket; the decision is as the rules say, and the new buckets are those specified |
| `CircuitBreaker.FailuresCountTheStreak` | cmd/ingestion/analysis.go:231-267 | the circuit is open exactly when the failed attempts in a row are a positive multiple of the threshold, and the failure counter is their remainder, hence below the threshold while closed |
| `CircuitBreaker.AttemptedIffCooledDown` | cmd/ingestion/analysis.go:231-245 | a flush is attempted exactly when it starts more than one cooldown after every failure that opened the circuit |
| `CircuitBreaker.BreakerTracksOpenings` | cmd/ingestion/analysis.go:231-260 | the breaker would admit a flush now exactly when every opening is over |
| `CircuitBreaker.OpeningsAreSpaced` | cmd/ingestion/analysis.go:248-260 | openings are more than one cooldown apart |
| `CircuitBreaker.OutageBound` | cmd/ingestion/analysis.go:231-267 | during an outage any interval no longer than the cooldown contains at most the threshold's number of attempts |
| `CircuitBreaker.OutageInvariant` | cmd/ingestion/analysis.go:231-267 | once an attempt fell into the interval the circuit is open to its end or still counting the attempts |
| `Forwarding.Conservation` | cmd/ingestion/analysis.go:100-205 | in every reachable state flushed batches, batch and channel concatenate to the accepted submissions in order; channel and batch stay bounded and no flush is empty |
| `Forwarding.StopFlushesEverything` | cmd/ingestion/analysis.go:142-164 | shutdown flushes everything accepted before it finishes, and nothing is flushed after |
| `Forwarding.DrainedIsOneFlush` | cmd/ingestion/analysis.go:152-164 | draining without interference sends batch and channel as one flush and leaves both empty |
| `Forwarding.GroupsPartitionBatch` | cmd/ingestion/analysis.go:184-188 | each event is in its own session's group as often as in the batch and in no other group |
| `Forwarding.GroupOf` | cmd/ingestion/analysis.go:184-188 | a session has a group exactly when it has events in the batch, and the group is those events in order |
| `Forwarding.DeliveredInOrder` | cmd/ingestion/analysis.go:190-204 | what the engine receives of a session is, in order, what was flushed of it in the batches neither skipped nor refused; if that was every batch, it is the session's accepted events up to those still waiting |
| `Forwarding.RunDials` | cmd/ingestion/analysis.go:167-204 | over every run the forwarder is connected exactly when it was at the start or a flush has been sent, and a flush the breaker admits fails for want of a connection exactly when neither holds and dialling fails; it is sent otherwise |
| `Forwarding.HealthyRunDeliversAll` | cmd/ingestion/analysis.go:121-205 | when no flush was skipped, none of a session's requests was rejected, and the forwarder was connected at the start or every dial succeeds, the engine has received all the session's accepted events up to those still waiting |
| `Forwarding.FlushesAre` | cmd/ingestion/analysis.go:190-204 | a flush counts as a success exactly when it was sent and no event's session was rejected |
| `Forwarding.AcceptedBelowCapacity` | cmd/ingestion/analysis.go:100-107 | a submission is accepted exactly while fewer than 1000 events are queued |
| `Forwarding.FlushesWhenFull` | cmd/ingestion/analysis.go:129-140 | receiving an event flushes exactly when it fills the batch, and a tick flushes whatever is there |
| `Forwarding.CancelFlushesAll` | cmd/ingestion/analysis.go:142-164 | cancelling in any reachable state and draining flushes everything accepted and stops |
| `Forwarding.BreakerFollowsFlushes` | cmd/ingestion/analysis.go:167-205 | the forwarder's breaker is in the state its flushes put it in, and exactly the flushes it turned away were skipped |
| `Forwarding.OutageSparesEngine` | cmd/ingestion/analysis.go:167-205 | the outage bound holds of the forwarder, whatever is submitted |
| `Forwarder.GroupBySession` | cmd/ingestion/analysis.go:184-188 | the one-pass loop computes the groups |
| `Forwarder.AnalysisForwarder.Submit` | cmd/ingestion/analysis.go:100-107 | enqueues without blocking; an event is dropped exactly when 1000 are queued |
| `Forwarder.AnalysisForwarder.CircuitAllows` | cmd/ingestion/analysis.go:231-245 | closes the circuit and clears the counter after the cooldown |
| `Forwarder.AnalysisForwarder.RecordFailure` | cmd/ingestion/analysis.go:248-260 | counts a failure and opens the circuit at the threshold |
| `Forwarder.AnalysisForwarder.SendAll` | cmd/ingestion/analysis.go:190-199 | tries every session's request; succeeds exactly when none is rejected |
| `Forwarder.AnalysisForwarder.Flush` | cmd/ingestion/analysis.go:167-205 | skips, dials unless connected, groups, sends and records as the step machine says |
| `Forwarder.AnalysisForwarder.Receive` | cmd/ingestion/analysis.go:129-134 | adds one event to the batch and flushes a full batch |
| `Forwarder.AnalysisForwarder.Tick` | cmd/ingestion/analysis.go:136-140 | flushes a batch that is not empty |
| `Forwarder.AnalysisForwarder.DrainAndFlush` | cmd/ingestion/analysis.go:152-164 | the shutdown loop ends in the drained state |
| `Forwarder.AnalysisForwarder.RunBatcher` | cmd/ingestion/analysis.go:121-149 | under any schedule the batcher is in the state of the corresponding run |
| `KeyRuns.RunRefinesMap` | internal/keymanager/local.go:52-171 | over every run of generate, get, shred, rotate and restart, whatever rotations fail and whatever KEK each restart uses, memory and store hold exactly the keys of the plain map from bucket to key, each wrapped under the KEK on record for it |
| `KeyRuns.LookupsAfterRun` | internal/keymanager/local.go:86-105 | after any run a lookup finds the plain map's key or nothing; all answer as the map does if and only if every DEK is in memory or wrapped under the current KEK |
| `KeyRuns.GeneratingStores` | internal/keymanager/local.go:52-83 | after any run, generating stores the key wrapped under the KEK in force with the nonce drawn for it, and its metadata, and all other DEKs as memory holds them |
| `KeyRuns.RotationStores` | internal/keymanager/local.go:141-171 | a successful rotation stores every key wrapped under the new KEK with the nonce drawn for it |
| `KeyRuns.MetadataIsKept` | internal/keymanager/local.go:52-171 | after any run every DEK has, in memory and in the store, the metadata it was generated with |
| `KeyRuns.RestartAfterRun` | internal/keymanager/local.go:32-49 | after any run a restart under any KEK recovers exactly the keys stored under that KEK, hence the plain map if and only if all are |
| `KeyRuns.ConfiguredKekSuffices` | cmd/ingestion/main.go:333-347 | over every run without rotation whose restarts use the configured KEK, all lookups and a further restart answer as the plain map does |
| `KeyRuns.RotationThenRestart` | internal/keymanager/local.go:131-171 | after any run that ends with a successful rotation, a restart recovers the plain map if and only if it is empty or the restart is given the KEK the rotation drew; under any other every key is lost |
| `KeyRuns.RotatedKeyIsLost` | internal/keymanager/local.go:136-165 | generate, rotate, restart under the configured KEK: the key is lost, for every key and KEK |
| `KeyRuns.RotationCanFail` | internal/keymanager/local.go:141-161 | generate two, restart, rotate: the rotation fails in every order |
| `KeyRuns.RotationAfterRunIff` | internal/keymanager/local.go:131-171 | after any run, failed rotations included, exactly when a rotation succeeds in every order, and in some order |
| `KeyRuns.StoreReadableIff` | internal/keymanager/local.go:255-303 | in every reachable state one KEK unwraps the whole store if and only if all DEKs saved are wrapped under one |
| `KeyRuns.GeneratingReadableIff` | internal/keymanager/local.go:52-83 | after any run, saving a generated DEK leaves such a store if and only if every other DEK in memory is wrapped under the KEK in force |
| `KeyRuns.ShreddingReadableIff` | internal/keymanager/local.go:108-128 | after any run, saving because a DEK was shredded leaves such a store if and only if all others in memory are under one KEK |
| `KeyRuns.GeneratingAfterFailure` | internal/keymanager/local.go:131-171 | after a rotation that fails from a state with all DEKs under one KEK, saving a generated DEK leaves a store that one KEK unwraps if and only if it replaced the only DEK not visited |
| `KeyRuns.ShreddingAfterFailure` | internal/keymanager/local.go:108-171 | in the same case shredding a DEK leaves such a store if and only if it was the only DEK not visited or the only one visited |
| `KeyStore.GenerateRefines` | internal/keymanager/local.go:52-83 | generating sets one key of the plain map |
| `KeyStore.GetRefines` | internal/keymanager/local.go:86-105 | a key is found exactly when the plain map has one, it is that one, and the map is unchanged |
| `KeyStore.ShredRefines` | internal/keymanager/local.go:108-128 | shredding removes one key of the plain map, in memory and in the store |
| `KeyStore.RestartRefines` | internal/keymanager/local.go:279-303 | restarting under the KEK of the store restores the plain map |
| `KeyRotation.RotateSucceedsIff` | internal/keymanager/local.go:141-161 | from any state, in a given order, rotation succeeds exactly when the first DEK opens under the KEK in force and every later one under the new KEK, which the first iteration already puts in force; a DEK opens with its raw key in memory or under the KEK it is wrapped under |
| `KeyRotation.RotateAlwaysSucceedsIff` | internal/keymanager/local.go:141-161 | from any state rotation succeeds in every order if and only if every DEK opens under the KEK in force and, unless there is at most one, under the new KEK |
| `KeyRotation.RotateCanSucceedIff` | internal/keymanager/local.go:141-161 | from any state it succeeds in some order if and only if there are no DEKs, or some one opens under the KEK in force and all others under the new KEK |
| `KeyRotation.UnderOneSucceedsIff` | internal/keymanager/local.go:141-161 | with all DEKs under the KEK in force, in a given order: exactly when every DEK after the first has its raw key in memory, or the KEK is drawn again |
| `KeyRotation.UnderOneAlwaysSucceedsIff` | internal/keymanager/local.go:141-161 | with all DEKs under the KEK in force, in every order: if and only if all raw keys are in memory, or there is at most one DEK, or the KEK is drawn again |
| `KeyRotation.UnderOneCanSucceedIff` | internal/keymanager/local.go:141-161 | with all DEKs under the KEK in force, in some order: if and only if at most one DEK has no raw key in memory, or the KEK is drawn again |
| `KeyRotation.RewrapStops` | internal/keymanager/local.go:141-161 | from any state the loop stops early exactly at the first DEK with no raw key in memory that is wrapped under another KEK than the one in force, having put those before it under the new KEK and left the others alone |
| `KeyRotation.RotateRefines` | internal/keymanager/local.go:131-171 | a rotation that succeeds preserves every key and puts the new KEK in force |
| `KeyRotation.RestartAfterRotation` | internal/keymanager/local.go:131-171 | after it, a restart under any other KEK finds no key at all |
| `KeyRotation.FailedRotationRecovers` | internal/keymanager/local.go:131-171 | a rotation that fails leaves the store alone: restarting under the old KEK recovers every key |
| `LocalManager.LocalManager.Open` | internal/keymanager/local.go:32-49 | fails exactly when the KEK is not 32 bytes long or the store file exists and cannot be read or parsed; otherwise holds what the file says, keys still wrapped |
| `LocalManager.LocalManager.LoadStore` | internal/keymanager/local.go:279-303 | reads the file into memory; a later entry for a bucket replaces an earlier one |
| `LocalManager.ParseIs` | internal/keymanager/local.go:279-303 | a bucket is read exactly when some entry names it, and as its last entry says |
| `LocalManager.LocalManager.SaveStore` | internal/keymanager/local.go:255-277 | the file read back is what memory holds, without raw keys |
| `LocalManager.LocalManager.GenerateDEK` | internal/keymanager/local.go:52-83 | installs a DEK with fresh buffers and saves; the state is the specified one |
| `LocalManager.LocalManager.GetDEK` | internal/keymanager/local.go:86-105 | returns the bucket's own DEK object with its raw key, unwrapped on first use |
| `LocalManager.LocalManager.ShredDEK` | internal/keymanager/local.go:108-128 | both buffers of the bucket's DEK are zero afterwards, the bucket is gone from memory and store, and all other buckets are unchanged |
| `LocalManager.LocalManager.RewrapOne` | internal/keymanager/local.go:141-161 | one round of the rotation loop |
| `LocalManager.LocalManager.RotateKEK` | internal/keymanager/local.go:131-171 | the rotation over the object graph computes the specified rotation; on success the old KEK's buffer is zero |
| `Tailing.ScanIsMatching` | internal/eventstore/jsonl.go:79-108 | for a filter naming a tenant whose timestamps never decrease, scanning the files in bucket order finds the matching events in append order |
| `Tailing.TailIsPrefix` | internal/eventstore/jsonl.go:121-151 | for strictly increasing timestamps the stream has emitted, after any polls and for any limit or partial delivery, a prefix of the matching events; every poll reaches as far as its limit lets it |
| `Tailing.TailIsComplete` | internal/eventstore/jsonl.go:121-151 | without a limit, a complete poll leaves no matching event behind |
| `TailTies.TailMissesTies` | internal/eventstore/jsonl.go:121-151 | when timestamps may repeat, for any limit and any part of each poll delivered, a stream over one tenant has emitted the matching events up to where its polls reach if and only if no poll that delivered anything started between two matching events with the same timestamp |
| `TailOnTrack.StreamOnTrackIff` | internal/eventstore/jsonl.go:121-151 | for any filter, limit and part of each poll delivered, and timestamps in any order: after every poll the stream has emitted each matching event up to the time it remembers exactly once, and no other, if and only if at every poll all newly appended matching events are later than that time before the poll, and what is delivered is exactly what it found up to the time of the last event delivered |
| `TailOnTrack.OnTrackAndDone` | internal/eventstore/jsonl.go:121-151 | a stream whose polls were all so, and whose last poll delivered all it found, has emitted every matching event exactly once |
| `TailAllTenants.StreamIsExactIff` | internal/eventstore/jsonl.go:121-151 | a stream over any tenants, with complete unlimited polls, has after every poll emitted each matching event exactly once if and only if, at every poll, no event seen before is later than the last one newly found in scan order and every event appended since is |
| `TailAllTenants.PollIsExactIff` | internal/eventstore/jsonl.go:127-150 | from an exact state one poll keeps it exact if and only if that holds of it |
| `TailAllTenants.ScanIsPermutation` | internal/eventstore/jsonl.go:79-108 | scanning all files finds each matching event as often as it was appended |
| `TailAllTenants.UnscopedTailRepeats` | internal/eventstore/jsonl.go:121-151 | a stream over all tenants emits an event again after finishing a poll on an older one of a later directory |
| `Tailing.PollFindsRest` | internal/eventstore/jsonl.go:131-137 | a poll finds the matching events not yet emitted, up to the limit |
| `EventStore.JSONLStore.Append` | internal/eventstore/jsonl.go:46-75 | appends the event to the file of its tenant and day and to no other; an unsafe tenant, control characters and surrounding white space included, is refused |
| `EventStore.MatchesFilter` | internal/eventstore/jsonl.go:237-266 | the chain of checks and the loop over types decide the filter |
| `Querying.QueryFinds` | internal/eventstore/jsonl.go:79-108 | a query without a limit returns exactly the stored events of the session, agent and tenant asked for, within the times and of the types given, each as often as stored; what is left empty excludes nothing |
| `Querying.QueryIsFirst` | internal/eventstore/jsonl.go:79-108 | with a limit it returns the first of these |
| `Querying.SameFileIff` | internal/eventstore/jsonl.go:180-183 | events share a file exactly when they are of one tenant and one day |
| `Querying.TextBeforeIff` | internal/eventstore/jsonl.go:86-104 | directories are visited in the order of their names, character by character |
| `EventStore.TenantRefusedIff` | internal/types/tenant.go:13-23 | exactly which tenant names are refused, by character codes |
| `EventStore.JSONLStore.ScanFile` | internal/eventstore/jsonl.go:207-234 | returns the matching events of one file in order |
| `EventStore.JSONLStore.Query` | internal/eventstore/jsonl.go:79-108 | returns the first `limit` events of the full filtered concatenation in bucket order |
| `EventStore.Stream.PollEvents` | internal/eventstore/jsonl.go:127-150 | one tick emits what the query after the last seen time returns and remembers the time of the last event sent |
| `Uuid7.TextOrderIff` | sdk/agent_transponder/events.py:20-36 | for values that fit 48 bits, different milliseconds order the texts as themselves, whatever the random bytes |
| `Uuid7.TimeRoundTrip` | sdk/agent_transponder/events.py:20-36 | the milliseconds can be recovered from the text |
| `Uuid7.VersionAndVariant` | sdk/agent_transponder/events.py:31-36 | version and variant digits are where sections 4.1, 4.2 and 5.7 of RFC 9562 put them, and the text is 36 characters with dashes at 8, 13, 18 and 23 |
| `Uuid7.TextFields` | sdk/agent_transponder/events.py:24-36 | behind the time the text holds, in order, the version and 12 random bits, the variant and 14 random bits, and 48 random bits |
| `Uuid7.SameTextIff` | sdk/agent_transponder/events.py:22-36 | two identifiers of one millisecond are equal exactly when their 74 random bits are |
| `Uuid7.Fill` | sdk/agent_transponder/events.py:24-34 | filling the bytes by index, with the source's shifts and masks, yields the big-endian time, version, variant and random bytes |
| `Uuid7.MaskKeepsLowBits` | sdk/agent_transponder/events.py:31-33 | masking a byte with 0x0F or 0x3F keeps its remainder by 16 or 64 |
| `Uuid7.MarkAddsHighBits` | sdk/agent_transponder/events.py:31-33 | marking such a remainder with 0x70 or 0x80 adds the version or variant |
| `Uuid7.Uuid7` | sdk/agent_transponder/events.py:22-36 | the method builds that text |

## Left out

- Reported texts: messages and evidence are kept as the values they are rendered from; floating-point rounding (Go's `math.Round`, Python's `round`) is replaced by exact reals rounded half up to two places.
- Tool-call arguments and prompts: `canonicalArgs` and the token pattern are abstract keys and token sets.
- Sharing of a tool's statistics record in a misuse session: statistics are a value in the session's map, replaced by every call; one session never shares them, so aliasing between them is not captured.
- The failure-rate check of the Python batch reference: it suppresses a rate report by searching the messages of earlier ones, which the streaming code does not do; only its retry storms serve as a specification.
- ToolMisuse.RateReportedOnce: states when the streaming rate report is made, not agreement with the batch reference, for the reason above.
- Findings-write failures during a poll, and a restart that keeps the cursor but loses detector state: both make the findings differ from an uninterrupted run.
- Operating-system behaviour: directory confinement, symbolic links, fsync, partial writes and read errors; files are sequences of bytes or entries that only grow.
- Cancellation: contexts end loops early in the source; here a poll or a schedule simply ends.
- Concurrency below the level of calls: each call, and each step of the batcher, is atomic; the map write under a read lock in the policy engine is not examined.
- Integer widths: sequence numbers, byte offsets, nanosecond times and counters are unbounded; the truncation of the reported retry delay to nanoseconds is not modelled, and tokens are exact reals.
- AuditChain.HeadBindsLog: covers the hashed text; when actor or resource contain a bar, the text does not determine the single fields.
- Listing and closing: `ListDEKs`, `Close`, `Stop`'s closing of the connection, `Status` and exports only read or release what the model holds.
- Key encryption under failing random or cipher calls, and failing writes of the key store.
- The event store's line limit and malformed lines: `Append` writes one well-formed line per event, and lines over 1 MiB, which make a query fail, are excluded; a failed query is a poll that delivers nothing.
- EventStore.ValidTenant: identifiers are sequences of characters, so the check for invalid UTF-8 has nothing to refuse.
- LoopTwice.ReportedTwiceIff: assumes distinct event identifiers; the code takes two calls with one identifier for one start.
- gRPC, TLS, HTTP, metrics, signals, deployment, redaction patterns, protobuf conversion, SDK transport and callbacks: plumbing, or single-branch conversions that would only add easy members.
