# StudioForge: a verified model

StudioForge serves local language models. This project models the parts of it whose
behaviour is a matter of state, order or text, and proves what they promise. Each module
follows one component; `dafny verify dfyconfig.toml` checks all of them.

- **Stream reading** (`Utf8`, `SseFrames`, `SseCuts`, `SseReader`, `Json`): an upstream HTTP body arrives
  in arbitrary chunks, is decoded incrementally (RFC 3629, section 3), normalised to line
  feeds and split into event-stream blocks (WHATWG HTML Living Standard, sections 9.2.5 and
  9.2.6). Every cut reads as one pass exactly when the text has no CR CR LF; `SseCuts` says
  exactly which texts read the same under every cut.
- **Chat events** (`ChatEvents`, `ChatReading`): the state machine that turns chunks of a chat completion into
  vendor-neutral events.
- **Credential lockout** (`GuardPolicy`, `CredentialGuard`): a table of failure counters with
  doubling lockouts, lazy expiry and eviction, refined to a history of failures, and the
  guess rates that follow.
- **Log files** (`BackupOrder`, `LogFiles`, `LogSteppedBack`, `LogHandler`,
  `AuditLog`): rotation by rename with
  failures at any step, a second process that appends or rotates, and the audit log's tail.
- **Secret scrubbing** (`Scrubbing`): replacement over a set in any order, lifted over nested values.
- **Database start** (`SqlScript`, `Migrations`, `Recovery`): script splitting, migrations with
  crashes and any number of processes, and recovery from locks and corruption.
- **API keys** (`KeyTokens`, `KeySnapshot`): base-62 tokens, and a cache read concurrently with
  atomic replaces.
- **Smaller pieces** (`PromptText`, `LogStream`, `CacheRam`): benchmark prompts, log following,
  the shared cache pool.

Code that changes state is modelled by classes and methods with loops, each proved against a
specification function; the theorems are lemmas about those functions and about whole runs.
`Text` holds the Python string operations they share.

## Where the code differs from what it says

- `src/studioforge/credential_guard.py:24` says under 300 guesses a day. The 900 s window ends a
  streak: the most a guesser that is never refused gets is exactly 935 a day
  (`GuardPolicy.ShippedDailyRate`, `GuardPolicy.DailyRateAttained`).
- `src/studioforge/api/compat_stream.py:69` says CRLF and LF are both accepted. Normalising the
  buffer anew on every chunk, and once more at the final flush, reads CR CR LF as a line break
  or not depending on the cuts, unless the text is settled (`SseCuts.SameUnderEveryCut`). That is
  exact for the blocks and the tail read; frames, and the events made of them, are the same for a
  settled text and can happen to be for another.
- `src/studioforge/auditlog.py:118` says the last entries, oldest first. The loop visits the
  live file last and puts it in front (`AuditLog.OrderMattersExactly`,
  `AuditLog.ShippedTailMissesTheNewest`).
- `src/studioforge/logfiles.py:91` says a new backup name sorts after every existing one. That
  needs a clock that has not stepped back and a directory that can be listed
  (`LogFiles.NameSortsAfterExactly`, `LogFiles.SteppedBack`); otherwise the new copy can be
  deleted by its own pruning, overwrite another, or be read before older lines
  (`LogFiles.RotationKeepsItsOwn`, `LogFiles.NameIsFresh`, `LogSteppedBack.SteppedBackCostsExactly`).
- `src/studioforge/db.py:400` says the corrupt file is moved aside, never deleted. A backup of
  the same second is overwritten (`Recovery.MoveDestroysNothingExactly`).
- `src/studioforge/authkeys.py:282` says the snapshot is read again on change. A replace that
  reuses the cached mtime is missed (`KeySnapshot.ReusedMtimeIsMissed`).
- `src/studioforge/cli_commands.py:432` says the lines not already printed. More lines than a
  window between two polls are lost, and repeated lines can hide new ones
  (`LogStream.StreamIsExact`, `LogStream.PollIsExact`, `LogStream.RepeatsAreHidden`).
- `src/studioforge/logging.py:48` says a registered secret is scrubbed from all output. One that
  overlaps the marker, by a star at an end for instance, can survive (`Scrubbing.ScrubbedExactly`).

## Model

| member | source | states |
|---|---|---|
| SseFrames.ChunkInvariance | src/studioforge/api/compat_stream.py:68-102 | for every byte stream whose decoded text has no CR CR LF, every way of cutting it into chunks, empty ones included, gives the blocks and the tail of one pass: decode everything, CRLF to LF, split on blank lines |
| SseCuts.SameUnderEveryCut | src/studioforge/api/compat_stream.py:79-98 | two cuts of a byte stream always read the same if and only if its text is settled: no blank line follows a CR CR LF, and CR CR CR LF stands nowhere but at the very end |
| SseCuts.SettledReading | src/studioforge/api/compat_stream.py:79-98 | every cut of a settled text gives the blocks and the tail of the text normalised twice and split once, the second time for the final flush |
| SseCuts.CutChangesReading | src/studioforge/api/compat_stream.py:87-93 | for every other text a cut is constructed that reads differently from the whole text in one chunk |
| SseCuts.SettledIsMore | src/studioforge/api/compat_stream.py:87-93 | a text without CR CR LF is settled; so is CR CR LF alone, which no cut reads as one pass |
| SseCuts.TwiceIsOnce | src/studioforge/api/compat_stream.py:87-93 | for a text without CR CR LF normalising twice is normalising once |
| SseCuts.FeedPhase | src/studioforge/api/compat_stream.py:87-92 | after a read everything received before it, but for carriage returns at its end, has been normalised at least twice and the rest once, and no finished block holds a CRLF |
| SseCuts.LastPhase | src/studioforge/api/compat_stream.py:93-98 | the final flush leaves the whole text normalised twice |
| SseCuts.GapTells | src/studioforge/api/compat_stream.py:87-93 | when a blank line follows a CR CR LF, a cut right behind it changes the reading |
| SseCuts.ThreeCrsTell | src/studioforge/api/compat_stream.py:87-93 | so does a cut behind CR CR CR LF when something follows it |
| SseCuts.DrainTerminated | src/studioforge/api/compat_stream.py:88-89 | blocks that end at their first blank line are split off again as they are, whatever follows |
| SseFrames.OnePassExactly | src/studioforge/api/compat_stream.py:84-93 | every cut of a byte stream is read as one pass if and only if its text has no CR CR LF |
| SseFrames.SomeCutIsNotOnePass | src/studioforge/api/compat_stream.py:87-93 | for every stream whose text has CR CR LF, a cut is constructed that is not read as one pass; the whole text in one chunk need not be either |
| SseReader.CutChangesFrames | src/studioforge/api/compat_stream.py:85-98 | the same bytes with CR CR LF give one frame when they arrive whole and two when they arrive in two chunks |
| SseReader.IterFrames | src/studioforge/api/compat_stream.py:68-102 | the two nested loops of the reader yield the frames of the stream's blocks and non-blank tail, however it was cut without CR CR LF those of one pass over the whole stream, and for a settled text those of two |
| SseReader.SendReceive | src/studioforge/api/compat_stream.py:53-102 | events printed one after another and read back under any chunking give exactly their objects, as data frames, in order |
| SseReader.SendReceiveDone | src/studioforge/api/compat_stream.py:88-117 | printed events and then the end marker, with its blank line or without, read back under every cut as the events' objects and then done |
| SseReader.SendReceiveThen | src/studioforge/api/compat_stream.py:88-122 | printed events and then any block of lines, finished or not, read back under every cut as the events' objects and what the lines say |
| SseReader.BlockSays | src/studioforge/api/compat_stream.py:105-122 | from its lines alone: without data lines a block is its remarks or nothing; otherwise the joined and stripped data is done, an object, nothing for another value, or a comment when it does not parse |
| SseReader.LinesOf | src/studioforge/api/compat_stream.py:108-112 | every block is made of such lines |
| SseReader.LineReads | src/studioforge/api/compat_stream.py:109-112 | a line gives its text without the blanks after data:, or its remark without the white space around it, or nothing |
| SseReader.StripIs | src/studioforge/api/compat_stream.py:110-115 | stripping takes off exactly the white space at both ends |
| SseReader.PrintedAs | src/studioforge/api/compat_stream.py:53-56 | a printed event is its name's line if it has a name, its data line and a blank line |
| SseReader.SentFrames | src/studioforge/api/compat_stream.py:53-56 | what is printed has no carriage return and splits into exactly the events' blocks with nothing left over |
| SseReader.EventBlockFrame | src/studioforge/api/compat_stream.py:105-122 | the block of one printed event, named or not, parses to its object |
| SseReader.DrainBlock | src/studioforge/api/compat_stream.py:88-89 | a blank line ends a block that has none inside and no line feed at its end, and what follows is split on its own |
| SseReader.ParseBlock | src/studioforge/api/compat_stream.py:105-122 | whatever lines a block is made of, the loop yields the frame they say: comment, done, data or nothing |
| SseReader.DrainBuffer | src/studioforge/api/compat_stream.py:88-92 | the inner loop yields the frames of every finished block in order and leaves the unfinished tail |
| SseFrames.ReceiveAllIsOnePass | src/studioforge/api/compat_stream.py:81-92 | after any chunks on top of any bytes already received, the reader's state is that of one pass over all the bytes so far |
| SseFrames.FeedExtendsOnePass | src/studioforge/api/compat_stream.py:87-89 | text read on top of a text read in one pass is one pass over both, though the buffer is normalised again and blocks are split off early |
| SseFrames.DrainResumes | src/studioforge/api/compat_stream.py:88-89 | blocks split off early are final: more text only affects the tail |
| SseFrames.DrainSplit | src/studioforge/api/compat_stream.py:88-89 | splitting loses nothing but the blank lines, leaves none behind, and ends each block at the earliest possible place |
| SseFrames.NormaliseStable | src/studioforge/api/compat_stream.py:85-87 | normalising a prefix before the rest arrives changes nothing when the text has no CR CR LF |
| SseFrames.NormaliseConcat | src/studioforge/api/compat_stream.py:85-87 | normalising is done piece by piece when the cut does not split a CRLF |
| SseFrames.NormaliseIsReplace | src/studioforge/api/compat_stream.py:87 | the one-pass CRLF transducer used in the proofs is leftmost non-overlapping replacement |
| Utf8.ScanCut | src/studioforge/api/compat_stream.py:79-84 | the incremental decoder gives the same text under every cut once the bytes it holds are carried over |
| Utf8.HeadStable | src/studioforge/api/compat_stream.py:79 | a settled character or ill-formed subpart is not changed by the bytes after it |
| Utf8.HeldIsPartial | src/studioforge/api/compat_stream.py:75-79 | the decoder holds only an unfinished sequence or the first two bytes of an encoded surrogate, so any other invalid byte is decided at once |
| Utf8.LineFeedCut | src/studioforge/api/compat_stream.py:84-87 | a line feed in the text ends exactly at some byte, with nothing held there |
| Utf8.CharRoundTrip | src/studioforge/api/compat_stream.py:56 | every Unicode scalar's encoding is decoded as that one character, whatever follows |
| Utf8.CharIsEncoded | src/studioforge/api/compat_stream.py:79 | a character is decoded from its own encoding only |
| Utf8.MaximalSubpart | src/studioforge/api/compat_stream.py:75-79 | each U+FFFD stands for a lone byte that begins no character or the longest beginning of one that the next byte does not continue |
| Utf8.BeginningIsPartial | src/studioforge/api/compat_stream.py:75-79 | the unfinished beginning of any character is held |
| Utf8.EncodeRoundTrip | src/studioforge/api/compat_stream.py:56-84 | decoding inverts encoding for every text |
| Utf8.EncodeConcat | src/studioforge/api/compat_stream.py:56 | encoding distributes over concatenation |
| Utf8.IncrementalDecoder.Decode | src/studioforge/api/compat_stream.py:84 | one read: the text returned and the bytes kept are those of one scan of what was held and the chunk |
| Utf8.IncrementalDecoder.Finish | src/studioforge/api/compat_stream.py:93 | the final flush turns an unfinished sequence into one U+FFFD, a cut surrogate into two, and empties the decoder |
| ChatEvents.NothingLost | src/studioforge/api/compat_stream.py:160-217 | for every stream, raising or not, the joined text, reasoning and per-index arguments emitted, and the set of tools started, are those of the deltas reached in the non-error frames before the first done and up to the raise |
| ChatReading.EventsAreRead | src/studioforge/api/compat_stream.py:157-217 | for every stream, raising or not, all events, field by field and in order, are those read off the JSON keys of the frames; a start has the id and name of the first reached call of its index, and the stream raises exactly when the reading does |
| ChatReading.ActsOut | src/studioforge/api/compat_stream.py:192-209 | the machine with its set of started tools does what the first-call rule says |
| ChatReading.FramesAre | src/studioforge/api/compat_stream.py:160-217 | frames ask for what their keys say |
| ChatReading.DataIs | src/studioforge/api/compat_stream.py:167-217 | an error frame gives its error alone; any other its usage and its choices, or a raise |
| ChatReading.UsageIs | src/studioforge/api/compat_stream.py:171-180 | usage gives the integer parts of its three counts, and raises for one that is not finite |
| ChatReading.DeltaIs | src/studioforge/api/compat_stream.py:185-209 | a delta gives its reasoning, its content and its calls |
| ChatReading.FinishIs | src/studioforge/api/compat_stream.py:210-217 | a true finish reason gives a finish with the stopping word of the choice or else of the frame |
| ChatReading.CallIs | src/studioforge/api/compat_stream.py:193-209 | a call has its own index, id, function name and arguments |
| Json.FalsyExactly | src/studioforge/api/compat_stream.py:181-192 | exactly seven JSON values are false |
| ChatEvents.EventsUnderEveryCut | src/studioforge/api/compat_stream.py:146-217 | a body whose text is settled gives the same events however it is cut, without CR CR LF those of one pass over the text |
| ChatEvents.AllReached | src/studioforge/api/compat_stream.py:181-209 | when no frame raises, the deltas reached are all of them |
| ChatEvents.ToolProtocol | src/studioforge/api/compat_stream.py:192-209 | for every frame sequence each tool index is started exactly once and before any of its arguments |
| ChatEvents.NothingAfterDone | src/studioforge/api/compat_stream.py:164-166 | no event follows a done, so there is at most one |
| ChatEvents.RaisesExactly | src/studioforge/api/compat_stream.py:171-194 | the translation raises if and only if a frame before the first done has a usage count that is NaN or infinite, or holds choices or tool calls of a kind that cannot be iterated |
| ChatEvents.ActAllOrderly | src/studioforge/api/compat_stream.py:199-209 | the start-before-arguments order survives any list of emissions and calls from any orderly state |
| ChatEvents.ActTotal | src/studioforge/api/compat_stream.py:187-209 | each action adds to the running totals exactly what it asks for, tool starts counted once |
| ChatEvents.Translator.Run | src/studioforge/api/compat_stream.py:157-217 | the generator's loop emits the events of the specification and raises when it does |
| ChatEvents.Translator.OnData | src/studioforge/api/compat_stream.py:167-217 | one data frame: error, else usage and every choice, stopping at the first value that raises |
| ChatEvents.Translator.OnChoice | src/studioforge/api/compat_stream.py:182-217 | one choice: its delta, then its finish reason with the stopping word of the choice or of the frame |
| ChatEvents.Translator.OnDelta | src/studioforge/api/compat_stream.py:185-209 | one delta: reasoning, text, then its tool calls in order |
| ChatEvents.Translator.OnCall | src/studioforge/api/compat_stream.py:193-209 | one tool call: a start for an index not seen before, then its arguments if any |
| ChatEvents.Translator.Yield | src/studioforge/api/compat_stream.py:162-217 | an event is appended after all earlier ones and changes nothing else |
| CredentialGuard.Guard.RetryAfter | src/studioforge/credential_guard.py:100-119 | for any times the wait is what the record stands for and only an expired record is dropped; with times in order it is a function of this client's own timed failures since its last success or eviction, and the record dropped is forgotten |
| CredentialGuard.Guard.RecordFailure | src/studioforge/credential_guard.py:123-148 | for any times the client's record and no other is written and then exactly the records over the cap are evicted; with times in order the lockout is that of the client's unbroken streak |
| CredentialGuard.Guard.WriteFailure | src/studioforge/credential_guard.py:129-146 | the record's update before eviction, and with times in order the one the history calls for |
| CredentialGuard.Guard.EvictLocked | src/studioforge/credential_guard.py:163-172 | removes exactly the records over the cap, least recently seen first, and keeps the table a refinement of the history |
| CredentialGuard.Guard.DropEach | src/studioforge/credential_guard.py:171-172 | the deletion loop removes exactly the first k of the ordered keys |
| CredentialGuard.Guard.RecordSuccess | src/studioforge/credential_guard.py:150-155 | a success removes the client's record and its failures from the history the policy sees |
| CredentialGuard.Guard.ResetAll | src/studioforge/credential_guard.py:157-159 | empties the table and forgets every client |
| CredentialGuard.Guard.constructor | src/studioforge/credential_guard.py:81-96 | an empty table refines the empty history |
| CredentialGuard.FailureKeeps | src/studioforge/credential_guard.py:129-146 | the counter the code increments or restarts equals the length of the streak in the history, and writing it keeps the refinement |
| CredentialGuard.OwnFailure | src/studioforge/credential_guard.py:129-146 | the same for one client's record on its own |
| CredentialGuard.ExpiryKeeps | src/studioforge/credential_guard.py:113-115 | lazy expiry keeps the refinement: a forgotten record may go at any time |
| CredentialGuard.DropKeeps | src/studioforge/credential_guard.py:154-172 | removing a record on a success or an eviction keeps the refinement |
| CredentialGuard.VictimsAreOldest | src/studioforge/credential_guard.py:168-172 | eviction removes just enough records, and none seen later than one that stays |
| CredentialGuard.NewestStays | src/studioforge/credential_guard.py:170-172 | the last key inserted, when nothing is newer, is evicted only if everything is |
| CredentialGuard.JustWrittenStays | src/studioforge/credential_guard.py:131-147 | with times in order the record just written is never the one evicted, and one failure evicts at most one record |
| CredentialGuard.WrittenIsEvictedExactly | src/studioforge/credential_guard.py:127-147 | whatever the times, the record just written is evicted if and only if it is a new one in a full table and every other record was seen later |
| CredentialGuard.GuessRate | src/studioforge/credential_guard.py:100-148 | through the shipped table, whatever other clients do, a guesser that serialises its tries and waits fails at most 14 times in any half-open 900 s and 935 times in any day |
| CredentialGuard.GuessRateUnlessFull | src/studioforge/credential_guard.py:100-172 | while at most 4096 clients have failed no record is evicted, so the same bounds hold for any guesser that waits and is never accepted or reset |
| CredentialGuard.NoVictimsUnlessFull | src/studioforge/credential_guard.py:163-172 | as long as at most 4096 clients have failed, a failure evicts no one |
| CredentialGuard.FullTableEvictsOne | src/studioforge/credential_guard.py:163-172 | a client new to a table of 4096 evicts exactly one record |
| CredentialGuard.TrackedHaveFailed | src/studioforge/credential_guard.py:95-148 | every record is of a client that failed |
| GuardPolicy.ShippedRate | src/studioforge/credential_guard.py:47-58 | at most 14 failures in any half-open 900 s interval under the shipped constants |
| GuardPolicy.ShippedRateAttained | src/studioforge/credential_guard.py:47-58 | a guesser reaches 14 in 900 s: the bound is exact |
| GuardPolicy.ShippedDailyRate | src/studioforge/credential_guard.py:47-58 | at most 935 failures in any day, which is sharper than fourteen for each 900 s |
| GuardPolicy.LongRunRate | src/studioforge/credential_guard.py:100-148 | over any interval each failure takes at least 1027/11 s, but for 900 s to start with: streaks of eleven are the best a guesser can do |
| GuardPolicy.DailyRateAttained | src/studioforge/credential_guard.py:24-25 | 935 failures in a day are possible without ever being refused, so the bound is exact and the documented "under 300" is false |
| GuardPolicy.StreakSpan | src/studioforge/credential_guard.py:129-146 | between two failures of one unbroken streak lie all the lockouts in between, for every policy |
| GuardPolicy.StreakIsSlow | src/studioforge/credential_guard.py:129-146 | failure k+1 of an unbroken streak comes at least the sum of the first k lockouts after the first |
| GuardPolicy.ExponentCapHarmless | src/studioforge/credential_guard.py:139-145 | capping the exponent at 32 changes no lockout if and only if base * 2^32 >= max |
| GuardPolicy.ForgettingHarmless | src/studioforge/credential_guard.py:113-119 | forgetting after a quiet window never changes a wait if and only if the window is at least the longest lockout or, when the window is not positive, one failure has no lockout |
| GuardPolicy.EagerIsPatient | src/studioforge/credential_guard.py:123-148 | trying again at the very end of every lockout is allowed and makes one unbroken streak |
| LogFiles.NewNameIsPast | src/studioforge/logfiles.py:90-100 | the counter chosen is past every listed copy of the same second, by one |
| LogFiles.NameIsFresh | src/studioforge/logfiles.py:90-100 | a rotation reuses no existing name if and only if the directory can be listed or the plain name of its second is free |
| LogFiles.NameSortsAfterExactly | src/studioforge/logfiles.py:90-100 | a new name sorts after every existing one if and only if no copy is of a later second or, when the directory cannot be listed, of the same |
| LogFiles.SteppedBack | src/studioforge/logfiles.py:90-129 | a clock that has stepped back gives a name that sorts first, and a log that keeps one copy deletes the new one |
| LogFiles.NameSortsLast | src/studioforge/logfiles.py:90-100 | with stamps that do not step back, a new name sorts after every copy ever made, deleted ones included |
| LogFiles.PruneExact | src/studioforge/logfiles.py:103-117 | when deletions work exactly the newest keep copies remain, or all if fewer, with their contents |
| LogFiles.RotationKeepsItsOwn | src/studioforge/logfiles.py:120-129 | the copy just made survives its own pruning if and only if it cannot be deleted or pruning cannot list, or fewer than keep existing copies are of later seconds, or numbered ones of the same when the name was chosen without a listing |
| LogFiles.RetainedIsSuffix | src/studioforge/logfiles.py:70-129 | the newest copies, oldest first, and the live file are a contiguous suffix of everything written, and what is missing went in whole copies |
| LogFiles.RotationAccounted | src/studioforge/logfiles.py:120-129 | a timely rotation keeps the books whatever deletions fail |
| LogFiles.OpeningAccounted | src/studioforge/logfiles.py:70-87 | the books can be opened on any directory found |
| LogSteppedBack.SteppedBackCostsExactly | src/studioforge/logfiles.py:90-129 | after one rotation under a name not taken, whatever the clock, the retained files are still the end of everything written if and only if nothing was rotated or no line is in the newest copies of later seconds |
| LogSteppedBack.Inserted | src/studioforge/logfiles.py:82-100 | the new copy is listed right before the copies of later seconds |
| BackupOrder.SortedIs | src/studioforge/logfiles.py:82-87 | the listing holds exactly the copies, strictly increasing |
| BackupOrder.SortedAddLast | src/studioforge/logfiles.py:82-87 | a name past all others is listed last |
| BackupOrder.NewestSurvive | src/studioforge/logfiles.py:110-117 | deleting any of the older copies leaves the newest ones the newest |
| LogHandler.NothingLostOverRuns | src/studioforge/logfiles.py:180-227 | from any directory, over any run of records, guest lines, failed and successful rotations, by the owner or by another process, the retained files are exactly the end of everything written, if the clock does not step back and no record strays |
| LogHandler.AttentiveNeverStrays | src/studioforge/logfiles.py:180-205 | no record strays while size checks and the owner's renames work and others only move files that are large |
| LogHandler.StrayCostsExactly | src/studioforge/logfiles.py:183-205 | after a record that strays the retained files are still the end of everything written if and only if nothing is retained, or the renamed file is among the newest and nothing retained stands behind it |
| LogHandler.StrayOutOfOrder | src/studioforge/logfiles.py:183-222 | a run from the opening of an empty log: a rotation is put off, another process rotates, a guest writes, and the owner's next record is read before the guest's earlier line |
| LogHandler.StrayLands | src/studioforge/logfiles.py:183-192 | a record that strays ends the renamed file, or is lost if that file is gone, and changes nothing else |
| LogHandler.FollowsTheFile | src/studioforge/logfiles.py:194-205 | a rename by another process is followed: the new live file gets the record and is not rotated, and no note, counter or retry time changes |
| LogHandler.EmitIs | src/studioforge/logfiles.py:180-227 | one record in full: when a rotation is tried, and what each of rotating, putting off and neither leaves in the files, the retry time and the notices |
| LogHandler.EpisodeAnnounced | src/studioforge/logfiles.py:208-226 | the first rename that fails after one that worked is announced again |
| LogHandler.StepAccounted | src/studioforge/logfiles.py:180-227 | every step that does not stray keeps the books |
| LogHandler.RunAccounted | src/studioforge/logfiles.py:180-227 | every run that does not stray keeps the books |
| LogHandler.FailedRenameHarmless | src/studioforge/logfiles.py:206-222 | without a rotation no copy changes, and the live file gains the record and at most one notice |
| LogHandler.BackOff | src/studioforge/logfiles.py:183-184 | after a failed rename no attempt is made before the retry time |
| LogHandler.OneNoticePerEpisode | src/studioforge/logfiles.py:208-222 | while renames keep failing, nothing but the records and guest lines is written: the notice is not repeated |
| LogHandler.RotatingHandler.Emit | src/studioforge/logfiles.py:180-227 | one record through the object does what the specification step does, and keeps the books unless it strays |
| LogHandler.RotatingHandler.DoRollover | src/studioforge/logfiles.py:194-227 | follow, rotate or put off, with the note of each outcome |
| LogHandler.RotatingHandler.Rotate | src/studioforge/logfiles.py:120-129 | renames under the new name and prunes, or changes nothing at all |
| LogHandler.RotatingHandler.PruneBackups | src/studioforge/logfiles.py:103-117 | the deletion loop leaves the newest copies and those that could not be deleted |
| LogHandler.RotatingHandler.Other | src/studioforge/logfiles.py:132-147 | another process's rotation under the open stream does the specified step, and keeps the books unless the clock has stepped back |
| LogHandler.RotatingHandler.Guest | src/studioforge/logfiles.py:278-282 | a guest's line ends the live file and keeps the books |
| LogHandler.RotatingHandler.constructor | src/studioforge/logfiles.py:157-178 | the handler opens on any directory with its books in order |
| AuditLog.LiveFirstTailIsRecent | src/studioforge/auditlog.py:117-139 | visiting the live file first, the last n retained lines are the last n ever recorded, across any number of rotations |
| AuditLog.LiveFirstIsRight | src/studioforge/auditlog.py:124-134 | live file first, stopping early, gives the last lines of the readable copies oldest first followed by the live file |
| AuditLog.ShippedPutsLiveFirst | src/studioforge/auditlog.py:126-134 | in the order the code visits, the live file's lines come out as if they were the oldest |
| AuditLog.OrderMattersExactly | src/studioforge/auditlog.py:126-134 | on a given disk whose last copied and last live line differ, the shipped tail is right if and only if no readable copy or no readable live file has a line |
| AuditLog.OrdersAgreeWithoutCopies | src/studioforge/auditlog.py:126-134 | the two orders agree when there are no copies |
| AuditLog.ShippedTailMissesTheNewest | src/studioforge/auditlog.py:97-134 | a run of two events and a rotation at one MiB after which the shipped tail of one shows the older event |
| AuditLog.VisitIsEnough | src/studioforge/auditlog.py:126-134 | stopping the visit once enough lines are collected never changes the last n |
| AuditLog.Log.Record | src/studioforge/auditlog.py:97-115 | one event ends the record of everything written exactly when the file could be written, and at most one rotation follows, keeping the books unless the clock has stepped back |
| AuditLog.RotatesExactly | src/studioforge/auditlog.py:106-111 | after one written event the live file is gone if and only if rotation is on, the event is the check_every-th since the last check, the size is known and at least the limit, and the rename works; the count starts over exactly after a check |
| AuditLog.LimitIsKept | src/studioforge/auditlog.py:106-111 | while stats and renames work, fewer than check_every events stand in the live file behind the point where it reached the limit |
| AuditLog.LimitIsKeptFromStart | src/studioforge/auditlog.py:61-111 | so it is from the opening of the log on any file |
| AuditLog.ParsedConcat | src/studioforge/auditlog.py:133-139 | parsing keeps the order of the lines |
| AuditLog.ParsedOne | src/studioforge/auditlog.py:134-138 | a line that does not parse is skipped, and no other |
| AuditLog.Log.Tail | src/studioforge/auditlog.py:117-139 | the two loops return the parsed lines of the shipped order, skipping unreadable files and lines |
| AuditLog.Log.constructor | src/studioforge/auditlog.py:61-70 | the log opens on any directory with its books in order |
| Scrubbing.CleanIsScrubbed | src/studioforge/logging.py:53-59 | a secret that overlaps the marker nowhere is left in no text, in whatever order the set is iterated and whatever else is registered |
| Scrubbing.ScrubComplete | src/studioforge/logging.py:53-59 | so no clean secret of a registry is left, and none at all if all are clean |
| Scrubbing.ScrubTwice | src/studioforge/logging.py:53-59 | scrubbing again, in any other order, changes nothing |
| Scrubbing.ScrubNothing | src/studioforge/logging.py:53-59 | a text without secrets is left as it is |
| Scrubbing.ScrubbedExactly | src/studioforge/logging.py:53-59 | a secret is scrubbed from every text, in every order and beside any other secrets, if and only if it agrees with the marker at no overlap, neither at an end nor inside |
| Scrubbing.UncleanSurvives | src/studioforge/logging.py:56-58 | for every other secret a text is constructed in which it survives |
| Scrubbing.OverlapSurvives | src/studioforge/logging.py:56-58 | for a secret that overlaps the marker, a text is given in which its own replacement puts it together again |
| Scrubbing.StarlessIsClean | src/studioforge/logging.py:40-58 | a secret without a star that is not part of the marker overlaps it nowhere |
| Scrubbing.RedactKeepsShape | src/studioforge/logging.py:62-96 | over nested lists, tuples and dicts, whatever is registered, shape and keys are kept and every non-null value under a secret key becomes the marker |
| Scrubbing.EntryIs | src/studioforge/logging.py:28-96 | an entry becomes the marker if and only if its lower-cased key is one of the nine and its value is not null |
| Scrubbing.RedactIsHarmless | src/studioforge/logging.py:62-96 | no string of the result holds a clean secret, whatever else is registered |
| Scrubbing.HarmlessUnchanged | src/studioforge/logging.py:62-96 | a value with nothing to hide passes unchanged |
| Scrubbing.RedactTwice | src/studioforge/logging.py:62-96 | redacting again, in any iteration order, changes nothing |
| Scrubbing.ReplaceRemoves | src/studioforge/logging.py:57-58 | replacing a clean secret removes every occurrence, even those formed anew |
| Scrubbing.ReplaceMakesNone | src/studioforge/logging.py:57-58 | replacing one secret never makes another clean one appear |
| Scrubbing.NoStraddle | src/studioforge/logging.py:40-58 | a clean secret cannot straddle the marker |
| Scrubbing.Registry.ScrubText | src/studioforge/logging.py:53-59 | the loop over the set in any order leaves no clean secret, whatever else is registered |
| Scrubbing.Registry.Register | src/studioforge/logging.py:47-50 | a value of six characters or more joins the set, any other changes nothing |
| Scrubbing.EventDict.Redact | src/studioforge/logging.py:78-86 | the in-place edit gives, entry by entry, the marker under one of the nine keys and the redacted value elsewhere |
| Migrations.CrashSafe | src/studioforge/db.py:358-391 | from an applied prefix, under any interleaving of processes, errors and crashes, the committed schema is the in-order result of exactly the recorded versions, a prefix of the shipped list |
| Migrations.StepKeeps | src/studioforge/db.py:366-391 | every single step of any process keeps that invariant |
| Migrations.CommitOk | src/studioforge/db.py:378-387 | a commit makes the applied prefix exactly one migration longer, even when another process advanced it since this one looked |
| Migrations.FinishedMeansAll | src/studioforge/db.py:375-391 | a completed migrate has applied every shipped migration |
| Migrations.SafeFromStart | src/studioforge/db.py:358-391 | started on any file with an applied prefix, by any number of processes, an applied prefix stays committed and any process that finishes has all of them applied |
| Migrations.SettledForever | src/studioforge/db.py:375-377 | once all are applied, no further calls, by any process, change schema or record |
| Migrations.AloneMigrates | src/studioforge/db.py:367-391 | a whole call with nobody else writing finishes if and only if every migration not yet recorded applies on top of the ones before it, and then schema and record are theirs and the lock is free; otherwise it raises |
| Migrations.BlockedMigrates | src/studioforge/db.py:368-378 | a whole call while another process writes changes nothing: it finishes if and only if the table is there and every migration is recorded |
| Migrations.TransactionRuns | src/studioforge/db.py:378-390 | one pending migration with the lock free is committed whole with its version, or the call raises and nothing is committed |
| Migrations.Database.Migrate | src/studioforge/db.py:358-391 | with a crash after any number of actions an applied prefix stays committed and none is lost; success means all, failure that a pending migration does not apply, a crash that the actions did not suffice, and an up-to-date file is unchanged |
| Migrations.Database.MigrateOne | src/studioforge/db.py:378-390 | one transaction commits its statements and its row together or leaves the database as it was; it fails only by a failing statement and crashes only when its actions do not suffice |
| Migrations.Database.RunStatements | src/studioforge/db.py:380-381 | the statement loop gives the effect of all statements in order, or nothing |
| SqlScript.ScriptRoundTrip | src/studioforge/db.py:253-263 | a script of statements, comment lines anywhere between them, splits into exactly those statements in order |
| SqlScript.SurvivesExactly | src/studioforge/db.py:253-263 | one statement comes back unchanged if and only if it is not blank, has no blank ends, no semicolon and no comment line |
| SqlScript.SkippedIs | src/studioforge/db.py:262 | a line is skipped if and only if two dashes come first but for white space |
| Recovery.OnlyCorruptionMoves | src/studioforge/db.py:393-467 | at most eight migrate calls, and unless the deciding error is corruption every file stays exactly where it was |
| Recovery.OtherErrorsStay | src/studioforge/db.py:77-88 | when the deciding error is not an SQLite error with one of the six phrases, it is raised and every file stays |
| Recovery.CorruptionRecovers | src/studioforge/db.py:413-467 | when it is one, every rename works and the next migrate succeeds, the boot has recovered with each of the database's files aside |
| Recovery.CorruptionEnds | src/studioforge/db.py:413-467 | a boot from a corrupt file makes one more call unless a file that is there cannot be renamed, and has recovered if and only if that call is made and succeeds |
| Recovery.HealthyExactly | src/studioforge/db.py:413-417 | the boot is healthy if and only if the deciding call succeeds |
| Recovery.AlwaysLocked | src/studioforge/db.py:413-440 | a database locked at every call is tried seven times and left alone |
| Recovery.FirstExists | src/studioforge/db.py:413-444 | every boot has a deciding call |
| Recovery.LockedSays | src/studioforge/db.py:69-74 | an error is a lock if and only if it is an OperationalError that says locked or database is busy |
| Recovery.CorruptSays | src/studioforge/db.py:77-88 | an error is corruption if and only if it is an SQLite error with one of the six phrases |
| Recovery.DecidingIs | src/studioforge/db.py:413-430 | at most six lock retries: every earlier call was locked, and the deciding one is not a lock to wait for |
| Recovery.BootDestroysNothing | src/studioforge/db.py:393-467 | over the whole boot, whatever fails, every file there at the start survives under its own or its backup name, if no backup of the same second exists |
| Recovery.MoveDestroysNothing | src/studioforge/db.py:446-464 | the move alone, renames failing or not, keeps every file when none that is moved has a backup of the same second |
| Recovery.MoveDestroysNothingExactly | src/studioforge/db.py:447-464 | whatever renames fail, every file is kept if and only if no file that is moved has a backup of the same second |
| Recovery.MovedAway | src/studioforge/db.py:448-464 | a file is moved if and only if it is there and no rename of a present file up to its own fails |
| Recovery.MovedIs | src/studioforge/db.py:448-464 | name by name, what the move leaves: each listed file is moved with its content or untouched |
| Recovery.Store.MigrateWithRecovery | src/studioforge/db.py:393-467 | the whole recovery ends with the files, result and number of calls of the specification |
| Recovery.Store.RetryLocked | src/studioforge/db.py:413-444 | the retry loop stops at the deciding call, with the files every call up to it left |
| Recovery.Store.MoveAside | src/studioforge/db.py:447-464 | renames the three files in turn and stops at the first failure |
| KeyTokens.TokenInjective | src/studioforge/authkeys.py:79-89 | distinct scopes or 256-bit numbers give distinct tokens |
| KeyTokens.BodyDecodes | src/studioforge/authkeys.py:84-88 | for every number below 2^256 the body has exactly 43 digits and decodes to the number |
| KeyTokens.DigitsDecode | src/studioforge/authkeys.py:84-87 | the divmod loop takes at most k steps below 62^k and its digits decode to the number |
| KeyTokens.WidthIsTight | src/studioforge/authkeys.py:65 | 62^42 < 2^256 < 62^43: 43 digits are enough and 42 are not |
| KeyTokens.TokenIsRecognised | src/studioforge/authkeys.py:97-106 | every token looks like a key and hints at its own scope |
| KeyTokens.GenerateToken | src/studioforge/authkeys.py:79-89 | refuses exactly the unknown scopes; the token hints at the scope asked for and, for 256 bits, has 43 digits that decode to the number |
| KeyTokens.LooksExactly | src/studioforge/authkeys.py:97-106 | a value looks like a key if and only if it begins sf-r-, sf-i- or sf-a-, and hints at that scope |
| KeySnapshot.AlwaysCoherent | src/studioforge/authkeys.py:269-316 | for every interleaving of the reader's stat and read with replaces under new mtimes, a cached mtime equal to the file's means the cached table is the file's |
| KeySnapshot.CoherentFromStart | src/studioforge/authkeys.py:289-316 | so it is from a reader that has read nothing yet |
| KeySnapshot.StepKeeps | src/studioforge/authkeys.py:269-316 | every step keeps the coherence invariant |
| KeySnapshot.SettledIsCurrent | src/studioforge/authkeys.py:296-316 | a refresh nobody interrupts leaves the current file's table, whatever was cached or half read before |
| KeySnapshot.ReusedMtimeIsMissed | src/studioforge/authkeys.py:298-316 | a replace after a settled read is seen if and only if its mtime is another one or its table the same |
| KeySnapshot.InterruptedRefresh | src/studioforge/authkeys.py:296-316 | a refresh interrupted by replaces and removes leaves the table of the file at its stat, that of the file at its read, or none |
| KeySnapshot.RevokedStaysOut | src/studioforge/authkeys.py:296-356 | a key missing from the snapshot in place, and from any published while the refresh runs, is not let in |
| KeySnapshot.SettledVerify | src/studioforge/authkeys.py:172-356 | verify succeeds if and only if the last snapshot was made of a record of that hash that is not revoked, has one of the three scopes, and had not expired when it was written and has not since |
| KeySnapshot.DeadKeyRefused | src/studioforge/authkeys.py:250-356 | a key all of whose records are revoked or expired is refused, however the refresh is interrupted |
| KeySnapshot.RowsAre | src/studioforge/authkeys.py:172-265 | a snapshot shows exactly the records not revoked and not expired, field by field |
| KeySnapshot.VerifyFromStart | src/studioforge/authkeys.py:250-356 | so it does after any interleaving since the reader was made |
| KeySnapshot.SnapshotFile.WriteSnapshot | src/studioforge/authkeys.py:238-278 | published if and only if one of six replaces works after blocked ones only, and raises if and only if another error comes first; otherwise the old snapshot stays; what is published are the records not revoked and not expired |
| KeySnapshot.SnapshotVerifier.Refresh | src/studioforge/authkeys.py:296-316 | one refresh from what stat and read saw, each at its own moment |
| KeySnapshot.SnapshotVerifier.BuildTable | src/studioforge/authkeys.py:309 | the table maps each hash to its last row |
| KeySnapshot.SnapshotVerifier.Verify | src/studioforge/authkeys.py:337-356 | answers from the refreshed table, and touches nothing for a token of another shape |
| PromptText.PromptPrefix | bench/bench_stats.py:264-285 | for every random stream, n <= m and header, the text for n words is a prefix of the text for m words |
| PromptText.ExactlyWords | bench/bench_stats.py:264-285 | read back by white space the text has exactly the n words drawn, so breaks and strip join, split and lose none |
| PromptText.BodyPrefix | bench/bench_stats.py:284 | the rendered text of the first n words is a prefix of the text of all |
| PromptText.BodyIs | bench/bench_stats.py:284 | join, break replacement and strip give each word with a blank or its break, the last one bare |
| PromptText.Rendered | bench/bench_stats.py:284 | the break replacement removes exactly the blank after each break |
| PromptText.WordsArePrefix | bench/bench_stats.py:272-284 | exactly n words are kept, and they are the first of those for m |
| PromptText.GrowFurther | bench/bench_stats.py:272-283 | the sentence loop for n is a stop on the way to m, with the same generator state |
| PromptText.SentenceTokens | bench/bench_stats.py:273-282 | every word of a sentence is free of white space but for a break at its end |
| PromptText.SentenceReads | bench/bench_stats.py:273-282 | draw by draw: which 5 to 15 words, the first capitalised, where a comma stands if any, which stop ends it, and whether a paragraph break follows |
| PromptText.CapitalizeReads | bench/bench_stats.py:275 | an ASCII word is capitalised letter by letter |
| PromptText.BuildSentence | bench/bench_stats.py:273-282 | one pass of the loop draws and marks the sentence of the specification |
| PromptText.BuildPrompt | bench/bench_stats.py:264-285 | the method builds the specified text |
| LogStream.StreamIsExact | src/studioforge/cli_commands.py:404-425 | for an append-only log, repeats or not, the stream prints the initial tail and then every later line once, in order, if and only if every window fits: it holds all that is new and overlaps the one before by nothing longer than what they share |
| LogStream.DistinctStreamIsExact | src/studioforge/cli_commands.py:404-425 | for distinct lines that is if and only if no poll is more than a window behind |
| LogStream.FollowsExactly | src/studioforge/cli_commands.py:413-423 | from the first non-empty poll on, nothing is printed twice, and everything newer exactly when every window fits |
| LogStream.DistinctFits | src/studioforge/cli_commands.py:431-439 | with distinct lines a window fits exactly when the growth does |
| LogStream.DistinctPoll | src/studioforge/cli_commands.py:431-439 | with distinct lines a poll prints exactly the new lines still in the window |
| LogStream.NeverTwice | src/studioforge/cli_commands.py:431-439 | repeats or not, a poll prints only lines appended since the last one, the newest of them |
| LogStream.PollIsExact | src/studioforge/cli_commands.py:431-439 | repeats or not, a poll prints everything new if and only if its window fits |
| LogStream.RepeatsAreHidden | src/studioforge/cli_commands.py:435-437 | a window full of one line shows no further copy of it |
| LogStream.ShownIs | src/studioforge/cli_commands.py:414-415 | a first poll shows the last n lines, all of them for 0, and all but the first -n for a negative n |
| LogStream.NewLines | src/studioforge/cli_commands.py:431-439 | exactly the longest suffix/prefix overlap is dropped |
| LogStream.Stream | src/studioforge/cli_commands.py:412-423 | the polling loop prints what the specification does, one poll only without follow |
| CacheRam.SharedBound | src/studioforge/config.py:614-634 | over any spawns and exits every grant is between the floor and max(pool, floor), and n children hold at most max(pool, floor) + floor * (n - 1) |
| CacheRam.BoundAttained | src/studioforge/config.py:79-85 | n spawns in a row reach that bound |
| CacheRam.TotalAfterSpawn | src/studioforge/config.py:614-634 | a spawn fills the pool up, or adds the floor where less than that is left |
| CacheRam.OverCommitExactly | src/studioforge/config.py:614-634 | an arrival takes the total over the pool if and only if less than the floor was left |

## Left out

- JSON, SHA-256, random bits, clocks, `fstat`, the network and the file system's answers are parameters; JSON is an abstract codec with the laws `SseReader.Printable` states, and hash collisions are assumed away.
- Event names are Unicode text without line breaks, as the printer needs; lone surrogates, which the encoder would refuse, are not in the character type.
- ChatEvents.Translator.Run: `str()` of a value and freshly minted call ids are functions of the environment, and iterating a string or an object where a list belongs yields only items that are skipped.
- CredentialGuard.GuessRate: the guesser asks and tries one at a time; two tries between the separate locks of `retry_after` and `record_failure` are not bounded. Thread locks make each method one step.
- CredentialGuard.Guard.RecordFailure: the tie to the client's history is promised for times in order. The code reads the clock before it takes the lock, so two threads can arrive out of order; the contract then says what the table does, and WrittenIsEvictedExactly what eviction does.
- CredentialGuard.JustWrittenStays: times in order, for the same reason; WrittenIsEvictedExactly has no such requirement.
- CredentialGuard.Guard.RetryAfter: times and lockouts are reals, so floating-point rounding is not modelled.
- LogHandler.NothingLostOverRuns: assumes that no write fails, that other processes rotate with the same number of copies, that an owner's check for a moved file and its rename are one step, and that comparing file identities gives the right answer.
- AuditLog.OrderMattersExactly: assumes that the last copied and the last live line differ, as lines with timestamps do; with equal ones the two orders can agree by coincidence.
- LogFiles.NameIsFresh: copies are those with the names the program makes; a hand-made name with a counter of `_0` or with leading zeros, which the pattern would also accept, is not a separate file here.
- LogHandler.BackOff: a retry time that happens to be exactly 0.0 means no retry pending, as in the code; the lemma excludes it.
- AuditLog.Log.Tail: a file is a sequence of lines; `splitlines` separators other than the line feed cannot occur in the ASCII lines the log writes.
- Scrubbing.ScrubbedExactly: exact over all registries that hold the secret. In a particular registry a secret that is not clean may never survive, as when a clean one is part of it. The set's iteration order is fixed within one redaction; keys of dicts are not scrubbed and values of other types pass through, as in the code; lower-casing a key is a given function.
- LogSteppedBack.SteppedBackCostsExactly: one rotation of a log of distinct lines, under a name that is not taken; NameIsFresh says exactly when it is taken, and then an older copy is overwritten.
- SqlScript.ScriptRoundTrip: lines end at a line feed only; the other separators of `splitlines` are not modelled. String literals that hold a semicolon are outside what the splitter promises, and SurvivesExactly says so.
- Migrations.CrashSafe: the database is a schema and a set of versions, a transaction is a private copy committed at once under one write lock; a lock held is one still held after the five seconds the code waits for it; SQL text, the journal and SQLite's own files are not modelled.
- Recovery.BootDestroysNothing: `migrate` only creates missing files; that closing the database may remove its write-ahead log, and the waits between retries, are left out.
- KeySnapshot.SettledVerify: distinct active records have distinct hashes; the constant-time comparison repeats the look-up and is not modelled. The file is replaced whole, never read half written.
- PromptText.PromptPrefix: the generator is any stream of draws, each call taking one, instead of the Mersenne twister's number of words per call; capitalising is for ASCII words.
- LogStream.StreamIsExact: the endpoint answers with the last lines of a log that only grows; entries that are dicts, path redaction and the waits are left out.
- CacheRam.SharedBound: grants are automatic ones from one pool; explicit and unlimited settings, which the supervisor counts as nothing held, are left out.
- The VRAM planner, supervisor, leases, priority tiers, HTTP servers and clients, command-line plumbing, key storage, settings schema, error catalog, process spawning and file permissions.
- `schema_version`, `has_admin`, `has_keys`, `legacy_revoked`, `scope_at_least`, the log ring buffer and the logging configuration: each settled by one reading.
