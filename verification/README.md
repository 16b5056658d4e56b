# onemessagebus, modelled and proved

A Dafny model of the hard core of the message bus: its event-sourced queue and
the concurrent protocols around it. Every claim below is about the model, for all
inputs, all runs or all reachable states; `dafny verify dfyconfig.toml` checks the
whole project.

What is modelled, file by file:

- `QueueModel.dfy` is the log, the policy and the one transition function `Apply`
  that folds a log line into what is waiting, what holds the pending slot and the
  next id, with what each operation derives from a fold. `QueueHistory.dfy`,
  `QueueScans.dfy` and `QueueOrder.dfy` prove what holds in every log its own
  writers wrote: where each id is, how a record leaves the slot, how often one is
  claimed and answered, that whole-log scans and the fold agree, and in what order
  records are claimed.
- `Seal.dfy` is the 128-bit FNV-1a digest and `SealBursts.dfy` the damage it always
  shows; `Projections.dfy` the sealed, stamped
  projection a reader folds on top of; `QueueCache.dfy` every run of mutations,
  crashes between append and projection write, late write-backs and damage.
  `EventQueue.dfy` is the queue as a class over its log and its document, each
  method proved against the fold. `QueueLines.dfy` is the line format, and
  `PlainQueue.dfy` the queue of per-consumer cursors.
- `ReplyRace.dfy` interleaves any number of replies to one claim at their reads,
  append and release; `ReplyRefusals.dfy` says when what each is told is so.
  `BoundReplies.dfy` interleaves the replies that bind to a question by its
  correlation instead. `ReplyWitnesses.dfy` holds the runs in which what is told or
  answered is not what was promised.
- `InboxModel.dfy` and `Inbox.dfy` are the inbox's state and its methods;
  `InboxRuns.dfy` interleaves receivers, senders with deadlines, closes, deliveries
  and the clock.
- `PluginProtocol.dfy` is the section-nesting line protocol between a client and a
  served transport; `PluginPipe.dfy` several threads over one pipe.
- `Glob.dfy` is the backtracking matcher. `Templates.dfy` and `Codecs.dfy` are the
  template scanner and renderer, and what an accepted codec configuration answers.
- `Streams.dfy` and `StreamReads.dfy` are the shared stream file, healed by its
  emitters and read on from the last position. `CarryStores.dfy` and
  `CarryRuns.dfy` are the carry store and its drains.

`Wrappers.dfy` and `Json.dfy` hold the two shared datatypes, and `Sequences.dfy` what
is shared about ascending and filtered sequences. Threads and processes are
interleaved atomic steps at lock boundaries; time is a number that never decreases;
a transport is an append-only sequence of lines with strictly increasing positions,
a document, and a section that runs its body; a crash is a step that stops after any
prefix of what it writes.

Where the code and what is said of it differ, the model follows the code, and the
difference is stated as a lemma or here:

- `frame` lets a record's own `event` field overwrite the event word
  (`crates/onemessagebus/src/queue.rs:1107-1114`), so a line reads back as it was
  framed exactly when the record has no such field: `QueueLines.FrameRoundTrip`.
- `push` and `claim` promise that a failure has appended nothing
  (`crates/onemessagebus/src/queue.rs:1444` and `:1514`). On an event queue the
  projection is written after the appends and its failure is the call's (`:1353`), and
  so is that of a section that cannot be ended once its body has run (`:1366-1373`);
  what the call recorded stays. `EventQueues.EventQueue.Record` states the exact
  condition for every operation,
  `EventQueues.EventQueue.FailedCallRecordsNothingExactly` reads it off for a call of
  one line, and `EventQueues.EventQueue.FailedClaimHandsToNobody` says what becomes of
  a record whose claim failed so.
- A reply whose record is no longer in the slot, or whose claim is answered already,
  is told that another reply answered it first
  (`crates/onemessagebus/src/ask.rs:940-969`). The slot may instead have gone to the
  claim of another blocking record, or been released with no reply at all
  (`crates/onemessagebus/src/queue.rs:1625-1638`): `ReplyWitnesses.RefusedByAClaim`,
  `ReplyWitnesses.RefusedByARelease` and `ReplyWitnesses.RefusedLate` are runs that end
  so, and `ReplyRefusals.RefusalIsTrueExactly` and
  `ReplyRefusals.LateRefusalIsTrueExactly` the exact conditions, in every run.
- A reply releases the slot by its record's id, not by the claim it was for
  (`crates/onemessagebus/src/queue.rs:1582-1590`), so it may answer a later claim of
  the record, as in `ReplyWitnesses.AnswersALaterClaim`:
  `ReplyRefusals.AnswersItsOwnClaimExactly` says when it answers its own.
- An ask is said to be pending until a reply echoing its correlation is on the answers
  queue (`crates/onemessagebus/src/ask.rs:843-847`), but a reply reads which
  correlations were echoed before it lands its own, so two replies to one ask may both
  land and both be told so (`ReplyWitnesses.BothReportAnswered`);
  `BoundReplies.BoundBeforeItLanded` says when, and `BoundReplies.RecordsWhereFound`
  which of them recorded its answer.
- A plugin acknowledges the opening of a section before it asks its transport for
  it, so a transport that refuses the section answers one line twice and every
  later reply is read for the wrong line:
  `PluginProtocol.RefusedSectionShiftsReplies`. A run over the pipe is the run made
  directly exactly when that does not happen: `PluginProtocol.PairsExactlyWhenOpened`
  and `PluginProtocol.PipedIsDirect`. A client denied a section directly enters it over
  the pipe: `PluginProtocol.DenialsAreNotPiped`.
- Over a pipe whose replies are shifted so, the next opening reads as not done although
  it was (`PluginProtocol.OpeningAfterRefusal`), and a section whose opening is not
  answered done is left with its opening sent and no end to come
  (`crates/onemessagebus/src/plugin.rs:871-880`). The lines are whole sections, each its
  holder's alone, exactly when there is no such opening:
  `PluginPipe.LinesAreWholeSections`, `PluginPipe.OnlyTheHolderSends` and
  `PluginPipe.OthersSendInsideAfterDenial`; `PluginPipe.DeniedOpeningBreaksIn` is a run
  in which there is.
- Messages in a carry store are promised to be in the store or in one inbox
  (`crates/onemessagebus/src/carry.rs:9-13`). A drain whose truncation succeeds and
  whose sync then fails keeps them in neither:
  `CarryRuns.LostExactlyByAHalfDoneCommit` is the exact condition, and
  `CarryRuns.AnsweredMessageLost` an answered message lost so.
- `is_marked_abandoned` says a record never marked is not abandoned
  (`crates/onemessagebus/src/queue.rs:1848-1851`). It stands as it was queued:
  `QueueScans.UnmarkedStandsAsQueued` says so for every record, both ways, and
  `QueueScans.AbandonedThoughUnmarked` gives one queued abandoned.
- `held` reads the slot and then the positions, and reports position 0 where the
  second read fails (`crates/onemessagebus/src/queue.rs:1664-1670`):
  `EventQueues.EventQueue.Held` says exactly when the position is that of the claim
  that filled the slot, and `ReplyWitnesses.PositionOfALaterClaim` is a log on which it
  is not.

## Model

| member | source | states |
|---|---|---|
| Glob.Glob | crates/onemessagebus/src/filter.rs:360-384 | the one-backtrack loop answers true exactly when the recursive meaning of `*` matches the whole text, and ends |
| Glob.LaterStarSuffices | crates/onemessagebus/src/filter.rs:368-381 | once a later `*` is reached an earlier one need never take more: why one backtrack point is enough |
| Glob.GoBack | crates/onemessagebus/src/filter.rs:368-381 | going back to the last `*` with one more character absorbed keeps the question the same |
| Glob.StarSplits | crates/onemessagebus/src/filter.rs:360-384 | a `*` matches only by absorbing some run, possibly empty, before the rest matches |
| Seal.Digested | crates/onemessagebus/src/queue.rs:832-836 | the loop computes the byte-by-byte FNV-1a digest from any starting digest |
| Seal.DigestOfConcat | crates/onemessagebus/src/queue.rs:842-850 | digesting a concatenation is going on from the first part's digest |
| Seal.StepInjective | crates/onemessagebus/src/queue.rs:832-836 | one byte's step, modulo 2^128, loses nothing: equal results mean equal digests when the bytes are equal, and equal bytes when the digests are |
| Seal.OneByteApart | crates/onemessagebus/src/queue.rs:824-836 | two inputs differing in exactly one byte never have the same digest |
| SealBursts.EightBytesApart | crates/onemessagebus/src/queue.rs:824-836 | up to eight bytes are told apart by their digest, whatever digest it goes on from |
| SealBursts.BurstApart | crates/onemessagebus/src/queue.rs:824-836 | two inputs of one length that differ only within eight bytes in a row never have the same digest |
| QueueModel.FoldFromConcat | crates/onemessagebus/src/queue.rs:1298-1307 | folding on from a checkpoint of a log's front is folding the whole log |
| QueueModel.RetainKeeps | crates/onemessagebus/src/queue.rs:1187-1198 | the waiting records kept are exactly those the new one does not replace, each as often and in the order they waited |
| QueueOrder.SupersedesExactly | crates/onemessagebus/src/queue.rs:1187-1198 | in an own-writer log, queueing leaves every waiting record waiting, in order, but those with the new one's key where there is a rule whose `when` does not refuse it; and the new one waits last |
| QueueModel.OlderWritersLine | crates/onemessagebus/src/queue.rs:1170-1179 | a line that says no event queues a record of an id not yet allocated, and otherwise says how every held record with the id stands and changes nothing else |
| QueueModel.UnheldFoldsToNothing | crates/onemessagebus/src/queue.rs:1202-1252 | a line about a record the fold does not hold changes nothing, unless it queues it |
| QueueModel.First | crates/onemessagebus/src/queue.rs:1519-1532 | the first waiting record nobody abandoned, of the blocking ones where asked |
| QueueOrder.PickIsOldestPreferred | crates/onemessagebus/src/queue.rs:1517-1540 | the record a claim picks is exactly the oldest preferred one: an unabandoned blocking one where the policy puts those first and there is one, else an unabandoned one, else any |
| QueueModel.MarksEach | crates/onemessagebus/src/queue.rs:1802-1846 | one line for each held record the operation affects, in their order, and no other |
| QueueHistory.OperationKeepsOwn | crates/onemessagebus/src/queue.rs:1336-1359 | however many of an operation's lines land before its writer dies, the log is one its own writers wrote |
| QueueHistory.OwnWellHeld | crates/onemessagebus/src/queue.rs:1181-1234 | no id is held twice, none held is unallocated, and the slot holds only a blocking record |
| QueueHistory.ClaimedWellHeld | crates/onemessagebus/src/queue.rs:1202-1225 | a claim removes exactly the picked record, and puts an abandoned record it displaces from the slot behind the waiting ones |
| QueueHistory.IdsPartitioned | crates/onemessagebus/src/queue.rs:1181-1234 | the ids allocated split into waiting, pending, superseded and handed out, each id in exactly one |
| QueueHistory.SlotReleased | crates/onemessagebus/src/queue.rs:1211-1234 | an unabandoned record leaves the slot only by its own answer or by the claim of another unabandoned blocking record |
| QueueHistory.WaitsAgain | crates/onemessagebus/src/queue.rs:1215-1224 | an id that had stopped waiting waits again only because a claim displaced it, abandoned, from the slot |
| QueueHistory.ClaimedAgain | crates/onemessagebus/src/queue.rs:1202-1225 | between two claims of one id, that id sat abandoned in the slot and another unabandoned blocking record's claim displaced it |
| QueueHistory.GoneStays | crates/onemessagebus/src/queue.rs:1166-1252 | a record that has left the fold never comes back |
| QueueHistory.ClaimedForGood | crates/onemessagebus/src/queue.rs:1202-1225 | a claim that does not take the slot is its record's last in the log |
| QueueHistory.AnsweredOnce | crates/onemessagebus/src/queue.rs:1226-1234 | a log holds at most one answer to each id |
| QueueScans.FoldAgreesWithScan | crates/onemessagebus/src/queue.rs:1856-1875 | for every record the fold holds, the whole-log scan for its latest mark says what its flag says, and the record is as it was queued |
| QueueScans.UnallocatedUnqueued | crates/onemessagebus/src/queue.rs:1888-1899 | no line queues an id the log has not allocated |
| QueueScans.QueuedOnce | crates/onemessagebus/src/queue.rs:1452-1475 | a log queues each id at most once |
| QueueScans.UnmarkedStandsAsQueued | crates/onemessagebus/src/queue.rs:1848-1875 | a record never marked stands abandoned exactly when it was queued with its flag set |
| QueueScans.AbandonedThoughUnmarked | crates/onemessagebus/src/queue.rs:1848-1875 | a log whose one record is abandoned though nothing marks it |
| QueueScans.HeldPosition | crates/onemessagebus/src/queue.rs:1660-1676 | the position reported for the pending record is that of the very claim that put it there, and it has held the slot since |
| EventQueues.PositionReadLater | crates/onemessagebus/src/queue.rs:1660-1676 | reading the slot and then the positions reports the claim that filled it exactly when nothing claimed the record in between |
| QueueScans.ClaimedOnce | crates/onemessagebus/src/queue.rs:1515-1547 | without a pending slot, or for a record never abandoned, an id is claimed at most once in the whole log |
| QueueOrder.WaitingAscending | crates/onemessagebus/src/queue.rs:1182-1225 | without a pending slot the waiting records stay in push order |
| QueueOrder.WaitingUntilClaimed | crates/onemessagebus/src/queue.rs:1202-1225 | without a pending slot a claimed record was waiting at every point since it was queued |
| QueueOrder.NoOvertaking | crates/onemessagebus/src/queue.rs:1515-1541 | when a record is claimed, no earlier one of its blocking class that somebody listens for is waiting, whether or not it is ever claimed |
| QueueOrder.EarlierNotWaiting | crates/onemessagebus/src/queue.rs:1515-1541 | when a record is claimed, an earlier one of its class that nobody ever abandoned is not waiting |
| QueueOrder.ClaimedInPushOrder | crates/onemessagebus/src/queue.rs:1515-1541 | of two claimed records of one blocking class, where nobody ever abandoned the earlier, the earlier was claimed first |
| QueueOrder.SupersedeKeepsNewest | crates/onemessagebus/src/queue.rs:1187-1198 | no waiting record the rule admits has an earlier waiting record with its key |
| Projections.StartAfter | crates/onemessagebus/src/queue.rs:1287-1297 | a stamp is read on from exactly where a record ends at it, and is refused exactly where none does |
| Projections.ClaimsAreTheFold | crates/onemessagebus/src/queue.rs:1264-1310 | reading through a projection that is absent, broken or the fold of a prefix gives the fold of the whole log |
| Projections.FaithfulGrows | crates/onemessagebus/src/queue.rs:1256-1263 | a projection that folds a prefix of the log still does once the log has grown |
| Projections.DamagedClaimsAreSeen | crates/onemessagebus/src/queue.rs:842-861 | claims whose written bytes were changed anyhow within eight in a row fail the seal they were stamped with |
| Projections.DamagedStampIsSeen | crates/onemessagebus/src/queue.rs:842-861 | a projection whose stamp was changed to any other fails its seal |
| Projections.DamagedSealIsSeen | crates/onemessagebus/src/queue.rs:858-861 | a stamped projection whose seal was changed or taken away is not trusted |
| Projections.LittleEndianReads | crates/onemessagebus/src/queue.rs:846-849 | the eight bytes a stamp is sealed as are its own: the number is read back from them |
| Projections.PassedOver | crates/onemessagebus/src/queue.rs:1264-1297 | a stored projection that is not trusted, or is stamped where no record ends, is passed over and the whole log folded |
| QueueCache.MutateKeepsSound | crates/onemessagebus/src/queue.rs:1336-1359 | a mutation that dies after any of its appends, or before its projection write, leaves the cache sound |
| QueueCache.MutateAppends | crates/onemessagebus/src/queue.rs:1336-1359 | from any sound world a mutation appends a front of the lines its operation derives from the whole log's fold, whatever is stored, and writes the fold of the log it leaves exactly where it gets so far and the policy keeps a projection |
| QueueCache.ReaderFoldsAll | crates/onemessagebus/src/queue.rs:1264-1310 | a reader folds the whole log, whatever it loaded and however long ago |
| QueueCache.MutationMayStop | crates/onemessagebus/src/queue.rs:1336-1359 | from any sound world an operation that may run is cut short after any of its lines, or runs to its end and writes |
| QueueCache.ReaderMayFold | crates/onemessagebus/src/queue.rs:1264-1310 | from any sound world a reader folds on from whatever it loaded, however long ago |
| QueueCache.EveryRunIsSound | crates/onemessagebus/src/queue.rs:1264-1359 | in every run the stored projection is absent, fails its seal, or is the fold of a prefix ending at a record boundary, and so is whatever a reader still holds |
| QueueCache.ReadsAnswerTheFold | crates/onemessagebus/src/queue.rs:1264-1330 | whatever a reader loaded and whenever it folds, it answers the whole log folded from empty |
| EventQueues.Working.Apply | crates/onemessagebus/src/queue.rs:1166-1252 | one line folded in place is the transition function |
| EventQueues.Working.MarkHeld | crates/onemessagebus/src/queue.rs:1235-1250 | every held record with the id is flagged, and nothing else changes |
| EventQueues.EventQueue.CatchUp | crates/onemessagebus/src/queue.rs:1298-1307 | the loop folds the lines in order, passing over those below an older writer's floor |
| EventQueues.EventQueue.Current | crates/onemessagebus/src/queue.rs:1264-1310 | the claims are the whole log's fold, accounted to its end; nothing folded means the stored projection was exactly that |
| EventQueues.EventQueue.Snapshot | crates/onemessagebus/src/queue.rs:1317-1330 | it answers the fold, leaves the stored projection the fold of the whole log where it can be written, and untouched where it cannot |
| EventQueues.EventQueue.Record | crates/onemessagebus/src/queue.rs:1336-1359 | under the section, exactly the lines the operation derives from the fold are appended, up to the first the transport fails, and none exactly when the section never ran its body, there was none to append, or the first append failed; the projection is then the new fold, or untouched where the body failed; the section's own failure is told before the body's |
| EventQueues.EventQueue.RecordInside | crates/onemessagebus/src/queue.rs:1336-1359 | inside the section: the lines appended and folded in place, then the projection written, each failing as told: no id left, an append, or the projection's write |
| EventQueues.EventQueue.AppendAll | crates/onemessagebus/src/queue.rs:1344-1350 | the loop appends the lines in order up to the first the transport fails, and folds in place exactly those it appended |
| EventQueues.EventQueue.FailedCallRecordsNothingExactly | crates/onemessagebus/src/queue.rs:1344-1355 | a failed push, claim, answer or mark recorded nothing exactly when its section never ran its body, it had nothing to record, or the transport does not take its line |
| EventQueues.EventQueue.Push | crates/onemessagebus/src/queue.rs:1452-1475 | the record is queued under the next id; nothing is recorded where no id is left, the append fails or the section never runs its body, and its line stays where the projection cannot be written or the section ended |
| EventQueues.EventQueue.Claim | crates/onemessagebus/src/queue.rs:1515-1547 | the picked record is handed over, its claim logged and it waiting no more; nothing exactly when nothing waits; a failed append or a section never run records nothing, and a failed projection write or section's end leaves the claim recorded |
| EventQueues.EventQueue.FailedClaimHandsToNobody | crates/onemessagebus/src/queue.rs:1515-1547 | a claim that fails once it is logged, on its projection or its section's end, hands its record to nobody, whatever follows: it waits no more, and unless it took the slot nothing claims it again |
| EventQueues.EventQueue.Answer | crates/onemessagebus/src/queue.rs:1575-1617 | refused exactly without a reply at the position; answers exactly when the slot holds that id; once the answer is recorded, even by a call that then fails, the record is gone for good |
| EventQueues.EventQueue.AnswerPending | crates/onemessagebus/src/queue.rs:1625-1638 | whatever the slot held is handed back and the slot is empty; once the answer is recorded, even by a call that then fails, the slot is released |
| EventQueues.EventQueue.IsMarkedAbandoned | crates/onemessagebus/src/queue.rs:1856-1875 | the loop answers what the latest mark of the whole log says |
| EventQueues.EventQueue.LatestClaims | crates/onemessagebus/src/queue.rs:1382-1400 | the loop maps each claimed id to the position of its latest claim |
| EventQueues.EventQueue.Held | crates/onemessagebus/src/queue.rs:1660-1676 | the slot read, and then, others having appended in between, the positions: the record in the slot, with the position of the claim that put it there exactly when the second read succeeds and nothing claimed the record in between |
| EventQueues.EventQueue.AnsweredClaim | crates/onemessagebus/src/queue.rs:1727-1753 | found exactly when a claim at the position is followed by an answer to its id |
| EventQueues.EventQueue.Abandon | crates/onemessagebus/src/queue.rs:1802-1820 | every held record named is then marked abandoned, and none marked already is marked again; a failed call made the first of its marks, all of them where only the projection or the section's end failed, and none exactly where its section never ran, there was none to make or the first append failed |
| EventQueues.EventQueue.Attend | crates/onemessagebus/src/queue.rs:1829-1846 | every held record of the asker is then attended, and no other asker's is touched; a failed call made marks as a failed `Abandon` does |
| EventQueues.EventQueue.Mark | crates/onemessagebus/src/queue.rs:1884-1916 | records nothing exactly when the record stands so already or was never queued, the append fails or the section never runs; once recorded it stands so, and no other record's mark changes |
| EventQueues.MarksDecide | crates/onemessagebus/src/queue.rs:1856-1875 | a run of one kind of mark decides for the ids it names and no other |
| QueueLines.WithoutKeyKeeps | crates/onemessagebus/src/queue.rs:886-900 | every field but the key's is kept, as often and in the order it was there |
| QueueLines.FrameRoundTrip | crates/onemessagebus/src/queue.rs:1092-1114 | a framed record reads back as its event and itself exactly when it has an id and no `event` field |
| QueueLines.ReadsExactly | crates/onemessagebus/src/queue.rs:1092-1105 | a line reads exactly where it has an id that fits and says a known event or none; it reads as that event and every other field in order |
| PlainQueues.PlainQueue.Push | crates/onemessagebus/src/queue.rs:1476-1499 | a numbered queue's record gets its index as its id and keeps every other field, and only a record that cannot be numbered is refused |
| PlainQueues.WithIdKeys | crates/onemessagebus/src/queue.rs:1486-1489 | numbering a record sets its id where it has one and puts it first where it has none, every key keeping its place |
| PlainQueues.PlainQueue.Claim | crates/onemessagebus/src/queue.rs:1548-1562 | the consumer is handed the first claimable record past its cursor, never one it was handed before, and no other consumer's cursor moves |
| PlainQueues.PlainQueue.HandedOnce | crates/onemessagebus/src/queue.rs:1548-1562 | what a consumer was handed is strictly ascending: each record at most once |
| ReplyRace.EveryRunIsSound | crates/onemessagebus/src/ask.rs:932-984 | in every interleaving, what each racing reply knows of the claim it answers is so, and no two of them recorded one answer |
| ReplyRace.OneReplyAnswers | crates/onemessagebus/src/ask.rs:932-984 | the log holds at most one answer to each id, and at most one reply to a claim answers it |
| ReplyRace.SlotLost | crates/onemessagebus/src/ask.rs:971-977 | the last line to take a record out of the slot was its answer or another unabandoned blocking record's claim, and nothing else |
| ReplyRefusals.RefusalIsTrueExactly | crates/onemessagebus/src/ask.rs:971-977 | in every run, a reply refused at its release is told the truth, that another reply answered first, exactly when the step that last took its record out of the slot since it read it is a reply: otherwise it is the claim of another record, or a release of whatever the slot held |
| ReplyRefusals.LateRefusalIsTrueExactly | crates/onemessagebus/src/ask.rs:952-969 | in every run, a reply that finds its claim already answered is told the truth exactly when the step that recorded that answer is a reply, and not a release of whatever the slot held |
| ReplyRefusals.AnsweredExactlyUnlessDisplacedLast | crates/onemessagebus/src/queue.rs:1211-1234 | a record out of the slot was answered exactly when the last line to take it out was not a claim |
| ReplyRefusals.AnswersItsOwnClaimExactly | crates/onemessagebus/src/queue.rs:1575-1592 | in every run, a reply that answers answers the very claim it was for exactly when that record was not displaced from the slot since |
| ReplyWitnesses.RefusedByAClaim | crates/onemessagebus/src/ask.rs:940-977 | a nine-step run of one reply and two claims that is refused at its release, where nothing was ever answered |
| ReplyWitnesses.RefusedByARelease | crates/onemessagebus/src/ask.rs:940-977 | a nine-step run of one reply refused at its release, where the slot was released with no reply |
| ReplyWitnesses.RefusedLate | crates/onemessagebus/src/ask.rs:952-969 | an eight-step run of one reply refused as late, where the slot was released with no reply |
| ReplyWitnesses.AnswersALaterClaim | crates/onemessagebus/src/queue.rs:1582-1590 | a twelve-step run whose reply, checked against its record's first claim, answers its second |
| ReplyWitnesses.PositionOfALaterClaim | crates/onemessagebus/src/queue.rs:1660-1676 | a log on which the position read later is not that of the claim that filled the slot |
| BoundReplies.EveryRunIsSound | crates/onemessagebus/src/ask.rs:857-917 | in every interleaving of replies bound by correlation, a call that reports its reply echoed has echoed it, and no two recorded one answer |
| BoundReplies.FirstToAsk | crates/onemessagebus/src/ask.rs:867-870 | the questions are exactly the first record queued with each correlation |
| BoundReplies.ReportsWhatLanded | crates/onemessagebus/src/ask.rs:904-917 | in every run a call reports that it answered exactly where its own reply had landed |
| BoundReplies.OneRecords | crates/onemessagebus/src/ask.rs:904-917 | of the calls bound to one question, however many report that they answered, at most one recorded its answer |
| BoundReplies.BoundBeforeItLanded | crates/onemessagebus/src/ask.rs:865-904 | whenever a reply lands, every other ever bound to its correlation had read the replies before: bound after, there is no other |
| BoundReplies.RecordsWhereFound | crates/onemessagebus/src/ask.rs:904-917 | a call that reports that it answered recorded the answer exactly when it found its question in the slot, and found it there still when it released it |
| ReplyWitnesses.BothReportAnswered | crates/onemessagebus/src/ask.rs:857-917 | a run of two replies to one question in which both report that they answered and one of them recorded the answer |
| InboxModel.OperationsKeepOrder | crates/onemessagebus/src/inbox.rs:534-649 | every operation keeps the queue in arrival order, no message both queued and taken, and a closed inbox empty |
| InboxModel.ReleaseUndoesTake | crates/onemessagebus/src/inbox.rs:954-986 | a message released before its deadline leaves the inbox as it was before the take |
| Inboxes.Inbox.Offer | crates/onemessagebus/src/inbox.rs:534-567 | refused exactly when closed, and queued last under the next id unless its gate cannot say it was admitted |
| Inboxes.Inbox.OfferAll | crates/onemessagebus/src/inbox.rs:589-613 | all the messages are queued in order once the commit succeeds, or none |
| Inboxes.Inbox.Withdraw | crates/onemessagebus/src/inbox.rs:571-584 | takes out exactly that message, and succeeds exactly when it is still queued |
| Inboxes.Inbox.Scan | crates/onemessagebus/src/inbox.rs:786-828 | hands over the first message accepted and either ungated or answering taken, and none exactly where there is none such; what else it took out stood before, accepted and withdrawn or refused and lapsed, and everything else stays in order |
| Inboxes.Inbox.Select | crates/onemessagebus/src/inbox.rs:786-828 | the same under the lock: the message handed over is the one then taken, and what left the queue left it for those reasons alone |
| Inboxes.Inbox.Pop | crates/onemessagebus/src/inbox.rs:831-859 | hands over the first message ungated or answering taken, dropping before it only withdrawn ones; hands over nothing exactly where an undecided one comes first, which stays, or all were withdrawn |
| Inboxes.ScannedByGates | crates/onemessagebus/src/inbox.rs:786-828 | so it is of any queue, receiver and gates, said from what is accepted and what the gates answer alone |
| Inboxes.PoppedByGates | crates/onemessagebus/src/inbox.rs:831-859 | and so of a pop |
| Inboxes.Inbox.Release | crates/onemessagebus/src/inbox.rs:954-986 | the message is back at its arrival place, or expired past its deadline, or untouched after a close |
| Inboxes.Inbox.Answer | crates/onemessagebus/src/inbox.rs:993-1008 | the answer is recorded, and its sender told exactly when the message was still taken |
| Inboxes.Inbox.Close | crates/onemessagebus/src/inbox.rs:631-649 | every queued and taken message's sender is told once, and a second close tells nobody |
| Inboxes.ScannedOrdered | crates/onemessagebus/src/inbox.rs:786-828 | a scan leaves arrival order, nothing new, and the message it handed over out of the queue |
| Inboxes.UngatedScanTakesOne | crates/onemessagebus/src/inbox.rs:786-828 | with no gates exactly the first accepted message goes and every other stays in its place |
| Inboxes.UngatedScanIsTake | crates/onemessagebus/src/inbox.rs:786-828 | with no gates the ids left by a scan are those there were without the one handed over: the take the runs are made of |
| InboxRuns.StepFine | crates/onemessagebus/src/inbox.rs:443-649 | each step keeps every message in one place and unsays nothing told of it |
| InboxRuns.EveryRunIsSound | crates/onemessagebus/src/inbox.rs:443-649 | in every interleaving an admitted message is queued, taken or finished, exactly one of them, and a finished one's sender is told how once |
| InboxRuns.MovesExactly | crates/onemessagebus/src/inbox.rs:534-649 | each step moves each message exactly where the step says, between queued, taken, finished and not yet admitted, and no other |
| InboxRuns.FinishesExactly | crates/onemessagebus/src/inbox.rs:571-649 | a message finishes by a step, and so, exactly where a receiver that holds it replies so or lets it go, it expires handed back late, its sender withdraws it in time, or the inbox is closed with it inside |
| InboxRuns.FinishedForGood | crates/onemessagebus/src/inbox.rs:571-584 | how a message finished never changes and it is never taken again, so a withdrawal and a final take never both succeed |
| InboxRuns.FinishedAt | crates/onemessagebus/src/inbox.rs:571-649 | in every run a finished message was finished at one step, in just that way |
| InboxRuns.DeliveredOnce | crates/onemessagebus/src/inbox.rs:920-929 | no reply fires twice |
| InboxRuns.AnswersReachTheirSender | crates/onemessagebus/src/inbox.rs:993-1008 | in every run an answer a sender got is what finished its message: the disposition its receiver replied with, the reason of the close, or that it was let go |
| InboxRuns.NothingElseIsHanded | crates/onemessagebus/src/inbox.rs:993-1008 | once a message finished so, in every later state it stands so and its sender is handed nothing else |
| InboxRuns.SenderCanLearn | crates/onemessagebus/src/inbox.rs:1319-1361 | from any sound state the sender of a finished message is told how it finished within three steps of its own and the delivery in flight |
| InboxRuns.SenderMayStep | crates/onemessagebus/src/inbox.rs:1346-1415 | a sender looks, waits, withdraws exactly as far as it has got |
| InboxRuns.ReceiverMayStep | crates/onemessagebus/src/inbox.rs:534-649 | a receiver takes exactly what is queued, and releases, answers or drops exactly what it holds; anyone offers and closes at any time |
| InboxRuns.WaitEndsExactlyAtItsDeadline | crates/onemessagebus/src/inbox.rs:1378-1415 | an unanswered wait goes on to withdraw exactly when it looks at its deadline or later, and its message, still queued, then expires |
| InboxRuns.NeverRequeued | crates/onemessagebus/src/inbox.rs:1378-1415 | after a withdrawal past the deadline has failed the message is never queued again |
| InboxRuns.ExpiredMeansNeverTaken | crates/onemessagebus/src/inbox.rs:1378-1415 | once a sender is told its message expired, it is neither queued nor taken and no later take yields it |
| InboxRuns.ClosedForGood | crates/onemessagebus/src/inbox.rs:631-649 | after a close the first reason stands and nothing is queued or taken |
| PluginProtocol.ErrorsComeBack | crates/onemessagebus/src/plugin.rs:283-333 | the refusals a queue acts on cross the wire unchanged, and every other by its text under the kind that carried it |
| PluginProtocol.Serve | crates/onemessagebus/src/plugin.rs:427-491 | the serving loop, calling itself for a section's lines, is the recursive meaning of the line stream |
| PluginProtocol.RepliesCounted | crates/onemessagebus/src/plugin.rs:427-491 | one reply for each line, and one more for each section refused or left open: they pair exactly when there is none |
| PluginProtocol.NotARequest | crates/onemessagebus/src/plugin.rs:427-491 | a line that is no request, or ends no open section, is answered so and nothing else comes of it; a blank line is not answered |
| PluginProtocol.ClientLostInside | crates/onemessagebus/src/plugin.rs:477-490 | where the input ends inside a section, whatever came before, the transport is told that the section failed, the last reply says the client went away, and serving ends |
| PluginProtocol.ClientEndedIt | crates/onemessagebus/src/plugin.rs:477-490 | where the client ends a section the transport is told that it failed exactly where the client said so, and the reply is that failure, else the transport's own, else done |
| PluginProtocol.AnswersLineByLine | crates/onemessagebus/src/plugin.rs:427-491 | what was written on reading some lines begins what is written when more follow, so a reply never waits for a later line |
| PluginProtocol.ServingIsPlaying | crates/onemessagebus/src/plugin.rs:467-476 | where its sections open, serving a run's flattened lines, whatever follows them, is making its calls with the sections nested |
| PluginProtocol.PairsExactlyWhenOpened | crates/onemessagebus/src/plugin.rs:427-491 | a run's replies pair with its lines exactly when the transport opens every section of it and it was denied none |
| PluginProtocol.ClientReads | crates/onemessagebus/src/plugin.rs:844-909 | what a client makes of any replies: answers, the transport's errors, and out of turn; inside a section exactly where its opening was answered done, and a section done exactly where its body and its end were |
| PluginProtocol.PipedIsDirect | crates/onemessagebus/src/plugin.rs:844-909 | for every client, run and transport: over the pipe the replies pair and read as recorded exactly when the run goes as recorded on the transport itself with no section denied; and however it goes there, both leave the transport in the same state |
| PluginProtocol.DenialsAreNotPiped | crates/onemessagebus/src/plugin.rs:844-909 | a run made directly in which sections were denied gets one reply too many over the pipe for each, and read in order they are never that run's |
| PluginProtocol.DepthIsCounted | crates/onemessagebus/src/plugin.rs:427-491 | every section some lines open and do not end was refused, or is left open |
| PluginProtocol.RefusedSectionShiftsReplies | crates/onemessagebus/src/plugin.rs:467-476 | a refused section is answered twice, and the replies after it are those to the lines before |
| PluginProtocol.OpeningAfterRefusal | crates/onemessagebus/src/plugin.rs:467-476 | after a refused section the reply read for the next opening says it was not done, while the transport opens it and serves inside it whatever is sent next |
| PluginPipe.StepKeeps | crates/onemessagebus/src/plugin.rs:686-705 | each locked step, an opening denied among them, keeps the pipe held for the one open or ending section, and the line stream standing where that section does |
| PluginPipe.EveryRunIsKept | crates/onemessagebus/src/plugin.rs:844-909 | so it is at every point of every run of threads |
| PluginPipe.MayGoExactly | crates/onemessagebus/src/plugin.rs:686-705 | a request from outside, and an opening, may go exactly where nobody holds the pipe; a section's own requests, nested sections, ends and letting go wait for nobody |
| PluginPipe.SendsExactly | crates/onemessagebus/src/plugin.rs:844-909 | a step sends one line, its section's own, and none where it re-enters a queue it holds or leaves one it re-entered |
| PluginPipe.MovesExactly | crates/onemessagebus/src/plugin.rs:844-909 | a step moves its own section alone, into what it opened and out of what it closed, and holds or frees the pipe with it |
| PluginPipe.CanLetGo | crates/onemessagebus/src/plugin.rs:686-705 | from any point of any run the holder can end what it is in and let go by its own steps, while nobody else has moved: no waiting request waits for good |
| PluginPipe.OnlyTheHolderSends | crates/onemessagebus/src/plugin.rs:859-902 | where every opening so far was answered done, the line sent while the lines have a section open is that section's owner's |
| PluginPipe.LinesAreWholeSections | crates/onemessagebus/src/plugin.rs:859-902 | whenever the pipe is free, the lines sent are single requests and whole, properly nested sections exactly when every opening sent was answered done |
| PluginPipe.LinesAreOneRun | crates/onemessagebus/src/plugin.rs:859-902 | at every point of every run the lines sent are those of one run, each opening denied a section denied in it, followed only by lines of the holder |
| PluginPipe.OthersSendInsideAfterDenial | crates/onemessagebus/src/plugin.rs:859-902 | while the pipe is free a request from outside may come next, and the lines have a section open for it to land in exactly when an opening was denied |
| PluginPipe.DeniedOpeningBreaksIn | crates/onemessagebus/src/plugin.rs:871-880 | a three-step run in which an opening is denied and another thread's request is sent inside the section it opened |
| Templates.Collect | crates/onemessagebus/src/codec.rs:324-354 | the scan computes the placeholders of a template, or its first error |
| Templates.Fill | crates/onemessagebus/src/codec.rs:500-539 | the scan computes the text of a template already read |
| Templates.PrintedReadsBack | crates/onemessagebus/src/codec.rs:324-354 | any literals and placeholders printed with braces doubled read back as exactly those placeholders in order, and render as the literals and values concatenated |
| Templates.ReadIsPrinted | crates/onemessagebus/src/codec.rs:324-354 | every text that reads as a template is the printing of some such literals and placeholders |
| Templates.PrintedRenders | crates/onemessagebus/src/codec.rs:482-539 | a lone placeholder gives its value with its JSON type, an empty string for none; anything else gives text |
| Templates.AlongLeadsTo | crates/onemessagebus/src/codec.rs:312-318 | a path leads to a value exactly where each of its keys in turn is a field of what the one before led to |
| Templates.SplitExactly | crates/onemessagebus/src/codec.rs:312-322 | a path is split exactly at its dots |
| Templates.PathsAre | crates/onemessagebus/src/codec.rs:320-322 | a text is a path exactly where it is not empty, and no dot starts it, ends it or follows another |
| Templates.NamesAre | crates/onemessagebus/src/codec.rs:336-346 | what stands between braces is read exactly where it is `frame` or `reply`, a dot and a path |
| Templates.WhyNot | crates/onemessagebus/src/codec.rs:324-354 | an opening brace that nothing closes, and a closing one that nothing opened, are each told as that |
| Templates.WhyNotBetween | crates/onemessagebus/src/codec.rs:336-346 | what stands between braces without a dot, or as no frame or reply path, is told as that |
| Templates.ValueIs | crates/onemessagebus/src/codec.rs:482-498 | a placeholder stands for exactly what its path leads to in the frame, or in the reply where there is one |
| Codecs.RendersExactlyTemplates | crates/onemessagebus/src/codec.rs:542-559 | rendering succeeds exactly when every string within is a template, whatever the frame and the reply |
| Codecs.RendersEveryString | crates/onemessagebus/src/codec.rs:542-559 | rendering renders every string and changes nothing else: the same items in order, under the same keys in order |
| Codecs.ReplyNotLookedAt | crates/onemessagebus/src/codec.rs:356-380 | what is accepted without leave to look into the reply renders the same with one and without |
| Codecs.StringsAllowedExactly | crates/onemessagebus/src/codec.rs:356-380 | a value is accepted exactly where every string in it, however deep, is a template, and looks into the reply only where that is allowed |
| Codecs.MappingsValidExactly | crates/onemessagebus/src/codec.rs:445-480 | a response is accepted exactly where each mapping in it, however deep, reads from reply paths, at least one, has no other key than its default, and a default of allowed strings |
| Codecs.RefusedExactly | crates/onemessagebus/src/codec.rs:382-443 | a configuration is refused exactly where it selects by no path, has no entry, an entry without bindings, or a faulty binding |
| Codecs.ResolvesWhatIsValid | crates/onemessagebus/src/codec.rs:568-618 | an accepted ask response resolves on every frame and reply |
| Codecs.ResolvesEveryPart | crates/onemessagebus/src/codec.rs:568-618 | resolving puts for each mapping its first filled path, or else its default rendered, and renders every other part where it stands |
| Codecs.FirstFilledIsFirst | crates/onemessagebus/src/codec.rs:599-604 | the path that answers is the first that leads to something other than an empty string |
| Codecs.NoneExactlyWhereAMappingLapses | crates/onemessagebus/src/codec.rs:568-618 | an accepted response has no answer exactly where one of its mappings finds nothing and has no default |
| Codecs.AskFallsBack | crates/onemessagebus/src/codec.rs:710-734 | a question answers with its resolved ruling, and with `unanswered` exactly where there is no reply or a mapping lapses; it fails its session exactly where the queue declined it or its answer was refused, saying which and why |
| Codecs.AppliedIsFirst | crates/onemessagebus/src/codec.rs:673-681 | the binding applied is the first declared one that holds, and none is found exactly when none holds |
| Codecs.AppliesIs | crates/onemessagebus/src/codec.rs:673-681 | a binding holds exactly where it has no condition or its field leads in the frame to what it is to equal |
| Codecs.RulingIs | crates/onemessagebus/src/codec.rs:561-566 | the ruling is the reply's `reply` field where it is an object with one, and otherwise the reply |
| Codecs.RespondsAsDeclared | crates/onemessagebus/src/codec.rs:682-734 | each action of an accepted binding does what it declares: answers its response rendered, refuses with its message rendered, raises its record rendered and then answers or fails, or asks it and answers its ruling resolved, else `unanswered` rendered; and fails with the refusal's text where the queue refused it |
| Codecs.AnswersByItsBinding | crates/onemessagebus/src/codec.rs:642-734 | an accepted configuration answers every frame by the first binding that holds of the first entry of the selected word, as that binding declares, and refuses it exactly where it selects no word, no entry or no binding |
| Codecs.AcceptedConfigAnswers | crates/onemessagebus/src/codec.rs:382-443 | a configuration that was accepted never fails on a frame, whatever became of what it raised or asked |
| Streams.HealedKeepsLines | crates/onemessagebus/src/emit.rs:480-499 | healing takes away the torn tail and no whole line |
| Streams.SharedFile.Recorded | crates/onemessagebus/src/emit.rs:480-499 | counts the whole lines and leaves the file healed |
| Streams.SharedFile.Emit | crates/onemessagebus/src/emit.rs:382-417 | numbers the envelope one past the whole lines, heals, and writes as much of the line as the writer lives to |
| Streams.EmittedLines | crates/onemessagebus/src/emit.rs:382-417 | an emit adds its one line exactly when it is written to its newline, and no whole line is ever taken away |
| StreamReads.Read | crates/onemessagebus/src/read.rs:192-217 | the loop reads each line with the position after it, and the torn tail last |
| StreamReads.ReadsEachLine | crates/onemessagebus/src/read.rs:192-217 | every whole line of a file is read, in its place: as the envelope exactly where it parses, with the position after its newline, and otherwise refused where it starts; and after them the torn tail where there is one |
| StreamReads.OpensExactlyAtPositionsRead | crates/onemessagebus/src/read.rs:92-120 | a reader opens exactly at the start and at the positions a reading of the file hands back, and is refused anywhere else: as past the end exactly where it is |
| StreamReads.ReadKeeps | crates/onemessagebus/src/read.rs:92-134 | a read from where the last one stopped is never refused and completes one read of the whole healed file |
| StreamReads.LinesAreNumbered | crates/onemessagebus/src/emit.rs:382-417 | in every run of emitters dying anywhere, the whole lines carry the numbers 1, 2, 3 and on |
| StreamReads.ResumingReadsOnce | crates/onemessagebus/src/read.rs:92-134 | a reader that always resumes has, at each read, read every whole line of the file exactly once |
| StreamReads.ResumingYieldsWhatLanded | crates/onemessagebus/src/read.rs:192-217 | where a line parses back to what was emitted, in every run a reader that always resumes has yielded at each read exactly the envelopes that landed, each once, in order and with its number |
| CarryStores.CarryStore.Send | crates/onemessagebus/src/carry.rs:105-138 | appends the entry's line to a store that parses, answering only when it is written and synced, and leaves any other store alone |
| CarryStores.CarryStore.AdoptInto | crates/onemessagebus/src/carry.rs:157-192 | the inbox takes everything the store held, in order, in the step that empties it, or nothing |
| CarryStores.ParsesExactly | crates/onemessagebus/src/carry.rs:246-302 | any store parses to its lines' entries in order, is no store exactly where its first line is not the header, and is unreadable exactly where it ends in a torn record or a line is no entry |
| CarryRuns.ParsesEntries | crates/onemessagebus/src/carry.rs:246-302 | a store of its header and entries parses to those entries, and fails to exactly by a torn record |
| CarryRuns.SendsExactly | crates/onemessagebus/src/carry.rs:105-138 | in every run a send is answered exactly where the store ends in no torn record and its whole line was written and synced, and adds what was written of its line to such a store and nothing to any other |
| CarryRuns.DrainsExactly | crates/onemessagebus/src/carry.rs:157-192 | in every run a drain is refused exactly by a closed inbox, a torn record, or an entry of another schema than the inbox's; it otherwise takes everything the store holds in order where the commit goes through, and empties the store exactly where the commit did |
| CarryRuns.EachTakesItsOwn | crates/onemessagebus/src/carry.rs:200-212 | in every run no inbox was given a message carried for another schema |
| CarryRuns.TakenOnceInOrder | crates/onemessagebus/src/carry.rs:157-192 | in every run each written message is in the store or has one fate, each inbox was given exactly its own, and everything stays in carried order |
| CarryRuns.AnsweredIsAccountedFor | crates/onemessagebus/src/carry.rs:105-192 | in every run, at every point after its sender was answered, a message is in the store in its place, or in one inbox, or was lost by a later drain that emptied its store and failed to sync |
| CarryRuns.LostExactlyByAHalfDoneCommit | crates/onemessagebus/src/carry.rs:182-191 | a written message is lost exactly when a drain emptied a store that held it and then failed to sync |
| CarryRuns.AnsweredMessageLost | crates/onemessagebus/src/carry.rs:182-191 | an answered message that ends neither in the store nor in an inbox |
| CarryRuns.TornStoreIsLeft | crates/onemessagebus/src/carry.rs:276-282 | a store ending in a torn record is left as it is by every step: the send is not answered, the drain is refused, no inbox takes anything |
| CarryRuns.TornForGood | crates/onemessagebus/src/carry.rs:276-282 | and so in every run from there on: the store stays, no later send is answered and no later drain succeeds |

## Left out

- Real transports and the spool: a queue's transport is its log, document and section; a spooled message's gate is an oracle answering taken, withdrawn or undecided.
- Projections.ClaimsAreTheFold: an older writer's unstamped projection is modelled (`FoldAbove`) and read, but takes its claims at their word, so no equality with the whole log's fold is claimed for one.
- PlainQueues.PlainQueue.Push: a transport that fails an append, or the write of a consumer's cursor, is left out, and so are schemas and validators.
- QueueHistory.OperationKeepsOwn: logs edited by writers outside the bus are not own-writer logs; records pushed are taken as passing their schema and validators.
- QueueLines.FrameRoundTrip: JSON text itself is not modelled, nor numbers other than integers; fields are ordered key-value pairs, and an asker's blank name counts as a name.
- Projections.DamagedClaimsAreSeen: the seal's hexadecimal rendering in the document is not modelled; the written claims are an abstract byte encoding.
- ReplyRace.OneReplyAnswers: routing, stamping and the reply record itself are left out. A release whose call fails once its answer is recorded is a step that records it and leaves its call unfinished, for its caller is told a failure.
- BoundReplies.EveryRunIsSound: which correlation a record carries is a function of the record, a refused binding is told without its text, and how `reply` and `reply_at` meet is through the steps each leaves open to any other writer.
- InboxRuns.EveryRunIsSound: condition-variable wake-ups, liveness and poisoned locks are left out, and a gate's own lock is an oracle.
- PluginProtocol.PipedIsDirect: the hello, JSON encoding, the wait loop cut into bounded waits, record and document texts that are not UTF-8, and failures of the pipe itself are left out.
- PluginPipe.LinesAreWholeSections: one holder's body is one sequential thread; several threads using one section's handle at once are not modelled.
- Templates.PrintedReadsBack: text is a sequence of characters; the scan's byte indexes agree with it because braces are single bytes. Object keys are the first with a name.
- Codecs.AcceptedConfigAnswers: the frame's schema check is left out, what the queue makes of the record it is sent is any function of that record, and which of several refusals `validate_codec` names is not told.
- Codecs.ResolvesWhatIsValid: one direction only, because a response that lapses early is never looked at past that point.
- Streams.SharedFile.Emit: redaction, filtering, stamping and the single-sink emitter are left out; an envelope's line is an abstract encoding without a newline.
- StreamReads.ResumingReadsOnce: the merge of several streams is left out.
- CarryRuns.TakenOnceInOrder: stamps, the schema version in the header, listing a store without draining it, and the staging of a new store are left out; a process dying between emptying the store and queueing is the death of its inbox too.
- The command line, SDKs, links, layout, authoring, bounds, redaction and configuration modules: they would only add easy members.
