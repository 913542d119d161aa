# A verified model of the protocol packages

This project models the parts of the repository that are decided by code alone, and proves what they promise.

- **Line diff** (`Subsequences`, `Lines`, `LineDiff`, `FileDiff`). The divide-and-conquer search over an in-place score row, the row emitter, and the proof that the script it emits is minimal.
- **Authority event outbox** (`Outbox`, `OutboxOperations`, `OutboxHistory`, `OutboxSequence`, `TurnRecovery`, `RecoveryOutcomes`). The delivery journal as a fold, the operations on its projection, compaction, exactly which journals and lifecycles are accepted, sequence floors and allocation over whole runs, and the recovery of missing commits.
- **Runtime parameter store** (`ParamDocument`, `ParamLock`, `ParamOutcomes`). Saves of a revisioned, audited document, and the lock-file protocol around them as a machine of atomic system calls of any number of writers, any of which may crash; how a writer ends is explained by what it saved.
- **Activity timelines** (`ActivityTimeline`, `ActivityRuns`, `ActivityFacts`, `ActivityMerge`). The reducer over transient deltas and durable facts, whole runs of it, and the merge of timelines.
- **Connector runtime** (`ConnectorLock`, `ConnectorBooks`, `ConnectorSteps`, `ConnectorRuns`, `ConnectorRuntime`). The promise chain that serialises a key's operations, those operations cut at every await with every external call free to fail, whole runs in which the operations of all keys interleave, and the class, each of whose operations is shown to be a path of those steps.
- **Merges and commits** (`Sorting`, `TurnMerge`, `ReplayBatch`, `PluginArtifact`, `ArtifactRuns`). The merge of lifecycle events, contiguous replay tails, and optimistic artifact commits.
- **Text protocols** (`Text`, `Decimal`, `MemoryDocument`, `LongMemory`, `LongMemoryReading`, `LongMemoryRoundTrip`, `LongMemoryPatch`, `LongMemoryApply`, `LongMemoryLists`, `LongMemoryCommands`, `LongMemoryLines`, `PatchText`, `PatchNumbers`, `EventStream`, `EventWriting`). Parsers and printers that undo each other, the batch patch with snapshot indices, and the chunk-fed event-stream parser.

`dafny verify dfyconfig.toml` checks everything.

## How the code is read

- A throw is a `Rejected` result (`Outcome.Result`); error wording is not modelled. Where a caller sees a class of errors (a busy lock, an Error or some other thrown value) the class is kept.
- Timestamps are integers, with a blank value and one for text that does not parse (`Outbox.Stamp`); "sorts before" is integer order. UUIDs are fresh tokens. Comparisons of `JSON.stringify` or `stableValue` output are structural equality.
- Integers are unbounded where the code's cannot overflow. The `Uint32Array` of the diff cannot wrap, since a score is at most the number of lines of either side (`Subsequences.LcsAtMostLength`). `Number.isSafeInteger` checks are written out.
- Text is a sequence of Unicode scalar values, which is what `assertFileText` accepts; regular expressions are written as the runs of characters they match, with `\s`, `trim` and `.` over the sets ECMAScript gives them.
- Validation done by modules that are not part of this model is a flag of the value it is about: `wellFormed` of an outbox envelope, `integral` of a lifecycle record, `lifecycle` of an envelope, `sound` of an artifact event.
- A loop that updates an array or a Map in place is a method proved against a function; the lemmas are about the function. The Maps whose insertion order is observed are lists with an index.

## Where the code does less, or other, than it seems to

- **A final newline is invisible to the diff.** `linesOf` drops it: two texts have no changed line exactly if they agree once a missing final newline is added to each non-empty one (`FileDiff.CreateFileDiff`, `FileDiff.SameLinesIff`). The empty text and a lone newline differ by one empty line.
- **Sequence keys can collide.** The key joins domain and scope with a NUL; `OutboxSequence.KeysCollideIff` says exactly when two scopes share one, and `OutboxSequence.CollidingScopesSkip` gives, for every such pair, a run that skips a sequence. Domains without a NUL are safe (`OutboxSequence.PlainDomainsDoNotCollide`).
- **Deleting a turn can give a sequence out twice.** The REMOVE records it appends do not raise the checkpoint, so the next allocation is new exactly if the last envelope of the scope is still held, kept by the session, or at its floor (`OutboxSequence.AllocationIsFreshIff`). `OutboxSequence.RunsAreDenseIff` is the exact condition on a run, `OutboxSequence.RemovalKeepsCoveredIff` on one removal, and `OutboxSequence.RemovalCanReuse` a run, for every scope, that repeats a number.
- **Recovery need not be repeatable.** When one receipt of an event is restored and another was skipped at or below the floor of its own scope, the next recovery rejects what the first one wrote (`TurnRecovery.RecoveryIsIdempotentIff` is exact, `TurnRecovery.RecoveryCanConflict` a case of it).
- **A compaction can revive a removed event.** The rewritten journal has no REMOVE records; recovery stays quiet only if each receipt whose REMOVE was forgotten lies at or below its floor (`TurnRecovery.CompactEvents`, `TurnRecovery.CompactionKeepsRecoveryQuietIff`, and `TurnRecovery.CompactionCanRevive` for two scopes of different keys).
- **Reclaiming can break mutual exclusion.** The age of a lock is read by path, after its record, so it may be the age of another file; and the rename takes whatever lies there. `ParamLock.SafeRuns` holds as long as no reclaimer moves aside the lock of a writer that is inside; `ParamLock.ClaimOfInsiderBreaks` shows that one such move lets a second writer in, and `ParamLock.ReclaimingCanBreakExclusion` exhibits a run from any start.
- **A release can erase another writer's lock.** It reads the lock file back and then unlinks by path. `ParamLock.ReleaseErasesForeignIff` says exactly when the file is another's, which takes an earlier claim on an insider; `ParamLock.ReleaseCanEraseForeign` gives, for every accepted save, a run in which it is the lock of a writer inside, and no error is raised.
- **A durable event that reuses an event id under another activity's name** leaves two facts for one activity; `ActivityTimeline.ReduceKeepsActivitiesIff` is the exact condition, `ActivityTimeline.RenamesHappen` a run of three such events. Deltas without an activity id never converge and are excluded by `ActivityRuns.DeltasFirst`.
- **A connect that ends in something other than an Error** leaves its key CONNECTING (`connectFailureMessage` throws on it), and a record that fails to project after the connection is listed gets the listed handle disposed. `ConnectorSteps.LeavesConnecting` and `ConnectorSteps.DisposesListed` are the exact conditions on the calls of one connect, `ConnectorSteps.ConnectLeaves` ties final status, handle, flags and answer to them, and `ConnectorRuns.IdleKeyInOrder` is what every run keeps for a key none of whose connects meets one.
- **An artifact event whose operation is padded with whitespace** passes validation, which trims it, and then makes the projection throw, which does not (`PluginArtifact.ProjectPluginArtifacts`).

## Model

| member | source | states |
|---|---|---|
| Subsequences.LcsBounds | file-mutation-protocol/src/diff.js:13-31 | no common subsequence, at any offsets, is longer than the LCS table says |
| Subsequences.LcsWitness | file-mutation-protocol/src/diff.js:13-31 | and one of that length exists |
| Subsequences.LongestIffLcs | file-mutation-protocol/README.md:19 | a matching is longest exactly when its size is the table's value |
| Subsequences.LcsAtMostLength | file-mutation-protocol/src/diff.js:25 | a score never exceeds the number of lines of either side, so 32 bits do not wrap |
| Subsequences.LcsReverse | file-mutation-protocol/src/diff.js:17-35 | the backward table equals the forward one: the LCS of two reversed lists is the LCS of the lists |
| Subsequences.LcsSuperadditive | file-mutation-protocol/src/diff.js:60-74 | cutting both lists never finds more than the whole |
| Subsequences.LcsSplitExists | file-mutation-protocol/src/diff.js:33-46 | some column of the cut loses nothing |
| Subsequences.LcsSharedPrefix | file-mutation-protocol/src/diff.js:78-85 | a shared prefix is part of some longest matching, so stripping it keeps optimality |
| Subsequences.LcsSharedSuffix | file-mutation-protocol/src/diff.js:86-101 | likewise a shared suffix |
| Subsequences.LcsDisjoint | file-mutation-protocol/src/diff.js:55-56 | lists without a shared line have no match to find |
| Subsequences.LcsSingle | file-mutation-protocol/src/diff.js:50-54 | one line matches at most once, and does if it occurs |
| LineDiff.UpdateScores | file-mutation-protocol/src/diff.js:13-22 | the row overwritten in place goes from the LCS values of the rows so far to those with one more row |
| LineDiff.LcsScores | file-mutation-protocol/src/diff.js:24-31 | entry c is the LCS with the first (forward) or last (backward) c new lines |
| LineDiff.SplitColumn | file-mutation-protocol/src/diff.js:33-46 | at the returned column the LCS of the two halves add up to the LCS of the whole, and at no column before it |
| LineDiff.SharesLine | file-mutation-protocol/src/diff.js:55-56 | the early exit is taken exactly when no line is shared |
| LineDiff.MatchMiddle | file-mutation-protocol/src/diff.js:48-75 | what is pushed is a matching of LCS size at the given offsets, after what was there |
| LineDiff.MatchHalves | file-mutation-protocol/src/diff.js:57-74 | the two recursive searches together solve the whole |
| LineDiff.MatchLines | file-mutation-protocol/src/diff.js:77-102 | matches strictly increasing in both lines, joining equal lines, of LCS size, with the lines shared at both ends matched to each other; the recursion ends |
| FileDiff.LinesSpellText | file-mutation-protocol/src/diff.js:7-11 | the lines, each with a newline after it, spell the text, with its final newline filled in unless it is empty |
| FileDiff.SameLinesIff | file-mutation-protocol/src/diff.js:7-11 | two texts have the same lines iff they agree once a missing final newline is added to each non-empty one |
| FileDiff.ScriptBound | file-mutation-protocol/src/diff.js:104-148 | no line script between two lists has fewer changed rows than their lengths less twice the LCS |
| FileDiff.EmitRows | file-mutation-protocol/src/diff.js:110-138 | the rows spell both sides with consecutive numbers, keep exactly the matched lines, and between two matches remove before they add |
| FileDiff.CreateFileDiff | file-mutation-protocol/src/diff.js:104-148 | removed and context rows spell the old lines, added and context rows the new, numbered; no added row stands directly before a removed one; shared lines at both ends are kept; counts equal the rows; no script changes fewer lines; no change iff the texts have the same lines |
| Outbox.NormalizeAccepts | event-protocol/src/authority-event-outbox.js:31-51 | normalising accepts exactly the lists of valid entries with distinct ids, entry by entry |
| Outbox.NormalizeFixes | event-protocol/src/authority-event-outbox.js:31-51 | a normal outbox is left as it is |
| Outbox.ProjectIsNormal | event-protocol/src/authority-event-outbox.js:157-164 | every projection is normal, so the closing normalisation of a projection changes nothing |
| Outbox.ApplyRecord | event-protocol/src/authority-event-outbox.js:166-227 | one record changes the Map as the specification says, or is refused and leaves it alone |
| Outbox.ProjectJournal | event-protocol/src/authority-event-outbox.js:157-164 | the loop computes the fold, rejecting exactly when some record is refused |
| OutboxOperations.AttemptRefinesJournal | event-protocol/src/authority-event-outbox.js:229-245 | recording an attempt on a projection is projecting the journal with an ATTEMPT appended; for an event it lacks it answers so, if the texts and the time are valid |
| OutboxOperations.AckRefinesJournal | event-protocol/src/authority-event-outbox.js:247-282 | acknowledging is projecting with an ACK appended: same acceptance, same entries, and `changed` tells whether anything did; for an event it lacks it answers so, if the texts, the time and the number are valid |
| OutboxOperations.AcknowledgeSettles | event-protocol/src/authority-event-outbox.js:247-282 | an acknowledgement touches the entry of its event only, and only if not yet delivered |
| OutboxOperations.CompactRefinesJournal | event-protocol/src/authority-event-outbox.js:289-303 | compacting is appending a REMOVE for every event dropped |
| OutboxOperations.CompactDropsOnlyDelivered | event-protocol/src/authority-event-outbox.js:284-303 | an event goes exactly when it has consumers and each was delivered before the cutoff |
| OutboxHistory.ReplayTellsLives | event-protocol/src/authority-event-outbox.js:166-227 | an entry of any projection is what its event's records since its commit say: first acknowledgement wins, attempts counted up to it |
| OutboxHistory.AcceptedIff | event-protocol/src/authority-event-outbox.js:166-227 | after any accepted journal a valid record is accepted iff its event's records admit it: an ACK with the committed coordinates, given before or not; an ATTEMPT of a committed event unless it is not delivered and its count is full; a COMMIT that is new or repeats the first |
| OutboxHistory.ProjectsIff | event-protocol/src/authority-event-outbox.js:157-227 | a journal projects iff each of its records is valid and so admitted by those before it |
| OutboxHistory.AcknowledgedAgain | event-protocol/src/authority-event-outbox.js:208-226 | an acknowledgement that comes again is accepted and leaves the projection as it is |
| OutboxHistory.DeliveredIsFinal | event-protocol/src/authority-event-outbox.js:166-227 | once delivered to a consumer, only a REMOVE of the event changes that |
| OutboxHistory.ProjectionIsRecorded | event-protocol/src/authority-event-outbox.js:208-226 | delivered coordinates equal the envelope's ordering, and no entry is recorded for nothing |
| OutboxHistory.RecordsFromOutbox | agent/src/session/authority-outbox-store/outbox-journal.js:191-220 | the records written from an outbox project back to it, for every outbox a journal can make, and none of them removes an event |
| OutboxSequence.AllocateSequence | event-protocol/src/authority-event-outbox.js:362-376 | the loop finds one more than the floor and every sequence of the scope |
| OutboxSequence.AdvanceCheckpoint | event-protocol/src/authority-event-outbox.js:378-389 | the loop raises each key's floor to the highest sequence covered, or rejects |
| OutboxSequence.HighestIs | event-protocol/src/authority-event-outbox.js:369-375 | the maximum bounds every sequence of the scope and is one of them or the floor |
| OutboxSequence.AdvancedIff | event-protocol/src/authority-event-outbox.js:378-389 | the floors are advanced iff every covered scope has a key and every key then holds a text and a positive floor; each is the least number no lower than before that bounds the sequences covered under its key |
| OutboxSequence.KeysCollideIff | event-protocol/src/authority-event-outbox.js:307-314 | two scopes share a key iff a NUL moves from one's scope into the other's domain |
| OutboxSequence.PlainDomainsDoNotCollide | event-protocol/src/authority-event-outbox.js:307-314 | domains without a NUL keep all keys apart |
| OutboxSequence.AllocationIsFreshIff | agent/src/session/services/session-message-service/authority-event.js:102-115 | as long as sequences were given without a gap, a commit is given the next number of its scope iff the last envelope of the scope is held, kept by the session or at its floor; otherwise a number already given |
| OutboxSequence.RunsAreDenseIff | agent/src/session/services/session-message-service/authority-event.js:102-147 | along every run of commits, deliveries, removals and compactions with distinct keys, the n-th sequence of every scope is n iff each commit found its scope's last envelope so covered |
| OutboxSequence.RemovalKeepsCoveredIff | agent/src/session/authority-outbox-store/outbox-journal.js:178-189 | a deletion of turns keeps everything ever committed below its floor or below something held of its scope iff it takes no scope's last held event above its floor |
| OutboxSequence.SafeRunsAreDense | agent/src/session/services/session-message-service/authority-event.js:102-147 | so runs whose removals are safe in this sense, and runs without removals, number every scope without a gap |
| OutboxSequence.NeverReused | agent/src/session/services/session-message-service/authority-event.js:102-147 | and where sequences are dense none of a scope is given twice |
| OutboxSequence.RemovalCanReuse | agent/src/session/authority-outbox-store/outbox-journal.js:178-189 | for every scope some run gives a number twice: its only event is removed with its turn |
| OutboxSequence.CollidingScopesSkip | event-protocol/src/authority-event-outbox.js:307-314 | for every two scopes that share a key some run skips a sequence |
| OutboxSequence.CountBounds | event-protocol/src/authority-event-outbox.js:362-376 | the sequences of a scope run from one to the number of its events |
| TurnRecovery.ProjectCommittedTurnOutbox | event-protocol/src/turn-outbox-projection.js:16-50 | the loop computes the recovery, rejecting on the first receipt that conflicts |
| TurnRecovery.RecoveryRestores | event-protocol/src/turn-outbox-projection.js:26-50 | the old journal is a prefix of the new; afterwards every turn receipt is projected, was removed, or lies at or below its floor; nothing removed or below a floor is added |
| RecoveryOutcomes.RecoversIff | event-protocol/src/turn-outbox-projection.js:16-50 | a recovery is accepted iff the record is intact, the journal projects, each turn receipt agrees with the entry of its event or has a key and, if neither removed nor below its floor, can be committed, and lost receipts of one event agree; it appends exactly the lost ones, in order |
| RecoveryOutcomes.OthersDoNotMatter | event-protocol/src/turn-outbox-projection.js:27 | receipts of anything but turn events leave acceptance and result alone |
| TurnRecovery.NothingToRecoverIff | event-protocol/src/turn-outbox-projection.js:26-49 | a recovery adds nothing iff every receipt is accounted for |
| TurnRecovery.RecoveryIsIdempotentIff | event-protocol/src/turn-outbox-projection.js:26-50 | a second recovery adds nothing and is accepted iff no restored event has another turn receipt at or below that receipt's floor |
| TurnRecovery.RecoveryCanConflict | event-protocol/src/turn-outbox-projection.js:26-50 | such receipts exist: an accepted recovery whose repetition rejects |
| TurnRecovery.CompactionKeepsRecoveryQuietIff | event-protocol/src/turn-outbox-projection.js:39-45 | for any journal that projects to the kept entries and removes nothing, recovery still adds nothing iff every receipt whose REMOVE was forgotten lies at or below its floor |
| TurnRecovery.CompactEvents | agent/src/session/services/session-message-service/authority-event.js:272-296 | the compaction of a store: floors raised over the whole outbox, a journal that projects to the kept entries and has no REMOVE; for every lifecycle a quiet recovery stays quiet iff no event is forgotten above its floor |
| TurnRecovery.CompactionCanRevive | agent/src/session/services/session-message-service/authority-event.js:272-296 | for any two scopes of different keys some journal has a removed event that comes back after a compaction |
| ParamDocument.ValidateOverrides | shared/runtime-params.js:84-105 | the loops keep the allowed values other than the default, or reject an unknown, out-of-range or misordered one |
| ParamDocument.ValidatedIff | shared/runtime-params.js:84-105 | overrides are accepted iff an editable entry takes each of them and every ordered pair stays in order; then exactly those other than their default are kept |
| ParamDocument.DocumentIff | shared/runtime-params.js:107-170 | a document is read iff its history has one entry for each revision from one on, in order, each signed and dated, with changes of different editable entries, and its overrides are accepted |
| ParamDocument.SaveChains | shared/runtime-params-node.js:196-210 | one revision on, one audit entry more, and replaying the audit from the defaults still gives the effective values |
| ParamDocument.SaveTakesEffect | shared/runtime-params-node.js:184-222 | after an accepted save, written or not, every parameter has the value asked for or its default |
| ParamDocument.SaveIff | shared/runtime-params-node.js:184-222 | over a valid document a save is accepted iff its overrides are, it names an actor and the revision in place and, unless no value moves, the actor is no blank and there is a next revision; it writes iff some value moves |
| ParamDocument.SaveSigns | shared/runtime-params-node.js:196-210 | what is written has the next revision and one audit entry more, by the actor, of exactly the values that moved, old and new |
| ParamDocument.ValidatedTwice | shared/runtime-params.js:84-105 | validating validated overrides changes nothing |
| ParamLock.StepKeepsOwnership | shared/runtime-params-node.js:75-151 | every system call that does not claim an insider's lock leaves each insider owning the lock file |
| ParamLock.StepKeepsFresh | shared/runtime-params-node.js:189-221 | a document about to be committed was computed from the one in place |
| ParamLock.SafeRuns | shared/runtime-params-node.js:113-227 | in every run without a claim on an insider's lock at most one writer is inside, and committed documents form one audited chain |
| ParamLock.FreshRunsAreSafe | shared/runtime-params-node.js:113-227 | in particular in every run in which no lock is judged stale |
| ParamOutcomes.EndsAreExplained | shared/runtime-params-node.js:75-227 | in every run, with any reclaiming and crashing, where a writer stands and how it ended is explained by what its own system calls found: it fails with a rejected save only if the document in place at its load rejected it, and finishes only after an accepted one |
| ParamOutcomes.EndsAsSaved | shared/runtime-params-node.js:136-151 | a writer whose save the document in place rejects never ends as if it had saved, one whose save is accepted never with that rejection, and what a finished one was to write is committed |
| ParamOutcomes.FinishedHasSaved | shared/runtime-params-node.js:136-222 | a writer that is finished has a save accepted on some committed document, and what it was to write is committed, too |
| ParamOutcomes.LoadsOnce | shared/runtime-params-node.js:189-194 | a writer loads the document at most once |
| ParamOutcomes.TriesAgainOnly | shared/runtime-params-node.js:96-127 | a writer comes to publish again only once it has erased a stale lock, or found the one it judged gone |
| ParamLock.RecordsVanishOnlyThus | shared/runtime-params-node.js:85-133 | in every run a record disappears only by its writer's release, by another's release after some insider's lock was claimed, by a reclaimer that judged this very record stale, or with an error raised |
| ParamLock.ReleaseErasesForeignIff | shared/runtime-params-node.js:129-133 | in every run the unlink of a release erases another writer's record iff the lock path holds one that is not its own by then, and then some reclaimer moved an insider's lock aside before |
| ParamLock.ReleaseCanEraseForeign | shared/runtime-params-node.js:96-133 | from any start and for every save that is accepted, a run in which a writer's release erases the lock of a writer inside and raises no error |
| ParamLock.ClaimOfInsiderBreaks | shared/runtime-params-node.js:96-111 | once an insider's lock is moved aside the next writer to publish is a second one inside |
| ParamLock.ReclaimingCanBreakExclusion | shared/runtime-params-node.js:57-121 | from any start two writers can be inside at once |
| ActivityTimeline.FactList.InsertBySequence | event-protocol/src/activity-timeline.js:80-87 | the splice in place is the sorted insertion, after facts of equal sequence |
| ActivityTimeline.ReduceTimeline | event-protocol/src/activity-timeline.js:89-120 | the imperative reduction computes the specified one on a copy |
| ActivityTimeline.ReduceKeepsOrder | event-protocol/src/activity-timeline.js:80-120 | sorting by sequence and unique event ids survive every reduction |
| ActivityTimeline.ReduceKeepsActivitiesIff | event-protocol/src/activity-timeline.js:89-110 | one fact per activity survives iff the event does not rename the fact it replaces to another's activity |
| ActivityTimeline.RenamesHappen | event-protocol/src/activity-timeline.js:89-120 | after any two durable events in order, a third with the first one's id and the second one's activity leaves two facts of that activity |
| ActivityRuns.FoldOrderly | event-protocol/src/activity-timeline.js:112-120 | in every run in which an event id fixes its activity the list is sorted, with one fact per event and per activity |
| ActivityRuns.DeltasConcatenate | event-protocol/src/activity-timeline.js:95-110 | until its first durable event an activity shows the concatenation of its deltas |
| ActivityFacts.UnsettledFact | event-protocol/src/activity-timeline.js:45-110 | over whole runs the fact of an unsettled activity has the event id, type and details of its last delta and the place of its first one |
| ActivityFacts.SettledFacts | event-protocol/src/activity-timeline.js:57-110 | over whole runs the settled facts are exactly those of the current durable events, the last of their activity and event id: each with the event id, type, text, sequence and details of its event |
| ActivityRuns.SettledPartIsDurable | event-protocol/src/activity-timeline.js:89-120 | at any time the settled part of the list is the fold of the durable events alone |
| ActivityRuns.DeltasLeaveNoTrace | event-protocol/src/activity-timeline.js:89-120 | once every activity with deltas has a durable event the whole list is that fold, whatever was redelivered |
| ActivityMerge.MergeTimelines | event-protocol/src/activity-timeline.js:143-158 | the loop over a Map computes the specified merge, rejecting iff some fact is not canonical |
| ActivityMerge.MergeSelectsLatest | event-protocol/src/activity-timeline.js:143-158 | per activity the last fact of the highest sequence, the later one at equal sequences, and these sorted |
| ActivityMerge.MergeFixesTimelines | event-protocol/src/activity-timeline.js:143-158 | a canonical timeline merged with nothing is itself |
| ConnectorLock.RunsAreSerial | connector-runtime/src/connector-runtime.js:86-95 | in every run operations on one key run one at a time in the order requested |
| ConnectorLock.OneAtATime | connector-runtime/src/connector-runtime.js:86-95 | at most one operation of a key is running |
| ConnectorLock.FirstWaitingMayBegin | connector-runtime/src/connector-runtime.js:86-95 | a key with nothing running lets its first waiting operation begin, whatever the earlier ones did |
| ConnectorSteps.ActOk | connector-runtime/src/connector-runtime.js:97-324 | whatever its calls do, the code of any operation from one await to the next keeps the Maps and the account of all handles in order, leaves the operation where it should be with its promises kept once it settles, and touches no other key |
| ConnectorSteps.FitsAcross | connector-runtime/src/connector-runtime.js:86-324 | an operation stays where it stands while nothing about its key changes |
| ConnectorRuns.RunsKeepInv | connector-runtime/src/connector-runtime.js:86-324 | in every run of requests for any keys, interleaved at every await: operations of a key are serial and in order, a key is locked exactly while one runs, every created handle is accounted for |
| ConnectorRuns.SettlesAsPromised | connector-runtime/src/connector-runtime.js:97-324 | in every run an operation that ends has done to its key what it promises, and gives the promised answer, relative to the state it began in |
| ConnectorSteps.EndsAsItsCalls | connector-runtime/src/connector-runtime.js:97-324 | the promised answer is the outcome of the first of its calls that throws, an Error or another value, and success only if none does; a connect under way answers with the record, unless something other than an Error is left over |
| ConnectorRuns.AwaitsUndisturbed | connector-runtime/src/connector-runtime.js:86-112 | in every run, while an operation awaits, everything else leaves its key and the handles made for it alone |
| ConnectorRuns.IdleKeyBalanced | connector-runtime/src/connector-runtime.js:97-269 | in every run, a key with nothing running: listed means it has a status, CONNECTED means it is listed, CONNECTING iff left so, each handle made for it is listed or disposed |
| ConnectorRuns.FlagsHaveCauses | connector-runtime/src/connector-runtime.js:44-47 | a key is left CONNECTING, or its listed handle disposed, only if one of its own connects ends in that way |
| ConnectorRuns.IdleKeyInOrder | connector-runtime/src/connector-runtime.js:97-269 | in every run, if the failing connects of a key fail with an Error and its connected records project, then whenever nothing of the key runs a listed key has a status, it is not CONNECTING, and each handle made for it is the listed one, never disposed, or was disposed exactly once; other keys may do anything |
| ConnectorRuns.StretchesEnd | connector-runtime/src/connector-runtime.js:86-324 | a stretch of a run in which nothing arrives has a bounded number of events |
| ConnectorRuns.NeverBlocked | connector-runtime/src/connector-runtime.js:86-95 | and while a request is unserved something can happen, so every request is served once its calls end |
| ConnectorRuntime.Runtime.DisconnectActive | connector-runtime/src/connector-runtime.js:97-112 | whatever the dispose call does, both entries go and the handle was disposed exactly once more |
| ConnectorRuntime.Runtime.Connect | connector-runtime/src/connector-runtime.js:214-264 | a path of the steps above; final status, handle, flags and answer are those its calls determine, whatever other keys did meanwhile |
| ConnectorRuntime.Runtime.TryStart | connector-runtime/src/connector-runtime.js:222-246 | how the try block ends, what it has done to the Maps since the last await, and where the new handle is |
| ConnectorRuntime.Runtime.Recover | connector-runtime/src/connector-runtime.js:247-261 | the catch block disposes the handle if it is still set and turns the failure into a status unless it is no Error |
| ConnectorRuntime.Runtime.Disconnect | connector-runtime/src/connector-runtime.js:266-269 | a path of the steps; the key is gone, its handle disposed, and the answer says whether there was one |
| ConnectorRuntime.Runtime.Replace | connector-runtime/src/connector-runtime.js:160-195 | a path of the steps; updating or deleting disconnects first and asks the repository only if that did not fail |
| ConnectorRuntime.Runtime.Health | connector-runtime/src/connector-runtime.js:271-298 | a path of the steps; the status of a connected key follows the check, a failed call changes nothing |
| ConnectorRuntime.Runtime.Access | connector-runtime/src/connector-runtime.js:300-324 | a path of the steps; refused without a connection or for an unknown operation, and never a change of state |
| TurnMerge.MergeTurnLifecycleEvents | event-protocol/src/turn-lifecycle-event.js:12-42 | accepted iff all events are of the session and any two sharing an id or a sequence are equal; then exactly these events, strictly by sequence |
| TurnMerge.OrderDoesNotMatter | event-protocol/src/turn-lifecycle-event.js:12-42 | the outcome depends on the set of events only |
| TurnMerge.MergeInStages | event-protocol/src/turn-lifecycle-event.js:12-42 | merging a merge with more events is merging all at once |
| ReplayBatch.ValidateReplayBatch | event-protocol/src/replay-batch.js:122-131 | exactly the codes of what is wrong with the header or, if nothing is, with snapshot, tail and interactions; none exactly for the valid batches |
| ReplayBatch.CollectEventTailErrors | event-protocol/src/replay-batch.js:81-96 | the codes are those of each event after the ones before it: the stream, an id met before with the same or another event, a gap after the last lifecycle event; none iff the tail is gap-free from the snapshot on with distinct ids |
| ReplayBatch.TailsMerge | event-protocol/src/replay-batch.js:81-96 | tails of two valid agreeing batches that overlap or touch merge to one valid tail right after the lower snapshot |
| ReplayBatch.GapShows | event-protocol/src/replay-batch.js:81-96 | across a gap they do not |
| PluginArtifact.ProjectPluginArtifacts | event-protocol/src/plugin-artifact-event.js:211-316 | each artifact is the fold of its own events in sequence; it throws iff some event has no key or is valid only with its operation trimmed |
| PluginArtifact.KeysTellArtifactsApart | event-protocol/src/plugin-artifact-event.js:194-200 | among valid names the joined key is one artifact's only |
| ArtifactRuns.CommitArtifact | agent/src/session/services/session-message-service/authority-event.js:43-136 | the commit decides against the projection of the log and validates what it appends |
| ArtifactRuns.AcceptedIff | event-protocol/src/plugin-artifact-event.js:211-232 | a sound request is accepted iff it creates what does not exist, or replaces on exactly the current revision |
| ArtifactRuns.CommitAnswers | event-protocol/src/plugin-artifact-event.js:211-232 | the answer to any request on an orderly log: which refusal with which current revision, a failure, or the artifact's next event with the request's content |
| ArtifactRuns.RunsAreOrderly | event-protocol/src/plugin-artifact-event.js:211-232 | in every run the events of an artifact are valid, in sequence, each based on the one before |
| ArtifactRuns.OneWinnerPerBase | event-protocol/src/plugin-artifact-event.js:211-232 | over any run at most one request per artifact and base revision is accepted |
| ArtifactRuns.LiveIsLast | event-protocol/src/plugin-artifact-event.js:278-316 | the live artifact is its last event's, and its revision counts the events accepted |
| ArtifactRuns.LiveShows | event-protocol/src/plugin-artifact-event.js:278-316 | an artifact is there iff the log has an event of it, and shows every field of the last one |
| ArtifactRuns.FoldsOn | event-protocol/src/plugin-artifact-event.js:278-296 | in a log of any shape an event is applied, and shown field by field, iff it creates an artifact that is absent or replaces it on its current revision; any other leaves the artifact as it is |
| ArtifactRuns.OrderDoesNotMatter | event-protocol/src/plugin-artifact-event.js:298-316 | with sequences distinct within each artifact, any order of a log projects alike |
| ArtifactRuns.AnyOrderRebuilds | event-protocol/src/plugin-artifact-event.js:298-316 | any order of an accepted log rebuilds the live state |
| MemoryDocument.BodyComesBackIff | memory-protocol/src/document.js:66-83 | under any header a rendered body is read back, trimmed, iff it has no CR within |
| MemoryDocument.AppendedComesBack | memory-protocol/src/document.js:85-90 | an appended block is read back after the old body, a blank line between |
| LongMemory.ParseLongMemoryDocumentState | memory-protocol/src/long-memory.js:189-242 | the loop computes the specified parse, rejecting on the first bad line |
| LongMemoryReading.ReadFieldIff | memory-protocol/src/long-memory.js:179-207 | a field line is a valid key, the colon and the rest of the line, whose trimmed text is the value |
| LongMemoryReading.ReadItemIff | memory-protocol/src/long-memory.js:33 | an item line is digits, a dot, whitespace and a text |
| LongMemoryReading.ParsesIff | memory-protocol/src/long-memory.js:189-233 | a body is accepted iff its lines fall into one block per entry: items numbered in order, a text or items but not both, no key twice |
| LongMemoryReading.DistributeIs | memory-protocol/src/long-memory.js:219-242 | each entry goes to the field of its key, a text as the one item of a list field, a list into a single field as its items joined; the others stay, in order |
| LongMemoryReading.JoinedItemsComeBack | memory-protocol/src/long-memory.js:219-222 | a list read into a single field loses no item: cut at the separator, the text gives them back, if none holds it |
| LongMemoryRoundTrip.ParseUndoesRender | memory-protocol/src/long-memory.js:224-271 | at the level of text: every well-formed state is parsed back from what is printed, values and orphans |
| LongMemoryRoundTrip.SurvivesIff | memory-protocol/src/long-memory.js:224-271 | the well-formed states are exactly those that survive storing and loading |
| LongMemoryRoundTrip.ParsedIsWellFormed | memory-protocol/src/long-memory.js:200-242 | whatever parses is well-formed |
| LongMemoryRoundTrip.ParseRenderParse | memory-protocol/src/long-memory.js:224-271 | parsing, printing and parsing is parsing |
| LongMemoryPatch.UpdateItems | memory-protocol/src/long-memory.js:370-380 | the loop rejects iff an index is out of range or named twice, and otherwise updates exactly the named items |
| LongMemoryPatch.ApplyListCommands | memory-protocol/src/long-memory.js:370-394 | kept and updated items, then additions; rejected on a duplicate or too many items unless fewer than before |
| LongMemoryLists.ListBecomes | memory-protocol/src/long-memory.js:370-394 | for any commands: rejected unless they name different items of the list; else the list of surviving, updated and added items by position, accepted iff it has no duplicate and is within its bound or shorter than before |
| LongMemoryApply.ApplySingleCommands | memory-protocol/src/long-memory.js:360-368 | for any commands: accepted iff every key is changed at most once and cleared only if set |
| LongMemoryApply.ApplyLongMemoryPatch | memory-protocol/src/long-memory.js:396-407 | for any commands of the model's fields, of whatever kind and value: accepted iff every field accepts its part; each field becomes what its part makes of it, nothing else changes |
| LongMemoryLists.PatchAcceptedIff | memory-protocol/src/long-memory.js:360-407 | a patch is accepted iff every single field is changed at most once and cleared only if set, and every list's commands name different items of it and leave no duplicate and no more items than allowed, unless fewer than before |
| LongMemoryLists.PatchedList | memory-protocol/src/long-memory.js:370-394 | a patched list holds the items not deleted, in order, each with the value its update gives it or as it was, and then the added values in order: one item less a deletion and one more an addition; an empty one is gone |
| LongMemoryLists.PatchedSingle | memory-protocol/src/long-memory.js:360-368 | a patched single field holds the value of its one command, or nothing once cleared |
| LongMemoryApply.OrderDoesNotMatter | memory-protocol/src/long-memory.js:370-407 | any reordering that keeps each field's additions in order has the same acceptance and result |
| LongMemoryApply.ListBounds | memory-protocol/src/long-memory.js:387-393 | a patched list has no duplicate and is within its bound or strictly shorter than before |
| LongMemoryApply.UntouchedStays | memory-protocol/src/long-memory.js:396-407 | a field without commands keeps its content |
| LongMemoryApply.PatchedSurvives | memory-protocol/src/long-memory.js:266-407 | what an accepted patch leaves is well-formed and survives storing and loading |
| LongMemoryCommands.GrammarIsRead | memory-protocol/src/long-memory.js:330-348 | every line of the patch grammar is read as the command it was written for |
| LongMemoryLines.LineIsReadIff | memory-protocol/src/long-memory.js:330-348 | a line is read as a command iff it is the action, whitespace, the key of a field of the command's kind, perhaps whitespace and an index, perhaps a colon and a text on one line, and spells that command |
| LongMemoryCommands.PatchComesBack | memory-protocol/src/long-memory.js:350-358 | a whole patch written by the grammar is read as its commands |
| LongMemoryLines.PatchIsReadIff | memory-protocol/src/long-memory.js:350-358 | a patch text is accepted, as these commands, iff its lines that are not blank spell them one by one, or `NOOP` is its only line and there are none |
| LongMemoryCommands.FencedPatchIsRead | memory-protocol/src/text.js:25-41 | a patch in a Markdown fence is read as the patch within |
| LongMemoryCommands.NoopStandsAlone | memory-protocol/src/long-memory.js:350-358 | a NOOP line is accepted, as no commands, iff it is the only line |
| LongMemoryCommands.BlankIsRefused | memory-protocol/src/long-memory.js:350-352 | a patch without any line is rejected |
| LongMemoryCommands.ReadPatchIsShaped | memory-protocol/src/long-memory.js:330-358 | every accepted patch text gives commands of their fields' kinds with clean values |
| PatchText.DecodePatchText | file-mutation-protocol/src/patch.js:22-42 | decoding any text gives a well-formed decoding that encodes to it: one terminator per line, only a last line may lack one |
| PatchText.DecodingIsUnique | file-mutation-protocol/src/patch.js:22-57 | and it is the only one, so decoding undoes encoding too |
| PatchText.EditsComeBack | file-mutation-protocol/src/patch.js:44-57 | an edited text reads back with the same lines, mark and final newline; each line has its own terminator, an inserted one that of the text's first line |
| PatchText.ClassifyLineEndings | file-mutation-protocol/src/patch.js:15-20 | mixed iff both kinds occur, else the one kind there is |
| PatchNumbers.ReadNumberIff | file-mutation-protocol/src/patch.js:11 | the pattern finds exactly the numbers written before a line, however padded |
| PatchNumbers.DisplaySplits | file-mutation-protocol/src/patch.js:93-95 | the display, cut into lines, shows each line under its own number |
| PatchNumbers.NumbersAlign | file-mutation-protocol/src/patch.js:93-95 | numbers below a million take six places, so their lines begin in one column |
| PatchNumbers.AdaptUndoesNumbering | file-mutation-protocol/src/patch.js:128-161 | a hunk adapts iff it is some plain hunk with its old lines numbered, and adapts to that one |
| PatchNumbers.AdaptPatchHunks | file-mutation-protocol/src/patch.js:123-163 | raw hunks pass; numbered ones are accepted iff every hunk is numbered, each noted with its start and length |
| PatchNumbers.NumberedHunkComesBack | file-mutation-protocol/src/patch.js:93-163 | old lines numbered from a start come back unchanged, anchored there |
| PatchNumbers.DisplayComesBack | file-mutation-protocol/src/patch.js:93-163 | what the display shows, quoted as context, is the file's own lines again |
| EventStream.Parser.DispatchLine | shared/event-stream.js:13-27 | a blank line tells the event, any other sets a field or is a comment |
| EventStream.Parser.Push | shared/event-stream.js:29-45 | what is told in all is the declarative reading of everything fed |
| EventStream.StreamEvents | shared/event-stream.js:48-55 | for every split into chunks the events are those of the whole text |
| EventStream.ParseEvents | shared/event-stream.js:57-59 | the events of a text read at once, as sections 9.2.5 and 9.2.6 of the WHATWG HTML Standard read `event` and `data` |
| EventStream.EndingsAreEquivalent | shared/event-stream.js:32-39 | CR, LF and CRLF are one and the same line ending |
| EventStream.MessagesAppend | shared/event-stream.js:13-18 | only a blank line tells anything: an unfinished event is withheld |
| EventWriting.FieldIsRead | shared/event-stream.js:20-24 | a line is a name up to its first colon and the value after it, less one space |
| EventWriting.FieldTells | shared/event-stream.js:20-27 | another `data` line adds its value, another `event` line replaces the type, any other field or comment does nothing |
| EventWriting.MessageIs | shared/event-stream.js:14-18 | lines tell a message iff one of them is `data`, of the last type named or else the usual one |
| EventWriting.MessagesComeBack | shared/event-stream.js:13-45 | whatever list of messages is written, with types on one line and data without CR, is what the parser tells |

## Left out

- ConnectorRuntime.Runtime.Await: an await has no code of its own; its contract is what operations of other keys may do meanwhile, and `ConnectorRuns.AwaitsUndisturbed` shows that in every run no more than that happens. Callers know no more than the contract.
- ConnectorRuntime.Runtime.Connect: a handle that is falsy (`create` returning null or 0) is not modelled, nor is `releaseUser`, which disconnects each key of a user.
- OutboxSequence.RunsAreDenseIff: the commits that recovery restores carry sequences of their own and are not among the events of these runs; `TurnRecovery` is about them.
- LongMemoryApply.ApplyLongMemoryPatch: an UPDATE or ADD built by hand without any value, which would store null, and a list command on a field the model lacks, which is a TypeError.
- ArtifactRuns.OneWinnerPerBase: the sequence given to a commit is any number above those of the artifact, which is what allocation under the session's lock yields; the allocation itself is `OutboxSequence.AllocateSequence`.
- PatchNumbers.AdaptPatchHunks: line numbers are exact; the rounding of numbers beyond 2^53 - 1, which matters only for a hunk that starts within its own length of that bound, is not modelled.
- LongMemory.ParseLongMemoryDocumentState: list numbers are exact; a number too large for a double is never the next number of a list.
- EventStream.StreamEvents: chunks are already decoded text; UTF-8 decoding and the byte-order mark it strips belong to `TextDecoder`.
- ParamDocument.ValidateOverrides: the catalogue is a parameter with the properties its construction gives it (distinct keys, defaults in range and in order), not its table of values.
- The text of long-memory models and prompts (`parseLongMemoryModelText`, `renderLongMemoryFieldsForPrompt`): one-line parsers beside the document's.
- `indexPatchOperations`, `indexPatchBaseVersions` and `validateUnifiedNewlineMarkers`: single loops whose outcome is read off their branches.
- The legacy migrations of the outbox, pending lists and the checkpoint's serialised form: filters and copies.
- Field-by-field validation of envelopes, messages and commands; registries, locales, threshold tables and error wording.
- JSON text, hashing, encryption, byte codecs, file descriptors and `fsync`; the order of object keys, which the code compares through `stableValue` or `JSON.stringify` of equal constructions.
- Several writers within one process sharing the lock code: each is a writer of its own.
