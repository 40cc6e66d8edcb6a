# mailezine, verified

A Dafny model of the concurrent and the codec parts of the mailezine mail engine, with proofs about all runs and all
inputs. State that the engine updates in place is a class or a state machine over explicit steps; pure logic is
functions. A run is a list of actions from the empty state, each possible in its turn, so a theorem about runs covers
every interleaving.

* Outbound queue (`queue_row`, `queue_store`, `queue_system`, `queue_runs`, `queue_verdicts`): any number of managers over one store, with
  crashes between transactions. That one node never runs two workers on one message is proved, not assumed.
* Mailbox versions (`mailbox`, `qresync`, `poll_gate`, `poll`, `byte_keys`, `sorting`): modification sequences,
  tombstones, resynchronisation (section 3.2.5 of RFC 7162), the version gate with its shared memo, and EXPUNGE numbering
  (section 7.4.1 of RFC 3501). A command's bump and its writes are separate steps.
* Sequence sets (`numset`, `numset_text`): in-place merging and bisection against a simple reference, texts, and what a
  set selects (section 9 of RFC 3501).
* Group commit (`group_commit`, `group_commit_runs`): leader and followers, with failing commits.
* Backup (`backup_format`, `backup`, `restore`, `backup_round_trip`), weighted LRU (`lru`, `lru_cache`, `lru_runs`, `lru_recency`),
  metadata cache (`cached_store`, `cached_lists`, `cached_races`), lease (`lease`), chunked fetch (`chunked_fetch`), IMAP strings (`imap_strings`),
  outbound filter (`outclean`, `outclean_laws`).

Time is an integer of nanoseconds; clock readings, random draws, scan results, digests and the manifest's text form are
parameters. Where a promised property fails, the model keeps the code's behaviour, a lemma gives a run or an input that
shows it, and another states the exact condition. These are the places where code and comments disagree:

* The delay-warning save is unfenced (internal/queue/delay.go:95-99): `QueueStore.WarnSaveExactIff`,
  `QueueRuns.StampCanLoseMessage`. The run theorems of the queue are about runs in which such a save finds its own row.
* A worker past its lease can hand over a resolved recipient again: `QueueRuns.RepeatIffLeaseOver`.
* Bump and write are two transactions, so a resynchronisation, a poll or a memo entry can miss the late write:
  `Mailbox.ResyncExact`, `PollGate.TrustExact`, `PollGate.SplitWriteFoolsGate`.
* The gate compares versions only, across a re-created mailbox: `PollGate.RecreationFoolsIff`.
* The log of a resynchronisation is read after its listing: `QResync.PayloadRestoresMailbox`,
  `QResync.RemovalBetweenHappens`.
* A refresh after a command of the session swallows what other sessions expunged, although
  internal/imap/session.go:441-445 says that must not happen: `Poll.VanishedToldOnce`, `Poll.RefreshSwallows`.
* EXISTS is written before the EXPUNGEs of the same round, and by withheld rounds: `Poll.CountRightIff`,
  `Poll.CountRightThroughout`.
* A failing commit can wedge an account, and its leader can report a failure that is not its own:
  `GroupCommitRuns.LeaveWedgesIff`, `GroupCommitRuns.LeaverAnswer`.
* A blob store whose sizes are not the lengths it hands out, as a compressing one's are not
  (internal/store/fsblob.go:160-172), cannot be backed up: `Backups.BackUp`. Although
  internal/backup/backup.go:103-105 promises it, what such a backup leaves behind is not always refused:
  `BackupRoundTrip.FailedBackupAcceptedIff`, `BackupRoundTrip.FailedBackupCanPass`,
  `BackupRoundTrip.SurplusCanBeSpelled`.
* A literal cut short by the end of input is accepted: `ImapStrings.CutReadsIff`.
* A memoised mailbox status keeps an old subscription: `CachedStore.KeptStatusRightIff`,
  `CachedStore.SubscribeLeavesStatusStale`. A list can be memoised after the write that outdated it:
  `CachedRaces.SettlesRightIff`, `CachedRaces.OvertakenFillIsStale`.
* Although internal/mailstore/cached.go:4-7 says that all lists handed out are copies, the caller of a miss gets the
  memo's own list of mailboxes: `CachedLists.NextCallerSees`.
* A repeated flag can hide a change of flags from a poll: `Poll.SameFlagsIff`, `Poll.RepeatsHideChange`.
* With negative weights a cache shard can outgrow its bound: `LruRuns.StaysWithinIff`.

`dafny verify dfyconfig.toml` checks the project.

## Model

| member | source | states |
|---|---|---|
| `QueueRow.Worker.ApplyResults` | internal/queue/queue.go:729-750 | a delivery round resolves exactly the pending recipients named in the verdicts: accepted become delivered, permanent failures bounced, temporary ones keep their error; resolved recipients are untouched |
| `QueueRow.SettledByVerdict` | internal/queue/queue.go:729-750 | index by index: a pending recipient with a verdict is delivered if and only if accepted, bounced with that error if and only if it failed for good, and left pending with that error if and only if it failed for now; nobody else changes |
| `QueueRow.Worker.ApplyTransportFailure` | internal/queue/queue.go:758-778 | a whole-round failure blames the pending recipients and defers, or bounces all of them once the attempts are spent |
| `QueueRow.TransportFailedBy` | internal/queue/queue.go:758-778 | index by index: the pending get the error, and wait for the given delay or bounce when the attempts are spent; nobody else changes |
| `QueueRow.Worker.FinalizeState` | internal/queue/queue.go:787-819 | the counting loop decides delivered, bounced or deferred by whether anybody is pending and anybody bounced, and bounces the pending when attempts are spent |
| `QueueRow.FinalizedBy` | internal/queue/queue.go:787-819 | somebody pending with attempts left defers the message to the given delay and changes nobody; spent attempts bounce exactly the pending; with nobody pending the message is delivered unless somebody bounced |
| `QueueRow.Worker.BouncePending` | internal/queue/queue.go:766-770 | every pending recipient, and no other, becomes bounced |
| `QueueRow.TransportFailedIsOutcome` | internal/queue/queue.go:758-778 | whichever way a transport failure goes, nobody resolved changes, deferred means somebody pending with attempts left, and bounced means somebody bounced |
| `QueueRow.ResolvedIsOutcome` | internal/queue/queue.go:729-819 | the same of a round with per-recipient verdicts; delivered means nobody bounced |
| `QueueRow.Backoff` | internal/queue/queue.go:910-921 | the doubling loop yields the base times a power of two capped at the maximum, and the jittered delay lies within a fifth of it either way |
| `QueueRow.DoubledNext` | internal/queue/queue.go:910-921 | the first delay is the base, and one more attempt doubles it as far as the cap lets it |
| `QueueRow.AddressesWithNames` | internal/queue/queue.go:890-908 | the address list of a status is the selection, in envelope order, of exactly the recipients with that status, and the only such list |
| `QueueStore.SharedQueue.NextId` | internal/queue/queue.go:546-564 | ids are handed out by a counter, each once |
| `QueueStore.SharedQueue.Save` | internal/queue/queue.go:591-612 | an unfenced write of a row with its index entry moved from where the writer believed it |
| `QueueStore.SharedQueue.Claim` | internal/queue/queue.go:620-679 | claim or steal in one transaction: succeeds exactly on a waiting row or one whose lease is over; then the stored row is this node's active claim with one more attempt, due at the end of its lease, the envelope unchanged; a finished row only loses stale index entries |
| `QueueStore.SharedQueue.CommitOutcome` | internal/queue/queue.go:831-887 | an outcome is written only while the row is still this node's active claim, with its index entry; otherwise nothing changes |
| `QueueStore.SharedQueue.Retry` | internal/queue/queue.go:464-503 | an idle unfinished row is requeued with its attempts reset to zero and a due entry at this second, the envelope unchanged; active and finished rows are refused unchanged |
| `QueueStore.SharedQueue.Cancel` | internal/queue/queue.go:510-540 | a row that is not active is removed with its index entries, and the body is reclaimed exactly when the row was unfinished |
| `QueueStore.SharedQueue.PruneOne` | internal/queue/queue.go:382-439 | exactly finished rows old enough are removed, with whatever index entries they left |
| `QueueStore.ScanDue` | internal/queue/queue.go:296-345 | the early-stopping scan of the ordered index picks exactly the entries that are due, for seconds that are not negative |
| `QueueStore.SaveNewKeepsExact` | internal/queue/queue.go:591-612 | saving a new row keeps the due index exact |
| `QueueStore.ClaimKeepsExact` | internal/queue/queue.go:620-679 | claiming and stealing keep the due index exact |
| `QueueStore.CommitKeepsExact` | internal/queue/queue.go:831-887 | committing an outcome over the claim that wrote the row keeps the due index exact |
| `QueueStore.RetryKeepsExact` | internal/queue/queue.go:464-503 | retrying keeps the due index exact |
| `QueueStore.CancelKeepsExact` | internal/queue/queue.go:510-540 | cancelling keeps the due index exact |
| `QueueStore.PruneKeepsExact` | internal/queue/queue.go:382-439 | pruning keeps the due index exact |
| `QueueStore.WarnSaveExactIff` | internal/queue/delay.go:83-103 | the unfenced delay-warning save keeps the index exact if and only if the stored row is still unfinished and due at the second the writer remembers |
| `QueueSystem.ScanStartsOneEach` | internal/queue/queue.go:296-345 | because the index is exact, one scheduling round starts at most one worker per message on its node |
| `QueueSystem.StepInv` | internal/queue/queue.go:240-908 | every action of any manager, worker, crash or clock keeps: exact index, sound rows, spooled bodies, claims that are the stored row while in lease, one finisher per message, one report per message, bounded deferrals |
| `QueueSystem.FreshRowPending` | internal/queue/queue.go:240-294 | a submitted message has one pending recipient per address, in order, no attempt used, and is due at once |
| `QueueRuns.ReachedInv` | internal/queue/queue.go:240-908 | all of that holds after every run of any number of managers in which no delay-warning save overwrote a row that had moved on |
| `QueueRuns.DueIndexIsExact` | internal/queue/queue.go:464-679 | in every reachable state the index is exactly one entry (due second, id) per unfinished row: no lost message, no ghost entry |
| `QueueRuns.ScanStartsDue` | internal/queue/queue.go:296-345 | in every reachable state a scheduling round starts a worker on exactly the unfinished messages whose lease, or whose waiting time, is over |
| `QueueRuns.RowsAreSound` | internal/queue/queue.go:758-887 | in every reachable state a row is finished if and only if no recipient is pending, and an unfinished row still has its body |
| `QueueRuns.InLeaseHoldsRow` | internal/queue/queue.go:620-679 | while a worker's lease lasts, its row is stored as active, under its node, with that lease |
| `QueueRuns.OneWorkerInLease` | internal/queue/queue.go:620-753 | fencing: no two workers on one message are in lease at once, on one node or several |
| `QueueRuns.CommitLandsOnOwnClaim` | internal/queue/queue.go:831-870 | an outcome replaces exactly the row its own claim wrote, or the store is untouched |
| `QueueRuns.InLeaseHandsOverPendingOnly` | internal/queue/queue.go:682-753 | in lease, what a worker hands over is the addresses of exactly the recipients the stored row has pending, in envelope order, and there are some |
| `QueueRuns.RepeatNeedsExpiredLease` | internal/queue/queue.go:682-753 | a recipient the stored row has resolved is handed over again only by a worker whose lease has run out and whose claim is lost |
| `QueueRuns.RepeatIffLeaseOver` | internal/queue/queue.go:620-753 | for every reached state, every worker holding the stored claim and every pending recipient: some continuation lets that worker hand the recipient over again by a given time, after another node settled it, if and only if its lease runs out by then |
| `QueueRuns.ExpiredWorkerCanRepeat` | internal/queue/queue.go:682-753 | one such run from the empty queue, with the recipient delivered |
| `QueueRuns.StepAdvances` | internal/queue/queue.go:464-908 | no step reopens a finished id, edits a finished row or moves a recipient other than out of pending |
| `QueueRuns.RowsOnlyAdvance` | internal/queue/queue.go:464-908 | over any stretch of a run a row's recipients only move out of pending, and a finished row never changes again |
| `QueueRuns.BounceReportedOnce` | internal/queue/queue.go:890-908 | the bounce handler is called at most once per message, with the addresses of exactly the recipients bounced in the row stored for it, in envelope order, be that row still there or pruned since |
| `QueueRuns.DeferralsAreBounded` | internal/queue/queue.go:758-819 | between retries at most one deferral fewer than the attempts allowed commits |
| `QueueRuns.StampCanLoseMessage` | internal/queue/delay.go:95-99 | a run in which the delay-warning save brings a cancelled message back with no index entry and no body |
| `QueueVerdicts.OutcomesWereSaid` | internal/queue/queue.go:729-870 | after every run, a recipient stored as delivered was accepted in some round of its message, and one stored as bounced failed for good in some round, unless the message was given up with its attempts spent |
| `Mailbox.AfterSound` | internal/mailstore/kv_mailbox.go:494-873 | after any history UIDs are not reused and no number runs ahead of the mailbox's sequence |
| `Mailbox.ResyncComplete` | internal/mailstore/kv_mailbox.go:606-710 | for every history and continuation, with commands split into a bump and later writes, a copy taken while no command can still touch its messages resynchronises to exactly the current mailbox |
| `Mailbox.LateStoreMissed` | internal/mailstore/kv_mailbox.go:507-517 | otherwise a flag write under an older number is missed |
| `Mailbox.LateRemoveMissed` | internal/mailstore/kv_mailbox.go:642-650 | otherwise a removal under an older number is missed, also when the removal still waits for the deleted flag |
| `Mailbox.ResyncExact` | internal/mailstore/kv_mailbox.go:494-815 | so a copy always resynchronises if and only if no command in flight can still touch one of its messages |
| `ByteKeys.OrderIsNumeric` | internal/store/key.go:276-280 | for equal widths big-endian byte order is numeric order |
| `ByteKeys.BetweenSamePrefix` | internal/store/store.go:182-184 | a key between two keys with a common prefix has that prefix |
| `ByteKeys.PrefixEndBounds` | internal/store/pebble.go:111-123 | a key from under a prefix on and before the prefix's end has that prefix, also where trailing 0xFF bytes carry |
| `QResync.TombInRange` | internal/store/key.go:195-206 | the scan visits exactly the tombstones numbered after the mark; the mark 2^64-1 wraps and the number 2^64-1 is cut off |
| `QResync.ReadExpunged` | internal/mailstore/kv_mailbox.go:678-710 | the log read returns, ascending, exactly the UIDs of the tombstones in range |
| `QResync.ScanAnswersSince` | internal/mailstore/kv_mailbox.go:678-710 | that is the set expunged after the mark for every mark below 2^64-1, and wrongly the whole log at 2^64-1 |
| `QResync.SelectPayload` | internal/imap/qresync.go:33-66 | an empty payload on another UIDVALIDITY; else the expunged UIDs and one update, under its sequence number and in that order, for exactly the messages changed after the mark |
| `QResync.PayloadRestoresMailbox` | internal/imap/qresync.go:33-66 | end to end, with the listing taken before the log is read: a client applying the payload holds exactly the listed mailbox if and only if no message that the listing shows unchanged since the mark was removed in between |
| `QResync.RemovalBetweenHappens` | internal/imap/qresync.go:34-48 | and every message of every copy can be lost that way |
| `PollGate.TrustExact` | internal/mailstore/kv_mailbox.go:507-566 | a listing filed under a version is right at that version after any commands whatsoever if and only if the version is past, or it is the listing now and no command that has bumped can still change it |
| `PollGate.MemoNotStale` | internal/imap/mailsnapshot.go:34-53 | as long as no listing is read in the middle of a command, a memo entry is right at its version from then on, though it may be newer |
| `PollGate.GateSound` | internal/imap/session.go:346-371 | in every interleaving of commands split into bump and writes, sessions, memo and evictions in which no listing is read at the current version while a command that has bumped can still change it, a skipped poll means the snapshot equals the live listing, while the mailbox is the one selected |
| `PollGate.GateSoundUnsplit` | internal/imap/session.go:346-371 | so with commands as single steps the gate is sound in every interleaving |
| `PollGate.SplitWriteFoolsGate` | internal/mailstore/kv_mailbox.go:507-517 | a run without any deletion in which a flag write lands after a poll read the bumped version and the old listing, and later polls skip the change |
| `PollGate.CaptureExact` | internal/imap/session.go:346-371 | a listing just read holds up against every continuation of commands if and only if its version is past or no command in flight can change it |
| `PollGate.SnapshotHoldsUpIff` | internal/imap/session.go:364-370 | the same condition for any snapshot in any state, of the live mailbox or of one deleted since |
| `PollGate.OwnSnapshotHoldsUp` | internal/imap/session.go:346-371 | in runs without a read in the middle of a command, the snapshot of a session on the live mailbox always meets it |
| `PollGate.RecreationFoolsIff` | internal/imap/session.go:364-370 | after a delete and re-creation, where the version restarts, some commands lead to a skipped listing that was never shown, unless the snapshot was the empty one at version zero, and then none do |
| `Poll.ExpungeNumbering` | internal/imap/session.go:416-434 | descending EXPUNGE numbers of exactly the vanished messages leave the client with the survivors in order |
| `Poll.DiffFlags` | internal/imap/session.go:386-413 | one flag report under the snapshot's number for each message on both sides whose flags differ, and no other |
| `Poll.SameFlagsIff` | internal/imap/session.go:510-530 | for flag lists without repeats the comparison holds if and only if both hold the same set of flags |
| `Poll.FlagsMeanChanges` | internal/imap/session.go:401-413 | so a message on both sides whose set of flags changed is reported with the new flags, and one whose set did not is not |
| `Poll.RepeatsHideChange` | internal/imap/session.go:521-530 | with a repeated flag the comparison can miss a change |
| `Poll.DiffRemoved` | internal/imap/session.go:416-434 | the numbers of exactly the vanished messages, highest first |
| `Poll.Session.Diff` | internal/imap/session.go:386-456 | one round: EXISTS when the listing grew, the flag reports, EXPUNGEs of exactly the vanished numbers or VANISHED when allowed, and the snapshot replaced unless a vanished message has to be withheld |
| `Poll.Session.Refresh` | internal/imap/session.go:487-508 | after a command of the session the listing replaces the snapshot outright |
| `Poll.ReportsBalance` | internal/imap/session.go:386-508 | over any polls and refreshes after own commands, a UID that leaves the snapshot is either told gone or swallowed by a refresh, and told otherwise only when a command reports what its refresh still lists or the snapshot never held |
| `Poll.VanishedToldOnce` | internal/imap/session.go:386-508 | over polls alone a vanished UID is told exactly once, by the time it has left the snapshot; with own commands in between if and only if no refresh adopted a listing without it that the command did not report, and otherwise never |
| `Poll.RefreshSwallows` | internal/imap/session.go:487-508 | a message expunged by another session before a refresh is adopted away, and the next poll does not tell it |
| `Poll.WithheldUntilAllowed` | internal/imap/session.go:416-456 | a vanished UID stays in the snapshot until a round that may expunge |
| `Poll.CountRightIff` | internal/imap/session.go:396-434 | the client's message count comes out right if and only if the round does not both add and remove |
| `Poll.CountRightThroughout` | internal/imap/session.go:396-508 | over any polls, withheld or not, and refreshes: the client's count is right each time the snapshot moves if and only if each such event fits what was announced before it |
| `NumSets.MergeIsUnion` | internal/imapnum/numset.go:37-66 | two ranges merge if and only if neither lies apart from the other, into exactly their union, 2^32-1 and "*" included |
| `NumSets.WellFormedShape` | internal/imapnum/numset.go:121-123 | in a well-formed list nothing merges, only the last range is open, and Dynamic says whether "*" is a member |
| `NumSets.InsertedWellFormed` | internal/imapnum/numset.go:173-209 | insertion keeps the list sorted, disjoint, unmergeable and any open range last |
| `NumSets.InsertedHas` | internal/imapnum/numset.go:173-209 | the members become exactly the old ones and the range's |
| `NumSets.NumSet.Insert` | internal/imapnum/numset.go:173-234 | the in-place insertion by bisection and merging equals walking the list and absorbing what merges |
| `NumSets.NumSet.AddRange` | internal/imapnum/numset.go:105-111 | adding a range with ends in either order keeps the set well formed and adds exactly its members |
| `NumSets.NumSet.Search` | internal/imapnum/numset.go:239-252 | bisection finds the first range that does not precede the number, and decides membership |
| `NumSets.NumSet.Lookup` | internal/imapnum/numset.go:130-135 | membership of a number, never of "*" |
| `NumSetText.ParseSet` | internal/imapnum/numset.go:296-306 | parsing succeeds exactly on texts all of whose pieces parse, and yields the set they insert up to |
| `NumSetText.SetText` | internal/imapnum/numset.go:149-170 | the text is the ranges' texts joined by commas |
| `NumSetText.RangeTextForm` | internal/imapnum/numset.go:149-170 | one number stands alone, a range has a colon, and a star the open end |
| `NumSetText.TextRoundTrip` | internal/imapnum/numset.go:149-306 | parsing the text of any non-empty well-formed set gives that set |
| `NumSetText.UidRangesText` | internal/imapserver/conn.go:718-746 | the compressed text of any list of non-zero UIDs parses to a set whose members are exactly those UIDs |
| `NumSetText.MatchesAsWritten` | internal/imap/fetch.go:365-408 | for every set text and message the program's test on the merged set agrees with the standard's reading of the pieces as written, "*" being the last message |
| `NumSetText.NumMatchesByKind` | internal/imap/fetch.go:379-408 | sequence sets are matched against sequence numbers and UID sets against UIDs, each with its own maximum |
| `GroupCommit.AccountBatch.Submit` | internal/mailstore/kv.go:201-223 | a request joins the queue behind a leader, or its caller becomes the leader |
| `GroupCommit.AccountBatch.Take` | internal/mailstore/kv.go:228-244 | the head of the queue up to the limit, in order, the rest left queued |
| `GroupCommit.AccountBatch.ResignIfEmpty` | internal/mailstore/kv.go:250-265 | leadership ends exactly when the queue is empty |
| `GroupCommit.StepInv` | internal/mailstore/kv.go:201-325 | every lock section, commit and channel send keeps: one leader, the arrival line, answers owed or given once, and each UID the store's own |
| `GroupCommit.AfterInv` | internal/mailstore/kv.go:201-325 | that holds after every interleaving of submitters, with failing commits |
| `GroupCommitRuns.OneLeader` | internal/mailstore/kv.go:201-223 | at most one leader at any time, and the flag is set while there is one |
| `GroupCommitRuns.OnePlace` | internal/mailstore/kv.go:201-325 | every request is queued, in the leader's batch or answered: exactly one of the three, and no done channel gets two answers |
| `GroupCommitRuns.ArrivalOrder` | internal/mailstore/kv.go:292-316 | requests commit in arrival order, within a batch and from batch to batch |
| `GroupCommitRuns.CommittedOnce` | internal/mailstore/kv.go:292-316 | no request is committed twice |
| `GroupCommitRuns.AnswerIsOwnUid` | internal/mailstore/kv.go:306-311 | a UID on a done channel is the one the store returned at that request's own, only index |
| `GroupCommitRuns.LeaderReturnsOwnUid` | internal/mailstore/kv.go:306-314 | a leader that returns a UID returns its own request's |
| `GroupCommitRuns.QueueIsLed` | internal/mailstore/kv.go:312-316 | while commits succeed a non-empty queue always has a leader |
| `GroupCommitRuns.NobodyLeftBehind` | internal/mailstore/kv.go:312-316 | while commits succeed, once nobody leads every request has been answered with a UID |
| `GroupCommitRuns.LeaveWedgesIff` | internal/mailstore/kv.go:317-325 | a leader leaving after a failed commit leaves the account wedged if and only if a request joined after its last drain |
| `GroupCommitRuns.FailureCanWedge` | internal/mailstore/kv.go:317-325 | a run in which that happens, against the comment that resigning keeps the account from being wedged |
| `GroupCommitRuns.WedgedForever` | internal/mailstore/kv.go:201-223 | and then no continuation ever answers the queued requests |
| `GroupCommitRuns.LeaverAnswer` | internal/mailstore/kv.go:317-325 | the error such a leader returns is its own request's answer if and only if none of its batches committed before |
| `GroupCommitRuns.FailingBatchIsOwn` | internal/mailstore/kv.go:296-305 | the failing batch holds the leader's own request exactly when none of its batches committed before |
| `GroupCommitRuns.LeaderCanReportLaterFailure` | internal/mailstore/kv.go:301-324 | a run in which a leader whose message was stored returns a later batch's error |
| `BackupFormat.ItemReads` | internal/backup/backup.go:424-480 | a record reads back, leaving exactly what follows it |
| `BackupFormat.EntryReadsIff` | internal/backup/backup.go:424-454 | a KV record reads back if and only if key and value are shorter than 2^32 |
| `BackupFormat.PayloadReads` | internal/backup/backup.go:270-351 | the records up to the end marker read back in order |
| `BackupFormat.CutPayload` | internal/backup/backup.go:270-351 | records cut anywhere before the end marker are recognised as cut |
| `BackupFormat.ManifestReads` | internal/backup/backup.go:482-509 | the manifest record reads back |
| `BackupFormat.ScanIsFramed` | internal/backup/backup.go:270-351 | what reads as records up to an end marker is exactly such records framed one after the other |
| `BackupFormat.FramedScans` | internal/backup/backup.go:270-351 | and framed records, those with a negative size included, read as what they are |
| `Backups.LinkedBlobIds` | internal/backup/backup.go:405-422 | exactly the blob ids of the link registry, each once, ascending |
| `Backups.TalliesOf` | internal/backup/backup.go:270-334 | the counts of records add up: entries in order, bodies one each, sizes as framed |
| `Backups.TallyOfOne` | internal/backup/backup.go:270-334 | and one record is one entry, or one body of its framed size |
| `Backups.PairBytesOf` | internal/backup/backup.go:118-160 | the manifest's byte count is that of the keys and values |
| `Backups.UpsertedElsewhere` | internal/backup/backup.go:276-290 | a restore changes no key it does not write |
| `Backups.UpsertedHolds` | internal/backup/backup.go:276-290 | a key holds what was last written to it |
| `Backups.StoredHolds` | internal/backup/backup.go:294-321 | a blob store that keeps its bodies holds the first that came, one that overwrites the last |
| `Backups.BackUp` | internal/backup/backup.go:106-217 | completes if and only if no linked blob has a stored size other than the length of its body; then the archive holds exactly the entries and the linked blobs present, and the manifest their counts and the digest of the payload |
| `Restores.Input.ReadKVEntry` | internal/backup/backup.go:440-454 | reads a KV record, every byte through the digest, or finds it cut |
| `Restores.Input.ReadBlobHeader` | internal/backup/backup.go:470-480 | reads a blob header through the digest, the size as a signed 64-bit number |
| `Restores.Target.Put` | internal/backup/backup.go:312-313 | a blob store may skip a body it has and read any part of it; either way the digest sees each byte once |
| `Restores.TakeBody` | internal/backup/backup.go:294-324 | a body is hashed to its end exactly once however much of it the blob store reads, and stored unless only checking |
| `Restores.TakeEntry` | internal/backup/backup.go:276-293 | an entry is queued and the queue written out in batches |
| `Restores.ReadRecords` | internal/backup/backup.go:270-351 | the record loop stops at the end marker or reports the stream cut or corrupt, with counts and writes exactly those of the records read |
| `Restores.Restore` | internal/backup/backup.go:222-352 | the verdict is the one the archive deserves, whatever the blob store reads; success means all entries and bodies are in, and a check alone writes nothing |
| `BackupRoundTrip.CutArchiveRefused` | internal/backup/backup.go:222-352 | every proper prefix of an archive is refused |
| `BackupRoundTrip.RestoredIff` | internal/backup/backup.go:222-352 | a stream is accepted with a manifest if and only if it may be written, is the magic, framed records, an end marker and a record spelling the manifest, and the manifest is complete, has the digest of the records and counts them right |
| `BackupRoundTrip.ArchiveVerdict` | internal/backup/backup.go:331-352 | which of the checks refuses an archive, in their order |
| `BackupRoundTrip.ReplacedRecordsRefused` | internal/backup/backup.go:336-338 | an archive with other records in place of its own is refused for its checksum unless they have the same digest |
| `BackupRoundTrip.RefusedEarly` | internal/backup/backup.go:222-262 | missing and wrong magic, a store that is not empty, and a manifest that does not parse |
| `BackupRoundTrip.GarbledRefused` | internal/backup/backup.go:348-349 | a byte that starts no record is refused by its name, behind any records |
| `BackupRoundTrip.BackupRestores` | internal/backup/backup.go:106-352 | a completed backup restored into an empty store gives back exactly the entries and exactly the linked blobs that were present, and the same manifest |
| `BackupRoundTrip.FailedBackupAcceptedIff` | internal/backup/backup.go:103-105 | a stream that ends within a blob is accepted if and only if the bytes past the announced size read as records, end marker and a manifest that fits everything read; one without such bytes is refused |
| `BackupRoundTrip.FailedBackupIsSuch` | internal/backup/backup.go:175-184 | and every failed backup leaves such a stream, whether its blob is missing, short or long |
| `BackupRoundTrip.FailedBackupCanPass` | internal/backup/backup.go:103-105 | a body longer than announced whose surplus spells an end marker and the one manifest that fits: the failed backup restores |
| `BackupRoundTrip.SurplusCanBeSpelled` | internal/backup/backup.go:103-105 | for every digest there are text forms of manifests with which that happens |
| `LruShards.TrimKeepsLongest` | internal/mailcache/lru.go:153-158 | eviction removes the shortest least-recently-used tail that brings the weight down to the maximum |
| `LruShards.StoredFits` | internal/mailcache/lru.go:134-159 | an entry that fits on its own survives its own arrival |
| `LruShards.StoredOversized` | internal/mailcache/lru.go:134-159 | an entry heavier than the shard empties it |
| `LruShards.Shard.Get` | internal/mailcache/lru.go:113-126 | a hit returns the entry's value and moves it to the front; a missing or expired one is a miss, and an expired one is dropped |
| `LruShards.HitMovesUp` | internal/mailcache/lru.go:113-131 | a hit is first in its shard from then on and the others keep their order |
| `LruShards.MissLeavesRest` | internal/mailcache/lru.go:113-131 | a miss changes nothing but that an entry past its time goes |
| `LruShards.Shard.Put` | internal/mailcache/lru.go:134-159 | the entry goes in front with its footprint charged, list and map stay in bijection, the weight is the sum of the entries and at most the maximum, for any weights |
| `LruShards.Shard.Evict` | internal/mailcache/lru.go:153-158 | the eviction loop ends, for any weights, with exactly the trimmed list |
| `LruShards.Shard.RemoveLocked` | internal/mailcache/lru.go:218-223 | an entry leaves list, map and weight together |
| `LruShards.Shard.Remove` | internal/mailcache/lru.go:179-185 | removing a key leaves the others in order |
| `LruCache.Cache.constructor` | internal/mailcache/lru.go:71-96 | shards are empty, and number and share of capacity follow from the maximum weight |
| `LruCache.Cache.Get` | internal/mailcache/lru.go:101-111 | a lookup touches exactly the key's shard |
| `LruCache.Cache.Put` | internal/mailcache/lru.go:130-132 | a store touches exactly the key's shard |
| `LruCache.Cache.PutNegative` | internal/mailcache/lru.go:163-172 | absence is remembered for its own time limit, or the regular one, and never without one |
| `LruCache.Cache.Weight` | internal/mailcache/lru.go:207-216 | the reported weight is the total of all entries |
| `LruRuns.HitIsLastPut` | internal/mailcache/lru.go:113-159 | after any operations a hit returns the last value stored under the key, not dropped since and not past its time |
| `LruRuns.PutThenHit` | internal/mailcache/lru.go:113-159 | a value that fits its shard is found right after it was stored, until its time is over |
| `LruRuns.TotalBounded` | internal/mailcache/lru.go:71-216 | for weights that are not negative with the footprint, the total never exceeds the capacity |
| `LruRuns.StaysWithinIff` | internal/mailcache/lru.go:113-223 | no sequence of lookups and removals takes a shard over its bound if and only if its non-negative weights alone fit |
| `LruRuns.NegativeWeightBreaksBound` | internal/mailcache/lru.go:134-223 | with a negative weight the bound can be broken by removing an entry |
| `LruRecency.ShardsByRecency` | internal/mailcache/lru.go:113-216 | after any operations, of two keys in a shard the one stored or hit later comes first |
| `LruRecency.EvictedIsOldest` | internal/mailcache/lru.go:134-216 | a store evicts what was used longest ago: every entry it leaves in the shard was used later |
| `Outclean.FilterTo` | internal/delivery/outclean.go:39-107 | the streaming loop with its put-back line writes exactly the filtered list of lines |
| `Outclean.DropFolded` | internal/delivery/outclean.go:70-89 | the inner loop skips exactly the folded lines and hands back the next one |
| `Outclean.OutcleanTo` | internal/delivery/outclean.go:39-107 | the same for the rules of outbound mail |
| `Outclean.LinesConcat` | internal/delivery/outclean.go:51-51 | lines put together are cut apart again the same way |
| `OutcleanLaws.CleanKeeps` | internal/delivery/outclean.go:39-125 | everything from the first blank line on is unchanged; of the header lines exactly those stay, in order, that are neither unwanted fields nor fold a line that goes |
| `OutcleanLaws.DroppedIff` | internal/delivery/outclean.go:69-125 | the header lines that go are those of the six named fields, blanks and case aside, with their continuation lines, and no others |
| `OutcleanLaws.VersionRewritten` | internal/delivery/outclean.go:127-162 | of a version line the first word of the value stays, under the canonical name, with its leading blanks and line end |
| `OutcleanLaws.OthersStay` | internal/delivery/outclean.go:91-107 | a kept line of another field is not changed |
| `OutcleanLaws.CleanLeavesNoneIgnored` | internal/delivery/outclean.go:109-116 | none of the six named fields is left before the first blank line, blanks and case aside |
| `OutcleanLaws.CleanTwice` | internal/delivery/outclean.go:39-162 | filtering twice is filtering once, on every text |
| `OutcleanLaws.CleanedLine` | internal/delivery/outclean.go:127-162 | a cleaned version line keeps its ending, is no unwanted field, does not end the headers and cleans to itself |
| `ChunkedFetch.FieldKeyOrder` | internal/store/key.go:66-81 | key order is document order, then field order |
| `ChunkedFetch.GroupDocuments` | internal/store/doc.go:179-213 | grouping the cell stream yields exactly the live documents, each once with all its fields, by ascending id |
| `ChunkedFetch.ScanDocumentRange` | internal/store/doc.go:165-214 | from its key bounds, exactly the live documents of an id range, both ends included up to 2^64-1, each once by ascending id |
| `ChunkedFetch.FieldInScan` | internal/store/doc.go:165-178 | the key bounds of a scan hold exactly the fields of the documents in the id range, also where it ends at 2^64-1 |
| `ChunkedFetch.ScanStaysInside` | internal/store/doc.go:165-178 | and no key of another collection |
| `ChunkedFetch.FetchSorted` | internal/mailstore/kv_mailbox.go:1026-1050 | range scans over runs of neighbouring ids fetch every live document asked for, also where the span bound wraps at 2^64 |
| `ChunkedFetch.MailboxEmails` | internal/mailstore/kv_mailbox.go:1005-1059 | the listing equals reading each indexed document one by one in UID order and skipping the missing |
| `ImapStrings.Encoder.Quoted` | internal/imapwire/encoder.go:94-107 | writes the string between quotes with quotes and backslashes escaped |
| `ImapStrings.Encoder.ValidQuoted` | internal/imapwire/encoder.go:117-136 | allows quoting up to 4096 bytes without NUL, CR, LF or, unless agreed on, bytes above 127 |
| `ImapStrings.Encoder.StringLiteral` | internal/imapwire/encoder.go:138-157 | writes a literal, or fails for a client that has to ask first and cannot |
| `ImapStrings.Encoder.String` | internal/imapwire/encoder.go:109-115 | writes the string in the form it allows |
| `ImapStrings.Decoder.Quoted` | internal/imapwire/decoder.go:381-407 | succeeds exactly on a complete quoted string within the size limit |
| `ImapStrings.Decoder.Number64` | internal/imapwire/decoder.go:347-358 | reads a number of 63 bits with something behind it |
| `ImapStrings.Decoder.LiteralHeader` | internal/imapwire/decoder.go:592-613 | succeeds exactly on a literal's announcement within the size limit; only a server takes the plus sign |
| `ImapStrings.Decoder.Literal` | internal/imapwire/decoder.go:573-590 | takes the announced bytes, or all there are, when the caller accepts the size |
| `ImapStrings.Decoder.String` | internal/imapwire/decoder.go:421-423 | succeeds exactly on what reads as a string within the size limit, leaving what follows |
| `ImapStrings.LiteralReadsIff` | internal/imapwire/decoder.go:592-613 | a literal reads back if and only if the reader takes its form and accepts its size |
| `ImapStrings.StringRoundTrip` | internal/imapwire/encoder.go:109-157 | whatever form the encoder chose, the peer's decoder returns the string and leaves exactly the following input |
| `ImapStrings.CutLiteralReads` | internal/imapwire/decoder.go:573-590 | a literal cut short by the end of input is read as a shorter one |
| `ImapStrings.CutReadsIff` | internal/imapwire/decoder.go:573-613 | for every written string and every cut: the peer takes the cut for a whole string if and only if a literal was written, its announcement came through whole and its size is accepted; every cut of a quoted string is refused |
| `ImapStrings.QuotedIsOneLine` | internal/imapwire/encoder.go:94-136 | a quoted form holds no CR, LF or NUL, and bytes above 127 only where UTF-8 was agreed on |
| `ImapStrings.LiteralIsAgreed` | internal/imapwire/encoder.go:138-157 | a client sends a literal without waiting only where LITERAL+ or, up to 4096 bytes, LITERAL- was agreed on, marks it with a plus sign, and otherwise sends it only to a peer that answered |
| `ImapStrings.EscapedConcat` | internal/imapwire/encoder.go:94-107 | escaping goes character by character |
| `ImapStrings.EscapedOne` | internal/imapwire/encoder.go:94-107 | and gives quotes and backslashes, and only them, a backslash |
| `CachedStore.KeysTellApart` | internal/mailstore/cached.go:38-48 | for accounts without NUL different mailboxes have different keys, and the kinds of entry never meet |
| `CachedStore.NulCollides` | internal/mailstore/cached.go:38-40 | with a NUL in an account two mailboxes share a key |
| `CachedStore.KeyUniqueIff` | internal/mailstore/cached.go:38-40 | a mailbox shares its key with no other if and only if neither its account nor its own name holds a NUL |
| `CachedStore.KeptListIsCurrent` | internal/mailstore/cached.go:63-261 | a list a successful write does not drop is still the mailbox's list |
| `CachedStore.CloneMessages` | internal/mailstore/cached.go:303-312 | copies with the same contents sharing no object |
| `CachedStore.Cached.Do` | internal/mailstore/cached.go:50-261 | for calls one after the other: after any successful write every memoised list is still the store's |
| `CachedStore.Cached.ListMessages` | internal/mailstore/cached.go:165-178 | for calls one after the other: returns what the store would list, in objects neither memo nor store holds |
| `CachedStore.Cached.MessageByUID` | internal/mailstore/cached.go:180-197 | returns what the store would find, in a new object |
| `CachedStore.FindIsFirst` | internal/mailstore/cached.go:180-197 | a message is found if and only if the list has one with the UID, and it is the first such |
| `CachedStore.Cached.MailboxStatus` | internal/mailstore/cached.go:109-120 | the message count is the store's |
| `CachedStore.Cached.CallerWrites` | internal/mailstore/cached.go:301-312 | a caller changing a returned message changes no later answer |
| `CachedStore.KeptStatusRightIff` | internal/mailstore/cached.go:109-163 | a memoised status kept across a write is right if and only if the write is neither a change of that subscription nor a creation of defaults that subscribes it |
| `CachedStore.SubscribeLeavesStatusStale` | internal/mailstore/cached.go:157-163 | changing a subscription leaves a memoised status stale |
| `CachedLists.Lists.ListMailboxes` | internal/mailstore/cached.go:96-107 | the next answer in a list no caller had before, which the memo shares if and only if the call was a miss |
| `CachedLists.Lists.CallerWrites` | internal/mailstore/cached.go:4-7 | a caller changing its list changes later answers exactly for the account whose memo is that very list |
| `CachedLists.NextCallerSees` | internal/mailstore/cached.go:96-107 | what a caller does to its list reaches the next caller if and only if its own call was a miss |
| `CachedRaces.StepInv` | internal/mailstore/cached.go:165-178 | with reads apart from fills and writes apart from their drops, a list in flight is current, or awaits a drop, or was overtaken by a write that landed and dropped since it was read |
| `CachedRaces.MemoCurrent` | internal/mailstore/cached.go:165-178 | in every interleaving in which no overtaken list is memoised, the memo is the mailbox's list whenever no landed write has yet to drop it |
| `CachedRaces.SettlesRightIff` | internal/mailstore/cached.go:165-205 | a memoised list is gone or right once all drops are done, whatever is written meanwhile, if and only if it is right now or awaits a drop |
| `CachedRaces.OvertakenFillIsStale` | internal/mailstore/cached.go:165-205 | for every store: a write that lands and drops between a read and its fill leaves the old list memoised with nothing left to drop it |
| `Leases.Store.Acquire` | internal/kvlease/lease.go:90-119 | succeeds exactly when no live foreign holder is recorded, and then records the owner with a new expiry |
| `Leases.Store.Release` | internal/kvlease/lease.go:123-146 | removes the record exactly when it is the owner's |
| `Leases.StaysHeld` | internal/kvlease/lease.go:90-146 | until its term is over the record stays the holder's and is only extended |
| `Leases.Exclusion` | internal/kvlease/lease.go:90-146 | over any run on a clock that does not run backwards, after an owner acquires at t and does not release, nobody else acquires with a reading below t + ttl |
| `Leases.ExpiryFrees` | internal/kvlease/lease.go:90-119 | from t + ttl on another owner does acquire |
| `Leases.ReleaseIsOwn` | internal/kvlease/lease.go:123-146 | a release never removes a foreign record, and frees the lease when it was the owner's |
| `Leases.HolderRenews` | internal/kvlease/lease.go:86-119 | the holder always renews within its term |

## Left out

- SMTP, HTTP, DNS and TLS clients and servers, listeners, configuration, metrics, MIME parsing, Sieve, full-text search: not modelled.
- Access control lists, LIST patterns, SORT keys, header edits, text segmentation: they would only add easier members.
- accountgate: advisory, it adds no exclusion beyond the lease.
- QueueRow.Backoff: 64-bit overflow of durations is not modelled; the factor is a real number and the draw a parameter.
- QueueStore.ScanDue: says which entries are picked only for due seconds that are not negative, as all real ones are.
- QueueSystem.StepInv: pausing, events, listing, signing and the contents of messages and reports do not appear; a crash is a worker ending at any point.
- QResync.PayloadRestoresMailbox: the listing is that of one moment, as a memo entry may not be; Copy and Move of empty UID lists, which the store reads as the whole mailbox, are not modelled.
- PollGate.GateSound: Deleting a mailbox, which removes its messages one by one, is one step. Listings show UIDs and flags.
- Poll.VanishedToldOnce: what a command of the session reports as gone is a parameter of its refresh; the commands themselves are not modelled.
- Poll.Session.Diff: sender, subject and size fields of listings do not appear.
- NumSets.NumSet.Lookup: enumerating a set (Nums), whose counting loop wraps at 2^32-1, is not modelled.
- GroupCommit.StepInv: one account; UIDs are not cut to 32 bits, and what the store does inside a commit is not modelled.
- Backups.BackUp: gzip, cancellation, write errors, drift counters and logging are not modelled; bodies without a link, as queued ones, are not archived by the code either.
- Restores.Restore: errors of the stores are not modelled; after a refusal entries and bodies read so far stay written, and the contract says nothing of them. The manifest's format and version are not checked by the code either.
- LruShards.Shard.Put: list elements are named by their keys; 64-bit overflow of weights and the locks do not appear.
- LruCache.Cache.Get: the hash is a parameter, and the mask is a remainder by 1 or 16.
- Outclean.OutcleanTo: letters are folded as ASCII, so folding outside ASCII is not modelled, nor are read and write errors.
- ChunkedFetch.MailboxEmails: parsing fields into a message is not modelled; the result pairs each id with its fields. Writers between the scans do not appear.
- ImapStrings.Decoder.String: AString atoms, NIL, and waiting for a continuation are not modelled; an answered continuation is a parameter.
- CachedStore.Cached.Do: calls that fail after a partial write, and writes past the cache, are not modelled; the contents a write leaves are its parameter. The class is about calls one after the other; concurrent calls are the subject of `CachedRaces`, for one mailbox's list. The LRU in between may forget any entry at any time, as `LruRuns.HitIsLastPut` allows.
- CachedStore.Cached.MailboxStatus: the subscription is not kept current, as in the code.
- CachedLists.Lists.ListMailboxes: which mailboxes a write leaves is its parameter, and counters in the rows do not appear.
- Leases.Store.Acquire: records that do not parse and store errors are not modelled.
