# Verification of asper's core

asper is a durable memory store for assistants: conversation turns are logged, a curator
model proposes operations on long-term records, and the records live in section files behind
a write-ahead journal. This project models the parts where a mistake would lose or corrupt
memory, and proves what they promise. `dafny verify dfyconfig.toml` checks all of it.

## What is modelled

- **Append log** (`EventFrame`, `FrameIO`, `EventScan`, `IndexRows`, `EventLog`): the frame
  code, torn-tail repair, and the offset index that must agree with a scan of the log.
- **Records and journal** (`Records`, `Effects`, `Journal`, `OpText`): validation, the projection of
  operations onto the table and what it does to each field, write-ahead journaling with rollback, poisoning and replay.
- **Compaction** (`Marker`, `Transaction`, `Snapshots`, `Compaction`): backups, marker,
  rewrite, commit and recovery, and loading as the inverse of rewriting.
- **The store as a whole** (`Durability`, `Memory`): operations, syncs, compactions, crashes and
  reopenings in any order. A reopened store is the fold of a prefix of the history with everything
  certain in it; a compaction is one entry of the history.
- **Curation batches** (`Acknowledgements`, `Receipts`, `CurationCycle`, `Quorum`): receipts,
  history, acknowledgements, the guard, and the quorum for identity records.
- **Turn admission** (`Turns`, `Ledger`, `Transcript`, `Intake`): cursors, the bounded queue,
  batches in flight, and the full flush.
- **Knowledge** (`Knowledge`, `SupportGraph`, `KnowledgeBase`, `Validity`, `StatusFold`,
  `KnowledgeStatus`, `Verdicts`, `Reasons`): the grounding log, the bounded cycle search, the validity
  projection, and what a status says about a record.
- **Indexes and selection** (`Probing`, `RecordTable`, `TopHits`, `VectorIndex`, `History`).
- **Codecs** (`Sha256`, `Sha256Stream`, `Calendar`, `Rfc3339`, `Trimming`, `Protocol`,
  `Spoken`, `ReplyLines`, `CuratorGrammar`).

`Outcomes`, `Text`, `Sets`, `StrOrder`, `Decimal`, `Chunks` and `Arithmetic` hold shared notions.

## How failures and crashes are modelled

An I/O step may fail, and a step that reports failure may or may not have taken effect; both
are open choices in the methods. Classes with durable state carry a ghost collection `seen` of
every disk image that became visible, including each partial write. A crash is a restart from
any of these images. Since the contracts speak about every image in `seen`, and recovery
methods accept every such image and again leave only such images, the statements hold for any
number of crashes, also inside recovery. The journal is the one file written in place: a crash
may leave any prefix of its longest content that contains its synced part. Bytes are characters
0 to 255; SHA-256 enters the protocols as an arbitrary function, so nothing there relies on its
strength.

## Findings

- *Generated handles.* The parser refuses handles beyond a million while the grammar offers
  all of them. `CuratorGrammar.NeverMalformed` states the exact bound.
- *Held exactly once.* When a cycle fails behind its durable acknowledgement, its turns return to
  the queue although they are acknowledged on disk; `CurationCycle.BehindAcknowledgement` is a run
  into this state, and `CurationCycle.Curation.TwiceExactly` says that it is the only one. The
  guard is up in it, so nothing is generated for twice.
- *Four-digit years.* Formatting accepts every instant, parsing only years 0000 to 9999;
  `Rfc3339.RoundTrip` is an equivalence.

## Model

| member | source | states |
|---|---|---|
| `FrameIO.FrameWrite` | src/event_frame.c:35-50 | a successful write appends exactly the metadata, its digest, the digest over it and the payload, and the payload; a failed one leaves some prefix of that; refusal exactly on an over-long text or header |
| `FrameIO.FrameRead` | src/event_frame.c:119-148 | reading succeeds exactly when the stream begins with a complete frame, returns that frame's event and consumes exactly its bytes; NOT_FOUND exactly when what is left is a cut frame |
| `FrameIO.HeadRead` | src/event_frame.c:62-117 | a header is accepted exactly when it is the canonical print of its fields and their digest |
| `FrameIO.Number` | src/event_frame.c:52-61 | a numeric field is accepted exactly when a run of digits worth at most the bound and a space stand there, and yields the worth of that run |
| `FrameIO.ValidEventWritable` | src/event_frame.c:35-50 | every valid event fits the writer's header and text limits |
| `EventFrame.FrameUnique` | src/event_frame.c:62-148 | no text begins with two different frames: the frame code is prefix-free and injective |
| `EventFrame.HeaderUnique` | src/event_frame.c:62-117 | the fields and digest of a header line are determined by its bytes |
| `EventFrame.StrictPrefixTorn` | src/event_frame.c:62-148 | every strict prefix of a valid frame reads as torn, never as damage |
| `EventFrame.TornHidesNoFrame` | src/event_frame.c:62-148 | what begins with a complete frame never reads as torn |
| `EventFrame.TornIsShort` | src/event_frame.c:62-148 | a torn text is the beginning of a header line or holds fewer bytes than an intact header promises; damage in a complete frame is never torn |
| `EventScan.ImageUnique` | src/event_index.c:40-87 | the bytes of a log determine its events |
| `EventScan.CutLog` | src/event_index.c:40-87 | a log cut at any byte holds exactly the frames that end before the cut, followed by a torn rest |
| `IndexRows.RowAt` | src/event_index.c:17-31 | row k of an index holds the k-th pair of offsets with its checksum |
| `IndexRows.PutByte` | src/event_index.c:9-16 | an offset is stored as its base-256 digits, the lowest first |
| `EventLog.EventFiles.IndexRead` | src/event_index.c:23-31 | a row is accepted exactly inside the handle's count and the stored events, and yields the true bounds of that frame |
| `EventLog.BeyondLog` | src/event_index.c:23-31 | a row for an event the log has lost ends beyond the log, so it is never trusted |
| `EventLog.EventFiles.Rebuild` | src/event_index.c:40-87 | on every image a crash can leave, success yields a log of exactly the complete frames and its full index; every intermediate image still stores them |
| `EventLog.EventFiles.Open` | src/event_index.c:88-139 | on every image a crash can leave, also one whose index is ahead of the log, opening succeeds with exactly the complete frames and their index; it reports damage only when the stamps show that the file changed meanwhile |
| `EventLog.EventFiles.Read` | src/event_index.c:141-183 | read(k) is the k-th event, NOT_FOUND exactly outside 1..count; damage is reported only when the file became shorter, got another link count, was rewritten at its size, or changed while it was read; a row that cannot be read is rebuilt |
| `EventLog.EventFiles.Append` | src/event_log.c:6-40 | success stores the events plus the new one, numbered next; every image that became visible stores the old events or the old events plus this one |
| `EventLog.EventFiles.ExtendIndex` | src/event_log.c:26-39 | a failing index write costs no durable event |
| `EventLog.EventFiles.Page` | src/event_log.c:42-72 | a page is all events between the two cursors that match, in order, and short only at the end of the log; a failure gives nothing and leaves the cursor |
| `Records.ReplayPrefix` | src/store.c:266-366 | whenever a run of operations applies, so does each of its prefixes |
| `Records.ValidatedApplies` | src/api.c:240-396 | an operation that passes validation is never refused by the projection, so replay cannot refuse it either |
| `Records.CuratorGuardrail` | src/api.c:263-360 | no accepted curator operation changes the claim, evidence or sources of a locked or host-evidenced record, nor retires or rescues a locked one |
| `Records.ApplyKeepsStoreOk` | src/store.c:266-366 | every operation keeps ids, keys and table size consistent |
| `Effects.ApplyEffect` | src/store.c:266-366 | what an applied operation does, field by field: an update leaves exactly the given text, time and evidence, a retirement and its reversal touch nothing but use and retirement, a lock nothing but the lock, accesses count as often as listed; every other record and field stays |
| `Effects.ReplayEffects` | src/journal.c:19-33 | a replayed run has these effects operation by operation |
| `Effects.ValidatesExactly` | src/api.c:240-396 | an operation is accepted exactly when the records it meets permit it, each error names a condition that failed |
| `Journal.FrameReplays` | src/journal.c:19-33 | replaying one journal frame is applying its operation |
| `Journal.ReplayJournal` | src/journal.c:35-74 | a journal cut at any byte replays without error into the fold of exactly the operations whose frames survived; the torn rest is removed |
| `Journal.CrashImage` | src/journal.c:35-136 | at every moment of the stream, whatever bytes a crash leaves hold a prefix of the issued operations that contains every synced one |
| `Journal.Writer.Append` | src/journal.c:87-122 | success journals one more operation; failure leaves the acknowledged operations as they were, or poisons the store; every moment a crash may come at is sound and knows at most this operation more |
| `Journal.Writer.Rollback` | src/journal.c:76-85 | a failed write is retracted only by a durable truncation, otherwise the store is poisoned |
| `Journal.Writer.Sync` | src/journal.c:124-136 | a successful sync makes every acknowledged operation durable; an uncertain one poisons the store |
| `Journal.Writer.ApplyOp` | src/api.c:398-523 | an accepted operation has exactly its effect on the live table and was permitted by it, one that is not permitted is refused for its reason; the table is the fold of the acknowledged operations; host operations are durable when acknowledged; a poisoned store applies nothing |
| `Journal.Writer.Reopen` | src/store.c:183-259 | reopening on any bytes a crash leaves yields the fold of that prefix, a well-formed store, with no poisoning left; a failed attempt changes nothing and leaves bytes to start from again |
| `StrOrder.LowerBound` | src/store.c:12-29 | binary search finds the first position not below the key and tells whether the key is there |
| `StrOrder.LessMeans` | src/store.c:12-29 | the order is that of the first differing character, a shorter text coming before its continuations |
| `Marker.ParseMarker` | src/store_transaction.c:27-52 | the marker parser accepts exactly the texts a transaction prints and recovers their rows |
| `Marker.FormatInjective` | src/store_transaction.c:79-103 | a marker text stands for one list of rows only |
| `Marker.MarkerFits` | src/store_transaction.c:66-103 | the marker of the largest transaction stays below the size recovery reads |
| `Transaction.StoreFiles.Restore` | src/store_transaction.c:54-64 | a backup is used only with its recorded digest; exactly the named file changes |
| `Transaction.StoreFiles.Begin` | src/store_transaction.c:79-103 | before the marker is durable nothing counts as changed; once it is, recovery restores the files as they were |
| `Transaction.StoreFiles.WriteListed` | src/store_transaction.c:79-103 | while the marker stands, rewriting a covered file does not change what recovery restores |
| `Transaction.StoreFiles.Commit` | src/store_transaction.c:105-111 | removing the marker is the commit point: every image recovers to the new files or as before |
| `Transaction.StoreFiles.Recover` | src/store_transaction.c:66-77 | recovery validates all backups before touching a file, and every image it may leave recovers to the same files, however often it is interrupted |
| `Transaction.ArmedAbsorbsWrites` | src/store_transaction.c:54-77 | images that differ only in covered files recover to the same files |
| `Snapshots.LoadStore` | src/store.c:72-150 | loading succeeds exactly when the section files form a snapshot, and yields its records and projects |
| `Snapshots.LoadSection` | src/store.c:72-93 | a section file is accepted exactly when its records belong to it, with new ids, within the table limit |
| `Snapshots.LoadUnique` | src/store.c:183-259 | the files determine what opening them yields |
| `Compaction.CompactedLoads` | src/store_compact.c:85-163 | the rewritten files load into exactly the kept records and every known project, with an empty journal |
| `Compaction.AtomicReopens` | src/store_compact.c:75-202 | after a crash at any point the store that opens is the one before compaction, or it holds exactly the records never retired or retired for less than the purge age and every known project; recovery is always possible |
| `Compaction.Compactor.Compact` | src/store_compact.c:14-232 | a record retired for the purge age or longer leaves the table exactly on commit, every other record stays, in order; every image compaction makes visible is atomic in that sense; unless poisoned no marker stays and the store can be compacted again; known projects stay |
| `Compaction.Afterwards` | src/store_compact.c:14-232 | a committed compaction leaves a table and a registry that fit the rewritten files |
| `Compaction.Compactor.Distribute` | src/store_compact.c:85-113 | the buffers of all sections and projects hold exactly their kept records, in table order |
| `Compaction.Compactor.Rewrite` | src/store_compact.c:115-163 | rewriting all section files and emptying the journal happens under the armed marker, which keeps restoring the old files |
| `Compaction.Compactor.Purge` | src/store_compact.c:200-208 | the live table keeps, in order, exactly the records that were never retired or retired for less than the purge age |
| `Compaction.Compactor.ProjectAdd` | src/store.c:38-70 | the project registry stays sorted and gains exactly the new slug |
| `Durability.CrashSafe` | src/store_transaction.c:54-77 | losing the uncertain part of the journal keeps an image safe, with or without an armed transaction |
| `Durability.CompactingSafe` | src/store_compact.c:75-202 | every image of a running compaction is safe for the old history, or for it and the purge |
| `Durability.Survives` | src/store.c:183-259 | whatever a crash leaves of a safe image recovers, and the only store it loads into is the fold of a prefix of the history that contains everything certain |
| `Durability.HistoryEffects` | src/store.c:266-366 | every step of a history has the effect of its operation, or of a purge, and no other |
| `Durability.FreshIsSafe` | src/store.c:183-259 | an empty directory is a safe beginning |
| `Memory.Memory.ApplyOp` | src/api.c:398-523 | an accepted operation was permitted, has exactly its effect on the live records and extends the history by itself, certainly so for the host; one that is not permitted is refused for its reason; every image seen is safe and keeps what was certain |
| `Memory.Memory.Sync` | src/journal.c:124-136 | a successful sync makes the whole history certain |
| `Memory.Memory.Compact` | src/store_compact.c:14-232 | a committed compaction removes exactly the records retired for the purge age or longer, extends the history by the purge and makes all of it certain; otherwise history and store stay; every image seen is safe |
| `Memory.Open` | src/store.c:183-259 | opening what a crash left of any safe image gives a valid store whose history is a prefix with everything certain in it; failing or interrupted, it leaves only safe images |
| `Acknowledgements.MarkCurated` | src/source_replay.c:63-94 | the new acknowledgement file is the sorted union; repeating an acknowledgement changes nothing, even at the quota |
| `Acknowledgements.SortedSetUnique` | src/source_replay.c:11-32 | two sorted acknowledgement files with the same ids are the same file |
| `Receipts.PrepareKeepsGood` | src/curation_receipt.c:115-149 | making a fresh prepared receipt durable keeps the protocol invariant: effects follow receipts, covered sources are never generated for again, receipt ids are unique |
| `Receipts.JournalKeepsGood` | src/curator.c:744-796 | journaling an operation of the prepared batch keeps that invariant |
| `Receipts.CompleteKeepsGood` | src/curation_receipt.c:151-168 | completing the receipt keeps it, given synced effects |
| `Receipts.ArchiveKeepsGood` | src/curation_receipt.c:50-75 | appending the receipt to the history keeps it, with every receipt id there once |
| `Receipts.AckKeepsGood` | src/source_replay.c:63-94 | acknowledging the archived batch keeps it, and then the acknowledged set is the union of the archived sources |
| `Receipts.UnguardKeepsGood` | src/curation_receipt.c:77-96 | removing the pending receipt keeps it |
| `Receipts.CrashKeepsGood` | src/curation_receipt.c:98-113 | losing any unsynced operations in a crash keeps it |
| `Receipts.EveryRun` | src/curation_receipt.c:50-168 | over every run from an empty store, crashes included: effects follow their durable receipt, no source of a receipt is generated for again, receipt ids are in the history once, and without a pending receipt the acknowledged sources are those of the history |
| `CurationCycle.Curation.Begin` | src/curation_receipt.c:115-149 | success means the receipt of exactly these sources, with the length of the journal before them, is durable and the guard is up; without a guard nothing was promised |
| `CurationCycle.Curation.Archive` | src/curation_receipt.c:50-75 | archiving is idempotent: every image it leaves finalizes to the same history |
| `CurationCycle.Curation.Finalize` | src/curation_receipt.c:77-96 | history, acknowledgement, guard, in this order; interrupted anywhere, what is left finalizes to the same history |
| `CurationCycle.Curation.Recover` | src/curation_receipt.c:98-113 | reopening finishes a completed batch and only guards a prepared one, from every stage |
| `CurationCycle.Curation.Finish` | src/curation_receipt.c:151-168 | success archives exactly one more receipt, with the batch's sources, the length of the journal before it and the length now, and lifts the guard; after poisoning it refuses |
| `CurationCycle.Curation.ApplyEffect` | src/curator.c:744-790 | an operation is journaled under the prepared receipt's id, and nothing is applied once the store is poisoned |
| `CurationCycle.Curation.Cycle` | src/curator.c:662-838 | a failed cycle keeps the queue in front of what producers added; a successful one takes a non-empty prefix out of it and archives exactly that, with a receipt between whose two journal positions lie the operations of this batch and no others; while a receipt is pending every cycle is refused |
| `CurationCycle.Curation.TwiceExactly` | src/curation_receipt.c:77-96 | a source is queued and acknowledged at once if and only if the guard is up, its whole batch is acknowledged and one of its sources is queued; never without the guard |
| `CurationCycle.BehindAcknowledgement` | src/curation_receipt.c:86-94 | a run of the protocol that reaches this state |
| `Quorum.Quorum.Check` | src/curator.c:330-372 | expired proposals go, a live match is used up once, otherwise the proposal is recorded; nothing else changes |
| `Quorum.Quorum.Mutate` | src/curator.c:545-645 | a change to an identity record is sent exactly when a waiting proposal within the window has its record, its kind and the hash of its text, recorded in a strictly earlier cycle and not answered since; otherwise it is noted with these three; a rewrite is never confirmed by one with another hash; other changes leave the quorum alone |
| `Quorum.Quorum.BeginCycle` | src/curator.c:752-753 | a new cycle is a step of the run that empties the same-cycle guard |
| `Quorum.NoSelfConfirmation` | src/curator.c:330-372 | in every run of cycles and proposals, a confirmation answers a recording of the same id, kind and hash from a strictly earlier cycle and within the window, with no other event of that key between |
| `Quorum.UsedOnce` | src/curator.c:330-372 | of two confirmations of one proposal, the later answers a recording made after the earlier: a recording confirms once |
| `Ledger.HeldExactlyOnce` | src/source_pending.c:102-133 | an event below its scope's cursor that is a user's or an assistant's, not acknowledged and not deferred, is held exactly once among turns of successful cycles, in flight and queued, with its own speaker, words, id and context; any other is not held at all |
| `Ledger.HeldStands` | src/source_pending.c:102-133 | and every held turn stands for such an event, at its own place in its scope's log |
| `Ledger.PassedSound` | src/source_pending.c:102-133 | no cursor passes an event that could not be queued, nor a deferred one that changed since its deferral |
| `Ledger.HeldInOrder` | src/curator.c:100-164 | turns of one scope are held in the order of its log |
| `Turns.OwedAscending` | src/source_pending.c:102-133 | the turns a scope owes are strictly ascending in its log |
| `Intake.QueueLimit` | src/turn_queue.c:7-11 | the event limit is the number nearest to the configured one in 1..4096 |
| `Intake.Intake.Enqueue` | src/turn_queue.c:27-103 | a turn is queued exactly when its text, metadata and the room allow, with the event's own speaker, words, id and context; counters and byte totals stay the real ownership; every slot in flight stays reserved |
| `Intake.Intake.FillScope` | src/source_pending.c:102-133 | admission reaches the captured end, the queue's limits, or an event that cannot be admitted, which it never passes |
| `Intake.Intake.Refill` | src/source_pending.c:135-145 | after a full round every scope is admitted to its end or waits for bytes; frozen ends do not move |
| `Intake.Intake.Note` | src/source_pending.c:164-174 | a noted scope is marked for capture; during a frozen flush nothing is admitted |
| `Intake.Intake.Take` | src/curator.c:100-137 | the batch is the longest prefix of the queue with one context within the batch limits |
| `Intake.Intake.Shorten` | src/curation_input.c:6-35 | what is left in flight is shown event by event: the heading, and for each turn the speaker and the words of its event and a newline, in order, within both budgets; the rest of the batch is back in the queue |
| `Intake.Intake.Restore` | src/curator.c:143-164 | restoring never fails or reallocates, and puts the turns back in front in order |
| `Intake.Intake.Release` | src/turn_queue.c:19-26 | releasing a successful batch moves exactly its turns to the acknowledged ones |
| `Intake.Intake.Cycle` | src/curator.c:662-838 | failure loses nothing and keeps the order; success acknowledges a non-empty batch that fits the transcript budget; the acknowledgement file holds exactly the successful batches, and only under a pending receipt also a batch that is back in the queue |
| `Intake.Intake.Capture` | src/source_pending.c:176-193 | the budget is the queued turns plus what is still to admit up to the captured ends |
| `Intake.Intake.Drain` | src/worker.c:107-171 | a full flush runs at most the captured budget of cycles; when it succeeds, no receipt is pending, the queue is empty, every scope is admitted up to its captured end, and the acknowledgement file holds exactly the successful batches |
| `Transcript.Build` | src/curation_input.c:6-35 | the transcript is the heading and one line per included turn, speaker, words and newline, in order and nothing else; it shows the longest prefix of which every prefix fits the byte and token budgets |
| `Knowledge.Find` | src/knowledge_store.c:18-29 | binary search finds the entry of an id exactly when there is one |
| `Knowledge.Replace` | src/knowledge_store.c:38-47 | the sorted table after a replacement holds exactly the updated map |
| `SupportGraph.SafeIsNoWalk` | src/knowledge_validate.c:15-29 | the accepted starting points are exactly those from which no walk meets the target and all walks are shorter than 32 edges |
| `SupportGraph.GroundingKeepsAcyclic` | src/knowledge_validate.c:55-67 | replacing a definition whose supports are accepted keeps the graph acyclic |
| `KnowledgeBase.Base.Reaches` | src/knowledge_validate.c:15-29 | despite the depth-indexed pruning, the answer is that of the full bounded search, and a mark only deepens with each expansion |
| `KnowledgeBase.Base.Cycles` | src/knowledge_validate.c:62-67 | a fresh search is exact and expands every entry at most 32 times |
| `KnowledgeBase.Base.Validate` | src/knowledge_validate.c:30-70 | a grounding is accepted exactly when its shape, ranges, link targets, content digests and supports are in order; accepted ranges are non-empty and cut no character |
| `KnowledgeBase.Base.Commit` | src/knowledge_store.c:48-62 | a durable append precedes the table update; any failed append poisons the store; every image of the log replays to an acyclic graph |
| `KnowledgeBase.Base.Ground` | src/knowledge_api.c:6-36 | compare-and-set: acceptance exactly under the named revision and content digest and an admissible grounding; refusal changes nothing |
| `KnowledgeBase.Base.Open` | src/knowledge_store.c:63-99 | opening succeeds exactly on a well-formed log with consecutive revisions and yields its last definitions; an entry whose links no longer fit is not trusted |
| `Validity.EnoughPasses` | src/knowledge_status.c:60-82 | one pass per entry reaches the least closed set for every graph and every order of the entries |
| `Validity.StablePass` | src/knowledge_status.c:60-82 | an earlier pass that changes nothing has reached it too |
| `Validity.CurrentRestsOnCurrent` | src/knowledge_status.c:60-82 | outside the closed sets every support is unchanged and outside as well |
| `Validity.SupersededUnusable` | src/knowledge_status.c:87-105 | a superseded claim is unusable whatever became of the superseding record |
| `Validity.NoUsableContradiction` | src/knowledge_status.c:87-105 | no two usable records contradict each other |
| `KnowledgeStatus.Covered` | src/knowledge_status.c:31-37 | the interval sweep says yes exactly when every byte of the claim lies in some span, in whatever order the spans are listed |
| `KnowledgeStatus.Projection.Initial` | src/knowledge_status.c:38-59 | the first status of a record is the one stated on maps: usable exactly when it stands, current exactly when it is also certified, with the reasons for each other status |
| `KnowledgeStatus.Projection.Visit` | src/knowledge_status.c:64-80 | visiting an entry in place is one closure step on the unusable and on the not-current records, and leaves exactly the status its links hand on |
| `KnowledgeStatus.Projection.Propagate` | src/knowledge_status.c:60-82 | propagation ends in the least closed sets although it makes at most one pass per entry |
| `KnowledgeStatus.Projection.Supersede` | src/knowledge_status.c:87-105 | exactly the superseded records that are not revoked become stale |
| `KnowledgeStatus.Projection.Contest` | src/knowledge_status.c:87-105 | exactly the parties of a live contradiction between usable records become contested |
| `KnowledgeStatus.Projection.Refresh` | src/knowledge_status.c:106-117 | the class of every record (current, unverified, unusable) is the one defined on maps; every exact status is the outcome of the entries in id order, whatever the order of the record table; revoked is neither lost nor inherited |
| `KnowledgeStatus.VerdictFacts` | src/knowledge_status.c:106-117 | after a refresh: current implies certified, usable implies standing and not superseded, supports of usable records are usable with unchanged claims, supports of current ones current, contradicting records are not both usable |
| `Verdicts.UsableMeans` | src/knowledge_status.c:38-59 | a usable record is neither retired nor expired, its grounding not revoked, made for its present text, with trusted sources and every dependency last seen as recorded, and nobody corrected it; a current one is also cited byte for byte or supported |
| `Verdicts.AloneDecides` | src/knowledge_status.c:38-117 | for a record without relations this is exact: usable if and only if so, current if and only if also cited byte for byte |
| `Reasons.OutcomeReasoned` | src/knowledge_status.c:38-117 | in every order of the entries each unusable status has its reason: in the record and its grounding, in a correction or a live contradiction, or in a support that is stale, revoked, changed, unavailable or contested |
| `StatusFold.OneListing` | src/knowledge_store.c:18-47 | the definitions fix the order of the entries, so exact statuses depend on no order at all |
| `Probing.EmptyAhead` | src/record_table.c:139-176 | while the load bound holds, a probe cannot go a full turn without an empty slot |
| `Probing.NotBeyond` | src/record_table.c:160-170 | a probe that met an empty slot has met every entry of its home |
| `RecordTable.Table.Find` | src/record_table.c:160-176 | lookup finds the record with that id or none, with or without the map |
| `RecordTable.Table.Rehash` | src/record_table.c:148-158 | a rebuilt map reaches every record and is at most half full |
| `RecordTable.Table.Add` | src/record_table.c:191-211 | the table refines a finite map: the new id is added, a duplicate or empty id refused, the load bound kept |
| `RecordTable.Table.Remove` | src/record_table.c:218-231 | exactly that id is removed, the order of the others kept, also when the map cannot be rebuilt |
| `VectorIndex.Index.Put` | src/index.c:56-93 | rows and records stay in bijection; the row holds the last vector put |
| `VectorIndex.Index.Remove` | src/index.c:95-116 | swap-with-last removal drops exactly that record and keeps the bijection |
| `VectorIndex.Index.Scan` | src/index.c:177-226 | a hit is a live, usable, unexpired record of the asked section and project that is similar enough; every such record is listed, unless the list is full and all of it comes before that record; hits fall by rank, then recency, then rise by id; the result is exactly the first k of all hits |
| `TopHits.InsertHit` | src/index.c:209-223 | inserting one hit keeps the list the first k of the hits so far |
| `TopHits.TopIsOne` | src/index.c:158-175 | there is only one such list |
| `History.Selection.Select` | src/source_history.c:26-48 | an event is kept exactly when its line fits the remaining bytes and tokens |
| `History.Selection.TakePins` | src/source_history.c:78-98 | pins are chosen from the oldest on; one left out did not fit beside the pins before it |
| `History.Selection.TakeNewest` | src/source_history.c:78-98 | the rest is chosen from the newest back; one left out did not fit beside the pins and the newer ones |
| `History.AlreadyPinned` | src/source_history.c:50-57 | binary search over the pins decides membership |
| `History.Maximal` | src/source_history.c:64-107 | below the event limit no omitted event other than a checkpoint or the question itself fits the remaining bytes and tokens |
| `History.SourceHistory` | src/source_history.c:64-107 | what is presented behind the context and the heading is, in ascending order, one line per chosen event with its kind, id, words and source, and nothing else, within the byte, token and event limits, or LIMIT when the joined text costs too much |
| `Sha256.LengthValue` | src/sha256.c:112-122 | the eight length bytes are the base-256 digits of the bit length |
| `Sha256.DigestNamesState` | src/sha256.c:124-129 | writing the digest loses nothing: equal digests come from equal final states |
| `Sha256Stream.Context.Transform` | src/sha256.c:28-71 | the block transform is the compression function of FIPS 180-4, section 6.2 |
| `Sha256Stream.Context.Closing` | src/sha256.c:119-122 | shifting the bit length byte by byte gives its base-256 digits |
| `Sha256Stream.Context.Update` | src/sha256.c:87-110 | an update appends to the message: state, buffer and bit length are those of everything fed so far |
| `Sha256Stream.Context.Final` | src/sha256.c:112-130 | the digest is the hash of the message padded as in section 5.1.1 of FIPS 180-4 |
| `Sha256Stream.HashParts` | src/sha256.c:87-137 | for every split of a message into updates the digest is the hash of the whole |
| `Calendar.CivilRoundTrip` | src/time.c:33-59 | every valid date survives the trip through its day number |
| `Calendar.DaysRoundTrip` | src/time.c:33-59 | every day number survives the trip through its date, which is valid |
| `Calendar.DayByDay` | src/time.c:33-70 | day 0 is 1970-01-01 and the calendar's next day has the next number |
| `Rfc3339.Parse` | src/time.c:85-131 | a text is accepted exactly when it is a timestamp of section 5.6 of RFC 3339 in range, and yields its instant |
| `Rfc3339.FormatTime` | src/time.c:133-160 | the text is that of the day and second of the instant, also before 1970 |
| `Rfc3339.RoundTrip` | src/time.c:85-160 | parsing a formatted time gives the same instant exactly when its year lies in 0000 to 9999 |
| `Rfc3339.ZonedRoundTrip` | src/time.c:85-131 | a local time with its offset from UTC, ahead or behind, means the instant of UTC |
| `Protocol.FindSep` | src/grammar.c:192-203 | the separator found is the first bar between a space and a space or the end of the trimmed line |
| `Protocol.ParseHandle` | src/grammar.c:205-225 | a handle is accepted exactly when it is M and a number within the handles and a million |
| `Protocol.ParseLine` | src/grammar.c:241-307 | a line yields the operation of its verb or nothing; its handle is in range |
| `Spoken.LineSays` | src/grammar.c:241-307 | a trimmed line yields an operation if and only if it says it, character by character: its verb alone, the first separating bar, a handle in range, the trimmed texts; a line that says nothing yields nothing |
| `Protocol.Parse` | src/grammar.c:324-380 | for any text at all, every emitted handle lies in 1..handle count, and malformed lines are counted |
| `Spoken.ReplySays` | src/grammar.c:324-380 | the parse accounts for every line of a reply: the operations are what the lines say, in order, and the lines counted as malformed are exactly those neither blank nor saying anything |
| `Trimming.TrimMeans` | src/util.c:129-143 | trimming leaves the part from the first to the last character that is no white space |
| `ReplyLines.WrittenLine` | src/grammar.c:241-307 | a line the grammar can write parses into its operation with trimmed text, exactly while its handle is within a million |
| `CuratorGrammar.DerivedIsDocument` | src/grammar.c:90-168 | every string the built grammar derives is the text of a document of allowed lines |
| `CuratorGrammar.DocumentIsDerived` | src/grammar.c:90-168 | and the text of every such document is derivable |
| `CuratorGrammar.DocumentParses` | src/grammar.c:324-380 | a document parses with no malformed line into exactly its operations with trimmed text |
| `CuratorGrammar.NeverMalformed` | src/grammar.c:90-380 | everything derivable parses without a malformed line if and only if there are at most a million handles |
| `CuratorGrammar.Counterexample` | src/grammar.c:205-225 | with more handles a derivable text is refused |

## Left out

- Allocation failure, except where the table falls back to a linear scan: the other paths return an error before any change.
- The xCDN and JSON codecs of records, receipts, definitions and operations: they enter as given encodings with a decoding inverse; `OpText.CodecExists` shows that there is one for operations.
- Locks and threads: methods are atomic steps; producers interleave with a cycle where no lock is held (`Intake.Intake.Concurrent`, `CurationCycle.Curation.Producers`), and the cycle slot's mutual exclusion is taken as given.
- Operating-system file handling, directory syncs and path checks: the disk is a map with atomic replacement, existence queries are accurate, and a stream read either works or fails as a whole.
- The audit log, manifest, statistics, embedding upkeep and configuration in `asper_apply_op` and compaction.
- Curation without a curator model, where queued turns are dropped (`src/curator.c:671-678`): all statements about the queue assume a curator.
- Generation, embeddings, token counters, UTF-8 and UUID syntax: functions given from outside.
- Floating point: stored numbers are fractions, cosine and scores real numbers; the accumulation order of the dot product and normalisation are not modelled.
- GBNF as text: `CuratorGrammar.Build` yields the grammar as an expression with its rules inlined, not the printed rules.
- ISO 8601 durations (`src/time.c:166-235`), Base64, FNV-1a, templates, logging, the MCP server and the verdicts of the maintenance review.
- History pages, groundings read back by the host, and observations (`src/knowledge_api.c:37-100`): they only read or overwrite one value.
- Intake.Intake.Drain: scheduling by batch size and idle time is not modelled, only the full flush.
- Memory.Memory.ApplyOp: an operation comes with its time filled in; the poison flag of the knowledge store is checked only in `KnowledgeBase.Base.Ground`; index and statistics updates behind the applied operation are not modelled.
- Journal.Writer.ApplyOp: as for `Memory.Memory.ApplyOp`.
- Intake.Intake.Cycle: the cycle is modelled twice, here for the ownership of turns and in `CurationCycle.Curation.Cycle` for the durable protocol; the two meet only in whether a failed batch was prepared and acknowledged.
- EventLog.EventFiles.Open: a crash that loses the whole log file but keeps its index is not among the images.
- RecordTable.Table.Add: growing the record array is not modelled; the slot mask is the remainder by a power of two, which is kept as an invariant.
- VectorIndex.Index.Put: growing the matrix is not modelled.
- Sha256Stream.Context.Update: buffers are sequences rather than pointers; the null-pointer checks are not modelled.
- CurationCycle.Curation.Cycle: the size of a batch and the number of operations are parameters; the curator's reply is Protocol's subject.
- Receipts.PrepareKeepsGood: receipt ids are fresh UUIDs, stated as a precondition.
- Known-answer vectors of SHA-256: its constants and round functions are written down from FIPS 180-4, and the streaming implementation is proved against them.
