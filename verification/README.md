# DoLogger: verified models

Dafny models of the parts of DoLogger in which correctness is least obvious, with proofs of what they promise: the
lock-free hand-off of records from producers to the consumer, the audit-log verifier, the emergency spill file, the
text codecs, domain inheritance and configuration reload. `dafny verify dfyconfig.toml` checks everything.

## What is modelled

**Hand-off protocol.** `RingMachine` is the ring buffer as an interleaved step machine: any number of threads run
`try_push`, `drain` and `drain_helping`; every atomic load, compare-and-swap, store and data access is one step, and a
weak compare-and-swap may fail for no reason. One invariant, kept step by step (`RingSteps`, `RingInvariant`), carries
the theorems of `RingTheorems`, of `RingCalls` about whole calls, of `RingContention` about lost CASes and of
`RingProgress`; `RingRuns` holds the runs that show where the guarantees end. `RingBuffer` is the same ring as an object
whose calls run to completion, proved against a bounded FIFO queue.

**Record pool.** `PoolMachine`, `PoolSteps` and `PoolTheorems` treat the free stack in the same way. Its head carries
no version tag; the stack is correct as long as at most one allocation is between its head load and its CAS. The exact
condition on the winning CASes of a run and a run that breaks the stack are both proved. `RecordPool` is the object
without interleaving.

**Log path.** `LogPath` puts `dologger_log`, cooperative helping and the consumers on top, as threads over atomic pool
and queue operations that move records between owners; `LogSteps` keeps its invariant and `LogTheorems` states what
becomes of each record. `LogTrace` is an observer that notes requests, levels, exits and queue traffic; `LogRouting`
keeps its invariant, and `LogOutcomes` says which queue a record takes, how a call can end and how far helping goes.
`LogAlone` is what a thread does that is left alone.

**Audit-log verifier.** `Framing` covers the frame writer and the three frame readers, `LsnAccounting` the continuity
checks and the recovery recommendation, `SignatureChain` what is checked of each record, `LogVerifier` both commands
and `VerifierTheorems` the meaning of their verdicts. Digests and signatures are abstract; collision freedom and "only
signed digests verify" are premises of the theorems that need them.

**Emergency spill.** `SpillFormat` is the file format with an abstract cipher, `SpillTheorems` what recovery means in
terms of record ids, `SpillFile` the open file with its position, `EmergencyBuffer` the object with its counters and
remembered ids.

**Text.** `Unicode`, `UnicodeTheorems`, `Codec` and `DetectionTheorems` are the encodings and the input detection,
`Sanitizing` and `LogOutput` the line sanitizer and encoder. `Base32` is the decoder for one-time-password secrets.

**Configuration.** `Domain`, `DomainManager`, `DomainTheorems` and `DomainFields` are inheritance between logger
domains; `HotReload` and `EngineReload` are the reload transaction, `EpochMachine` and `EpochTheorems` the epoch
counter under concurrent reloads.

## Where the code differs from what is said about it

The models follow the code. Each point is proved by the member named.

- A ring of one slot is accepted but not exclusive: two threads can be inside one slot (`RingTheorems.SlotExclusion`,
  `RingRuns.ExclusiveExactlyFromTwoSlots`).
- `try_push` may answer "full" although the ring was never full during the call, because the consumer counter is
  loaded first (`RingRuns.FullCanBeStale`); the exact condition is `RingCalls.FullExactlyWhen`.
- Producers are announced as wait-free and are not. A push that has claimed a slot can take any number of steps without
  effect (`RingRuns.PushCanWait`), exactly while a consumer holds the slot's previous item
  (`RingCalls.PushWaitsExactlyWhile`). Nor is the claiming loop bounded: another thread that pushes and drains an item
  each round keeps a push in it for any number of rounds (`RingRuns.ContentionCanLast`), and so do spurious failures
  (`RingCalls.ClaimCanRetryForever`). What holds instead is that a CAS is lost exactly if it fails spuriously or another
  thread has won one meanwhile (`RingContention.PushCasWinsExactlyWhen`), so that the loop is lock-free
  (`RingContention.ClaimingIsLockFree`), that the waits are acyclic, and that all calls can return
  (`RingTheorems.WaitsForIsAcyclic`, `RingProgress.AllCallsCanReturn`).
- Two overlapping pool allocations can install a stale link (`PoolTheorems.OverlappingAllocsBreakTheList`); the list is
  intact exactly as long as every allocation wins on a fresh link (`PoolTheorems.ListIntactExactlyWhenLinksFresh`).
- The text and JSON verdicts differ on an empty log with a non-empty sidecar (`VerifierTheorems.VerdictsDiffer`,
  `VerifierTheorems.VerdictsAgreeExactlyWhen`).
- A sidecar entry without a record is meant to show that a record was deleted. An unsigned record with the same LSN is
  enough to hide that: a passing log can lack all signed records from any position on
  (`VerifierTheorems.DeletedTailPasses`). When a log passes is `VerifierTheorems.PassesExactlyWhenTailIsCovered`;
  without unsigned records it is complete (`VerifierTheorems.ChainedLogPassesExactlyWhenComplete`).
- A spilled record over 1 MiB is reported as written, but recovery stops in front of it and never reaches what is
  behind (`SpillFile.ScanStopsInside`, `SpillTheorems.ScanComplete`, `SpillTheorems.AcceptedSize`). The position is then
  eight bytes into its frame: what is spilled next is reported as written, replaces bytes there, and is never recovered
  (`SpillFile.WriteReplaces`, `SpillFile.NextFrameIsFoundExactlyWhen`). The size limit is 512 MiB in the code and 128 MB
  in its comment.
- Spilled records are deduplicated by the low half of the record id, where the comment speaks of the 128-bit id. A
  record whose id differs in the high half only is dropped (`SpillTheorems.SharedHalfIsDropped`); none is exactly when
  no two ids share their low half (`SpillTheorems.DedupLosesNothingExactlyWhen`), which for generated ids repeats every
  4,194,304 sequence numbers (`SpillTheorems.HalvesRepeatExactlyWhen`, `SpillTheorems.OnePeriodSharesNothing`).
- UTF-16 without a byte-order mark is never detected for ASCII text (`Codec.AsciiUtf16IsTakenForUtf8`); the exact
  condition is `Codec.Utf16DetectedExactlyWhen`.
- Adding a domain under an existing name can make inheritance cyclic, and `resolve` then does not return
  (`DomainTheorems.AddKeepsSoundExactlyWhen`, `DomainTheorems.ReaddingMakesCycle`).
- A non-downgradable item can be downgraded across a domain that does not state it
  (`DomainTheorems.EnforcedExactlyWithoutGaps`, `DomainTheorems.DowngradeThroughGap`).
- The `previous_epoch` of a reload ticket is announced as the epoch of the configuration active before. It is the
  ticket's own epoch less the number of epochs other threads take between the two accesses, and no epoch of a reload
  that had begun before (`EpochTheorems.PreviousEpochLagsByEpochsTaken`, `EpochTheorems.OneEpochTakenBetween`). A
  plugin state saved by a reload is newer than the reload's epoch (`HotReload.HotReloadManager.ReloadPlugin`).

## Model

| member | source | states |
|---|---|---|
| SlotIndex.IndexInjective | core/src/buffer/ring_buffer.rs:153-154 | sequence numbers less than a capacity apart use different slots |
| SlotIndex.MaskIsIndex | core/src/buffer/ring_buffer.rs:79-99 | for a power-of-two capacity, masking with capacity - 1 is the remainder by the capacity |
| RingInvariant.StepKeeps | core/src/buffer/ring_buffer.rs:128-326 | every atomic step of every thread keeps the invariant: counter window, life cycle of each slot, what each thread may rely on |
| RingInvariant.RunKeeps | core/src/buffer/ring_buffer.rs:128-326 | the invariant holds after every schedule of any number of threads |
| RingTheorems.DeliveredOnce | core/src/buffer/ring_buffer.rs:188-326 | callbacks see each item at most once, under the sequence number it was pushed with; a won number is undelivered only while its winner is before its callback |
| RingTheorems.ConsumedIsPrefixOfPushed | core/src/buffer/ring_buffer.rs:128-326 | items in order of winning consumer CAS are a prefix of the items in order of winning producer CAS, one callback each |
| RingTheorems.NothingLost | core/src/buffer/ring_buffer.rs:128-326 | every pushed item is delivered, in its consumer's hands, in its slot, or with its producer |
| RingTheorems.MoveRefinesQueue | core/src/buffer/ring_buffer.rs:128-326 | every step refines a bounded FIFO queue; each enqueue and dequeue is one winning CAS |
| RingTheorems.SlotExclusion | core/src/buffer/ring_buffer.rs:151-171 | with two or more slots no two threads are ever in the data-access window of one slot |
| RingTheorems.CallsReportTruthfully | core/src/buffer/ring_buffer.rs:225-257 | a consumer that wins its CAS finds an item, so the returned count is the number of wins |
| RingTheorems.ConsumerFirstNeverUnderflows | core/src/buffer/ring_buffer.rs:329-339 | a consumer load followed, after any interference, by a producer load gives a non-negative difference |
| RingTheorems.DrainStopsForAReason | core/src/buffer/ring_buffer.rs:191-198 | a drain that stops short saw a truly empty ring; a helper may also stop at an unpublished slot or a lost CAS |
| RingTheorems.WaitsForIsAcyclic | core/src/buffer/ring_buffer.rs:157-160 | a waiting thread waits for a thread of strictly lower rank with an unfinished call |
| RingTheorems.SomeThreadCanMove | core/src/buffer/ring_buffer.rs:128-326 | while a call is unfinished some thread has a step that is not a spin |
| RingTheorems.HelperIsWaitFree | core/src/buffer/ring_buffer.rs:273-326 | every own step of a helper brings it strictly closer to its return |
| RingCalls.PushKeepsItsItem | core/src/buffer/ring_buffer.rs:128-179 | over a whole call, in any schedule, a push is about the item it was called with: it hands that item back, or it is the item pushed under the reported number |
| RingCalls.DrainKeepsItsArguments | core/src/buffer/ring_buffer.rs:188-326 | over a whole call a drain keeps its mode, and its count is its won CASes and at most the batch it was called with |
| RingCalls.FullExactlyWhen | core/src/buffer/ring_buffer.rs:136-142 | for every schedule between the two loads: "full" is answered exactly if the items at the first load and those pushed since fill the ring; when a full ring is answered so, and exactly when a ring that is not full is |
| RingCalls.PushWaitsExactlyWhile | core/src/buffer/ring_buffer.rs:156-160 | a claimed slot is waited for if and only if the consumer of its previous item has won and not yet released it |
| RingCalls.WaitingPushIsStuck | core/src/buffer/ring_buffer.rs:157-160 | however many steps a waiting push takes by itself, nothing changes |
| RingCalls.ClaimCanRetryForever | core/src/buffer/ring_buffer.rs:129-177 | spurious failures alone can keep the claiming loop going for any number of rounds, on a ring with room |
| RingCalls.SnatchedDrainLeaves | core/src/buffer/ring_buffer.rs:203-223 | a drain whose slot was taken by a helper leaves its wait loop within two of its own steps, whatever the others do before each and however its CAS ends |
| RingContention.PushCasWinsExactlyWhen | core/src/buffer/ring_buffer.rs:144-176 | over every schedule since the load: the CAS of a push wins if and only if it does not fail spuriously and nobody has claimed a slot meanwhile; if it loses, nothing changes but the thread |
| RingContention.DrainCasWinsExactlyWhen | core/src/buffer/ring_buffer.rs:225-255 | the same for a drain and the slots won meanwhile; a helper that loses returns |
| RingContention.LossesAreOthersWins | core/src/buffer/ring_buffer.rs:144-176 | over every schedule and any number of calls, a thread loses at most as many CASes as fail spuriously and as others win on the same counter, and one more if its value is stale at the start |
| RingContention.RoundsAreLosses | core/src/buffer/ring_buffer.rs:129-177 | a claiming push has taken three steps for each CAS it lost, and those of its current round |
| RingContention.ClaimingIsLockFree | core/src/buffer/ring_buffer.rs:129-177 | each completed round of the claiming loop is owed to a spurious failure or to an item another thread has pushed |
| RingProgress.OwnStepDecreases | core/src/buffer/ring_buffer.rs:128-326 | every step that is not a spin wins a CAS its call has to win, or brings it nearer to one or to its return, unless its CAS fails spuriously; then the round starts over, or a helper returns, and nothing else changes |
| RingProgress.AllCallsCanReturn | core/src/buffer/ring_buffer.rs:128-326 | from every reachable state a schedule without new calls leads to a state in which every call has returned |
| RingRuns.OneSlotIsNotExclusive | core/src/buffer/ring_buffer.rs:79-99 | a concrete run on one slot in which a producer overwrites an item its consumer has won |
| RingRuns.ExclusiveExactlyFromTwoSlots | core/src/buffer/ring_buffer.rs:79-99 | slot exclusion holds in all reachable states if and only if there are at least two slots |
| RingRuns.FullCanBeStale | core/src/buffer/ring_buffer.rs:136-142 | a concrete run in which a push answers "full" on a ring that always had room |
| RingRuns.PushCanWait | core/src/buffer/ring_buffer.rs:157-160 | a reachable push that waits for its slot and makes no progress however many steps it takes |
| RingRuns.ContentionCanLast | core/src/buffer/ring_buffer.rs:129-177 | for every n, a reachable run on two slots without spurious failures in which a push loses n CASes to n items pushed by another thread and is still claiming |
| RingRuns.ProducerFirstCanUnderflow | core/src/buffer/ring_buffer.rs:130-137 | loading the producer counter first could underflow |
| RingBuffer.RingBuffer.constructor | core/src/buffer/ring_buffer.rs:79-99 | a fresh ring of the given power-of-two capacity is empty |
| RingBuffer.RingBuffer.TryPush | core/src/buffer/ring_buffer.rs:128-179 | appends the item to the queue, or returns it exactly when the queue is full |
| RingBuffer.RingBuffer.TakeOldest | core/src/buffer/ring_buffer.rs:225-247 | removes the oldest item and releases its slot |
| RingBuffer.RingBuffer.Drain | core/src/buffer/ring_buffer.rs:188-257 | hands over the oldest min(batch, length) items in order and keeps the rest |
| RingBuffer.RingBuffer.DrainHelping | core/src/buffer/ring_buffer.rs:273-326 | without interference the same as draining |
| RingBuffer.RingBuffer.Len | core/src/buffer/ring_buffer.rs:329-339 | the length of the queue |
| RingBuffer.RingBuffer.IsEmpty | core/src/buffer/ring_buffer.rs:342-344 | whether the queue is empty |
| PoolSteps.StepKeeps | core/src/buffer/object_pool.rs:61-123 | every step keeps the partition, provided at most one allocation window is open |
| PoolSteps.RunKeeps | core/src/buffer/object_pool.rs:61-123 | the invariant holds after every disciplined schedule, with any number of concurrent frees |
| PoolTheorems.PoolPartition | core/src/buffer/object_pool.rs:61-123 | the list from the head is duplicate-free and holds exactly the records in nobody's hands |
| PoolTheorems.AllocIsTruthful | core/src/buffer/object_pool.rs:61-81 | an allocation hands out a reset record nobody else has, and fails only on an empty list |
| PoolTheorems.AvailableIsExactWhenCounted | core/src/buffer/object_pool.rs:136-142 | with no call between its CAS and its count, `available` is the length of the free list |
| PoolTheorems.AllocCasIsSafeExactlyOnAFreshLink | core/src/buffer/object_pool.rs:68-79 | on an intact list, one winning allocation CAS leaves it intact if and only if the link it loaded is still the head's link |
| PoolTheorems.FreshMoveKeepsCore | core/src/buffer/object_pool.rs:61-123 | whatever overlaps, every move but a winning allocation CAS on a stale link keeps list, ownership and calls in order |
| PoolTheorems.ListIntactExactlyWhenLinksFresh | core/src/buffer/object_pool.rs:61-123 | over every schedule of any number of threads the list is intact all along if and only if every allocation CAS that wins finds its link fresh |
| PoolTheorems.DisciplinedIsFresh | core/src/buffer/object_pool.rs:61-81 | with one allocation window at a time every link is fresh |
| PoolTheorems.OverlappingAllocsBreakTheList | core/src/buffer/object_pool.rs:61-81 | a concrete run of two overlapping allocations after which an owned record is on the free list |
| RecordPool.RecordPool.constructor | core/src/buffer/object_pool.rs:38-55 | all records are on the free list, in index order |
| RecordPool.RecordPool.Alloc | core/src/buffer/object_pool.rs:61-81 | takes the top of the free list, which is blank, or reports that the list is empty |
| RecordPool.RecordPool.Free | core/src/buffer/object_pool.rs:91-123 | resets the record and puts it on top of the free list |
| RecordPool.RecordPool.Available | core/src/buffer/object_pool.rs:136-142 | the length of the free list |
| LogSteps.RunKeeps | core/src/ffi.rs:209-334 | the conservation invariant holds after every schedule of log calls, helpers and consumers |
| LogTheorems.RecordConservation | core/src/ffi.rs:209-334 | every pool record is at all times in exactly one of free list, one producer, ring, audit queue, one consumer |
| LogTheorems.ExitsSettleTheRecord | core/src/ffi.rs:221-333 | each exit of `dologger_log` has handed its record over once, freed it once, or never had one |
| LogTheorems.AcceptedIsAccountedFor | core/src/ffi.rs:278-322 | accepted records are queued, in a consumer's hands, or freed by a consumer; none is lost |
| LogTheorems.OwnerSeesRoom | core/src/lib.rs:305-310 | a producer holding a record sees room in a ring no smaller than the pool |
| LogTheorems.EqualSizesNeverFull | core/src/ffi.rs:303-333 | with equal sizes no exact push fails, no call helps, and none reports a full buffer |
| LogTheorems.SmallRingDrops | core/src/ffi.rs:303-333 | with a smaller ring, helping or not, there is a run with exact pushes and undisturbed helpers in which a call finds the ring full and drops its record |
| LogTheorems.NoDropsExactlyWhenRingHoldsPool | core/src/lib.rs:305-310 | for every configuration: without stale counters, no run drops a record if and only if the ring is at least as large as the pool |
| LogRouting.RunObserved | core/src/ffi.rs:209-334 | what the observer notes agrees with the state after every schedule: where each thread is in its request, the level of every record it holds, the traffic of both queues, and the statistics |
| LogOutcomes.AuditRecordsStayApart | core/src/ffi.rs:272-305 | in every run both queues are first-in first-out; no audit record enters the ordinary ring or is taken off it by a helper or consumer; only audit records enter the audit queue or are taken off it |
| LogOutcomes.ExitsFollowTheRequest | core/src/ffi.rs:218-333 | in every run: but for an exhausted pool a call ends with an encoding error exactly if a text is malformed; a missing or failing audit sink is only reported for audit records, a full buffer only for others |
| LogOutcomes.PossibleExits | core/src/ffi.rs:218-333 | for every configuration and request, exactly these exits occur in some run: each one listed is reached, and no other |
| LogOutcomes.HelpingIsBounded | core/src/lib.rs:176-233 | in every run a call helps exactly if its fill check saw nine tenths of the ring taken, helps at most 32 records away, and pushes a second time exactly if it helped any |
| LogOutcomes.StatisticsCountExits | core/src/ffi.rs:221-333 | accepted, dropped and errors are the numbers of calls that ended so |
| LogAlone.FullRingIsRelieved | core/src/lib.rs:176-233 | with helping, a call that finds the ring full and is left alone frees the 32 oldest records, or all if there are fewer, puts its own behind the rest and succeeds |
| LogAlone.ConsumerTakesOldest | core/src/pipeline/scheduler.rs:484-519 | a consumer left alone takes the oldest records, as many as its batch allows, and frees each |
| LittleEndian.BytesRoundTrip | cli/src/commands/record.rs:176-177 | reading back the little-endian bytes of a number that fits returns it |
| LittleEndian.Weights | cli/src/commands/record.rs:176-177 | the first byte is the lowest: what each of two, four or eight bytes contributes |
| Framing.WriteFrames | cli/src/commands/record.rs:176-180 | the file is the concatenation of length-prefixed payloads, and the byte count is its length |
| Framing.ScanTruncated | cli/src/commands/record.rs:349-433 | scanning a truncated stream behind any prefix sees exactly the complete frames |
| Framing.FramingRoundTrip | cli/src/commands/verify.rs:136-182 | reading back returns the payloads written; any truncation returns exactly the complete ones |
| Framing.FrameLayout | cli/src/commands/record.rs:176-180 | a frame is four length bytes, lowest first, and the payload, with the next frame behind it |
| Framing.ZeroLengthIsSkipped | cli/src/commands/verify.rs:142-150 | four zero bytes in front of any data change nothing that is read |
| Framing.SlicesInRange | cli/src/commands/record.rs:349-433 | on every byte string the visited ranges lie inside the data, in order and disjoint |
| Framing.ReadSifFile | cli/src/commands/verify.rs:136-182 | an error exactly on a length over 16 MiB, at its position; otherwise the decodable payloads in order |
| Framing.ReplayText | cli/src/commands/record.rs:349-433 | terminates and visits the ranges of the scan, showing the decodable payloads |
| Framing.ReplayJson | cli/src/commands/record.rs:466-493 | terminates and visits the same ranges as the text replay |
| LsnAccounting.CheckContinuity | cli/src/commands/verify.rs:409-441 | counts valid and broken links and lists the gaps |
| LsnAccounting.CountContinuity | cli/src/commands/verify.rs:1234-1250 | the JSON loops count the same gaps, broken links and missing LSNs |
| LsnAccounting.PassesExactlyWhenConsecutive | cli/src/commands/verify.rs:414-441 | no broken link and no gap if and only if the sorted LSNs are one consecutive run |
| LsnAccounting.GapsAreDisjoint | cli/src/commands/verify.rs:431-440 | gaps are non-empty, ordered, disjoint and below the last LSN |
| LsnAccounting.GapsAreExactlyTheAbsent | cli/src/commands/verify.rs:431-440 | an LSN is in a reported gap if and only if it is absent between the first and the last |
| LsnAccounting.MissingAndDistinctFillTheSpan | cli/src/commands/verify.rs:1141-1146 | missing plus distinct LSNs equal last - first + 1 |
| LsnAccounting.ContinuousLast | cli/src/commands/verify.rs:1175-1185 | the recommended LSN ends a maximal consecutive prefix |
| LsnAccounting.MaximalRunIsLongest | cli/src/commands/verify.rs:1175-1185 | that prefix is the longest consecutive one |
| LsnAccounting.HealthyExactlyWhenRunReachesTheEnd | cli/src/commands/verify.rs:1252-1262 | the log is healthy if and only if the recommendation is the last LSN |
| SignatureChain.JudgedExactly | cli/src/commands/verify.rs:457-500 | with or without a key: a signed record is valid exactly if its contents, its hash, its entry and, given a key, its signature behind the last signed record in front of it agree |
| SignatureChain.CountsAreNumbers | cli/src/commands/verify.rs:448-500 | the three counts are the numbers of signed records that hold, do not hold, and have no entry |
| LogVerifier.SortSorts | cli/src/commands/verify.rs:402-404 | sorting by LSN keeps the records and orders them |
| LogVerifier.CheckSignatures | cli/src/commands/verify.rs:448-500 | the counts of valid, tampered and missing signatures are the numbers of signed records that hold, that have an entry and do not hold, and that have none, with or without a key |
| LogVerifier.CountOrphans | cli/src/commands/verify.rs:501-508 | counts the sidecar entries without a record |
| LogVerifier.VerifyLog | cli/src/commands/verify.rs:397-558 | the report of the text command, each count as the number of such records; it succeeds exactly on an empty or a passing log |
| LogVerifier.VerifyLogJson | cli/src/commands/verify.rs:604-662 | the JSON command passes exactly on a passing log |
| VerifierTheorems.PassesExactlyWhenAllHold | cli/src/commands/verify.rs:402-558 | with or without a key and sidecar: a log passes if and only if its LSNs are consecutive, every signed record has an entry and agrees with it in contents, hash and (given a key) signature, and every entry has a record |
| VerifierTheorems.VerdictsAgreeExactlyWhen | cli/src/commands/verify.rs:576-683 | both commands agree if and only if the log is non-empty or the sidecar absent or empty |
| VerifierTheorems.VerdictsDiffer | cli/src/commands/verify.rs:576-683 | an empty log with one sidecar entry, which the text command accepts and the JSON command fails |
| VerifierTheorems.PrevHashInjective | cli/src/commands/verify.rs:204-217 | the derived predecessor hash identifies the position in the signed sequence, genesis included |
| VerifierTheorems.NextIsSigned | cli/src/commands/verify.rs:196-231 | a record that verifies behind the first m signed records is the next signed record |
| VerifierTheorems.PassingLogIsASignedPrefix | cli/src/commands/verify.rs:402-558 | soundness: the in-chain records of a passing log are exactly a prefix of the signed sequence |
| VerifierTheorems.HonestLogPasses | cli/src/commands/verify.rs:402-558 | completeness: a gap-free log whose in-chain records are a permutation of the signed ones passes with the signer's sidecar |
| VerifierTheorems.PassesExactlyWhenTailIsCovered | cli/src/commands/verify.rs:402-558 | with the signer's full sidecar a log passes if and only if its LSNs are consecutive, its chain is a prefix of the signed records, and each signed LSN behind it is carried by some record |
| VerifierTheorems.DeletedTailPasses | cli/src/commands/verify.rs:501-508 | for every signed sequence and position: with the records from there on replaced by unsigned ones of the same LSN the log passes, and its chain ends there |
| VerifierTheorems.ChainedLogPassesExactlyWhenComplete | cli/src/commands/verify.rs:402-558 | a log without unsigned records passes with the full sidecar if and only if, sorted, it is the signed sequence |
| SpillTheorems.IdOfRecordBytes | core/src/buffer/emergency_buffer.rs:492-539 | the dedup key read back from a serialized record is the low half of its id |
| SpillTheorems.RecordLayout | core/src/buffer/emergency_buffer.rs:492-526 | every field of a serialized record by its offset, lowest byte first; the length field of a long message is capped, the message is whole |
| SpillTheorems.ExtractedExactlyWhen | core/src/buffer/emergency_buffer.rs:529-539 | on any bytes: the dedup key is bytes 12 to 20 behind the magic, and there is none otherwise |
| SpillTheorems.OpenedExactlyWhen | core/src/buffer/emergency_buffer.rs:402-433 | on any payload: it is taken as it is unless it starts with 0xFF; then it needs 29 bytes, a key, and to decrypt under the nonce in front |
| SpillTheorems.FrameBytes | core/src/buffer/emergency_buffer.rs:339-347 | a frame is eight length bytes, lowest first, and the payload |
| SpillTheorems.OpenedPayload | core/src/buffer/emergency_buffer.rs:312-337 | a payload, sealed or plain, opens to the record's bytes under the session key |
| SpillTheorems.AcceptedSize | core/src/buffer/emergency_buffer.rs:392-394 | the exact message and tag size up to which recovery accepts a record's frame |
| SpillTheorems.ScanTruncated | core/src/buffer/emergency_buffer.rs:384-400 | a truncated file yields exactly its complete frames, up to the first one over 1 MiB |
| SpillTheorems.ScanComplete | core/src/buffer/emergency_buffer.rs:384-400 | the whole file is recovered if and only if every frame has 1 byte to 1 MiB; the position then is the end |
| SpillTheorems.RecoverFirstHalves | core/src/buffer/emergency_buffer.rs:402-453 | recovery delivers exactly the first record with each low half of an id, in push order |
| SpillTheorems.HalvesAreDistinct | core/src/buffer/emergency_buffer.rs:436-449 | no low half is delivered twice, none seen before, and every other one is |
| SpillTheorems.RepeatDeliversNoId | core/src/buffer/emergency_buffer.rs:436-453 | on any file, a repeat delivers nothing but payloads without an id |
| SpillTheorems.RepeatDeliversNothing | core/src/buffer/emergency_buffer.rs:371-460 | a repeat over spilled records delivers nothing |
| SpillTheorems.FirstsAreDistinct | core/src/buffer/emergency_buffer.rs:436-449 | among the first records of each id no id occurs twice, none recovered earlier, and every other one does |
| SpillTheorems.DedupLosesNothingExactlyWhen | core/src/buffer/emergency_buffer.rs:435-449 | deduplication keeps the first record of every id if and only if no two ids share their low half, and fewer otherwise |
| SpillTheorems.SharedHalfIsDropped | core/src/buffer/emergency_buffer.rs:529-539 | of two records whose ids differ in the high half only, the second is not delivered |
| SpillTheorems.HalvesRepeatExactlyWhen | core/src/sys/time.rs:191-222 | two ids of one source share their low half if and only if their sequence numbers agree modulo 4,194,304 |
| SpillTheorems.OnePeriodSharesNothing | core/src/sys/time.rs:191-222 | records drawn within one period of the sequence share no low half, so none is lost |
| SpillTheorems.RecoverFirsts | core/src/buffer/emergency_buffer.rs:402-453 | recovery delivers the first record of each id, in push order, if and only if no two ids share their low half |
| SpillTheorems.SpillRecovery | core/src/buffer/emergency_buffer.rs:371-460 | the same from a file cut anywhere, for the records whose frames are complete |
| SpillFile.RefusesExactlyWhenOversized | core/src/buffer/emergency_buffer.rs:384-400 | over written frames, recovery stops at a refused length, and short of the end, if and only if some frame is over 1 MiB |
| SpillFile.ScanStopsInside | core/src/buffer/emergency_buffer.rs:392-394 | at a frame over the limit recovery yields what is in front of it and leaves the position eight bytes into it |
| SpillFile.WriteReplaces | core/src/buffer/emergency_buffer.rs:339-345 | a frame written at a position replaces as many bytes as it has, and nothing else |
| SpillFile.WrittenBehindRefusalIsHidden | core/src/buffer/emergency_buffer.rs:339-400 | on any file where recovery stopped at a refused length, a frame written then changes nothing for any later recovery |
| SpillFile.NextFrameIsFoundExactlyWhen | core/src/buffer/emergency_buffer.rs:339-400 | a frame written after a recovery is found by the next one, behind the others, if and only if no frame is over the limit |
| EmergencyBuffer.EmergencyBuffer.constructor | core/src/buffer/emergency_buffer.rs:132-150 | inactive, no file, nothing remembered, default limits |
| EmergencyBuffer.EmergencyBuffer.WithLimits | core/src/buffer/emergency_buffer.rs:185-203 | the same with the given limits |
| EmergencyBuffer.EmergencyBuffer.EnableAuditEncryption | core/src/buffer/emergency_buffer.rs:159-169 | installs a new session key |
| EmergencyBuffer.EmergencyBuffer.Activate | core/src/buffer/emergency_buffer.rs:209-255 | a fresh empty file and zeroed counts, unless already active or the file cannot be opened |
| EmergencyBuffer.EmergencyBuffer.Deactivate | core/src/buffer/emergency_buffer.rs:261-282 | the file is gone and its counts with it |
| EmergencyBuffer.EmergencyBuffer.Push | core/src/buffer/emergency_buffer.rs:288-361 | appends one frame and counts it exactly when active, within limits, sealed and open; counts match frames and file length; audit records are in clear exactly without encryption |
| EmergencyBuffer.EmergencyBuffer.Seal | core/src/buffer/emergency_buffer.rs:307-337 | the payload starts with 0xFF exactly for audit records under encryption; then the nonce and the sealed bytes follow, otherwise it is the record in clear |
| EmergencyBuffer.EmergencyBuffer.Write | core/src/buffer/emergency_buffer.rs:339-358 | writes length prefix and payload at the file position and counts one frame |
| EmergencyBuffer.ReadFrame | core/src/buffer/emergency_buffer.rs:384-400 | reads the next frame, or ends where the scan of the file ends |
| EmergencyBuffer.Remember | core/src/buffer/emergency_buffer.rs:436-451 | a duplicate exactly if the id is known; otherwise it is remembered, and beyond the limit half of the ids go |
| EmergencyBuffer.ForgetHalf | core/src/buffer/emergency_buffer.rs:443-448 | removes exactly half of the ids |
| EmergencyBuffer.EmergencyBuffer.ReadBack | core/src/buffer/emergency_buffer.rs:381-456 | the recovery loop ends where the scan ends and, unless ids had to be forgotten, delivers and remembers what recovery of the frames gives |
| EmergencyBuffer.EmergencyBuffer.DrainAll | core/src/buffer/emergency_buffer.rs:371-460 | the same from the start of the file; the next push then goes behind the last frame if and only if no frame is over the limit |
| EmergencyBuffer.EmergencyBuffer.ClearDedup | core/src/buffer/emergency_buffer.rs:480-482 | nothing is remembered |
| EmergencyBuffer.RecoverSpill | core/src/buffer/emergency_buffer.rs:371-460 | after any pushes since activation, the first record of each id in push order if and only if no two ids share their low half, and appending goes on behind |
| UnicodeTheorems.Utf8RoundTrip | core/src/codec/mod.rs:55-74 | decoding the UTF-8 encoding of a text returns it (section 3 of RFC 3629) |
| UnicodeTheorems.Utf8Canonical | core/src/codec/mod.rs:65-69 | bytes that decode are the encoding of what they decode to: no overlong form, no surrogate |
| UnicodeTheorems.Utf16RoundTrip | core/src/codec/mod.rs:55-62 | decoding the UTF-16 units of a text returns it (sections 2.1 and 2.2 of RFC 2781) |
| UnicodeTheorems.Utf16Canonical | core/src/codec/mod.rs:194-209 | units that decode are the encoding of what they decode to |
| UnicodeTheorems.Utf8Layout | core/src/codec/mod.rs:55-62 | the number of bytes of a character, the range of each, and the value they make up (section 3 of RFC 3629) |
| UnicodeTheorems.Utf16Layout | core/src/codec/mod.rs:55-62 | a character is its own unit or a high and a low surrogate of ten bits each (section 2.1 of RFC 2781) |
| Codec.CodecRoundTrip | core/src/codec/mod.rs:55-74 | decode(encode(t, e), e) is t for every text in UTF-8 and both UTF-16 orders |
| Codec.CodecCanonical | core/src/codec/mod.rs:65-74 | bytes accepted by decode are what encode produces |
| Codec.EncodedByName | core/src/codec/mod.rs:55-62 | each encoding by its own rule: UTF-8, the low byte of each unit first, the high byte first, or the code page if its number is one |
| Codec.DetectInput | core/src/codec/mod.rs:131-175 | the loop over candidates detects as specified |
| Codec.DetectedDecodes | core/src/codec/mod.rs:131-175 | a detected encoding decodes the bytes; behind a mark the text starts with U+FEFF |
| Codec.PageDetectedExactlyWhenUnique | core/src/codec/mod.rs:159-174 | a code page is detected if and only if exactly one listed position decodes; a page listed twice is ambiguous |
| DetectionTheorems.DetectedFromBytes | core/src/codec/mod.rs:131-192 | the exact bytes for which the answer is an invalid mark, UTF-8, or either UTF-16 order, and that two plausible orders are unknown |
| DetectionTheorems.DetectedFromPages | core/src/codec/mod.rs:159-174 | otherwise the answer is the one candidate that decodes the bytes, unknown if there is none, and all of them in order if there are several |
| DetectionTheorems.PositionsAreUnique | core/src/codec/mod.rs:159-174 | which candidates those are, and their order, is determined |
| Codec.Utf8OutputIsDetected | core/src/codec/mod.rs:143-145 | UTF-8 output is always detected as UTF-8 |
| Codec.MarkedUtf16IsDetected | core/src/codec/mod.rs:135-142 | UTF-16 behind a byte-order mark is detected in its order |
| Codec.AsciiUtf16IsTakenForUtf8 | core/src/codec/mod.rs:143-145 | unmarked UTF-16 of ASCII text is detected as UTF-8 and decodes to another text unless empty |
| Codec.Utf16DetectedExactlyWhen | core/src/codec/mod.rs:131-192 | the condition on a text under which its UTF-16 output is detected in its own order |
| Sanitizing.Sanitize | core/src/codec/log_output.rs:216-256 | the loops return the lines of the text with NULs replaced, joined by the separator, or fail exactly on a rejected NUL |
| Sanitizing.ReplacePass | core/src/codec/log_output.rs:217-239 | the character loop fails exactly on a rejected NUL, and an unflagged text is unchanged |
| Sanitizing.LinesKept | core/src/codec/log_output.rs:216-256 | sanitizing keeps the line structure |
| Sanitizing.LastEndingWins | core/src/codec/log_output.rs:216-256 | sanitizing is idempotent; LF after CRLF equals LF alone |
| Sanitizing.SanitizedSeparators | core/src/codec/log_output.rs:231-249 | Lf leaves no CR; with CrLf every LF follows a CR and every CR precedes an LF |
| Sanitizing.UnchangedExactlyWhen | core/src/codec/log_output.rs:250-255 | a text is unchanged if and only if it has no NUL and only the policy's separators |
| Sanitizing.NulByNul | core/src/codec/log_output.rs:220-229 | without normalization each character is treated by itself: NUL becomes a backslash and the digit zero, or nothing, and any other stays |
| Sanitizing.LineByLine | core/src/codec/log_output.rs:231-249 | with normalization LF, CR LF and a lone CR each become the chosen separator, the line in front keeps its characters, and the rest is treated the same way |
| LogOutput.TextOutputEncoder.constructor | core/src/codec/log_output.rs:135-145 | an encoder starts with an empty buffer |
| LogOutput.TextOutputEncoder.New | core/src/codec/log_output.rs:66-145 | an encoder exists exactly for limits from 1 byte to 64 MiB |
| LogOutput.TextOutputEncoder.Encode | core/src/codec/log_output.rs:158-192 | leaves the bounded encoded line in the buffer, or an empty buffer and the error |
| LogOutput.TextOutputEncoder.EncodeInto | core/src/codec/log_output.rs:200-208 | appends the line to the caller's bytes, which an error leaves alone |
| LogOutput.TextOutputEncoder.Clear | core/src/codec/log_output.rs:211-213 | the buffer is empty |
| LogOutput.LineDecodes | core/src/codec/log_output.rs:158-192 | in a Unicode encoding the bytes decode to the sanitized, terminated text within the limit; the exact condition of failure |
| LogOutput.TerminatedOnce | core/src/codec/log_output.rs:168-178 | a terminated line stays as it is, and without appending nothing is added |
| LogOutput.LineReported | core/src/codec/log_output.rs:158-192 | the reported length is that of the bytes, and a line is reported as normalized exactly if it has a NUL or a foreign separator |
| LogOutput.FallbackOnlyOnFailure | core/src/codec/policy.rs:93-103 | the bytes are those of the chosen encoding; only if it fails and the fallback is allowed they are the UTF-8 of the text |
| LogOutput.FallbackNeverFails | core/src/codec/policy.rs:93-103 | with the fallback a line fails for a rejected NUL or its length, never in the conversion |
| Domain.MergeDomains | core/src/config/domain.rs:180-230 | the child's stated values over the parent's, sinks by policy, `inherits` and policy of the root |
| Domain.MergeSinks | core/src/config/domain.rs:212-227 | the sinks of the three policies |
| Domain.UniqueMerges | core/src/config/domain.rs:219-226 | unique appending keeps the parent's list in front, adds exactly the child's new items and makes no duplicate |
| Domain.CheckNonDowngradable | core/src/config/domain.rs:234-271 | reports exactly the items the child would loosen, field by field |
| DomainManager.DomainManager.constructor | core/src/config/domain.rs:89-113 | the default domain alone |
| DomainManager.DomainManager.AddDomain | core/src/config/domain.rs:116-144 | stores the domain if its parent exists and no item is loosened, otherwise changes nothing and says why |
| DomainManager.DomainManager.Resolve | core/src/config/domain.rs:147-172 | the merge of the whole chain, or the missing domain |
| DomainManager.MergeChain | core/src/config/domain.rs:165-171 | merges the reversed chain from the root to the child |
| DomainTheorems.ResolveIsMergeOfResolvedParent | core/src/config/domain.rs:147-172 | resolving a child is merging it into its resolved parent |
| DomainTheorems.CycleNeverEnds | core/src/config/domain.rs:154-163 | on a cycle the chain loop does not terminate |
| DomainTheorems.AddKeepsSoundExactlyWhen | core/src/config/domain.rs:116-144 | an accepted domain keeps inheritance acyclic if and only if its name is not on its parent's chain |
| DomainTheorems.ReplaceKeepsTightExactlyWhen | core/src/config/domain.rs:126-142 | replacing a domain keeps children from loosening it if and only if each child passes the check against it |
| DomainTheorems.BuiltIsSound | core/src/config/domain.rs:89-144 | a manager built by adding each name once is acyclic and resolves every domain, and no child loosens its parent |
| DomainTheorems.NearestWins | core/src/config/domain.rs:147-210 | an item resolves to what the nearest domain stating it says |
| DomainFields.NearestFieldByField | core/src/config/domain.rs:147-210 | along any chain, level, performance profile and each of the six items resolve to what the nearest domain stating them says |
| DomainFields.NameAndRoot | core/src/config/domain.rs:180-182 | a resolved domain has its own name and the inheritance and merge policy of its root |
| DomainFields.SinksByPolicy | core/src/config/domain.rs:212-227 | the child's sinks replace, follow, or are added where new, once and in their order, to those of its resolved parent |
| DomainFields.SinksAlongTheChain | core/src/config/domain.rs:147-227 | a sink is in the resolved list if and only if some domain lists it below which no domain replaces |
| DomainTheorems.StepLoosensExactlyAtGap | core/src/config/domain.rs:234-271 | one step of a chain loosens an item if and only if the domain states false, its parent nothing, and true comes from further up |
| DomainTheorems.EnforcedExactlyWithoutGaps | core/src/config/domain.rs:178-271 | non-downgradable items are enforced along a chain if and only if it has no such gap |
| DomainTheorems.StatedItemIsNeverLoosened | core/src/config/domain.rs:178-271 | an item stated on every domain of the chain resolves to true if any has it true |
| DomainTheorems.DowngradeThroughGap | core/src/config/domain.rs:234-271 | three accepted domains, the last of which drops signing |
| DomainTheorems.ReaddingMakesCycle | core/src/config/domain.rs:116-144 | re-adding the default domain as its own child is accepted and makes it unresolvable |
| DomainTheorems.MergeKeepsUniqueExactlyWhen | core/src/config/domain.rs:212-227 | the exact condition under which each policy keeps sinks duplicate-free |
| DomainTheorems.ResolvedSinksAreUnique | core/src/config/domain.rs:147-227 | without Append resolved sinks are duplicate-free |
| HotReload.HotReloadManager.constructor | core/src/config/hot_reload.rs:72-78 | the first epoch is 1 and nothing is saved or recorded |
| HotReload.HotReloadManager.NextEpoch | core/src/config/hot_reload.rs:81-83 | returns the epoch before the increment |
| HotReload.HotReloadManager.BeginConfigReload | core/src/config/hot_reload.rs:276-283 | for calls that do not overlap, ticket epochs strictly increase and both epochs of a ticket are equal |
| EpochTheorems.TicketEpochsIncrease | core/src/config/hot_reload.rs:276-283 | ticket epochs strictly increase in every interleaving of reloads and other operations that take epochs |
| EpochTheorems.PreviousEpochLagsByEpochsTaken | core/src/config/hot_reload.rs:276-283 | `previous_epoch` is the ticket's epoch less the epochs taken between its two accesses, equal exactly if none was, and later than every reload begun before |
| EpochTheorems.OneEpochTakenBetween | core/src/config/hot_reload.rs:276-283 | a run with one epoch taken between the two accesses, whose ticket has epoch 2 and `previous_epoch` 1 |
| HotReload.HotReloadManager.CompleteConfigReload | core/src/config/hot_reload.rs:286-303 | records the outcome of the ticket once |
| HotReload.HotReloadManager.RecordReload | core/src/config/hot_reload.rs:164-171 | the history is the last hundred results recorded |
| HotReload.HotReloadManager.SerializeState | core/src/config/hot_reload.rs:94-118 | saves the state under the epoch it takes |
| HotReload.LatestLimitWithholdsNothing | core/src/config/hot_reload.rs:128-161 | under the latest epoch as limit a saved state is only withheld for its format: none is newer |
| HotReload.HotReloadManager.ReloadPlugin | core/src/config/hot_reload.rs:180-227 | when a reload succeeds, and that the newer-epoch check never rejects the saved state in a run of complete calls |
| HotReload.HotReloadManager.Rollback | core/src/config/hot_reload.rs:230-249 | drops the saved state and reports its version |
| HotReload.HotReloadManager.ClearState | core/src/config/hot_reload.rs:252-254 | drops the saved state |
| EngineReload.Retain | core/src/lib.rs:610-640 | the nineteen structural fields of the running config are kept; a restart is required exactly if one differs |
| EngineReload.RetainField | core/src/lib.rs:614-621 | the running value is kept, and a restart is required if the incoming one differs |
| EngineReload.ParseCanonicalIsPosition | core/src/record/mod.rs:111-125 | for every string: a level exactly if it is one of the seven names, and then the one whose discriminant is the position of the name |
| EngineReload.ReloadFieldByField | core/src/lib.rs:610-691 | what a reload changes: level, sinks and path of an acceptable request; the nineteen other fields never |
| EngineReload.OutcomeExactly | core/src/lib.rs:585-711 | the exact condition of each of the four results |
| EngineReload.Engine.constructor | core/src/lib.rs:300-335 | the active sink and both levels follow the config at start |
| EngineReload.Engine.Init | core/src/lib.rs:300-335 | fails on an invalid level, rejected sinks or a failing open |
| EngineReload.Engine.Apply | core/src/lib.rs:642-706 | swaps sink, config and level together, or changes none of them |
| EngineReload.Engine.ReloadConfig | core/src/lib.rs:585-711 | keeps the invariant of the engine, whose minimum level is the one named by its config; the exact result code; every ticket begun is completed once |
| EngineReload.OnlyTheLastAppliedRequestMatters | core/src/lib.rs:585-711 | after any run the config is the one at start with level, sinks and path of the last applied request |
| EngineReload.OutcomeIsIndependentOfHistory | core/src/lib.rs:585-711 | what a request returns does not depend on the requests before it |
| EngineReload.OkExactlyWhenInFullEffect | core/src/lib.rs:585-711 | success is returned if and only if the running config equals the requested one |
| Base32.Base32Decode | cli/src/commands/plugin.rs:687-710 | the loop with the unmasked 32-bit accumulator computes the groups of eight of the letters' bits, or the first bad byte |
| Base32.ShiftedBits | cli/src/commands/plugin.rs:702-702 | bits shed from the accumulator never reach the bits still to be output |
| Base32.DecodeUndoesEncode | cli/src/commands/plugin.rs:687-710 | decoding the unpadded encoding (section 6 of RFC 4648) of any byte string returns it |
| Base32.WhitespaceIsIgnored | cli/src/commands/plugin.rs:689-693 | inserting any of the whitespace code points anywhere changes nothing |
| Base32.CaseIsIgnored | cli/src/commands/plugin.rs:689-693 | texts that differ only in A to Z against a to z decode alike |
| Base32.DecodesExactlyWhen | cli/src/commands/plugin.rs:697-701 | decoding succeeds if and only if every character is a whitespace code point or in the alphabet, by explicit code points |
| Base32.ErrorIsFirstBad | cli/src/commands/plugin.rs:694-701 | the error is the first UTF-8 byte of the first character outside whitespace and alphabet, whatever follows |
| Base32.DecodedIsTheNumber | cli/src/commands/plugin.rs:694-710 | the bytes, read as one number, are the number the letters make in base 32 without its last bits, fewer than eight |

## Left out

- Memory ordering: every atomic access is one sequentially consistent step; cache alignment, spinning and yielding
  are not modelled.
- Counters and report totals are unbounded; the wrap-around of 64-bit counters and 32-bit report fields is not modelled.
- RingBuffer.RingBuffer.TryPush: the object's compare-and-swap always wins, because its calls do not overlap; the
  overlapping calls are the step machine's.
- RecordPool.RecordPool.Alloc: likewise without overlap; a record is an index, and the end marker of the list is `None`.
- PoolTheorems.PoolPartition: assumes at most one open allocation window; what holds under any overlap is
  `PoolTheorems.ListIntactExactlyWhenLinksFresh`.
- LogTheorems.RecordConservation: pool, ring and audit-queue operations are atomic here; the contents of records, rate
  limiting, sinks and statistics other than accepted, errors and dropped are not modelled.
- LogTheorems.EqualSizesNeverFull: for pushes whose "full" answer is exact; a stale one is possible
  (`RingRuns.FullCanBeStale`).
- LogOutcomes.PossibleExits: counts a "full" answer from a stale counter as possible; without such answers
  `LogTheorems.NoDropsExactlyWhenRingHoldsPool` decides about `BufferFull`. The call with a null argument is not listed.
- `fill_level` is represented by comparing nine tenths of the capacity, without floating point.
- File errors, permissions, the parsing of SIF payloads and of the signature sidecar, anchors, and all printing.
- AES-GCM, SHA-256, Ed25519 and HMAC: abstract functions with the properties stated as premises.
- EmergencyBuffer.EmergencyBuffer.DrainAll: when more than 1,000,000 ids are remembered, half of them, which ones
  being unspecified, are forgotten; what recovery then delivers is not stated. Write errors are not modelled.
- SpillTheorems.OnePeriodSharesNothing: about the ids of one time source; the clock and the node fingerprint are
  parameters, and blocking until the next millisecond is not modelled.
- Windows code-page conversions: an abstract partial function. Locale detection and encoding policy selection.
- Codec.PageDetectedExactlyWhenUnique: says nothing about which code pages a platform supports.
- DomainManager.DomainManager.Resolve: takes as precondition that climbing the inheritance ends, because the call
  does not return otherwise (`DomainTheorems.CycleNeverEnds`). Diagnostic messages are reduced to the item named.
- EngineReload.Engine.ReloadConfig: the control-plane level callback and `dologger_config_load_from_string` write the
  level or the config on their own and are outside this run; closing the old sink is assumed to be attempted once.
- HotReload.HotReloadManager.BeginConfigReload: calls do not overlap, unlike those of `EpochMachine`; error texts
  are reduced to their presence.
- Base32.Base32Decode: the time-based code computed from the secret.
- Backpressure thresholds, profiles, plugin loading, the command line, language adapters and the web site.
