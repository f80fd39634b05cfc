# Privacy SDK: a verified model

This project models four connected parts of the SDK in Dafny and proves what they promise. Verify with
`dafny verify dfyconfig.toml`.

**Relay runtime** (`RelayTypes`, `RelayProtocol`, `RelayRuntime`, `RelayRecovery`, `RelayConcurrent`). The runtime is
a class over a durable store. Every port may answer, throw, or be cut by a crash, and the relayer answers anything;
these choices are left open. A ghost history records every save, wallet call, receipt, effect, relayer answer, wait and crash.
`RelayProtocol` says which event may follow which history and proves theorems about all legal histories of any length;
every method of `RelayRuntime` and `RelayRecovery` is proved to write only legal histories, and states the exact record
it leaves: the fields of records and results are spelled out by reference predicates of their own (`ShowsPoll`,
`ShowsAdmission`, `Tells` and others) that the runtime's functions are proved to meet. A call that fails is explained by
the last event of the history, a crash or a port that threw, unless its own checks refused it. Hypotheses: each (wallet,
id) is submitted once, the store does not fail, and public calls do not overlap.
Overlapping completions are the subject of `RelayConcurrent`, a state machine over arbitrary interleavings at awaits.

**Merkle leaf cache and tree sessions** (`MerkleTree`, `TreeSession`, `LeafReader`, `MerkleCache`). The chain is a
growing list of leaves that may grow before any read, and nodes may answer an older count or incomplete ledger
entries; what was answered and asked for is recorded. The tree library is abstract: a live handle denotes the leaves it
holds and the leaves its nodes were computed from, and is sound when the two agree.

**State tree and private-record ledger** (`StateTree`, `StateOperations`, `PrivateRecords`, `RecordStore`,
`PrivateLedger`, `LedgerBatches`, `AssetRows`, `Sorting`). Nested records with path operations, batches over a live
tree, and the in-memory adapter; on top of it the raw stored array of notes, its reads (normalise and deduplicate) and
its writes (push, replace, filter then push), the storage commit after a submission, balances and per-asset rows.
`LedgerBatches` ties the two levels together. What an operation does is told by reading the trees before and after it
(`Does`), and when it fails by what is found at its path (`Fails`).

**Spend planning and signal layout** (`RecordSelection`, `SpendSlots`, `SpendPlan`, `SignalCodec`). Note selection,
the division of inputs into recipient, change and fee, circuit choice, padding and hints, and the packed public
signals with their offset arithmetic and 32-byte field elements.

## What the proofs found

- A direct receipt can be repeated without any crash: when finalize throws after the wallet returned a receipt, nothing
  is stored and the fallback is still offered. `ReceiptsAreAccountedFor` is the exact ledger,
  `AtMostOneReceiptExactly` the condition for a single receipt, and `BoundIsReached` shows that any number can occur.
- `completeSucceededOperation` reads the store before it looks at the in-flight map, so two overlapping calls can run
  every missing effect twice (`OverlappingReadsRunTwice`). An entry is safe exactly when it joins or what it read still
  shows the stored flags (`FreshEntryIsExactlySafe`); with read and look as one step it always is (`AtomicReadsRunOnce`).
- However completions overlap, and even when effects repeat, all calls that return do so with one and the same record
  (`AllReturnOneRecord`).
- Extending a snapshot with cached nodes but no cached commitments hashes the leaves twice, and a count that lags behind
  the cache hashes other leaves than the tree holds; `ExtensionIsWhole` is the exact condition.
- Session keys of snapshots without a root name only size, first and last leaf (`KeysEqualExactly`), so two pools can
  share one, and then a state can get a witness over the other pool's leaves (`WitnessOfAnotherPool`). A witness is right
  exactly when the index leads the state's key to a pool whose leaves the state begins, or nowhere
  (`WithdrawMerkleWitnessFromTree`).
- A sync whose cache write fails has already moved the sessions. The cache stays as it was and the sessions stay sound.
- An array filter with an unregistered schema key creates a missing array before it throws
  (`ThrowingLeavesATraceExactly`). The in-memory adapter discards the draft, so nothing of it survives there.
- An upsert filters by id while reads deduplicate by commitment key. With one stored item per key the two agree exactly
  when stored records that share a key with an incoming one share an id with one (`WrittenUpsertMergesExactly`);
  `WrittenUpsertMergesIff` is the condition for any duplicates, and `UpsertByIdCanDiffer` a case where they differ.
- Pruning consumed records can bring a hidden, older duplicate back into view (`HiddenNoteComesBack`);
  `PruneRevivesExactlyTheHidden` says when.
- Value is conserved exactly when the fee has a slot (`FeeHasSlot`), and is otherwise off by exactly the fee: a positive
  fee with a blank collector, or a negative fee (`ValueIsConserved`, `FeeWithoutCollectorIsLost`). Quotes are read as
  digits with a collector that is not blank.
- Escrow claimant limbs decide the proof's circuit while the stored artifacts decide the recorded one; they agree exactly
  for consistent artifacts (`NoncesAgreeExactly`), which every way of preparing stamps (`PreparedIsConsistent`), and
  `SlotsFitExactly` says for all artifacts when the slots fit.

## Model

| member | source | states |
|---|---|---|
| RelayProtocol.StoredWasBegun | packages/relay/src/submit-prepared-private-operation.ts:16-31 | in every legal history each stored record carries its own key and the escrow mark it was submitted with |
| RelayProtocol.FlagsInOrder | packages/relay/src/complete-succeeded-operation.ts:71-105 | stored flags always form an initial part of finalize, drain, persist, whatever was cut or thrown |
| RelayProtocol.FlagStays | packages/relay/src/poll-pending-operation.ts:27-52 | a stored flag is never reset by any later event |
| RelayProtocol.LeftStays | packages/relay/src/submit-prepared-private-operation.ts:45-110 | once the stored phase is neither prepared nor admission_failed it never returns to one of them |
| RelayProtocol.NoDirectAfterLeaving | packages/relay/src/fallback-policy.ts:14-37 | once the store holds a phase other than prepared or admission_failed for an operation, no later event of any history reaches the wallet for it |
| RelayProtocol.EscrowNeverDirect | packages/relay/src/submit-prepared-private-operation.ts:112-123 | an escrow send never reaches the wallet and has no direct receipt, in any history with any crashes |
| RelayProtocol.ReceiptsBounded | packages/relay/src/submit-direct-fallback.ts:6-22 | direct receipts of an operation never outnumber one plus the crashes and the finalize calls that threw; without a completion under way or a record that left, not even that one |
| RelayProtocol.AtMostOneReceipt | packages/relay/src/submit-direct-fallback.ts:6-22 | with no crash and no throwing finalize there is at most one direct receipt |
| RelayProtocol.BoundIsReached | packages/relay/src/submit-direct-fallback.ts:6-22 | the bound is reached for every n: a legal crash-free history with n finalize calls that threw and n + 1 receipts of one operation |
| RelayProtocol.ReceiptsAreAccountedFor | packages/relay/src/submit-direct-fallback.ts:6-22 | exact ledger: receipts are those lost to a crash or throwing finalize before their flag was saved, plus the saved one, plus the one in hand; the last two are at most one together |
| RelayProtocol.AtMostOneReceiptExactly | packages/relay/src/submit-direct-fallback.ts:6-22 | at most one receipt iff none was lost, or one was and no other was saved or is in hand |
| RelayProtocol.RunsAreAccountedFor | packages/relay/src/complete-succeeded-operation.ts:71-105 | exact ledger: runs of an effect equal the crashes that lost it, plus one if its flag is stored, plus one if it has just run |
| RelayProtocol.EffectAtMostOncePlusLosses | packages/relay/src/complete-succeeded-operation.ts:71-105 | an effect completes at most once plus the crashes between it and its save; exactly once when its flag is stored and nothing crashed |
| RelayProtocol.EffectNeverAgain | packages/relay/src/complete-succeeded-operation.ts:71-118 | after its flag is stored an effect never runs again and its port is not even called |
| RelayProtocol.EffectsInOrder | packages/relay/src/complete-succeeded-operation.ts:71-105 | drain runs only after a finalize, persist only after both, and every effect only for a confirmed transaction |
| RelayTypes.StatusIsShown | packages/relay/src/poll-pending-operation.ts:27-52 | field by field: retry permission, known status, non-empty reason and hash and the phase of a rejection or failure are taken from the answer; a rejection takes the permission back; everything else is kept |
| RelayTypes.CompletionIsShown | packages/relay/src/complete-succeeded-operation.ts:53-64 | field by field: succeeded under the transaction with all three flags, no retry, everything else kept |
| RelayTypes.PollIsShown | packages/relay/src/poll-pending-operation.ts:54-78 | field by field: the answer's status, completed only by a success with a hash that is not empty |
| RelayTypes.AdmissionIsShown | packages/relay/src/submit-prepared-private-operation.ts:45-110 | field by field for each answer of the relayer: accepted under its request id, admission_failed with its reason for the five infrastructure reasons, rejected with its reason otherwise, infrastructure_failed for any other error |
| RelayTypes.RetryIsShown | packages/relay/src/retry-and-resume.ts:14-37 | field by field: accepted again under the same request, the reason of the failure gone, everything else kept |
| RelayTypes.ShownIsUnique | packages/relay/src/poll-pending-operation.ts:27-78 | these fields determine the record after a poll, an admission or a retry |
| RelayTypes.ResultTells | packages/relay/src/complete-succeeded-operation.ts:11-33 | a result carries phase, record, transaction and warning, allows the wallet exactly to plain open records no relayer knows of, and a retry exactly to failed open ones that allow it |
| RelayTypes.SettledExactly | packages/relay/src/await-relay-settlement.ts:35-44 | settled iff the phase is neither prepared nor relay_accepted or the status is terminal |
| RelayTypes.AdmittedIsFollowedUp | packages/relay/src/is-unfinalized-relay-operation.ts:1-6 | an admitted record stays listed for resuming, unsettled, and is offered neither to the wallet nor for a retry |
| RelayTypes.PollSettlesExactly | packages/relay/src/await-relay-settlement.ts:35-44 | a poll of an accepted operation settles it iff the answer is terminal, or unknown for an operation already terminal |
| RelayTypes.RetryOfferedExactly | packages/relay/src/fallback-policy.ts:39-44 | after a poll a retry is offered iff the operation is open, failed, and the answer allows it |
| RelayTypes.FallbackOfferedExactly | packages/relay/src/submit-prepared-private-operation.ts:75-110 | after admission the wallet is offered iff the operation is no escrow send and admission failed for infrastructure reasons |
| RelayTypes.NeverBothWays | packages/relay/src/fallback-policy.ts:14-44 | direct submission and retry are never offered together, and neither once finalized |
| RelayRuntime.Runtime.ApplyEffect | packages/relay/src/complete-succeeded-operation.ts:71-105 | one guarded effect followed by the save of its flag; skipped with no event when the flag is set; keeps the history legal |
| RelayRuntime.Runtime.ApplySuccessSideEffects | packages/relay/src/complete-succeeded-operation.ts:71-105 | finalize, drain and persist in order; the whole history it writes, a record with all three flags, and the warning of the drain if it was still to be done |
| RelayRuntime.Runtime.CompleteSucceededOperation | packages/relay/src/complete-succeeded-operation.ts:107-150 | from the stored record, or the caller's if none is stored: stores it completed, field by field, tells it with the transaction and the drain's warning, and writes exactly the completion history |
| RelayRuntime.Runtime.CreateRelayRequest | packages/relay/src/submit-prepared-private-operation.ts:45-110 | prepared is saved, then the relayer answers, then the record that its answer calls for is saved and told, field by field; without a relayer client nothing is stored |
| RelayRuntime.Runtime.SubmitDirectPath | packages/relay/src/submit-prepared-private-operation.ts:33-43 | one wallet submission and its completion, only where the protocol allows a direct call |
| RelayRuntime.Runtime.SubmitPreparedPrivateOperation | packages/relay/src/submit-prepared-private-operation.ts:125-147 | an escrow send without relay is rejected and reaches nobody; a plain one goes to the wallet iff it asks to or has no relay, and is completed; everything else is put to the relayer and stored by its answer; each record and result field by field with its history, others untouched |
| RelayRuntime.Runtime.SubmitDirectFallback | packages/relay/src/submit-direct-fallback.ts:6-22 | without consent, or unless the record is plain, open and unknown to any relayer: an error, store unchanged, wallet not reached; else one receipt, and the stored record completed and told field by field |
| RelayRuntime.Runtime.StoreReported | packages/relay/src/poll-pending-operation.ts:59-78 | the status applied to the stored record is saved before any completion; success with a hash completes it; the record field by field |
| RelayRuntime.Runtime.PollPendingOperation | packages/relay/src/poll-pending-operation.ts:54-78 | no record: an error; no request id: reported as is without a relayer call; else the record after the poll is stored and told, field by field |
| RelayRuntime.Runtime.RetryFailedRelayAttempt | packages/relay/src/retry-and-resume.ts:22-39 | refused with the store unchanged unless failed, allowed and unfinalized; nothing is stored before the relayer took the retry; then the retried record is stored and polled once, field by field |
| RelayRecovery.ResumePendingOperations | packages/relay/src/retry-and-resume.ts:41-58 | in the history every unfinalized relay operation of the wallet is reported on exactly once more and no other; each then holds the record its report calls for, all others are untouched; a cut pass has done so for an initial part and asks about none twice |
| RelayRecovery.DelaysNeverShrink | packages/relay/src/await-relay-settlement.ts:46-56 | with a multiplier of at least one the delays are non-decreasing |
| RelayRecovery.DelaysMultiplyUpToTheCap | packages/relay/src/await-relay-settlement.ts:46-56 | the first delay is the interval and each further one the multiplier times the one before, all cut off at the cap |
| RelayRecovery.DefaultDelays | packages/relay/src/await-relay-settlement.ts:16-19 | without given bounds: fifteen polls, delays of 2, 4, 8 and 16 seconds and 30 from then on |
| RelayRecovery.ScheduleCapped | packages/relay/src/await-relay-settlement.ts:46-56 | the first n delays together take at most n times the cap |
| RelayRecovery.Delay | packages/relay/src/await-relay-settlement.ts:29-33 | a wait is recorded, and only if it was not cut |
| RelayRecovery.PollUntilBound | packages/relay/src/await-relay-settlement.ts:70-88 | between one and max(1, maxAttempts) polls, each counted in the history, with the scheduled delays between them; ends with one whole poll and its record; unsettled only at the bound |
| RelayRecovery.MarkSettlementTimedOut | packages/relay/src/await-relay-settlement.ts:58-68 | exactly the given record with its phase set to settlement_timed_out is stored and reported |
| RelayRecovery.AwaitRelaySettlement | packages/relay/src/await-relay-settlement.ts:112-130 | the last poll decides: settled, it is the answer; unsettled, every poll was used and that very record is stored and reported as settlement_timed_out; the waits in the history are the schedule and stay within the cap |
| RelayRecovery.SubmitAndAwait | packages/relay/src/await-relay-settlement.ts:132-151 | a submission and, only if the relayer took it, the wait, with default bounds where none are given: what is told is what is stored, and it is settled; at most max(1, maxAttempts) reports with the scheduled delays between them |
| RelayConcurrent.OneOwnerAndCompleteResults | packages/relay/src/complete-succeeded-operation.ts:120-150 | for any number of interleaved completions: one owner at most, the in-flight entry names it, and every returned record has all three flags |
| RelayConcurrent.AllReturnOneRecord | packages/relay/src/complete-succeeded-operation.ts:120-150 | for every interleaving, stale entries included: owners, joiners and latecomers all return the very same record, the stored one completed with the transaction, and what is stored is that record up to effects still to be done |
| RelayConcurrent.ExactlyOnce | packages/relay/src/complete-succeeded-operation.ts:120-150 | if every entry that does not join a running completion still sees the stored flags, each effect runs at most once, not at all if stored before, exactly once if any call returned |
| RelayConcurrent.AtomicReadsRunOnce | packages/relay/src/complete-succeeded-operation.ts:120-150 | if each store read and the look at the in-flight map form one step, effects run exactly once, for every schedule |
| RelayConcurrent.OwnerFinishes | packages/relay/src/complete-succeeded-operation.ts:71-118 | an owner that runs on undisturbed runs every effect its record lacks once more, stores all flags, returns and deletes its entry |
| RelayConcurrent.StaleEntryRepeats | packages/relay/src/complete-succeeded-operation.ts:120-150 | the converse: after any run of fresh entries, the first stale one can be carried on to a state where some effect has run twice |
| RelayConcurrent.FreshEntryIsExactlySafe | packages/relay/src/complete-succeeded-operation.ts:120-150 | after any run of fresh entries the next entry is fresh iff no continuation without a stale entry runs an effect twice |
| RelayConcurrent.OverlappingReadsRunTwice | packages/relay/src/complete-succeeded-operation.ts:120-150 | for every stored record that is not completed, one without flags included, a schedule of two calls runs each missing effect twice and both return |
| MerkleTree.InsertNewPairs | packages/stellar/src/transact/merkle/extend-snapshot.ts:19-38 | success inserts exactly the leaves behind the prefix, in pairs, into that handle only; an odd remainder fails |
| MerkleTree.SnapshotByFields | packages/stellar/src/transact/merkle/state-file.ts:1-20 | a snapshot is handed over with its nodes and the residue of its root iff it has nodes and a root that is a number, else as leaves alone |
| MerkleTree.ExtendMerkleSnapshotNodes | packages/stellar/src/transact/merkle/extend-snapshot.ts:80-132 | one import, of the cached nodes over their commitments under the cached root if these are there, else of all leaves; success: one new handle with the extended tree and its nodes; failure or an odd count: no handle is added |
| MerkleTree.ExtensionIsWhole | packages/stellar/src/transact/merkle/extend-snapshot.ts:51-132 | the extended tree equals a whole import exactly when no cached nodes are used, or nothing is held, or the cache has commitments and its nodes come from that very prefix |
| MerkleTree.SoundPrefixExtendsWhole | packages/stellar/src/transact/merkle/extend-snapshot.ts:105-132 | a sound cache that is a prefix of the new commitments always extends to the whole tree |
| TreeSession.TreeSessions.RememberHandle | packages/stellar/src/transact/merkle/tree-session.ts:56-63 | both maps afterwards, entry by entry: session and key lead to the new handle, the key of a replaced handle is forgotten, all others stay; keeps: every key is some pool's current session, every session is live |
| TreeSession.TreeSessions.BindPoolMerkleTree | packages/stellar/src/transact/merkle/tree-session.ts:85-107 | same snapshot: the present handle and nothing changed; else exactly a fresh import replaces the old handle, which is dropped; both maps entry by entry; sound sessions stay sound |
| TreeSession.TreeSessions.ResolveExtendedMerkleNodes | packages/stellar/src/transact/merkle/tree-session.ts:109-145 | unchanged snapshot: cached nodes and untouched sessions; else nodes and session of the extended tree, added beside all other trees, or nothing changed; sound for a sound prefix |
| TreeSession.TreeSessions.GrowingLeavesKeep | packages/stellar/src/transact/merkle/tree-session.ts:43-63 | sessions of all pools stay right when the leaves of any of them grow |
| TreeSession.KeysEqualExactly | packages/stellar/src/transact/merkle/tree-session.ts:46-54 | when two snapshots share a key: size and root, or without a root only size, first and last leaf |
| TreeSession.TreeSessions.WithdrawMerkleWitnessFromTree | packages/stellar/src/transact/merkle/tree-session.ts:147-158 | with leaves of its own for every pool, the witness equals the one rebuilt from the state iff the index leads its key to a pool whose leaves the state begins, or nowhere; so it does when no other pool has the key for other leaves |
| TreeSession.WitnessOfAnotherPool | packages/stellar/src/transact/merkle/tree-session.ts:56-75 | two pools bound one after the other with states that share a key: all sessions are right, and the first state gets a witness over the second pool's leaves |
| TreeSession.CollidingLeaves | packages/stellar/src/transact/merkle/tree-session.ts:46-54 | two such states without a root |
| LeafReader.LedgerKeysForRange | packages/stellar/src/transact/merkle/read-tree-leaves.ts:92-102 | one key per index of the range, in order |
| LeafReader.ChunkLedgerKeys | packages/stellar/src/transact/merkle/read-tree-leaves.ts:104-110 | batches concatenate to the keys, none empty or too long, all but the last full |
| LeafReader.CollectLeafBuffers | packages/stellar/src/transact/merkle/read-tree-leaves.ts:112-125 | exactly the indices of well-formed entries are added, and what is collected agrees with the chain |
| LeafReader.DecimalCommitmentsInRange | packages/stellar/src/transact/merkle/read-tree-leaves.ts:127-141 | succeeds iff every index of the range was collected, and then lists them in order |
| LeafReader.ReadTreeLeafCommitments | packages/stellar/src/transact/merkle/read-tree-leaves.ts:64-90 | any order, gaps and repetition of answers: success returns exactly the asked range of the chain, each leaf modulo the field order, asked for once each in batches of at most 100; complete answers always succeed |
| MerkleCache.ReusedIsPrefix | packages/stellar/src/transact/merkle/reuse-cached-commitments.ts:14-32 | what is reused from a truthful cache is an initial part of the counted leaves |
| MerkleCache.ReuseIsKept | packages/stellar/src/transact/merkle/reuse-cached-commitments.ts:3-32 | all cached commitments are kept iff there are fewer than counted, or as many under the same root or none; else none |
| MerkleCache.LaggingCountIsNeverWhole | packages/stellar/src/transact/merkle/extend-snapshot.ts:40-78 | a count below a sound cache with nodes makes the extension hash other leaves than it holds |
| MerkleCache.PoolMerkleCache.LoadCommitments | packages/stellar/src/transact/merkle/fetch-contract.ts:124-146 | cached and fetched parts together are exactly the first n leaves, and only the leaves that are not kept are asked for |
| MerkleCache.PoolMerkleCache.PersistFetchedMerkleState | packages/stellar/src/transact/merkle/persist-fetched.ts:60-97 | unchanged snapshot: nothing is written; else commitments, count, root and resolved nodes are written together, if there is a cache; a failed write leaves the cache and sound sessions; nodes belong to the commitments |
| MerkleCache.PoolMerkleCache.FetchAndMergeMerkleState | packages/stellar/src/transact/merkle/fetch-contract.ts:24-55 | one count and one root are read, and only leaves not kept are asked for; success returns that count, that root, the first that many leaves, and nodes of just these; an up-to-date cache stays as it is with the sessions, any other takes over all that is returned; failure leaves the cache unchanged, and the sessions too unless it is the write that failed |
| MerkleCache.PoolMerkleCache.WritePoolMerkleState | packages/stellar/src/transact/merkle/write-snapshot.ts:5-11 | the state is stored and the session rebound to it, soundly for sound states; a failed write changes neither |
| MerkleCache.PoolMerkleCache.AppendPoolCommitments | packages/stellar/src/state/service/pool/merkle.ts:41-67 | old commitments plus the new ones and their count; given nodes win, old ones survive iff none are given and nothing is appended; the old ledger stays when none is given; sound nodes stay sound; a failed one changes nothing |
| MerkleCache.PoolMerkleCache.OthersGrowthKeeps | packages/stellar/src/transact/merkle/tree-session.ts:43-44 | growth of the other pools that share the sessions keeps a cache sound |
| MerkleCache.PoolMerkleCache.AppendPoolMerkleCommitments | packages/stellar/src/transact/merkle/write-snapshot.ts:13-55 | the whole new state, with the given nodes or those resolved for the merged leaves; an append of the leaves that come next on chain keeps the cache a prefix of the chain, and nodes and sessions sound, wherever it fails |
| StateTree.SetIsReadBackAndLocal | packages/core/src/state/json-path/tree.ts:124-132 | a successful set is read back, and every path that is neither prefix nor extension reads as before even when records were created |
| StateTree.SetFailsExactlyWhenBlocked | packages/core/src/state/json-path/tree.ts:57-102 | with creation a set fails iff some proper prefix holds a value that is neither record nor undefined |
| StateOperations.FilterKeepsExactlyTheStaying | packages/core/src/state/array-filter/match.ts:87-104 | every occurrence of an item that parses and is not rejected stays, and nothing else |
| StateOperations.FilterKeepsOrder | packages/core/src/state/array-filter/match.ts:87-104 | filtering goes item by item, so what stays keeps its order |
| StateOperations.GoesExactly | packages/core/src/state/array-filter/match.ts:51-85 | an item is rejected iff its field equals the value, or one of the values, or all matches say so, where big integers compare by value and records and arrays never equal |
| StateOperations.FilterKeepsTheStaying | packages/core/src/state/array-filter/match.ts:87-104 | the filter is the front-to-back selection of what parses and is not to go |
| StateOperations.OutcomeDoes | packages/core/src/state/operations/handlers/record.ts:5-75 | what each of the thirteen operations does, told by reading the trees before and after: the value, key or items at its path, its siblings, its answer, and that paths apart from it read as before |
| StateOperations.OutcomeFailsExactly | packages/core/src/state/json-path/tree.ts:77-178 | an operation fails iff its path cannot be reached, or something else is where it needs an array or record, or its schema is not registered |
| StateOperations.BatchGoesInSteps | packages/core/src/state/operations/apply.ts:20-41 | a write batch is a chain of trees, each step doing what its operation does; it succeeds iff no step fails |
| StateOperations.ReadsGoTogether | packages/core/src/state/operations/apply.ts:20-41 | a batch of reads succeeds iff each can be read on the one tree, and answers the last |
| StateOperations.BatchIsLocal | packages/core/src/state/operations/apply.ts:20-41 | a path that is neither prefix nor extension of any addressed path reads the same after a whole batch |
| StateOperations.ThrowingLeavesATraceExactly | packages/core/src/state/operations/handlers/array.ts:18-38 | a throwing operation changes the tree iff it is a write-mode filter with an unregistered schema whose missing array can be created, and then it leaves an empty array |
| StateOperations.UnknownSchemaLeavesAnArray | packages/core/src/state/operations/handlers/array.ts:18-38 | such an operation throws: in an empty tree at every path |
| StateOperations.ReadsChangeNothing | packages/core/src/state/operations/handlers/record.ts:5-15 | a read operation that succeeds without creation leaves the tree as it was |
| StateOperations.LiveTree.ResolveJsonPathParent | packages/core/src/state/json-path/tree.ts:77-102 | the segment walk computes the recursive resolution; a failing walk changes nothing |
| StateOperations.LiveTree.SetJsonPathValue | packages/core/src/state/json-path/tree.ts:124-132 | the in-place set refines the functional one; a failing set changes nothing |
| StateOperations.LiveTree.EnsureArrayAtPath | packages/core/src/state/json-path/tree.ts:138-157 | the array at the path, created only if missing and allowed; writing it back is setting the path |
| StateOperations.LiveTree.EnsureRecordAtPath | packages/core/src/state/json-path/tree.ts:159-178 | the record at the path, created only if missing and allowed; a failure changes nothing |
| StateOperations.LiveTree.ApplyArrayOperation | packages/core/src/state/operations/handlers/array.ts:6-51 | push, filter and clean: the items read at the path afterwards, everything apart from it as before, failing iff they must; a failure leaves exactly the tree before, or the created array of a filter with an unregistered schema |
| StateOperations.LiveTree.ApplyRecordOperation | packages/core/src/state/operations/handlers/record.ts:5-75 | get, set, delete, keys, values and entries: the key read afterwards or gone, its siblings as before, each its own answer, failing iff it must; failures change nothing |
| StateOperations.LiveTree.ApplyPrimitiveOperation | packages/core/src/state/operations/handlers/primitive.ts:15-52 | get, set, increment and null: the value, the old number plus the delta, or nothing is read afterwards, failing iff it must; failures change nothing |
| StateOperations.LiveTree.ApplyStateOperation | packages/core/src/state/operations/apply.ts:43-63 | read mode admits only read operations and changes nothing; write mode refines the operation's meaning; a failure leaves exactly the stated tree |
| StateOperations.LiveTree.ApplyStateOperations | packages/core/src/state/operations/apply.ts:20-41 | a batch is the fold of its operations and succeeds iff the fold does; a read batch never changes the tree and must be a non-empty list of reads |
| StateOperations.InMemoryStateAdapter.Write | packages/state/memory/src/index.ts:26-40 | succeeds iff the type is registered and no operation fails in turn, and then holds the last of a chain of trees in which each step does what its operation does, told by reading; a failing batch leaves the state as it was |
| StateOperations.InMemoryStateAdapter.Read | packages/state/memory/src/index.ts:26-40 | succeeds iff the type is registered and the batch is a non-empty list of reads, each of a primitive or of a present record; answers what the last of them reads, on an unchanged state |
| PrivateRecords.DedupOnePerKey | packages/stellar/src/state/read/normalize/records.ts:67-77 | exactly one record per commitment key, in first-seen order, and it is that key's survivor |
| PrivateRecords.KeyIsText | packages/stellar/src/state/read/normalize/records.ts:29-37 | a note is known by its commitment, else its coin's, else its id, where empty texts do not count |
| PrivateRecords.SurvivorStep | packages/stellar/src/state/read/normalize/records.ts:49-61 | folding the preference over the records keeps the last record whose id is the key if any, else the last record |
| PrivateRecords.DedupAppendsFresh | packages/stellar/src/state/read/normalize/records.ts:67-77 | appending records with new distinct keys appends them to what is read |
| PrivateRecords.AppendedSurvives | packages/stellar/src/state/read/normalize/records.ts:49-61 | an appended record is its key's survivor iff its id is the key or no earlier record's id is |
| PrivateRecords.DedupIdempotent | packages/stellar/src/state/read/normalize/records.ts:67-77 | deduplicating twice is deduplicating once |
| PrivateRecords.DedupCommutesWithKeyFilter | packages/stellar/src/state/read/normalize/records.ts:67-77 | deduplication commutes with every filter that decides by the commitment key |
| PrivateRecords.DeduplicatePrivateRecords | packages/stellar/src/state/read/normalize/records.ts:67-77 | the one-pass loop over an insertion-ordered map computes the specified deduplication |
| RecordStore.ReadIsNormal | packages/stellar/src/state/read/normalize/records.ts:9-47 | whatever is stored, a read is normalised, has distinct keys, and has every stored key |
| RecordStore.ReadIsOnePerKey | packages/stellar/src/state/read/normalize/records.ts:9-77 | every record read is a stored one with at most its owner filled in as private address, every stored key is read, and none twice |
| RecordStore.ArraysEqualMeansEqual | packages/stellar/src/state/service/records/private-record-upsert.ts:72-83 | the field-by-field comparison that decides to skip a write is equality: no field is forgotten |
| RecordStore.WrittenUpsertMerges | packages/stellar/src/state/service/records/private-methods.ts:109-125 | when stored records share an id with an incoming one iff they share a key: filter by id then push on the raw array, with duplicates and unparsable items, reads as the merge of what was read |
| RecordStore.WrittenUpsertMergesExactly | packages/stellar/src/state/service/records/private-methods.ts:109-125 | with one stored item per key the written list reads as the merge iff every stored record that shares a key with an incoming one shares an id with one |
| RecordStore.WrittenUpsertMergesIff | packages/stellar/src/state/service/records/private-methods.ts:109-125 | for any stored duplicates and distinct incoming keys the written list reads as the merge iff the items not replaced by id show the keys read and kept, then only the first few incoming keys, each won by its incoming record |
| RecordStore.AgreeingItemsFit | packages/stellar/src/state/service/records/private-methods.ts:109-125 | items that agree in ids and keys meet that condition |
| RecordStore.IdsThatAreKeysAgree | packages/stellar/src/state/read/normalize/records.ts:29-37 | records whose ids are their keys meet that condition |
| RecordStore.SkippedUpsertMerges | packages/stellar/src/state/service/records/private-record-upsert.ts:72-91 | a skipped write reads as the merge too |
| RecordStore.UpsertByIdCanDiffer | packages/stellar/src/state/service/records/private-record-upsert.ts:85-91 | concrete records at which the condition fails and written and merged lists differ |
| PrivateLedger.Ledger.ReadPrivateRecords | packages/stellar/src/state/service/records/private-methods.ts:19-26 | a read is the deduplication of the normalised parsable items: one record per key, each a stored one |
| PrivateLedger.ListedExactly | packages/stellar/src/state/service/records/private-methods.ts:38-44 | listed are exactly the records of the asked asset, owner and private address that are neither consumed nor spent; a filter without owner and private address lists nothing |
| PrivateLedger.Ledger.ApplyPrivateRecordsStatus | packages/stellar/src/state/service/records/private-methods.ts:46-63 | read-modify-replace, field by field: the next read is the last one with the status of exactly the given ids changed, consumed iff they were or the status is spent; a rejected call changes nothing |
| PrivateLedger.Ledger.UpsertPrivateRecords | packages/stellar/src/state/service/records/private-methods.ts:109-125 | skipped iff the merge is what is read already, else filter and push; for distinct incoming keys the next read is the merge iff skipped or the stored items fit, in particular when ids agree with keys |
| PrivateLedger.Ledger.PruneConsumedPrivateRecords | packages/stellar/src/state/service/records/private-methods.ts:93-97 | drops exactly the consumed and the unparsable items |
| PrivateLedger.PruneRevivesExactlyTheHidden | packages/stellar/src/state/service/records/private-methods.ts:93-97 | pruning brings back no key read as consumed iff no unconsumed duplicate was hidden behind a consumed survivor |
| PrivateLedger.HiddenNoteComesBack | packages/stellar/src/state/service/records/private-methods.ts:93-97 | concrete items: an available note behind a consumed one with its key is listed again after pruning |
| PrivateLedger.PruneOfDistinct | packages/stellar/src/state/service/records/private-methods.ts:93-97 | with one stored item per key pruning is a filter on what is read |
| PrivateLedger.Ledger.CommitStorageChanges | packages/stellar/src/transact/engine/execution/submit-prepared.ts:110-140 | with fresh distinct output keys, field by field: the next read is the old records with exactly the consumed ids spent, followed by the outputs with the operation's id and, if confirmed, finalized; a rejected call leaves either nothing or the outputs |
| PrivateLedger.ConsumedIsNeverListedAgain | packages/stellar/src/transact/engine/execution/submit-prepared.ts:110-140 | after a commit no filter lists a consumed note |
| PrivateLedger.CommitMovesBalance | packages/stellar/src/transact/engine/execution/submit-prepared.ts:110-140 | every balance changes by outputs minus consumed |
| AssetRows.AggregatePrivateAssetRows | packages/stellar/src/state/service/records/private-methods.ts:65-91 | one row per asset with available records, strictly sorted, each with the filter-and-sum of its asset, and the pool of its first record |
| AssetRows.RowsAgreeWithBalance | packages/stellar/src/state/service/records/private-methods.ts:127-136 | each row total equals the balance query for that owner and asset, and assets without a row have balance zero |
| AssetRows.RowsAreUnique | packages/stellar/src/state/service/records/private-methods.ts:65-91 | the row specification determines the list |
| LedgerBatches.UpsertBatch | packages/stellar/src/state/schemas/records/transactions.ts:7-25 | the filter-then-push batch on the state tree is the ledger's upsert on the raw items, for any stored form the schema parses, also when the array is missing |
| LedgerBatches.ReplaceBatch | packages/stellar/src/state/schemas/records/private.ts:37-55 | the clean-then-push batch is the ledger's replace |
| LedgerBatches.SaveAndPruneBatches | packages/stellar/src/state/schemas/records/private.ts:21-64 | the push batch is the ledger's save and the filter batch its prune |
| LedgerBatches.FilterByIds | packages/core/src/state/array-filter/match.ts:67-104 | filtering stored items by id keeps exactly the parsable records whose id is not listed |
| RecordSelection.CoverIsLeast | packages/stellar/src/adapters/record-selection.ts:73-79 | the cover adds the least whole number whose hundredfold reaches the amount, never zero |
| RecordSelection.FilterUnspentPrivateRecords | packages/stellar/src/adapters/record-selection.ts:44-71 | keeps, in order, the records not reported spent; fails iff some query is rejected |
| RecordSelection.SortedDecides | packages/stellar/src/adapters/record-selection.ts:29-42 | in the spending order the first note decides whether one covers, the first two whether two do |
| RecordSelection.PickRecordsForSpendAmount | packages/stellar/src/adapters/record-selection.ts:81-110 | the first note if it covers, else the first two if they do, else the shortfall |
| RecordSelection.AvailableNotes | packages/stellar/src/adapters/record-selection.ts:112-150 | the listed notes that are not spent, each as often as listed, in spending order |
| RecordSelection.OrderIsPreference | packages/stellar/src/adapters/record-selection.ts:29-42 | worth more goes first, equal worth by id |
| RecordSelection.CandidatesAreUsable | packages/stellar/src/adapters/record-selection.ts:127-150 | the candidates are the stored notes with these properties, each as often as it is stored |
| RecordSelection.PickedIsChosen | packages/stellar/src/adapters/record-selection.ts:81-162 | what is picked from the sorted candidates is that choice among the stored notes |
| RecordSelection.SelectPrivateRecords | packages/stellar/src/adapters/record-selection.ts:112-162 | a source that is no text is rejected; else, in terms of the stored notes: only notes of the asset, of the private address for an stpl source and of the owner otherwise, not consumed, not spent and not reported spent; the preferred one if it covers the amount and its hundredth, else it and the preferred of the rest, else the shortfall with the best two are worth |
| SpendPlan.SelectedCanBeSpent | packages/stellar/src/transact/fees/quote-fee-output-for-prepared.ts:61-71 | selected notes pass the amount checks of transfer and withdrawal for any fee up to the hundredth |
| SpendPlan.HundredthIsTight | packages/stellar/src/adapters/record-selection.ts:73-79 | notes worth exactly the covered amount cannot pay any larger fee |
| SpendPlan.SelectedNotesDiffer | packages/stellar/src/adapters/record-selection.ts:112-162 | two notes selected from the ledger have different commitments |
| SpendPlan.ConsumedIsNeverSelectedAgain | packages/stellar/src/transact/engine/execution/submit-prepared.ts:110-140 | once a spend is committed no selection can choose a note it consumed |
| SpendSlots.SpendSucceedsExactly | packages/stellar/src/transact/proofs/confidential/dual.ts:138-155 | a spend reaches proving iff amount is positive, the notes cover amount and fee, and change has a recipient; the same for one and two inputs and for withdrawals |
| SpendSlots.ErrorsInOrder | packages/stellar/src/transact/proofs/confidential/dual.ts:138-155 | which error a spend ends with: amount below one first, then notes that do not cover, then change without recipient; a deposit iff the fee leaves nothing |
| SpendSlots.FeeSlotSum | packages/stellar/src/transact/fees/append-fee-output.ts:32-52 | the appended slot adds the fee when it is positive with a collector, and nothing otherwise |
| SpendSlots.ValueIsConserved | packages/stellar/src/transact/proofs/confidential/recipient-change-deposits.ts:60-137 | slots plus public withdrawal equal inputs plus public deposit iff the fee has its slot, and else differ by exactly the fee; no slot is negative, and change implies a recipient |
| SpendSlots.FeeWithoutCollectorIsLost | packages/stellar/src/transact/fees/append-fee-output.ts:38-42 | a concrete transfer whose fee has a blank collector and is lost |
| SpendSlots.SlotsInOrder | packages/stellar/src/transact/engine/transfer-finalize.ts:65-90 | recipient first, then change, then fee, each slot with its own value and no other slot but one dummy of a transfer without either: the order in which output records and coins are matched |
| SpendSlots.NoncesAgreeExactly | packages/stellar/src/transact/fees/zk-config-nonce-for-kind.ts:23-31 | proof and recorded artifacts use the same nonce iff not a transfer, or the size is fixed, or claimant limbs mark exactly the sweeps |
| SpendSlots.NoncesInNumbers | packages/stellar/src/transact/fees/zk-config-nonce-for-kind.ts:23-31 | both nonces in numbers: 7 for a fee-bearing transfer, else the configured one, else 3 |
| SpendSlots.QuotedExactly | packages/stellar/src/transact/fees/should-attach-fee-output.ts:10-17 | a positive fee is attached to everything but sweeps out of escrow |
| SpendSlots.PreparedIsConsistent | packages/stellar/src/transact/engine/prepare/transfer-helpers.ts:12-36 | what a spend from a private address, a send into escrow and a sweep out of it stamp, mark by mark; it is consistent, so proof and record name one circuit |
| SpendSlots.BuildTransferOutputIds | packages/stellar/src/transact/proofs/confidential/single.ts:81-101 | the pushed ids are the recipient's, the change's or a placeholder, and the fee's |
| SpendSlots.WithdrawOutputApplicationIds | packages/stellar/src/transact/proofs/withdraw/fee-deposits.ts:43-59 | one id per slot, or the placeholder when there is none |
| SpendSlots.IdsFollowSlots | packages/stellar/src/transact/proofs/withdraw/fee-deposits.ts:13-59 | ids and slots of every kind line up position by position, with at most three, and at most two without a transfer fee |
| SpendSlots.SlotsAlwaysFit | packages/stellar/src/transact/zk/slots.ts:33-52 | for every kind, source, fee, change and known nonce the slots fit the chosen circuit (six by six for 6 and 7, else two by two), padding never fails, and a hint is 0 at the dummies and the application's id elsewhere |
| SpendSlots.SlotsFitExactly | packages/stellar/src/transact/zk/slots.ts:33-52 | for any artifacts: slots fit and hints align iff this is no fee-bearing transfer with change that carries claimant limbs under a nonce of two outputs; consistent artifacts never are |
| SignalCodec.IndicesFit | packages/stellar/src/transact/relay/layout-profile.ts:65-111 | for every shape with one public input and output: named indices in range, the last is the last signal, distinct and in their order iff the public outputs hold two |
| SignalCodec.StandardProfileMatchesConstants | packages/stellar/src/transact/relay/constants.ts:2-18 | the offsets derived for the first circuit are the published constants, 93 signals |
| SignalCodec.KnownIndices | packages/stellar/src/transact/relay/layout-profile.ts:113-135 | the five known circuits meet that condition |
| SignalCodec.PlacesByNonce | packages/stellar/src/transact/relay/layout-profile.ts:65-135 | for each of the five known nonces the place of every named signal, in numbers; there is no sixth |
| SignalCodec.ProfileShowsSignals | packages/stellar/src/transact/relay/profile.ts:24-68 | bytes are read iff nonce and length are known; then each of the thirteen values is the signal at the place of its own name in the bytes, the two amounts as numbers |
| SignalCodec.SliceUndoesPack | packages/stellar/src/transact/relay/signals.ts:40-58 | slicing undoes packing in the bare and in the length-prefixed form |
| SignalCodec.AcceptedIsPacked | packages/stellar/src/transact/relay/signals.ts:13-58 | every accepted byte string is the packing of its slices in exactly one of the two forms |
| SignalCodec.AcceptedForOneNonce | packages/stellar/src/transact/relay/signals.ts:22-38 | no byte string is accepted for two circuits |
| SignalCodec.ProfileReadsWhatWasPlaced | packages/stellar/src/transact/relay/profile.ts:40-68 | values packed at the named places are read back, each under its own name, from both forms, whatever the other signals are |
| SignalCodec.FrDecimalToPaddedBytes32 | packages/stellar/src/transact/encoding/fr-decimal-to-bytes.ts:7-16 | 32 bytes that read back as the residue modulo the field, so as the integer itself inside the field |
| SignalCodec.PaddedBytesAreUnique | packages/stellar/src/transact/encoding/fr-decimal-to-bytes.ts:7-16 | they are the only 32 bytes that read back so |

## Left out

- HTTP, RPC, XDR parsing, contract bindings, KYT and fee network calls: their answers are arbitrary inputs.
- Proof generation, curve operations, nullifier hashing, address codecs and escrow key derivation: inside the external
  library; nullifiers and commitments are opaque values, and an aligned deposit slot is one that holds the requested value.
- The hash structure of the tree: not in the repository; a handle is known by its leaves.
- Padding of deposit and withdraw slots with dummies is done by the external library; it is modelled as padding to the
  layout's size that fails when there are too many. Its layouts are taken to have the sizes of the relay layouts.
- Schemas beyond "parses or does not": records that reach the ledger's writes have been parsed.
- Trimming of strings, hex prefixes and letter case: strings are taken as normalised. Hex text of public signals is taken
  as the bytes it denotes.
- Collation: asset ids and record ids are compared by a given rank; two different assets are given different ranks.
- The text of a JSON path: a path is the list of its segments. For the empty path, get answers the root while set writes
  the empty key; the read-back law is for the other paths.
- Aliasing inside a tree: values are cloned at the adapter's boundary, so arrays and records are values and an in-place
  push is the replacement of the value at its path.
- The order of keys, values and entries of a record, and inherited properties: a record has its own properties only.
- Floating point: numbers are integers, displayed amounts and delays are reals.
- The state adapter with a reducer: its conversion of large integers to text makes increments and filter comparisons differ.
- Overlapping polls: a poll saves a record built from an earlier read, so nothing is claimed for polls that overlap.
- Records already finalized but not drained or persisted: resuming lists only unfinalized ones, so nothing says it finishes them.
- The stored states of several pools in one object: each pool's cache is an object of its own, and they share the sessions.
- Two leaf lists with one root: the root text is not tied to the leaves, so nothing excludes two pools that share a rooted key.
- Progress events, disclosure tables, configuration checks, artifact caching, reading of ephemeral keys from leaves.
- The `amount` stored on enriched outputs is not recomputed from the coin; balances use the stored amount, selection and
  slots use coin values, and no equality between the two is claimed.
