# UltraBalloonDB: a verified model

This project models the parts of UltraBalloonDB that carry its promises and proves those promises
with Dafny. `dafny verify dfyconfig.toml` checks everything.

**Durable log, checkpoint and recovery** (`WalFormat`, `Replay`, `Durable*`, `Checkpoint*`,
`KilledSessions`, `SampleEncoding`, `StateOrder`, `WalLayout`, `ReplayMeaning`). The write-ahead log is a file of length-prefixed,
checksummed frames; a transaction is BEGIN, operations, COMMIT. The files and the open session form a
machine whose steps are commit, append without commit, checkpoint, open, close and two ways to die at any
byte of an append. A killed process leaves all it wrote in the file, synced or not; a power loss keeps
every synced byte and takes back any part beyond. Beside each run stands a ledger, the plain list of
transactions whose COMMIT frame survived whole, and the machine refines it. The classes in
`DurableRuntime` carry the fields and loops of the original and are proved to take exactly the machine's
steps. `WalLayout` says byte by byte what a frame is and which files a scan accepts, and `ReplayMeaning`
entry by entry which operations and logs are accepted and what they leave.

Recovery rests on one condition. Neither opening nor checkpointing syncs the log, except when a torn
tail is cut, so a session opened after a kill can hold a transaction whose COMMIT frame is not synced,
and a checkpoint it takes is ahead of what a power loss leaves of the log. The recovery theorems
therefore speak of runs whose checkpoints are taken only while every COMMIT frame is synced
(`DurableMachine.SafeRun`). `CheckpointSafety` proves that this is exactly the condition under which a
checkpoint is safe. `KilledSessions` shows that a run can lose a receipt without it, and what a session
can go by: every run without a kill meets it, and so do the checkpoints a session takes once it has
returned a receipt, or when its opening repaired a torn tail. `SampleEncoding` shows that the assumptions behind all this can be met.
A replaced checkpoint file is taken to be durable, and bytes read back after a power loss to be synced.

**Wave queries** (`Heap`, `Wave*`, `Ranking`, `Csr*`, `LayeredWave`, `Floating*`). Three engines
propagate energy along typed edges; the meaning of each is stated over walks. The heap engine is sound
and terminates always; `WaveMeaning` says what it answers of the list of added edges alone. With factors in [0,1] and a tolerance below a half it is optimal on every graph
of n nodes exactly when the step bound is at most one or at least n - 1; every bound in between lets
some strong long path hide a weak short one that still had steps left (`WaveStepBound`). The layered
engine over the CSR index is exact for every step bound. The settle-once exporter yields a
self-contained fragment, of the best nodes exactly under the same bounds (`FloatingStepBound`).

**Backup codec and hash** (`BackupCodec`, `BackupLayout`, `LittleEndian`, `Sha256`, `Sha256Example`). The
manifest and receipt formats are bijections onto the bytes their decoders accept; `BackupLayout` gives
every field its offset. The streaming hash equals the one-shot hash of FIPS 180-4, whose definition is
held to the standard's own example, round by round.

**Layered G1/G2 models** (`Layers`, `Bits`, `Matrix*`, `Prefix*`, `HotPatch*`).
A rule, exceptions and patches show a value at every cell; compaction, rollback bundles,
exported patch bundles and their inverses are judged by what they do to that view.

**Read planners and packers** (`PayloadFetch`, `PagedFetch`, `PagedStore`, `LineSplitting`,
`AdaptivePack`, `AdaptiveCandidates`). Each fast form is compared with the plain one: one read per pointer, the raw bytes.

Energies and weights are reals, and the heap engine's 1e-15 is the parameter `eps`. JSON is any
encoding that decodes to what was encoded. SHA-256 is a parameter everywhere except in `Sha256` itself,
and nothing assumes it free of collisions. Transaction ids are drawn fresh.

Where the code does less than one might expect, the model follows the code and says so:

- The inverse of a matrix patch bundle stores only the low bit of what it restores, so it undoes a plan
  exactly when the touched cells showed bits (`HotPatch.MatrixInverseRestoresIff`).
- A patch chain checks no bounds; a column outside the matrix aliases another row, and compaction can
  change what it shows (`MatrixChain.OutsideQueryChanges`).
- A chain ignores patches of its base, and agrees with the base exactly when those patches say nothing
  new (`MatrixChain.FreshChainShowsBaseIff`, `PrefixChain.FreshChainShowsBaseIff`).
- An empty record past the end of a store reads alone but not inside a joined span
  (`PayloadFetch.EmptyRecordPastEnd`).
- An empty plan exports a bundle that is then refused as having no operations, and no other plan does
  (`HotPatch.ExportMatrixBundle`, `HotPatch.ExportPrefixBundle`).
- A checkpoint of a session that outlived a kill can be ahead of the log
  (`CheckpointSafety.UnsyncedCheckpointIsAhead`, `SampleEncoding.ReceiptCanBeLost`).
- The CSR builder fails on an empty edge list, whose files cannot be mapped (`Csr.BuildFromSortedEdges`).

## Model

| member | source | states |
|---|---|---|
| `DurableTheorems.CrashRecovery` | python_ref/ultraballoondb_core/durable_runtime.py:490-563 | after any run of commits, uncommitted appends, closes, opens, process kills and power losses at any byte, and checkpoints taken while every COMMIT frame is synced, a repairing open succeeds; its records, edges and txids are the in-order fold of exactly the transactions whose COMMIT frame survived whole, and those are the transactions the log on disk reads back as |
| `DurableReceipts.ReceiptsSurvive` | python_ref/ultraballoondb_core/durable_runtime.py:618-645 | in such a run, a commit that passed its own tests and so returned a receipt is loaded by every later repairing open, its txid and every record and edge of it, and the log on disk reads back as starting with all that was committed before it and then it |
| `DurableReceipts.StepHolds` | python_ref/ultraballoondb_core/durable_runtime.py:160-169 | transactions whose COMMIT frames are synced stay first in the ledger, and synced, across every step |
| `DurableReceipts.FoldShows` | python_ref/ultraballoondb_core/durable_runtime.py:497-540 | the fold of a list of transactions shows the txid, records and edges of each of them: nothing is taken back or replaced |
| `CheckpointSafety.CheckpointSafeIff` | python_ref/ultraballoondb_core/durable_runtime.py:402-425 | when a checkpoint may be taken: in a run safe so far, taking one keeps every receipt recoverable and every later LSN above the checkpoint, in all continuations without another checkpoint, iff no COMMIT frame lies above the synced part of the log |
| `CheckpointSafety.ReceiptsSafeIff` | python_ref/ultraballoondb_core/durable_runtime.py:402-425 | the receipts alone decide it, provided some unused one-edge transaction fits the frame limit at the LSNs up to the checkpoint's |
| `CheckpointSafety.SyncedCheckpointStays` | python_ref/ultraballoondb_core/durable_runtime.py:402-425 | a checkpoint taken while every COMMIT frame is synced stays sound in all such continuations |
| `CheckpointSafety.UnsyncedCheckpointIsAhead` | python_ref/ultraballoondb_core/durable_runtime.py:402-563 | otherwise a power loss and an open give a session that shows all the state of the lost log and numbers its commits at or below the checkpoint |
| `CheckpointSafety.UnsyncedCheckpointLoses` | python_ref/ultraballoondb_core/durable_runtime.py:402-563 | and a one-edge commit of that session, if it fits the frame limit at the LSNs up to the checkpoint's, returns a receipt that the next open does not honour |
| `KilledSessions.KilledCommitIsUnsynced` | python_ref/ultraballoondb_core/durable_runtime.py:160-169 | such sessions arise: a process killed between write and fsync of a COMMIT frame, its transaction fitting the frame limit at LSN 1, and opened again shows a transaction that is not synced |
| `KilledSessions.KillCostsReceipt` | python_ref/ultraballoondb_core/durable_runtime.py:160-169 | put together: in any encoding in which two one-edge transactions fit at the first three LSNs, some fresh run returns a receipt and does not recover it |
| `SampleEncoding.ReceiptCanBeLost` | python_ref/ultraballoondb_core/durable_runtime.py:152-169 | there is such an encoding, decoding what it encodes, so the losing run happens |
| `SampleEncoding.SampleIsValid` | python_ref/ultraballoondb_core/durable_runtime.py:152-158 | the assumptions on encoding and digest can be met: entries written in self-delimiting binary digits decode to what was encoded |
| `KilledSessions.SyncedSinceIsSafe` | python_ref/ultraballoondb_core/durable_runtime.py:160-175 | what a session can go by: from a commit that returned a receipt, an open that repaired a torn tail, or a power loss, until the next kill, every COMMIT frame is synced and every checkpoint safe |
| `KilledSessions.NoKillIsSafe` | python_ref/ultraballoondb_core/durable_runtime.py:160-175 | without kills, whatever power losses there are, every COMMIT frame in the log is synced, so every checkpoint is safe |
| `DurableTheorems.ReopenIsIdempotent` | python_ref/ultraballoondb_core/durable_runtime.py:222-228 | after any safe run and one repairing open, a second open repairs zero bytes and loads the same memory, with or without permission to repair |
| `DurableTheorems.CommitsAboveCheckpoint` | python_ref/ultraballoondb_core/durable_runtime.py:559-560 | after any safe run, every LSN an open session will hand out lies above the checkpoint's, so recovery never skips a later commit |
| `DurableTheorems.RunKeeps` | python_ref/ultraballoondb_core/durable_runtime.py:490-645 | the representation invariant (log of whole frames plus a torn tail, replayable, ledger read off the log, checkpoint covered by the synced prefix, memory equal to the fold) holds after every run whose checkpoints are taken while every COMMIT frame is synced |
| `DurableTheorems.StepKeeps` | python_ref/ultraballoondb_core/durable_runtime.py:575-657 | each single step of the machine, kills and power losses included, keeps that invariant and moves the ledger as specified |
| `DurableTheorems.CommitKeeps` | python_ref/ultraballoondb_core/durable_runtime.py:618-645 | a commit, accepted, rejected or torn by an oversized frame, keeps the invariant and appends to the ledger exactly when accepted |
| `DurableTheorems.AppendKeeps` | python_ref/ultraballoondb_core/durable_runtime.py:647-657 | an append without COMMIT keeps the invariant and never changes the ledger |
| `DurableTheorems.CheckpointKeeps` | python_ref/ultraballoondb_core/durable_runtime.py:402-425 | taking a checkpoint while every COMMIT frame is synced keeps the invariant and never changes the ledger |
| `DurableTheorems.OpenKeeps` | python_ref/ultraballoondb_core/durable_runtime.py:550-563 | opening, repairing or refusing, keeps the invariant |
| `DurableTheorems.KillKeeps` | python_ref/ultraballoondb_core/durable_runtime.py:160-169 | a process killed at any byte of an append keeps the invariant: everything written before stays, the transaction in flight enters the ledger iff its COMMIT frame was written whole, and nothing more counts as synced |
| `DurableTheorems.CrashKeeps` | python_ref/ultraballoondb_core/durable_runtime.py:160-169 | a power loss keeps the invariant: any part above the synced bytes may go, whole transactions included, and the ledger is cut to the COMMIT frames that are left |
| `DurableSafety.CutPosts` | python_ref/ultraballoondb_core/durable_runtime.py:152-237 | cutting a log at any byte cuts its list of committed transactions to those whose COMMIT frame is left whole |
| `DurableSafety.ReplayIsFold` | python_ref/ultraballoondb_core/durable_runtime.py:490-540 | replaying a log is folding the transactions its COMMIT frames close, in order |
| `CheckpointLoading.CheckpointRestores` | python_ref/ultraballoondb_core/durable_runtime.py:427-445 | loading a checkpoint gives back exactly the state it was taken of |
| `WalFormat.ScanOfAnyPrefix` | python_ref/ultraballoondb_core/durable_runtime.py:177-237 | for entries with increasing LSNs and any byte prefix of their frames, the scan reports no corruption, returns exactly the entries whose frames fit whole, and truncates to exactly their length; on the whole log it inverts framing |
| `WalFormat.ParseFrames` | python_ref/ultraballoondb_core/durable_runtime.py:152-237 | whole frames followed by any torn tail parse to exactly those entries, with the tail measured |
| `WalFormat.CutFrames` | python_ref/ultraballoondb_core/durable_runtime.py:152-158 | cutting framed entries at any byte leaves the whole frames and a torn tail |
| `WalFormat.FramesAppend` | python_ref/ultraballoondb_core/durable_runtime.py:160-169 | framing distributes over appending entries |
| `WalFormat.WholeFramesMaximal` | python_ref/ultraballoondb_core/durable_runtime.py:196-205 | the entries counted as whole are the most that fit in the bytes |
| `WalLayout.FrameLayout` | python_ref/ultraballoondb_core/durable_runtime.py:152-158 | byte by byte, a frame is the letters UBWL, the payload's length in four bytes, least significant first, its checksum in 32, and the payload |
| `WalLayout.ScanIff` | python_ref/ultraballoondb_core/durable_runtime.py:177-237 | which files a scan accepts: exactly those made of whole frames whose checksum, JSON and increasing LSN are right, followed by nothing or an unfinished frame; any other is refused with the fault of its first bad frame |
| `WalLayout.FitsIff` | python_ref/ultraballoondb_core/durable_runtime.py:152-156 | an entry is small enough to be written exactly when it takes at most 64 MiB, which is exactly when a scan reads its frame back |
| `Replay.TransactionReplays` | python_ref/ultraballoondb_core/durable_runtime.py:497-525 | a validated transaction under a fresh txid replays without conflict, duplicate BEGIN or count mismatch, and applies exactly its operations |
| `Replay.OpeningReplays` | python_ref/ultraballoondb_core/durable_runtime.py:503-511 | BEGIN and operations without COMMIT only become pending: the state is untouched |
| `Replay.CheckpointAgrees` | python_ref/ultraballoondb_core/durable_runtime.py:519-529 | a checkpoint taken after the first j entries, followed by replay of the whole log, gives the state and last LSN of full replay, for every j |
| `ReplayMeaning.AppliesIff` | python_ref/ultraballoondb_core/durable_runtime.py:456-488 | operations apply exactly when every record carries its own checksum and none differs from one of its id in the state or before it; the state then holds what it held and exactly what they put |
| `ReplayMeaning.LoadsIff` | python_ref/ultraballoondb_core/durable_runtime.py:427-445 | a checkpoint loads exactly when its checksum is that of its state, every record carries its own and no id has two different records; it then gives back exactly its records, edges, ids and LSN |
| `ReplayMeaning.ReplaysIff` | python_ref/ultraballoondb_core/durable_runtime.py:490-527 | a log replays exactly when every transaction begins once, puts and commits only while open, commits the number of operations it put, and the committed ones apply one after another |
| `ReplayMeaning.ReplayCounts` | python_ref/ultraballoondb_core/durable_runtime.py:512-540 | over a checkpoint of the first j entries, recovery sees every committed transaction and replays exactly those committed later |
| `DurableSafety.TransactionAddsToLedger` | python_ref/ultraballoondb_core/durable_runtime.py:618-629 | logging a transaction adds exactly it to the committed transactions the log reads back as |
| `DurableSafety.SyncedFramesSurvive` | python_ref/ultraballoondb_core/durable_runtime.py:160-169 | frames inside the synced length survive every cut at or beyond it |
| `DurableRuntime.Storage.AppendEntries` | python_ref/ultraballoondb_core/durable_runtime.py:160-169 | appending writes the frames in order, up to the first too large, and syncs only when all were written |
| `DurableRuntime.Storage.Scan` | python_ref/ultraballoondb_core/durable_runtime.py:177-237 | the scan loop computes the parse of the file and truncates a torn tail only when allowed |
| `DurableRuntime.DurableDatabaseRuntime.ApplyOperation` | python_ref/ultraballoondb_core/durable_runtime.py:456-488 | applying an operation changes the overlay as specified and leaves it alone on a record conflict |
| `DurableRuntime.DurableDatabaseRuntime.ValidateOperations` | python_ref/ultraballoondb_core/durable_runtime.py:587-616 | validation against the shadow accepts exactly the lists that would apply |
| `DurableRuntime.DurableDatabaseRuntime.Commit` | python_ref/ultraballoondb_core/durable_runtime.py:618-645 | commit takes the machine's commit step, returns a receipt iff open, admissible and small enough, and the receipt's LSN, counts and state digest are those of the new state |
| `DurableRuntime.DurableDatabaseRuntime.AppendUncommittedTransaction` | python_ref/ultraballoondb_core/durable_runtime.py:647-657 | takes the machine's uncommitted-append step |
| `DurableRuntime.DurableDatabaseRuntime.StatePayload` | python_ref/ultraballoondb_core/durable_runtime.py:374-397 | lists each record once, by id, and each edge once, by key: the payload of the current state |
| `DurableRuntime.DurableDatabaseRuntime.TakeCheckpointNow` | python_ref/ultraballoondb_core/durable_runtime.py:402-425 | replaces the checkpoint file with a document of the current state in canonical order, the machine's checkpoint step |
| `DurableRuntime.DurableDatabaseRuntime.LoadCheckpointFile` | python_ref/ultraballoondb_core/durable_runtime.py:427-445 | loads the checkpoint into empty fields, or fails as specified |
| `DurableRuntime.DurableDatabaseRuntime.RecoverFromWal` | python_ref/ultraballoondb_core/durable_runtime.py:490-540 | the recovery loop over pending transactions computes the replay function, with the numbers of transactions seen, replayed and left pending |
| `DurableRuntime.DurableDatabaseRuntime.OpenNow` | python_ref/ultraballoondb_core/durable_runtime.py:550-563 | takes the machine's open step; it is open afterwards iff it succeeded |
| `DurableRuntime.DurableDatabaseRuntime.CloseNow` | python_ref/ultraballoondb_core/durable_runtime.py:565-568 | takes the machine's close step: the session is gone, the files stay as they are |
| `DurableRuntime.DurableDatabaseRuntime.RebuildMergedGraph` | python_ref/ultraballoondb_core/durable_runtime.py:542-548 | the merged overlay is the edge set listed in key order |
| `StateOrder.EdgeOrderUnique` | python_ref/ultraballoondb_core/durable_runtime.py:542-548 | there is only one such listing, so the merged sequence does not depend on the order of application |
| `StateOrder.PayloadUnique` | python_ref/ultraballoondb_core/durable_runtime.py:374-400 | a state has one payload and one state_sha256, whatever order anything was committed or reloaded in |
| `StateOrder.CheckpointsAgree` | python_ref/ultraballoondb_core/durable_runtime.py:402-425 | two checkpoints of one state at one LSN are the same document |
| `StateOrder.RecordOrder` | python_ref/ultraballoondb_core/durable_runtime.py:382 | record ids are totally ordered, so sorting by id leaves no choice |
| `StateOrder.StringLeIff` | python_ref/ultraballoondb_core/durable_runtime.py:382 | that order is by code point: after the common part, the first id ends or has the smaller character |
| `StateOrder.EdgesAscend` | python_ref/ultraballoondb_core/durable_runtime.py:94-104 | in the listing sources ascend, then targets, then types, then weights |
| `DurableRuntime.DurableTransaction.PutRecord` | python_ref/ultraballoondb_core/durable_runtime.py:246-261 | accepts exactly open, named, non-negative records and appends the operation |
| `DurableRuntime.DurableTransaction.PutEdge` | python_ref/ultraballoondb_core/durable_runtime.py:263-284 | accepts exactly open, typed, non-negative edges with weight in [0,1], stored to the nearest millionth, halves to the even one |
| `DurableRuntime.DurableTransaction.CommitAndClose` | python_ref/ultraballoondb_core/durable_runtime.py:290-294 | closes the transaction whatever happens, refuses a second use, and otherwise takes the commit step |
| `DurableRuntime.DurableTransaction.Abort` | python_ref/ultraballoondb_core/durable_runtime.py:296-298 | closes the transaction, drops its operations and touches neither the runtime nor its files |
| `Ranking.CutBeforeMerge` | python_ref/ultraballoondb_core/durable_runtime.py:701-728 | merging per-seed results already cut to top_k, keeping the best row per node and cutting again gives the same list as merging everything and cutting once |
| `Ranking.MergeResults` | python_ref/ultraballoondb_core/durable_runtime.py:701-728 | the merging loop keeps, per node, the first best row, and returns the top_k of the ranked listing |
| `Ranking.RankedUnique` | python_ref/ultraballoondb_core/durable_runtime.py:727 | there is one ranked listing of a result table |
| `Ranking.RankedOrder` | python_ref/ultraballoondb_core/wave.py:124 | a ranked listing falls by score, rises at one score by path length and at one length by node |
| `Ranking.MergeKeepsFirstBest` | python_ref/ultraballoondb_core/durable_runtime.py:713-724 | the merge keeps, for exactly the nodes that occur, the first of the best rows |
| `WaveOptimality.WaveIsMaximum` | python_ref/ultraballoondb_core/wave.py:73-112 | with factors in [0,1], no tolerance and max_steps at least node count minus one, a node is labelled iff an unblocked, allowed walk that stays at or above the threshold reaches it, and its energy is the maximum product over those walks |
| `WaveOptimality.WaveOptimal` | python_ref/ultraballoondb_core/wave.py:73-112 | with tolerance eps the loss is at most eps per hop; with eps 0 nothing is lost |
| `WaveOptimality.WalkDominated` | python_ref/ultraballoondb_core/wave.py:107-112 | in a saturated label table every walk is dominated by the label of its end, up to eps per hop |
| `WaveOptimality.VisitKeeps` | python_ref/ultraballoondb_core/wave.py:83-112 | each turn keeps the closure invariant over queue and labels, including that label paths are simple |
| `WaveOptimality.ExhaustedArc` | python_ref/ultraballoondb_core/wave.py:88-89 | an item at the step bound has visited every node, so its arcs are already answered |
| `WaveStepBound.StepBoundIff` | python_ref/ultraballoondb_core/wave.py:83-112 | which step bounds are enough: for every node count n, bound m and non-negative tolerance, every accepted query with factors in [0,1] answers every walk of at most m hops that stays above the threshold and clear of it by the tolerance per hop, losing at most the tolerance per hop, on every graph of n nodes that add_edge builds, iff m <= 1 or m >= n - 1 or the tolerance is at least a half |
| `WaveStepBound.BindingBoundHidesWalks` | python_ref/ultraballoondb_core/wave.py:28-112 | for every bound m from 2 to n - 2 and tolerance below a half, add_edge builds a graph of n nodes, otherwise within all conditions, on which a two-hop walk well above the threshold ends at a node the wave never labels |
| `WaveStepBound.BoundSuffices` | python_ref/ultraballoondb_core/wave.py:83-112 | on any well-formed graph each of the three conditions is enough |
| `Wave.WaveSound` | python_ref/ultraballoondb_core/wave.py:83-112 | for any rigor and tolerance every label is the energy, length and type path of an actual walk of at most max_steps allowed, unblocked hops |
| `WaveMeaning.LabelsAreReached` | python_ref/ultraballoondb_core/wave.py:28-127 | said of the added edges alone: every label is the energy, length and kinds of a chain of edges from the seed, each of a kind in the mask other than 10, to a target no kind 10 edge of the same source names, each prefix at or above the threshold |
| `WaveMeaning.LabelsAreGreatest` | python_ref/ultraballoondb_core/wave.py:28-127 | with no tolerance, factors in [0,1] and max_steps at least every node id, exactly the ends of such chains are labelled, each with the greatest energy of any |
| `WaveMeaning.AllowedIsPermitted` | python_ref/ultraballoondb_core/wave.py:92-101 | the filters of the inner loop let through exactly the edges of a kind in the mask other than 10 whose target no kind 10 edge of the same source names |
| `WaveMeaning.WalkIsPath` | python_ref/ultraballoondb_core/wave.py:83-101 | the walks of the search are the chains of such edges out of the seed |
| `WaveMeaning.EnergyIsLeft` | python_ref/ultraballoondb_core/wave.py:102-103 | the energy of a walk is the product of attenuation, weight and rigor over its edges, zero for a kind without attenuation |
| `Wave.VisitDescends` | python_ref/ultraballoondb_core/wave.py:83-112 | every turn lowers the queue's weight, the sum of (edges + 1)^(max_steps - steps) over queued items, so the loop ends |
| `WaveEngine.TypedGraph.AddEdge` | python_ref/ultraballoondb_core/wave.py:28-37 | accepts exactly non-negative ends and weights in [0,1]; the graph is the one its accepted edges build, node count included |
| `WaveEngine.BuiltIsWellFormed` | python_ref/ultraballoondb_core/wave.py:28-37 | such a graph is well formed, its adjacency lists the edges in order of arrival and its blocked targets those of the blocking edges |
| `WaveEngine.TypedGraph.ValidIsWellFormed` | python_ref/ultraballoondb_core/wave.py:19-37 | every graph object is well formed, counts its edges and lists each added edge under its source, in order of arrival |
| `WaveEngine.Propagate` | python_ref/ultraballoondb_core/wave.py:73-112 | the heap loop computes the reference search |
| `WaveEngine.RelaxArc` | python_ref/ultraballoondb_core/wave.py:92-112 | one edge of the inner loop, with its filters in order |
| `WaveEngine.WaveActivation` | python_ref/ultraballoondb_core/wave.py:61-127 | rejects exactly the bad configurations and otherwise returns the top_k of the ranked rows at or above the threshold |
| `Heap.Front` | python_ref/ultraballoondb_core/wave.py:84 | the popped item is one nothing in the queue comes before: greatest energy, then smallest node, then fewest steps, then least type path |
| `Heap.PathLessIff` | python_ref/ultraballoondb_core/wave.py:84 | type paths compare as tuples: after the common part, one ends or has the smaller type |
| `Csr.BuildFromSortedEdges` | python_ref/ultraballoondb_core/csr_mmap_hotpath.py:86-129 | accepts exactly the non-empty sorted, packable lists and builds an index whose node rows cut the edge file end to end |
| `Csr.AcceptedIff` | python_ref/ultraballoondb_core/csr_mmap_hotpath.py:104-124 | which edge lists are taken: non-empty, ascending by source, kind, target and attenuation class, with ids of 64 and classes of 32 bits |
| `Csr.CsrMmapHotGraph.FindRange` | python_ref/ultraballoondb_core/csr_mmap_hotpath.py:171-184 | binary search finds the range holding exactly the node's edges, or proves there is none, reading at most k of fewer than 2^k rows |
| `Csr.CsrMmapHotGraph.GetEdges` | python_ref/ultraballoondb_core/csr_mmap_hotpath.py:186-198 | returns exactly the input edges of the node in input order, for every node |
| `Csr.RowSlice` | python_ref/ultraballoondb_core/csr_mmap_hotpath.py:171-198 | the slice of a row is the scan of the whole list for its node |
| `Csr.NoRowNoEdges` | python_ref/ultraballoondb_core/csr_mmap_hotpath.py:184-189 | a node without a row has no edges |
| `CsrExport.ExportSubgraph` | python_ref/ultraballoondb_core/csr_mmap_hotpath.py:237-247 | looking up the selected nodes one by one yields exactly the edges a filter of the whole list keeps, in list order |
| `LayeredWave.LayerStep` | python_ref/ultraballoondb_core/csr_mmap_hotpath.py:213-226 | taking the best passing offers of layer k gives layer k+1: the maximum product over walks of exactly k+1 edges whose prefixes stay at or above the threshold |
| `LayeredWave.BestStep` | python_ref/ultraballoondb_core/csr_mmap_hotpath.py:223-225 | the running best table is the maximum over walks of at most that many edges |
| `LayeredWave.EmptyLayerEnds` | python_ref/ultraballoondb_core/csr_mmap_hotpath.py:226-228 | stopping at an empty frontier loses nothing, for every max_steps |
| `LayeredWave.MaskAllowsIff` | python_ref/ultraballoondb_core/csr_mmap_hotpath.py:216 | an edge passes a mask, a sum of powers of two, just when the bit numbered by its kind modulo 31 is in the sum |
| `LayeredWave.WalkIff` | python_ref/ultraballoondb_core/csr_mmap_hotpath.py:213-219 | the walks of the layered wave are the chains of edges that pass the mask, out of a seed |
| `LayeredWave.ListingOrder` | python_ref/ultraballoondb_core/csr_mmap_hotpath.py:229-235 | rows fall by energy, ties rise by node, and top_k cuts from the front, or from the end when negative |
| `LayeredWave.ExpandFrontier` | python_ref/ultraballoondb_core/csr_mmap_hotpath.py:214-225 | the double loop offers exactly the edges out of the frontier and keeps every predecessor a real allowed edge with best[dst] <= best[pred] * weight |
| `LayeredWave.WaveActivation` | python_ref/ultraballoondb_core/csr_mmap_hotpath.py:200-235 | for non-negative weights the best table is exact for every max_steps and the rows are the slice up to top_k, of either sign, of its ranked listing |
| `Sha256.Sha256State.Update` | rust_native/ultraballoondb-backup/src/lib.rs:827-849 | absorbs the input however the message is cut into pieces |
| `Sha256.Sha256State.Finalize` | rust_native/ultraballoondb-backup/src/lib.rs:851-871 | the output is the digest of everything absorbed, with the 64-bit length wrapped |
| `Sha256.WrappedIsDigest` | rust_native/ultraballoondb-backup/src/lib.rs:827-852 | below 2^61 bytes that is the digest of sections 5.1.1, 5.2.1, 5.3.3 and 6.2.2 of FIPS 180-4 |
| `Sha256.Sha256State.CompressBlock` | rust_native/ultraballoondb-backup/src/lib.rs:873-908 | the in-place compression is the standard's |
| `Sha256.BuildSchedule` | rust_native/ultraballoondb-backup/src/lib.rs:884-892 | the message schedule loop computes W of section 6.2.2 |
| `Sha256.RunRounds` | rust_native/ultraballoondb-backup/src/lib.rs:893-903 | the 64 rounds compute the working variables of section 6.2.2 |
| `Sha256.BlocksAppend` | rust_native/ultraballoondb-backup/src/lib.rs:840-844 | hashing blocks one after another is hashing their concatenation |
| `Sha256.DigestChunks` | rust_native/ultraballoondb-backup/src/lib.rs:395-416 | the digest and size of a file do not depend on how reading splits it |
| `Sha256Example.DigestOfAbc` | rust_native/ultraballoondb-backup/src/lib.rs:827-908 | the digest of abc is the one FIPS 180-4 gives, reached through the padded block, the 64 words of its schedule and the 64 rounds |
| `Sha256.BigEndianAt` | rust_native/ultraballoondb-backup/src/lib.rs:863 | byte i of a k-byte length field has the weight 256^(k - 1 - i): most significant first |
| `Sha256.FromWordAt` | rust_native/ultraballoondb-backup/src/lib.rs:864-870 | the four bytes of a word, most significant first, weigh what it is worth and read back as it |
| `LittleEndian.ToLEAt` | rust_native/ultraballoondb-backup/src/lib.rs:589-601 | byte i of a written integer is the digit of weight 256^i: least significant first |
| `LittleEndian.FromLEWeighs` | rust_native/ultraballoondb-backup/src/lib.rs:758-769 | and an integer read is the sum of its bytes at those weights |
| `BackupCodec.DecodeOfEncode` | rust_native/ultraballoondb-backup/src/lib.rs:584-684 | decoding an encoded manifest gives it back with its digest filled in |
| `BackupCodec.EncodeOfDecode` | rust_native/ultraballoondb-backup/src/lib.rs:584-684 | every accepted byte string is canonical: re-encoding its manifest gives the same bytes |
| `BackupLayout.Letters` | rust_native/ultraballoondb-backup/src/lib.rs:15-19 | the magics and domains, letter by letter |
| `BackupLayout.ManifestLayout` | rust_native/ultraballoondb-backup/src/lib.rs:584-621 | every field of a manifest at its offset: magic, version 01 00, flags 00 00, timestamp, schema version, ids, provenance, file count, entries, and the digest under the domain |
| `BackupLayout.EncodableIff` | rust_native/ultraballoondb-backup/src/lib.rs:317-334 | which manifests are written: ids of 1 to 1024 bytes without NUL or control characters, non-zero timestamp, schema and provenance, and 1 to 1000000 valid paths in strictly ascending order |
| `BackupLayout.RefusedFirst` | rust_native/ultraballoondb-backup/src/lib.rs:623-634 | fewer than 104 bytes are refused as truncated, and then a wrong digest as damaged; a receipt must have 128 bytes |
| `BackupLayout.ValidPathIff` | rust_native/ultraballoondb-backup/src/lib.rs:336-351 | which relative paths are accepted, part by part between slashes |
| `BackupLayout.DotDotRefused` | rust_native/ultraballoondb-backup/src/lib.rs:343-347 | any path with a .. part is refused, wherever it stands |
| `BackupLayout.PlainNamesAccepted` | rust_native/ultraballoondb-backup/src/lib.rs:336-351 | any join of plain names within the length limit and without backslash, colon and NUL is accepted |
| `BackupLayout.LessIff` | rust_native/ultraballoondb-backup/src/lib.rs:606-611 | paths are ordered byte by byte: after the common part, one ends or has the smaller byte |
| `BackupCodec.DecodeManifest` | rust_native/ultraballoondb-backup/src/lib.rs:623-684 | the cursor-walking decoder computes the reference parse on arbitrary bytes, reading in bounds, errors included |
| `BackupCodec.EncodeManifest` | rust_native/ultraballoondb-backup/src/lib.rs:584-621 | the encoder succeeds on exactly the valid manifests with strictly sorted paths, and writes the canonical bytes |
| `BackupCodec.Reader.Read` | rust_native/ultraballoondb-backup/src/lib.rs:750-757 | takes the next bytes or reports truncation without moving |
| `BackupCodec.Reader.ReadString` | rust_native/ultraballoondb-backup/src/lib.rs:770-777 | accepts exactly bounded, non-empty UTF-8 strings |
| `BackupCodec.Reader.ReadFiles` | rust_native/ultraballoondb-backup/src/lib.rs:648-661 | the file loop: valid, strictly increasing paths |
| `BackupCodec.StringBack` | rust_native/ultraballoondb-backup/src/lib.rs:740-777 | whatever parses as a string is its own writing |
| `BackupCodec.DecodeOfEncodeReceipt` | rust_native/ultraballoondb-backup/src/lib.rs:686-738 | a receipt encodes iff its file count fits 32 bits, and decoding gives it back with its digest |
| `BackupCodec.EncodeOfDecodeReceipt` | rust_native/ultraballoondb-backup/src/lib.rs:686-738 | accepted receipts re-encode to the same 128 bytes |
| `BackupLayout.ReceiptLayout` | rust_native/ultraballoondb-backup/src/lib.rs:686-702 | every field of a receipt at its offset in the 128 bytes |
| `BackupLayout.PlanLayout` | rust_native/ultraballoondb-backup/src/lib.rs:568-582 | every field under the plan digest at its offset |
| `BackupCodec.UpgradePlanned` | rust_native/ultraballoondb-backup/src/lib.rs:544-566 | an upgrade is planned iff the target is non-zero, no downgrade, at most 64 steps away, sizes sum below 2^64 and paths fit; the plan reports versions, steps, file count and true total, and the digest of its layout |
| `BackupCodec.PlanInputInjective` | rust_native/ultraballoondb-backup/src/lib.rs:568-582 | the bytes under the plan digest determine manifest digest, versions, entries and total |
| `Bits.BitSet` | python_ref/ultraballoondb_core/g1g2_delta_patch.py:27-33 | sets exactly bit k to the low bit of the value and leaves every other bit |
| `Bits.BitsDecideBytes` | python_ref/ultraballoondb_core/g1g2_delta_patch.py:21-24 | bitmaps that agree bit by bit are the same bytes |
| `Bits.ByteIsSum` | python_ref/ultraballoondb_core/g1g2_delta_patch.py:21-24 | a byte is the sum of its bits, bit j counting 2^j |
| `MatrixDelta.BitmapBytesAre` | python_ref/ultraballoondb_core/g1g2_delta_patch.py:68-84 | byte a of the rebuilt bitmap is the sum of cells 8a to 8a + 7, cell 8a + j counting 2^j, and there are as many bytes as the cells need |
| `MatrixRule.RuleIsTable` | python_ref/ultraballoondb_core/g1g2_delta_patch.py:46-48 | the rule is an 8 by 8 table of bits repeated in both directions |
| `MatrixDelta.Rebuild` | python_ref/ultraballoondb_core/g1g2_delta_patch.py:68-84 | bit k of the rebuilt bitmap is set iff the view of cell k is not zero, and the padding is zero |
| `MatrixDelta.BitmapsAgree` | python_ref/ultraballoondb_core/g1g2_delta_patch.py:68-84 | models that show the same cells rebuild the same bytes |
| `MatrixDelta.ShownIsView` | python_ref/ultraballoondb_core/g1g2_delta_patch.py:50-60 | inside the columns a query shows the view of its key |
| `MatrixDelta.MatrixG1G2DeltaModel.Query` | python_ref/ultraballoondb_core/g1g2_delta_patch.py:53-60 | patch over exception over rule, with the layer named |
| `MatrixDelta.MatrixG1G2DeltaModel.ApplyPatch` | python_ref/ultraballoondb_core/g1g2_delta_patch.py:62-66 | stores the low bit of the value and reports what was shown before |
| `MatrixDelta.DirectApply` | python_ref/ultraballoondb_core/g1g2_delta_patch.py:95-99 | fails iff some bit index is out of range; negative ones count from the end; otherwise each patched bit holds its last write and every other bit is kept |
| `MatrixDelta.PlaceFromEnd` | python_ref/ultraballoondb_core/g1g2_delta_patch.py:27-33 | bit -1 is the last of a buffer, and bit -j the j-th from its end |
| `MatrixDelta.DirectApplyIsPatch` | python_ref/ultraballoondb_core/g1g2_delta_patch.py:68-99 | for records inside the matrix, patching the rebuilt bitmap equals rebuilding the patched model |
| `PrefixDelta.Rebuild` | python_ref/ultraballoondb_core/g1g2_delta_patch.py:130-140 | the rebuilt text is the shown records one after another |
| `PrefixRule.RecordIs` | python_ref/ultraballoondb_core/g1g2_delta_patch.py:113-114 | the template record: prefix, index in ten decimal digits, fixed text, index modulo 97 in two, newline |
| `PrefixDelta.PrefixFamilyG1G2DeltaModel.Query` | python_ref/ultraballoondb_core/g1g2_delta_patch.py:116-123 | patch over exception over template record |
| `PrefixDelta.PrefixFamilyG1G2DeltaModel.ApplyPatch` | python_ref/ultraballoondb_core/g1g2_delta_patch.py:125-128 | stores the record and reports what was shown before |
| `Layers.LastWriterWins` | python_ref/ultraballoondb_core/g1g2_patch_chain_compaction.py:52-54 | the overlay holds a cell iff some event names it, and then the last such event's value |
| `Layers.CompactedKeepsView` | python_ref/ultraballoondb_core/g1g2_patch_chain_compaction.py:100-111 | compaction keeps the view of every key and keeps as exceptions exactly the keys whose view differs from the rule |
| `Layers.CompactedCanonical` | python_ref/ultraballoondb_core/g1g2_patch_chain_compaction.py:100-113 | two states compact to the same exception map iff they show the same view |
| `Layers.ItemsBack` | python_ref/ultraballoondb_core/g1g2_patch_chain_compaction.py:74-90 | rebuilding a dictionary from its sorted items gives it back |
| `MatrixChain.MatrixPatchChain.AppendPatch` | python_ref/ultraballoondb_core/g1g2_patch_chain_compaction.py:41-54 | appends the numbered event with the value shown before, and keeps the overlay the last-writer fold of the log |
| `MatrixChain.MatrixPatchChain.Query` | python_ref/ultraballoondb_core/g1g2_patch_chain_compaction.py:32-39 | overlay over base exceptions over rule; base patches are not consulted |
| `MatrixChain.MatrixPatchChain.RebuildBytes` | python_ref/ultraballoondb_core/g1g2_patch_chain_compaction.py:56-72 | the bitmap of the chain's view |
| `MatrixChain.MatrixPatchChain.MakeRollbackBundle` | python_ref/ultraballoondb_core/g1g2_patch_chain_compaction.py:74-80 | base exceptions in key order and the whole log |
| `MatrixChain.MatrixPatchChain.FromRollbackBundle` | python_ref/ultraballoondb_core/g1g2_patch_chain_compaction.py:82-98 | succeeds iff the events are numbered contiguously; restores exceptions, log and last-writer overlay |
| `MatrixChain.MatrixPatchChain.Compact` | python_ref/ultraballoondb_core/g1g2_patch_chain_compaction.py:100-126 | fails iff there are candidates and n is zero; otherwise the canonical exceptions, and kept plus reverted counts make up the candidates |
| `MatrixChain.CompactExceptions` | python_ref/ultraballoondb_core/g1g2_patch_chain_compaction.py:101-111 | the compaction loop computes the canonical exceptions |
| `MatrixChain.CompactKeepsQueries` | python_ref/ultraballoondb_core/g1g2_patch_chain_compaction.py:32-126 | every query inside the columns is answered as before |
| `MatrixChain.CompactKeepsBytes` | python_ref/ultraballoondb_core/g1g2_patch_chain_compaction.py:56-113 | the compacted model rebuilds the very bytes the chain rebuilt |
| `MatrixChain.CompactKeepsQueryIff` | python_ref/ultraballoondb_core/g1g2_patch_chain_compaction.py:32-111 | outside the columns, exactly when a query is answered as before |
| `MatrixChain.OutsideQueryChanges` | python_ref/ultraballoondb_core/g1g2_patch_chain_compaction.py:32-111 | a query outside the columns that compaction changes |
| `MatrixChain.FirstEventHoldsBase` | python_ref/ultraballoondb_core/g1g2_patch_chain_compaction.py:41-54 | the first event on a cell recorded the base value |
| `MatrixChain.FreshChainShowsBaseIff` | python_ref/ultraballoondb_core/g1g2_patch_chain_compaction.py:32-39 | a chain ignores the patches of its base: a fresh one shows what its base shows, at every cell, iff each base patch repeats the value underneath it |
| `MatrixChain.FreshChainBytesIff` | python_ref/ultraballoondb_core/g1g2_patch_chain_compaction.py:56-72 | its rebuilt bytes are those of its base iff each base patch keeps the bit underneath it |
| `MatrixChain.PatchedBaseIsIgnored` | python_ref/ultraballoondb_core/g1g2_patch_chain_compaction.py:32-39 | a base whose patch a chain over it does not show |
| `MatrixChain.RollbackRestores` | python_ref/ultraballoondb_core/g1g2_patch_chain_compaction.py:74-98 | exporting a rollback bundle and reading it back restores base, log and overlay |
| `PrefixChain.PrefixPatchChain.AppendPatch` | python_ref/ultraballoondb_core/g1g2_patch_chain_compaction.py:148-159 | as for matrices, recording the digest of what was shown |
| `PrefixChain.PrefixPatchChain.RebuildBytes` | python_ref/ultraballoondb_core/g1g2_patch_chain_compaction.py:161-171 | the text of the chain's view |
| `PrefixChain.PrefixPatchChain.FromRollbackBundle` | python_ref/ultraballoondb_core/g1g2_patch_chain_compaction.py:182-207 | succeeds iff the events are numbered contiguously; restores exceptions, log and last-writer overlay |
| `PrefixChain.PrefixPatchChain.Compact` | python_ref/ultraballoondb_core/g1g2_patch_chain_compaction.py:209-238 | the canonical exceptions, and kept plus reverted counts make up the candidates |
| `PrefixChain.CompactKeepsText` | python_ref/ultraballoondb_core/g1g2_patch_chain_compaction.py:161-225 | the compacted model rebuilds the very text the chain rebuilt |
| `PrefixChain.FreshChainShowsBaseIff` | python_ref/ultraballoondb_core/g1g2_patch_chain_compaction.py:139-171 | a fresh chain answers every query as its base, and rebuilds its text for every count, iff each base patch repeats the record underneath it |
| `PrefixChain.PatchedBaseIsIgnored` | python_ref/ultraballoondb_core/g1g2_patch_chain_compaction.py:139-146 | a base record patched to nothing, which a chain over it shows from the template |
| `PrefixChain.RollbackRestores` | python_ref/ultraballoondb_core/g1g2_patch_chain_compaction.py:173-207 | exporting a rollback bundle and reading it back restores base, log and overlay |
| `HotPatchCore.ReplayExported` | python_ref/ultraballoondb_core/g1g2_hot_patch_xfer.py:100-206 | replaying exported operations on their base succeeds and reaches the plan's target |
| `HotPatchCore.UndoExported` | python_ref/ultraballoondb_core/g1g2_hot_patch_xfer.py:250-271 | replaying the inverse on the target always succeeds; touched cells then show the stored form of what they showed, others what they showed |
| `HotPatchCore.RestoredIff` | python_ref/ultraballoondb_core/g1g2_hot_patch_xfer.py:250-271 | the whole view comes back iff every touched cell showed a value the model stores unchanged |
| `HotPatchCore.TargetIsLastWriter` | python_ref/ultraballoondb_core/g1g2_hot_patch_xfer.py:109-114 | a plan leaves the last write of each cell it names |
| `HotPatchCore.UndoneTwice` | python_ref/ultraballoondb_core/g1g2_hot_patch_xfer.py:250-271 | undoing twice gives the operations back |
| `HotPatch.ApplyMatrixIsReplay` | python_ref/ultraballoondb_core/g1g2_hot_patch_xfer.py:185-194 | application succeeds iff every operation is in bounds under its own key and its expected value is met |
| `HotPatch.ApplyPrefixIsReplay` | python_ref/ultraballoondb_core/g1g2_hot_patch_xfer.py:226-235 | the same for prefix records, digests included |
| `HotPatch.ExportMatrixBundle` | python_ref/ultraballoondb_core/g1g2_hot_patch_xfer.py:100-132 | succeeds iff the plan lies inside the matrix; records what each operation saw and both state digests; the bundle parses iff the plan is not empty, and is refused as having no operations otherwise |
| `HotPatch.SealedParsesIff` | python_ref/ultraballoondb_core/g1g2_hot_patch_xfer.py:74-97 | sealed content parses iff it has an operation and its operations are numbered in order |
| `HotPatch.RecordPlan` | python_ref/ultraballoondb_core/g1g2_hot_patch_xfer.py:107-122 | the export loop over a working copy |
| `HotPatch.ExportPrefixBundle` | python_ref/ultraballoondb_core/g1g2_hot_patch_xfer.py:135-166 | the same for prefix records, parsing included |
| `HotPatch.ApplyMatrixBundleHot` | python_ref/ultraballoondb_core/g1g2_hot_patch_xfer.py:169-206 | every refusal in order, and otherwise the replayed patches on a copy, with no rebuild |
| `HotPatch.ApplyPrefixBundleHot` | python_ref/ultraballoondb_core/g1g2_hot_patch_xfer.py:209-247 | the same for prefix records |
| `HotPatch.BuildInverseBundle` | python_ref/ultraballoondb_core/g1g2_hot_patch_xfer.py:250-280 | last first, renumbered, before and after exchanged, digests exchanged |
| `HotPatch.MatrixRoundTrip` | python_ref/ultraballoondb_core/g1g2_hot_patch_xfer.py:100-280 | for any plan, repeated cells included: apply reaches the last writes, the inverse applies, touched cells show the low bit of what they showed |
| `HotPatch.MatrixInverseRestoresIff` | python_ref/ultraballoondb_core/g1g2_hot_patch_xfer.py:185-271 | the inverse restores the whole matrix view iff every cell the plan names showed a bit |
| `HotPatch.WideExceptionIsNotRestored` | python_ref/ultraballoondb_core/g1g2_hot_patch_xfer.py:185-271 | an exception holding 5 comes back as 1 |
| `HotPatch.PrefixRoundTrip` | python_ref/ultraballoondb_core/g1g2_hot_patch_xfer.py:135-280 | for prefix records the inverse always restores the original view |
| `HotPatch.InverseTwice` | python_ref/ultraballoondb_core/g1g2_hot_patch_xfer.py:250-280 | inverting twice gives the content back; for prefix records iff the digests were those of the records |
| `HotPatch.PatchAndUndoMatrix` | python_ref/ultraballoondb_core/g1g2_hot_patch_xfer.py:100-280 | the whole exchange through bundles, each state's digest taken from its own rebuilt bytes: it goes through for exactly the non-empty plans inside the matrix |
| `HotPatch.PatchAndUndoPrefix` | python_ref/ultraballoondb_core/g1g2_hot_patch_xfer.py:135-280 | the same for prefix records |
| `FloatingExport.Walk` | python_ref/ultraballoondb_core/floating_subgraph.py:247-290 | the heap loop ends, settles at most top_k times, stops early only when the queue is empty, records every edge a settled node's energy follows, settles the root when its energy passes, and in a tame snapshot settles each node at most once, in non-increasing energy; with factors in [0,1] and max_steps at least node count minus one, what it settles is the top_k best |
| `FloatingStepBound.StepBoundIff` | python_ref/ultraballoondb_core/floating_subgraph.py:247-290 | which step bounds are enough: on every snapshot of n nodes with a given attenuation table in [0,1], weights in [0,1] and order-keeping rounding, every settled energy is the maximum over the trails within the bound and every node left out is beaten by top_k settled ones, iff m <= 1 or m >= n - 1, provided some kind of edge carries energy |
| `FloatingStepBound.BindingBoundHidesTrails` | python_ref/ultraballoondb_core/floating_subgraph.py:247-290 | for every bound m from 2 to n - 2 a snapshot of n nodes with exact energies on which the walk settles fewer nodes than it may and leaves out the end of a followed two-hop trail |
| `FloatingRuns.OutcomeDone` | python_ref/ultraballoondb_core/floating_subgraph.py:247-290 | every run of the walk keeps its invariant, order and closure, and ends with them |
| `FloatingRuns.TurnKeeps` | python_ref/ultraballoondb_core/floating_subgraph.py:258-290 | each turn, skipping or settling, keeps them |
| `FloatingRuns.PushAllKeeps` | python_ref/ultraballoondb_core/floating_subgraph.py:276-290 | expanding a settled node records every followed edge and queues its far end, and answers each of them |
| `FloatingOptimality.WalkIsBest` | python_ref/ultraballoondb_core/floating_subgraph.py:247-290 | then each settled energy is the maximum over all followed trails to its node, and a trail's end is left out only when top_k nodes settled with energies at least the trail's |
| `FloatingOptimality.TrailMatched` | python_ref/ultraballoondb_core/floating_subgraph.py:258-290 | at every turn every followed trail, of any length under a bound that reaches every node and of at most one hop under a bound of one, ends at a node settled no worse or is no better than something queued |
| `FloatingOptimality.LimitLeads` | python_ref/ultraballoondb_core/floating_subgraph.py:273-274 | an item at a step limit that reaches every node settles the last node, so its edges are already answered |
| `FloatingMeaning.FollowedIsChain` | python_ref/ultraballoondb_core/floating_subgraph.py:253-287 | the followed trails, without the engine's filters: chains of edges from the root of kinds in the mask that do not block, with energies rounded after every edge and never below the threshold |
| `FloatingMeaning.SettledByChain` | python_ref/ultraballoondb_core/floating_subgraph.py:253-287 | every settled node is reached by such a chain within max_steps, whose last energy is its own |
| `FloatingExport.Expand` | python_ref/ultraballoondb_core/floating_subgraph.py:276-290 | records and queues exactly the followed edges of the settled node, in order |
| `FloatingWalk.SettleKeeps` | python_ref/ultraballoondb_core/floating_subgraph.py:258-271 | settling a popped item keeps the invariant; in a tame snapshot its node was not settled before and nothing queued beats it |
| `FloatingExport.ExportSelfContained` | python_ref/ultraballoondb_core/floating_subgraph.py:292-318 | every exported node is reached from the root through exported edges spelling its path_edge_types, at most max_steps of them |
| `FloatingExport.ExportClosed` | python_ref/ultraballoondb_core/floating_subgraph.py:292-305 | when the queue ran dry every recorded edge is exported |
| `FloatingExport.Export` | python_ref/ultraballoondb_core/floating_subgraph.py:239-305 | refuses exactly the invalid parameters and otherwise gives the nodes, edges and paths of such a fragment, the best ones under the same conditions |
| `FloatingImport.DecodeOfEncode` | python_ref/ultraballoondb_core/floating_subgraph.py:198-231 | decode_stream gives back what encode_stream was given |
| `FloatingImport.AcceptedIff` | python_ref/ultraballoondb_core/floating_subgraph.py:212-232 | a stream is accepted exactly when it reads as an envelope of the right magic and version around a content whose digest it carries, is canonical, has its keys and holds pointers only |
| `FloatingImport.ImportedExactly` | python_ref/ultraballoondb_core/floating_subgraph.py:361-396 | how an accepted stream imports: not again once its digest is known, failing on a malformed node record, then on a malformed edge record, and else with its counts |
| `FloatingImport.RepeatsDoNotMatter` | python_ref/ultraballoondb_core/floating_subgraph.py:361-395 | importing a list with repeats equals importing it with later repeats removed, whether or not different streams share a digest |
| `FloatingImport.ImportListOnce` | python_ref/ultraballoondb_core/floating_subgraph.py:361-395 | the same from any target |
| `FloatingImport.AddNodesExactly` | python_ref/ultraballoondb_core/floating_subgraph.py:377-380 | nodes gain exactly the stream's records, the last one per node |
| `FloatingImport.AddEdgesExactly` | python_ref/ultraballoondb_core/floating_subgraph.py:382-385 | edges gain exactly the stream's edges, in order |
| `FloatingImport.SyntheticHotSnapshot.HotPatch` | python_ref/ultraballoondb_core/floating_subgraph.py:361-395 | the importing loops compute the reference import, partial effects of a malformed record included |
| `PagedStore.StoreAndFetch` | python_ref/ultraballoondb_core/page_size_benchmark.py:104-266 | records written, closed and fetched by any selection of pointers, repeats included, with any gap, come back in request order |
| `PagedStore.PagedPayloadWriter.WriteRecord` | python_ref/ultraballoondb_core/page_size_benchmark.py:130-154 | refuses exactly records larger than a page; otherwise no record crosses a page, earlier records stay, and a new page starts only when the record does not fit |
| `PagedStore.PagedPayloadWriter.FlushPage` | python_ref/ultraballoondb_core/page_size_benchmark.py:124-128 | flushing keeps every stored record |
| `PagedStore.PagedPayloadWriter.Close` | python_ref/ultraballoondb_core/page_size_benchmark.py:156-163 | the closed file holds every record at the offset of its pointer, whole pages, zeros wherever no record lies, and a header with the true counts |
| `PagedStore.StoredReads` | python_ref/ultraballoondb_core/page_size_benchmark.py:215-222 | a stored record reads back as its payload |
| `PagedStore.Layout` | python_ref/ultraballoondb_core/page_size_benchmark.py:19-22 | the header's fields at their offsets, and a record as its length in four bytes and its payload |
| `PagedStore.OpenWriter` | python_ref/ultraballoondb_core/page_size_benchmark.py:104-114 | a writer is opened for exactly the page sizes 4096, 16384, 65536 and 262144 |
| `PagedFetch.BuildPlan` | python_ref/ultraballoondb_core/page_size_benchmark.py:225-246 | the planner sorts, joins only pointers of one page size that start at most the gap past one before, and keeps neighbouring ranges of one page size more than a gap apart |
| `PagedFetch.PlanCoversOnce` | python_ref/ultraballoondb_core/page_size_benchmark.py:225-246 | every requested index lies in the plan exactly once |
| `PagedFetch.PlanOrder` | python_ref/ultraballoondb_core/page_size_benchmark.py:226 | a plan goes by offset and, at one offset, by stored length |
| `PagedFetch.RangesDisjoint` | python_ref/ultraballoondb_core/page_size_benchmark.py:234-245 | over one page size planned ranges ascend more than the gap apart; with gap 0 they are disjoint |
| `PagedFetch.FetchCoalesced` | python_ref/ultraballoondb_core/page_size_benchmark.py:249-266 | for any pointers and any gap the coalesced read succeeds iff every pointer reads on its own, with the same payloads in request order |
| `PayloadFetch.BuildPlan` | python_ref/ultraballoondb_core/payload_fetch.py:146-193 | rejects exactly bad limits; spans hold the sorted pointers in order, are tight, obey the size limit when joined, waste at most a gap per join, and no span could have taken the next one's first record |
| `PayloadFetch.PlanKeepsPointers` | python_ref/ultraballoondb_core/payload_fetch.py:164-193 | every pointer lies in the plan exactly as often as requested |
| `PayloadFetch.PlanLimits` | python_ref/ultraballoondb_core/payload_fetch.py:164-190 | pointers go by offset and id; one is joined only within the gap and the span limit, and a span is begun only past one of them |
| `PayloadFetch.PlanCost` | python_ref/ultraballoondb_core/payload_fetch.py:164-193 | total span bytes are at most the requested bytes plus max_gap_bytes for every pointer joined |
| `PayloadFetch.NaiveFetch` | python_ref/ultraballoondb_core/payload_fetch.py:196-210 | one read per pointer, last pointer per id wins |
| `PayloadFetch.CoalescedFetch` | python_ref/ultraballoondb_core/payload_fetch.py:213-232 | span reads and slices, for any list of spans |
| `PayloadFetch.SliceEnds` | python_ref/ultraballoondb_core/payload_fetch.py:225-229 | block slices as Python takes them, negative bounds from the end included |
| `PayloadFetch.CoalescedAgrees` | python_ref/ultraballoondb_core/payload_fetch.py:146-232 | whenever the coalesced read of a plan succeeds so does the naive one, and with ids naming one pointer the payload maps are equal |
| `PayloadFetch.CoalescedSucceedsIff` | python_ref/ultraballoondb_core/payload_fetch.py:146-232 | when the naive read succeeds, the coalesced one does iff no span of positive length ends past the store |
| `PayloadFetch.EmptyRecordPastEnd` | python_ref/ultraballoondb_core/payload_fetch.py:146-232 | an empty record past the end that the naive read returns and the coalesced read fails on |
| `AdaptivePack.EncodeLine` | python_ref/ultraballoondb_core/g1g2_small_adaptive_pack.py:270-295 | the tokenizer loop ends and produces exactly the greedy steps, with literals as maximal runs |
| `AdaptivePack.TokenizedLossless` | python_ref/ultraballoondb_core/g1g2_small_adaptive_pack.py:270-295 | tokenizing loses no byte and names only dictionary tokens |
| `AdaptivePack.StepsAreLongest` | python_ref/ultraballoondb_core/g1g2_small_adaptive_pack.py:277-292 | every token used is a longest one matching there, and a literal byte stands only where none matches |
| `AdaptivePack.StartsWithIff` | python_ref/ultraballoondb_core/g1g2_small_adaptive_pack.py:277-284 | a token stands where the line goes on with it, up to the very end |
| `AdaptivePack.RebuildFile` | python_ref/ultraballoondb_core/g1g2_small_adaptive_pack.py:352-362 | fails only on a rule outside the dictionary; otherwise the bytes of the pieces in order |
| `AdaptivePack.RebuildLossless` | python_ref/ultraballoondb_core/g1g2_small_adaptive_pack.py:352-362 | the file of any lossless candidate rebuilds to the original |
| `AdaptivePack.LinesAreData` | python_ref/ultraballoondb_core/g1g2_small_adaptive_pack.py:105-108 | splitting into lines loses no byte |
| `LineSplitting.SplitLinesExactly` | python_ref/ultraballoondb_core/g1g2_small_adaptive_pack.py:105-108 | the lines are the one way to cut the data into non-empty pieces that each end in LF, CR or CRLF, the last excepted, hold no terminator before their end and never part a CRLF |
| `AdaptiveCandidates.BuildLineFamily` | python_ref/ultraballoondb_core/g1g2_small_adaptive_pack.py:181-217 | the dictionary is exactly the lines of at least four bytes that occur twice, most frequent first; every line is its rule or itself; lossless |
| `AdaptiveCandidates.SortedMeans` | python_ref/ultraballoondb_core/g1g2_small_adaptive_pack.py:190 | dictionaries fall by rank, rise at one rank by digest and at one digest by bytes |
| `AdaptiveCandidates.LexLeIff` | python_ref/ultraballoondb_core/g1g2_small_adaptive_pack.py:190 | byte order: after the common part, the first ends or has the smaller byte |
| `AdaptiveCandidates.BuildTokenDictionary` | python_ref/ultraballoondb_core/g1g2_small_adaptive_pack.py:298-319 | the tokens longest first, every line tokenized greedily; lossless |
| `AdaptiveCandidates.BuildRawSmall` | python_ref/ultraballoondb_core/g1g2_small_adaptive_pack.py:322-349 | external payload with each line's true offset and length |
| `AdaptiveCandidates.OffsetsLayout` | python_ref/ultraballoondb_core/g1g2_small_adaptive_pack.py:331-334 | each line reference is twelve bytes: offset in eight, length in four, least significant byte first |
| `AdaptiveCandidates.CountLines` | python_ref/ultraballoondb_core/g1g2_small_adaptive_pack.py:182-188 | counts every line of every file |
| `AdaptiveCandidates.SelectChooses` | python_ref/ultraballoondb_core/g1g2_small_adaptive_pack.py:438-448 | the first self-contained pack strictly below the raw size that is least by pack size and mode name, else the first raw candidate, else the first least by total size and mode name |
| `AdaptiveCandidates.NeverExpands` | python_ref/ultraballoondb_core/g1g2_small_adaptive_pack.py:438-448 | with the raw candidate on offer a self-contained choice is strictly smaller than the raw bytes |

## Left out

- JSON text, base64, UTF-8, zlib and pack serialization: parameters or plain values stand in for them.
- Real file systems, mmap, directory walking, symbolic links and path handling: files are byte sequences with append, truncate and atomic replace.
- Writes that fail inside a process for reasons other than an oversized frame; the raw-tail helper of the log.
- HTTP, command line, C ABI, Rust entry points, benchmarks, self-tests, reports: no algorithmic content.
- Relation algebra, attenuation tables, crystallization, the compact hot layout and the synthetic generators: small and separate.
- The record-by-node index, the statistics counters of the engines, and the unified base runtime under the durable overlay.
- The final rounding of reported energies is an arbitrary function in the heap engine; it is required to be idempotent, and monotone for the ordering results, only in the exporter.
- CSR row ranges beyond 64 bits; CSR rows are values, not packed bytes.
- Floating-point rounding of energies: reals carry the products. IEEE infinities and NaN do not occur.
- WaveOptimality.WaveIsMaximum: assumes `eps` is zero; for positive `eps` below one `WaveOptimal` states the loss.
- FloatingStepBound.StepBoundIff: ranges over all snapshots and over energies rounded by any order-keeping function; the failing snapshots carry energies exactly, and the synthetic edge generator of the source is not among them.
- FloatingExport.Export: gives the settled nodes, paths and edges; the provenance list, the blocked-path and depth counters and the stream's other descriptive fields are not modelled.
- The list and object shape checks of hot patch and floating streams beyond malformed records; unsupported bundle kinds.
- Header counts of a page store at or above 2^64, which struct packing would refuse.
- PagedStore.StoreAndFetch: takes records that fit a page; `WriteRecord` models the refusal of others.
- AdaptiveCandidates.BuildTokenDictionary: takes the tokens as an input; the scoring of words and phrases that selects them is a heuristic no property depends on.
- `query_line` in raw mode and the line-splitting direct apply of the prefix model.
- Backup directories, restore, copy verification and the checks around them; `validate_id` and path rules are modelled, with control characters as a parameter.
- UltraBalloonDB's storage crate, whose `sha256` the codec calls, is not part of this model; the codec takes any 32-byte digest.
