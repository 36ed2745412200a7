# OpenMLS storage, codecs and interop tooling in Dafny

This project models the parts of OpenMLS that keep state and move bytes: the
in-memory storage provider and the SQLite tables it has to agree with, the
storage-tag enum codecs, the variable-length codecs, the interop client's
tables, and the Python tool that aggregates interop results and merges them
into a README.

`dafny verify dfyconfig.toml` checks everything.

## How the parts fit

* **Bytes, JSON, keys.** `Bytes`, `Decimals`, `JsonText` and `JsonBytes` hold the
  serialized form that `serde_json` writes. `RowKeys` builds storage keys from the
  25 labels and proves them injective and scannable. `Rows` relates the flat byte
  map to typed rows (`Represents`).
* **Memory provider.** `MemoryStorage.dfy` is the class over the flat map; its
  ghost `rows` is tied to the bytes by `Valid()`, and every method says what
  happens to the rows. `FlatMap` and `ListRuns` state the byte-level run theorems.
* **Runs.** `VirtualClientOps` gives the operations of the virtual-client tables
  and proves what survives sweeps. `SqliteStorage` is the relational form, and
  `ProvidersAgree` shows that both providers hold the same tables after every run.
  `ProposalRuns` and `EpochKeyPairs` do the same for the proposal queue and the
  epoch key pairs. `StoreRuns` runs the operations on the stores themselves.
* **Interleavings.** `ProposalInterleavings`, `QueueReads` and
  `RetainedInterleavings` break each call into its lock sections, say exactly which
  schedules are safe, and then which sets of calls are safe in every schedule.
* **Codecs.** `Snapshot`, `StorageTags` and `VlCodec`.
* **Interop.** `InteropClient` is the request-by-request state machine.
  `InteropResults`, `StatusTable`, `FailureBlocks`, `FailureMerge`, `MergeTwice`
  and `NotCompleted` cover the aggregator and the two merges; `TextLines`,
  `TrimmedLines`, `Substrings` and `SortedNames` hold Python's string operations,
  and `WrittenOrder` the order of the written bullets.

## Where the code does less than one would hope

Each of these is proved with an exact condition next to it.

* Queueing each proposal ref only once does not make the queue safe under
  concurrency: a removal of the ref between the two lock sections of its own
  queueing leaves it listed without a row
  (`ProposalInterleavings.SafeExactlyWithoutStranding`).
* Queueing a listed ref again lists it twice in memory and overwrites the
  proposal, while SQLite ignores it (`ProposalRuns.InSyncExactlyWithoutRequeue`,
  `ProposalRuns.SameExactlyIfFaithful`). One removal then takes the row and leaves
  a listing, and reading the queue panics
  (`ProposalRuns.ReadableExactlyWithoutRepeatRemoved`).
* A stored `null` reads as absent from memory and as a value from SQLite
  (`StoreRuns.ReadBoth`).
* Reading the queue is not one lock section either: a removal or a clear between
  its locks makes it panic (`QueueReads.PanicsExactlyIfLost`).
* A delete of a KeyPackage that overlaps an upload of its material leaves material
  without a tag, and a sweep then drops its epoch
  (`RetainedInterleavings.SafeExactlyWithoutOverlap`,
  `RetainedInterleavings.SweepDropsReadableEpoch`).
* Epoch and leaf index run together in the epoch-key row, so epoch 1 at leaf 23
  and epoch 12 at leaf 3 collide (`EpochKeyPairStores.KeysCoincide`).
* `hashset_codec::tls_serialized_len` understates the length of every set with a
  non-empty element (`VlCodec.ReportedLenExact`).
* The comment on `record_branch_info` says it is called whenever an epoch is
  established or advances. Six handlers do not call it: the two that merge a
  ReInit commit, the two that open its successor, and the two that open a branch
  (`create_branch` records its parent). Joining a branch off a branch is therefore
  refused while nothing else has recorded that epoch, for instance a
  `create_branch` on the slot itself (`InteropClient.BranchOfBranchRefused`,
  `InteropClient.BranchJoinedExactly`, `InteropClient.CacheIsHistory`). The model
  follows the code.
* Merging a failures block again repeats its not-completed items of configs that
  were not run (`MergeTwice.MergeIdempotentExactly`). The tool itself passes every
  config of its own list as run (interop_client/docker/run-interop.py:862-865), so
  this takes another caller.
* The merge of the failures block strips its last line, and drops bullets under a
  pairing whose title it does not know (`FailureBlocks.KeptExactly`,
  `FailureBlocks.MergeReads`).

## Model

| member | source | states |
|---|---|---|
| `VirtualClientOps.KeptExactlyWhileReferenced` | memory_storage/src/lib.rs:1092-1141 | Over every run: a state or tree row holds `j` if and only if `j` was the last value written for its epoch and every sweep since then found the epoch named by a log entry, a binding or a retained-material tag |
| `VirtualClientOps.EpochRowStep` | memory_storage/src/lib.rs:1092-1141 | Of all thirteen operations only a write to the row itself and a sweep that finds its epoch unreferenced change an epoch row |
| `VirtualClientOps.SweptIsClean` | memory_storage/src/lib.rs:1092-1141 | A sweep leaves no state or tree row of an unreferenced epoch |
| `VirtualClientOps.SweepTwice` | memory_storage/src/lib.rs:1092-1141 | A second sweep changes nothing |
| `Rows.DropKeepsReferences` | memory_storage/src/lib.rs:1113-1138 | Deleting epoch rows during the sweep loop changes no answer of the reference checks that are still to come |
| `ProvidersAgree.RunsAgree` | sqlite_storage/src/vc_secrets.rs:39-554 | After every run of operations the typed rows and the SQLite tables hold the same tables and would sweep the same set of ids |
| `StoreRuns.RunBoth` | memory_storage/src/lib.rs:1060-1427 | The same operations run on the byte store and on the SQLite store: the byte map is well formed and holds the rows of the tables, and every sweep on the way returns exactly the unreferenced epochs of that moment from both |
| `StoreRuns.ScanBoth` | sqlite_storage/src/vc_secrets.rs:253-388 | Stores that agree return the same multisets of bindings and of log entries for every group |
| `StoreRuns.ReadBoth` | sqlite_storage/src/vc_secrets.rs:64-120 | Point reads of a state, tree or material from stores that agree are equal if and only if the stored entity is not `null` |
| `StoreRuns.ReadBindingBoth` | sqlite_storage/src/vc_secrets.rs:222-251 | Point reads of a binding from stores that agree are equal |
| `ProvidersAgree.StepAgrees` | sqlite_storage/src/vc_secrets.rs:39-554 | Every single operation keeps the two providers in agreement |
| `ProvidersAgree.ReferencedAgrees` | sqlite_storage/src/vc_secrets.rs:133-157 | The label scans of the flat map and the three NOT EXISTS subqueries agree on which epochs are referenced |
| `ProvidersAgree.UnreferencedAgrees` | sqlite_storage/src/vc_secrets.rs:124-176 | Both sweeps collect the same epochs |
| `ProvidersAgree.BindingScansAgree` | sqlite_storage/src/vc_secrets.rs:253-278 | The binding scans of a group return the same multiset in both providers |
| `ProvidersAgree.LogScansAgree` | sqlite_storage/src/vc_secrets.rs:363-388 | The log scans of a group return the same multiset in both providers |
| `ProposalInterleavings.SafeExactlyWithoutStranding` | memory_storage/src/lib.rs:298-319 | For any concurrent queue, remove and clear calls, any store in which every listed ref has its row, and any schedule of their lock sections: every listed ref has its row along the schedule and after one further section of any call, if and only if no step lists a ref whose remove is half done, drops the row of a ref whose queueing is half done, or starts a remove of a ref listed more than once |
| `ProposalInterleavings.KeptWithoutStranding` | memory_storage/src/lib.rs:298-319 | Without such a step the invariant holds for every ref: a row while listed or half queued, not listed while half removed |
| `ProposalInterleavings.InvAtStep` | memory_storage/src/lib.rs:298-319 | Every other step keeps that invariant, from any world that satisfies it |
| `ProposalInterleavings.StrandingBreaks` | memory_storage/src/lib.rs:993-1008 | Every such step, from any world, is one section away from a listed ref without a row |
| `ProposalInterleavings.SafeExactlyWithoutClash` | memory_storage/src/lib.rs:298-319 | Quantified over schedules: every interleaving of a set of calls is safe if and only if no call queues a ref that another removes, none queues a ref that is listed or queued twice while another clears the group, and none removes a ref listed more than once |
| `ProposalInterleavings.RepeatRemoved` | memory_storage/src/lib.rs:993-1008 | A single remove of a ref listed more than once leaves it listed without a row |
| `ProposalInterleavings.RemoveInsideQueue` | memory_storage/src/lib.rs:993-1008 | A removal between the two sections of a queueing leaves a listed ref without a row, whatever was stored before |
| `ProposalInterleavings.ClearInsideQueue` | memory_storage/src/lib.rs:873-896 | A clear that overlaps a queueing of a listed ref leaves that ref listed without a row |
| `ProposalInterleavings.QueuedTwice` | memory_storage/src/lib.rs:873-896 | Two queueings of one ref and a clear can end in a listed ref without a row |
| `ProposalInterleavings.ClashUnsafe` | memory_storage/src/lib.rs:298-319 | Every clash comes with a schedule that breaks the invariant |
| `QueueReads.PanicsExactlyIfLost` | memory_storage/src/lib.rs:411-431 | From any store in which every listed ref has its row: a reader that takes one lock for the list and one per ref, anywhere along any schedule, meets a missing row if and only if some step, before or after it read the list, dropped a ref it has seen and no later step writes it again before its turn |
| `QueueReads.PanicsAfterBackedList` | memory_storage/src/lib.rs:411-431 | If every listed ref has its row when the list is read, only drops after that matter |
| `QueueReads.MissingExactly` | memory_storage/src/lib.rs:411-431 | Between any two points of a schedule: a row is missing at the second if and only if it was dropped for good in between, or was missing at the first and not written since |
| `QueueReads.ListedWasWritten` | memory_storage/src/lib.rs:298-319 | A listed ref was listed from the start, or its row was written on the way |
| `QueueReads.UninterruptedRead` | memory_storage/src/lib.rs:411-431 | A reader that nothing interrupts panics if and only if some listed ref of the group has no row at that moment |
| `QueueReads.UninterruptedReadIsSafe` | memory_storage/src/lib.rs:411-431 | So it does not panic anywhere along a schedule without a stranding step |
| `QueueReads.RemoveInsideRead` | memory_storage/src/lib.rs:411-431 | A remove between the two locks of a reader makes it panic |
| `RetainedInterleavings.SafeExactlyWithoutOverlap` | memory_storage/src/lib.rs:1361-1396 | For any concurrent uploads, deletes and sweeps and any schedule of their lock sections: readable material has the tag of its epoch along the schedule and after one further section of any call, if and only if no step uploads a KeyPackage whose delete is half done |
| `RetainedInterleavings.SweepSection` | memory_storage/src/lib.rs:1092-1141 | A sweep step, in any world: afterwards no unreferenced epoch has a row, exactly the state and tree rows of unreferenced epochs are gone, and every other row is unchanged |
| `RetainedInterleavings.SectionsAreOperation` | memory_storage/src/lib.rs:628-639 | The lock sections of a call in sequence (one for an upload or a sweep, two or three for the deletes) are the whole operation of the run theorems, and nothing more happens after them |
| `RetainedInterleavings.SerialIsRun` | memory_storage/src/lib.rs:1361-1427 | A schedule that runs the calls one after the other is a schedule, and ends in the rows of the sequential run |
| `RetainedInterleavings.KeptWithoutOverlap` | memory_storage/src/lib.rs:1361-1396 | Without such a step, material is tagged while readable and gone while its delete is half done, whatever else is uploaded and deleted |
| `RetainedInterleavings.InvAtStep` | memory_storage/src/lib.rs:1361-1396 | Every other step keeps that invariant, from any world that satisfies it |
| `RetainedInterleavings.OverlapBreaks` | memory_storage/src/lib.rs:1418-1427 | Every such step, from any world, is one section away from untagged material |
| `RetainedInterleavings.SerialIsSafe` | memory_storage/src/lib.rs:1361-1427 | Calls that run one after the other contain no such step, so a KeyPackage may be uploaded, deleted and uploaded again |
| `RetainedInterleavings.SafeExactlyWithoutClash` | memory_storage/src/lib.rs:1361-1396 | Quantified over schedules: every interleaving of a set of calls is safe if and only if no call deletes a KeyPackage whose material another call uploads |
| `RetainedInterleavings.UploadInsideDelete` | memory_storage/src/lib.rs:1418-1427 | An upload between the two sections of a delete leaves material without a tag |
| `RetainedInterleavings.SweepKeepsReadableEpochs` | memory_storage/src/lib.rs:1092-1141 | After any schedule that uploads no half-deleted KeyPackage, a sweep drops neither state nor tree of an epoch whose material is readable |
| `RetainedInterleavings.SweepDropsReadableEpoch` | memory_storage/src/lib.rs:628-639 | After an upload inside a delete a sweep does drop the state of such an epoch (three sections suffice) |
| `FlatMap.FlatReadIsLastWrite` | memory_storage/src/lib.rs:90-105 | Over every run a byte lookup returns the value last written to exactly that table and key and not deleted since |
| `FlatMap.FlatRunRepresents` | memory_storage/src/lib.rs:90-105 | The flat byte map refines the map from rows to typed values after every run |
| `RowKeys.KeyBytesInjective` | memory_storage/src/lib.rs:1431-1436 | Label, key and version together are injective in the row, for simple, composite and epoch-key rows alike |
| `RowKeys.LabelsPrefixFree` | memory_storage/src/lib.rs:251-292 | If a label and some bytes equal another label and some bytes, labels and bytes are equal |
| `RowKeys.LabelScanExact` | memory_storage/src/lib.rs:1442-1450 | A key starts with a label exactly if it belongs to that table |
| `RowKeys.GroupScanExact` | memory_storage/src/lib.rs:1194-1213 | A key starts with label and serialized group id exactly if it is a row of that table and that group, for every group |
| `JsonText.ParsePrinted` | memory_storage/src/lib.rs:107-132 | Parsing printed JSON followed by any bytes returns the value and exactly those bytes |
| `JsonText.FromSlicePrinted` | memory_storage/src/lib.rs:190-215 | Reading back a serialized value returns it |
| `JsonText.PrintInjective` | memory_storage/src/lib.rs:150-156 | Two values with equal serializations are equal |
| `JsonText.UniqueSplit` | memory_storage/src/lib.rs:1456-1462 | Serialized values other than bare numbers are prefix-free, so a composite key splits in one way |
| `JsonBytes.ToListOfList` | memory_storage/src/lib.rs:124-129 | A list of byte strings survives its JSON form |
| `JsonBytes.ToPairOfPair` | memory_storage/src/lib.rs:1468-1483 | An epoch-tagged value survives its JSON form |
| `ListRuns.ListRefined` | memory_storage/src/lib.rs:107-161 | After every sequence of `append` and `remove_item` the stored bytes decode to the list given by append-at-end and remove-first-occurrence, and no other key changes |
| `StoreRuns.EditList` | memory_storage/src/lib.rs:107-161 | The calls on a store change its bytes as that theorem says |
| `MemoryStore.RemoveFirstPrinted` | memory_storage/src/lib.rs:134-161 | Removing the first equal serialization removes the first equal item |
| `MemoryStore.ReferencedBySource` | memory_storage/src/lib.rs:1113-1130 | The two kinds of label scan together decide whether an epoch is referenced |
| `MemoryStore.AnyEntryIsTag` | memory_storage/src/lib.rs:1442-1450 | `any_entry_under_label` finds exactly the material tags of the epoch |
| `MemoryStore.CandidateKey` | memory_storage/src/lib.rs:1097-1112 | Cutting label and version off a key yields an epoch id exactly for state and tree rows |
| `Rows.PutRow` | memory_storage/src/lib.rs:90-105 | Inserting one byte entry changes exactly one typed row |
| `Rows.DropRow` | memory_storage/src/lib.rs:219-237 | Removing one byte entry removes exactly one typed row |
| `Rows.GetRow` | memory_storage/src/lib.rs:165-186 | A byte key is present exactly if its row is, with that row's value |
| `Rows.RetainRows` | memory_storage/src/lib.rs:1238-1247 | The prefix `retain` drops exactly the rows of one group of one table |
| `RowKeys.KeyLayout` | memory_storage/src/lib.rs:1431-1462 | The bytes of a key written out: label, the JSON text of the group, the other key parts in their order, and the two version bytes |
| `Rows.TaggedLayout` | memory_storage/src/lib.rs:1468-1483 | A tagged value is the JSON array of two byte arrays: the serialized epoch id, then the serialized entity |
| `Rows.ListLayout` | memory_storage/src/lib.rs:107-132 | A stored list (written out for two items) is the JSON array of its serialized items, each as a byte array |
| `JsonText.PrintArrays` | memory_storage/src/lib.rs:107-132 | Arrays (of one and of two items) are written with brackets and commas and no white space |
| `JsonText.PrintObjects` | memory_storage/src/lib.rs:107-132 | Objects (of one and of two fields) are written with braces, quoted names, colons and commas and no white space |
| `JsonText.PlainStr` | memory_storage/src/lib.rs:150-156 | Text without quotes, backslashes and control characters stands between quotes as it is |
| `JsonText.EscapeExactly` | memory_storage/src/lib.rs:150-156 | Quotes, backslashes and control characters have the escapes that `serde_json` writes |
| `MemoryStore.MemoryStorage.Write` | memory_storage/src/lib.rs:90-105 | One entry under the built key, nothing else |
| `MemoryStore.MemoryStorage.Delete` | memory_storage/src/lib.rs:219-237 | That entry is gone, nothing else |
| `MemoryStore.MemoryStorage.Append` | memory_storage/src/lib.rs:107-132 | The stored list with the value at its end, and an error without change on malformed bytes |
| `MemoryStore.MemoryStorage.RemoveItem` | memory_storage/src/lib.rs:134-161 | The stored list without its first equal item, and an error without change on malformed bytes |
| `MemoryStore.MemoryStorage.Read` | memory_storage/src/lib.rs:165-186 | Nothing for a missing key, the decoded value, or a serialization error |
| `MemoryStore.MemoryStorage.ReadList` | memory_storage/src/lib.rs:190-215 | Every decoded item, the empty list for a missing key, or the failure of either decoding |
| `MemoryStore.MemoryStorage.ReadEntity` | memory_storage/src/lib.rs:165-186 | On a well-formed store: the entity of that row and never an error |
| `MemoryStore.MemoryStorage.ReadOptional` | memory_storage/src/lib.rs:1076-1089 | The getters of states, trees and material: the row, with a stored `null` read as absent |
| `MemoryStore.MemoryStorage.AppendItem` | memory_storage/src/lib.rs:107-132 | On a well-formed store: the typed list grows at its end |
| `MemoryStore.MemoryStorage.RemoveListItem` | memory_storage/src/lib.rs:134-161 | On a well-formed store: the typed list loses its first equal item |
| `MemoryStore.MemoryStorage.ReadItems` | memory_storage/src/lib.rs:190-215 | On a well-formed store: the typed list and never an error |
| `MemoryStore.MemoryStorage.QueueProposal` | memory_storage/src/lib.rs:298-319 | The proposal row and the ref at the end of the group's list |
| `MemoryStore.MemoryStorage.RemoveProposal` | memory_storage/src/lib.rs:993-1008 | The first such ref and the proposal row are gone |
| `MemoryStore.MemoryStorage.ClearProposalQueue` | memory_storage/src/lib.rs:873-896 | The rows of exactly the listed refs and the list itself are gone |
| `MemoryStore.MemoryStorage.QueuedProposals` | memory_storage/src/lib.rs:411-431 | Every ref with its proposal in order, and a panic exactly if some ref has no row |
| `MemoryStore.MemoryStorage.WriteEpochKeyPairs` | memory_storage/src/lib.rs:808-829 | One row under the joined epoch and leaf digits |
| `MemoryStore.MemoryStorage.ReadEpochKeyPairs` | memory_storage/src/lib.rs:831-858 | The pairs of that row, empty if there is none |
| `MemoryStore.MemoryStorage.DeleteEpochKeyPairs` | memory_storage/src/lib.rs:860-871 | That row is gone |
| `MemoryStore.MemoryStorage.WriteTagged` | memory_storage/src/lib.rs:1144-1168 | The row holds the entity with its epoch tag |
| `MemoryStore.MemoryStorage.ReadBinding` | memory_storage/src/lib.rs:1171-1191 | The binding without its tag |
| `MemoryStore.MemoryStorage.ScanGroup` | memory_storage/src/lib.rs:1194-1213 | The multiset of the group's entities, in whatever order the map iterates |
| `MemoryStore.MemoryStorage.DeleteGroup` | memory_storage/src/lib.rs:1238-1247 | The rows of that table and group are gone, nothing else |
| `MemoryStore.MemoryStorage.DeleteBindings` | memory_storage/src/lib.rs:1216-1235 | The listed bindings of the group are gone, nothing else |
| `MemoryStore.MemoryStorage.DeleteLogEntries` | memory_storage/src/lib.rs:1295-1314 | The listed log entries of the group are gone, nothing else |
| `MemoryStore.MemoryStorage.WriteMaterialBatch` | memory_storage/src/lib.rs:1361-1396 | The tree row and, for each material, its row and its epoch tag; the last of equal refs wins |
| `MemoryStore.MemoryStorage.DeleteMaterial` | memory_storage/src/lib.rs:1418-1427 | Material and tag are gone |
| `MemoryStore.MemoryStorage.DeleteKeyPackage` | memory_storage/src/lib.rs:628-639 | Material, tag and KeyPackage are gone |
| `MemoryStore.MemoryStorage.CandidateIds` | memory_storage/src/lib.rs:1097-1112 | The serialized ids of exactly the epochs with a state or tree row |
| `MemoryStore.MemoryStorage.AnyTagged` | memory_storage/src/lib.rs:1485-1500 | Whether some row of the table carries that tag |
| `MemoryStore.MemoryStorage.IsReferenced` | memory_storage/src/lib.rs:1113-1130 | Whether material, a log entry or a binding names the epoch |
| `MemoryStore.MemoryStorage.Sweep` | memory_storage/src/lib.rs:1092-1141 | The rows of exactly the unreferenced candidates are gone and the returned ids are those epochs, each once |
| `MemoryStore.MemoryStorage.Apply` | memory_storage/src/lib.rs:1060-1427 | Each operation changes the typed rows as the specification of the run theorems says |
| `SqliteStore.SqliteStorage.StoreMaterialBatch` | sqlite_storage/src/storage_provider.rs:939-965 | The upserts one by one give the tree and every material with its epoch |
| `SqliteStore.SqliteStorage.DeleteBindingRows` | sqlite_storage/src/vc_secrets.rs:280-303 | The prepared delete per epoch removes exactly the listed bindings |
| `SqliteStore.SqliteStorage.DeleteLogRows` | sqlite_storage/src/vc_secrets.rs:390-413 | The prepared delete per epoch removes exactly the listed log rows |
| `SqliteStore.SqliteStorage.SelectUnreferenced` | sqlite_storage/src/vc_secrets.rs:133-157 | The sweep query returns each unreferenced epoch once |
| `SqliteStore.SqliteStorage.SweepTables` | sqlite_storage/src/vc_secrets.rs:124-176 | The delete pairs per id empty exactly the unreferenced epochs and return them |
| `SqliteStore.SqliteStorage.LoadState` | sqlite_storage/src/vc_secrets.rs:64-91 | The stored state of the epoch, or none |
| `SqliteStore.SqliteStorage.LoadTree` | sqlite_storage/src/vc_secrets.rs:93-119 | The stored tree of the epoch, or none |
| `SqliteStore.SqliteStorage.LoadBinding` | sqlite_storage/src/vc_secrets.rs:222-251 | The stored binding of the group epoch, or none |
| `SqliteStore.SqliteStorage.LoadMaterial` | sqlite_storage/src/vc_secrets.rs:511-536 | The stored material of the KeyPackage, or none |
| `SqliteStore.SqliteStorage.LoadBindings` | sqlite_storage/src/vc_secrets.rs:253-278 | The multiset of the group's bindings |
| `SqliteStore.SqliteStorage.LoadLogEntries` | sqlite_storage/src/vc_secrets.rs:363-388 | The multiset of the group's log entries |
| `SqliteStore.SqliteStorage.Apply` | sqlite_storage/src/vc_secrets.rs:39-554 | Each operation changes the tables as the specification of the run theorems says |
| `ProposalRuns.InSyncExactlyWithoutRequeue` | memory_storage/src/lib.rs:298-319 | Over every sequential run: listed refs and proposal rows stay in bijection per group, if and only if no call queues a ref that is in the queue |
| `ProposalRuns.ReadableExactlyWithoutRepeatRemoved` | memory_storage/src/lib.rs:411-431 | Over every sequential run: after every call the queue of every group can be read without a panic, if and only if no call removes a ref that is listed more than once |
| `ProposalRuns.QueueQueueRemove` | memory_storage/src/lib.rs:993-1008 | Queueing a ref twice and removing it once leaves it listed without a proposal |
| `StoreRuns.QueueThenRead` | memory_storage/src/lib.rs:411-431 | On the byte store itself: a read after a run panics exactly if a listed ref of the group has lost its proposal, and otherwise returns every ref with its proposal |
| `StoreRuns.RunQueue` | memory_storage/src/lib.rs:298-319 | A run of calls on the byte store leaves the rows that the run theorems speak of |
| `ProposalRuns.SameExactlyIfFaithful` | sqlite_storage/src/proposals.rs:84-142 | Over every sequential run: the stored proposals equal those of the insert-or-ignore table after every call, if and only if a ref queued while stored always carries the stored proposal |
| `ProposalRuns.ClearsOneGroup` | memory_storage/src/lib.rs:873-896 | After any run a clear leaves nothing of its group and touches no other group |
| `ProposalRuns.StepRow` | memory_storage/src/lib.rs:298-319 | What each call does to one proposal row |
| `ProposalRuns.StepCount` | memory_storage/src/lib.rs:993-1008 | What each call does to the number of times a ref is listed |
| `ProposalRuns.SqliteProposals.Store` | sqlite_storage/src/proposals.rs:84-103 | An existing row stays as it is |
| `ProposalRuns.SqliteProposals.DeleteProposal` | sqlite_storage/src/proposals.rs:122-142 | One row is gone |
| `ProposalRuns.SqliteProposals.DeleteAllProposals` | sqlite_storage/src/proposals.rs:106-120 | The rows of one group are gone |
| `ProposalRuns.SqliteProposals.LoadRefs` | sqlite_storage/src/proposals.rs:49-72 | Each stored ref of the group once |
| `EpochKeyPairStores.KeysCoincide` | memory_storage/src/lib.rs:1507-1516 | Two (epoch, leaf) pairs of a group share a key if and only if they are equal, or neither epoch is zero and epoch times ten to the number of leaf digits plus leaf is the same number |
| `EpochKeyPairStores.OneLeafInjective` | memory_storage/src/lib.rs:1507-1516 | For one leaf index the key determines the epoch |
| `EpochKeyPairStores.SharedKeyExample` | memory_storage/src/lib.rs:1507-1516 | Epoch 1 at leaf 23 and epoch 12 at leaf 3 share a key in every group |
| `EpochKeyPairStores.ReadsAgreeExactlyWithoutSharing` | sqlite_storage/src/epoch_key_pairs.rs:23-109 | Memory and the three-column table read alike on every run over a set of (group, epoch, leaf) slots, if and only if no two of them share a key |
| `EpochKeyPairStores.FixedLeafAgrees` | sqlite_storage/src/epoch_key_pairs.rs:23-109 | So they agree on every run in which the leaf index of a group never changes |
| `EpochKeyPairStores.SqliteEpochKeyPairs.StorePairs` | sqlite_storage/src/epoch_key_pairs.rs:62-86 | One row, the last write wins |
| `EpochKeyPairStores.SqliteEpochKeyPairs.DeletePairs` | sqlite_storage/src/epoch_key_pairs.rs:89-109 | That row is gone |
| `Snapshot.SnapshotRoundTrip` | memory_storage/src/lib.rs:34-84 | Deserializing a serialized map followed by any bytes rebuilds the map, for every iteration order, and leaves exactly those bytes |
| `Snapshot.EncodedLayout` | memory_storage/src/lib.rs:34-55 | The snapshot is the entry count in eight bytes and then one record per entry in iteration order |
| `Snapshot.RecordLayout` | memory_storage/src/lib.rs:44-51 | A record is key length, value length, key and value |
| `Snapshot.ToBeDigits` | memory_storage/src/lib.rs:34-55 | Byte `i` of a written number is its base-256 digit, the highest first |
| `Snapshot.Serialize` | memory_storage/src/lib.rs:34-55 | Appends the encoding of every entry once, and the returned count is its length |
| `Snapshot.Deserialize` | memory_storage/src/lib.rs:57-84 | The loop computes the decoder of the round trip, and fails exactly on short input |
| `StorageTags.RoundTrip` | serialization_helpers/src/deserialize.rs:110-211 | Decoding inverts encoding for every value of every generated codec, in the tag form with any trailing bytes and in the name form |
| `StorageTags.TagFormEvolution` | serialization_helpers/src/deserialize.rs:110-162 | All tag-form data of one definition reads the same under another, if and only if every arm (tag, name, shape) of the first is an arm of the second |
| `StorageTags.NameFormEvolution` | serialization_helpers/src/deserialize.rs:110-162 | The same for the name form, which needs name and shape only |
| `StorageTags.TagFormRead` | serialization_helpers/src/deserialize.rs:188-211 | One value written in tag form under one definition reads back under another exactly if its arm is there |
| `StorageTags.NameFormRead` | serialization_helpers/src/deserialize.rs:188-211 | One value written in name form reads back exactly if it is a value of the other definition |
| `StorageTags.Generate` | serialization_helpers/src/serialize.rs:18-74 | The generator loop accepts exactly the definitions with a tag on every variant, distinct tags and supported shapes, yields one arm per variant, and otherwise names the fault of the first variant that is refused |
| `StorageTags.GeneratedArms` | serialization_helpers/src/serialize.rs:18-74 | Accepted definitions with distinct variant names have pairwise distinct tags and names |
| `StorageTags.ExtractTag` | serialization_helpers/src/attrs.rs:13-39 | Fails for want of a tag exactly if there is no tag attribute, and otherwise returns a 32-bit tag that is written there |
| `StorageTags.ExtractTagExactly` | serialization_helpers/src/attrs.rs:13-39 | It returns `n` if and only if the first tag attribute is the integer `n` and `n` fits 32 bits |
| `StorageTags.AcceptedExactly` | serialization_helpers/src/serialize.rs:18-74 | A definition is accepted if and only if every variant carries such a tag, is a unit or has one or two unnamed fields, and no two carry the same tag; then each arm has the name, tag and field count of its variant |
| `StorageTags.VarintLayout` | serialization_helpers/src/serialize.rs:34-41 | A tag is written as base-128 digits, the lowest first, with the high bit set on every byte but the last |
| `StorageTags.NameFormText` | serialization_helpers/src/serialize.rs:34-67 | The JSON text of a unit variant, of one field and of two |
| `StorageTags.TagSerializer.UpdateTags` | compat_tests/src/storage_tag_check.rs:36-46 | The first tag is kept, a second one is an error and changes nothing |
| `StorageTags.ForEnumVariant` | compat_tests/src/storage_tag_check.rs:114-202 | Reports name and tag of an enum variant, no tag for a scalar, and an error for other compound values |
| `StorageTags.ReportedTagsDecode` | compat_tests/src/storage_tag_check.rs:196-202 | The reported tag starts the encoded bytes, and tag and name both lead the decoder to the arm of the value |
| `InteropResults.ExitStatusMatchesList` | interop_client/docker/run-interop.py:402-582 | For every manifest the exit count is positive if and only if the failures block lists a genuine bug |
| `InteropResults.SumIsGenuineTotal` | interop_client/docker/run-interop.py:579-582 | The exit count is the number of genuine failures over all results |
| `InteropResults.CellMarkMatchesList` | interop_client/docker/run-interop.py:476-496 | A cell is marked as failing if and only if some script of that config and pairing is listed as a bug |
| `InteropResults.ListedMeaning` | interop_client/docker/run-interop.py:511-530 | A script is listed as a bug exactly if it has a genuine failure, not at all exactly if nothing in it failed, and of the rest as unsupported exactly if unsupported results outnumber nonconformant ones |
| `InteropResults.CellIsTally` | interop_client/docker/run-interop.py:402-474 | Every counter of a cell is the number of counted results of its kind, and the cell exists exactly if there are any |
| `InteropResults.EntryIsTally` | interop_client/docker/run-interop.py:402-474 | Every counter of a (config, script) entry is the number of results of its kind |
| `InteropResults.CellAddsUp` | interop_client/docker/run-interop.py:476-477 | What is left after passed, unsupported and nonconformant is the number of genuine failures |
| `InteropResults.KindsAddUp` | interop_client/docker/run-interop.py:402-474 | Every result is of exactly one of the four kinds |
| `InteropResults.ScriptsSumToCell` | interop_client/docker/run-interop.py:402-474 | The stored per-script entries of a config and pairing add up to the stored cell in every counter |
| `InteropResults.Aggregate` | interop_client/docker/run-interop.py:402-474 | The nested loops count every result of every finished run, a repeated OpenMLS-only result once, and collect the runs that did not complete |
| `InteropResults.CountResult` | interop_client/docker/run-interop.py:440-474 | One result updates one cell and one entry, and nothing else |
| `InteropResults.BucketExactly` | interop_client/docker/run-interop.py:325-332 | A result whose actors are all OpenMLS belongs to the self pairing, one with OpenMLS and exactly one other name to the pairing of the run, and a result belongs to none if and only if it is neither |
| `InteropResults.PeerResultsLeaveNoTrace` | interop_client/docker/run-interop.py:325-332 | A manifest in which no result names OpenMLS leaves every cell and the failure list empty |
| `InteropResults.KindExactly` | interop_client/docker/run-interop.py:353-399 | When a result is passed, unsupported, nonconformant or genuine, in terms of the text of its error and the config |
| `InteropResults.CountsExactly` | interop_client/docker/run-interop.py:440-460 | Which results are counted, including the one OpenMLS-only result that a config counts once |
| `InteropResults.ItemsExactly` | interop_client/docker/run-interop.py:426-440 | The results of a manifest are exactly those of the scripts of its finished runs, under the config name of the run |
| `InteropResults.NotCompletedExactly` | interop_client/docker/run-interop.py:426-433 | The runs listed as not completed are exactly those without a result |
| `InteropResults.ConfigNameExactly` | interop_client/docker/run-interop.py:320-322 | A config is named by its file without `.json`, and by the whole name if it does not end so |
| `StatusTable.MergeReads` | interop_client/docker/run-interop.py:629-652 | For any two texts the merged table reads as: the fresh cell if there is one, else the old one, else a dash, with the seen columns in canonical order |
| `StatusTable.MergedCells` | interop_client/docker/run-interop.py:629-652 | The same cell by cell, on what the parser reads from the three texts: rows and columns are exactly those of either table, the columns in the order self, mls-rs, MLS++, and a cell is the fresh one if present, else the old one if present, else `—` |
| `StatusTable.RowsOfExactly` | interop_client/docker/run-interop.py:619-625 | A config has a row if and only if some line starts with its name, and the last such line counts |
| `StatusTable.RowOfExactly` | interop_client/docker/run-interop.py:625-625 | A column has a cell if and only if a known title stands over some cell, and the last such cell counts |
| `StatusTable.HeaderText` | interop_client/docker/run-interop.py:498-501 | Header and separator of a table, written out |
| `StatusTable.MergeIdempotent` | interop_client/docker/run-interop.py:629-652 | Merging the same fresh block twice gives the same text as merging it once, for any two texts |
| `StatusTable.ParseRendered` | interop_client/docker/run-interop.py:498-505 | Parsing a rendered table returns the table |
| `StatusTable.ParsedClean` | interop_client/docker/run-interop.py:611-626 | Whatever the text, the cells read from it hold no bar, no line break and no outer white space |
| `StatusTable.LineText` | interop_client/docker/run-interop.py:503-504 | The written row is the one that the renderer spells out |
| `StatusTable.CellsOfLine` | interop_client/docker/run-interop.py:620-624 | A written row has its own cells |
| `StatusTable.ParseRows` | interop_client/docker/run-interop.py:619-625 | The row loop fills the dictionary; a row without a name is skipped and a repeated one overwrites |
| `StatusTable.ParseTableCells` | interop_client/docker/run-interop.py:611-626 | The parser computes the table of the read-back theorems |
| `StatusTable.MergeTableBlock` | interop_client/docker/run-interop.py:629-652 | The merge loop writes the text of the merged table |
| `FailureBlocks.MergeReads` | interop_client/docker/run-interop.py:714-758 | For any two texts, section and config: the bullets read from the merged block are the latest ones if there are any or the config was run, else the old ones, up to white space at the end of a bullet; bullets under an unknown pairing are dropped |
| `FailureBlocks.KeptExactly` | interop_client/docker/run-interop.py:714-758 | Character for character every merged bullet is read back, if and only if a not-completed note follows, there is no bullet, or the last bullet has no trailing white space |
| `WrittenOrder.MergedInOrder` | interop_client/docker/run-interop.py:731-751 | For any two texts the merged bullets stand in the order: genuine failures, then pairing by pairing peer-side limitations before unsupported features, and within a section by config in code point order |
| `WrittenOrder.OpensWithGenuine` | interop_client/docker/run-interop.py:731-738 | The block opens with the genuine heading, and its third line says that there are none if and only if there are none |
| `FailureBlocks.QuotedExactly` | interop_client/docker/run-interop.py:679-681 | The config of a bullet comes from the first non-empty text between two neighbouring back-ticks, if there is any |
| `FailureBlocks.LastNote` | interop_client/docker/run-interop.py:675-677 | The note of a block is its last not-completed line, stripped |
| `MergeTwice.MergeIdempotentExactly` | interop_client/docker/run-interop.py:714-758 | For any two texts: merging the same block twice writes the same text as merging it once, if and only if every not-completed item of that block is of a config that was run |
| `MergeTwice.ItemIsRepeated` | interop_client/docker/run-interop.py:752-758 | A block whose one note item is of another config is not merged idempotently, for any existing text |
| `MergeTwice.SpaceIsLost` | interop_client/docker/run-interop.py:758-758 | A block whose only bullet ends in a space loses that space |
| `FailureBlocks.MergeReadsNote` | interop_client/docker/run-interop.py:752-758 | The note read from the merged block holds the old items of configs that were not run, then the latest items |
| `FailureBlocks.BulletNamesConfig` | interop_client/docker/run-interop.py:675-681 | A written bullet is filed under its config exactly for names without a back-tick, without outer white space and without an earlier ` / `, whatever the script is called |
| `FailureBlocks.HeadingReads` | interop_client/docker/run-interop.py:664-674 | Every heading that is written opens its own section |
| `FailureBlocks.MergeTextLines` | interop_client/docker/run-interop.py:758-758 | Stripping the block on the right drops blank lines and trims the last line, and changes no other line |
| `FailureMerge.ParseFailureBullets` | interop_client/docker/run-interop.py:655-685 | The nested dictionaries hold exactly the bullets of each section and config in order, and the last note line |
| `FailureMerge.ParseNotCompleted` | interop_client/docker/run-interop.py:688-704 | The loop collects the items of the note |
| `FailureMerge.MergeFailuresBlock` | interop_client/docker/run-interop.py:714-758 | The loops write the text of the read-back theorems |
| `NotCompleted.ReadBackExactlyClean` | interop_client/docker/run-interop.py:688-711 | Reading undoes writing for exactly the lists whose items have no ` vs ` in the peer with a space before it, no ` (` in the reason, and no `, `, line feed or outer white space in their text |
| `NotCompleted.ParsedNoteClean` | interop_client/docker/run-interop.py:688-704 | Items read from any line are of that kind |
| `NotCompleted.MergedNoteReads` | interop_client/docker/run-interop.py:752-756 | The merged note reads back, whatever the two lines are |
| `NotCompleted.NoteText` | interop_client/docker/run-interop.py:707-711 | The text of a note of one and of two items, written out |
| `SortedNames.BeforeExactly` | interop_client/docker/run-interop.py:736-737 | The order of config names: a prefix comes first, and otherwise the first differing character decides |
| `TextLines.LinesBreak` | interop_client/docker/run-interop.py:615-615 | A line ends at the first break character, and a carriage return with a line feed is one break |
| `InteropClient.SlotsNeverGoBack` | interop_client/src/main.rs:465-523 | Over every run a state id keeps naming the same group, whose epoch never decreases, and an inactive group never changes |
| `InteropClient.EpochCountsMerges` | interop_client/src/main.rs:1390-1581 | Over every run the epoch of a slot is the epoch it had at any earlier point plus the number of commits merged into it since |
| `InteropClient.StepGroups` | interop_client/src/main.rs:465-2374 | Which requests open a slot, which merge into a slot, stage in it or suspend it, and that every other slot stays as it is |
| `InteropClient.KeyPackagePendingExactly` | interop_client/src/main.rs:172-195 | Over every run a key package is pending if and only if some request made it and no later join or branch join asked for it |
| `InteropClient.JoinedOnce` | interop_client/src/main.rs:608-667 | Two successful joins with one transaction id have a new key package between them |
| `InteropClient.ReInitsAlwaysPoint` | interop_client/src/main.rs:287-298 | After every run each pending reinit names an existing, suspended group |
| `InteropClient.WelcomeFailsOnlyInEngine` | interop_client/src/main.rs:1941-2142 | So a reinit welcome succeeds if and only if its id is pending and the engine builds the successor |
| `InteropClient.ReInitsConserved` | interop_client/src/main.rs:1948-1952 | Over every run: ids minted = ids pending + ids taken + ids minted again while pending |
| `InteropClient.TakenOnce` | interop_client/src/main.rs:2055-2058 | An id that is pending after it was taken has been minted again in between |
| `InteropClient.CachedExactly` | interop_client/src/main.rs:161-166 | The cache holds a snapshot if and only if some request of the run took it |
| `InteropClient.SnapshotsAreReal` | interop_client/src/main.rs:161-166 | Every snapshot describes the group and epoch of its key, and some slot was there |
| `InteropClient.CacheIsHistory` | interop_client/src/main.rs:106-111 | Unless one of the six forgetting handlers established it, an epoch is in the cache if and only if some slot was ever in it |
| `InteropClient.SlotHistoryIsCached` | interop_client/src/main.rs:1399-1402 | A slot that was opened and moved only by handlers that do not forget has a snapshot of every epoch it was ever in, whatever other slots of the same group did |
| `InteropClient.MovedIsCached` | interop_client/src/main.rs:161-166 | An epoch that such a handler brought a slot to is in the cache ever after |
| `InteropClient.RecordedUnlessForgotten` | interop_client/src/main.rs:156-160 | Which handlers record the epoch they establish, exactly |
| `InteropClient.BranchJoinedExactly` | interop_client/src/main.rs:2285-2341 | A branch is joined if and only if the key package is pending, the slot exists, the named epoch was snapshotted at some time, and the engine accepts |
| `InteropClient.BranchOfBranchRefused` | interop_client/src/main.rs:2148-2282 | A branch off a branch at its first epoch is refused, although a slot is in that epoch |
| `InteropClient.MlsClient.RecordBranchInfo` | interop_client/src/main.rs:161-166 | One snapshot under the group's id and epoch |
| `InteropClient.MlsClient.TakePendingKeyPackage` | interop_client/src/main.rs:172-195 | The key package is taken once, and a missing one changes nothing |
| `InteropClient.MlsClient.BuildReInitState` | interop_client/src/main.rs:211-298 | The minted id points to the old slot |
| `InteropClient.MlsClient.HandleCommits` | interop_client/src/main.rs:1390-1581 | The three commit handlers: merge if there is something to merge, then record |
| `InteropClient.MlsClient.HandleReInitCommits` | interop_client/src/main.rs:1768-1938 | Staging, and the two merges that suspend the group and record nothing |
| `InteropClient.MlsClient.TakeReInit` | interop_client/src/main.rs:1941-2142 | The id is consumed even if a later step fails |
| `InteropClient.MlsClient.Branch` | interop_client/src/main.rs:2148-2282 | The parent is recorded once the branch is built; the subgroup never is |
| `InteropClient.MlsClient.JoinBranch` | interop_client/src/main.rs:2285-2374 | The lookup uses the epoch the welcome names, not the slot's epoch |
| `InteropClient.MlsClient.Handle` | interop_client/src/main.rs:465-2374 | Each request changes the tables as the specification of the run theorems says |
| `VlCodec.SetRoundTrip` | delivery-service/ds-lib/src/lib.rs:50-64 | Every set round-trips under every iteration order, with any trailing bytes |
| `VlCodec.ReportedLenExact` | delivery-service/ds-lib/src/lib.rs:39-48 | The reported length never exceeds the written one, and equals it if and only if the set is empty or holds only the empty string |
| `VlCodec.RefHashInputInjective` | openmls/src/ciphersuite/hash_ref.rs:68-111 | Label and value can be recovered from a RefHash input |
| `VlCodec.RefHashLayout` | openmls/src/ciphersuite/hash_ref.rs:68-73 | The input reads as the label, then the value, and then nothing |
| `VlCodec.HeaderLayout` | delivery-service/ds-lib/src/lib.rs:50-64 | The length header written out: one, two or four bytes, the class in the top two bits, the highest byte first |
| `VlCodec.SetLayout` | delivery-service/ds-lib/src/lib.rs:50-64 | A serialized set reads as one byte vector whose content reads as the elements in iteration order and nothing else |
| `VlCodec.ReportedLenIs` | delivery-service/ds-lib/src/lib.rs:39-48 | The length counted for one element is the length of its written form |
| `VlCodec.ReferenceKindsDisjoint` | openmls/src/ciphersuite/hash_ref.rs:38-39 | KeyPackage and proposal reference inputs never coincide |
| `VlCodec.ReadHeaderWritten` | delivery-service/ds-lib/src/lib.rs:50-64 | A written length header reads back and has the size of its class |
| `VlCodec.HeaderUnique` | delivery-service/ds-lib/src/lib.rs:61-64 | Only the minimal header of a length is accepted |
| `VlCodec.ReadOpaqueWritten` | openmls/src/ciphersuite/hash_ref.rs:68-73 | A written byte vector reads back with any trailing bytes |

## Left out

- Serialization of entities: keys and values are JSON values already; encoders are total, and lock poisoning does not occur.
- JSON text: the compact form that `serde_json` writes, with integers; no white space, fractions, exponents, negative numbers or surrogate escapes.
- Group ids: any JSON value but a bare number, so that its text ends itself; group ids are structs or byte vectors.
- The version suffix: only the current version is written, the rows of the test version are not modelled.
- SQLite: tables are keyed by their primary keys and hold typed values; the SQL text, the codec and transactions are not modelled.
- The other SQLite tables (own leaf nodes, PSKs, signature keys, group data) and the sqlx provider: single upserts that would add only easy members.
- MemoryStore.MemoryStorage.Apply: runs one call at a time; overlapping calls are the subject of the interleaving modules.
- ProposalInterleavings.SafeExactlyWithoutStranding: each call has the lock sections of the code; memory effects below the lock are not modelled.
- Iteration orders of hash maps, sets and SQL results: arbitrary, so scans are stated as multisets and encodings for every order.
- Snapshot.SnapshotRoundTrip: keys, values and the map are smaller than 2 to the power of 64 bytes or entries, as on every machine.
- VlCodec.SetRoundTrip: the codec library is not part of this model; the headers are those of section 2.1.2 of RFC 9420 with lengths below 2 to the power of 30, and longer inputs fail.
- StorageTags.Generate: an enum definition is a list of attributes, names and shapes; token streams, field types and generics are not modelled, and field values are byte strings.
- StorageTags.GeneratedArms: asks for distinct variant names, which the Rust compiler enforces.
- InteropResults.Aggregate: error samples and the bullet texts that quote them are not modelled beyond `FailureBlocks.BulletNamesConfig`.
- StatusTable.ParseRendered: tables whose names and cells fit a table cell; what the parser returns for any text is of that kind.
- Splicing the blocks into the README file and extracting them again.
- InteropClient.MlsClient.Handle: what the MLS engine answers is part of the request; requests are handled one at a time, a storage error in the middle of a merge does not occur, and state ids do not wrap at 32 bits.
- InteropClient.SnapshotsAreReal: a snapshot is its group id and epoch; the resumption secret and the member list are not modelled.
- The interop client's proposals, PSKs, external signers, application messages and exporters.
- `ClientInfo::consume_kp`, the rest of the delivery service, the command-line client and all networking.
- TreeSync, the key schedule, the secret tree, message framing, crypto providers and the inside of `MlsGroup`.
