# Snapshot, disk and lifecycle guarantees of the VM orchestrator

A Dafny model of the parts of the orchestrator where a mistake loses guest state or hands one
resource to two VMs, with proofs about every input, every failure pattern and every run.

* **Snapshots** (`SparseIO`, `SnapshotForest`, `SnapshotRows`, `Restore`, `RestoreExact`,
  `RestoreSchedules`, `RestoreWitnesses`, `SnapshotService`): the per-VM forest of full and incremental snapshots, the
  sparse manifests and byte-level merge a restore uses, garbage collection and deletion. The backend
  is modelled as it behaves: a diff is relative to the VM's last capture or restore, whatever the
  service records as its parent. The main result: over every run of creates, deletes and resumes,
  with any uploads, seeks, row writes, row deletes and object deletes failing, every snapshot that
  restores at all restores exactly the memory it was taken of, if and only if no create of the run
  loses a byte. And from outside the guest: a schedule of operations is exact for every guest memory
  if and only if each diff it can come to restore is captured while the VM's newest row is its last
  capture or restore.
* **Disks** (`Flatten`, `DeviceMapper`, `DmAccounting`, `DmSnapshotManager`): the sparse device copy,
  and the manager of stacked dm-snapshot layers over shared, reference-counted base loops, against a
  kernel model in which a device in use cannot be removed. Every external command may fail.
* **Allocation and lifecycle** (`CidAllocator`, `IpAllocator`, `Lifecycle`, `VmService`): uint32 CID
  probing, big-endian address stepping, and the exclusivity of CIDs, addresses and chat bindings
  over every run of the lifecycle operations.
* **Protocol, paging, planning loop** (`Framing`, `ChatPages`, `ReactLoop`).

What the source mutates is a class or a loop here: repositories, the manager, the provider, the byte
stream and the orchestrator service are classes whose methods are tied to pure specification
functions, and the theorems are lemmas about those functions. Wall time is a strictly increasing
counter; each service operation is one atomic step. Boolean parameters (or nondeterministic choices)
say which foreign calls succeed. Every lemma carries `{:induction false}`, so no proof rests on an
induction hypothesis it does not spell out.

Assumptions about the backend and the kernel: of a VM without diff snapshots a memory file is the
guest memory; of one with them every file is a diff that agrees with memory on its data extents,
which cover every byte changed since the VM's last capture or restore, or since boot
(`Restore.Enabled`, `SparseIO.Captures`); a seek that answers an offset or ENXIO tells the truth
(`SparseIO.Source.Valid`).

## Findings

Properties that hold only under a condition. Each condition is proved exact and, where the failing
input is not plain from it, a lemma or method exhibits one:

* The service records a diff on top of the VM's newest row, but the backend takes it against the last
  capture or restore (src/infrastructure/vm/firecracker/provider.go:415-424). The service itself pulls
  the two apart: a successful ResumeVM ends by deleting every row of the VM
  (src/service/vm/service.go:2439-2448; `SnapshotService.Service.ResumeAndClear`), so the next snapshot
  is recorded as full although its file holds only what changed since the resume, and restores zeros
  elsewhere: `RestoreWitnesses.HollowFullSnapshotIsReachable`. It is safe if and only if the resumed
  memory was blank: `RestoreExact.SafeWithoutRowsIff`. A failed row write
  (src/service/vm/service.go:1692) or a delete of the newest row, as by a stale collection, does the
  same to incremental snapshots: `RestoreWitnesses.LostWriteIsReachable`. Exactly when:
  `RestoreExact.CreateExactIff` for a step, `RestoreExact.EveryRunRestoresExactlyIff` for runs,
  `RestoreExact.SafeToCaptureIff` for a state, `RestoreSchedules.ScheduleExactIff` for schedules, in
  terms of ids alone.
* A diff with no data extent gets no manifest, and a restore of an incremental leaf without one is
  refused: `RestoreExact.NewSnapshotRestoresIff`, `RestoreWitnesses.EmptyDiffIsRefused`. Deeper in a
  chain it makes the service create a fresh VM: `Restore.RestoreOutcomeIff`,
  `RestoreWitnesses.BrokenChainMakesFreshVm`.
* Any SEEK_DATA error, not only ENXIO, ends the manifest silently: `SparseIO.ManifestCompleteIff`,
  `SparseIO.SeekDataErrorLosesData`. A failed SEEK_HOLE makes the manifest take in holes, so a merge
  is exact only if the new memory is zero there: `SparseIO.MergeStepExactIff`,
  `SparseIO.SeekHoleErrorZeroesMemory`.
* Garbage collection around an id that is not the newest deletes the newest snapshot:
  `SnapshotForest.GcKeepsNewestIff`, `SnapshotRows.StaleGcIsReachable`.
* `DiskChainLength` is the number of cow deltas a restore fetches if and only if the VM takes diff
  snapshots or the row has a whole disk: `SnapshotRows.EveryRunFetchesDepthIff`,
  `SnapshotRows.DepthDriftIsReachable`.
* `Stop` and `Unassign` do not check for a terminated VM, and `Destroy` writes the address it has just
  released back to the row (the comment at src/service/vm/service.go:276-279 says this is avoided, and
  the create path does avoid it). If the final row delete then fails, two VMs can come to share an
  address: `Lifecycle.SharedAddressIsReachable`, with the exact condition over runs in
  `Lifecycle.EveryRunIsExclusiveIff`.
* The extent path of the flatten ignores the count that pwrite returns
  (src/infrastructure/vm/firecracker/flatten.go:138), so a short write loses bytes silently; the copy
  is exact if and only if they were zero: `Flatten.FlattenDmDevice`.
* A VM that was stopped keeps its dm device, so a restore from a downloaded disk image
  (src/infrastructure/vm/firecracker/provider.go:516-527) gets the old device back and ignores the
  image: it reads the image if and only if the VM had no device or one that reads the same
  (`DmSnapshotManager.Manager.RestoreFromDiskImage`, `DmSnapshotManager.Manager.CreateStopRestore`).
* Of the manager alone, since no path of ResumeVM makes the call twice: flattening a device onto its
  own base is exact if and only if every base block no cow holds was zero
  (`DmSnapshotManager.FlattenOntoOwnBaseIff`), and reconstruct and flatten, done twice, leave a disk of
  zeros (`DmSnapshotManager.Manager.FlattenTwice`).
* A step that releases the lease of a bound VM and then fails to write its row leaves a VM bound
  without a lease; nothing else does: `Lifecycle.StepBoundIff`, `Lifecycle.EveryRunIsBoundIff`.
* The CID probe covers its range exactly when start offset plus range size stay within 2^32
  (`CidAllocator.CoversIff`); otherwise the CID below the start is never probed
  (`CidAllocator.NeverProbed`).
* A frame length is truncated modulo 2^32, and a bare response whose length is in
  0x4F4B2000..0x4F4B20FF is mistaken for an acknowledgement line: `Framing.RoundTripIff`,
  `Framing.BareResponseIff`.

## Model

| member | source | states |
|---|---|---|
| `SparseIO.ExtractSparseRegions` | src/infrastructure/vm/firecracker/compress.go:23-62 | the loop returns the region list of the scan from offset 0, whose order, coverage and completeness the next rows state |
| `SparseIO.RegionsOrdered` | src/infrastructure/vm/firecracker/compress.go:42-60 | the regions are non-empty, in increasing order, disjoint and inside the file |
| `SparseIO.RegionsCoverUpToStop` | src/infrastructure/vm/firecracker/compress.go:42-60 | every data byte before the point where the scan stops is covered, nothing beyond it is, and with a working SEEK_HOLE only data is covered |
| `SparseIO.ManifestCompleteIff` | src/infrastructure/vm/firecracker/compress.go:43-47 | the manifest covers all data if and only if no SEEK_DATA the scan makes fails with data at or after it; in particular when none fails with anything but ENXIO |
| `SparseIO.SeekDataErrorLosesData` | src/infrastructure/vm/firecracker/compress.go:43-47 | a file with a failing SEEK_DATA whose data is in no region |
| `SparseIO.ManifestEmptyIff` | src/infrastructure/vm/firecracker/compress.go:42-60 | no regions if and only if the first SEEK_DATA finds nothing; without seek errors, if and only if there is no data |
| `SparseIO.MergeDiffMemory` | src/infrastructure/vm/firecracker/compress.go:89-117 | succeeds if and only if every region can be read in full from the diff and no open, copy, write or sync fails; the output is then the base with the regions overlaid in order |
| `SparseIO.OverlayAt` | src/infrastructure/vm/firecracker/compress.go:106-115 | for any regions, overlapping or not: each output byte is the diff's if covered, else the base's |
| `SparseIO.MergeStepExactIff` | src/service/vm/service.go:2162-2254 | merging a capturing diff's own manifest onto the parent image gives the new image if and only if every hole byte taken in is zero in it; always when SEEK_HOLE works |
| `SparseIO.OverlayExactIff` | src/service/vm/service.go:2162-2254 | merging a diff onto any image: exact if and only if covered holes are zero and uncovered bytes agree; with working seeks, if and only if that image agrees, at every hole, with the one the diff was taken against |
| `SparseIO.SeekHoleErrorZeroesMemory` | src/infrastructure/vm/firecracker/compress.go:49-52 | a diff with a failing SEEK_HOLE whose merge zeroes an unchanged byte |
| `Flatten.IsAllZeros` | src/infrastructure/vm/firecracker/flatten.go:116-123 | true exactly for a block of zeros |
| `Flatten.CopyDataExtent` | src/infrastructure/vm/firecracker/flatten.go:126-151 | copies the extent through short reads but for the bytes a short write leaves out, touches nothing else, fails only on an I/O failure |
| `Flatten.WriteNonZeroPages` | src/infrastructure/vm/firecracker/flatten.go:93-106 | over a zeroed destination, skipping zero pages still leaves the chunk's bytes |
| `Flatten.LinearSparseCopy` | src/infrastructure/vm/firecracker/flatten.go:77-114 | from any start offset the rest of the destination equals the source and what is before it is kept |
| `Flatten.FlattenDmDevice` | src/infrastructure/vm/firecracker/flatten.go:22-73 | a successful file, made on extents, linearly, or switching midway, equals the source if and only if every byte lost to a short write was zero; without short writes none is lost; with no failing call and no unexpected seek error it succeeds |
| `SnapshotForest.NewConfig` | src/service/vm/service.go:245-250 | the defaults: self-contained disks and a bound of five, which is always positive |
| `SnapshotForest.ForestAfterCreate` | src/service/vm/service.go:1551-1594 | a recorded snapshot keeps the forest: older recorded parent of the same VM, full exactly when parentless, chain length below the bound, distinct times |
| `SnapshotForest.ForestAfterDelete` | src/service/vm/service.go:2872-2898 | deleting a childless row keeps the forest |
| `SnapshotForest.ChainShape` | src/service/vm/service.go:1806-1853 | both chain walks give the same chain: incrementals, each the child of the next, then one full root, all recorded rows of the VM |
| `SnapshotForest.IncrementalResolves` | src/service/vm/service.go:2163-2265 | every incremental row resolves, to a chain of at least two, so the single-step merge branch is never taken |
| `SnapshotForest.ChainSurvives` | src/service/vm/service.go:1829-1853 | removing rows outside a chain changes neither the chain nor its resolution |
| `SnapshotForest.KeptRestoresTheSame` | src/service/vm/service.go:1769-1802 | the rows GC keeps form a forest in which the latest resolves to the same chain, and of the VM exactly that chain is kept |
| `SnapshotForest.GcKeepsNewestIff` | src/service/vm/service.go:1714-1718 | GC around a row keeps the VM's newest snapshot if and only if that row is the newest |
| `SnapshotRows.StaleGcIsReachable` | src/service/vm/service.go:1714-1718 | a run of two snapshots after which GC with the first one's id deletes the second |
| `SnapshotRows.AddKeepsInv` | src/service/vm/service.go:1551-1594 | a new row keeps the forest and, with diffs in incremental disk mode, has its parent's depth plus one or a full disk of depth zero |
| `SnapshotRows.EveryRunAdds` | src/service/vm/service.go:1724-1749 | over every run, the next row recorded: child of the newest if the VM takes diffs; cow-only if and only if the mode is incremental and there is a newest row, not too old and not at the bound; otherwise a whole disk, of the configured kind in other modes; none added when too old fetches a delta |
| `SnapshotRows.EveryRunResolves` | src/service/vm/service.go:1806-1853 | over every run of row writes and deletes: parents are recorded, older, of the same VM; full exactly when parentless; every incremental row resolves to one full root followed only by incrementals, at least two in all |
| `SnapshotRows.DepthIsDistance` | src/service/vm/service.go:1724-1765 | the recorded depth is the distance along the chain to the nearest full-disk member |
| `SnapshotRows.DiskRootIndex` | src/service/vm/service.go:2090-2096 | the last chain member with a full or self-contained disk, which leaves exactly the chain's cow deltas after it |
| `SnapshotRows.EveryRunFetchesDepthIff` | src/service/vm/service.go:2086-2151 | over every run: the depth is below the bound, and it is the number of deltas fetched if and only if the VM takes diffs or the row has a whole disk |
| `SnapshotRows.DepthDriftIsReachable` | src/service/vm/service.go:1752-1765 | a run without diffs whose second row has depth 1 and no deltas |
| `SnapshotRows.ServiceRunsAreRowRuns` | src/service/vm/service.go:1534-1802 | every run of the service is such a run on its rows |
| `Restore.CreateKeepsInv` | src/service/vm/service.go:1534-1721 | a create, with its upload or row write failing or not, keeps the forest and the sizes of all stored objects |
| `Restore.DeleteKeepsInv` | src/service/vm/service.go:2872-2898 | so does a delete, refused, complete, or with a failing row or object delete |
| `Restore.RunKeepsInv` | src/service/vm/service.go:1534-1802 | every run of creates, deletes and resumes keeps that invariant |
| `Restore.RestoredIff` | src/service/vm/service.go:1976-2265 | a restore yields memory if and only if the chain's objects are complete, and then the merge of the chain, of the right size |
| `Restore.RestoreOutcomeIff` | src/service/vm/service.go:1976-2265 | a restore is refused if and only if the snapshot's own object or, on top of a parent, manifest is missing; it makes a fresh VM if and only if those are there and another chain member's is missing |
| `Restore.DeleteKeepsOtherRestores` | src/service/vm/service.go:2872-2898 | deleting one row, whole or half, changes the restore of no other |
| `Restore.DeleteEffect` | src/service/vm/service.go:2872-2898 | what a delete of a childless row does to its row and objects, and that it does nothing else |
| `RestoreExact.NewSnapshotRestoresIff` | src/service/vm/service.go:2016-2018 | a new snapshot restores if and only if its upload went through and, on top of a parent, its manifest was written, its diff is not empty and its parent restores |
| `RestoreExact.LosesAtIff` | src/infrastructure/vm/firecracker/provider.go:415-424 | with working seeks a byte is lost exactly where the diff has a hole and the parent's memory differs from the last capture or restore |
| `RestoreExact.CreateExactIff` | src/service/vm/service.go:1534-1721 | after a create every restorable snapshot is still exact if and only if the create loses no byte |
| `RestoreExact.DeleteKeepsExact` | src/service/vm/service.go:2872-2898 | deletes, whole or half, keep every remaining restore exact |
| `RestoreExact.EveryRunRestoresExactlyIff` | src/service/vm/service.go:2162-2254 | over every run from an exact state: restores are exact throughout if and only if no create loses a byte |
| `RestoreExact.EveryGuardedRunRestoresExactly` | src/service/vm/service.go:2162-2254 | a sufficient guard: from the empty store, if every diff is taken with working seeks while the newest row is the last capture or restore, exactly its memory for a complete chain, no memory otherwise |
| `RestoreExact.SafeToCaptureIff` | src/service/vm/service.go:1551-1566 | no next capture of a VM can restore wrong if and only if the memory below the new row is the last captured or restored one |
| `RestoreExact.SafeWithoutRowsIff` | src/service/vm/service.go:2439-2448 | of a VM without rows the next capture is safe if and only if the image tracked since the last capture or restore is blank |
| `RestoreSchedules.LedgerFollows` | src/service/vm/service.go:1534-1802 | which rows, objects and manifests exist and what each VM's last snapshot is follows from the schedule, not from any memory |
| `RestoreSchedules.ScheduleExactIff` | src/service/vm/service.go:1534-2451 | a schedule is exact for every guest memory if and only if every diff in it that a restore can use is captured while the newest row is the last capture or restore |
| `RestoreSchedules.BadScheduleHasGuest` | src/service/vm/service.go:1551-1566 | for any other schedule there is a guest and a run of it with a wrong restore |
| `RestoreSchedules.ClearedVmIsNotGood` | src/service/vm/service.go:2439-2448 | after a resume that left no row the next recorded and uploaded capture breaks that condition |
| `RestoreWitnesses.LostWriteIsReachable` | src/service/vm/service.go:1692-1695 | a run with a failed row write, or with a delete of the newest row, after which a restore gives wrong memory |
| `RestoreWitnesses.HollowFullSnapshotIsReachable` | src/service/vm/service.go:2439-2448 | snapshot, resume with its delete of all rows, write, snapshot: the second is recorded as full and restores zeros where nothing changed; likewise if the first row was never written |
| `RestoreWitnesses.EmptyDiffIsRefused` | src/service/vm/service.go:1648-1652 | a run whose last snapshot is recorded but refused |
| `RestoreWitnesses.BrokenChainMakesFreshVm` | src/service/vm/service.go:2226-2237 | full, idle, then a written snapshot: the restore of the last makes a fresh VM |
| `SnapshotService.ListNewestFirst` | src/repository/postgres/snapshot.go:74-94 | all rows of the VM, each once, newest first |
| `SnapshotService.CollectAncestors` | src/service/vm/service.go:1806-1823 | the walk terminates with the recorded ancestors of the leaf |
| `SnapshotService.AncestorsAreTheChain` | src/service/vm/service.go:1806-1823 | those ancestors with the leaf are the members of its chain |
| `SnapshotService.ReverseInPlace` | src/service/vm/service.go:1848-1851 | the swap loop reverses |
| `SnapshotService.Service.GetLatestByVMID` | src/repository/postgres/snapshot.go:118-138 | the newest row of the VM, if any |
| `SnapshotService.Service.CreateSnapshot` | src/service/vm/service.go:1534-1721 | performs exactly the create step of the state machine, or nothing when the VM is not ready; the file stored is the captured one and no other object changes; succeeds exactly when the row is recorded |
| `SnapshotService.Service.DeleteSnapshot` | src/service/vm/service.go:2872-2898 | succeeds exactly for a recorded childless row whose row delete works, and removes exactly that row and what the ignored object delete does not leave |
| `SnapshotService.Service.SnapshotGC` | src/service/vm/service.go:1769-1802 | only deletes; whatever fails, the restore of latestId is unchanged; when nothing fails exactly the rest of the VM's rows is gone, so every delete tried was allowed |
| `SnapshotService.Service.UnprotectedIsChildless` | src/service/vm/service.go:1793-1801 | newest first, each unprotected row passes the has-children check when its turn comes |
| `SnapshotService.Service.DeletePass` | src/service/vm/service.go:2918-2924 | one oldest-first pass: a pass that deleted anything leaves strictly fewer rows, and one without failures always deletes something |
| `SnapshotService.Service.DeleteAllSnapshots` | src/service/vm/service.go:2900-2930 | ends for any pattern of delete failures, touches no other VM, and leaves no row of this one when the store works |
| `SnapshotService.Service.ResolveCowChain` | src/service/vm/service.go:1829-1853 | the walk terminates and returns the chain root first, or fails on a missing parent |
| `SnapshotService.Service.MergeChainMemory` | src/service/vm/service.go:2162-2254 | the accumulating loop computes the merge of the whole chain; an I/O failure can only make it fail |
| `SnapshotService.Service.RestoreMemory` | src/service/vm/service.go:1976-2265 | memory restored, fresh VM or refusal, exactly as the restore outcome the run theorems speak of; under I/O failures never other memory |
| `SnapshotService.Service.ResumeLatest` | src/service/vm/service.go:1857-2265 | performs the resume step: what was loaded is what later diffs are against |
| `SnapshotService.Service.ResumeAndClear` | src/service/vm/service.go:1857-2451 | a whole resume is the resume step followed by deletes; with a working store no row is left and the VM is out of step with its last capture |
| `DeviceMapper.StackReadsNewest` | src/infrastructure/vm/firecracker/dm_snapshot.go:162-204 | a block held by some cow is read from the newest one holding it |
| `DeviceMapper.StackReadsBase` | src/infrastructure/vm/firecracker/dm_snapshot.go:162-204 | a block no cow holds is read from the base |
| `DeviceMapper.ViewOfStack` | src/infrastructure/vm/firecracker/dm_snapshot.go:162-204 | reading through the kernel's tables gives that stack at every layer |
| `DeviceMapper.PushExact` | src/infrastructure/vm/firecracker/dm_snapshot.go:162-204 | one more layer on a stack is again a stack in which each device is used only by the next |
| `DeviceMapper.TearDownExact` | src/infrastructure/vm/firecracker/dm_snapshot.go:285-292 | top-down teardown frees each device and each cow loop of the stack once, and nothing else |
| `DmAccounting.AccountedAfterActivate` | src/infrastructure/vm/firecracker/dm_snapshot.go:357-362 | recording a finished stack keeps: each refCount is the number of active devices on its base plus the references leaked by failed steps |
| `DmAccounting.AccountedAfterDeactivate` | src/infrastructure/vm/firecracker/dm_snapshot.go:395-432 | so does removal; the base loop goes exactly with the last reference, when no other VM is on it |
| `DmAccounting.OtherStackStands` | src/infrastructure/vm/firecracker/dm_snapshot.go:395-432 | tearing one VM's stack down leaves every other VM's stack standing |
| `DmAccounting.AccountedAfterOrphanRemoval` | src/infrastructure/vm/firecracker/dm_snapshot.go:395-404 | removing a device the manager does not know disturbs no known one |
| `DmSnapshotManager.FlattenExact` | src/infrastructure/vm/firecracker/dm_snapshot.go:230-268 | flattening into a file no loop is attached to copies the view exactly |
| `DmSnapshotManager.FlattenOntoOwnBaseIff` | src/infrastructure/vm/firecracker/dm_snapshot.go:219-229 | onto the stack's own base it is exact if and only if every base block no cow holds was zero |
| `DmSnapshotManager.OthersKept` | src/infrastructure/vm/firecracker/dm_snapshot.go:230-268 | the same of all other VMs at once, for a given set of changed files |
| `DmSnapshotManager.DeviceReadsDiskView` | src/infrastructure/vm/firecracker/dm_snapshot.go:124-212 | an active VM's device exists and reads its base under its cows |
| `DmSnapshotManager.OtherDiskKept` | src/infrastructure/vm/firecracker/dm_snapshot.go:80-102 | between two accounted states that leave its loops alone, a VM recorded in both reads the same disk unless a file under it changed |
| `DmSnapshotManager.BuiltKeepsAttachments` | src/infrastructure/vm/firecracker/dm_snapshot.go:124-212 | building a device keeps the loops of all files and bases |
| `DmSnapshotManager.Manager.SetupOrigin` | src/infrastructure/vm/firecracker/dm_snapshot.go:80-102 | one more reference on the base, on the same loop or a newly attached one; on failure nothing changes |
| `DmSnapshotManager.Manager.CleanupChainLayers` | src/infrastructure/vm/firecracker/dm_snapshot.go:285-292 | the backward loop is the top-down teardown |
| `DmSnapshotManager.Manager.ReconstructChainDevice` | src/infrastructure/vm/firecracker/dm_snapshot.go:124-212 | success: a device reading the base under the cow files, and nothing else new; failure at any layer: the same dm devices and cow loops as before, at most one reference on the base more; it succeeds when no command fails, the files are there and the names are free |
| `DmSnapshotManager.Manager.CreateCowDevice` | src/infrastructure/vm/firecracker/dm_snapshot.go:302-363 | the same for one layer, over an empty cow unless it is reused |
| `DmSnapshotManager.Manager.RemoveDevice` | src/infrastructure/vm/firecracker/dm_snapshot.go:395-432 | frees exactly the VM's devices and cow loops, and the base loop only with the last reference, when no other active VM is on that base |
| `DmSnapshotManager.Manager.ReconstructThenRemove` | src/infrastructure/vm/firecracker/dm_snapshot.go:124-432 | building and removing a device restores devices, loops and bookkeeping |
| `DmSnapshotManager.Manager.FlattenChainDevice` | src/infrastructure/vm/firecracker/dm_snapshot.go:230-268 | success: a single layer over mergedPath, the old layers and cow loops gone, only mergedPath and the fresh cow file changed, and the same view if no loop was attached to mergedPath; it succeeds for a known VM when no command fails; in every case other VMs on other files read as before |
| `DmSnapshotManager.Manager.FlattenTwoVms` | src/infrastructure/vm/firecracker/dm_snapshot.go:230-268 | flatten one VM, let it write, flatten another into another directory: the first reads its writes over its old disk before and after |
| `DmSnapshotManager.Manager.RestoreFromDiskImage` | src/infrastructure/vm/firecracker/provider.go:516-527 | the device of a restore reads the disk image if and only if the VM had no device or one that reads the same |
| `DmSnapshotManager.Manager.CreateStopRestore` | src/infrastructure/vm/firecracker/provider.go:741-777 | create, stop, restore: the disk is the one created, whatever the image; with no failing command it gets that far |
| `DmSnapshotManager.Manager.FlattenTwice` | src/infrastructure/vm/firecracker/dm_snapshot.go:124-268 | reconstruct and flatten twice: the second time the whole disk reads as zeros; with no failing command and the files there it gets that far |
| `CidAllocator.NthOffset` | src/infrastructure/vm/firecracker/cid_allocator.go:27-33 | what the i-th probe is, with and without uint32 wrap-around |
| `CidAllocator.CoversIff` | src/infrastructure/vm/firecracker/cid_allocator.go:27-41 | the probe visits every CID of the range if and only if offset plus size is at most 2^32, and then none twice; always for ranges of at most 2^31 |
| `CidAllocator.NeverProbed` | src/infrastructure/vm/firecracker/cid_allocator.go:27-33 | on overflow the CID just below the start is never probed |
| `CidAllocator.ExhaustedMeansFullIff` | src/infrastructure/vm/firecracker/cid_allocator.go:27-41 | the exhausted error means a full range, for every set of taken CIDs, if and only if the same condition holds |
| `CidAllocator.AllocateDeterministicCID` | src/infrastructure/vm/firecracker/cid_allocator.go:13-42 | the first free CID in probing order, which starts at min plus the hash modulo the range size; the error cases; an error otherwise only if all probed CIDs are used or a check fails |
| `CidAllocator.EveryRunIsDistinct` | src/infrastructure/vm/firecracker/provider.go:1497-1588 | over every sequential run of creates, restores and stops no two VMs have one nonzero CID, running or persisted |
| `CidAllocator.EveryRunStartsApart` | src/infrastructure/vm/firecracker/provider.go:1497-1588 | over every run, two successful starts of different VMs, the first neither stopped nor started over in between, got different CIDs |
| `CidAllocator.Provider.LoadPersistedGuestCIDs` | src/infrastructure/vm/firecracker/provider.go:1534-1567 | exactly the nonzero CIDs in the other VMs' files |
| `CidAllocator.Provider.ResolveGuestCID` | src/infrastructure/vm/firecracker/provider.go:1497-1532 | a CID no other VM has; the requested one if that is free; one is found whenever the range has a free one |
| `CidAllocator.Provider.StartVm` | src/infrastructure/vm/firecracker/provider.go:243-300 | success: a CID no other VM has, now running and in the VM's file; failure: what runs is unchanged, and after a failed create the file is gone; other VMs are untouched and CIDs stay distinct |
| `CidAllocator.Provider.StopVm` | src/infrastructure/vm/firecracker/provider.go:741-777 | an error without effect for a VM that is not tracked; otherwise it no longer runs and, unless the release fails, has no file |
| `IpAllocator.ValueInjective` | src/service/vm/service.go:219-229 | different addresses of one length are different numbers |
| `IpAllocator.NextIsPlusOne` | src/service/vm/service.go:219-229 | nextIP is plus one modulo 256^n on big-endian bytes |
| `IpAllocator.NextIP` | src/service/vm/service.go:219-229 | the in-place loop computes that successor |
| `IpAllocator.OrderedRange` | src/service/vm/service.go:183-211 | for start not above end, the addresses stepped through are the inclusive interval in increasing order |
| `IpAllocator.FirstFree` | src/service/vm/service.go:183-211 | terminates with the first free address of the inclusive range, and with none exactly when all are taken |
| `Lifecycle.StepExclusiveIff` | src/service/vm/service.go:1103-1250 | a step keeps addresses exclusive if and only if it is not a Stop or Unassign that revives a terminated VM whose address another holds |
| `Lifecycle.EveryRunIsExclusiveIff` | src/service/vm/service.go:734-2451 | over every run of all lifecycle operations and failures: addresses are exclusive throughout if and only if no step does that |
| `Lifecycle.UnassignExclusiveIff` | src/service/vm/service.go:1103-1133 | the same condition for one completed unassign |
| `Lifecycle.SharedAddressIsReachable` | src/service/vm/service.go:1221-1245 | a run of four operations from the empty fleet after which two VMs hold one address |
| `Lifecycle.ResumeKeepsExclusive` | src/service/vm/service.go:1945-1973 | a resume, also of a terminated VM and on every failure branch, keeps addresses exclusive |
| `Lifecycle.GrantIsHeld` | src/service/vm/service.go:1945-1973 | a successful create or resume leaves the VM holding the address it was given or had |
| `Lifecycle.EveryRunKeepsAddressIff` | src/service/vm/service.go:1196-1250 | over every run, an address once held is held throughout if and only if no destroy of its VM gets as far as a write |
| `Lifecycle.StepBoundIff` | src/core/domain/vm/vm.go:201-226 | a step keeps every bound VM running with an active lease for the same chat if and only if it does not release a bound VM's lease and then fail to write the row |
| `Lifecycle.EveryRunIsBoundIff` | src/service/vm/service.go:487-512 | over every run: that holds throughout if and only if no step of the run does so |
| `Lifecycle.StepRebindsThroughNone` | src/repository/memory/vm.go:237-262 | no step moves a VM from one chat to another |
| `Lifecycle.RebindingPassesThroughNone` | src/repository/memory/vm.go:237-276 | a VM bound to two chats at the ends of any run was unbound at some point between |
| `VmService.VMRepository.Update` | src/repository/memory/vm.go:60-69 | replaces an existing row, else nothing |
| `VmService.VMRepository.AssignToChatIfAvailable` | src/repository/memory/vm.go:237-262 | an unbound ready, running or idle VM becomes running, bound and leased to the chat with its address kept; any other is an error without effect |
| `VmService.VMRepository.ReleaseActiveLeaseByVM` | src/repository/memory/vm.go:264-276 | drops the VM's active lease |
| `VmService.Service.Allocate` | src/service/vm/service.go:183-211 | the first address of the range, in stepping order, that no VM held, persisted on the row; none exactly when the range is full or the write fails |
| `VmService.Service.Create` | src/service/vm/service.go:833-895 | every branch is an enabled create step; success: ready, unbound, on an address of the range nobody held; a failure that can be written leaves a terminated row without address |
| `VmService.Service.Unassign` | src/service/vm/service.go:1103-1133 | success: idle, unbound, without lease, address kept; failure: the row is unchanged |
| `VmService.Service.Stop` | src/service/vm/service.go:1137-1193 | the same after a backend stop |
| `VmService.Service.Destroy` | src/service/vm/service.go:1196-1250 | success: row and lease are gone; if only the row delete fails, a terminated row that still has its address |
| `VmService.Service.ResumeVM` | src/service/vm/service.go:1857-2413 | every branch is a run of enabled steps; success: the VM runs, bound to the wanted chat, on the address it had or else on one of the range nobody else held; a chain that does not resolve or merge gives a new ready VM |
| `VmService.Service.ReapIdle` | src/service/vm/service.go:564-656 | a listed VM that stops becomes idle and unbound, without lease if that is released |
| `VmService.Service.MarkColdAfterLostRuntime` | src/service/vm/service.go:487-512 | a listed VM becomes idle and unbound; all leases are kept |
| `VmService.Service.GetRuntimeSnapshot` | src/service/vm/service.go:910-953 | a runtime found gone or stopped makes a VM that is not terminated idle and unbound, leases kept |
| `Framing.SizeOfHeader` | src/infrastructure/vm/firecracker/exec_protocol.go:105-106 | the header holds the length modulo 2^32 |
| `Framing.RoundTripIff` | src/infrastructure/vm/firecracker/exec_protocol.go:91-144 | a non-empty payload is read back, the bytes after it untouched, if and only if its length fits 32 bits and the limit |
| `Framing.ReadIsFrame` | src/infrastructure/vm/firecracker/exec_protocol.go:119-144 | whatever a read accepts was the frame of a non-empty payload within the limit, followed by what is left |
| `Framing.StreamRoundTrip` | src/infrastructure/vm/firecracker/exec_protocol.go:91-144 | any sequence of accepted payloads is read back unchanged in order |
| `Framing.AckIsStripped` | src/infrastructure/vm/firecracker/provider.go:1449-1467 | an "OK ...\n" line before a frame is stripped whatever it says |
| `Framing.FrameStartsWithOkIff` | src/infrastructure/vm/firecracker/provider.go:1449-1467 | a frame looks like an acknowledgement for exactly 256 lengths, from 0x4F4B2000 |
| `Framing.BareResponseIff` | src/infrastructure/vm/firecracker/provider.go:1449-1467 | a response without the line is read back if and only if its length is none of those; always under a limit below 0x4F4B2000 |
| `Framing.Stream.WriteFramed` | src/infrastructure/vm/firecracker/exec_protocol.go:91-117 | accepts exactly non-empty payloads within the limit and appends their frame, else writes nothing |
| `Framing.Stream.ReadFramed` | src/infrastructure/vm/firecracker/exec_protocol.go:119-144 | consumes and returns what the frame reader specifies, with all error cases |
| `Framing.Stream.ReadVsockExecResponse` | src/infrastructure/vm/firecracker/provider.go:1449-1467 | the same after an optional acknowledgement line |
| `ChatPages.LessIsTotal` | src/repository/memory/chat.go:95-109 | the id comparison is a strict total order |
| `ChatPages.LessIsLexicographic` | src/repository/memory/chat.go:102-107 | and it is the lexicographic one |
| `ChatPages.ListingIsNewestFirst` | src/repository/memory/chat.go:95-109 | a listing goes from newer to older, among equals from greater to smaller id |
| `ChatPages.SortedIsUnique` | src/repository/memory/chat.go:95-109 | a set of chats has one order by (CreatedAt, ID) descending |
| `ChatPages.SortedChats` | src/repository/memory/chat.go:87-109 | all chats of the user, each once, in that order |
| `ChatPages.SeekPast` | src/repository/memory/chat.go:112-122 | the loop finds where the page after the cursor starts |
| `ChatPages.StartSplits` | src/repository/memory/chat.go:112-122 | that is the first chat strictly below the cursor, also for a cursor of a deleted chat |
| `ChatPages.PageIsAfterCursor` | src/repository/memory/chat.go:112-163 | a page holds only chats that come after its cursor, and a last page all of them |
| `ChatPages.PageSplits` | src/repository/memory/chat.go:125-163 | a page and what its cursor leads to make up everything after the page's start, and the cursor advances |
| `ChatPages.PagesListEachChatOnce` | src/repository/memory/chat.go:79-168 | for any chats and any limit, following cursors ends and the pages concatenate to the user's chats in order, each once |
| `ChatPages.ListByUserID` | src/repository/memory/chat.go:79-168 | one call returns that page of the sorted listing: the user's chats, at most the limit, or 20 for a limit outside 1 to 100, and exactly that many when a cursor is given |
| `ReactLoop.RunIsUnique` | src/service/orchestrator/service.go:135-283 | planner, tools and input determine the turns taken |
| `ReactLoop.TurnsFollowThePlanner` | src/service/orchestrator/service.go:138-194 | each turn carries out the first step of the plan made from all turns before it |
| `ReactLoop.EndsOnlyWhenDone` | src/service/orchestrator/service.go:135-168 | a run ends only at the bound, on a planner error, or when the planner wants no tool |
| `ReactLoop.HintIsLastNamed` | src/service/orchestrator/service.go:205-212 | the environment hint is the one named last by a successful vm.start or vm.create |
| `ReactLoop.ReasoningIsLast` | src/service/orchestrator/service.go:280-282 | the trace keeps the last reasoning that is not empty |
| `ReactLoop.RecordsMatchTurns` | src/service/orchestrator/service.go:193-279 | executed steps, results, prior turns, trace steps and tool_call events are equally many, one per turn, numbered from 1 |
| `ReactLoop.UsageIsTheSum` | src/core/domain/orchestrator/trace.go:16-23 | the total is, in each of its six counters, the sum over all samples |
| `ReactLoop.PlannerCallsCounted` | src/service/orchestrator/service.go:149-168 | the samples are one per step, and one more when the planner ended the loop |
| `ReactLoop.EveryStepEmitsOneCall` | src/service/orchestrator/service.go:226-269 | the tool_call events of the stream are one per step, in order, each with its own step, tool, observation and error |
| `ReactLoop.PlanPrecedesItsCall` | src/service/orchestrator/service.go:252-269 | a plan event stands only directly before the tool_call event of its own step |
| `ReactLoop.StepShows` | src/service/orchestrator/service.go:170-269 | thoughts and answers are shown exactly when not empty, a plan exactly for a successful announcement, a call with its own step, tool, arguments, command and outcome |
| `ReactLoop.ObservationIs` | src/service/orchestrator/service.go:214-224 | what is observed of a result: its output, else its JSON, else its error |
| `ReactLoop.FinaleShows` | src/service/orchestrator/service.go:314-344 | the stream ends with the final thoughts, if any, and the token |
| `ReactLoop.WholeStreamShowsEachCall` | src/service/orchestrator/service.go:171-344 | both hold of the whole stream of a successful turn |
| `ReactLoop.TokenEndsTheStream` | src/service/orchestrator/service.go:331-344 | exactly one token event, the last, with the answer and the usage unless zero |
| `ReactLoop.OnlyAllowedToolsRun` | src/service/orchestrator/service.go:365-387 | only registered tools are executed, and with a non-empty allow-list only those on it |
| `ReactLoop.OutcomeIs` | src/service/orchestrator/service.go:365-413 | which calls run, and what comes of each: refusals by name, a tool error never ok, defaults filled in |
| `ReactLoop.RefusedCallsFail` | src/service/orchestrator/service.go:365-387 | any other call of a run fails with a message |
| `ReactLoop.PermittedCallsRun` | src/service/orchestrator/service.go:389-398 | a permitted call was executed, right after the executions of the turns before it |
| `ReactLoop.Service.ExecuteStep` | src/service/orchestrator/service.go:365-413 | the result with its defaults and error handling, and one execution exactly when permitted |
| `ReactLoop.Service.RunSteps` | src/service/orchestrator/service.go:135-283 | the loop takes the run that finishes or gets stuck, within MaxReactSteps, with its records, events and executions |
| `ReactLoop.Service.ProcessReactLoop` | src/service/orchestrator/service.go:119-363 | the whole turn: planner, final-answer and save errors are errors; otherwise results, trace, usage over all calls, stream and saved step count are those of the one run |
| `ReactLoop.SuccessIff` | src/service/orchestrator/service.go:285-363 | a finished run succeeds if and only if the final answer and the save do, with that answer, the turns' results and trace, the total usage, the reasoning and the stream for a listening client |

## Left out

- ReactLoop.Service.ProcessReactLoop: leaves out the chat id, trace id and time stamped on every event, the plan event's metadata and 64-bit overflow of token counters; formatted messages are constructors instead of strings.
- DmSnapshotManager.Manager.RemoveDevice: a removal or detach has no effect only while the device is in use; other failures of dmsetup remove and losetup -d, which the source ignores, and device nodes that vanish behind the manager's back are not modelled.
- DmSnapshotManager.Manager.FlattenChainDevice: states nothing about the VM's own device after a failure in its last step, since the old stack is then already gone, and nothing about the view for a mergedPath that is a cow file of the stack or named like the fresh one.
- VmService.Service.Create: networking is on; without an allocator no address is ever set, so exclusivity is immediate.
- VmService.Service.ReapIdle: idle deadlines and the resume grace period only decide which rows are tried; the idle rows that the Postgres listing adds are included.
- VmService.VMRepository.AssignToChatIfAvailable: the in-memory repository; the unique active-lease index of the Postgres one is not modelled, nor are lease history and idle deadlines.
- CidAllocator.Provider.StartVm: the CID part of Create and RestoreFromSnapshot only; a VM with exec and vsock off has no CID and is left out.
- SparseIO.MergeDiffMemory: regions with negative numbers, which a hand-written manifest file could hold, are not modelled.
- SnapshotService.Service.RestoreMemory: an object store is configured; without one the source restores the raw file of the newest row, diff or not.
- DmSnapshotManager.Manager.CopyDevice: a successful copy is whole; what a short write costs is stated at Flatten.FlattenDmDevice.
- DmSnapshotManager.Manager.SetupOrigin: a base whose loop node has vanished is not attached again.
- ChatPages.ListByUserID: of a summary only the fields that paging reads are kept.
- Disk contents that ResumeVM restores in incremental disk mode: RestoreFromSnapshot ignores the cow chain when a disk image path is set, so stacking is proved at the manager.
- ResetCoW: it reloads the same base with an empty cow and keeps no view.
- Interleavings inside one service operation, and repository reads that fail.
- Device names are constructors instead of strings, so a VM id that itself ends in "_layer0" cannot collide with a layer.
- The hash that picks the first CID probe, S3, zstd, JSON, SQL text, vsock dialling, TAP and NAT set-up: foreign calls, replaced by parameters or contracts.
- HTTP handlers, authentication, configuration, broadcasters, activator, metrics, name generation and readiness polling: plumbing, or only easy members.
