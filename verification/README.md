# Unikernel monitor: memory, scheduling and port translation

A unikernel monitor runs many unikernel instances on one machine. Each core has one *execution slot*, the virtual
addresses under entry 0x180 of the top-level page table. This project models the three mechanisms that everything else
rests on, and proves that they keep the instances apart.

**Copy-on-write page tables** (`UmPgTblMgr.cc`, `UmPth.cc`, the fault and checkpoint paths of `UmManager.cc` and
`UmInstance.cc`). An instance's memory is a 512-way radix tree of page-table entries in flat physical memory (x86-64
4-level paging: Intel SDM Vol. 3A, section 4.5; accessed and dirty bits, section 4.8; translation caches, section
4.10). Pages appear on fault, from the ELF image, as zeros or as a private copy. A checkpoint makes a snapshot: it
copies the pages that were written and owned, shares the ones that an earlier snapshot owns, and drops clean pages.
Deploying a snapshot clones its tree with every leaf read-only. Reclaiming a page table frees its tables and exactly
the frames of its writable leaves. The main results:

* each algorithm on the tree, as it writes entries in place and reuses one index buffer through its recursion, has
  exactly the effect of its description as a map update, a copy or a removal (`PageTree`, `TreeWalk`, `PhysicalMemory`);
* every fault, load, store, boot, checkpoint, deployment, swap and teardown keeps one invariant: the frames are
  partitioned into free ones, ELF frames and the trees' own, a frame with a writable leaf has no other user, clean pages
  still have their initial bytes, and cached translations agree with the installed tree (`CoreMemory`, `CoreSteps`,
  `Manager`);
* every such step is a step of an *ideal machine*, in which each instance and each snapshot simply has its own bytes. So
  on whole runs snapshots never change, instances change only by their own stores, a deployed instance starts with what
  its source showed at the checkpoint, and the copy-on-write build cannot be told from the deep-copy build
  (`AddressSpaces`, `Isolation`);
* the operations of the manager and the processor, from their guards and results alone, form a step relation on the
  concrete memory with its tables, slot entry and cached translations (`CoreMachine`). Every run of it, in any order,
  keeps the invariant, shows the bytes of the ideal machine, and returns to every read what the ideal machine returns;
  cores of the two builds that run the same programs read the same bytes (`CoreRuns`);
* the deep-copy build gives every instance and snapshot pages of its own: on its runs nobody borrows, there are no
  copy-on-write faults, and any snapshot may be dropped at any time (`Builds`);
* snapshots are layered: a snapshot takes one page for each page its source wrote and owned, a clone takes none, and
  neither does a checkpoint of a deployed instance that only read (`Deltas`);
* a whole life (deploy, any accesses, unload, destroy) gives back exactly the frames it took, and changes nothing else.

**The slot scheduler** (`UmManager.cc`, `UmInstance.cc`). One instance is in the slot; the others wait in a queue.
Instances block with a saved context and are woken up by asynchronous activations, timers and packets. `SlotSchedule`
gives every operation as a function on the state, and proves on every interleaving: the queue holds each inactive
instance once, a started instance is exactly one of executing, blocked or about to be resumed, timers belong to
blocked instances, sleeping and waking up lead back to the state before, every activation is completed exactly once,
and no submitted instance is lost. A halt may be asked for while the instance executes, is blocked or waits in the
queue, and completes when no other event is left; an instance that is halting, or marked for it, and does not execute
never executes again. While no instance is moved to the front of the queue, an active instance that waits
at position k is overtaken by at most k Yields, and otherwise only by instances submitted to a slot that is empty or
can be given up; those have no bound. `SlotEffects` says of every event, from outside, whom it changes and how, and
that nobody else notices. `Scheduler` is the manager and its instances as classes, whose methods do
exactly that, and whose assertions (`kassert`, `kabort`) are proved from the invariant or are preconditions.

**The port map** (`UmProxy.cc`; NAPT, section 2.2 of RFC 3022). All cores share one locked map from external ports to
(instance, core, port) triples, and each has a cache. `PortMap` interleaves the cores between cache lookup, root call
and cache insertion, and proves that all answers of a run agree with one bijection and are about what was asked;
`Proxy` has the classes, whose methods are runs of these steps.

`Encoding` ties the fields that the algorithms use to the 64-bit words of the entries and addresses, and `Counters`
proves when the two families of page counters agree.

Where the code and its intention differ, the model follows the code:

* A page table that the first faults of a fresh boot build is never stored in the state vector. Swapping such an
  instance out loses the table and its frames (`CoreSteps.SwapKeepsLeaves` states exactly when nothing is lost,
  `CoreRuns.LeaksAreLosses` that a run leaks exactly these frames, and
  `Manager.UmManager.LoseFresh` boots, stores, swaps and reads back the initial bytes).
* Snapshots have no reference counts: destroying one is safe if and only if nobody borrows its pages
  (`CoreSteps.RemoveExact`), and every deployment of a snapshot with pages of its own borrows them
  (`CoreMachine.DeployedIsNeeded`).
* The mark to halt a waiting instance is not seen when the instance enters the slot for the first time: it is started,
  and halted on a later entry (`SlotSchedule.PromisedStarts`).
* A new instance may enter the slot ahead of any that wait, without bound (`SlotSchedule.Starved`).
* When the external ports have run out, port 0 is handed out, to everybody: first to the 31745th triple
  (`PortMap.FirstRefused`, `PortMap.ZeroIsShared`).
* A copy of a page table forgets which pages may not be executed (`PageTableHandler.UmPth.Assign`).
* A timer that fires early is not set again: its instance sleeps until it is signalled (`SlotEffects.FireEffect`).
* The last byte of the slot is not a valid address (`Encoding.SlotAddresses`).
* The accessed-only counters count less than the direct ones unless the accessed bits are set all the way
  (`Counters.AccessedCountersAgree`, `Counters.DirtyCountersAgree`).

Modules, from the bottom: `Layout`, `Wrappers`, `PageTree`, `TreeWalk`, `PhysicalMemory` (`PhysMem.dfy`),
`AddressSpaces`, `Isolation`, `CoreMemory`, `CoreSteps`, `CoreMachine`, `CoreRuns`, `Deltas`, `Builds`,
`PageTableHandler` (`UmPth.dfy`), `Manager` (`UmManager.dfy`); `Encoding`, `Counters`; `SlotSchedule`, `SlotEffects`,
`Scheduler`; `PortMap`, `Proxy` (`UmProxy.dfy`). `dafny verify dfyconfig.toml` checks all of it.

Conventions: running out of frames (`kbugon` on an allocation) is the outcome `Abort`, and other assertions of the code
are preconditions; an access of a program to its memory reads or replaces the bytes of one page; a snapshot or instance
is named by a `Ref`, its bytes are its `View`.

## Model

| member | source | states |
|---|---|---|
| Encoding.SetPteFields | src/UmPgTblMgr.cc:934-957 | the word that setPte builds decodes to exactly the requested flags and frame, present and without MAPS |
| Encoding.SetPteAddress | src/UmPgTblMgr.cc:695-741 | at every level the address read back is the aligned address stored if and only if it is below 2^52, whatever the flags |
| Encoding.DecodeBits | src/UmPgTblMgr.h:74-88 | the flags of an entry are the bits of the processor's format: present 0, writable 1, user 2, accessed 5, dirty 6, large page 7, execute-disable 63 |
| Encoding.LargeAddress | src/UmPgTblMgr.cc:695-741 | the address of a large page is read from its own bits up to 51, at its level only |
| Encoding.EntryRoundTrip | src/UmPgTblMgr.h:57-106 | every entry the mappers build survives encoding into its word and decoding, and the zero word is the absent entry |
| Encoding.AlignedAddressRoundTrip | src/UmPgTblMgr.h:62-91 | an aligned address comes back from its frame number if and only if it is below 2^52 |
| Encoding.FrameRoundTrip | src/UmPgTblMgr.h:62-91 | every frame number comes back from its address, which is aligned and below 2^52 |
| Encoding.Index | src/UmPgTblMgr.cc:914-925 | the shifting loop yields the nine-bit field of the level |
| Encoding.IndicesRoundTrip | src/UmPgTblMgr.cc:887-900 | indexing a reconstructed address gives the four indices back; the address is canonical and page-aligned |
| Encoding.AddressRoundTrip | src/UmPgTblMgr.cc:887-900 | reconstructing from the indices of an address gives its page base if and only if the address is canonical |
| Encoding.IndexUnits | src/UmPgTblMgr.cc:887-900 | one step of an index is 512G, 1G, 2M or 4K, and entry 0x180 begins at the slot's first address |
| Encoding.ViewIndices | src/UmPgTblMgr.cc:914-925 | the index that the algorithms use at a level is the address's field of that level |
| Encoding.SlotAddresses | src/UmManager.h:27-63 | the valid addresses are the canonical ones under entry 0x180, but for the slot's last byte |
| Encoding.PagesDistinct | src/UmPgTblMgr.h:109-117 | two slot addresses have the same indices if and only if they are on the same 4K page |
| Encoding.PagesReached | src/UmPgTblMgr.cc:887-900 | every triple of indices is a page of the slot, whose reconstructed address is valid and has these indices |
| PageTree.TreeFrame | src/UmPgTblMgr.cc:320-335 | a page-table tree, what it owns and every translation of its walk depend only on its own tables |
| PageTree.HwXlateIsXlate | src/UmPgTblMgr.cc:996-1011 | the entries above level 1 are built writable and open to programs, so the processor's permission, which asks all levels, is the leaf's |
| PageTree.HwDenies | src/UmPgTblMgr.cc:1006-1009 | one that were not would deny writing, or programs their access, to every page below |
| PageTree.LeafSetAtTable | src/UmPgTblMgr.cc:985-996 | storing a level-1 entry changes one translation and one owned frame, and keeps the tree |
| PageTree.LeafSetAbove | src/UmPgTblMgr.cc:996-1011 | a leaf set in a subtree, existing or new, whose entry then points to it, is a leaf set in the whole tree: other translations, other trees and accessed bits are kept |
| PageTree.LeafSetFromNull | src/UmPgTblMgr.cc:975-982 | setting a leaf under a null root is setting it in a fresh empty table |
| PageTree.WritableLeavesDistinct | src/UmPgTblMgr.cc:43-56 | two writable leaves of a tree never map the same frame, so freeing them frees no frame twice |
| PageTree.OwnedPageIsLeaf | src/UmPgTblMgr.cc:43-56 | every page that a tree owns is mapped by one of its writable leaves |
| PageTree.MarkDirtySetsLeaf | src/UmPgTblMgr.h:77-91 | the processor's setting of a dirty bit changes that bit of one leaf and nothing else |
| PhysicalMemory.PhysMem.Alloc | src/UmPgTblMgr.cc:976-981 | one free frame comes into use with the given contents, or none is free |
| PhysicalMemory.PhysMem.Free | src/UmPgTblMgr.cc:60-64 | one frame in use is free again |
| PhysicalMemory.PhysMem.SetLeaf | src/UmPgTblMgr.cc:967-1013 | the recursive descent refines a map update: one translation changes, only fresh tables join, no other frame is written, a non-null root is returned unchanged |
| PhysicalMemory.PhysMem.MapIntoPgTbl | src/UmPgTblMgr.cc:959-1013 | the same for the entry that the permissions and the fault ask for |
| PhysicalMemory.PhysMem.FindAndSetPteCow | src/UmPgTblMgr.cc:1016-1054 | the same for a dirty read-only leaf on the original's frame |
| PhysicalMemory.PhysMem.CopyDirtyPage | src/UmPgTblMgr.cc:902-912 | a fresh frame gets the source's bytes, and no other frame changes |
| PhysicalMemory.PhysMem.WalkHelper | src/UmPgTblMgr.cc:1093-1144 | a walk of a subtree copies, shares or drops exactly the pages below it, leaves the source as it is, and overwrites no index above its level |
| PhysicalMemory.PhysMem.WalkEntry | src/UmPgTblMgr.cc:1101-1104 | one iteration has this effect for the pages under its entry |
| PhysicalMemory.PhysMem.WalkExisting | src/UmPgTblMgr.cc:1105-1141 | so for a leaf and for a subtree |
| PhysicalMemory.PhysMem.CopyLeaf | src/UmPgTblMgr.cc:1146-1189 | a dirty leaf is copied to a fresh writable page or shared read-only as the walk demands, at the address rebuilt from the index buffer; a clean one is dropped |
| PhysicalMemory.PhysMem.Walk | src/UmPgTblMgr.cc:838-866 | the copy has at every page of the slot what the source's leaf demands, and owns exactly the frames taken from the allocator |
| PhysicalMemory.PhysMem.FreePageTable | src/UmPgTblMgr.cc:42-67 | the accessed-only traversal frees exactly the tables and the writable leaves' frames, each once and never before its last use |
| PhysicalMemory.PhysMem.FreeEntry | src/UmPgTblMgr.cc:224-238 | one step of it frees what its entry owns |
| TreeWalk.WalkedOn | src/UmPgTblMgr.cc:1101-1143 | walks of adjacent ranges of entries compose |
| TreeWalk.WalkedChild | src/UmPgTblMgr.cc:1137-1141 | walking a child table is walking its entry |
| TreeWalk.WalkedCopy | src/UmPgTblMgr.cc:1112-1127 | allocating, copying and mapping a page is the walk's effect on a dirty writable leaf |
| TreeWalk.WalkedShare | src/UmPgTblMgr.cc:1128-1135 | mapping the original frame read-only is its effect on a shared leaf |
| TreeWalk.CanWalkOtherPath | src/UmPgTblMgr.cc:1104-1104 | an index at or below the level in the buffer does not matter to the walk |
| PageTableHandler.UmPth.Assign | src/UmPth.cc:38-72 | the new table has every written page of the snapshot: on a fresh page of its own in the deep-copy build, and otherwise the snapshot's own page, read-only; executable in either; a null table stays null |
| PageTableHandler.UmPth.CopyInPages | src/UmPth.cc:74-93 | the snapshot has every written page of the running instance: its own copy in the deep-copy build and of pages that the instance owns, and otherwise the very page, read-only; it is not null when a page was written |
| PageTableHandler.UmPth.Destroy | src/UmPth.cc:18-36 | exactly what the table owns is free again |
| AddressSpaces.BootStep | src/UmInstance.cc:25-27 | a new instance shows the initial bytes of its regions |
| AddressSpaces.FaultStep | src/UmManager.cc:464-549 | resolving a fault keeps the invariant and changes no byte that any instance or snapshot shows |
| AddressSpaces.WriteStep | src/UmPgTblMgr.h:77-91 | a store through a writable leaf changes that page of its instance and nothing else |
| AddressSpaces.CopyStep | src/UmPth.cc:38-93 | a checkpoint or deployment, in either build, shows what its source shows, although clean pages are dropped |
| AddressSpaces.RemoveStep | src/UmPth.cc:18-36 | freeing a space's writable pages changes no other space, if no one borrows a snapshot's pages |
| AddressSpaces.RemoveExact | src/UmPgTblMgr.cc:43-56 | it keeps the invariant if and only if no other space borrows a page |
| AddressSpaces.DeployBorrows | src/UmPgTblMgr.cc:1146-1189 | after a copy-on-write deployment the snapshot is borrowed if and only if it has a page of its own |
| AddressSpaces.InstancesLendNothing | src/UmPgTblMgr.cc:1146-1189 | nobody borrows the pages of an instance |
| AddressSpaces.CopiedSpaceApart | src/UmPgTblMgr.cc:1146-1189 | a frame with a writable leaf in an instance stays without other users through every copy |
| AddressSpaces.FaultApart | src/UmInstance.cc:298-328 | and through every fault |
| Isolation.StepRefines | src/UmManager.cc:400-549 | every step of either build keeps the invariant and is a step of the ideal machine |
| Isolation.RunRefines | src/UmManager.cc:400-549 | so on every run |
| Isolation.FaultsAreInvisible | src/UmManager.cc:464-549 | page faults do not count in the ideal machine |
| Isolation.CowRefinesDeepCopy | src/UmPth.cc:47-65 | runs of the two builds that do the same end with the same bytes everywhere, whatever faults each takes |
| Isolation.InstanceIsolation | src/UmManager.cc:464-549 | over a whole run the bytes of a space change only by its own stores |
| Isolation.SnapshotIsolation | src/UmPgTblMgr.cc:1093-1189 | over a whole run a snapshot does not change |
| Isolation.CheckpointThenDeploy | src/UmManager.cc:400-430 | an instance deployed at any time after a checkpoint starts with the bytes its source had at the checkpoint |
| Builds.DeepDeployment | src/UmPth.cc:47-53 | in the deep-copy build a deployed instance has a writable copy of its own of every page of the snapshot |
| Builds.DeepCheckpoint | src/UmPth.cc:80-82 | and a snapshot one of every written page |
| Builds.SharedDeployment | src/UmPth.cc:55-63 | deployed copy-on-write, it has every page of the snapshot on the snapshot's frame, read-only |
| Builds.SharedCheckpoint | src/UmPth.cc:83-87 | a copy-on-write snapshot has its own copy of the written pages that its source owns, and shares those it borrows |
| Builds.DeepRunsApart | src/UmPth.cc:47-53 | on every run of the deep-copy build no space borrows from another, and there is no copy-on-write fault |
| Builds.DeepWorldsApart | src/UmPth.cc:18-36 | so on a core's memory, where tearing any snapshot down at any time keeps the invariant |
| Deltas.CheckpointOwnsDelta | src/UmPgTblMgr.cc:1108-1135 | the pages a snapshot takes from the allocator are in bijection with the pages its source had written and owned, and have their bytes |
| Deltas.CloneTakesTables | src/UmPgTblMgr.cc:1146-1189 | a clone takes frames for its tables only |
| Deltas.CloneOfClone | src/UmPgTblMgr.cc:1146-1189 | a clone of a clone translates every page as the clone does, and takes frames for its tables only |
| Deltas.UnwrittenTakesTables | src/UmPgTblMgr.cc:1108-1135 | a snapshot takes no page if and only if its source owns none that it wrote |
| Deltas.QuietRun | src/UmManager.cc:464-549 | over any run of the core, an instance without stores and write faults comes to own no written page |
| Deltas.DeployedCheckpoint | src/UmPth.cc:38-93 | a deployment takes no page, and after any run in which the deployed instance only reads, neither does a checkpoint of it |
| CoreMemory.FramesKept | src/UmPgTblMgr.cc:42-67 | an operation that changes one page table keeps the partition of the frames |
| CoreMemory.FreePlusOwned | src/UmPgTblMgr.cc:42-67 | what is free and what the instance owns together stay the same under its operations |
| CoreSteps.FaultCanMap | src/UmManager.cc:499-536 | the frame GetBackingPage returns may be mapped: it is in use, and owned by no one else if it becomes writable |
| CoreSteps.LeafKnown | src/UmPgTblMgr.cc:42-67 | every frame that a live instance or snapshot maps, its own or borrowed, is in use, and one it may write is no ELF frame |
| CoreSteps.FaultDone | src/UmManager.cc:464-549 | the fault path keeps the whole invariant, is the fault of the address-space machine, conserves frames, and leaves the page mapped as the access needs it |
| CoreSteps.FaultLeaf | src/UmManager.cc:499-536 | the mapped leaf is on the backing frame, writable in a writable region, dirty after a write, executable as the region says, and open to programs |
| CoreSteps.FaultSlot | src/UmManager.cc:545-548 | cached translations stay coherent through a fault, given invlpg on copy-on-write |
| CoreSteps.KeptTranslation | src/UmManager.cc:545-548 | without the invlpg they stay so if and only if the page has no cached translation |
| CoreSteps.TranslatedIsWalked | src/UmPgTblMgr.cc:320-335 | the processor's translation, cached or from its walk with the permissions of all levels, is the software walk's, and is missing exactly when the access faults |
| CoreSteps.TranslationPermits | src/UmPgTblMgr.cc:934-957 | a translation permits the access it is made for, and a program's access at all |
| CoreSteps.CachesAfter | src/UmManager.cc:545-548 | a fill and a store cache the page's translation and keep the others, a flush keeps none, and neither fill nor flush changes anything else |
| CoreSteps.CopyDone | src/UmManager.cc:400-430 | a checkpoint or deployment keeps the invariant, is the copy of the address-space machine and conserves frames |
| CoreSteps.RemoveDone | src/UmPth.cc:18-36 | a teardown does so, too |
| CoreSteps.RemoveExact | src/UmPth.cc:18-36 | tearing a page table down keeps the whole invariant if and only if nobody borrows its pages |
| CoreSteps.StoreDone | src/UmPgTblMgr.h:77-91 | and a store with its dirty bit and cached translation |
| CoreSteps.BootDone | src/UmInstance.cc:25-27 | and a boot |
| CoreSteps.LoadDone | src/UmManager.cc:603-633 | loading an instance into the slot changes no byte and no frame |
| CoreSteps.UnloadDone | src/UmManager.cc:636-653 | nor does unloading one whose state vector knows its page table |
| CoreSteps.UnloadLoses | src/UmManager.cc:636-653 | unloading another loses its leaves, and exactly the frames of its table leak, some unless the slot entry is clear |
| CoreSteps.SwapKeepsLeaves | src/UmManager.cc:538-543 | out and in again keeps an instance's translations if and only if its state vector's root is not null |
| CoreSteps.SeenBytes | src/UmPgTblMgr.cc:320-335 | the frame that the walk finds for a page holds what the instance shows there |
| CoreSteps.FaultMeans | src/UmManager.cc:464-480 | what the hardware reports as a fault is a fault of the address-space machine |
| CoreSteps.DeployedRoot | src/UmPth.cc:38-72 | an instance deployed from a snapshot that maps a page has a page table |
| CoreSteps.PrivateNothing | src/UmPth.cc:18-36 | an instance's life that ends with its destruction leaves the free frames and all other bytes as they were |
| CoreMachine.StepMoves | src/UmManager.cc:400-653 | every operation of the manager and the processor, given by its guard and its result, keeps the invariant and is a step of the address-space machine, or unseen by it |
| CoreMachine.BackingIsBacked | src/UmInstance.cc:310-313 | the copy-on-write copy reads the mapped page although it reads through cached translations |
| CoreMachine.ReadSees | src/UmManager.cc:464-549 | a read through whatever translation returns the bytes that the running instance shows |
| CoreMachine.DeployedIsNeeded | src/UmPth.cc:18-72 | once a snapshot is deployed copy-on-write, tearing it down breaks the invariant if and only if it has a page of its own |
| CoreMachine.NewCore | src/UmManager.cc:64-75 | the invariant holds before the first instance |
| CoreRuns.InvAlways | src/UmManager.cc:400-653 | the invariant holds in every state that the operations reach |
| CoreRuns.CachesCoherent | src/UmManager.cc:545-653 | in every reachable state each cached translation agrees with the walk of the installed table, and an empty slot has none |
| CoreRuns.SeenAt | src/UmManager.cc:464-549 | what a run has seen are the pages that its reads returned, all of them and in their order |
| CoreRuns.WorldRunRefines | src/UmManager.cc:400-653 | every run of these operations ends with the bytes of the ideal machine on which the same program ran, returns the same bytes to its reads, and neither makes nor loses a frame |
| CoreRuns.NothingLeaks | src/UmManager.cc:636-653 | no frame leaks in a run if and only if the run swaps out no table that only the slot knows |
| CoreRuns.LeaksAreLosses | src/UmManager.cc:538-653 | what a run leaks are exactly the frames of the tables that it loses in this way |
| CoreRuns.WorldIsolation | src/UmManager.cc:400-653 | over every run of these operations the bytes of a space change only by its own stores |
| CoreRuns.WorldSnapshots | src/UmPgTblMgr.cc:1093-1189 | and those of a snapshot not at all |
| CoreRuns.WorldCheckpointThenDeploy | src/UmManager.cc:400-430 | an instance deployed after a checkpoint and any run of these operations starts with the bytes the running instance had at the checkpoint |
| CoreRuns.WorldsAgree | src/UmPth.cc:47-87 | cores of the two builds on which the same programs run, with whatever faults, caches and swaps each takes, return the same bytes to every read and end with the same bytes |
| CoreMachine.UnloadReboots | src/UmManager.cc:538-543 | to the ideal machine, unloading an instance whose table only the slot knows is booting it again |
| Manager.UmManager.SlotLoadInstance | src/UmManager.cc:603-633 | the instance's table is installed if it has one |
| Manager.UmManager.SlotUnloadInstance | src/UmManager.cc:636-653 | the slot is empty with nothing cached, and the instance keeps its bytes if its root is known |
| Manager.UmManager.ClearSlot | src/UmManager.cc:636-653 | its writes: the entry is cleared, the translations are flushed |
| Manager.UmManager.GetBackingPage | src/UmInstance.cc:264-329 | the ELF page, or a fresh frame with the region's bytes, or on copy-on-write with what the instance sees |
| Manager.UmManager.SeenFrame | src/UmInstance.cc:310-313 | reading through a cached translation or the walk reaches the mapped frame |
| Manager.UmManager.ProcessPageFault | src/UmManager.cc:464-549 | the whole fault path: as for CoreSteps.FaultDone |
| Manager.UmManager.Install | src/UmManager.cc:538-548 | a table built from scratch is installed, and a stale translation dropped |
| Manager.UmManager.Translate | src/UmPgTblMgr.cc:320-335 | the processor's translation is the walk's, cached or not; it fails exactly when the access faults |
| Manager.UmManager.HardwareStore | src/UmPgTblMgr.h:77-91 | the processor's writes in a store: the dirty bit, the bytes, the cached translation |
| Manager.UmManager.Access | src/UmManager.cc:464-549 | an access that faults is resolved by one fault, and no byte changes |
| Manager.UmManager.LoadBytes | src/UmManager.cc:464-549 | a load returns the bytes of the ideal machine, however the page is mapped, shared, cached or missing |
| Manager.UmManager.StoreBytes | src/UmManager.cc:464-549 | a store changes the bytes of that page of the running instance and no other byte |
| Manager.UmManager.Boot | src/UmInstance.cc:25-27 | a fresh instance without a page table, and nothing else changed: the boot of the ideal machine |
| Manager.UmManager.Deploy | src/UmInstance.cc:25-27 | an instance of a snapshot: the deployment of the ideal machine |
| Manager.UmManager.ProcessCheckpoint | src/UmManager.cc:400-430 | a snapshot of the running instance is added, the caches are flushed, and nothing else changed: the checkpoint of the ideal machine |
| Manager.UmManager.EndInstance | src/UmPth.cc:18-36 | the destruction of an instance frees what it owned |
| Manager.UmManager.DropSnapshot | src/UmPth.cc:18-36 | so for a snapshot that no one borrows from; slot, caches and other state vectors stay |
| Manager.UmManager.Flush | src/UmPgTblMgr.cc:780-789 | flushing the translation caches changes nothing but them |
| Manager.UmManager.RunFresh | src/UmManager.cc:538-543 | booting an instance, loading it and accessing a page leaves its table known to the slot only |
| Manager.UmManager.LoseFresh | src/UmManager.cc:538-543 | what such an instance stored is lost when it is swapped out and in: the page shows its initial bytes |
| Manager.UmManager.RunLoaded | src/UmManager.cc:603-653 | loading, any accesses and unloading are private to the instance |
| Manager.UmManager.RunDeployed | src/UmPth.cc:18-72 | deploying, any accesses, unloading and destroying leave the allocator's free frames, every state vector and every byte as they were |
| Counters.CountPagesHelper | src/UmPgTblMgr.cc:446-462 | the direct recursion adds, level by level, the leaves that its test accepts |
| Counters.CountValidPtesHelper | src/UmPgTblMgr.cc:506-517 | the direct recursion over entries |
| Counters.TraversePageTable | src/UmPgTblMgr.cc:217-242 | the traversal with counting closures adds what its predicate lets it reach |
| Counters.ValidPagesAgree | src/UmPgTblMgr.cc:70-77 | closure and recursion count the same valid pages on every table |
| Counters.ValidPtesAgree | src/UmPgTblMgr.cc:104-115 | and the same entries when no leaf lies above level 1 |
| Counters.PtesCounted | src/UmPgTblMgr.cc:506-517 | at the level of the table the recursion counts the existing entries |
| Counters.LeavesCounted | src/UmPgTblMgr.cc:217-242 | a leaf, at level 1 or with MAPS above it, is counted at its level and not looked into |
| Counters.AccessedPagesAgree | src/UmPgTblMgr.cc:186-193 | the accessed-only traversal counts no more, and the same if and only if the way to every counted leaf is accessed |
| Counters.AccessedCountersAgree | src/UmPgTblMgr.cc:117-124 | countAccessedPagesLamb, which counts every leaf it reaches, never counts more than countAccessedPages, and the same if and only if every entry above an accessed leaf is accessed |
| Counters.DirtyCountersAgree | src/UmPgTblMgr.cc:126-136 | countDirtyPagesLamb never counts more than countDirtyPages, and the same if and only if dirty leaves and the entries above them are accessed |
| Counters.AllAccessedSuffices | src/UmPgTblMgr.cc:126-136 | as it is when every existing entry is accessed |
| Counters.DirectCountsPages | src/UmPgTblMgr.cc:532-544 | the recursion over tables counts the pages of the address range whose translation passes the test |
| Counters.CountOwnedPages | src/UmPth.cc:94-100 | the number of pages of the slot that have a writable leaf |
| Counters.OwnedFramesCounted | src/UmPth.cc:94-100 | this is the number of frames of data that the page table owns and that its destruction frees |
| Counters.SnapshotOwnedPages | src/UmPgTblMgr.cc:1108-1135 | a snapshot owns as many pages as its source had dirty and writable |
| SlotSchedule.StepKeeps | src/UmManager.cc:161-398 | every event keeps the scheduler's invariant: queue, inactive map, promises, status, contexts and timers agree |
| SlotSchedule.RunKeeps | src/UmManager.cc:217-398 | so on every run |
| SlotSchedule.KickKeeps | src/UmInstance.cc:143-163 | a blocked instance gets one activation posted and loses its timer |
| SlotSchedule.ResumeKeeps | src/UmInstance.cc:165-205 | a delivered activation ends in the slot or blocks again, with no timer |
| SlotSchedule.FireKeeps | src/UmInstance.cc:243-258 | a timer that fires, early, late or while its instance is parked, leaves no timer and at most one activation |
| SlotSchedule.SlotKept | src/UmManager.cc:302-314 | an instance that executes, waits for its start or is active stays in the slot until it halts |
| SlotSchedule.EntersOwnSlot | src/UmInstance.cc:181-204 | an instance returns from blocking only in the slot, which is idle, and once per saved context |
| SlotSchedule.EntryGuard | src/UmManager.cc:217-226 | for a blocked or resumable instance entry is granted if and only if it is in the slot and the slot is not halting |
| SlotSchedule.YieldOrder | src/UmManager.cc:330-366 | Yield loads the earliest active instance, keeps the order of the others and puts the old one last |
| SlotSchedule.NoYield | src/UmManager.cc:302-345 | otherwise an inactive idle instance leaves the slot if nobody waits, and in every other case nothing changes |
| SlotSchedule.PositionDrops | src/UmManager.cc:330-366 | no calm event moves a waiting active instance back, and a Yield that loads another moves it forward |
| SlotSchedule.BoundedBypass | src/UmManager.cc:330-366 | from position k it sees at most k Yields load others |
| SlotSchedule.WhoOvertakes | src/UmManager.cc:655-671 | without moves to the front, the slot goes to another instance exactly by a Yield that loads one, or by a submission to a slot that is empty or can be given up |
| SlotSchedule.OvertakingBound | src/UmManager.cc:302-398 | so from position k it is overtaken at most k times, and once by each such submission |
| SlotSchedule.Starved | src/UmManager.cc:655-697 | and these have no bound: any number of instances may be submitted, started, block and be halted while it waits, and the Yields posted by the halts do nothing |
| SlotSchedule.FireInTime | src/UmInstance.cc:243-258 | a timer wakes an instance only in the slot, at or after the time it waits for |
| SlotSchedule.SleepCycle | src/UmInstance.cc:116-205 | sleeping, the timer and the resumption bring an active instance back to exactly the state it left, without leaving the slot |
| SlotSchedule.SignalLoads | src/UmManager.cc:228-241 | a signalled active instance enters a slot that can be given up, ahead of all others, and is about to be resumed, or halted if that was asked for |
| SlotSchedule.HaltIsFinal | src/UmManager.cc:384-392 | on every run an instance that does not execute and is halting, or was started and is marked to be halted on entry, never executes again |
| SlotSchedule.SignalHaltDooms | src/UmManager.cc:161-174 | a signalled halt has this effect if and only if the instance was started and does not execute |
| SlotSchedule.PromisedStarts | src/UmManager.cc:372-392 | one that waits with a promise enters and starts in spite of it, and keeps the mark |
| SlotSchedule.StepAccounts | src/UmManager.cc:575-601 | an event loses and duplicates no instance, and completes only an activation not completed before, when its instance enters the slot |
| SlotSchedule.RunAccounts | src/UmManager.cc:575-696 | so on every run: each submitted instance is managed or was returned, and its activation promised or completed |
| SlotSchedule.CompletedOnce | src/UmManager.cc:368-379 | on every run an activation is completed by one event at most, and by one exactly if it was not completed before |
| SlotSchedule.SubmittedOnce | src/UmManager.cc:575-671 | from the idle core, every submitted activation was completed exactly once or is still promised |
| SlotEffects.KickWakes | src/UmInstance.cc:143-163 | a kick unblocks a blocked instance, clears its timer and its time to wait, and posts one activation; it leaves others alone |
| SlotEffects.SignalWakes | src/UmManager.cc:228-234 | a signal to the instance in the slot does this, and keeps the slot |
| SlotEffects.SignalMoves | src/UmManager.cc:228-241 | a signal to a queued instance moves it to the front, and does nothing else if the slot cannot be given up |
| SlotEffects.SignalEnters | src/UmManager.cc:228-241 | if it can and the instance is active, it enters, and the others keep their places |
| SlotEffects.SignalHaltEnters | src/UmManager.cc:161-174 | so does one that is signalled to halt, whose halt begins unless this is its first entry |
| SlotEffects.SignalHaltHere | src/UmManager.cc:161-165 | for the instance in the slot the signal is the beginning of a halt |
| SlotEffects.MovedKeepsOrder | src/UmManager.cc:288-298 | moving to the front keeps the relative order of any two others, loses and adds nobody, and does nothing for one that is not queued |
| SlotEffects.ResumeEffect | src/UmInstance.cc:165-205 | a delivered activation ends in execution, exactly in a slot that is not halting, or in sleep |
| SlotEffects.FireEffect | src/UmInstance.cc:243-258 | a due timer wakes its instance up exactly in a slot that is not halting; an early one only is off |
| SlotEffects.StartEffect | src/UmManager.cc:673-680 | the loaded instance executes, nothing else changes |
| SlotEffects.BlockEffect | src/UmInstance.cc:116-141 | the executing instance sleeps in the slot, with a timer for its time exactly when it is active |
| SlotEffects.BeginHaltEffect | src/UmManager.cc:768-785 | the slot is halting and its instance active, nothing else changes |
| SlotEffects.HaltEffect | src/UmManager.cc:787-797 | the instance is gone, the slot empty, nothing else changes |
| SlotEffects.CheckpointEffect | src/UmManager.cc:400-430 | a checkpoint changes the status, and its end changes it back |
| SlotEffects.SetActiveEffect | src/UmInstance.cc:207-214 | one flag of one instance is set |
| SlotEffects.SetInactiveEffect | src/UmInstance.cc:216-223 | or cleared |
| SlotEffects.SubmitEffect | src/UmManager.cc:655-671 | a new instance is loaded exactly when the slot is empty or can be given up, by the old one going to the end of the queue; and otherwise waits last, with a promise |
| SlotEffects.YieldWhen | src/UmManager.cc:302-345 | Yield gives the slot to another exactly when it can be given up and an active instance waits, empties it exactly when it can and nobody waits, and else does nothing |
| SlotEffects.YieldEmpties | src/UmManager.cc:318-328 | the instance then waits alone, and nothing else changes |
| SlotEffects.YieldEffect | src/UmManager.cc:330-397 | the first active instance enters: loaded with its promise fulfilled, or halting with its mark removed, or woken up |
| SlotEffects.ReceptiveOutside | src/UmManager.cc:655-671 | new instances, posted activations, set timers and flags are admitted in every state |
| SlotEffects.ReceptiveSignals | src/UmManager.cc:161-241 | so are yields and signals to any instance |
| SlotEffects.ReceptiveSlot | src/UmManager.cc:673-797 | and starts, blocks, checkpoints and halts exactly in the statuses that the code demands |
| SlotEffects.Transitions | src/UmManager.cc:113-151 | each status may be entered from exactly the listed ones |
| Scheduler.UmManager.SetStatus | src/UmManager.cc:113-151 | the status changes as the table of transitions allows; every caller meets it |
| Scheduler.UmManager.GetInstance | src/UmManager.cc:203-215 | the instance of that id, in the slot or inactive, if there is one |
| Scheduler.UmManager.RequestSlotEntry | src/UmManager.cc:217-226 | entry is granted to the instance in the slot unless it is halting, finished or a snapshot is taken |
| Scheduler.UmManager.SlotQueueRemove | src/UmManager.cc:256-264 | the first occurrence leaves the queue, the order of the rest is kept |
| Scheduler.UmManager.SlotQueueMoveToFront | src/UmManager.cc:288-298 | the instance is first, the order of the rest is kept |
| Scheduler.UmManager.SlotLoadInstance | src/UmManager.cc:603-633 | the slot holds the instance, loaded |
| Scheduler.UmManager.SlotUnloadInstance | src/UmManager.cc:636-653 | the slot is empty, and the instance is returned |
| Scheduler.UmManager.ParkActive | src/UmManager.cc:319-327 | the instance of the slot is inactive, last in the queue, and the slot empty |
| Scheduler.UmManager.QueueInstanceActivation | src/UmManager.cc:575-585 | the instance is last in the queue, inactive, and its activation promised |
| Scheduler.UmManager.Load | src/UmManager.cc:655-671 | exactly the specified submission; the activation is complete at once unless it is promised |
| Scheduler.UmManager.Start | src/UmManager.cc:673-680 | the loaded instance executes |
| Scheduler.UmManager.Halt | src/UmManager.cc:768-797 | while other events wait the slot is halting and its instance active; else the instance, executing or blocked, is returned, the slot is empty, and a Yield is posted if instances wait |
| Scheduler.UmManager.SignalHalt | src/UmManager.cc:161-174 | exactly the specified signal: a halt of the instance in the slot, or a move to the front, a mark and a yield |
| Scheduler.UmManager.BeginCheckpoint | src/UmManager.cc:400-408 | the status is snapshot, in which only the end of the checkpoint ends it |
| Scheduler.UmManager.EndCheckpoint | src/UmManager.cc:428-430 | the status is active again |
| Scheduler.UmManager.Block | src/UmManager.cc:758-766 | exactly the specified wait, with a timer for an active instance |
| Scheduler.UmManager.Resume | src/UmInstance.cc:181-204 | exactly the specified delivery of an activation |
| Scheduler.UmManager.KickInstance | src/UmInstance.cc:143-163 | exactly the specified kick |
| Scheduler.UmManager.FireTimer | src/UmInstance.cc:243-258 | exactly the specified timer event |
| Scheduler.UmManager.SetActive | src/UmInstance.cc:207-214 | the instance may not be swapped out, and may be swapped in |
| Scheduler.UmManager.SetInactive | src/UmInstance.cc:216-223 | the reverse |
| Scheduler.UmManager.FindActive | src/UmManager.cc:330-341 | the position of the first queued instance that is active |
| Scheduler.UmManager.Swap | src/UmManager.cc:587-601 | the old instance goes to the end of the queue, the new one enters |
| Scheduler.UmManager.Enter | src/UmManager.cc:347-366 | a queued instance leaves the queue and the map and enters the slot |
| Scheduler.UmManager.Wake | src/UmManager.cc:369-397 | the entered instance's promise is fulfilled, or its halt begins if it is marked, or it is kicked |
| Scheduler.UmManager.Yield | src/UmManager.cc:302-398 | exactly the specified yield, and the promise it fulfills |
| Scheduler.UmManager.SignalResume | src/UmManager.cc:228-241 | exactly the specified signal: a kick, or a move to the front and a yield |
| Scheduler.UmInstance.Sleep | src/UmInstance.cc:116-141 | blocked, with a timer if active; nothing for no time; the abort on a set timer is excluded |
| Scheduler.UmInstance.Kick | src/UmInstance.cc:143-151 | a blocked instance is unblocked, another is left alone |
| Scheduler.UmInstance.BlockExecution | src/UmInstance.cc:165-175 | blocked, with a saved context |
| Scheduler.UmInstance.UnblockExecution | src/UmInstance.cc:153-163 | not blocked, no timer, and one activation posted |
| Scheduler.UmInstance.ResumeExecution | src/UmInstance.cc:179-205 | the context is gone, or a new one is saved when entry is refused |
| Scheduler.UmInstance.EnableTimer | src/UmInstance.cc:225-233 | a timer is set unless one is, or the time has passed |
| Scheduler.UmInstance.DisableTimer | src/UmInstance.cc:235-241 | no timer, and no time to wait for |
| Scheduler.UmInstance.Fire | src/UmInstance.cc:243-258 | the timer is off; when it is due and entry is granted, a blocked instance is unblocked |
| PortMap.SetupKeeps | src/UmProxy.cc:43-73 | setting up a mapping keeps free and mapped nonzero ports a partition of the range, adds at most one pair, and the returned port is the triple's own |
| PortMap.ZeroWhenExhausted | src/UmProxy.cc:63-73 | port 0 is returned if and only if no port is left and the triple has none |
| PortMap.ZeroIsShared | src/UmProxy.cc:43-73 | after exhaustion two triples both get port 0, and a lookup finds the first |
| PortMap.PortsCounted | src/UmProxy.h:53-66 | in every state the free ports and the ports given out are 31744 together |
| PortMap.PortsUsed | src/UmProxy.cc:43-73 | n different triples use up n ports, and each has a nonzero one |
| PortMap.FirstRefused | src/UmProxy.cc:63-73 | a new triple gets port 0 if and only if 31744 different ones came before it |
| PortMap.StepKeeps | src/UmProxy.cc:116-131 | every step of any core keeps every cache's nonzero part within the growing master map |
| PortMap.StepIsLocal | src/UmProxy.cc:116-131 | a step changes its own core only: the active instance by its activation, the cache by what is learned, and the root when it is asked for a port |
| PortMap.OutAnswered | src/UmProxy.cc:628-642 | whatever the cores do meanwhile, a question for an external port is answered for the instance that was active, this core and the port asked for |
| PortMap.InAnswered | src/UmProxy.cc:116-131 | and a lookup of an external port for that port |
| PortMap.CacheLearns | src/UmProxy.cc:116-131 | a nonzero answer is found in the cache from then on, in both directions |
| PortMap.RunRefines | src/UmProxy.cc:620-642 | on any interleaving all answers agree with the one map at the end of the run |
| PortMap.PortsDistinct | src/UmProxy.cc:628-642 | two nonzero external ports given at any times on any cores are equal if and only if the triples are, and are in the range |
| PortMap.InInvertsOut | src/UmProxy.cc:620-642 | looking up a nonzero port given out finds the triple it was given to, whichever core looks |
| PortMap.LookupHolds | src/UmProxy.cc:116-131 | at any later time the lookup's assertion holds on every core, if and only if the triple is not the null mapping |
| PortMap.InitialOk | src/UmProxy.h:62-66 | the invariant holds at the start, with all ports in [256, 32000) free |
| Proxy.ProxyRoot.AllocatePort | src/UmProxy.cc:63-73 | the least free port, which is no longer free, or 0 when there is none |
| Proxy.ProxyRoot.SetupExternalPortMapping | src/UmProxy.cc:43-56 | exactly the specified mapping, which is known from then on |
| Proxy.ProxyRoot.ExternalPortLookup | src/UmProxy.cc:30-41 | the triple of the port, or the null mapping |
| Proxy.UmProxy.SwizzlePortOut | src/UmProxy.cc:628-642 | the port of the active instance's triple, from the cache or the root, by the steps of `PortMap` among any other cores; 0 only when no port is left |
| Proxy.UmProxy.ExternalPortmapLookup | src/UmProxy.cc:116-131 | the triple of the port, from the cache or the root, by these steps |
| Proxy.UmProxy.SwizzlePortIn | src/UmProxy.cc:620-626 | the internal port of the triple in the cache or else at the root, which for a nonzero port is the one it was given to |
| Proxy.UmProxy.ProcessIncoming | src/UmProxy.cc:372-432 | an external TCP packet goes to the core of the port's triple, and there to that instance on its own port, which a payload activates, or is reset when the instance is gone |
| Proxy.UmProxy.RegisterInternalPort | src/UmProxy.cc:85-100 | the first registration of a port stands |
| Proxy.UmProxy.InternalPortLookup | src/UmProxy.cc:102-114 | the registered instance, or none |
| Proxy.UmProxy.RemoveInstanceState | src/UmProxy.cc:596-617 | the instance's registered ports and its being active are gone, other registrations stay |
| Proxy.UmProxy.SetActiveInstance | src/UmProxy.cc:590-594 | the instance is the one that outgoing ports are mapped for: the step Activate |

## Left out

- Manager.UmManager.StoreBytes: a store replaces the bytes of a whole page; smaller stores are sequences of such pages.
- Manager.UmManager.GetBackingPage: a region list is a function from pages to ELF frames or initial bytes; the ELF loader, the region lookup and the surprise loops on unexpected region names are not modelled, and write faults on read-only regions are excluded.
- Manager.UmManager.ProcessPageFault: the user and execute-disable bits are set as the code does, but nothing is claimed about them across snapshots, and read or execute protection faults do not occur.
- Manager.UmManager.DropSnapshot: the code has no reference counts; that no one borrows the snapshot's pages is the caller's duty.
- Manager.UmManager.SlotLoadInstance: only the slot's entry of the top-level table is modelled, not the table.
- Manager.UmManager.Deploy: state vectors and their page-table roots are values in a map of the manager, not objects.
- PhysicalMemory.PhysMem.SetLeaf: pages are mapped at level 1 only, since setPte never sets MAPS, and the descent starts at level 3 or below; one method serves mapIntoPgTblHelper and findAndSetPTECOW, which differ in the entry they set.
- PhysicalMemory.PhysMem.MapIntoPgTbl: root levels up to 3 and 4K pages, as for SetLeaf; no caller uses level 4.
- PhysicalMemory.PhysMem.FindAndSetPteCow: as for MapIntoPgTbl.
- PhysicalMemory.PhysMem.WalkHelper: the three walks are one method with a mode, because they differ only in what they do with a dirty leaf.
- Counters.CountValidPtesHelper: tables without leaves above level 1; below such a leaf the code reads the bytes of the page as entries.
- Counters.ValidPtesAgree: one direction only, since the bytes of a large page read as a table are not modelled.
- Counters.TraversePageTable: the counting closures are values that say what they count; the other closures are FreePageTable's.
- Scheduler.UmManager.Halt: that other events wait is a parameter, and the halt posted again is another call; a call before Start, when there is no frame to return to, or in the continuation of a checkpoint, whose end would abort, is excluded; the exit of the gateway and the rest of Start are part of the call.
- Scheduler.UmManager.Wake: a halt on entry that finds no other event completes in a Halt of its own.
- Scheduler.UmManager.SlotUnloadInstance: the scheduler's classes do not hold the page tables, so the assertion that the slot's entry exists is the precondition of Manager.UmManager.SlotUnloadInstance.
- Scheduler.UmManager.SlotLoadInstance: the page-table root is installed by Manager.UmManager.SlotLoadInstance, the proxy is told by Proxy.UmProxy.SetActiveInstance, and the debug registers are not modelled.
- Scheduler.UmManager.BeginCheckpoint: the copying between begin and end is Manager.UmManager.ProcessCheckpoint.
- Scheduler.UmManager.Yield: the slot or the queue must hold an instance, as the code silently demands.
- SlotSchedule.BoundedBypass: counts Yields that load others, not time; wake-up liveness depends on the event loop and on timers, which do not re-arm after firing early.
- PortMap.InInvertsOut: for nonzero ports.
- Proxy.UmProxy.ProcessIncoming: ports, cores and instance ids only; packet buffers, checksums, ARP and the loopback device are not modelled.
- injectOffset, getPhysAddrRec, getPhysAddrRecHelper and getPhysAddrLamb: they overwrite the address they found.
- SignalYield: it posts a Yield, which may happen at any time here anyway; slot_load_instance's notice to the proxy is the method Proxy.UmProxy.SetActiveInstance.
- SetCheckpoint: that a checkpoint address was set and reached is not modelled; a checkpoint may be taken whenever an instance runs.
- UmManager::Run: loads and starts in one call, and aborts in every other case.
- Other cores: a snapshot taken on one core may be deployed on another, which borrows its pages; one core's memory is modelled, with snapshots of its own, so that sharing them between cores is left out. Of what cores share only the port map is modelled.
- Performance counters, boot arguments, hackSetPgUsr, printers, debug registers, syscall entry and stack switching.
