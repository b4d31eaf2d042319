/** The operations of a core's manager and of its processor as one step relation on the core's memory. A step is what
    the code and the hardware do, from its guard and its result; that it keeps the invariant is proved. */
module CoreMachine {
  import opened Layout
  import opened Wrappers
  import opened PageTree
  import opened AddressSpaces
  import opened CoreMemory
  import opened CoreSteps

  /** The outcome of mapping a page: the frame for it and the memory and free frames with it, and those after the
      mapping, with the table's root. */
  datatype Mapping = Mapping(phys: Pfn, m1: Mem, free1: set<Pfn>, m: Mem, free: set<Pfn>, root: Pfn)

  /** The outcome of copying a page table. */
  datatype Built = Built(m: Mem, free: set<Pfn>, root: Pfn)

  datatype Op =
    | NewInstance(id: nat, image: Image)
    | Deployment(snap: nat, id: nat, built: Built)
    | Checkpointing(snap: nat, built: Built)
    | SlotLoad(id: nat)
    | SlotUnload
    | PageFault(v: VPage, write: bool, xd: bool, mapping: Mapping)
    | ReadPage(v: VPage, page: Page)
    | StorePage(v: VPage, page: Page)
    | CacheFill(v: VPage)
    | CacheEvict(v: VPage)
    | CacheFlush
    | DestroyInstance(id: nat)
    | DestroySnapshot(snap: nat)

  function FrameAt(m: Mem, f: Pfn): Frame {
    if f in m then m[f] else Data(ZeroPage())
  }

  /** GetBackingPage, reading through the processor's translations. */
  predicate BackingPage(w: World, b: Backing, v: VPage, present: bool, write: bool, mp: Mapping) {
    match b
    case Elf(f) => mp.phys == f && mp.m1 == w.m && mp.free1 == w.free
    case Fill(page) =>
      var seen := Translated(w, v, false);
      && mp.phys in w.free && mp.free1 == w.free - {mp.phys}
      && mp.m1 == w.m[mp.phys := if present && write && seen.Some? then FrameAt(w.m, seen.value.pfn) else Data(page)]
  }

  function InstalledRoot(w: World): Pfn {
    if w.slot.sel then w.slot.pfn else NULL
  }

  predicate Present(w: World, v: VPage) {
    w.slot.sel && Xlate(w.m, w.slot.pfn, PDPT_LEVEL, v).Some?
  }

  /** What the operations do. */
  ghost predicate WorldStep(build: Build, w: World, op: Op, w': World) {
    match op
    case NewInstance(id, image) =>
      && Inst(id) !in w.svs && (forall v :: image(v).Elf? ==> image(v).frame in w.elf)
      && w' == AfterBoot(w, id, image)
    case Deployment(snap, id, built) =>
      && Snap(snap) in w.svs && Inst(id) !in w.svs
      && TableCopied(build.DeployMode(), w.m, w.free, w.svs[Snap(snap)].root, built.m, built.free, built.root)
      && w' == AfterCopy(w, Snap(snap), Inst(id), built.m, built.free, built.root)
    case Checkpointing(snap, built) =>
      && w.active.Some? && Inst(w.active.value) in w.svs && w.slot.sel && Snap(snap) !in w.svs
      && MapsDirty(w.m, w.slot.pfn)
      && TableCopied(build.SnapshotMode(), w.m, w.free, w.slot.pfn, built.m, built.free, built.root)
      && w' == AfterCopy(AfterFlush(w), Inst(w.active.value), Snap(snap), built.m, built.free, built.root)
    case SlotLoad(id) =>
      w.active.None? && Inst(id) in w.svs && w' == AfterLoad(w, id)
    case SlotUnload =>
      && w.active.Some? && Inst(w.active.value) in w.svs && w.slot.sel
      && w' == AfterUnload(w, w.OwnedOf(Inst(w.active.value)))
    case PageFault(v, write, xd, mp) =>
      && w.active.Some? && Inst(w.active.value) in w.svs
      && var image := w.svs[Inst(w.active.value)].image;
         && Translated(w, v, write).None? && (write ==> image(v).Fill?)
         && BackingPage(w, image(v), v, Present(w, v), write, mp)
         && LeafSet(mp.m1, mp.free1, InstalledRoot(w), PDPT_LEVEL, v, FaultPte(image, v, write, mp.phys, xd),
                    mp.m, mp.free, mp.root)
         && w' == AfterFault(w, v, Present(w, v), write, mp.m, mp.free, mp.root)
    case ReadPage(v, page) =>
      && w.active.Some? && Translated(w, v, false).Some?
      && page == PageOf(PagesOf(w.m), Translated(w, v, false).value.pfn) && w' == w
    case StorePage(v, page) =>
      && w.active.Some? && Translated(w, v, true).Some?
      && w' == AfterStore(w, v, Translated(w, v, true).value, page)
    case CacheFill(v) =>
      w.active.Some? && HwWalk(w, v).Some? && w' == AfterFill(w, v, HwWalk(w, v).value)
    case CacheEvict(v) =>
      w' == w.(tlb := w.tlb - {v})
    case CacheFlush =>
      w' == AfterFlush(w)
    case DestroyInstance(id) =>
      Inst(id) in w.svs && w.active != Some(id) && w' == AfterRemove(w, Inst(id), w.OwnedOf(Inst(id)))
    case DestroySnapshot(snap) =>
      && Snap(snap) in w.svs && !Borrowed(Spaces(w), Snap(snap))
      && w' == AfterRemove(w, Snap(snap), w.OwnedOf(Snap(snap)))
  }

  /** A core before its first instance: the frames in use are those of the loaded ELF images. */
  lemma NewCore(m: Mem, free: set<Pfn>)
    requires m.Keys !! free && NULL !in m && NULL !in free && forall f :: f in m ==> m[f].Data?
    ensures WorldInv(World(m, free, m.Keys, {}, map[], None, ZERO_PTE, map[]))
  {
    assert World(m, free, m.Keys, {}, map[], None, ZERO_PTE, map[]).AllOwned() == {};
  }

  // ---------- What the steps mean ----------

  /** The events of the address-space machine. Unloading an instance whose page table only the slot knows loses its
      leaves: it is booted again. */
  ghost function EventsOf(w: World, op: Op): seq<Event> {
    match op
    case NewInstance(id, image) => [Event.Boot(id, image)]
    case Deployment(snap, id, _) => [Event.Deploy(snap, id)]
    case Checkpointing(snap, _) => if w.active.Some? then [Event.Checkpoint(w.active.value, snap)] else []
    case PageFault(v, write, _, _) => if w.active.Some? then [Event.Fault(w.active.value, v, write)] else []
    case StorePage(v, page) => if w.active.Some? then [Event.Write(w.active.value, v, page)] else []
    case DestroyInstance(id) => [Event.EndInstance(id)]
    case DestroySnapshot(snap) => [Event.DropSnapshot(snap)]
    case SlotUnload =>
      if w.active.Some? && Inst(w.active.value) in w.svs && w.svs[Inst(w.active.value)].root == NULL
      then [Event.Boot(w.active.value, w.svs[Inst(w.active.value)].image)] else []
    case _ => []
  }

  /** From w to w' an instance lost its leaves, and their frames leaked. */
  ghost predicate Reboots(w: World, e: Event, w': World) {
    && e.Boot? && Inst(e.id) in w.svs && e.image == w.svs[Inst(e.id)].image && WorldInv(w')
    && Spaces(w') == Spaces(w).(spaces := Spaces(w).spaces[Inst(e.id) := Space(imap[], e.image)])
    && w'.m == w.m && w'.free == w.free && w'.elf == w.elf && w.leaked <= w'.leaked
  }

  lemma RebootRefines(w: World, e: Event, w': World)
    requires WorldInv(w) && Reboots(w, e, w')
    ensures Abstract(Spaces(w')) == IdealStep(Abstract(Spaces(w)), e)
  {
    assert SpaceInv(Spaces(w).pages, w.elf, Inst(e.id), Spaces(w).spaces[Inst(e.id)]);
    assert forall v :: Spaces(w).spaces[Inst(e.id)].image(v) == e.image(v);
    EmptySpace(Spaces(w), Inst(e.id), e.image);
  }

  /** What a step with the events es means: the invariant holds, and nothing, the event, or a loss happened to the
      address spaces. */
  ghost predicate Moves(build: Build, w: World, es: seq<Event>, w': World) {
    if es == [] then WorldInv(w') && Spaces(w') == Spaces(w) && exists me :: Conserves(w, me, w')
    else |es| == 1 && (Reboots(w, es[0], w') || exists me :: Does(build, w, me, es[0], w'))
  }

  lemma DoesMoves(build: Build, w: World, me: Ref, e: Event, w': World)
    requires Does(build, w, me, e, w')
    ensures Moves(build, w, [e], w')
  {
  }

  lemma SameMoves(build: Build, w: World, w': World)
    requires WorldInv(w') && Spaces(w') == Spaces(w) && forall me :: Conserves(w, me, w')
    ensures Moves(build, w, [], w')
  {
    assert Conserves(w, Inst(0), w');
  }

  /** The page that the fault handler copies is the one the table maps, whatever is cached. */
  lemma BackingIsBacked(w: World, id: nat, v: VPage, write: bool, mp: Mapping)
    requires CanFault(w, id, v, Present(w, v), write)
    requires BackingPage(w, w.svs[Inst(id)].image(v), v, Present(w, v), write, mp)
    ensures Backed(w, id, v, Present(w, v), write, mp.phys, mp.m1, mp.free1)
  {
    FaultedFrames(w, id, v, Present(w, v), write);
    TranslatedIsWalked(w, v, false);
  }

  lemma BackedIsBacking(w: World, id: nat, v: VPage, write: bool, mp: Mapping)
    requires CanFault(w, id, v, Present(w, v), write)
    requires Backed(w, id, v, Present(w, v), write, mp.phys, mp.m1, mp.free1)
    ensures BackingPage(w, w.svs[Inst(id)].image(v), v, Present(w, v), write, mp)
  {
    FaultedFrames(w, id, v, Present(w, v), write);
    TranslatedIsWalked(w, v, false);
  }

  /** A page that faults has no translation for the access. */
  lemma FaultNotTranslated(w: World, v: VPage, write: bool)
    requires w.active.Some? && CanFault(w, w.active.value, v, Present(w, v), write)
    ensures Translated(w, v, write).None? && (write ==> w.svs[Inst(w.active.value)].image(v).Fill?)
    ensures w.Root(Inst(w.active.value)) == InstalledRoot(w)
  {
    LeafKnown(w, Inst(w.active.value), v);
    TranslatedIsWalked(w, v, write);
  }

  lemma FaultStep(build: Build, w: World, v: VPage, write: bool, xd: bool, mp: Mapping, w': World)
    requires WorldInv(w) && WorldStep(build, w, PageFault(v, write, xd, mp), w')
    ensures Moves(build, w, EventsOf(w, PageFault(v, write, xd, mp)), w') && Resolved(w', v, write)
  {
    var id := w.active.value;
    TranslatedIsWalked(w, v, write);
    FaultMeans(w, id, v, write);
    BackingIsBacked(w, id, v, write, mp);
    FaultDone(build, w, id, v, Present(w, v), write, xd, mp.phys, mp.m1, mp.free1, mp.m, mp.free, mp.root);
    DoesMoves(build, w, Inst(id), Event.Fault(id, v, write), w');
  }

  lemma StoreStep(build: Build, w: World, v: VPage, page: Page, w': World)
    requires WorldInv(w) && WorldStep(build, w, StorePage(v, page), w')
    ensures Moves(build, w, EventsOf(w, StorePage(v, page)), w')
  {
    TranslatedIsWalked(w, v, true);
    var e := Xlate(w.m, w.slot.pfn, PDPT_LEVEL, v).value;
    StoreDone(build, w, w.active.value, v, e, page);
    assert w' == AfterStore(w, v, e, page);
    DoesMoves(build, w, Inst(w.active.value), Event.Write(w.active.value, v, page), w');
  }

  lemma CheckpointStep(build: Build, w: World, snap: nat, built: Built, w': World)
    requires WorldInv(w) && WorldStep(build, w, Checkpointing(snap, built), w')
    ensures Moves(build, w, EventsOf(w, Checkpointing(snap, built)), w')
  {
    var id := w.active.value;
    var w1 := AfterFlush(w);
    FlushDone(w);
    CopyDone(build, w1, Inst(id), Snap(snap), built.m, built.free, built.root, Event.Checkpoint(id, snap));
    ConservesSelf(w', Snap(snap));
    DoesAround(build, w, w1, Snap(snap), Event.Checkpoint(id, snap), w', w');
    DoesMoves(build, w, Snap(snap), Event.Checkpoint(id, snap), w');
  }

  lemma DeployStep(build: Build, w: World, snap: nat, id: nat, built: Built, w': World)
    requires WorldInv(w) && WorldStep(build, w, Deployment(snap, id, built), w')
    ensures Moves(build, w, EventsOf(w, Deployment(snap, id, built)), w')
  {
    CopyDone(build, w, Snap(snap), Inst(id), built.m, built.free, built.root, Event.Deploy(snap, id));
    DoesMoves(build, w, Inst(id), Event.Deploy(snap, id), w');
  }

  lemma UnloadStep(build: Build, w: World, w': World)
    requires WorldInv(w) && WorldStep(build, w, SlotUnload, w')
    ensures Moves(build, w, EventsOf(w, SlotUnload), w')
  {
    if w.svs[Inst(w.active.value)].root == NULL {
      UnloadReboots(w);
    } else {
      UnloadDone(w);
      SameMoves(build, w, w');
    }
  }

  lemma UnloadReboots(w: World)
    requires WorldInv(w) && w.active.Some? && w.svs[Inst(w.active.value)].root == NULL
    ensures var me := Inst(w.active.value);
            Reboots(w, Event.Boot(me.id, w.svs[me].image), AfterUnload(w, w.OwnedOf(me)))
  {
    UnloadLoses(w);
  }

  lemma EvictDone(w: World, v: VPage)
    requires WorldInv(w)
    ensures var w' := w.(tlb := w.tlb - {v});
            WorldInv(w') && Spaces(w') == Spaces(w) && forall me :: Conserves(w, me, w')
  {
    EvictSlot(w, v);
    SameRoots(w, w.(tlb := w.tlb - {v}));
  }

  lemma EvictSlot(w: World, v: VPage)
    requires SlotOk(w)
    ensures SlotOk(w.(tlb := w.tlb - {v}))
  {
    assert w.tlb == map[] ==> w.tlb - {v} == map[];
  }

  /** Every step of the core keeps the invariant, and is a step of the address-space machine or unseen by it. */
  lemma StepMoves(build: Build, w: World, op: Op, w': World)
    requires WorldInv(w) && WorldStep(build, w, op, w')
    ensures Moves(build, w, EventsOf(w, op), w')
  {
    match op
    case NewInstance(id, image) =>
      BootDone(build, w, id, image);
      DoesMoves(build, w, Inst(id), Event.Boot(id, image), w');
    case Deployment(snap, id, built) => DeployStep(build, w, snap, id, built, w');
    case Checkpointing(snap, built) => CheckpointStep(build, w, snap, built, w');
    case SlotLoad(id) =>
      LoadDone(w, id);
      SameMoves(build, w, w');
    case SlotUnload => UnloadStep(build, w, w');
    case PageFault(v, write, xd, mp) => FaultStep(build, w, v, write, xd, mp, w');
    case ReadPage(_, _) => assert Conserves(w, Inst(0), w');
    case StorePage(v, page) => StoreStep(build, w, v, page, w');
    case CacheFill(v) =>
      HwWalkIsXlate(w, v);
      FillDone(w, v, Xlate(w.m, w.slot.pfn, PDPT_LEVEL, v).value);
      SameMoves(build, w, w');
    case CacheEvict(v) =>
      EvictDone(w, v);
      SameMoves(build, w, w');
    case CacheFlush =>
      FlushDone(w);
      SameMoves(build, w, w');
    case DestroyInstance(id) =>
      RemoveDone(build, w, Inst(id), Event.EndInstance(id));
      DoesMoves(build, w, Inst(id), Event.EndInstance(id), w');
    case DestroySnapshot(snap) =>
      RemoveDone(build, w, Snap(snap), Event.DropSnapshot(snap));
      DoesMoves(build, w, Snap(snap), Event.DropSnapshot(snap), w');
  }

  /** A snapshot with a page of its own may not be torn down once it is deployed: the instance would be left with
      freed pages. */
  lemma DeployedIsNeeded(w: World, snap: nat, id: nat, built: Built, w': World)
    requires WorldInv(w) && WorldStep(Cow, w, Deployment(snap, id, built), w')
    ensures Borrowed(Spaces(w'), Snap(snap)) <==> OwnsPage(w, Snap(snap))
    ensures WorldInv(AfterRemove(w', Snap(snap), w'.OwnedOf(Snap(snap)))) <==> !OwnsPage(w, Snap(snap))
  {
    CopyDone(Cow, w, Snap(snap), Inst(id), built.m, built.free, built.root, Event.Deploy(snap, id));
    DeployBorrows(Spaces(w), snap, id, Spaces(w'));
    CoreSteps.RemoveExact(w', Snap(snap));
  }

  /** The page table of r has a writable leaf. */
  ghost predicate OwnsPage(w: World, r: Ref)
    requires r in w.svs
  {
    exists v :: v in Spaces(w).spaces[r].leaves && Spaces(w).spaces[r].leaves[v].rw
  }

  /** A read returns the bytes that the running instance shows, through whatever translation. */
  lemma ReadSees(build: Build, w: World, v: VPage, page: Page, w': World)
    requires WorldInv(w) && WorldStep(build, w, ReadPage(v, page), w')
    ensures Inst(w.active.value) in Abstract(Spaces(w)).views
    ensures page == Abstract(Spaces(w)).views[Inst(w.active.value)][v]
  {
    TranslatedIsWalked(w, v, false);
    SeenBytes(w, w.active.value, v, Xlate(w.m, w.slot.pfn, PDPT_LEVEL, v).value);
  }
}
