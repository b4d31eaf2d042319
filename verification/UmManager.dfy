/** The memory side of a core's manager: state vectors, the slot, page faults, checkpoints and teardown
    (UmManager.cc, UmInstance.cc, UmPth.cc), with the processor's loads and stores. Every operation keeps the
    invariant and does to the views what the ideal machine does. */
module Manager {
  import opened Layout
  import opened Wrappers
  import opened PageTree
  import opened PhysicalMemory
  import opened AddressSpaces
  import opened CoreMemory
  import opened CoreSteps
  import opened CoreMachine
  import opened PageTableHandler

  class UmManager {
    const build: Build
    const mem: PhysMem
    ghost const elf: set<Pfn>
    ghost var leaked: set<Pfn>
    var svs: map<Ref, Sv>
    var active: Option<nat>
    var slot: Pte
    var tlb: map<VPage, Pte>

    ghost function W(): World
      reads this, mem
    {
      World(mem.frames, mem.free, elf, leaked, svs, active, slot, tlb)
    }

    ghost predicate Valid()
      reads this, mem
    {
      WorldInv(W())
    }

    /** What the ideal machine knows: the bytes of every instance and snapshot. */
    ghost function Views(): Ideal
      reads this, mem
    {
      Abstract(Spaces(W()))
    }

    constructor (build: Build, mem: PhysMem)
      requires mem.Valid() && forall f :: f in mem.frames ==> mem.frames[f].Data?
      ensures Valid() && svs == map[] && active == None && this.build == build && this.mem == mem
      ensures elf == mem.frames.Keys
    {
      this.build := build;
      this.mem := mem;
      elf := mem.frames.Keys;
      leaked := {};
      svs := map[];
      active := None;
      slot := ZERO_PTE;
      tlb := map[];
      new;
      assert W().AllOwned() == {};
    }

    // ---------- The slot ----------

    /** slot_load_instance. */
    method SlotLoadInstance(id: nat)
      requires Valid() && active.None? && Inst(id) in svs
      modifies this
      ensures Valid() && W() == AfterLoad(old(W()), id) && WorldStep(build, old(W()), SlotLoad(id), W())
      ensures Spaces(W()) == old(Spaces(W())) && Conserves(old(W()), Inst(id), W())
    {
      var pthRoot := svs[Inst(id)].root;
      if pthRoot != NULL {
        slot := SlotPte(pthRoot);
      }
      active := Some(id);
      LoadDone(old(W()), id);
    }

    /** slot_unload_instance: the instance keeps its bytes if its state vector knows its page table. */
    method SlotUnloadInstance()
      requires Valid() && active.Some? && slot.sel
      modifies this
      ensures Valid()
      ensures W() == AfterUnload(old(W()), old(W().OwnedOf(Inst(active.value))))
      ensures WorldStep(build, old(W()), SlotUnload, W())
      ensures old(svs[Inst(active.value)].root) != NULL ==>
                Spaces(W()) == old(Spaces(W())) && Conserves(old(W()), old(Inst(active.value)), W())
    {
      ghost var w := W();
      ClearSlot(w.OwnedOf(Inst(w.active.value)));
      if w.svs[Inst(w.active.value)].root == NULL {
        UnloadLoses(w);
      } else {
        UnloadDone(w);
      }
    }

    /** Clear the slot's entry and flush; owned is what the instance's table owns. */
    method ClearSlot(ghost owned: set<Pfn>)
      requires active.Some? && Inst(active.value) in svs
      modifies this
      ensures W() == AfterUnload(old(W()), owned)
    {
      leaked := if svs[Inst(active.value)].root == NULL then leaked + owned else leaked;
      slot := ZERO_PTE;
      tlb := map[];
      active := None;
    }

    // ---------- Page faults ----------

    /** GetBackingPage: the frame to map for a fault on v. A copy-on-write fault copies what the faulting
        instance sees at v; a fault in a read-only region maps the ELF page; any other gets its fill. */
    method GetBackingPage(v: VPage, present: bool, write: bool) returns (r: Outcome<Pfn>)
      requires active.Some? && CanFault(W(), active.value, v, present, write)
      modifies mem
      ensures r.Abort? ==> mem.free == {}
      ensures r.Ok? ==> Backed(old(W()), active.value, v, present, write, r.value, mem.frames, mem.free)
    {
      LeafKnown(W(), Inst(active.value), v);
      match svs[Inst(active.value)].image(v)
      case Elf(f) =>
        return Ok(f);
      case Fill(page) =>
        if present && write {
          var src := SeenFrame(v);
          r := mem.Alloc(mem.frames[src]);
        } else {
          r := mem.Alloc(Data(page));
        }
    }

    /** The frame that a kernel access to v reaches: by a cached translation or else by the walk. */
    method SeenFrame(v: VPage) returns (f: Pfn)
      requires Valid() && active.Some? && slot.sel && Xlate(mem.frames, slot.pfn, PDPT_LEVEL, v).Some?
      ensures f == Xlate(mem.frames, slot.pfn, PDPT_LEVEL, v).value.pfn
    {
      if v in tlb {
        assert Coherent(mem.frames, slot.pfn, v, tlb[v]);
        f := tlb[v].pfn;
      } else {
        f := Xlate(mem.frames, slot.pfn, PDPT_LEVEL, v).value.pfn;
      }
    }

    /** process_pagefault. */
    method ProcessPageFault(v: LinAddr, present: bool, write: bool, xd: bool) returns (r: Outcome<()>)
      requires active.Some? && CanFault(W(), active.value, v.page, present, write)
      modifies this, mem
      ensures r.Abort? ==> mem.free == {}
      ensures r.Ok? ==>
        && Valid() && svs == old(svs) && active == old(active)
        && Does(build, old(W()), Inst(active.value), Event.Fault(active.value, v.page, write), W())
        && Resolved(W(), v.page, write)
        && exists mp :: WorldStep(build, old(W()), PageFault(v.page, write, xd, mp), W())
    {
      ghost var w := W();
      var image := svs[Inst(active.value)].image;
      var phys :- GetBackingPage(v.page, present, write);
      ghost var m1, free1 := mem.frames, mem.free;
      FaultCanMap(w, active.value, v.page, present, write, phys, m1, free1, xd);
      var pdpt :- mem.MapIntoPgTbl(if slot.sel then slot.pfn else NULL, phys, v, PDPT_LEVEL, TBL_LEVEL, PDPT_LEVEL,
                                   write, image(v.page).Fill?, xd);
      Install(pdpt, v.page, present, write);
      FaultDone(build, w, active.value, v.page, present, write, xd, phys, m1, free1, mem.frames, mem.free, pdpt);
      FaultIsStep(build, w, v.page, write, xd, Mapping(phys, m1, free1, mem.frames, mem.free, pdpt));
      return Ok(());
    }

    /** The end of process_pagefault: install a table built from scratch, and drop the stale translation of a
        copy-on-write fault. */
    method Install(pdpt: Pfn, v: VPage, present: bool, write: bool)
      modifies `slot, `tlb
      ensures W() == AfterFault(old(W()), v, present, write, mem.frames, mem.free, pdpt)
    {
      if slot == ZERO_PTE {
        slot := SlotPte(pdpt);
      }
      if present && write {
        tlb := tlb - {v};
      }
    }

    // ---------- The processor ----------

    /** The processor's translation of a program's access to v: a cached translation that permits it, or the result of
        the walk, which is then cached. None is a page fault; absent entries are never cached. */
    method Translate(v: VPage, write: bool) returns (e: Option<Pte>)
      requires Valid() && active.Some?
      modifies `tlb
      ensures Valid() && Spaces(W()) == old(Spaces(W())) && Conserves(old(W()), Inst(active.value), W())
      ensures e.Some? ==> Resolved(W(), v, write) && Xlate(mem.frames, slot.pfn, PDPT_LEVEL, v).value.pfn == e.value.pfn
      ensures e.None? ==> !Resolved(W(), v, write)
      ensures e == Translated(old(W()), v, write)
      ensures W() == old(W()) || (old(Present(W(), v)) && e.Some? && W() == AfterFill(old(W()), v, e.value))
    {
      if v in tlb && tlb[v].us && (write ==> tlb[v].rw) {
        assert Coherent(mem.frames, slot.pfn, v, tlb[v]);
        return Some(tlb[v]);
      }
      if !slot.sel {
        return None;
      }
      HwWalkIsXlate(W(), v);
      e := HwXlate(mem.frames, slot.pfn, PDPT_LEVEL, v, slot.rw, slot.us);
      if e.None? || !e.value.us || (write && !e.value.rw) {
        return None;
      }
      FillDone(W(), v, e.value);
      tlb := tlb[v := e.value];
    }

    /** Translate, with the page-fault handler run when the translation fails. */
    method Access(v: LinAddr, write: bool, xd: bool) returns (r: Outcome<Pfn>)
      requires Valid() && active.Some?
      requires write ==> svs[Inst(active.value)].image(v.page).Fill?
      modifies this, mem
      ensures r.Abort? ==> mem.free == {}
      ensures r.Ok? ==>
        && Valid() && svs == old(svs) && active == old(active)
        && Views() == old(Views()) && Conserves(old(W()), Inst(active.value), W())
        && Resolved(W(), v.page, write)
        && Xlate(mem.frames, slot.pfn, PDPT_LEVEL, v.page).value.pfn == r.value
    {
      var e := Translate(v.page, write);
      if e.Some? {
        return Ok(e.value.pfn);
      }
      ghost var w := W();
      r := FaultAndRetry(v, write, xd);
      if r.Ok? {
        ConservesOn(old(W()), Inst(active.value), w, W());
      }
    }

    /** The access restarted after its page fault: now it translates. */
    method FaultAndRetry(v: LinAddr, write: bool, xd: bool) returns (r: Outcome<Pfn>)
      requires Valid() && active.Some?
      requires write ==> svs[Inst(active.value)].image(v.page).Fill?
      requires !Resolved(W(), v.page, write)
      modifies this, mem
      ensures r.Abort? ==> mem.free == {}
      ensures r.Ok? ==>
        && Valid() && svs == old(svs) && active == old(active)
        && Views() == old(Views()) && Conserves(old(W()), Inst(active.value), W())
        && Resolved(W(), v.page, write)
        && Xlate(mem.frames, slot.pfn, PDPT_LEVEL, v.page).value.pfn == r.value
    {
      var _ :- FaultIn(v, write, xd);
      ghost var w := W();
      var e := Translate(v.page, write);
      ConservesOn(old(W()), Inst(active.value), w, W());
      return Ok(e.value.pfn);
    }

    /** The fault raised when the walk finds no leaf for v that permits the access. */
    method FaultIn(v: LinAddr, write: bool, xd: bool) returns (r: Outcome<()>)
      requires Valid() && active.Some?
      requires write ==> svs[Inst(active.value)].image(v.page).Fill?
      requires !Resolved(W(), v.page, write)
      modifies this, mem
      ensures r.Abort? ==> mem.free == {}
      ensures r.Ok? ==>
        && Valid() && svs == old(svs) && active == old(active)
        && Views() == old(Views()) && Conserves(old(W()), Inst(active.value), W())
        && Resolved(W(), v.page, write)
    {
      var present := slot.sel && Xlate(mem.frames, slot.pfn, PDPT_LEVEL, v.page).Some?;
      FaultMeans(W(), active.value, v.page, write);
      ghost var w := W();
      r := ProcessPageFault(v, present, write, xd);
      if r.Ok? {
        FaultUnseen(build, w, Inst(active.value), active.value, v.page, write, W());
      }
    }

    /** A load sees the bytes of the ideal machine, whatever is mapped, shared, cached or still to be faulted in. */
    method LoadBytes(v: LinAddr, xd: bool) returns (r: Outcome<Page>)
      requires Valid() && active.Some?
      modifies this, mem
      ensures r.Abort? ==> mem.free == {}
      ensures r.Ok? ==>
        && Valid() && svs == old(svs) && active == old(active)
        && Views() == old(Views()) && Conserves(old(W()), Inst(active.value), W())
        && Inst(active.value) in Views().views && r.value == Views().views[Inst(active.value)][v.page]
        && WorldStep(build, W(), ReadPage(v.page, r.value), W())
    {
      var f :- Access(v, false, xd);
      SeenBytes(W(), active.value, v.page, Xlate(mem.frames, slot.pfn, PDPT_LEVEL, v.page).value);
      TranslatedIsWalked(W(), v.page, false);
      return Ok(mem.frames[f].bytes);
    }

    /** A store changes the bytes of that page of the running instance, and no other byte of any space. */
    method StoreBytes(v: LinAddr, page: Page, xd: bool) returns (r: Outcome<()>)
      requires Valid() && active.Some? && svs[Inst(active.value)].image(v.page).Fill?
      modifies this, mem
      ensures r.Abort? ==> mem.free == {}
      ensures r.Ok? ==>
        && Valid() && svs == old(svs) && active == old(active) && slot.sel
        && Views() == IdealStep(old(Views()), Event.Write(active.value, v.page, page))
        && Conserves(old(W()), Inst(active.value), W())
        && exists w :: WorldStep(build, w, StorePage(v.page, page), W())
    {
      var f :- Access(v, true, xd);
      ghost var w := W();
      var e := Xlate(mem.frames, slot.pfn, PDPT_LEVEL, v.page).value;
      HardwareStore(v.page, e, page);
      StoreIsStep(build, w, v.page, page);
      StoreDone(build, w, w.active.value, v.page, e, page);
      return Ok(());
    }

    /** The store itself: the dirty bit, the bytes, the cached translation. */
    method HardwareStore(v: VPage, e: Pte, page: Page)
      modifies mem, `tlb
      ensures W() == AfterStore(old(W()), v, e, page)
    {
      mem.frames := MarkDirty(mem.frames, slot.pfn, PDPT_LEVEL, v)[e.pfn := Data(page)];
      tlb := tlb[v := e.(dirty := true)];
    }

    // ---------- State vectors ----------

    /** A new instance from the state vector that the ELF loader made: no page table yet. */
    method Boot(id: nat, image: Image)
      requires Valid() && Inst(id) !in svs && forall v :: image(v).Elf? ==> image(v).frame in elf
      modifies this
      ensures Does(build, old(W()), Inst(id), Event.Boot(id, image), W())
      ensures W() == AfterBoot(old(W()), id, image)
      ensures WorldStep(build, old(W()), NewInstance(id, image), W())
    {
      ghost var w := W();
      svs := svs[Inst(id) := Sv(NULL, image)];
      BootDone(build, w, id, image);
    }

    /** A new instance from a snapshot: the UmInstance constructor, which copies the page table. */
    method Deploy(snap: nat, id: nat) returns (r: Outcome<()>)
      requires Valid() && Snap(snap) in svs && Inst(id) !in svs
      modifies this, mem
      ensures r.Abort? ==> mem.free == {}
      ensures r.Ok? ==> Does(build, old(W()), Inst(id), Event.Deploy(snap, id), W())
      ensures r.Ok? ==> Inst(id) in svs && svs[Inst(id)].image == old(svs)[Snap(snap)].image
      ensures r.Ok? ==>
        && W() == AfterCopy(old(W()), Snap(snap), Inst(id), mem.frames, mem.free, svs[Inst(id)].root)
        && WorldStep(build, old(W()), Deployment(snap, id, Built(mem.frames, mem.free, svs[Inst(id)].root)), W())
    {
      r := CopyInto(Snap(snap), svs[Snap(snap)].root, Inst(id), Event.Deploy(snap, id));
    }

    /** process_checkpoint: a snapshot of the running instance, which has written to some page. The dirty bits
        are flushed out of the translation caches first. */
    method ProcessCheckpoint(snap: nat) returns (r: Outcome<()>)
      requires Valid() && active.Some? && slot.sel && Snap(snap) !in svs
      requires MapsDirty(mem.frames, slot.pfn)
      modifies this, mem
      ensures r.Abort? ==> mem.free == {}
      ensures r.Ok? ==> active == old(active) && active.Some? && Snap(snap) in svs && slot == old(slot) && tlb == map[]
      ensures r.Ok? ==> Does(build, old(W()), Snap(snap), Event.Checkpoint(active.value, snap), W())
      ensures r.Ok? ==>
        && W() == AfterCopy(AfterFlush(old(W())), Inst(active.value), Snap(snap),
                            mem.frames, mem.free, svs[Snap(snap)].root)
        && WorldStep(build, old(W()), Checkpointing(snap, Built(mem.frames, mem.free, svs[Snap(snap)].root)), W())
    {
      Flush();
      ghost var w := W();
      var _ :- CopyInto(Inst(active.value), slot.pfn, Snap(snap), Event.Checkpoint(active.value, snap));
      ConservesSelf(W(), Snap(snap));
      DoesAround(build, old(W()), w, Snap(snap), Event.Checkpoint(active.value, snap), W(), W());
      return Ok(());
    }

    /** The new state vector to, with a copy of from's page table and its region list. */
    method CopyInto(from: Ref, srcRoot: Pfn, to: Ref, ghost e: Event) returns (r: Outcome<()>)
      requires Valid() && from in svs && to !in svs && srcRoot == W().Root(from)
      requires (e == Event.Checkpoint(from.id, to.id) && from.Inst? && to.Snap?)
               || (e == Event.Deploy(from.id, to.id) && from.Snap? && to.Inst?)
      requires from.Inst? ==> MapsDirty(mem.frames, srcRoot)
      modifies this, mem
      ensures r.Abort? ==> mem.free == {}
      ensures r.Ok? ==> Does(build, old(W()), to, e, W())
      ensures r.Ok? ==>
        && to in svs && W() == AfterCopy(old(W()), from, to, mem.frames, mem.free, svs[to].root)
        && TableCopied(if from.Inst? then build.SnapshotMode() else build.DeployMode(),
                       old(mem.frames), old(mem.free), srcRoot, mem.frames, mem.free, svs[to].root)
    {
      ghost var w := W();
      if srcRoot != NULL {
        CanCopyTable(w, from);
      }
      var pth := new UmPth();
      if from.Snap? {
        var _ :- pth.Assign(mem, srcRoot, build);
      } else {
        var _ :- pth.CopyInPages(mem, srcRoot, build);
      }
      svs := svs[to := Sv(pth.root, svs[from].image)];
      CopyDone(build, w, from, to, mem.frames, mem.free, pth.root, e);
      return Ok(());
    }

    /** flushTranslationCaches. */
    method Flush()
      requires Valid()
      modifies `tlb
      ensures Valid() && Spaces(W()) == old(Spaces(W())) && tlb == map[] && W() == AfterFlush(old(W()))
      ensures WorldStep(build, old(W()), CacheFlush, W())
      ensures forall me :: Conserves(old(W()), me, W())
    {
      tlb := map[];
      FlushDone(old(W()));
    }

    /** The destructor of an instance that is not in the slot. */
    method EndInstance(id: nat)
      requires Valid() && Inst(id) in svs && active != Some(id)
      modifies this, mem
      ensures Does(build, old(W()), Inst(id), Event.EndInstance(id), W())
      ensures W() == AfterRemove(old(W()), Inst(id), old(W().OwnedOf(Inst(id))))
      ensures WorldStep(build, old(W()), DestroyInstance(id), W())
    {
      RemoveSv(Inst(id), Event.EndInstance(id));
    }

    /** The destructor of a snapshot that no other state vector borrows pages from. */
    method DropSnapshot(snap: nat)
      requires Valid() && Snap(snap) in svs && !Borrowed(Spaces(W()), Snap(snap))
      modifies this, mem
      ensures Does(build, old(W()), Snap(snap), Event.DropSnapshot(snap), W())
      ensures W() == AfterRemove(old(W()), Snap(snap), old(W().OwnedOf(Snap(snap))))
      ensures WorldStep(build, old(W()), DestroySnapshot(snap), W())
    {
      RemoveSv(Snap(snap), Event.DropSnapshot(snap));
    }

    method RemoveSv(ref: Ref, ghost e: Event)
      requires Valid() && ref in svs && (ref.Inst? ==> active != Some(ref.id))
      requires if ref.Inst? then e == Event.EndInstance(ref.id)
               else e == Event.DropSnapshot(ref.id) && !Borrowed(Spaces(W()), ref)
      modifies this, mem
      ensures Does(build, old(W()), ref, e, W()) && W() == AfterRemove(old(W()), ref, old(W().OwnedOf(ref)))
    {
      ghost var w := W();
      var pth := new UmPth();
      pth.root := svs[ref].root;
      assert TreeOk(w.m, w.Root(ref));
      pth.Destroy(mem);
      svs := svs - {ref};
      RemoveDone(build, w, ref, e);
    }

    // ---------- A whole life ----------

    /** Deploy an instance, run it through any accesses, unload it and destroy it: every frame it took is free
        again, and no other space has changed. */
    method RunDeployed(snap: nat, id: nat, accesses: seq<MemAccess>) returns (r: Outcome<()>)
      requires Valid() && active.None? && Snap(snap) in svs && Inst(id) !in svs
      requires exists v :: v in Spaces(W()).spaces[Snap(snap)].leaves
      requires forall k :: 0 <= k < |accesses| && accesses[k].Put? ==> svs[Snap(snap)].image(accesses[k].v.page).Fill?
      modifies this, mem
      ensures r.Abort? ==> mem.free == {}
      ensures r.Ok? ==> Valid() && mem.free == old(mem.free) && svs == old(svs) && Views() == old(Views())
    {
      ghost var w, me := W(), Inst(id);
      var _ :- Deploy(snap, id);
      PrivateEvent(w, Event.Deploy(snap, id), id, W());
      DeployedRoot(build, w, snap, id, W());
      ghost var w1 := W();
      var _ :- RunLoaded(id, accesses);
      PrivateOn(w, me, w1, W());
      ghost var w2 := W();
      EndInstance(id);
      PrivateEvent(w2, Event.EndInstance(id), id, W());
      PrivateOn(w, me, w2, W());
      SameAgain(w.svs, me, w1.svs[me]);
      PrivateNothing(w, me, W());
      return Ok(());
    }

    /** Boot an instance, load it, and let it access its first page: its page table is known to the slot only. */
    method RunFresh(id: nat, image: Image, v: LinAddr, write: bool, xd: bool) returns (r: Outcome<Pfn>)
      requires Valid() && active.None? && Inst(id) !in svs
      requires (forall x :: image(x).Elf? ==> image(x).frame in elf) && (write ==> image(v.page).Fill?)
      modifies this, mem
      ensures r.Abort? ==> mem.free == {}
      ensures r.Ok? ==>
        && Valid() && active == Some(id) && slot.sel && svs == old(svs)[Inst(id) := Sv(NULL, image)]
        && Views() == IdealStep(old(Views()), Event.Boot(id, image))
    {
      Boot(id, image);
      SlotLoadInstance(id);
      r := Access(v, write, xd);
    }

    /** And if it is swapped out and in again, it has lost what it stored: its first page has its initial bytes. */
    method LoseFresh(id: nat, image: Image, v: LinAddr, page: Page, xd: bool) returns (r: Outcome<Page>)
      requires Valid() && active.None? && Inst(id) !in svs
      requires (forall x :: image(x).Elf? ==> image(x).frame in elf) && image(v.page).Fill?
      modifies this, mem
      ensures r.Abort? ==> mem.free == {}
      ensures r.Ok? ==> r.value == image(v.page).page
    {
      var _ :- RunFresh(id, image, v, true, xd);
      var _ :- StoreBytes(v, page, xd);
      r := SwapAndLoad(v, xd);
    }

    method SwapAndLoad(v: LinAddr, xd: bool) returns (r: Outcome<Page>)
      requires Valid() && active.Some? && slot.sel && svs[Inst(active.value)].root == NULL
      requires svs[Inst(active.value)].image(v.page).Fill?
      modifies this, mem
      ensures r.Abort? ==> mem.free == {}
      ensures r.Ok? ==> r.value == old(svs[Inst(active.value)]).image(v.page).page
    {
      SwapFresh();
      r := LoadBytes(v, xd);
    }

    /** Swap out and in an instance whose page table only the slot knows. */
    method SwapFresh()
      requires Valid() && active.Some? && slot.sel && svs[Inst(active.value)].root == NULL
      modifies this
      ensures Valid() && active == old(active) && svs == old(svs)
      ensures Inst(active.value) in Views().views
      ensures forall x :: svs[Inst(active.value)].image(x).Fill? ==>
                Views().views[Inst(active.value)][x] == svs[Inst(active.value)].image(x).page
    {
      ghost var w, id := W(), active.value;
      UnloadReboots(w);
      var id' := active.value;
      SlotUnloadInstance();
      RebootViews(w, Event.Boot(id, w.svs[Inst(id)].image), W());
      SlotLoadInstance(id');
    }

    /** Load an instance that has a page table, let it access memory, and unload it. */
    method RunLoaded(id: nat, accesses: seq<MemAccess>) returns (r: Outcome<()>)
      requires Valid() && active.None? && Inst(id) in svs && svs[Inst(id)].root != NULL
      requires forall k :: 0 <= k < |accesses| && accesses[k].Put? ==> svs[Inst(id)].image(accesses[k].v.page).Fill?
      modifies this, mem
      ensures r.Abort? ==> mem.free == {}
      ensures r.Ok? ==> Private(old(W()), Inst(id), W()) && active.None? && svs == old(svs)
    {
      ghost var w, me := W(), Inst(id);
      SlotLoadInstance(id);
      PrivateSame(w, me, W());
      ghost var w1 := W();
      var _ :- RunAccesses(accesses);
      PrivateOn(w, me, w1, W());
      ghost var w2 := W();
      SlotUnloadInstance();
      PrivateSame(w2, me, W());
      PrivateOn(w, me, w2, W());
      return Ok(());
    }

    method RunAccesses(accesses: seq<MemAccess>) returns (r: Outcome<()>)
      requires Valid() && active.Some?
      requires forall k :: 0 <= k < |accesses| && accesses[k].Put? ==>
                 svs[Inst(active.value)].image(accesses[k].v.page).Fill?
      modifies this, mem
      ensures r.Abort? ==> mem.free == {}
      ensures r.Ok? ==> Private(old(W()), old(Inst(active.value)), W()) && active == old(active) && svs == old(svs)
    {
      ghost var w, me := W(), Inst(active.value);
      ConservesSelf(w, me);
      PrivateSame(w, me, w);
      var k := 0;
      while k < |accesses|
        invariant 0 <= k <= |accesses| && active == old(active) && svs == old(svs)
        invariant Private(w, me, W())
      {
        ghost var w1 := W();
        var _ :- Perform(accesses[k]);
        PrivateOn(w, me, w1, W());
        k := k + 1;
      }
      return Ok(());
    }

    method Perform(a: MemAccess) returns (r: Outcome<()>)
      requires Valid() && active.Some?
      requires a.Put? ==> svs[Inst(active.value)].image(a.v.page).Fill?
      modifies this, mem
      ensures r.Abort? ==> mem.free == {}
      ensures r.Ok? ==> Private(old(W()), old(Inst(active.value)), W()) && active == old(active) && svs == old(svs)
    {
      ghost var w := W();
      match a
      case Get(v, xd) =>
        var _ :- LoadBytes(v, xd);
        PrivateSame(w, Inst(active.value), W());
        return Ok(());
      case Put(v, page, xd) =>
        var _ :- StoreBytes(v, page, xd);
        PrivateEvent(w, Event.Write(active.value, v.page, page), active.value, W());
        return Ok(());
    }
  }

  /** After a reboot the instance shows its initial bytes. */
  lemma RebootViews(w: World, e: Event, w': World)
    requires WorldInv(w) && Reboots(w, e, w')
    ensures Inst(e.id) in Abstract(Spaces(w')).views
    ensures forall x :: e.image(x).Fill? ==> Abstract(Spaces(w')).views[Inst(e.id)][x] == e.image(x).page
  {
    RebootRefines(w, e, w');
  }

  /** A store through the walked leaf is the step. */
  lemma StoreIsStep(build: Build, w: World, v: VPage, page: Page)
    requires SlotOk(w) && TreesOk(w) && w.active.Some? && Resolved(w, v, true)
    ensures WorldStep(build, w, StorePage(v, page), AfterStore(w, v, Xlate(w.m, w.slot.pfn, PDPT_LEVEL, v).value, page))
  {
    TranslatedIsWalked(w, v, true);
  }

  /** What the fault handler did is a step of the core. */
  lemma FaultIsStep(build: Build, w: World, v: VPage, write: bool, xd: bool, mp: Mapping)
    requires w.active.Some?
    requires Faulted(w, w.active.value, v, Present(w, v), write, xd,
                     mp.phys, mp.m1, mp.free1, mp.m, mp.free, mp.root)
    ensures WorldStep(build, w, PageFault(v, write, xd, mp),
                      AfterFault(w, v, Present(w, v), write, mp.m, mp.free, mp.root))
  {
    BackedIsBacking(w, w.active.value, v, write, mp);
    FaultNotTranslated(w, v, write);
  }

  lemma SameAgain<K, V>(m: map<K, V>, k: K, v: V)
    requires k !in m
    ensures m[k := v] - {k} == m
  {
  }

  /** An access of a program to its memory. */
  datatype MemAccess = Get(v: LinAddr, xd: bool) | Put(v: LinAddr, page: Page, xd: bool)
}
