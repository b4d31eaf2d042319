/** The operations on a core's memory, as transitions between worlds: each keeps the invariant and is a step of
    the address-space machine. */
module CoreSteps {
  import opened Layout
  import opened Wrappers
  import opened PageTree
  import opened TreeWalk
  import opened AddressSpaces
  import opened CoreMemory
  import Isolation

  /** Installing a root (setSlotPDPTRoot and the install in process_pagefault). */
  function SlotPte(root: Pfn): Pte {
    SetPte(root, false, true, true, true)
  }

  /** From w to w' the operation e was carried out on the state vector me: the invariant holds, the
      address-space machine took the step e, the views changed as in the ideal machine, and the frames are
      accounted for. */
  ghost predicate Does(build: Build, w: World, me: Ref, e: Event, w': World) {
    && WorldInv(w')
    && Step(build, Spaces(w), e, Spaces(w'))
    && Abstract(Spaces(w')) == IdealStep(Abstract(Spaces(w)), e)
    && Conserves(w, me, w')
  }

  lemma Finish(build: Build, w: World, me: Ref, e: Event, w': World)
    requires WorldInv(w) && FramesOk(w') && TreesOk(w') && SlotOk(w') && Conserves(w, me, w')
    requires Step(build, Spaces(w), e, Spaces(w'))
    ensures Does(build, w, me, e, w')
  {
    Isolation.StepRefines(build, Spaces(w), e, Spaces(w'));
  }

  /** A page fault is not seen by the ideal machine. */
  lemma FaultUnseen(build: Build, w: World, me: Ref, id: nat, v: VPage, write: bool, w': World)
    requires Does(build, w, me, Event.Fault(id, v, write), w')
    ensures Abstract(Spaces(w')) == Abstract(Spaces(w))
  {
  }

  /** Cached translations come and go around an operation. */
  lemma DoesAround(build: Build, w: World, w1: World, me: Ref, e: Event, w2: World, w': World)
    requires Spaces(w1) == Spaces(w) && Conserves(w, me, w1)
    requires Does(build, w1, me, e, w2)
    requires WorldInv(w') && Spaces(w') == Spaces(w2) && Conserves(w2, me, w')
    ensures Does(build, w, me, e, w')
  {
    ConservesOn(w, me, w1, w2);
    ConservesOn(w, me, w2, w');
  }

  lemma ConservesSelf(w: World, me: Ref)
    ensures Conserves(w, me, w)
  {
  }

  // ---------- Page faults ----------

  /** GetBackingPage: the frame for page v of instance id, in memory m1 with free frames free1 left. */
  ghost predicate Backed(w: World, id: nat, v: VPage, present: bool, write: bool, phys: Pfn, m1: Mem, free1: set<Pfn>)
    requires Inst(id) in w.svs
  {
    match w.svs[Inst(id)].image(v)
    case Elf(f) => phys == f && m1 == w.m && free1 == w.free
    case Fill(page) =>
      var was := Xlate(w.m, w.Root(Inst(id)), PDPT_LEVEL, v);
      && phys in w.free && free1 == w.free - {phys}
      && (present && write ==> was.Some? && was.value.pfn in w.m)
      && m1 == w.m[phys := if present && write then w.m[was.value.pfn] else Data(page)]
  }

  /** The entry process_pagefault maps. */
  function FaultPte(image: Image, v: VPage, write: bool, phys: Pfn, xd: bool): Pte {
    SetPte(phys, write, true, image(v).Fill?, true, xd)
  }

  /** The world after the fault: the page is mapped, a table built from scratch is installed, and a stale
      translation is dropped. */
  function AfterFault(w: World, v: VPage, present: bool, write: bool, m': Mem, free': set<Pfn>, root': Pfn): World {
    w.(m := m', free := free',
       slot := if w.slot == ZERO_PTE then SlotPte(root') else w.slot,
       tlb := if present && write then w.tlb - {v} else w.tlb)
  }

  /** A fault of the instance in the slot. */
  ghost predicate CanFault(w: World, id: nat, v: VPage, present: bool, write: bool) {
    && WorldInv(w) && w.active == Some(id)
    && Faults(Spaces(w).spaces[Inst(id)], v, write)
    && present == Xlate(w.m, w.Root(Inst(id)), PDPT_LEVEL, v).Some?
  }

  /** The leaf of a mapped page is known to the address-space machine. */
  lemma LeafKnown(w: World, r: Ref, v: VPage)
    requires WorldInv(w) && r in w.svs
    ensures v in Spaces(w).spaces[r].leaves <==> Xlate(w.m, w.Root(r), PDPT_LEVEL, v).Some?
    ensures v in Spaces(w).spaces[r].leaves ==>
              var e := Xlate(w.m, w.Root(r), PDPT_LEVEL, v).value;
              && Spaces(w).spaces[r].leaves[v] == LeafOf(e)
              && e.pfn in w.m && w.m[e.pfn].Data? && (e.rw ==> e.pfn !in w.elf)
  {
    if v in Spaces(w).spaces[r].leaves {
      assert LeafInv(Spaces(w).pages, w.elf, r, Spaces(w).spaces[r], v);
    }
  }

  lemma BackedTree(w: World, id: nat, v: VPage, present: bool, write: bool, phys: Pfn, m1: Mem, free1: set<Pfn>)
    requires CanFault(w, id, v, present, write) && Backed(w, id, v, present, write, phys, m1, free1)
    ensures var root := w.Root(Inst(id));
            && TreeOk(m1, root) && TreeOwned(m1, root, PDPT_LEVEL) == w.OwnedOf(Inst(id))
            && (forall x :: Xlate(m1, root, PDPT_LEVEL, x) == Xlate(w.m, root, PDPT_LEVEL, x))
            && LeafOwned(Xlate(w.m, root, PDPT_LEVEL, v)) == {}
            && phys in m1 && m1[phys].Data? && m1.Keys !! free1 && NULL !in m1 && NULL !in free1
  {
    var me := Inst(id);
    assert TreeOk(w.m, w.Root(me));
    if w.svs[me].image(v).Fill? {
      FrameAdded(w.m, w.free, w.Root(me), phys, m1[phys]);
    }
    FaultedFrames(w, id, v, present, write);
  }

  /** What a fault reads: the page that is mapped read-only, or the ELF frame. */
  lemma FaultedFrames(w: World, id: nat, v: VPage, present: bool, write: bool)
    requires CanFault(w, id, v, present, write)
    ensures LeafOwned(Xlate(w.m, w.Root(Inst(id)), PDPT_LEVEL, v)) == {}
    ensures var was := Xlate(w.m, w.Root(Inst(id)), PDPT_LEVEL, v);
            was.Some? ==> was.value.pfn in w.m && w.m[was.value.pfn].Data?
    ensures var b := w.svs[Inst(id)].image(v); b.Elf? ==> b.frame in w.m && w.m[b.frame].Data?
  {
  }

  /** A frame taken from the allocator changes no tree. */
  lemma FrameAdded(m: Mem, free: set<Pfn>, root: Pfn, f: Pfn, frame: Frame)
    requires TreeOk(m, root) && m.Keys !! free && NULL !in m && NULL !in free && f in free
    ensures var m1 := m[f := frame];
            && TreeOk(m1, root) && TreeOwned(m1, root, PDPT_LEVEL) == TreeOwned(m, root, PDPT_LEVEL)
            && (forall x :: Xlate(m1, root, PDPT_LEVEL, x) == Xlate(m, root, PDPT_LEVEL, x))
            && m1.Keys !! free - {f} && NULL !in m1
  {
    TreeKept(m, m[f := frame], root, _ => Elf(NULL));
  }

  lemma FaultCanMap(w: World, id: nat, v: VPage, present: bool, write: bool,
                    phys: Pfn, m1: Mem, free1: set<Pfn>, xd: bool)
    requires CanFault(w, id, v, present, write) && Backed(w, id, v, present, write, phys, m1, free1)
    ensures w.Root(Inst(id)) == (if w.slot.sel then w.slot.pfn else NULL)
    ensures m1.Keys !! free1 && NULL !in m1 && NULL !in free1
    ensures CanSetLeaf(m1, free1, w.Root(Inst(id)), PDPT_LEVEL, v, FaultPte(w.svs[Inst(id)].image, v, write, phys, xd))
  {
    BackedTree(w, id, v, present, write, phys, m1, free1);
    FaultFrame(w, id, v, present, write, phys, m1, free1);
    CanMapLeaf(m1, free1, w.Root(Inst(id)), v, FaultPte(w.svs[Inst(id)].image, v, write, phys, xd));
  }

  /** A frame taken for the fault is not in the page table. */
  lemma FaultFrame(w: World, id: nat, v: VPage, present: bool, write: bool, phys: Pfn, m1: Mem, free1: set<Pfn>)
    requires CanFault(w, id, v, present, write) && Backed(w, id, v, present, write, phys, m1, free1)
    ensures w.OwnedOf(Inst(id)) !! free1
    ensures w.svs[Inst(id)].image(v).Fill? ==> phys !in w.OwnedOf(Inst(id))
  {
  }

  lemma CanMapLeaf(m: Mem, free: set<Pfn>, root: Pfn, v: VPage, e: Pte)
    requires m.Keys !! free && NULL !in m && NULL !in free && TreeOk(m, root)
    requires TreeOwned(m, root, PDPT_LEVEL) !! free
    requires e.sel && e.acc && e.us && !e.maps && e.pfn in m && m[e.pfn].Data?
    requires e.rw ==> e.pfn !in TreeOwned(m, root, PDPT_LEVEL)
    ensures CanSetLeaf(m, free, root, PDPT_LEVEL, v, e)
  {
  }

  /** The mapping made in a fault, from the world w to memory m'. */
  ghost predicate Faulted(w: World, id: nat, v: VPage, present: bool, write: bool, xd: bool,
                          phys: Pfn, m1: Mem, free1: set<Pfn>, m': Mem, free': set<Pfn>, root': Pfn)
  {
    && CanFault(w, id, v, present, write) && Backed(w, id, v, present, write, phys, m1, free1)
    && LeafSet(m1, free1, w.Root(Inst(id)), PDPT_LEVEL, v, FaultPte(w.svs[Inst(id)].image, v, write, phys, xd),
               m', free', root')
  }

  lemma FaultRoot(w: World, id: nat, v: VPage, present: bool, write: bool, xd: bool,
                  phys: Pfn, m1: Mem, free1: set<Pfn>, m': Mem, free': set<Pfn>, root': Pfn)
    requires Faulted(w, id, v, present, write, xd, phys, m1, free1, m', free', root')
    ensures AfterFault(w, v, present, write, m', free', root').Root(Inst(id)) == root' && root' != NULL
    ensures w.slot.sel ==> w.slot.pfn == root'
  {
  }

  // ---------- Changing one table ----------

  /** The frames that a mapping took are the ones the table owns more. */
  lemma TakenFrames<T>(keys: set<T>, free: set<T>, owned: set<T>, taken: set<T>, free': set<T>, fresh': set<T>)
    requires keys !! free && owned <= keys && taken <= free
    requires free' <= free - taken && fresh' == (free - taken) - free'
    ensures var owned' := (owned - {}) + taken + fresh';
            var keys' := keys + taken + fresh';
            keys' - owned' == keys - owned && owned' <= keys' && keys' !! free'
  {
  }

  /** w' differs from w in me's table only: memory went from w.m over m1, which only adds frames, to w'.m, in
      which only tables that me owned were written. */
  ghost predicate TableGrew(w: World, me: Ref, m1: Mem, w': World) {
    && w'.m.Keys !! w'.free && NULL !in w'.m && NULL !in w'.free
    && (forall f :: f in w.m ==> f in m1 && m1[f] == w.m[f])
    && WritesOnlyTables(m1, w.OwnedOf(me), w'.m)
    && w'.elf == w.elf && w'.leaked == w.leaked && me in w'.svs
    && (forall r :: r != me ==> (r in w'.svs <==> r in w.svs))
    && (forall r :: r in w.svs && r != me ==> w'.svs[r] == w.svs[r] && w'.Root(r) == w.Root(r))
    && TreeOk(w'.m, w'.Root(me))
    && w'.m.Keys - w'.OwnedOf(me) == w.m.Keys - w.OwnedOf(me)
  }

  lemma TableGrewChangesOne(w: World, me: Ref, m1: Mem, w': World)
    requires FramesOk(w) && TreesOk(w) && TableGrew(w, me, m1, w')
    ensures ChangesOne(w, me, w')
  {
    OwnedInAll(w, me);
    forall r | r in w.svs && r != me
      ensures TablesKept(w.m, w'.m, w.OwnedOf(r))
    {
      assert w.OwnedOf(r) !! w.OwnedOf(me);
      OthersUntouched(w.m, m1, w.OwnedOf(me), w'.m, w.OwnedOf(r));
    }
    OthersUntouched(w.m, m1, w.OwnedOf(me), w'.m, w.elf);
    LeakKept(w, me, w'.m, w'.OwnedOf(me));
  }

  /** What a mapping in a tree does not write: what the tree does not own. */
  lemma OthersUntouched(m: Mem, m1: Mem, s: set<Pfn>, m': Mem, other: set<Pfn>)
    requires forall f :: f in m ==> f in m1 && m1[f] == m[f]
    requires WritesOnlyTables(m1, s, m') && other !! s
    ensures TablesKept(m, m', other)
  {
  }

  /** Leaked frames stay leaked. */
  lemma LeakKept(w: World, me: Ref, m': Mem, owned': set<Pfn>)
    requires FramesOk(w) && m'.Keys - owned' == w.m.Keys - w.OwnedOf(me)
    ensures w.leaked <= m'.Keys && w.leaked !! owned'
    ensures m'.Keys - owned' - w.leaked == w.m.Keys - w.OwnedOf(me) - w.leaked
  {
    OwnedInAll(w, me);
    assert w.leaked <= w.m.Keys - w.OwnedOf(me);
  }

  // ---------- The mapping made in a fault ----------

  /** The fault takes the frame it maps writable, and no other. */
  lemma FaultTaken(w: World, id: nat, v: VPage, present: bool, write: bool, xd: bool,
                   phys: Pfn, m1: Mem, free1: set<Pfn>)
    requires CanFault(w, id, v, present, write) && Backed(w, id, v, present, write, phys, m1, free1)
    ensures var taken := LeafOwned(Some(FaultPte(w.svs[Inst(id)].image, v, write, phys, xd)));
            taken <= w.free && m1.Keys == w.m.Keys + taken && free1 == w.free - taken
    ensures forall f :: f in w.m ==> f in m1 && m1[f] == w.m[f]
  {
  }

  lemma FaultTree(w: World, id: nat, v: VPage, present: bool, write: bool, xd: bool,
                  phys: Pfn, m1: Mem, free1: set<Pfn>, m': Mem, free': set<Pfn>, root': Pfn)
    requires Faulted(w, id, v, present, write, xd, phys, m1, free1, m', free', root')
    ensures TreeOk(m', root') && m'.Keys !! free' && NULL !in m' && NULL !in free'
    ensures m'.Keys - Owned(m', root', PDPT_LEVEL) == w.m.Keys - w.OwnedOf(Inst(id))
    ensures forall f :: f in w.m ==> f in m1 && m1[f] == w.m[f]
    ensures WritesOnlyTables(m1, w.OwnedOf(Inst(id)), m')
  {
    BackedTree(w, id, v, present, write, phys, m1, free1);
    var taken := LeafOwned(Some(FaultPte(w.svs[Inst(id)].image, v, write, phys, xd)));
    FaultTaken(w, id, v, present, write, xd, phys, m1, free1);
    TakenFrames(w.m.Keys, w.free, w.OwnedOf(Inst(id)), taken, free', free1 - free');
  }

  lemma FaultGrew(w: World, id: nat, v: VPage, present: bool, write: bool,
                  m1: Mem, m': Mem, free': set<Pfn>, root': Pfn)
    requires Inst(id) in w.svs && AfterFault(w, v, present, write, m', free', root').Root(Inst(id)) == root' != NULL
    requires w.active == Some(id)
    requires TreeOk(m', root') && m'.Keys !! free' && NULL !in m' && NULL !in free'
    requires m'.Keys - Owned(m', root', PDPT_LEVEL) == w.m.Keys - w.OwnedOf(Inst(id))
    requires forall f :: f in w.m ==> f in m1 && m1[f] == w.m[f]
    requires WritesOnlyTables(m1, w.OwnedOf(Inst(id)), m')
    ensures TableGrew(w, Inst(id), m1, AfterFault(w, v, present, write, m', free', root'))
  {
  }

  /** Only the faulting instance's table changes. */
  lemma FaultChangesOne(w: World, id: nat, v: VPage, present: bool, write: bool, xd: bool,
                        phys: Pfn, m1: Mem, free1: set<Pfn>, m': Mem, free': set<Pfn>, root': Pfn)
    requires Faulted(w, id, v, present, write, xd, phys, m1, free1, m', free', root')
    ensures ChangesOne(w, Inst(id), AfterFault(w, v, present, write, m', free', root'))
  {
    FaultRoot(w, id, v, present, write, xd, phys, m1, free1, m', free', root');
    FaultTree(w, id, v, present, write, xd, phys, m1, free1, m', free', root');
    FaultGrew(w, id, v, present, write, m1, m', free', root');
    TableGrewChangesOne(w, Inst(id), m1, AfterFault(w, v, present, write, m', free', root'));
  }

  /** Cached translations stay coherent: other pages keep theirs, and the remapped page's is dropped. */
  lemma FaultSlot(w: World, id: nat, v: VPage, present: bool, write: bool, xd: bool,
                  phys: Pfn, m1: Mem, free1: set<Pfn>, m': Mem, free': set<Pfn>, root': Pfn)
    requires Faulted(w, id, v, present, write, xd, phys, m1, free1, m', free', root')
    ensures SlotOk(AfterFault(w, v, present, write, m', free', root'))
  {
    var w' := AfterFault(w, v, present, write, m', free', root');
    BackedTree(w, id, v, present, write, phys, m1, free1);
    FaultRoot(w, id, v, present, write, xd, phys, m1, free1, m', free', root');
    forall x | x in w'.tlb
      ensures w'.slot.sel && Coherent(m', root', x, w'.tlb[x])
    {
      assert Coherent(w.m, w.slot.pfn, x, w.tlb[x]);
      assert x != v && (x.SameUpTo(v, PDPT_LEVEL) ==> x == v);
      assert Xlate(m', root', PDPT_LEVEL, x) == Xlate(w.m, w.slot.pfn, PDPT_LEVEL, x);
    }
  }

  /** Dropping the translation is needed, exactly when the page has one cached: kept, it would be stale. */
  lemma KeptTranslation(w: World, id: nat, v: VPage, present: bool, write: bool, xd: bool,
                        phys: Pfn, m1: Mem, free1: set<Pfn>, m': Mem, free': set<Pfn>, root': Pfn)
    requires Faulted(w, id, v, present, write, xd, phys, m1, free1, m', free', root')
    ensures SlotOk(AfterFault(w, v, present, write, m', free', root').(tlb := w.tlb)) <==> v !in w.tlb
  {
    FaultSlot(w, id, v, present, write, xd, phys, m1, free1, m', free', root');
    FaultRoot(w, id, v, present, write, xd, phys, m1, free1, m', free', root');
    if v in w.tlb {
      FaultMoves(w, id, v, present, write, xd, phys, m1, free1, m', free', root');
      CachedBefore(w, v);
      StaleBreaks(AfterFault(w, v, present, write, m', free', root').(tlb := w.tlb), v);
    } else {
      NotDropped(w, v, present, write, m', free', root');
    }
  }

  lemma CachedBefore(w: World, v: VPage)
    requires SlotOk(w) && v in w.tlb
    ensures w.slot.sel
  {
  }

  /** A translation to another frame than the walk's is not coherent. */
  lemma StaleBreaks(w: World, v: VPage)
    requires v in w.tlb && Xlate(w.m, w.slot.pfn, PDPT_LEVEL, v).Some?
    requires Xlate(w.m, w.slot.pfn, PDPT_LEVEL, v).value.pfn != w.tlb[v].pfn
    ensures !SlotOk(w)
  {
    assert !Coherent(w.m, w.slot.pfn, v, w.tlb[v]);
  }

  lemma NotDropped(w: World, v: VPage, present: bool, write: bool, m': Mem, free': set<Pfn>, root': Pfn)
    requires v !in w.tlb
    ensures AfterFault(w, v, present, write, m', free', root').(tlb := w.tlb) ==
            AfterFault(w, v, present, write, m', free', root')
  {
    assert w.tlb - {v} == w.tlb;
  }

  /** A fault on a page with a cached translation moves the page to another frame. */
  lemma FaultMoves(w: World, id: nat, v: VPage, present: bool, write: bool, xd: bool,
                   phys: Pfn, m1: Mem, free1: set<Pfn>, m': Mem, free': set<Pfn>, root': Pfn)
    requires Faulted(w, id, v, present, write, xd, phys, m1, free1, m', free', root') && v in w.tlb
    ensures Xlate(m', root', PDPT_LEVEL, v).Some? && Xlate(m', root', PDPT_LEVEL, v).value.pfn != w.tlb[v].pfn
  {
    assert Coherent(w.m, w.slot.pfn, v, w.tlb[v]);
    LeafKnown(w, Inst(id), v);
    assert v.SameUpTo(v, PDPT_LEVEL);
  }

  /** Writing tables changes no page. */
  lemma SamePages(m: Mem, s: set<Pfn>, m': Mem, fresh': set<Pfn>)
    requires WritesOnlyTables(m, s, m')
    requires m'.Keys == m.Keys + fresh' && forall g :: g in fresh' && g in m' ==> g !in m && m'[g].Table?
    ensures PagesOf(m') == PagesOf(m)
  {
  }

  /** The fault resolves as the address-space machine says. */
  lemma FaultSpaces(build: Build, w: World, id: nat, v: VPage, present: bool, write: bool, xd: bool,
                    phys: Pfn, m1: Mem, free1: set<Pfn>, m': Mem, free': set<Pfn>, root': Pfn)
    requires Faulted(w, id, v, present, write, xd, phys, m1, free1, m', free', root')
    ensures Step(build, Spaces(w), Event.Fault(id, v, write),
                 Spaces(AfterFault(w, v, present, write, m', free', root')))
  {
    var me := Inst(id);
    var w' := AfterFault(w, v, present, write, m', free', root');
    FaultChangesOne(w, id, v, present, write, xd, phys, m1, free1, m', free', root');
    FaultRoot(w, id, v, present, write, xd, phys, m1, free1, m', free', root');
    SpacesAfter(w, me, w');
    FaultLeaves(w, id, v, present, write, xd, phys, m1, free1, m', free', root');
    FaultPages(w, id, v, present, write, xd, phys, m1, free1, m', free', root');
  }

  /** A remapped table gives the space with one leaf set. */
  lemma RemappedSpace(m: Mem, root: Pfn, v: VPage, e: Pte, m': Mem, root': Pfn, image: Image)
    requires Remaps(m, root, PDPT_LEVEL, v, e, m', root')
    ensures SpaceOf(m', root', image) == AddressSpaces.SetLeaf(SpaceOf(m, root, image), v, LeafOf(e))
  {
    forall x
      ensures Xlate(m', root', PDPT_LEVEL, x) == if x == v then Some(e) else Xlate(m, root, PDPT_LEVEL, x)
    {
      RemappedPage(m, root, v, e, m', root', x);
    }
    SpaceIs(m', root', image, SpaceOf(m, root, image).leaves[v := LeafOf(e)]);
  }

  lemma RemappedPage(m: Mem, root: Pfn, v: VPage, e: Pte, m': Mem, root': Pfn, x: VPage)
    requires Remaps(m, root, PDPT_LEVEL, v, e, m', root')
    ensures Xlate(m', root', PDPT_LEVEL, x) == if x == v then Some(e) else Xlate(m, root, PDPT_LEVEL, x)
  {
  }

  lemma FaultLeaves(w: World, id: nat, v: VPage, present: bool, write: bool, xd: bool,
                    phys: Pfn, m1: Mem, free1: set<Pfn>, m': Mem, free': set<Pfn>, root': Pfn)
    requires Faulted(w, id, v, present, write, xd, phys, m1, free1, m', free', root')
    ensures var sp := SpaceOf(w.m, w.Root(Inst(id)), w.svs[Inst(id)].image);
            SpaceOf(m', root', sp.image) ==
            AddressSpaces.SetLeaf(sp, v, LeafOf(FaultPte(sp.image, v, write, phys, xd)))
  {
    var root, image := w.Root(Inst(id)), w.svs[Inst(id)].image;
    BackedTree(w, id, v, present, write, phys, m1, free1);
    SameLeaves(w.m, root, m1, root, image);
    RemappedSpace(m1, root, v, FaultPte(image, v, write, phys, xd), m', root', image);
  }

  lemma FaultStore(w: World, id: nat, v: VPage, present: bool, write: bool, xd: bool,
                   phys: Pfn, m1: Mem, free1: set<Pfn>, m': Mem, free': set<Pfn>, root': Pfn)
    requires Faulted(w, id, v, present, write, xd, phys, m1, free1, m', free', root')
    ensures phys in m1 && m1[phys].Data?
    ensures PagesOf(m') ==
            if w.svs[Inst(id)].image(v).Elf? then PagesOf(w.m) else PagesOf(w.m)[phys := m1[phys].bytes]
  {
    BackedTree(w, id, v, present, write, phys, m1, free1);
    SamePages(m1, w.OwnedOf(Inst(id)), m', free1 - free');
    if w.svs[Inst(id)].image(v).Fill? {
      FrameFilled(w.m, phys, m1);
    }
  }

  lemma FrameFilled(m: Mem, f: Pfn, m1: Mem)
    requires f in m1 && m1[f].Data? && m1 == m[f := m1[f]]
    ensures PagesOf(m1) == PagesOf(m)[f := m1[f].bytes]
  {
  }

  lemma FaultPages(w: World, id: nat, v: VPage, present: bool, write: bool, xd: bool,
                   phys: Pfn, m1: Mem, free1: set<Pfn>, m': Mem, free': set<Pfn>, root': Pfn)
    requires Faulted(w, id, v, present, write, xd, phys, m1, free1, m', free', root')
    ensures var sp := Spaces(w).spaces[Inst(id)];
            FaultResolved(PagesOf(w.m), sp, v, write, PagesOf(m'), LeafOf(FaultPte(sp.image, v, write, phys, xd)))
  {
    LeafKnown(w, Inst(id), v);
    FaultStore(w, id, v, present, write, xd, phys, m1, free1, m', free', root');
  }

  /** A page fault keeps the invariant, is a step of the address-space machine, and maps the page. */
  lemma FaultDone(build: Build, w: World, id: nat, v: VPage, present: bool, write: bool, xd: bool,
                  phys: Pfn, m1: Mem, free1: set<Pfn>, m': Mem, free': set<Pfn>, root': Pfn)
    requires Faulted(w, id, v, present, write, xd, phys, m1, free1, m', free', root')
    ensures var w' := AfterFault(w, v, present, write, m', free', root');
            Does(build, w, Inst(id), Event.Fault(id, v, write), w') && Resolved(w', v, write)
  {
    var w' := AfterFault(w, v, present, write, m', free', root');
    FaultChangesOne(w, id, v, present, write, xd, phys, m1, free1, m', free', root');
    FramesKept(w, Inst(id), w');
    FaultSlot(w, id, v, present, write, xd, phys, m1, free1, m', free', root');
    FaultSpaces(build, w, id, v, present, write, xd, phys, m1, free1, m', free', root');
    FaultTotal(w, id, v, present, write, xd, phys, m1, free1, m', free', root');
    ChangesOneConserves(w, Inst(id), w');
    Finish(build, w, Inst(id), Event.Fault(id, v, write), w');
    FaultResolves(w, id, v, present, write, xd, phys, m1, free1, m', free', root');
  }

  lemma FaultResolves(w: World, id: nat, v: VPage, present: bool, write: bool, xd: bool,
                      phys: Pfn, m1: Mem, free1: set<Pfn>, m': Mem, free': set<Pfn>, root': Pfn)
    requires Faulted(w, id, v, present, write, xd, phys, m1, free1, m', free', root')
    ensures Resolved(AfterFault(w, v, present, write, m', free', root'), v, write)
  {
    FaultRoot(w, id, v, present, write, xd, phys, m1, free1, m', free', root');
    assert v.SameUpTo(v, PDPT_LEVEL);
  }

  /** The leaf that a fault maps: the backing frame, writable in a writable region, dirty after a write, executable
      unless the region says otherwise, and open to programs. */
  lemma FaultLeaf(w: World, id: nat, v: VPage, present: bool, write: bool, xd: bool,
                  phys: Pfn, m1: Mem, free1: set<Pfn>, m': Mem, free': set<Pfn>, root': Pfn)
    requires Faulted(w, id, v, present, write, xd, phys, m1, free1, m', free', root')
    ensures Xlate(m', root', PDPT_LEVEL, v).Some?
    ensures var e := Xlate(m', root', PDPT_LEVEL, v).value;
            && e.pfn == phys && (e.rw <==> w.svs[Inst(id)].image(v).Fill?) && (e.dirty <==> write) && (e.xd <==> xd)
            && e.us && e.acc && !e.maps
  {
    assert v.SameUpTo(v, PDPT_LEVEL);
  }

  lemma FaultTotal(w: World, id: nat, v: VPage, present: bool, write: bool, xd: bool,
                   phys: Pfn, m1: Mem, free1: set<Pfn>, m': Mem, free': set<Pfn>, root': Pfn)
    requires Faulted(w, id, v, present, write, xd, phys, m1, free1, m', free', root')
    ensures m'.Keys + free' == w.m.Keys + w.free
  {
    FaultTaken(w, id, v, present, write, xd, phys, m1, free1);
    var taken := LeafOwned(Some(FaultPte(w.svs[Inst(id)].image, v, write, phys, xd)));
    TakenTotal(w.m.Keys, w.free, taken, free', m'.Keys);
  }

  /** Frames that are taken from the allocator come into use. */
  lemma TakenTotal<T>(keys: set<T>, free: set<T>, taken: set<T>, free': set<T>, keys': set<T>)
    requires taken <= free && free' <= free - taken && keys' == keys + taken + (free - taken - free')
    ensures keys' + free' == keys + free
  {
  }

  /** The slot's table maps v, writable if the access is a write. */
  ghost predicate Resolved(w: World, v: VPage, write: bool) {
    && w.slot.sel && Xlate(w.m, w.slot.pfn, PDPT_LEVEL, v).Some?
    && (write ==> Xlate(w.m, w.slot.pfn, PDPT_LEVEL, v).value.rw)
  }

  // ---------- Checkpoint and deployment ----------

  ghost predicate DirtyLeaf(m: Mem, root: Pfn, v: VPage) {
    Xlate(m, root, PDPT_LEVEL, v).Some? && Xlate(m, root, PDPT_LEVEL, v).value.dirty
  }

  /** Some page was written. */
  ghost predicate MapsDirty(m: Mem, root: Pfn) {
    exists v :: DirtyLeaf(m, root, v)
  }

  /** A walk of from's table into a new table, from w to memory m'. */
  ghost predicate TableCopied(mode: Mode, m: Mem, free: set<Pfn>, src: Pfn, m': Mem, free': set<Pfn>, root': Pfn) {
    && CopyGrew(St(m, free, NULL), St(m', free', root'))
    && forall v :: LeafCopied(mode, m, Xlate(m, src, PDPT_LEVEL, v), m', None, Xlate(m', root', PDPT_LEVEL, v))
  }

  function AfterCopy(w: World, from: Ref, to: Ref, m': Mem, free': set<Pfn>, root': Pfn): World
    requires from in w.svs
  {
    w.(m := m', free := free', svs := w.svs[to := Sv(root', w.svs[from].image)])
  }

  lemma CanCopyTable(w: World, from: Ref)
    requires WorldInv(w) && from in w.svs && w.Root(from) != NULL
    ensures forall path :: CanWalk(St(w.m, w.free, NULL), w.Root(from), PDPT_LEVEL, 0, 512, path)
  {
    var s, root := St(w.m, w.free, NULL), w.Root(from);
    assert TreeOk(w.m, root);
    forall v | Xlate(w.m, root, PDPT_LEVEL, v).Some?
      ensures Xlate(w.m, root, PDPT_LEVEL, v).value.pfn in w.m && w.m[Xlate(w.m, root, PDPT_LEVEL, v).value.pfn].Data?
    {
      LeafKnown(w, from, v);
    }
    assert forall v :: s.Leaf(v) == None;
  }

  lemma CopyGrewTable(w: World, from: Ref, to: Ref, m': Mem, free': set<Pfn>, root': Pfn)
    requires FramesOk(w) && TreesOk(w) && SlotOk(w) && from in w.svs && to !in w.svs
    requires CopyGrew(St(w.m, w.free, NULL), St(m', free', root'))
    ensures ChangesOne(w, to, AfterCopy(w, from, to, m', free', root'))
    ensures SlotOk(AfterCopy(w, from, to, m', free', root'))
  {
    var w' := AfterCopy(w, from, to, m', free', root');
    NewRoot(w, from, to, m', free', root');
    CopyTree(w.m, w.free, m', free', root');
    CopyTableGrew(w, from, to, m', free', root');
    TableGrewChangesOne(w, to, w.m, w');
    SlotKept(w, w');
  }

  lemma NewRoot(w: World, from: Ref, to: Ref, m': Mem, free': set<Pfn>, root': Pfn)
    requires SlotOk(w) && from in w.svs && to !in w.svs
    ensures AfterCopy(w, from, to, m', free', root').Root(to) == root'
    ensures forall r :: r in w.svs ==> AfterCopy(w, from, to, m', free', root').Root(r) == w.Root(r)
  {
  }

  /** The new tree owns what left the allocator. */
  lemma CopyTree(m: Mem, free: set<Pfn>, m': Mem, free': set<Pfn>, root': Pfn)
    requires CopyGrew(St(m, free, NULL), St(m', free', root'))
    ensures TreeOk(m', root') && TreeOwned(m', root', PDPT_LEVEL) == free - free'
    ensures m'.Keys == m.Keys + (free - free') && free' <= free
    ensures WritesOnlyTables(m, {}, m')
  {
  }

  lemma CopyTableGrew(w: World, from: Ref, to: Ref, m': Mem, free': set<Pfn>, root': Pfn)
    requires from in w.svs && to !in w.svs && w.m.Keys !! w.free && NULL !in w.m && NULL !in w.free
    requires TreeOk(m', root') && TreeOwned(m', root', PDPT_LEVEL) == w.free - free'
    requires m'.Keys == w.m.Keys + (w.free - free') && free' <= w.free && WritesOnlyTables(w.m, {}, m')
    requires var w' := AfterCopy(w, from, to, m', free', root');
             w'.Root(to) == root' && forall r :: r in w.svs ==> w'.Root(r) == w.Root(r)
    ensures TableGrew(w, to, w.m, AfterCopy(w, from, to, m', free', root'))
  {
  }

  ghost predicate LeafInUse(m: Mem, root: Pfn, v: VPage) {
    Xlate(m, root, PDPT_LEVEL, v).Some? ==>
      Xlate(m, root, PDPT_LEVEL, v).value.pfn in m && m[Xlate(m, root, PDPT_LEVEL, v).value.pfn].Data?
  }

  /** The leaves of the new table are a copy of the source's as the address-space machine says. */
  lemma CopiedLeaves(mode: Mode, m: Mem, free: set<Pfn>, src: Pfn, m': Mem, free': set<Pfn>, root': Pfn, image: Image)
    requires TableCopied(mode, m, free, src, m', free', root')
    requires m.Keys !! free
    requires forall v :: LeafInUse(m, src, v)
    ensures CopiedSpace(mode, PagesOf(m), SpaceOf(m, src, image), PagesOf(m'), SpaceOf(m', root', image))
  {
    var a, b := SpaceOf(m, src, image), SpaceOf(m', root', image);
    forall v
      ensures v in b.leaves <==> v in a.leaves && a.leaves[v].dirty
      ensures v in b.leaves ==> CopiedLeaf(mode, PagesOf(m), a.leaves[v], PagesOf(m'), b.leaves[v])
    {
      assert LeafInUse(m, src, v);
      LeafCopiedIs(mode, m, Xlate(m, src, PDPT_LEVEL, v), m', Xlate(m', root', PDPT_LEVEL, v));
    }
    forall v, x | v in b.leaves && x in b.leaves && b.leaves[v].rw && b.leaves[x].rw
      ensures b.leaves[v].frame == b.leaves[x].frame ==> v == x
    {
      WritableFramesDistinct(m', root', v, x);
    }
  }

  /** A copied leaf in the table is a copied leaf of the space. */
  lemma LeafCopiedIs(mode: Mode, m: Mem, src: Option<Pte>, m': Mem, now: Option<Pte>)
    requires LeafCopied(mode, m, src, m', None, now)
    requires src.Some? ==> src.value.pfn in m && m[src.value.pfn].Data?
    ensures now.Some? <==> src.Some? && src.value.dirty
    ensures now.Some? ==> CopiedLeaf(mode, PagesOf(m), LeafOf(src.value), PagesOf(m'), LeafOf(now.value))
  {
  }

  lemma WritableFramesDistinct(m: Mem, root: Pfn, v: VPage, x: VPage)
    requires IsTreeOrNull(m, root, PDPT_LEVEL)
    requires Xlate(m, root, PDPT_LEVEL, v).Some? && Xlate(m, root, PDPT_LEVEL, v).value.rw
    requires Xlate(m, root, PDPT_LEVEL, x).Some? && Xlate(m, root, PDPT_LEVEL, x).value.rw
    requires root == NULL ==> NULL !in m
    ensures Xlate(m, root, PDPT_LEVEL, v).value.pfn == Xlate(m, root, PDPT_LEVEL, x).value.pfn ==> v == x
  {
    if Xlate(m, root, PDPT_LEVEL, v).value.pfn == Xlate(m, root, PDPT_LEVEL, x).value.pfn {
      assert Xlate(m, root, PDPT_LEVEL, v).value.pfn in
        LeafOwned(Xlate(m, root, PDPT_LEVEL, v)) * LeafOwned(Xlate(m, root, PDPT_LEVEL, x));
      WritableLeavesDistinct(m, root, PDPT_LEVEL, v, x);
    }
  }

  lemma CopyDone(build: Build, w: World, from: Ref, to: Ref, m': Mem, free': set<Pfn>, root': Pfn, e: Event)
    requires WorldInv(w) && from in w.svs && to !in w.svs
    requires (e == Event.Checkpoint(from.id, to.id) && from.Inst? && to.Snap?)
             || (e == Event.Deploy(from.id, to.id) && from.Snap? && to.Inst?)
    requires TableCopied(if from.Inst? then build.SnapshotMode() else build.DeployMode(),
                         w.m, w.free, w.Root(from), m', free', root')
    ensures var w' := AfterCopy(w, from, to, m', free', root');
            Does(build, w, to, e, w')
  {
    forall v | Xlate(w.m, w.Root(from), PDPT_LEVEL, v).Some?
      ensures LeafInUse(w.m, w.Root(from), v)
    {
      LeafKnown(w, from, v);
    }
    CopyWorld(if from.Inst? then build.SnapshotMode() else build.DeployMode(), w, from, to, m', free', root');
    Finish(build, w, to, e, AfterCopy(w, from, to, m', free', root'));
  }

  lemma CopyWorld(mode: Mode, w: World, from: Ref, to: Ref, m': Mem, free': set<Pfn>, root': Pfn)
    requires FramesOk(w) && TreesOk(w) && SlotOk(w) && from in w.svs && to !in w.svs
    requires forall v :: LeafInUse(w.m, w.Root(from), v)
    requires TableCopied(mode, w.m, w.free, w.Root(from), m', free', root')
    ensures var w' := AfterCopy(w, from, to, m', free', root');
            && FramesOk(w') && TreesOk(w') && SlotOk(w') && Conserves(w, to, w')
            && to in Spaces(w').spaces && Spaces(w').elf == Spaces(w).elf
            && CopiedSpace(mode, Spaces(w).pages, Spaces(w).spaces[from], Spaces(w').pages, Spaces(w').spaces[to])
            && Spaces(w').spaces == Spaces(w).spaces[to := Spaces(w').spaces[to]]
  {
    var w' := AfterCopy(w, from, to, m', free', root');
    CopyGrewTable(w, from, to, m', free', root');
    NewRoot(w, from, to, m', free', root');
    FramesKept(w, to, w');
    SpacesAfter(w, to, w');
    CopiedLeaves(mode, w.m, w.free, w.Root(from), m', free', root', w.svs[from].image);
    assert m'.Keys + free' == w.m.Keys + w.free;
    ChangesOneConserves(w, to, w');
  }

  // ---------- Teardown ----------

  /** The destructor of r's page table and state vector. */
  function AfterRemove(w: World, r: Ref, owned: set<Pfn>): World {
    w.(m := w.m - owned, free := w.free + owned, svs := w.svs - {r})
  }

  lemma RemoveChangesOne(w: World, r: Ref)
    requires FramesOk(w) && TreesOk(w) && r in w.svs && (r.Inst? ==> w.active != Some(r.id))
    ensures ChangesOne(w, r, AfterRemove(w, r, w.OwnedOf(r)))
  {
    var owned := w.OwnedOf(r);
    var w' := AfterRemove(w, r, owned);
    OwnedInAll(w, r);
    assert TreeOk(w.m, w.Root(r));
    forall o | o in w.svs && o != r
      ensures TablesKept(w.m, w'.m, w.OwnedOf(o))
    {
      assert w.OwnedOf(o) !! owned;
    }
    assert w'.m.Keys == w.m.Keys - owned && w'.OwnedOf(r) == {};
    assert w.leaked <= w'.m.Keys;
  }

  /** The slot and the cached translations depend only on what the installed table translates. */
  lemma SlotSame(w: World, w': World)
    requires SlotOk(w) && w'.active == w.active && w'.slot == w.slot && w'.tlb == w.tlb
    requires w.active.Some? ==> Inst(w.active.value) in w'.svs
    requires w.active.Some? ==> w'.svs[Inst(w.active.value)] == w.svs[Inst(w.active.value)]
    requires w.slot.sel ==>
               forall v :: Xlate(w'.m, w.slot.pfn, PDPT_LEVEL, v) == Xlate(w.m, w.slot.pfn, PDPT_LEVEL, v)
    ensures SlotOk(w')
  {
    assert forall x :: x in w.tlb ==> Coherent(w.m, w.slot.pfn, x, w.tlb[x]);
    if w.slot.sel && MapsSome(w.m, w.slot.pfn) {
      var v :| Xlate(w.m, w.slot.pfn, PDPT_LEVEL, v).Some?;
      assert Xlate(w'.m, w.slot.pfn, PDPT_LEVEL, v).Some?;
    }
  }

  lemma SlotKept(w: World, w': World)
    requires TreesOk(w) && SlotOk(w) && NULL !in w.m && NULL !in w'.m
    requires w'.active == w.active && w'.slot == w.slot && w'.tlb == w.tlb
    requires w.active.Some? ==> Inst(w.active.value) in w'.svs
    requires w.active.Some? ==> w'.svs[Inst(w.active.value)] == w.svs[Inst(w.active.value)]
    requires w.active.Some? ==> TablesKept(w.m, w'.m, w.OwnedOf(Inst(w.active.value)))
    ensures SlotOk(w')
  {
    if w.slot.sel {
      var me := Inst(w.active.value);
      assert w.Root(me) == w.slot.pfn && TreeOk(w.m, w.Root(me));
      TreeKept(w.m, w'.m, w.Root(me), w.svs[me].image);
    }
    SlotSame(w, w');
  }

  /** The pages a table owns are the pages its writable leaves map. */
  lemma OwnedPages(m: Mem, root: Pfn, image: Image)
    requires TreeOk(m, root) && NULL !in m
    ensures forall f :: f in m && m[f].Data? ==>
              (f in TreeOwned(m, root, PDPT_LEVEL) <==> exists v :: Owns(SpaceOf(m, root, image), v, f))
  {
    var sp := SpaceOf(m, root, image);
    forall f | f in m && m[f].Data?
      ensures f in TreeOwned(m, root, PDPT_LEVEL) <==> exists v :: Owns(sp, v, f)
    {
      if f in TreeOwned(m, root, PDPT_LEVEL) {
        var v := OwnedPageIsLeaf(m, root, PDPT_LEVEL, f);
        assert Owns(sp, v, f);
      }
      if v :| Owns(sp, v, f) {
        LeafOwnedInTree(m, root, PDPT_LEVEL, v);
      }
    }
  }

  lemma RemovedSpaces(w: World, r: Ref)
    requires FramesOk(w) && TreesOk(w) && r in w.svs
    requires var w' := AfterRemove(w, r, w.OwnedOf(r)); Spaces(w').spaces == Spaces(w).spaces - {r}
    ensures Removed(Spaces(w), r, Spaces(AfterRemove(w, r, w.OwnedOf(r))))
  {
    assert TreeOk(w.m, w.Root(r));
    OwnedPages(w.m, w.Root(r), w.svs[r].image);
    PagesWithout(w.m, w.OwnedOf(r));
    RemovedPages(Spaces(w), r, w.OwnedOf(r), Spaces(AfterRemove(w, r, w.OwnedOf(r))));
  }

  lemma PagesWithout(m: Mem, gone: set<Pfn>)
    ensures PagesOf(m - gone) == PagesOf(m) - gone
  {
  }

  lemma RemovedPages(s: State, r: Ref, gone: set<Pfn>, s': State)
    requires r in s.spaces && s'.spaces == s.spaces - {r} && s'.pages == s.pages - gone
    requires forall f :: f in s.pages ==> (f in gone <==> exists v :: Owns(s.spaces[r], v, f))
    ensures Removed(s, r, s')
  {
  }

  lemma RemoveDone(build: Build, w: World, r: Ref, e: Event)
    requires WorldInv(w) && r in w.svs && (r.Inst? ==> w.active != Some(r.id))
    requires if r.Inst? then e == EndInstance(r.id) else e == DropSnapshot(r.id) && !Borrowed(Spaces(w), r)
    ensures var w' := AfterRemove(w, r, w.OwnedOf(r));
            Does(build, w, r, e, w')
  {
    RemoveWorld(w, r);
    Finish(build, w, r, e, AfterRemove(w, r, w.OwnedOf(r)));
  }

  lemma RemoveWorld(w: World, r: Ref)
    requires FramesOk(w) && TreesOk(w) && SlotOk(w) && r in w.svs && (r.Inst? ==> w.active != Some(r.id))
    ensures var w' := AfterRemove(w, r, w.OwnedOf(r));
            && FramesOk(w') && TreesOk(w') && SlotOk(w') && Conserves(w, r, w')
            && Spaces(w').elf == Spaces(w).elf && Removed(Spaces(w), r, Spaces(w'))
  {
    var w' := AfterRemove(w, r, w.OwnedOf(r));
    RemoveChangesOne(w, r);
    FramesKept(w, r, w');
    SpacesAfter(w, r, w');
    SlotKept(w, w');
    RemovedSpaces(w, r);
    assert TreeOk(w.m, w.Root(r));
    assert w'.m.Keys + w'.free == w.m.Keys + w.free;
    ChangesOneConserves(w, r, w');
  }

  /** A page table may be torn down exactly when nobody borrows its pages; without a reference count nothing else
      keeps a borrowed snapshot's pages in use. */
  lemma RemoveExact(w: World, r: Ref)
    requires WorldInv(w) && r in w.svs && (r.Inst? ==> w.active != Some(r.id))
    ensures WorldInv(AfterRemove(w, r, w.OwnedOf(r))) <==> !Borrowed(Spaces(w), r)
  {
    RemoveWorld(w, r);
    AddressSpaces.RemoveExact(Spaces(w), r, Spaces(AfterRemove(w, r, w.OwnedOf(r))));
  }

  // ---------- The processor's translations ----------

  /** The processor's walk from the slot's entry. */
  function HwWalk(w: World, v: VPage): Option<Pte> {
    if w.slot.sel then HwXlate(w.m, w.slot.pfn, PDPT_LEVEL, v, w.slot.rw, w.slot.us) else None
  }

  /** The processor's translation of a program's access to v: a cached translation that permits it, or else the result
      of the walk. None is a page fault. */
  function Translated(w: World, v: VPage, write: bool): Option<Pte> {
    if v in w.tlb && w.tlb[v].us && (write ==> w.tlb[v].rw) then Some(w.tlb[v])
    else
      var e := HwWalk(w, v);
      if e.Some? && e.value.us && (write ==> e.value.rw) then e else None
  }

  /** A translation permits the access, in whatever state. */
  lemma TranslationPermits(w: World, v: VPage, write: bool)
    ensures Translated(w, v, write).Some? ==>
              Translated(w, v, write).value.us && (write ==> Translated(w, v, write).value.rw)
  {
  }

  lemma HwWalkIsXlate(w: World, v: VPage)
    requires SlotOk(w) && TreesOk(w)
    ensures HwWalk(w, v) == if w.slot.sel then Xlate(w.m, w.slot.pfn, PDPT_LEVEL, v) else None
    ensures HwWalk(w, v).Some? ==> HwWalk(w, v).value.us
  {
    if w.slot.sel {
      assert TreeOk(w.m, w.Root(Inst(w.active.value)));
      HwXlateIsXlate(w.m, w.slot.pfn, PDPT_LEVEL, v);
      if Xlate(w.m, w.slot.pfn, PDPT_LEVEL, v).Some? {
        LeafEntry(w.m, w.slot.pfn, PDPT_LEVEL, v);
      }
    }
  }

  /** With coherent translations it is the walk's, up to a dirty bit that is not cached yet. */
  lemma TranslatedIsWalked(w: World, v: VPage, write: bool)
    requires SlotOk(w) && TreesOk(w)
    ensures Translated(w, v, write).Some? <==> Resolved(w, v, write)
    ensures Translated(w, v, write).Some? ==>
              var e, t := Xlate(w.m, w.slot.pfn, PDPT_LEVEL, v).value, Translated(w, v, write).value;
              e == t.(dirty := e.dirty)
  {
    HwWalkIsXlate(w, v);
    if v in w.tlb {
      assert Coherent(w.m, w.slot.pfn, v, w.tlb[v]);
    }
  }

  // ---------- Stores by the hardware ----------

  /** A store of the instance in the slot to the page v, through the writable leaf e: the dirty bit is set, the
      page has new bytes, and the translation is cached. */
  function AfterStore(w: World, v: VPage, e: Pte, page: Page): World {
    w.(m := MarkDirty(w.m, w.slot.pfn, PDPT_LEVEL, v)[e.pfn := Data(page)],
       tlb := w.tlb[v := e.(dirty := true)])
  }

  ghost predicate CanStore(w: World, id: nat, v: VPage, e: Pte) {
    && WorldInv(w) && w.active == Some(id) && w.slot.sel
    && Xlate(w.m, w.slot.pfn, PDPT_LEVEL, v) == Some(e) && e.rw
  }

  /** The hardware's dirty bit is a leaf set like any other, and takes no frame. */
  lemma StoreMarks(m: Mem, free: set<Pfn>, root: Pfn, v: VPage, e: Pte)
    requires TreeOk(m, root) && m.Keys !! free && NULL !in m && NULL !in free
    requires Xlate(m, root, PDPT_LEVEL, v) == Some(e) && e.rw && e.pfn in m && m[e.pfn].Data?
    ensures root != NULL
    ensures LeafSet(m, free, root, PDPT_LEVEL, v, e.(dirty := true), MarkDirty(m, root, PDPT_LEVEL, v), free, root)
  {
    assert root != NULL;
    LeafEntry(m, root, PDPT_LEVEL, v);
    LeafOwnedInTree(m, root, PDPT_LEVEL, v);
    MarkDirtySetsLeaf(m, free, root, PDPT_LEVEL, v);
  }

  /** After the dirty bit is set the tree owns what it did. */
  lemma MarkedTree(m: Mem, free: set<Pfn>, root: Pfn, v: VPage, e: Pte)
    requires TreeOk(m, root) && m.Keys !! free && NULL !in m && NULL !in free
    requires Xlate(m, root, PDPT_LEVEL, v) == Some(e) && e.rw && e.pfn in m && m[e.pfn].Data?
    ensures var m1 := MarkDirty(m, root, PDPT_LEVEL, v);
            && TreeOk(m1, root) && m1.Keys == m.Keys
            && TreeOwned(m1, root, PDPT_LEVEL) == TreeOwned(m, root, PDPT_LEVEL)
            && Remaps(m, root, PDPT_LEVEL, v, e.(dirty := true), m1, root)
            && WritesOnlyTables(m, TreeOwned(m, root, PDPT_LEVEL), m1)
            && m1[e.pfn] == m[e.pfn]
  {
    StoreMarks(m, free, root, v, e);
    assert free - free == {};
    LeafOwnedInTree(m, root, PDPT_LEVEL, v);
    PutBack(TreeOwned(m, root, PDPT_LEVEL), e.pfn);
  }

  lemma PutBack<T>(s: set<T>, x: T)
    requires x in s
    ensures (s - {x}) + {x} + {} == s
  {
  }

  lemma PagesPut(m: Mem, f: Pfn, page: Page)
    ensures PagesOf(m[f := Data(page)]) == PagesOf(m)[f := page]
  {
  }

  /** Writing the bytes of a page changes no table. */
  lemma WrittenPage(m1: Mem, root: Pfn, f: Pfn, page: Page)
    requires TreeOk(m1, root) && NULL !in m1 && f in m1 && m1[f].Data?
    ensures var m' := m1[f := Data(page)];
            && TreeOk(m', root) && m'.Keys == m1.Keys
            && TreeOwned(m', root, PDPT_LEVEL) == TreeOwned(m1, root, PDPT_LEVEL)
            && (forall v :: Xlate(m', root, PDPT_LEVEL, v) == Xlate(m1, root, PDPT_LEVEL, v))
  {
    assert m1[f := Data(page)].Keys == m1.Keys;
    TreeKept(m1, m1[f := Data(page)], root, _ => Elf(NULL));
  }

  /** The memory after a store: e is the leaf of v. */
  lemma StoreMem(m: Mem, free: set<Pfn>, root: Pfn, v: VPage, e: Pte, page: Page)
    requires TreeOk(m, root) && m.Keys !! free && NULL !in m && NULL !in free
    requires Xlate(m, root, PDPT_LEVEL, v) == Some(e) && e.rw && e.pfn in m && m[e.pfn].Data?
    ensures var m' := MarkDirty(m, root, PDPT_LEVEL, v)[e.pfn := Data(page)];
            && TreeOk(m', root) && m'.Keys == m.Keys
            && TreeOwned(m', root, PDPT_LEVEL) == TreeOwned(m, root, PDPT_LEVEL)
            && Remaps(m, root, PDPT_LEVEL, v, e.(dirty := true), m', root)
  {
    MarkedTree(m, free, root, v, e);
    WrittenPage(MarkDirty(m, root, PDPT_LEVEL, v), root, e.pfn, page);
  }

  lemma StorePages(m: Mem, free: set<Pfn>, root: Pfn, v: VPage, e: Pte, page: Page)
    requires TreeOk(m, root) && m.Keys !! free && NULL !in m && NULL !in free
    requires Xlate(m, root, PDPT_LEVEL, v) == Some(e) && e.rw && e.pfn in m && m[e.pfn].Data?
    ensures PagesOf(MarkDirty(m, root, PDPT_LEVEL, v)[e.pfn := Data(page)]) == PagesOf(m)[e.pfn := page]
  {
    MarkedTree(m, free, root, v, e);
    var m1 := MarkDirty(m, root, PDPT_LEVEL, v);
    assert m1.Keys == m.Keys + {};
    SamePages(m, TreeOwned(m, root, PDPT_LEVEL), m1, {});
    PagesPut(m1, e.pfn, page);
  }

  /** What the tree does not own is not written, but for the page itself. */
  lemma StoreKeeps(m: Mem, free: set<Pfn>, root: Pfn, v: VPage, e: Pte, page: Page, s: set<Pfn>)
    requires TreeOk(m, root) && m.Keys !! free && NULL !in m && NULL !in free
    requires Xlate(m, root, PDPT_LEVEL, v) == Some(e) && e.rw && e.pfn in m && m[e.pfn].Data?
    requires s !! TreeOwned(m, root, PDPT_LEVEL)
    ensures TablesKept(m, MarkDirty(m, root, PDPT_LEVEL, v)[e.pfn := Data(page)], s)
  {
    MarkedTree(m, free, root, v, e);
    OthersUntouched(m, m, TreeOwned(m, root, PDPT_LEVEL), MarkDirty(m, root, PDPT_LEVEL, v), s);
  }

  lemma StoreChangesOne(w: World, id: nat, v: VPage, e: Pte, page: Page)
    requires FramesOk(w) && TreesOk(w) && SlotOk(w) && w.active == Some(id) && w.slot.sel
    requires Xlate(w.m, w.slot.pfn, PDPT_LEVEL, v) == Some(e) && e.rw && e.pfn in w.m && w.m[e.pfn].Data?
    ensures ChangesOne(w, Inst(id), AfterStore(w, v, e, page))
    ensures SlotOk(AfterStore(w, v, e, page))
  {
    var me, root := Inst(id), w.slot.pfn;
    var w' := AfterStore(w, v, e, page);
    assert w.Root(me) == root && TreeOk(w.m, root);
    StoreMem(w.m, w.free, root, v, e, page);
    OwnedInAll(w, me);
    forall s: set<Pfn> | s !! w.OwnedOf(me)
      ensures TablesKept(w.m, w'.m, s)
    {
      StoreKeeps(w.m, w.free, root, v, e, page, s);
    }
    SameFramesChangesOne(w, me, w');
    StoreSlot(w, v, e, page);
  }

  /** A step that keeps the frames in use, what me's table owns, and everything outside it. */
  lemma SameFramesChangesOne(w: World, me: Ref, w': World)
    requires FramesOk(w) && TreesOk(w) && me in w.svs
    requires w'.svs == w.svs && w'.active == w.active && w'.slot == w.slot
    requires w'.elf == w.elf && w'.leaked == w.leaked && w'.free == w.free && w'.m.Keys == w.m.Keys
    requires TreeOk(w'.m, w.Root(me)) && TreeOwned(w'.m, w.Root(me), PDPT_LEVEL) == w.OwnedOf(me)
    requires forall s: set<Pfn> :: s !! w.OwnedOf(me) ==> TablesKept(w.m, w'.m, s)
    ensures ChangesOne(w, me, w')
  {
  }

  /** The written page's translation is the new leaf, and the others keep theirs. */
  lemma StoreSlot(w: World, v: VPage, e: Pte, page: Page)
    requires SlotOk(w) && w.active.Some? && w.slot.sel
    requires Xlate(w.m, w.slot.pfn, PDPT_LEVEL, v) == Some(e)
    requires Remaps(w.m, w.slot.pfn, PDPT_LEVEL, v, e.(dirty := true), AfterStore(w, v, e, page).m, w.slot.pfn)
    ensures SlotOk(AfterStore(w, v, e, page))
  {
    var w' := AfterStore(w, v, e, page);
    assert v.SameUpTo(v, PDPT_LEVEL) && Xlate(w'.m, w.slot.pfn, PDPT_LEVEL, v).Some?;
    forall x | x in w'.tlb
      ensures Coherent(w'.m, w.slot.pfn, x, w'.tlb[x])
    {
      assert x != v ==> Coherent(w.m, w.slot.pfn, x, w.tlb[x]);
      assert x.SameUpTo(v, PDPT_LEVEL) <==> x == v;
    }
  }

  /** A store is the write of the address-space machine. */
  lemma StoreDone(build: Build, w: World, id: nat, v: VPage, e: Pte, page: Page)
    requires CanStore(w, id, v, e)
    ensures var w' := AfterStore(w, v, e, page);
            Does(build, w, Inst(id), Event.Write(id, v, page), w')
  {
    LeafKnown(w, Inst(id), v);
    StoreWorld(w, id, v, e, page);
    Finish(build, w, Inst(id), Event.Write(id, v, page), AfterStore(w, v, e, page));
  }

  lemma StoreWorld(w: World, id: nat, v: VPage, e: Pte, page: Page)
    requires FramesOk(w) && TreesOk(w) && SlotOk(w) && w.active == Some(id) && w.slot.sel
    requires Xlate(w.m, w.slot.pfn, PDPT_LEVEL, v) == Some(e) && e.rw && e.pfn in w.m && w.m[e.pfn].Data?
    ensures var w' := AfterStore(w, v, e, page);
            var sp := SpaceOf(w.m, w.slot.pfn, w.svs[Inst(id)].image);
            && FramesOk(w') && TreesOk(w') && SlotOk(w') && Conserves(w, Inst(id), w')
            && Spaces(w').elf == Spaces(w).elf && Spaces(w').pages == Spaces(w).pages[e.pfn := page]
            && Spaces(w).spaces[Inst(id)] == sp
            && Spaces(w').spaces ==
               Spaces(w).spaces[Inst(id) := AddressSpaces.SetLeaf(sp, v, LeafOf(e.(dirty := true)))]
  {
    var me := Inst(id);
    var w' := AfterStore(w, v, e, page);
    StoreChangesOne(w, id, v, e, page);
    FramesKept(w, me, w');
    SpacesAfter(w, me, w');
    StoreLeaves(w, id, v, e, page);
    StoreTotal(w, id, v, e, page);
    ChangesOneConserves(w, me, w');
  }

  lemma StoreTotal(w: World, id: nat, v: VPage, e: Pte, page: Page)
    requires FramesOk(w) && TreesOk(w) && SlotOk(w) && w.active == Some(id) && w.slot.sel
    requires Xlate(w.m, w.slot.pfn, PDPT_LEVEL, v) == Some(e) && e.rw && e.pfn in w.m && w.m[e.pfn].Data?
    ensures AfterStore(w, v, e, page).m.Keys == w.m.Keys
  {
  }

  lemma StoreLeaves(w: World, id: nat, v: VPage, e: Pte, page: Page)
    requires FramesOk(w) && TreesOk(w) && SlotOk(w) && w.active == Some(id) && w.slot.sel
    requires Xlate(w.m, w.slot.pfn, PDPT_LEVEL, v) == Some(e) && e.rw && e.pfn in w.m && w.m[e.pfn].Data?
    ensures var w' := AfterStore(w, v, e, page);
            && PagesOf(w'.m) == PagesOf(w.m)[e.pfn := page]
            && forall image :: SpaceOf(w'.m, w.slot.pfn, image) ==
                 AddressSpaces.SetLeaf(SpaceOf(w.m, w.slot.pfn, image), v, LeafOf(e.(dirty := true)))
  {
    var root := w.slot.pfn;
    assert w.Root(Inst(id)) == root && TreeOk(w.m, root);
    StoreMem(w.m, w.free, root, v, e, page);
    StorePages(w.m, w.free, root, v, e, page);
    forall image
      ensures SpaceOf(AfterStore(w, v, e, page).m, root, image) ==
              AddressSpaces.SetLeaf(SpaceOf(w.m, root, image), v, LeafOf(e.(dirty := true)))
    {
      RemappedSpace(w.m, root, v, e.(dirty := true), AfterStore(w, v, e, page).m, root, image);
    }
  }

  // ---------- Booting, and the slot ----------

  /** A new instance of a state vector without a page table. */
  function AfterBoot(w: World, id: nat, image: Image): World {
    w.(svs := w.svs[Inst(id) := Sv(NULL, image)])
  }

  lemma BootDone(build: Build, w: World, id: nat, image: Image)
    requires WorldInv(w) && Inst(id) !in w.svs
    requires forall v :: image(v).Elf? ==> image(v).frame in w.elf
    ensures var w' := AfterBoot(w, id, image);
            Does(build, w, Inst(id), Event.Boot(id, image), w')
  {
    var w' := AfterBoot(w, id, image);
    BootWorld(w, id, image);
    Finish(build, w, Inst(id), Event.Boot(id, image), w');
  }

  lemma BootWorld(w: World, id: nat, image: Image)
    requires FramesOk(w) && TreesOk(w) && SlotOk(w) && Inst(id) !in w.svs
    ensures var w' := AfterBoot(w, id, image);
            && FramesOk(w') && TreesOk(w') && SlotOk(w') && Conserves(w, Inst(id), w')
            && Spaces(w') == Spaces(w).(spaces := Spaces(w).spaces[Inst(id) := Space(imap[], image)])
  {
    var me := Inst(id);
    var w' := AfterBoot(w, id, image);
    BootGrew(w, id, image);
    TableGrewChangesOne(w, me, w.m, w');
    FramesKept(w, me, w');
    SpacesAfter(w, me, w');
    SlotSame(w, w');
    ChangesOneConserves(w, me, w');
    NoLeaves(w.m, image);
  }

  lemma BootGrew(w: World, id: nat, image: Image)
    requires w.m.Keys !! w.free && NULL !in w.m && NULL !in w.free && SlotOk(w) && Inst(id) !in w.svs
    ensures TableGrew(w, Inst(id), w.m, AfterBoot(w, id, image)) && AfterBoot(w, id, image).Root(Inst(id)) == NULL
  {
  }

  lemma NoLeaves(m: Mem, image: Image)
    requires NULL !in m
    ensures SpaceOf(m, NULL, image) == Space(imap[], image)
  {
  }

  /** slot_load_instance: the page table of the instance is installed if it has one. */
  function AfterLoad(w: World, id: nat): World
    requires Inst(id) in w.svs
  {
    w.(active := Some(id), slot := if w.svs[Inst(id)].root != NULL then SlotPte(w.svs[Inst(id)].root) else w.slot)
  }

  /** slot_unload_instance: the slot entry is cleared and the translations are flushed. A table that only the
      slot knew is lost. */
  function AfterUnload(w: World, owned: set<Pfn>): World
    requires w.active.Some? && Inst(w.active.value) in w.svs
  {
    w.(active := None, slot := ZERO_PTE, tlb := map[],
       leaked := if w.svs[Inst(w.active.value)].root == NULL then w.leaked + owned else w.leaked)
  }

  /** The processor caches a translation it walked. */
  function AfterFill(w: World, v: VPage, e: Pte): World {
    w.(tlb := w.tlb[v := e])
  }

  /** flushTranslationCaches. */
  function AfterFlush(w: World): World {
    w.(tlb := map[])
  }

  /** What becomes of the cached translations, the only thing that a fill or a flush changes: a fill and a store keep
      the page's, a store with its dirty bit, and those of other pages; a flush keeps none. */
  lemma CachesAfter(w: World, v: VPage, e: Pte, page: Page)
    ensures AfterFill(w, v, e).tlb.Keys == w.tlb.Keys + {v} && AfterFill(w, v, e).tlb[v] == e
    ensures AfterStore(w, v, e, page).tlb.Keys == w.tlb.Keys + {v} && AfterStore(w, v, e, page).tlb[v].dirty
    ensures forall x :: x in w.tlb && x != v ==>
              AfterFill(w, v, e).tlb[x] == w.tlb[x] && AfterStore(w, v, e, page).tlb[x] == w.tlb[x]
    ensures |AfterFlush(w).tlb| == 0
    ensures AfterFill(w, v, e).(tlb := w.tlb) == w == AfterFlush(w).(tlb := w.tlb)
  {
  }

  /** Worlds with the same tables have the same address spaces. */
  lemma SameRoots(w: World, w': World)
    requires WorldInv(w) && w'.m == w.m && w'.free == w.free && w'.elf == w.elf && w'.leaked == w.leaked
    requires w'.svs == w.svs && (forall r :: r in w.svs ==> w'.Root(r) == w.Root(r)) && SlotOk(w')
    ensures WorldInv(w') && Spaces(w') == Spaces(w)
    ensures forall me :: Conserves(w, me, w')
  {
    assert forall r :: w'.OwnedOf(r) == w.OwnedOf(r);
    assert w'.AllOwned() == w.AllOwned();
    assert Spaces(w').spaces == Spaces(w).spaces;
  }

  lemma LoadDone(w: World, id: nat)
    requires WorldInv(w) && w.active.None? && Inst(id) in w.svs
    ensures WorldInv(AfterLoad(w, id)) && Spaces(AfterLoad(w, id)) == Spaces(w)
    ensures forall me :: Conserves(w, me, AfterLoad(w, id))
  {
    SameRoots(w, AfterLoad(w, id));
  }

  lemma FillDone(w: World, v: VPage, e: Pte)
    requires WorldInv(w) && w.active.Some? && w.slot.sel && Xlate(w.m, w.slot.pfn, PDPT_LEVEL, v) == Some(e)
    ensures WorldInv(AfterFill(w, v, e)) && Spaces(AfterFill(w, v, e)) == Spaces(w)
    ensures forall me :: Conserves(w, me, AfterFill(w, v, e))
  {
    FillSlot(w, v, e);
    SameRoots(w, AfterFill(w, v, e));
  }

  lemma FillSlot(w: World, v: VPage, e: Pte)
    requires SlotOk(w) && w.active.Some? && w.slot.sel && Xlate(w.m, w.slot.pfn, PDPT_LEVEL, v) == Some(e)
    ensures SlotOk(AfterFill(w, v, e))
  {
    forall x | x in AfterFill(w, v, e).tlb
      ensures Coherent(w.m, w.slot.pfn, x, AfterFill(w, v, e).tlb[x])
    {
      assert x != v ==> Coherent(w.m, w.slot.pfn, x, w.tlb[x]);
    }
  }

  lemma UnloadDone(w: World)
    requires WorldInv(w) && w.active.Some? && w.svs[Inst(w.active.value)].root != NULL
    ensures WorldInv(AfterUnload(w, w.OwnedOf(Inst(w.active.value))))
    ensures Spaces(AfterUnload(w, w.OwnedOf(Inst(w.active.value)))) == Spaces(w)
    ensures forall me :: Conserves(w, me, AfterUnload(w, w.OwnedOf(Inst(w.active.value))))
  {
    SameRoots(w, AfterUnload(w, w.OwnedOf(Inst(w.active.value))));
  }

  lemma UnloadLoses(w: World)
    requires WorldInv(w) && w.active.Some? && w.svs[Inst(w.active.value)].root == NULL
    ensures var me := Inst(w.active.value);
            var w' := AfterUnload(w, w.OwnedOf(me));
            && WorldInv(w')
            && Spaces(w') == Spaces(w).(spaces := Spaces(w).spaces[me := Space(imap[], w.svs[me].image)])
            && w'.leaked == w.leaked + w.OwnedOf(me) && w.leaked !! w.OwnedOf(me)
            && (w.OwnedOf(me) != {} <==> w.slot.sel)
  {
    var me := Inst(w.active.value);
    var w' := AfterUnload(w, w.OwnedOf(me));
    TableOwnsItself(w.m, w.Root(me));
    assert w'.Root(me) == NULL && w'.OwnedOf(me) == {};
    OwnedInAll(w, me);
    UnloadChangesOne(w);
    FramesKept(w, me, w');
    SpacesAfter(w, me, w');
    assert SpaceOf(w.m, NULL, w.svs[me].image) == Space(imap[], w.svs[me].image);
    LeavesLost(Spaces(w), me);
  }

  lemma TableOwnsItself(m: Mem, root: Pfn)
    ensures TreeOwned(m, root, PDPT_LEVEL) != {} <==> root != NULL
  {
    if root != NULL {
      assert root in Owned(m, root, PDPT_LEVEL);
    }
  }

  lemma UnloadChangesOne(w: World)
    requires FramesOk(w) && TreesOk(w) && SlotOk(w) && w.active.Some? && w.svs[Inst(w.active.value)].root == NULL
    ensures ChangesOne(w, Inst(w.active.value), AfterUnload(w, w.OwnedOf(Inst(w.active.value))))
  {
    var me := Inst(w.active.value);
    var w' := AfterUnload(w, w.OwnedOf(me));
    assert TreeOk(w.m, w.Root(me));
    assert w'.OwnedOf(me) == {};
    assert w'.m.Keys - {} - w'.leaked == w.m.Keys - w.OwnedOf(me) - w.leaked;
  }

  /** Swapping an instance out and in again keeps every translation exactly when its state vector knows its page
      table; a table built by the first faults of a fresh boot is never stored there, and is lost. */
  lemma SwapKeepsLeaves(w: World)
    requires WorldInv(w) && w.active.Some? && w.slot.sel
    ensures var id := w.active.value;
            var w' := AfterLoad(AfterUnload(w, w.OwnedOf(Inst(id))), id);
            && WorldInv(w')
            && (Spaces(w').spaces[Inst(id)] == Spaces(w).spaces[Inst(id)] <==> w.svs[Inst(id)].root != NULL)
  {
    var me := Inst(w.active.value);
    if w.svs[me].root != NULL {
      UnloadDone(w);
    } else {
      UnloadLoses(w);
      assert MapsSome(w.m, w.slot.pfn);
      var v :| Xlate(w.m, w.slot.pfn, PDPT_LEVEL, v).Some?;
      assert v in Spaces(w).spaces[me].leaves;
    }
    LoadDone(AfterUnload(w, w.OwnedOf(me)), w.active.value);
  }

  /** The bytes on the frame of a mapped page are the ones the instance shows there. */
  lemma SeenBytes(w: World, id: nat, v: VPage, e: Pte)
    requires WorldInv(w) && w.active == Some(id) && w.slot.sel && Xlate(w.m, w.slot.pfn, PDPT_LEVEL, v) == Some(e)
    ensures Inst(id) in Abstract(Spaces(w)).views && e.pfn in w.m && w.m[e.pfn].Data?
    ensures Abstract(Spaces(w)).views[Inst(id)][v] == w.m[e.pfn].bytes
  {
    LeafKnown(w, Inst(id), v);
    assert ViewOf(PagesOf(w.m), Spaces(w).spaces[Inst(id)])[v] == PageOf(PagesOf(w.m), e.pfn);
  }

  /** What the hardware's verdict of a fault means for the address-space machine. */
  lemma FaultMeans(w: World, id: nat, v: VPage, write: bool)
    requires WorldInv(w) && w.active == Some(id)
    requires !Resolved(w, v, write) && (write ==> w.svs[Inst(id)].image(v).Fill?)
    ensures CanFault(w, id, v, w.slot.sel && Xlate(w.m, w.slot.pfn, PDPT_LEVEL, v).Some?, write)
  {
  }

  lemma FlushDone(w: World)
    requires WorldInv(w)
    ensures WorldInv(AfterFlush(w)) && Spaces(AfterFlush(w)) == Spaces(w)
    ensures forall me :: Conserves(w, me, AfterFlush(w))
  {
    SameRoots(w, AfterFlush(w));
  }

  /** The ideal machine apart from one space. */
  ghost predicate SameApart(i: Ideal, r: Ref, i': Ideal) {
    i'.rom == i.rom && i'.views - {r} == i.views - {r}
  }

  /** From w to w' nothing but the space me changed, neither its bytes nor its frames. */
  ghost predicate Private(w: World, me: Ref, w': World) {
    WorldInv(w') && Conserves(w, me, w') && SameApart(Abstract(Spaces(w)), me, Abstract(Spaces(w')))
  }

  lemma PrivateOn(w: World, me: Ref, w1: World, w2: World)
    requires Private(w, me, w1) && Private(w1, me, w2)
    ensures Private(w, me, w2)
  {
  }

  lemma OwnEvent(i: Ideal, e: Event, id: nat)
    requires (e.Deploy? && e.id == id) || (e.Write? && e.id == id) || (e.EndInstance? && e.id == id) || e.Fault?
    ensures SameApart(i, Inst(id), IdealStep(i, e))
  {
  }

  /** What an instance does is private. */
  lemma PrivateEvent(w: World, e: Event, id: nat, w': World)
    requires (e.Deploy? && e.id == id) || (e.Write? && e.id == id) || (e.EndInstance? && e.id == id) || e.Fault?
    requires WorldInv(w') && Conserves(w, Inst(id), w')
    requires Abstract(Spaces(w')) == IdealStep(Abstract(Spaces(w)), e)
    ensures Private(w, Inst(id), w')
  {
    OwnEvent(Abstract(Spaces(w)), e, id);
  }

  lemma PrivateSame(w: World, me: Ref, w': World)
    requires WorldInv(w') && Conserves(w, me, w') && Abstract(Spaces(w')) == Abstract(Spaces(w))
    ensures Private(w, me, w')
  {
  }

  lemma NothingApart(i: Ideal, r: Ref, i': Ideal)
    requires SameApart(i, r, i') && r !in i.views && r !in i'.views
    ensures i' == i
  {
    assert i.views - {r} == i.views && i'.views - {r} == i'.views;
  }

  /** A private life that ends where it began leaves no trace. */
  lemma PrivateNothing(w: World, me: Ref, w': World)
    requires WorldInv(w) && Private(w, me, w') && me !in w.svs && me !in w'.svs
    ensures w'.free == w.free && Abstract(Spaces(w')) == Abstract(Spaces(w))
  {
    FreePlusOwned(w, me, w');
    NothingApart(Abstract(Spaces(w)), me, Abstract(Spaces(w')));
  }

  /** An instance deployed from a snapshot that maps some page has a page table. */
  lemma DeployedRoot(build: Build, w: World, snap: nat, id: nat, w': World)
    requires WorldInv(w) && Snap(snap) in w.svs && Does(build, w, Inst(id), Event.Deploy(snap, id), w')
    requires w'.active != Some(id) && exists v :: v in Spaces(w).spaces[Snap(snap)].leaves
    ensures Inst(id) in w'.svs && w'.svs[Inst(id)].root != NULL
  {
    var v :| v in Spaces(w).spaces[Snap(snap)].leaves;
    assert LeafInv(Spaces(w).pages, w.elf, Snap(snap), Spaces(w).spaces[Snap(snap)], v);
    assert Inst(id) in Spaces(w').spaces && v in Spaces(w').spaces[Inst(id)].leaves;
    LeafKnown(w', Inst(id), v);
  }
}
