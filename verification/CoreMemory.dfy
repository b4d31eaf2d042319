/** The memory of one core's manager at one moment: physical memory, every state vector with its page table,
    the slot entry and the cached translations; its invariant, and the address spaces it represents. */
module CoreMemory {
  import opened Layout
  import opened Wrappers
  import opened PageTree
  import opened AddressSpaces

  /** A state vector: the root of its page table (null before the first fault) and its region list. */
  datatype Sv = Sv(root: Pfn, image: Image)

  datatype World = World(
    m: Mem,
    free: set<Pfn>,
    elf: set<Pfn>,           // frames of the loaded ELF images
    leaked: set<Pfn>,        // frames in use that nothing reaches any more
    svs: map<Ref, Sv>,
    active: Option<nat>,     // the instance in the slot
    slot: Pte,               // the slot's PML4 entry
    tlb: map<VPage, Pte>)    // cached translations of slot pages
  {
    /** The page table of r: for the instance in the slot the installed one. */
    function Root(r: Ref): Pfn
      requires r in svs
    {
      if r.Inst? && active == Some(r.id) && slot.sel then slot.pfn else svs[r].root
    }

    ghost function OwnedOf(r: Ref): set<Pfn> {
      if r in svs then TreeOwned(m, Root(r), PDPT_LEVEL) else {}
    }

    ghost function AllOwned(): set<Pfn> {
      set r, f | r in svs && f in OwnedOf(r) :: f
    }
  }

  ghost predicate TreeOk(m: Mem, root: Pfn) {
    && IsTreeOrNull(m, root, PDPT_LEVEL)
    && TreeOwned(m, root, PDPT_LEVEL) <= m.Keys
    && AllAccessed(m, TreeOwned(m, root, PDPT_LEVEL))
  }

  /** Without an instance the slot entry is clear and nothing is cached; the page table of an instance with one
      is installed; a table that only the slot knows was made by a fault; and a cached translation agrees with
      the walk of the installed table. */
  ghost predicate SlotOk(w: World) {
    && (w.active.None? ==> !w.slot.sel && w.tlb == map[])
    && (w.active.Some? ==> Inst(w.active.value) in w.svs && Installed(w, w.svs[Inst(w.active.value)].root))
    && (w.active.Some? && w.slot.sel && w.svs[Inst(w.active.value)].root == NULL ==> MapsSome(w.m, w.slot.pfn))
    && (w.slot.sel ==> w.slot.pfn != NULL)
    && (w.slot == ZERO_PTE || w.slot == SetPte(w.slot.pfn, false, true, true, true))
    && forall v :: v in w.tlb ==> w.slot.sel && Coherent(w.m, w.slot.pfn, v, w.tlb[v])
  }

  ghost predicate MapsSome(m: Mem, root: Pfn) {
    exists v :: Xlate(m, root, PDPT_LEVEL, v).Some?
  }

  ghost predicate Installed(w: World, root: Pfn) {
    root != NULL ==> w.slot.sel && w.slot.pfn == root
  }

  ghost predicate Coherent(m: Mem, root: Pfn, v: VPage, cached: Pte) {
    && Xlate(m, root, PDPT_LEVEL, v).Some?
    && var e := Xlate(m, root, PDPT_LEVEL, v).value;
       e == cached.(dirty := e.dirty) && (cached.dirty ==> e.dirty)
  }

  /** Every frame is free, or an ELF frame, or leaked, or owned by exactly one page table. */
  ghost predicate FramesOk(w: World) {
    && w.m.Keys !! w.free && NULL !in w.m && NULL !in w.free
    && (forall f :: f in w.elf ==> f in w.m && w.m[f].Data?)
    && w.m.Keys == w.elf + w.leaked + w.AllOwned()
    && w.elf !! w.leaked && w.elf !! w.AllOwned() && w.leaked !! w.AllOwned()
    && (forall r, r' :: r in w.svs && r' in w.svs && r != r' ==> w.OwnedOf(r) !! w.OwnedOf(r'))
  }

  ghost predicate TreesOk(w: World) {
    forall r :: r in w.svs ==> TreeOk(w.m, w.Root(r))
  }

  // ---------- The address spaces ----------

  ghost function SpaceOf(m: Mem, root: Pfn, image: Image): Space {
    Space(imap v | Xlate(m, root, PDPT_LEVEL, v).Some? :: LeafOf(Xlate(m, root, PDPT_LEVEL, v).value), image)
  }

  function LeafOf(e: Pte): Leaf {
    Leaf(e.pfn, e.rw, e.dirty)
  }

  ghost function PagesOf(m: Mem): map<Pfn, Page> {
    map f | f in m && m[f].Data? :: m[f].bytes
  }

  ghost function Spaces(w: World): State {
    State(PagesOf(w.m), w.elf, map r | r in w.svs :: SpaceOf(w.m, w.Root(r), w.svs[r].image))
  }

  ghost predicate WorldInv(w: World) {
    FramesOk(w) && TreesOk(w) && SlotOk(w) && Inv(Spaces(w))
  }

  // ---------- Steps that change one page table ----------

  /** The frames of s keep their kind, and the tables their entries. */
  ghost predicate TablesKept(m: Mem, m': Mem, s: set<Pfn>) {
    forall f :: f in s && f in m ==> f in m' && (m[f].Table? ==> m'[f] == m[f]) && (m[f].Data? ==> m'[f].Data?)
  }

  lemma SpaceIs(m: Mem, root: Pfn, image: Image, leaves: imap<VPage, Leaf>)
    requires forall v :: v in leaves <==> Xlate(m, root, PDPT_LEVEL, v).Some?
    requires forall v :: v in leaves ==> leaves[v] == LeafOf(Xlate(m, root, PDPT_LEVEL, v).value)
    ensures SpaceOf(m, root, image) == Space(leaves, image)
  {
    assert SpaceOf(m, root, image).leaves == leaves;
  }

  lemma SameLeaves(m: Mem, root: Pfn, m': Mem, root': Pfn, image: Image)
    requires forall v :: Xlate(m', root', PDPT_LEVEL, v) == Xlate(m, root, PDPT_LEVEL, v)
    ensures SpaceOf(m', root', image) == SpaceOf(m, root, image)
  {
    SpaceIs(m', root', image, SpaceOf(m, root, image).leaves);
  }

  lemma TreeKept(m: Mem, m': Mem, root: Pfn, image: Image)
    requires TreeOk(m, root) && NULL !in m && NULL !in m'
    requires TablesKept(m, m', TreeOwned(m, root, PDPT_LEVEL))
    ensures TreeOk(m', root) && TreeOwned(m', root, PDPT_LEVEL) == TreeOwned(m, root, PDPT_LEVEL)
    ensures SpaceOf(m', root, image) == SpaceOf(m, root, image)
    ensures forall v :: Xlate(m', root, PDPT_LEVEL, v) == Xlate(m, root, PDPT_LEVEL, v)
  {
    if root != NULL {
      TreeFrame(m, m', root, PDPT_LEVEL);
      forall f, i: Ix | f in Owned(m, root, PDPT_LEVEL)
        ensures Ent(m', f, i) == Ent(m, f, i)
      {
      }
    }
    SameLeaves(m, root, m', root, image);
  }

  /** From w to w' only the page table of me changes: the other tables and the ELF frames are kept, and the
      frames in use that neither me nor the leak accounts for are the same. */
  ghost predicate ChangesOne(w: World, me: Ref, w': World) {
    && w'.m.Keys !! w'.free && NULL !in w'.m && NULL !in w'.free
    && w'.elf == w.elf && w.leaked <= w'.leaked <= w.leaked + w.OwnedOf(me)
    && (forall r :: r != me ==> (r in w'.svs <==> r in w.svs))
    && (forall r :: r in w.svs && r != me ==>
          w'.svs[r] == w.svs[r] && w'.Root(r) == w.Root(r) && TablesKept(w.m, w'.m, w.OwnedOf(r)))
    && TablesKept(w.m, w'.m, w.elf)
    && (me in w'.svs ==> TreeOk(w'.m, w'.Root(me)))
    && w'.m.Keys - w'.OwnedOf(me) - w'.leaked == w.m.Keys - w.OwnedOf(me) - w.leaked
    && w'.leaked !! w'.OwnedOf(me) && w'.leaked <= w'.m.Keys
  }

  lemma OwnedInAll(w: World, r: Ref)
    ensures w.OwnedOf(r) <= w.AllOwned()
  {
  }

  lemma OthersKept(w: World, me: Ref, w': World)
    requires FramesOk(w) && TreesOk(w) && ChangesOne(w, me, w')
    ensures TreesOk(w')
    ensures forall r :: r != me ==> w'.OwnedOf(r) == w.OwnedOf(r)
    ensures forall r :: r in w.svs && r != me ==>
              SpaceOf(w'.m, w'.Root(r), w'.svs[r].image) == SpaceOf(w.m, w.Root(r), w.svs[r].image)
  {
    forall r | r in w.svs && r != me
      ensures TreeOk(w'.m, w'.Root(r)) && w'.OwnedOf(r) == w.OwnedOf(r)
      ensures SpaceOf(w'.m, w'.Root(r), w'.svs[r].image) == SpaceOf(w.m, w.Root(r), w.svs[r].image)
    {
      TreeKept(w.m, w'.m, w.Root(r), w.svs[r].image);
    }
  }

  /** What the tables own together changes by what me's table owns. */
  lemma AllOwnedAfter(w: World, me: Ref, w': World)
    requires FramesOk(w)
    requires forall r :: r != me ==> (r in w'.svs <==> r in w.svs) && w'.OwnedOf(r) == w.OwnedOf(r)
    ensures w'.AllOwned() == (w.AllOwned() - w.OwnedOf(me)) + w'.OwnedOf(me)
  {
    forall f
      ensures f in w'.AllOwned() <==> f in (w.AllOwned() - w.OwnedOf(me)) + w'.OwnedOf(me)
    {
      if f in w.AllOwned() && f !in w.OwnedOf(me) {
        var r :| r in w.svs && f in w.OwnedOf(r);
        assert f in w'.OwnedOf(r);
      }
      if f in w'.AllOwned() && f !in w'.OwnedOf(me) {
        var r :| r in w'.svs && f in w'.OwnedOf(r);
        assert r != me && f in w.OwnedOf(r);
        assert me in w.svs ==> w.OwnedOf(r) !! w.OwnedOf(me);
      }
    }
  }

  /** The arithmetic of the partition: keys = elf + leaked + all, and me's part goes from mine to mine'. */
  lemma Repartition<T>(keys: set<T>, elf: set<T>, leaked: set<T>, all: set<T>, mine: set<T>,
                       keys': set<T>, leaked': set<T>, mine': set<T>)
    requires keys == elf + leaked + all && elf !! leaked && elf !! all && leaked !! all
    requires mine <= all && mine' <= keys' && elf <= keys' && all - mine <= keys'
    requires leaked <= leaked' <= leaked + mine && leaked' <= keys' && leaked' !! mine'
    requires keys' - mine' - leaked' == keys - mine - leaked
    ensures keys' == elf + leaked' + ((all - mine) + mine')
    ensures elf !! leaked' && elf !! (all - mine) + mine' && leaked' !! (all - mine) + mine'
    ensures all - mine !! mine'
  {
    var rest := keys - mine - leaked;
    assert rest == elf + (all - mine);
    assert keys' == rest + mine' + leaked';
    assert rest !! mine' && rest !! leaked';
  }

  /** The frames stay partitioned. */
  lemma FramesKept(w: World, me: Ref, w': World)
    requires FramesOk(w) && TreesOk(w) && ChangesOne(w, me, w')
    ensures FramesOk(w') && TreesOk(w')
  {
    OthersKept(w, me, w');
    OwnedInAll(w, me);
    AllOwnedAfter(w, me, w');
    OthersInUse(w, me, w');
    Repartition(w.m.Keys, w.elf, w.leaked, w.AllOwned(), w.OwnedOf(me), w'.m.Keys, w'.leaked, w'.OwnedOf(me));
    forall r | r in w.svs && r != me
      ensures w'.OwnedOf(r) !! w'.OwnedOf(me)
    {
      OwnedInAll(w, r);
      assert me in w.svs ==> w.OwnedOf(r) !! w.OwnedOf(me);
      assert w.OwnedOf(r) <= w.AllOwned() - w.OwnedOf(me);
    }
  }

  lemma OthersInUse(w: World, me: Ref, w': World)
    requires FramesOk(w) && TreesOk(w) && ChangesOne(w, me, w')
    ensures w.elf <= w'.m.Keys && w'.OwnedOf(me) <= w'.m.Keys
    ensures w.AllOwned() - w.OwnedOf(me) <= w'.m.Keys
  {
    forall f | f in w.AllOwned() - w.OwnedOf(me)
      ensures f in w'.m
    {
      var r :| r in w.svs && f in w.OwnedOf(r);
      assert TreeOk(w.m, w.Root(r));
    }
  }

  /** The address spaces of the others are the same, and me's is the one its new table gives. */
  lemma SpacesAfter(w: World, me: Ref, w': World)
    requires FramesOk(w) && TreesOk(w) && ChangesOne(w, me, w')
    ensures Spaces(w').spaces ==
            if me in w'.svs then Spaces(w).spaces[me := SpaceOf(w'.m, w'.Root(me), w'.svs[me].image)]
            else Spaces(w).spaces - {me}
  {
    OthersKept(w, me, w');
    SameBut(Spaces(w).spaces, me, Spaces(w').spaces);
  }

  /** No frame is gained or lost, and nothing but me's table owns other frames than before. */
  ghost predicate Conserves(w: World, me: Ref, w': World) {
    && w'.m.Keys + w'.free == w.m.Keys + w.free && w'.elf == w.elf && w'.leaked == w.leaked
    && forall r :: r != me ==> (r in w'.svs <==> r in w.svs) && w'.OwnedOf(r) == w.OwnedOf(r)
  }

  lemma ChangesOneConserves(w: World, me: Ref, w': World)
    requires FramesOk(w) && TreesOk(w) && ChangesOne(w, me, w')
    requires w'.leaked == w.leaked && w'.m.Keys + w'.free == w.m.Keys + w.free
    ensures Conserves(w, me, w')
  {
    OthersKept(w, me, w');
  }

  lemma ConservesOn(w: World, me: Ref, w1: World, w2: World)
    requires Conserves(w, me, w1) && Conserves(w1, me, w2)
    ensures Conserves(w, me, w2)
  {
  }

  /** Then the free frames and me's frames together stay the same. */
  lemma FreePlusOwned(w: World, me: Ref, w': World)
    requires FramesOk(w) && FramesOk(w') && Conserves(w, me, w')
    ensures w'.free + w'.OwnedOf(me) == w.free + w.OwnedOf(me)
  {
  }
}
