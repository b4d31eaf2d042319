/** Address spaces seen as maps from pages to leaves over shared frames: the steps of the page-fault,
    checkpoint, deployment and teardown paths, and the ideal machine they implement, in which every
    instance and every snapshot simply has its own bytes. */
module AddressSpaces {
  import opened Layout
  import opened PageTree
  import opened TreeWalk

  datatype Leaf = Leaf(frame: Pfn, rw: bool, dirty: bool)

  /** Where a page that is not mapped gets its bytes: the frame of a read-only ELF region,
      or a fill (ELF bytes or zeros) for a writable region. */
  datatype Backing = Elf(frame: Pfn) | Fill(page: Page)

  type Image = VPage -> Backing

  /** An address space: the leaves of its page table and its region list. */
  datatype Space = Space(leaves: imap<VPage, Leaf>, image: Image)

  datatype Ref = Inst(id: nat) | Snap(id: nat)

  type View = imap<VPage, Page>

  /** The frames holding pages, the frames of the ELF image, and every address space. */
  datatype State = State(pages: map<Pfn, Page>, elf: set<Pfn>, spaces: map<Ref, Space>)

  /** The leaf of v in sp makes sp the owner of frame f. */
  ghost predicate Owns(sp: Space, v: VPage, f: Pfn) {
    v in sp.leaves && sp.leaves[v].rw && sp.leaves[v].frame == f
  }

  ghost function PageOf(pages: map<Pfn, Page>, f: Pfn): Page {
    if f in pages then pages[f] else ZeroPage()
  }

  ghost function Initial(pages: map<Pfn, Page>, b: Backing): Page {
    match b
    case Elf(f) => PageOf(pages, f)
    case Fill(page) => page
  }

  /** The bytes a space shows: its mapped pages, and the initial bytes of the others. */
  ghost function ViewOf(pages: map<Pfn, Page>, sp: Space): View {
    imap v: VPage | true :: if v in sp.leaves then PageOf(pages, sp.leaves[v].frame) else Initial(pages, sp.image(v))
  }

  // ---------- Steps ----------

  datatype Event =
    | Boot(id: nat, image: Image)
    | Deploy(snap: nat, id: nat)
    | Checkpoint(id: nat, snap: nat)
    | Fault(id: nat, v: VPage, write: bool)
    | Write(id: nat, v: VPage, page: Page)
    | EndInstance(id: nat)
    | DropSnapshot(snap: nat)

  /** The two builds: copy-on-write, and NOCOW, where every copy is deep. */
  datatype Build = Cow | NoCow {

    function SnapshotMode(): Mode {
      if Cow? then Snapshot else DeepCopy
    }

    function DeployMode(): Mode {
      if Cow? then Clone else DeepCopy
    }
  }

  /** The copy of one leaf. */
  ghost predicate CopiedLeaf(mode: Mode, pages: map<Pfn, Page>, src: Leaf, pages': map<Pfn, Page>, dst: Leaf) {
    match ActionFor(mode, src.dirty, src.rw)
    case Skip => false
    case Share => dst == Leaf(src.frame, false, true)
    case Copy => dst.rw && dst.dirty && dst.frame !in pages && dst.frame in pages'
                 && pages'[dst.frame] == PageOf(pages, src.frame)
  }

  /** The leaves of a copy of src: its dirty pages, copied or shared; distinct copies are on distinct
      fresh frames. */
  ghost predicate CopiedSpace(mode: Mode, pages: map<Pfn, Page>, src: Space, pages': map<Pfn, Page>, dst: Space) {
    && dst.image == src.image
    && (forall f :: f in pages ==> f in pages' && pages'[f] == pages[f])
    && (forall v :: v in dst.leaves <==> v in src.leaves && src.leaves[v].dirty)
    && (forall v :: v in dst.leaves ==> CopiedLeaf(mode, pages, src.leaves[v], pages', dst.leaves[v]))
    && (forall v, w | v in dst.leaves && w in dst.leaves && dst.leaves[v].rw && dst.leaves[w].rw ::
          dst.leaves[v].frame == dst.leaves[w].frame ==> v == w)
  }

  /** The leaf a fault on v is resolved to, and the page store afterwards (GetBackingPage and the mapping
      in process_pagefault). */
  ghost predicate FaultResolved(pages: map<Pfn, Page>, sp: Space, v: VPage, write: bool,
                                pages': map<Pfn, Page>, leaf: Leaf)
  {
    if sp.image(v).Elf? then
      leaf == Leaf(sp.image(v).frame, false, write) && pages' == pages
    else
      && leaf.rw && leaf.dirty == write && leaf.frame !in pages
      && pages' == pages[leaf.frame :=
           if v in sp.leaves then PageOf(pages, sp.leaves[v].frame) else Initial(pages, sp.image(v))]
  }

  /** The hardware faults on v: it is not mapped, or it is written and mapped read-only. A write fault
      on a read-only region does not occur. */
  ghost predicate Faults(sp: Space, v: VPage, write: bool) {
    && (v in sp.leaves ==> write && !sp.leaves[v].rw)
    && (write ==> sp.image(v).Fill?)
  }

  ghost predicate Step(build: Build, s: State, e: Event, s': State) {
    && s'.elf == s.elf
    && match e
       case Boot(id, image) =>
         && Inst(id) !in s.spaces && (forall v :: image(v).Elf? ==> image(v).frame in s.elf)
         && s' == s.(spaces := s.spaces[Inst(id) := Space(imap[], image)])
       case Deploy(snap, id) =>
         && Snap(snap) in s.spaces && Inst(id) !in s.spaces && Inst(id) in s'.spaces
         && CopiedSpace(build.DeployMode(), s.pages, s.spaces[Snap(snap)], s'.pages, s'.spaces[Inst(id)])
         && s'.spaces == s.spaces[Inst(id) := s'.spaces[Inst(id)]]
       case Checkpoint(id, snap) =>
         && Inst(id) in s.spaces && Snap(snap) !in s.spaces && Snap(snap) in s'.spaces
         && CopiedSpace(build.SnapshotMode(), s.pages, s.spaces[Inst(id)], s'.pages, s'.spaces[Snap(snap)])
         && s'.spaces == s.spaces[Snap(snap) := s'.spaces[Snap(snap)]]
       case Fault(id, v, write) =>
         && Inst(id) in s.spaces && Faults(s.spaces[Inst(id)], v, write)
         && Inst(id) in s'.spaces && v in s'.spaces[Inst(id)].leaves
         && FaultResolved(s.pages, s.spaces[Inst(id)], v, write, s'.pages, s'.spaces[Inst(id)].leaves[v])
         && s'.spaces == s.spaces[Inst(id) := SetLeaf(s.spaces[Inst(id)], v, s'.spaces[Inst(id)].leaves[v])]
       case Write(id, v, page) =>
         && Inst(id) in s.spaces && v in s.spaces[Inst(id)].leaves && s.spaces[Inst(id)].leaves[v].rw
         && var leaf := s.spaces[Inst(id)].leaves[v];
            && s'.pages == s.pages[leaf.frame := page]
            && s'.spaces == s.spaces[Inst(id) := SetLeaf(s.spaces[Inst(id)], v, leaf.(dirty := true))]
       case EndInstance(id) =>
         Inst(id) in s.spaces && Removed(s, Inst(id), s')
       case DropSnapshot(snap) =>
         Snap(snap) in s.spaces && !Borrowed(s, Snap(snap)) && Removed(s, Snap(snap), s')
  }

  function SetLeaf(sp: Space, v: VPage, leaf: Leaf): Space {
    sp.(leaves := sp.leaves[v := leaf])
  }

  /** Some other space maps a page that r owns. */
  ghost predicate Borrowed(s: State, r: Ref)
    requires r in s.spaces
  {
    exists r', v, w :: r' != r && r' in s.spaces && w in s.spaces[r'].leaves
                       && Owns(s.spaces[r], v, s.spaces[r'].leaves[w].frame)
  }

  /** Teardown frees the frames of the writable leaves. */
  ghost predicate Removed(s: State, r: Ref, s': State)
    requires r in s.spaces
  {
    && s'.spaces == s.spaces - {r}
    && (forall f :: f in s'.pages <==> f in s.pages && !exists v :: Owns(s.spaces[r], v, f))
    && (forall f :: f in s'.pages ==> s'.pages[f] == s.pages[f])
  }

  // ---------- Invariant ----------

  ghost predicate Inv(s: State) {
    && s.elf <= s.pages.Keys
    && (forall r :: r in s.spaces ==> SpaceInv(s.pages, s.elf, r, s.spaces[r]))
    && (forall r, r' :: r in s.spaces && r' in s.spaces && r != r' ==> Apart(r, s.spaces[r], s.spaces[r']))
  }

  /** Every leaf maps a page in use and does not own an ELF frame; a clean page still has its initial bytes;
      every page of a snapshot is dirty; and a frame with a writable leaf has no other leaf. */
  ghost predicate SpaceInv(pages: map<Pfn, Page>, elf: set<Pfn>, r: Ref, sp: Space) {
    && (forall v :: v in sp.leaves ==> LeafInv(pages, elf, r, sp, v))
    && (forall v :: sp.image(v).Elf? ==> sp.image(v).frame in elf)
    && (forall v, w | v in sp.leaves && w in sp.leaves && v != w :: !Owns(sp, v, sp.leaves[w].frame))
  }

  ghost predicate LeafInv(pages: map<Pfn, Page>, elf: set<Pfn>, r: Ref, sp: Space, v: VPage)
    requires v in sp.leaves
  {
    var leaf := sp.leaves[v];
    && leaf.frame in pages
    && (leaf.rw ==> leaf.frame !in elf)
    && (!leaf.dirty ==> pages[leaf.frame] == Initial(pages, sp.image(v)))
    && (r.Snap? ==> leaf.dirty)
  }

  /** A frame with a writable leaf in an instance is mapped by no other space; one with a writable leaf in a
      snapshot is mapped by other spaces only read-only. */
  ghost predicate Apart(r: Ref, sp: Space, other: Space) {
    forall v, w | v in sp.leaves && w in other.leaves && Owns(sp, v, other.leaves[w].frame) ::
      r.Snap? && !other.leaves[w].rw
  }

  // ---------- The ideal machine ----------

  /** The ideal machine: the bytes of the ELF frames, and for every space its own bytes. */
  datatype Ideal = Ideal(rom: map<Pfn, Page>, views: map<Ref, View>)

  ghost function Abstract(s: State): Ideal {
    Ideal(map f | f in s.elf :: PageOf(s.pages, f), map r | r in s.spaces :: ViewOf(s.pages, s.spaces[r]))
  }

  ghost function InitialView(rom: map<Pfn, Page>, image: Image): View {
    imap v: VPage | true :: Initial(rom, image(v))
  }

  ghost function Put(view: View, v: VPage, page: Page): View {
    imap w: VPage | true :: if w == v then page else if w in view then view[w] else ZeroPage()
  }

  ghost function IdealStep(i: Ideal, e: Event): Ideal {
    match e
    case Boot(id, image) => i.(views := i.views[Inst(id) := InitialView(i.rom, image)])
    case Deploy(snap, id) =>
      if Snap(snap) in i.views then i.(views := i.views[Inst(id) := i.views[Snap(snap)]]) else i
    case Checkpoint(id, snap) =>
      if Inst(id) in i.views then i.(views := i.views[Snap(snap) := i.views[Inst(id)]]) else i
    case Fault(id, v, write) => i
    case Write(id, v, page) =>
      if Inst(id) in i.views then i.(views := i.views[Inst(id) := Put(i.views[Inst(id)], v, page)]) else i
    case EndInstance(id) => i.(views := i.views - {Inst(id)})
    case DropSnapshot(snap) => i.(views := i.views - {Snap(snap)})
  }

  // ---------- Every step keeps the invariant and is a step of the ideal machine ----------

  /** Two page stores agree on the frames of s. */
  ghost predicate AgreeOn(pages: map<Pfn, Page>, pages': map<Pfn, Page>, s: iset<Pfn>) {
    forall f :: f in s ==> f in pages && f in pages' && pages'[f] == pages[f]
  }

  /** The frames that sp maps. */
  ghost function Mapped(sp: Space): iset<Pfn> {
    iset v | v in sp.leaves :: sp.leaves[v].frame
  }

  /** A space keeps its invariant and its view when the frames it maps and the ELF frames keep their bytes. */
  lemma SpaceKept(pages: map<Pfn, Page>, pages': map<Pfn, Page>, elf: set<Pfn>, r: Ref, sp: Space)
    requires elf <= pages.Keys && SpaceInv(pages, elf, r, sp)
    requires AgreeOn(pages, pages', iset f | f in elf)
    requires AgreeOn(pages, pages', Mapped(sp))
    ensures SpaceInv(pages', elf, r, sp)
    ensures ViewOf(pages', sp) == ViewOf(pages, sp)
  {
    forall v: VPage
      ensures Initial(pages', sp.image(v)) == Initial(pages, sp.image(v))
    {
    }
    forall v | v in sp.leaves
      ensures LeafInv(pages', elf, r, sp, v) && PageOf(pages', sp.leaves[v].frame) == PageOf(pages, sp.leaves[v].frame)
    {
      assert LeafInv(pages, elf, r, sp, v);
      assert sp.leaves[v].frame in Mapped(sp);
    }
  }

  /** A step that changes only the space me, and no frame that another space maps. */
  ghost predicate OnlyChanges(s: State, me: Ref, s': State) {
    && s'.elf == s.elf && AgreeOn(s.pages, s'.pages, iset f | f in s.elf)
    && (forall r :: r != me ==> (r in s'.spaces <==> r in s.spaces))
    && (forall r :: r in s.spaces && r != me ==>
          s'.spaces[r] == s.spaces[r] && AgreeOn(s.pages, s'.pages, Mapped(s.spaces[r])))
  }

  /** Such a step keeps the invariant and the other views, once the space me is shown to fit in. */
  lemma OthersKept(s: State, me: Ref, s': State)
    requires Inv(s) && OnlyChanges(s, me, s')
    requires me in s'.spaces ==> SpaceInv(s'.pages, s'.elf, me, s'.spaces[me])
    requires forall r :: me in s'.spaces && r in s.spaces && r != me ==>
               Apart(me, s'.spaces[me], s.spaces[r]) && Apart(r, s.spaces[r], s'.spaces[me])
    ensures Inv(s')
    ensures Abstract(s').rom == Abstract(s).rom
    ensures Abstract(s').views ==
            if me in s'.spaces then Abstract(s).views[me := ViewOf(s'.pages, s'.spaces[me])]
            else Abstract(s).views - {me}
  {
    forall r | r in s'.spaces && r != me
      ensures SpaceInv(s'.pages, s'.elf, r, s'.spaces[r])
      ensures ViewOf(s'.pages, s'.spaces[r]) == ViewOf(s.pages, s.spaces[r])
    {
      SpaceKept(s.pages, s'.pages, s.elf, r, s.spaces[r]);
    }
    OthersSeen(s, me, s');
  }

  lemma OthersSeen(s: State, me: Ref, s': State)
    requires OnlyChanges(s, me, s')
    requires forall r :: r in s'.spaces && r != me ==> ViewOf(s'.pages, s'.spaces[r]) == ViewOf(s.pages, s.spaces[r])
    ensures Abstract(s').rom == Abstract(s).rom
    ensures Abstract(s').views ==
            if me in s'.spaces then Abstract(s).views[me := ViewOf(s'.pages, s'.spaces[me])]
            else Abstract(s).views - {me}
  {
    assert forall f :: f in s.elf ==> PageOf(s'.pages, f) == PageOf(s.pages, f);
    SameBut(Abstract(s).views, me, Abstract(s').views);
  }

  /** A map that agrees with m except at k is m with k set, or without k. */
  lemma SameBut<K, V>(m: map<K, V>, k: K, m': map<K, V>)
    requires forall x :: x != k ==> (x in m' <==> x in m)
    requires forall x :: x in m && x != k ==> m'[x] == m[x]
    ensures m' == if k in m' then m[k := m'[k]] else m - {k}
  {
  }

  lemma BootStep(build: Build, s: State, id: nat, image: Image, s': State)
    requires Inv(s) && Step(build, s, Boot(id, image), s')
    ensures Inv(s') && Abstract(s') == IdealStep(Abstract(s), Boot(id, image))
  {
    EmptySpace(s, Inst(id), image);
  }

  /** A space without leaves shows its initial bytes, and fits beside any others. */
  lemma EmptySpace(s: State, me: Ref, image: Image)
    requires Inv(s) && forall v :: image(v).Elf? ==> image(v).frame in s.elf
    ensures var s' := s.(spaces := s.spaces[me := Space(imap[], image)]);
            && Inv(s')
            && Abstract(s') == Abstract(s).(views := Abstract(s).views[me := InitialView(Abstract(s).rom, image)])
  {
    var s' := s.(spaces := s.spaces[me := Space(imap[], image)]);
    forall r | r in s.spaces
      ensures AgreeOn(s.pages, s'.pages, Mapped(s.spaces[r]))
    {
      MappedInUse(s, r);
    }
    OthersKept(s, me, s');
    assert ViewOf(s'.pages, s'.spaces[me]) == InitialView(Abstract(s).rom, image);
  }

  lemma MappedInUse(s: State, r: Ref)
    requires Inv(s) && r in s.spaces
    ensures forall f :: f in Mapped(s.spaces[r]) ==> f in s.pages
  {
  }

  /** The space of an instance after a write through its writable leaf. */
  lemma WrittenSpace(pages: map<Pfn, Page>, elf: set<Pfn>, me: Ref, sp: Space, v: VPage, page: Page)
    requires elf <= pages.Keys && SpaceInv(pages, elf, me, sp) && v in sp.leaves && sp.leaves[v].rw
    ensures var pages' := pages[sp.leaves[v].frame := page];
            var sp' := SetLeaf(sp, v, sp.leaves[v].(dirty := true));
            SpaceInv(pages', elf, me, sp') && ViewOf(pages', sp') == Put(ViewOf(pages, sp), v, page)
  {
    var pages' := pages[sp.leaves[v].frame := page];
    var sp' := SetLeaf(sp, v, sp.leaves[v].(dirty := true));
    assert LeafInv(pages, elf, me, sp, v);
    forall w: VPage
      ensures Initial(pages', sp.image(w)) == Initial(pages, sp.image(w))
    {
    }
    forall w | w in sp.leaves && w != v
      ensures sp.leaves[w].frame != sp.leaves[v].frame && LeafInv(pages', elf, me, sp', w)
    {
      assert LeafInv(pages, elf, me, sp, w) && !Owns(sp, v, sp.leaves[w].frame);
    }
    forall w, x | w in sp'.leaves && x in sp'.leaves && w != x
      ensures !Owns(sp', w, sp'.leaves[x].frame)
    {
      assert !Owns(sp, w, sp.leaves[x].frame);
    }
    WrittenView(pages, sp, v, page);
  }

  lemma WrittenView(pages: map<Pfn, Page>, sp: Space, v: VPage, page: Page)
    requires v in sp.leaves
    requires forall w :: w in sp.leaves && w != v ==> sp.leaves[w].frame != sp.leaves[v].frame
    requires var pages' := pages[sp.leaves[v].frame := page];
             forall w: VPage :: Initial(pages', sp.image(w)) == Initial(pages, sp.image(w))
    ensures ViewOf(pages[sp.leaves[v].frame := page], SetLeaf(sp, v, sp.leaves[v].(dirty := true)))
            == Put(ViewOf(pages, sp), v, page)
  {
  }

  lemma WriteStep(build: Build, s: State, id: nat, v: VPage, page: Page, s': State)
    requires Inv(s) && Step(build, s, Write(id, v, page), s')
    ensures Inv(s') && Abstract(s') == IdealStep(Abstract(s), Write(id, v, page))
  {
    WriteState(s, Inst(id), v, page, s');
  }

  lemma WriteState(s: State, me: Ref, v: VPage, page: Page, s': State)
    requires Inv(s) && me.Inst? && me in s.spaces && v in s.spaces[me].leaves && s.spaces[me].leaves[v].rw
    requires s'.elf == s.elf && s'.pages == s.pages[s.spaces[me].leaves[v].frame := page]
    requires s'.spaces == s.spaces[me := SetLeaf(s.spaces[me], v, s.spaces[me].leaves[v].(dirty := true))]
    ensures Inv(s')
    ensures Abstract(s') == Abstract(s).(views := Abstract(s).views[me := Put(Abstract(s).views[me], v, page)])
  {
    var sp := s.spaces[me];
    WrittenSpace(s.pages, s.elf, me, sp, v, page);
    assert LeafInv(s.pages, s.elf, me, sp, v);
    forall r | r in s.spaces && r != me
      ensures AgreeOn(s.pages, s'.pages, Mapped(s.spaces[r]))
      ensures Apart(me, s'.spaces[me], s.spaces[r]) && Apart(r, s.spaces[r], s'.spaces[me])
    {
      MappedInUse(s, r);
      assert Apart(me, sp, s.spaces[r]) && Apart(r, s.spaces[r], sp);
      SameFramesApart(me, sp, s'.spaces[me], r, s.spaces[r], v);
    }
    OthersKept(s, me, s');
  }

  /** Setting the dirty bit changes no ownership, and the frame of the writable leaf v of an instance is not
      mapped elsewhere. */
  lemma SameFramesApart(me: Ref, sp: Space, sp': Space, r: Ref, other: Space, v: VPage)
    requires me.Inst? && v in sp.leaves && sp.leaves[v].rw && sp' == SetLeaf(sp, v, sp.leaves[v].(dirty := true))
    requires Apart(me, sp, other) && Apart(r, other, sp)
    ensures Apart(me, sp', other) && Apart(r, other, sp') && sp.leaves[v].frame !in Mapped(other)
  {
    assert forall w :: w in other.leaves && other.leaves[w].frame == sp.leaves[v].frame ==>
        Owns(sp, v, other.leaves[w].frame);
    assert forall w, f :: Owns(sp', w, f) ==> Owns(sp, w, f);
    forall w, x | w in other.leaves && x in sp'.leaves && Owns(other, w, sp'.leaves[x].frame)
      ensures r.Snap? && !sp'.leaves[x].rw
    {
      assert Owns(other, w, sp.leaves[x].frame);
    }
  }

  /** The space of an instance after a fault is resolved. */
  lemma FaultedSpace(pages: map<Pfn, Page>, elf: set<Pfn>, me: Ref, sp: Space, v: VPage, write: bool,
                     pages': map<Pfn, Page>, leaf: Leaf)
    requires elf <= pages.Keys && me.Inst? && SpaceInv(pages, elf, me, sp)
    requires Faults(sp, v, write) && FaultResolved(pages, sp, v, write, pages', leaf)
    ensures SpaceInv(pages', elf, me, SetLeaf(sp, v, leaf))
  {
    var sp' := SetLeaf(sp, v, leaf);
    FaultAgrees(pages, sp, v, write, pages', leaf, iset f | f in pages);
    forall w: VPage
      ensures Initial(pages', sp.image(w)) == Initial(pages, sp.image(w))
    {
    }
    forall w | w in sp.leaves
      ensures LeafInv(pages, elf, me, sp, w)
      ensures w != v ==> LeafInv(pages', elf, me, sp', w)
    {
    }
    FaultedLeaf(pages, elf, me, sp, v, write, pages', leaf);
    forall w, x | w in sp'.leaves && x in sp'.leaves && w != x
      ensures !Owns(sp', w, sp'.leaves[x].frame)
    {
      assert w in sp.leaves && x in sp.leaves ==> !Owns(sp, w, sp.leaves[x].frame);
    }
  }

  /** No page of the instance shows other bytes than before. */
  lemma FaultedView(pages: map<Pfn, Page>, elf: set<Pfn>, me: Ref, sp: Space, v: VPage, write: bool,
                    pages': map<Pfn, Page>, leaf: Leaf)
    requires elf <= pages.Keys && me.Inst? && SpaceInv(pages, elf, me, sp)
    requires Faults(sp, v, write) && FaultResolved(pages, sp, v, write, pages', leaf)
    ensures ViewOf(pages', SetLeaf(sp, v, leaf)) == ViewOf(pages, sp)
  {
    FaultAgrees(pages, sp, v, write, pages', leaf, iset f | f in pages);
    FaultedLeaf(pages, elf, me, sp, v, write, pages', leaf);
    forall w: VPage
      ensures ViewOf(pages', SetLeaf(sp, v, leaf))[w] == ViewOf(pages, sp)[w]
    {
      assert w in sp.leaves ==> LeafInv(pages, elf, me, sp, w);
    }
  }

  /** The new leaf shows what the page showed before, and is on a fresh frame when it is writable. */
  lemma FaultedLeaf(pages: map<Pfn, Page>, elf: set<Pfn>, me: Ref, sp: Space, v: VPage, write: bool,
                    pages': map<Pfn, Page>, leaf: Leaf)
    requires elf <= pages.Keys && me.Inst? && (sp.image(v).Elf? ==> sp.image(v).frame in elf)
    requires v in sp.leaves ==> LeafInv(pages, elf, me, sp, v)
    requires Faults(sp, v, write) && FaultResolved(pages, sp, v, write, pages', leaf)
    ensures LeafInv(pages', elf, me, SetLeaf(sp, v, leaf), v)
    ensures PageOf(pages', leaf.frame) ==
            if v in sp.leaves then PageOf(pages, sp.leaves[v].frame) else Initial(pages, sp.image(v))
    ensures leaf.rw ==> leaf.frame !in pages
  {
  }

  lemma FaultStep(build: Build, s: State, id: nat, v: VPage, write: bool, s': State)
    requires Inv(s) && Step(build, s, Fault(id, v, write), s')
    ensures Inv(s') && Abstract(s') == IdealStep(Abstract(s), Fault(id, v, write))
  {
    FaultState(s, Inst(id), v, write, s'.spaces[Inst(id)].leaves[v], s');
  }

  /** The state after the fault of me on v is resolved to leaf: no view changes. */
  lemma FaultState(s: State, me: Ref, v: VPage, write: bool, leaf: Leaf, s': State)
    requires Inv(s) && me.Inst? && me in s.spaces && Faults(s.spaces[me], v, write)
    requires FaultResolved(s.pages, s.spaces[me], v, write, s'.pages, leaf)
    requires s'.elf == s.elf && s'.spaces == s.spaces[me := SetLeaf(s.spaces[me], v, leaf)]
    ensures Inv(s') && Abstract(s') == Abstract(s)
  {
    var sp := s.spaces[me];
    FaultedSpace(s.pages, s.elf, me, sp, v, write, s'.pages, leaf);
    FaultedView(s.pages, s.elf, me, sp, v, write, s'.pages, leaf);
    forall r | r in s.spaces && r != me
      ensures AgreeOn(s.pages, s'.pages, Mapped(s.spaces[r]))
      ensures Apart(me, s'.spaces[me], s.spaces[r]) && Apart(r, s.spaces[r], s'.spaces[me])
    {
      assert Apart(me, sp, s.spaces[r]) && Apart(r, s.spaces[r], sp);
      FaultApart(s.pages, s.elf, me, sp, v, write, s'.pages, leaf, r, s.spaces[r]);
    }
    FaultAgrees(s.pages, sp, v, write, s'.pages, leaf, iset f | f in s.elf);
    OthersKept(s, me, s');
    SameView(s, me, s');
  }

  lemma SameView(s: State, me: Ref, s': State)
    requires me in s.spaces && me in s'.spaces && ViewOf(s'.pages, s'.spaces[me]) == ViewOf(s.pages, s.spaces[me])
    requires Abstract(s').rom == Abstract(s).rom
    requires Abstract(s').views == Abstract(s).views[me := ViewOf(s'.pages, s'.spaces[me])]
    ensures Abstract(s') == Abstract(s)
  {
    assert Abstract(s).views[me := Abstract(s).views[me]] == Abstract(s).views;
  }

  /** A fault writes no page in use. */
  lemma FaultAgrees(pages: map<Pfn, Page>, sp: Space, v: VPage, write: bool, pages': map<Pfn, Page>, leaf: Leaf,
                    frames: iset<Pfn>)
    requires FaultResolved(pages, sp, v, write, pages', leaf) && forall f :: f in frames ==> f in pages
    ensures AgreeOn(pages, pages', frames)
  {
  }

  lemma FaultApart(pages: map<Pfn, Page>, elf: set<Pfn>, me: Ref, sp: Space, v: VPage, write: bool,
                   pages': map<Pfn, Page>, leaf: Leaf, r: Ref, other: Space)
    requires FaultResolved(pages, sp, v, write, pages', leaf) && SpaceInv(pages, elf, r, other)
    requires SpaceInv(pages, elf, me, sp)
    requires Apart(me, sp, other) && Apart(r, other, sp)
    ensures Apart(me, SetLeaf(sp, v, leaf), other) && Apart(r, other, SetLeaf(sp, v, leaf))
    ensures AgreeOn(pages, pages', Mapped(other))
  {
    var sp' := SetLeaf(sp, v, leaf);
    assert forall w :: w in other.leaves ==> LeafInv(pages, elf, r, other, w);
    FaultAgrees(pages, sp, v, write, pages', leaf, Mapped(other));
    forall w, x | w in sp'.leaves && x in other.leaves && Owns(sp', w, other.leaves[x].frame)
      ensures me.Snap? && !other.leaves[x].rw
    {
      assert w != v && Owns(sp, w, other.leaves[x].frame);
    }
    forall w, x | w in other.leaves && x in sp'.leaves && Owns(other, w, sp'.leaves[x].frame)
      ensures r.Snap? && !sp'.leaves[x].rw
    {
      assert x != v && Owns(other, w, sp.leaves[x].frame);
    }
  }

  /** A copied leaf has the bytes of its source. */
  lemma CopiedLeafFits(mode: Mode, pages: map<Pfn, Page>, elf: set<Pfn>, from: Ref, src: Space,
                       pages': map<Pfn, Page>, to: Ref, dst: Space, v: VPage)
    requires elf <= pages.Keys && v in src.leaves && LeafInv(pages, elf, from, src, v)
    requires CopiedSpace(mode, pages, src, pages', dst) && v in dst.leaves
    ensures LeafInv(pages', elf, to, dst, v) && dst.leaves[v].dirty
    ensures PageOf(pages', dst.leaves[v].frame) == PageOf(pages, src.leaves[v].frame)
    ensures dst.leaves[v].rw <==> dst.leaves[v].frame !in pages
  {
  }

  /** A copied space keeps the invariant and shows what its source shows. */
  lemma CopiedSpaceFits(mode: Mode, pages: map<Pfn, Page>, elf: set<Pfn>, from: Ref, src: Space,
                        pages': map<Pfn, Page>, to: Ref, dst: Space)
    requires elf <= pages.Keys && SpaceInv(pages, elf, from, src)
    requires CopiedSpace(mode, pages, src, pages', dst)
    ensures SpaceInv(pages', elf, to, dst) && ViewOf(pages', dst) == ViewOf(pages, src)
  {
    forall w: VPage
      ensures Initial(pages', src.image(w)) == Initial(pages, src.image(w))
    {
    }
    forall w | w in src.leaves
      ensures LeafInv(pages, elf, from, src, w)
      ensures w in dst.leaves ==> LeafInv(pages', elf, to, dst, w)
      ensures w in dst.leaves ==> PageOf(pages', dst.leaves[w].frame) == PageOf(pages, src.leaves[w].frame)
      ensures w in dst.leaves ==> (dst.leaves[w].rw <==> dst.leaves[w].frame !in pages)
    {
      if w in dst.leaves {
        CopiedLeafFits(mode, pages, elf, from, src, pages', to, dst, w);
      }
    }
    CopyOwnsOnce(pages, dst);
  }

  /** The writable leaves of a copy are on fresh frames, the others on old ones. */
  lemma CopyOwnsOnce(pages: map<Pfn, Page>, dst: Space)
    requires forall v :: v in dst.leaves ==> (dst.leaves[v].rw <==> dst.leaves[v].frame !in pages)
    requires forall v, w | v in dst.leaves && w in dst.leaves && dst.leaves[v].rw && dst.leaves[w].rw ::
               dst.leaves[v].frame == dst.leaves[w].frame ==> v == w
    ensures forall v, w | v in dst.leaves && w in dst.leaves && v != w :: !Owns(dst, v, dst.leaves[w].frame)
  {
  }

  lemma CopiedSpaceApart(mode: Mode, pages: map<Pfn, Page>, elf: set<Pfn>, from: Ref, src: Space,
                         pages': map<Pfn, Page>, to: Ref, dst: Space, r: Ref, other: Space)
    requires SpaceInv(pages, elf, from, src) && SpaceInv(pages, elf, r, other)
    requires CopiedSpace(mode, pages, src, pages', dst)
    requires if r == from then other == src else Apart(r, other, src)
    requires mode == Clone ==> from.Snap?
    ensures Apart(to, dst, other) && Apart(r, other, dst)
  {
    assert forall w :: w in other.leaves ==> LeafInv(pages, elf, r, other, w);
    forall w, x | w in dst.leaves && x in other.leaves
      ensures !Owns(dst, w, other.leaves[x].frame)
    {
      assert CopiedLeaf(mode, pages, src.leaves[w], pages', dst.leaves[w]);
    }
    forall w, x | w in other.leaves && x in dst.leaves && Owns(other, w, dst.leaves[x].frame)
      ensures r.Snap? && !dst.leaves[x].rw
    {
      assert CopiedLeaf(mode, pages, src.leaves[x], pages', dst.leaves[x]);
      assert Owns(other, w, src.leaves[x].frame);
    }
  }

  /** A copy of the space from, into the new space to, shows what from shows; a clone is taken of a snapshot only. */
  lemma CopyStep(mode: Mode, s: State, from: Ref, to: Ref, s': State)
    requires Inv(s) && from in s.spaces && to !in s.spaces && to in s'.spaces && s'.elf == s.elf
    requires mode == Clone ==> from.Snap?
    requires CopiedSpace(mode, s.pages, s.spaces[from], s'.pages, s'.spaces[to])
    requires s'.spaces == s.spaces[to := s'.spaces[to]]
    ensures Inv(s') && Abstract(s') == Abstract(s).(views := Abstract(s).views[to := ViewOf(s.pages, s.spaces[from])])
  {
    var src, dst := s.spaces[from], s'.spaces[to];
    CopiedSpaceFits(mode, s.pages, s.elf, from, src, s'.pages, to, dst);
    forall r | r in s.spaces
      ensures AgreeOn(s.pages, s'.pages, Mapped(s.spaces[r]))
      ensures Apart(to, dst, s.spaces[r]) && Apart(r, s.spaces[r], dst)
    {
      MappedInUse(s, r);
      CopiedSpaceApart(mode, s.pages, s.elf, from, src, s'.pages, to, dst, r, s.spaces[r]);
    }
    OthersKept(s, to, s');
  }

  lemma RemoveStep(s: State, me: Ref, s': State)
    requires Inv(s) && me in s.spaces && s'.elf == s.elf && Removed(s, me, s')
    requires me.Inst? || !Borrowed(s, me)
    ensures Inv(s') && Abstract(s') == Abstract(s).(views := Abstract(s).views - {me})
  {
    assert forall w :: w in s.spaces[me].leaves ==> LeafInv(s.pages, s.elf, me, s.spaces[me], w);
    forall r | r in s.spaces && r != me
      ensures AgreeOn(s.pages, s'.pages, Mapped(s.spaces[r]))
    {
      assert forall w :: w in s.spaces[r].leaves ==> LeafInv(s.pages, s.elf, r, s.spaces[r], w);
      assert Apart(me, s.spaces[me], s.spaces[r]);
    }
    OthersKept(s, me, s');
  }

  /** A space that borrows a freed page is left with a leaf that maps nothing. */
  lemma BorrowedBreaks(s: State, me: Ref, s': State)
    requires me in s.spaces && s'.elf == s.elf && Removed(s, me, s') && Borrowed(s, me)
    ensures !Inv(s')
  {
    var r, v, w :| r != me && r in s.spaces && w in s.spaces[r].leaves
                   && Owns(s.spaces[me], v, s.spaces[r].leaves[w].frame);
    assert s.spaces[r].leaves[w].frame !in s'.pages;
    assert !LeafInv(s'.pages, s'.elf, r, s'.spaces[r], w);
  }

  /** The pages of an instance are never borrowed. */
  lemma InstancesLendNothing(s: State, id: nat)
    requires Inv(s) && Inst(id) in s.spaces
    ensures !Borrowed(s, Inst(id))
  {
    forall r | r in s.spaces && r != Inst(id)
      ensures Apart(Inst(id), s.spaces[Inst(id)], s.spaces[r])
    {
    }
  }

  /** The guard is exact: freeing the pages of a space keeps the invariant if and only if no other space borrows
      one of them. */
  lemma RemoveExact(s: State, me: Ref, s': State)
    requires Inv(s) && me in s.spaces && s'.elf == s.elf && Removed(s, me, s')
    ensures Inv(s') <==> !Borrowed(s, me)
  {
    if Borrowed(s, me) {
      BorrowedBreaks(s, me, s');
    } else {
      RemoveStep(s, me, s');
    }
  }

  /** Deployment is what makes borrowers: the snapshot is borrowed exactly when it owns a page. */
  lemma DeployBorrows(s: State, snap: nat, id: nat, s': State)
    requires Inv(s) && Step(Cow, s, Deploy(snap, id), s')
    ensures Borrowed(s', Snap(snap)) <==>
            exists v :: v in s.spaces[Snap(snap)].leaves && s.spaces[Snap(snap)].leaves[v].rw
  {
    var sp, mine := s.spaces[Snap(snap)], s'.spaces[Inst(id)];
    if v :| v in sp.leaves && sp.leaves[v].rw {
      assert LeafInv(s.pages, s.elf, Snap(snap), sp, v);
      assert CopiedLeaf(Clone, s.pages, sp.leaves[v], s'.pages, mine.leaves[v]);
      assert Owns(s'.spaces[Snap(snap)], v, mine.leaves[v].frame);
    }
  }

  /** Losing an instance's leaves keeps the invariant; the instance then shows its initial bytes. */
  lemma LeavesLost(s: State, me: Ref)
    requires Inv(s) && me in s.spaces
    ensures var s' := s.(spaces := s.spaces[me := Space(imap[], s.spaces[me].image)]);
            && Inv(s')
            && Abstract(s').views == Abstract(s).views[me := InitialView(Abstract(s).rom, s.spaces[me].image)]
  {
    EmptySpace(s, me, s.spaces[me].image);
  }
}
