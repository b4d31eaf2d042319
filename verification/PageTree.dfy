/** Page-table trees in flat physical memory: what a tree is, what it translates, which frames it owns. */
module PageTree {
  import opened Layout
  import opened Wrappers

  type Page = s: seq<bv8> | |s| == 4096 witness seq(4096, _ => 0)
  type Entries = s: seq<Pte> | |s| == 512 witness seq(512, _ => ZERO_PTE)

  function ZeroPage(): Page {
    seq(4096, _ => 0)
  }

  function ZeroTable(): Entries {
    seq(512, _ => ZERO_PTE)
  }

  /** A frame in use holds either 512 entries or the bytes of a page. */
  datatype Frame = Table(ents: Entries) | Data(bytes: Page)

  type Mem = map<Pfn, Frame>

  /** Entry i of the table at r; reading outside a table gives an absent entry. */
  function Ent(m: Mem, r: Pfn, i: Ix): Pte {
    if r in m && m[r].Table? then m[r].ents[i] else ZERO_PTE
  }

  /** Memory after entry i of the table at r is set to e. */
  function Store(m: Mem, r: Pfn, i: Ix, e: Pte): (m': Mem)
    requires r in m && m[r].Table?
    ensures m'.Keys == m.Keys && m'[r].Table? && (forall f :: f in m && f != r ==> m'[f] == m[f])
    ensures Ent(m', r, i) == e && forall j: Ix :: j != i ==> Ent(m', r, j) == Ent(m, r, j)
  {
    m[r := Table(m[r].ents[i := e])]
  }

  lemma StoreSame(m: Mem, r: Pfn, i: Ix)
    requires r in m && m[r].Table?
    ensures Store(m, r, i, Ent(m, r, i)) == m
  {
    assert m[r].ents[i := m[r].ents[i]] == m[r].ents;
  }

  /** The table that entry i of r points to, or null when the entry is absent. */
  function ChildOrNull(m: Mem, r: Pfn, i: Ix): Pfn {
    if Ent(m, r, i).sel then Ent(m, r, i).pfn else NULL
  }

  /** The software walk (walkPageTable): the leaf entry for v below the level-lvl table r. */
  function Xlate(m: Mem, r: Pfn, lvl: nat, v: VPage): Option<Pte>
    decreases lvl, 1
  {
    Under(m, Ent(m, r, v.At(lvl)), lvl, v)
  }

  /** The walk continued from entry e of a level-lvl table. */
  function Under(m: Mem, e: Pte, lvl: nat, v: VPage): Option<Pte>
    decreases lvl, 0
  {
    if !e.sel || lvl == 0 then None
    else if lvl == TBL_LEVEL then Some(e)
    else Xlate(m, e.pfn, lvl - 1, v)
  }

  /** The processor's walk: the leaf entry for v, writable and accessible to programs when all the entries on the way
      to it are, and the given ones above it. */
  function HwXlate(m: Mem, r: Pfn, lvl: nat, v: VPage, rw: bool, us: bool): Option<Pte>
    decreases lvl
  {
    var e := Ent(m, r, v.At(lvl));
    if !e.sel || lvl == 0 then None
    else if lvl == TBL_LEVEL then Some(e.(rw := rw && e.rw, us := us && e.us))
    else HwXlate(m, e.pfn, lvl - 1, v, rw && e.rw, us && e.us)
  }

  /** The frames a tree owns: its tables and the frames of its writable leaves. */
  ghost function Owned(m: Mem, r: Pfn, lvl: nat): set<Pfn>
    decreases lvl, 1
  {
    {r} + set i: Ix, f | 0 <= i < 512 && f in OwnedBy(m, Ent(m, r, i), lvl) :: f
  }

  /** The frames owned through entry e of a level-lvl table:
      a whole subtree above level 1, and at level 1 the mapped frame when it is writable. */
  ghost function OwnedBy(m: Mem, e: Pte, lvl: nat): set<Pfn>
    decreases lvl, 0
  {
    if !e.sel || lvl == 0 then {}
    else if lvl == TBL_LEVEL then (if e.rw then {e.pfn} else {})
    else Owned(m, e.pfn, lvl - 1)
  }

  /** r is the root of a level-lvl tree: its tables and writable leaf frames are pairwise distinct,
      only level-1 entries are leaves, only they deny writing, and none denies programs their access. */
  ghost predicate IsTree(m: Mem, r: Pfn, lvl: nat)
    decreases lvl, 1
  {
    && 1 <= lvl <= 3
    && r != NULL
    && r in m && m[r].Table?
    && (forall i: Ix {:trigger Ent(m, r, i)} :: EntOk(m, Ent(m, r, i), lvl) && r !in OwnedBy(m, Ent(m, r, i), lvl))
    && (forall i: Ix, j: Ix {:trigger Ent(m, r, i), Ent(m, r, j)} :: i != j ==>
          OwnedBy(m, Ent(m, r, i), lvl) !! OwnedBy(m, Ent(m, r, j), lvl))
  }

  /** Entry e of a level-lvl table is absent, or open to programs: a leaf at level 1, or the writable parent of a
      tree. */
  ghost predicate EntOk(m: Mem, e: Pte, lvl: nat)
    decreases lvl, 0
  {
    e.sel ==> e.us && !e.maps && (lvl > TBL_LEVEL ==> e.rw && IsTree(m, e.pfn, lvl - 1))
  }

  /** Every table frame of s is the same in m and m'. */
  ghost predicate SameTables(m: Mem, m': Mem, s: set<Pfn>) {
    forall f :: f in s && f in m && m[f].Table? ==> f in m' && m'[f] == m[f]
  }

  /** Every existing entry of every table in s has its accessed bit set. */
  ghost predicate AllAccessed(m: Mem, s: set<Pfn>) {
    forall f, i: Ix :: f in s && Ent(m, f, i).sel ==> Ent(m, f, i).acc
  }

  /** In a tree the processor's walk is the software walk: the leaf alone decides about writing, and programs may
      access every page. */
  lemma {:induction false} HwXlateIsXlate(m: Mem, r: Pfn, lvl: nat, v: VPage)
    requires IsTree(m, r, lvl)
    ensures HwXlate(m, r, lvl, v, true, true) == Xlate(m, r, lvl, v)
    decreases lvl
  {
    var e := Ent(m, r, v.At(lvl));
    assert EntOk(m, e, lvl);
    if e.sel && lvl > TBL_LEVEL {
      HwXlateIsXlate(m, e.pfn, lvl - 1, v);
    }
  }

  /** An entry above that denies writing, or programs their access, denies it for every page below. */
  lemma {:induction false} HwDenies(m: Mem, r: Pfn, lvl: nat, v: VPage, rw: bool, us: bool)
    requires HwXlate(m, r, lvl, v, rw, us).Some?
    ensures HwXlate(m, r, lvl, v, rw, us).value.rw ==> rw && Ent(m, r, v.At(lvl)).rw
    ensures HwXlate(m, r, lvl, v, rw, us).value.us ==> us && Ent(m, r, v.At(lvl)).us
    decreases lvl
  {
    var e := Ent(m, r, v.At(lvl));
    if lvl > TBL_LEVEL {
      HwDenies(m, e.pfn, lvl - 1, v, rw && e.rw, us && e.us);
    }
  }

  lemma OwnedByInOwned(m: Mem, r: Pfn, lvl: nat, i: Ix)
    ensures OwnedBy(m, Ent(m, r, i), lvl) <= Owned(m, r, lvl)
  {
  }

  /** A tree depends only on its own tables. */
  lemma {:induction false} TreeFrame(m: Mem, m': Mem, r: Pfn, lvl: nat)
    requires IsTree(m, r, lvl)
    requires SameTables(m, m', Owned(m, r, lvl))
    ensures IsTree(m', r, lvl)
    ensures Owned(m', r, lvl) == Owned(m, r, lvl)
    ensures forall v :: Xlate(m', r, lvl, v) == Xlate(m, r, lvl, v)
    decreases lvl, 1
  {
    forall i: Ix
      ensures Ent(m', r, i) == Ent(m, r, i)
      ensures EntOk(m', Ent(m, r, i), lvl)
      ensures OwnedBy(m', Ent(m, r, i), lvl) == OwnedBy(m, Ent(m, r, i), lvl)
      ensures forall v :: Under(m', Ent(m, r, i), lvl, v) == Under(m, Ent(m, r, i), lvl, v)
    {
      OwnedByInOwned(m, r, lvl, i);
      EntryFrame(m, m', Ent(m, r, i), lvl);
    }
  }

  lemma {:induction false} EntryFrame(m: Mem, m': Mem, e: Pte, lvl: nat)
    requires EntOk(m, e, lvl)
    requires SameTables(m, m', OwnedBy(m, e, lvl))
    ensures EntOk(m', e, lvl)
    ensures OwnedBy(m', e, lvl) == OwnedBy(m, e, lvl)
    ensures forall v :: Under(m', e, lvl, v) == Under(m, e, lvl, v)
    decreases lvl, 0
  {
    if e.sel && lvl > TBL_LEVEL {
      TreeFrame(m, m', e.pfn, lvl - 1);
    }
  }

  /** Replacing entry i of the top table by e, whose own subtree is in place, gives a tree again. */
  lemma Graft(m: Mem, m': Mem, r: Pfn, lvl: nat, i: Ix, e: Pte)
    requires IsTree(m, r, lvl)
    requires r in m' && m'[r].Table? && Ent(m', r, i) == e
    requires forall j: Ix :: j != i ==> Ent(m', r, j) == Ent(m, r, j)
    requires e.sel && EntOk(m', e, lvl) && r !in OwnedBy(m', e, lvl)
    requires forall j: Ix :: j != i ==> OwnedBy(m', e, lvl) !! OwnedBy(m, Ent(m, r, j), lvl)
    requires forall j: Ix :: j != i ==> SameTables(m, m', OwnedBy(m, Ent(m, r, j), lvl))
    ensures IsTree(m', r, lvl)
    ensures Owned(m', r, lvl) == (Owned(m, r, lvl) - OwnedBy(m, Ent(m, r, i), lvl)) + OwnedBy(m', e, lvl)
    ensures forall v: VPage :: Xlate(m', r, lvl, v) ==
              if v.At(lvl) == i then Under(m', e, lvl, v) else Xlate(m, r, lvl, v)
  {
    forall j: Ix | j != i
      ensures EntOk(m', Ent(m, r, j), lvl)
      ensures OwnedBy(m', Ent(m, r, j), lvl) == OwnedBy(m, Ent(m, r, j), lvl)
      ensures forall v :: Under(m', Ent(m, r, j), lvl, v) == Under(m, Ent(m, r, j), lvl, v)
    {
      EntryFrame(m, m', Ent(m, r, j), lvl);
    }
    GraftOwned(m, m', r, lvl, i, e);
  }

  lemma GraftOwned(m: Mem, m': Mem, r: Pfn, lvl: nat, i: Ix, e: Pte)
    requires IsTree(m, r, lvl)
    requires Ent(m', r, i) == e
    requires forall j: Ix :: j != i ==>
               Ent(m', r, j) == Ent(m, r, j) && OwnedBy(m', Ent(m, r, j), lvl) == OwnedBy(m, Ent(m, r, j), lvl)
    requires r !in OwnedBy(m', e, lvl)
    ensures Owned(m', r, lvl) == (Owned(m, r, lvl) - OwnedBy(m, Ent(m, r, i), lvl)) + OwnedBy(m', e, lvl)
  {
    var old' := OwnedBy(m, Ent(m, r, i), lvl);
    forall f
      ensures f in Owned(m', r, lvl) <==> f in (Owned(m, r, lvl) - old') + OwnedBy(m', e, lvl)
    {
      if f in Owned(m', r, lvl) && f != r {
        var j: Ix :| f in OwnedBy(m', Ent(m', r, j), lvl);
        assert j == i || f !in old';
      }
      if f in Owned(m, r, lvl) && f != r && f !in old' {
        var j: Ix :| f in OwnedBy(m, Ent(m, r, j), lvl);
        assert f in OwnedBy(m', Ent(m', r, j), lvl);
      }
    }
  }

  /** The frames owned by the tree at r, where a null root is the empty tree. */
  ghost function TreeOwned(m: Mem, r: Pfn, lvl: nat): set<Pfn> {
    if r == NULL then {} else Owned(m, r, lvl)
  }

  ghost predicate IsTreeOrNull(m: Mem, r: Pfn, lvl: nat) {
    r == NULL || IsTree(m, r, lvl)
  }

  /** The frame a leaf owns: the mapped frame when the entry is writable. */
  function LeafOwned(leaf: Option<Pte>): set<Pfn> {
    if leaf.Some? && leaf.value.rw then {leaf.value.pfn} else {}
  }

  lemma {:induction false} LeafOwnedInTree(m: Mem, r: Pfn, lvl: nat, v: VPage)
    ensures LeafOwned(Xlate(m, r, lvl, v)) <= Owned(m, r, lvl)
    decreases lvl
  {
    var e := Ent(m, r, v.At(lvl));
    OwnedByInOwned(m, r, lvl, v.At(lvl));
    if e.sel && lvl > TBL_LEVEL {
      LeafOwnedInTree(m, e.pfn, lvl - 1, v);
    }
  }

  /** A walk from level lvl depends only on the indices up to lvl. */
  lemma {:induction false} XlateUpTo(m: Mem, r: Pfn, lvl: nat, v: VPage, w: VPage)
    requires lvl <= 3 && v.SameUpTo(w, lvl)
    ensures Xlate(m, r, lvl, v) == Xlate(m, r, lvl, w)
    decreases lvl
  {
    if lvl > 1 {
      XlateUpTo(m, Ent(m, r, v.At(lvl)).pfn, lvl - 1, v, w);
    }
  }

  /** A page that a tree owns is the page of one of its writable leaves. */
  lemma {:induction false} OwnedPageIsLeaf(m: Mem, r: Pfn, lvl: nat, f: Pfn) returns (v: VPage)
    requires IsTree(m, r, lvl) && f in Owned(m, r, lvl) && f in m && m[f].Data?
    ensures LeafOwned(Xlate(m, r, lvl, v)) == {f}
    decreases lvl
  {
    var i: Ix :| f in OwnedBy(m, Ent(m, r, i), lvl);
    v := VPage(i, i, i);
    if lvl > TBL_LEVEL {
      var below := OwnedPageIsLeaf(m, Ent(m, r, i).pfn, lvl - 1, f);
      v := below.With(lvl, i);
      XlateUpTo(m, Ent(m, r, i).pfn, lvl - 1, below, v);
    }
  }

  /** A leaf of a tree is an existing entry without MAPS, and accessed when all entries are. */
  lemma {:induction false} LeafEntry(m: Mem, r: Pfn, lvl: nat, v: VPage)
    requires IsTree(m, r, lvl) && Xlate(m, r, lvl, v).Some?
    ensures var e := Xlate(m, r, lvl, v).value; e.sel && e.us && !e.maps
    ensures AllAccessed(m, Owned(m, r, lvl)) ==> Xlate(m, r, lvl, v).value.acc
    decreases lvl
  {
    if lvl > TBL_LEVEL {
      OwnedByInOwned(m, r, lvl, v.At(lvl));
      LeafEntry(m, Ent(m, r, v.At(lvl)).pfn, lvl - 1, v);
    }
  }

  /** No two pages of a tree have writable leaves on one frame. */
  lemma {:induction false} WritableLeavesDistinct(m: Mem, r: Pfn, lvl: nat, v: VPage, w: VPage)
    requires IsTree(m, r, lvl)
    requires LeafOwned(Xlate(m, r, lvl, v)) * LeafOwned(Xlate(m, r, lvl, w)) != {}
    ensures v.SameUpTo(w, lvl)
    decreases lvl
  {
    var i, j := v.At(lvl), w.At(lvl);
    if lvl > TBL_LEVEL {
      LeafOwnedInTree(m, Ent(m, r, i).pfn, lvl - 1, v);
      LeafOwnedInTree(m, Ent(m, r, j).pfn, lvl - 1, w);
    }
    assert i == j || OwnedBy(m, Ent(m, r, i), lvl) !! OwnedBy(m, Ent(m, r, j), lvl);
    if lvl > TBL_LEVEL {
      WritableLeavesDistinct(m, Ent(m, r, i).pfn, lvl - 1, v, w);
    }
  }

  /** What setting the leaf of virt to e in the tree at r asks for: the tree is well formed and apart from
      the free frames, and a frame that e makes writable is a page in use that the tree does not own
      already, except through the leaf that e replaces. */
  ghost predicate CanSetLeaf(m: Mem, free: set<Pfn>, r: Pfn, lvl: nat, virt: VPage, e: Pte) {
    && m.Keys !! free && NULL !in m && NULL !in free
    && 1 <= lvl <= 3 && IsTreeOrNull(m, r, lvl) && TreeOwned(m, r, lvl) !! free
    && e.sel && e.acc && e.us && !e.maps
    && (forall f :: f in LeafOwned(Some(e)) ==> f in m && m[f].Data?)
    && LeafOwned(Some(e)) !! TreeOwned(m, r, lvl) - LeafOwned(Xlate(m, r, lvl, virt))
  }

  /** The frames that left the allocator are the ones that came into use. */
  ghost predicate Grows(m: Mem, free: set<Pfn>, m': Mem, free': set<Pfn>) {
    free' <= free && m'.Keys == m.Keys + (free - free')
  }

  /** No page of data and no table outside s is written, and a table stays a table. */
  ghost predicate WritesOnlyTables(m: Mem, s: set<Pfn>, m': Mem) {
    forall f :: f in m ==>
      f in m' && m'[f].Data? == m[f].Data? && (m[f].Data? || f !in s ==> m'[f] == m[f])
  }

  /** The tree at r' translates virt to e and every other page as the tree at r did. */
  ghost predicate Remaps(m: Mem, r: Pfn, lvl: nat, virt: VPage, e: Pte, m': Mem, r': Pfn) {
    forall v: VPage :: Xlate(m', r', lvl, v) == if v.SameUpTo(virt, lvl) then Some(e) else Xlate(m, r, lvl, v)
  }

  /** What setting the leaf of virt to e does to memory, to the allocator and to the tree at r (now at r'):
      one translation changes, only fresh tables join, and nothing outside the tree is written. */
  ghost predicate LeafSet(m: Mem, free: set<Pfn>, r: Pfn, lvl: nat, virt: VPage, e: Pte,
                          m': Mem, free': set<Pfn>, r': Pfn)
  {
    && Grows(m, free, m', free')
    && WritesOnlyTables(m, TreeOwned(m, r, lvl), m')
    && (forall f :: f in free - free' ==> m'[f].Table?)
    && IsTree(m', r', lvl)
    && (if r == NULL then r' in free - free' else r' == r)
    && Owned(m', r', lvl) ==
       (TreeOwned(m, r, lvl) - LeafOwned(Xlate(m, r, lvl, virt))) + LeafOwned(Some(e)) + (free - free')
    && Remaps(m, r, lvl, virt, e, m', r')
    && (AllAccessed(m, TreeOwned(m, r, lvl)) ==> AllAccessed(m', Owned(m', r', lvl)))
  }

  lemma EmptyTree(m: Mem, r: Pfn, lvl: nat)
    requires 1 <= lvl <= 3 && r != NULL && r in m && m[r] == Table(ZeroTable())
    ensures IsTree(m, r, lvl) && Owned(m, r, lvl) == {r}
    ensures forall v :: Xlate(m, r, lvl, v) == None
  {
  }

  lemma CanSetLeafInNew(m: Mem, free: set<Pfn>, r: Pfn, lvl: nat, virt: VPage, e: Pte)
    requires CanSetLeaf(m, free, NULL, lvl, virt, e) && r in free
    ensures CanSetLeaf(m[r := Table(ZeroTable())], free - {r}, r, lvl, virt, e)
  {
  }

  /** Setting a leaf in a null tree is setting it in a freshly allocated empty table. */
  lemma LeafSetFromNull(m: Mem, free: set<Pfn>, r: Pfn, lvl: nat, virt: VPage, e: Pte, m': Mem, free': set<Pfn>)
    requires CanSetLeaf(m, free, NULL, lvl, virt, e) && r in free
    requires LeafSet(m[r := Table(ZeroTable())], free - {r}, r, lvl, virt, e, m', free', r)
    ensures LeafSet(m, free, NULL, lvl, virt, e, m', free', r)
  {
    var m1 := m[r := Table(ZeroTable())];
    EmptyTree(m1, r, lvl);
    assert free - free' == (free - {r} - free') + {r};
    assert AllAccessed(m1, {r});
    assert forall v :: Xlate(m, NULL, lvl, v) == None;
    assert LeafOwned(Xlate(m1, r, lvl, virt)) == {};
  }

  lemma CanSetLeafBelow(m: Mem, free: set<Pfn>, r: Pfn, lvl: nat, virt: VPage, e: Pte)
    requires CanSetLeaf(m, free, r, lvl, virt, e) && r != NULL && TBL_LEVEL < lvl
    ensures CanSetLeaf(m, free, ChildOrNull(m, r, virt.At(lvl)), lvl - 1, virt, e)
  {
    var c := ChildOrNull(m, r, virt.At(lvl));
    OwnedByInOwned(m, r, lvl, virt.At(lvl));
    assert TreeOwned(m, c, lvl - 1) <= Owned(m, r, lvl);
    assert Xlate(m, c, lvl - 1, virt) == Xlate(m, r, lvl, virt);
  }

  /** A written entry has its accessed bit set, so the tables of a tree keep theirs:
      r got entry pe on top of m2, the frames of sub are known to be fine in m2, and the rest is as in m. */
  lemma AccessedAfter(m: Mem, m2: Mem, r: Pfn, i: Ix, pe: Pte, sub: set<Pfn>, s: set<Pfn>, s': set<Pfn>)
    requires r in s && r in m && r in m2 && m[r] == m2[r] && m[r].Table? && pe.acc && r !in sub
    requires AllAccessed(m, s) && AllAccessed(m2, sub)
    requires forall f :: f in s' && f != r && f !in sub && f in m2 && m2[f].Table? ==>
               f in s && f in m && m[f] == m2[f]
    ensures AllAccessed(Store(m2, r, i, pe), s')
  {
    var m' := Store(m2, r, i, pe);
    forall f, j: Ix | f in s' && Ent(m', f, j).sel
      ensures Ent(m', f, j).acc
    {
      if f == r {
        assert j != i ==> Ent(m', f, j) == Ent(m, f, j);
      } else {
        assert Ent(m', f, j) == Ent(m2, f, j);
        assert f !in sub ==> Ent(m', f, j) == Ent(m, f, j);
      }
    }
  }

  lemma LeafSetAtTable(m: Mem, free: set<Pfn>, r: Pfn, virt: VPage, e: Pte)
    requires CanSetLeaf(m, free, r, TBL_LEVEL, virt, e) && r != NULL
    ensures LeafSet(m, free, r, TBL_LEVEL, virt, e, Store(m, r, virt.tab, e), free, r)
  {
    var m' := Store(m, r, virt.tab, e);
    forall j: Ix | j != virt.tab
      ensures OwnedBy(m', e, TBL_LEVEL) !! OwnedBy(m, Ent(m, r, j), TBL_LEVEL)
    {
      OwnedByInOwned(m, r, TBL_LEVEL, j);
      assert OwnedBy(m, Ent(m, r, j), TBL_LEVEL) !! OwnedBy(m, Ent(m, r, virt.tab), TBL_LEVEL);
    }
    assert r !in LeafOwned(Xlate(m, r, TBL_LEVEL, virt));
    Graft(m, m', r, TBL_LEVEL, virt.tab, e);
    assert free - free == {};
    if AllAccessed(m, Owned(m, r, TBL_LEVEL)) {
      AccessedAfter(m, m, r, virt.tab, e, {}, Owned(m, r, TBL_LEVEL), Owned(m', r, TBL_LEVEL));
    }
  }

  /** The state between the recursive call and the store of the parent entry: the leaf is set in the
      subtree (now at child) of entry virt[lvl] of r, whose own table is still as it was. */
  ghost predicate LeafSetBelow(m: Mem, free: set<Pfn>, r: Pfn, lvl: nat, virt: VPage, e: Pte,
                               m2: Mem, free': set<Pfn>, child: Pfn, pe: Pte)
  {
    && CanSetLeaf(m, free, r, lvl, virt, e) && r != NULL && TBL_LEVEL < lvl
    && LeafSet(m, free, ChildOrNull(m, r, virt.At(lvl)), lvl - 1, virt, e, m2, free', child)
    && pe == (if Ent(m, r, virt.At(lvl)).sel then Ent(m, r, virt.At(lvl)) else SetPte(child, false, true, true, true))
  }

  /** The subtree owns what it owned, with e's frame for the replaced leaf's, and the fresh tables. */
  lemma LeafSetBelowOwned(m: Mem, free: set<Pfn>, r: Pfn, lvl: nat, virt: VPage, e: Pte,
                          m2: Mem, free': set<Pfn>, child: Pfn, pe: Pte)
    requires LeafSetBelow(m, free, r, lvl, virt, e, m2, free', child, pe)
    ensures r in m2 && m2[r] == m[r] && r !in Owned(m2, child, lvl - 1)
    ensures LeafOwned(Xlate(m, r, lvl, virt)) <= OwnedBy(m, Ent(m, r, virt.At(lvl)), lvl)
    ensures Owned(m2, child, lvl - 1) ==
            (OwnedBy(m, Ent(m, r, virt.At(lvl)), lvl) - LeafOwned(Xlate(m, r, lvl, virt)))
            + LeafOwned(Some(e)) + (free - free')
  {
    var old' := Ent(m, r, virt.At(lvl));
    var c := ChildOrNull(m, r, virt.At(lvl));
    assert OwnedBy(m, old', lvl) == TreeOwned(m, c, lvl - 1);
    OwnedByInOwned(m, r, lvl, virt.At(lvl));
    LeafOwnedInTree(m, c, lvl - 1, virt);
  }

  /** Storing the parent entry leaves the subtree as it is. */
  lemma LeafSetBelowEntry(m: Mem, m2: Mem, r: Pfn, lvl: nat, i: Ix, child: Pfn, pe: Pte)
    requires TBL_LEVEL < lvl && IsTree(m2, child, lvl - 1) && r !in Owned(m2, child, lvl - 1)
    requires r in m2 && m2[r].Table? && pe.sel && pe.rw && pe.us && !pe.maps && pe.pfn == child
    ensures var m3 := Store(m2, r, i, pe);
            && EntOk(m3, pe, lvl) && OwnedBy(m3, pe, lvl) == Owned(m2, child, lvl - 1)
            && forall v :: Under(m3, pe, lvl, v) == Xlate(m2, child, lvl - 1, v)
  {
    TreeFrame(m2, Store(m2, r, i, pe), child, lvl - 1);
  }

  /** The other subtrees are apart from the changed one and are not written. */
  lemma LeafSetBelowOthers(m: Mem, free: set<Pfn>, r: Pfn, lvl: nat, virt: VPage, e: Pte,
                           m2: Mem, free': set<Pfn>, child: Pfn, pe: Pte, j: Ix)
    requires LeafSetBelow(m, free, r, lvl, virt, e, m2, free', child, pe) && j != virt.At(lvl)
    ensures r in m2 && m2[r] == m[r]
    ensures Owned(m2, child, lvl - 1) !! OwnedBy(m, Ent(m, r, j), lvl)
    ensures SameTables(m, Store(m2, r, virt.At(lvl), pe), OwnedBy(m, Ent(m, r, j), lvl))
  {
    LeafSetBelowOwned(m, free, r, lvl, virt, e, m2, free', child, pe);
    OwnedByInOwned(m, r, lvl, j);
    var other := OwnedBy(m, Ent(m, r, j), lvl);
    assert other !! OwnedBy(m, Ent(m, r, virt.At(lvl)), lvl);
    assert other !! LeafOwned(Some(e));
    assert other !! free - free';
  }

  lemma SwapPart<T>(all: set<T>, part: set<T>, gone: set<T>, added: set<T>, fresh': set<T>)
    requires gone <= part <= all
    ensures (all - part) + ((part - gone) + added + fresh') == (all - gone) + added + fresh'
  {
  }

  /** Storing the parent entry completes the tree. */
  lemma LeafSetAboveTree(m: Mem, free: set<Pfn>, r: Pfn, lvl: nat, virt: VPage, e: Pte,
                         m2: Mem, free': set<Pfn>, child: Pfn, pe: Pte)
    requires LeafSetBelow(m, free, r, lvl, virt, e, m2, free', child, pe)
    ensures r in m2 && m2[r] == m[r]
    ensures var m3 := Store(m2, r, virt.At(lvl), pe);
            && IsTree(m3, r, lvl)
            && Owned(m3, r, lvl) ==
               (Owned(m, r, lvl) - OwnedBy(m, Ent(m, r, virt.At(lvl)), lvl)) + Owned(m2, child, lvl - 1)
            && forall v: VPage :: Xlate(m3, r, lvl, v) ==
                 if v.At(lvl) == virt.At(lvl) then Xlate(m2, child, lvl - 1, v) else Xlate(m, r, lvl, v)
  {
    var i := virt.At(lvl);
    LeafSetBelowOwned(m, free, r, lvl, virt, e, m2, free', child, pe);
    LeafSetBelowEntry(m, m2, r, lvl, i, child, pe);
    forall j: Ix | j != i
      ensures Owned(m2, child, lvl - 1) !! OwnedBy(m, Ent(m, r, j), lvl)
      ensures SameTables(m, Store(m2, r, i, pe), OwnedBy(m, Ent(m, r, j), lvl))
    {
      LeafSetBelowOthers(m, free, r, lvl, virt, e, m2, free', child, pe, j);
    }
    Graft(m, Store(m2, r, i, pe), r, lvl, i, pe);
  }

  lemma LeafSetAboveAccessed(m: Mem, free: set<Pfn>, r: Pfn, lvl: nat, virt: VPage, e: Pte,
                             m2: Mem, free': set<Pfn>, child: Pfn, pe: Pte)
    requires LeafSetBelow(m, free, r, lvl, virt, e, m2, free', child, pe)
    requires AllAccessed(m, Owned(m, r, lvl))
    ensures r in m2 && m2[r] == m[r]
    ensures var m3 := Store(m2, r, virt.At(lvl), pe); AllAccessed(m3, Owned(m3, r, lvl))
  {
    var i := virt.At(lvl);
    LeafSetAboveTree(m, free, r, lvl, virt, e, m2, free', child, pe);
    LeafSetBelowOwned(m, free, r, lvl, virt, e, m2, free', child, pe);
    OwnedByInOwned(m, r, lvl, i);
    AccessedAfter(m, m2, r, i, pe, Owned(m2, child, lvl - 1), Owned(m, r, lvl), Owned(Store(m2, r, i, pe), r, lvl));
  }

  /** The stores stay within the tree's tables. */
  lemma LeafSetAboveWrites(m: Mem, free: set<Pfn>, r: Pfn, lvl: nat, virt: VPage, e: Pte,
                           m2: Mem, free': set<Pfn>, child: Pfn, pe: Pte)
    requires LeafSetBelow(m, free, r, lvl, virt, e, m2, free', child, pe)
    ensures r in m2 && m2[r] == m[r]
    ensures var m3 := Store(m2, r, virt.At(lvl), pe);
            && Grows(m, free, m3, free')
            && WritesOnlyTables(m, Owned(m, r, lvl), m3)
            && (forall f :: f in free - free' ==> m3[f].Table?)
  {
  }

  /** Below a level the pages on the way to virt are the ones with its index there and on its way below. */
  lemma SameUpToBelow(v: VPage, virt: VPage, lvl: nat)
    requires TBL_LEVEL < lvl <= 3
    ensures v.SameUpTo(virt, lvl) <==> v.At(lvl) == virt.At(lvl) && v.SameUpTo(virt, lvl - 1)
  {
  }

  lemma LeafSetAboveRemaps(m: Mem, free: set<Pfn>, r: Pfn, lvl: nat, virt: VPage, e: Pte,
                         m2: Mem, free': set<Pfn>, child: Pfn, pe: Pte)
    requires LeafSetBelow(m, free, r, lvl, virt, e, m2, free', child, pe)
    ensures r in m2 && m2[r] == m[r]
    ensures Remaps(m, r, lvl, virt, e, Store(m2, r, virt.At(lvl), pe), r)
  {
    LeafSetAboveTree(m, free, r, lvl, virt, e, m2, free', child, pe);
    var c, m3 := ChildOrNull(m, r, virt.At(lvl)), Store(m2, r, virt.At(lvl), pe);
    forall v: VPage
      ensures Xlate(m3, r, lvl, v) == if v.SameUpTo(virt, lvl) then Some(e) else Xlate(m, r, lvl, v)
    {
      SameUpToBelow(v, virt, lvl);
      if v.At(lvl) == virt.At(lvl) {
        NullBelow(m, free, r, lvl, virt, e, v);
      }
    }
  }

  /** The walk of a page under entry virt[lvl] continues in its child; a missing child translates nothing. */
  lemma NullBelow(m: Mem, free: set<Pfn>, r: Pfn, lvl: nat, virt: VPage, e: Pte, v: VPage)
    requires CanSetLeaf(m, free, r, lvl, virt, e) && r != NULL && TBL_LEVEL < lvl && v.At(lvl) == virt.At(lvl)
    ensures Xlate(m, r, lvl, v) == Xlate(m, ChildOrNull(m, r, virt.At(lvl)), lvl - 1, v)
  {
  }

  lemma LeafSetAboveOwned(m: Mem, free: set<Pfn>, r: Pfn, lvl: nat, virt: VPage, e: Pte,
                         m2: Mem, free': set<Pfn>, child: Pfn, pe: Pte)
    requires LeafSetBelow(m, free, r, lvl, virt, e, m2, free', child, pe)
    ensures r in m2 && m2[r] == m[r]
    ensures Owned(Store(m2, r, virt.At(lvl), pe), r, lvl) ==
            (Owned(m, r, lvl) - LeafOwned(Xlate(m, r, lvl, virt))) + LeafOwned(Some(e)) + (free - free')
  {
    LeafSetAboveTree(m, free, r, lvl, virt, e, m2, free', child, pe);
    LeafSetBelowOwned(m, free, r, lvl, virt, e, m2, free', child, pe);
    OwnedByInOwned(m, r, lvl, virt.At(lvl));
    SwapPart(Owned(m, r, lvl), OwnedBy(m, Ent(m, r, virt.At(lvl)), lvl), LeafOwned(Xlate(m, r, lvl, virt)),
             LeafOwned(Some(e)), free - free');
  }

  /** A leaf set in the subtree of an entry, and the entry pointed at the subtree, is a leaf set in the tree. */
  lemma LeafSetAbove(m: Mem, free: set<Pfn>, r: Pfn, lvl: nat, virt: VPage, e: Pte,
                         m2: Mem, free': set<Pfn>, child: Pfn, pe: Pte)
    requires LeafSetBelow(m, free, r, lvl, virt, e, m2, free', child, pe)
    ensures r in m2 && m2[r] == m[r]
    ensures LeafSet(m, free, r, lvl, virt, e, Store(m2, r, virt.At(lvl), pe), free', r)
  {
    LeafSetAboveTree(m, free, r, lvl, virt, e, m2, free', child, pe);
    LeafSetAboveWrites(m, free, r, lvl, virt, e, m2, free', child, pe);
    LeafSetAboveRemaps(m, free, r, lvl, virt, e, m2, free', child, pe);
    LeafSetAboveOwned(m, free, r, lvl, virt, e, m2, free', child, pe);
    if AllAccessed(m, Owned(m, r, lvl)) {
      LeafSetAboveAccessed(m, free, r, lvl, virt, e, m2, free', child, pe);
    }
  }

  /** The frames owned through entries 0..n of the table at r. */
  ghost function OwnedUpTo(m: Mem, r: Pfn, lvl: nat, n: nat): set<Pfn>
    requires n <= 512
  {
    set i: Ix, f | 0 <= i < n && f in OwnedBy(m, Ent(m, r, i), lvl) :: f
  }

  lemma OwnedUpToNext(m: Mem, r: Pfn, lvl: nat, i: Ix)
    ensures OwnedUpTo(m, r, lvl, i + 1) == OwnedUpTo(m, r, lvl, i) + OwnedBy(m, Ent(m, r, i), lvl)
    ensures OwnedUpTo(m, r, lvl, i + 1) <= Owned(m, r, lvl)
    ensures OwnedUpTo(m, r, lvl, 0) == {}
    ensures OwnedUpTo(m, r, lvl, 512) + {r} == Owned(m, r, lvl)
    ensures IsTree(m, r, lvl) ==>
              OwnedUpTo(m, r, lvl, i) !! OwnedBy(m, Ent(m, r, i), lvl) && r !in OwnedUpTo(m, r, lvl, i)
  {
  }

  /** Once the frames of the earlier entries are gone, entry i of the table at r is still as it was. */
  lemma ReclaimedUpTo(m: Mem, m': Mem, r: Pfn, lvl: nat, i: Ix)
    requires IsTree(m, r, lvl) && m' == m - OwnedUpTo(m, r, lvl, i)
    requires AllAccessed(m, Owned(m, r, lvl)) && Owned(m, r, lvl) <= m.Keys
    ensures r in m' && Ent(m', r, i) == Ent(m, r, i) && (Ent(m, r, i).sel ==> Ent(m, r, i).acc)
    ensures EntOk(m', Ent(m, r, i), lvl)
    ensures OwnedBy(m', Ent(m, r, i), lvl) == OwnedBy(m, Ent(m, r, i), lvl) <= m'.Keys
    ensures AllAccessed(m', OwnedBy(m, Ent(m, r, i), lvl))
  {
    OwnedUpToNext(m, r, lvl, i);
    OwnedByInOwned(m, r, lvl, i);
    EntryFrame(m, m', Ent(m, r, i), lvl);
    assert forall f, j: Ix :: f in OwnedBy(m, Ent(m, r, i), lvl) ==> Ent(m', f, j) == Ent(m, f, j);
  }

  lemma Reclaim<K, V>(m: map<K, V>, free: set<K>, a: set<K>, b: set<K>)
    ensures (m - a) - b == m - (a + b)
    ensures (free + a) + b == free + (a + b)
  {
  }

  /** What the hardware does to the tree at r on the first store to v: it sets the leaf's dirty bit. */
  function MarkDirty(m: Mem, r: Pfn, lvl: nat, v: VPage): Mem
    decreases lvl
  {
    var e := Ent(m, r, v.At(lvl));
    if lvl == 0 || !e.sel then m
    else if lvl == TBL_LEVEL then Store(m, r, v.At(lvl), e.(dirty := true))
    else MarkDirty(m, e.pfn, lvl - 1, v)
  }

  lemma {:induction false} MarkDirtySetsLeaf(m: Mem, free: set<Pfn>, r: Pfn, lvl: nat, v: VPage)
    requires Xlate(m, r, lvl, v).Some? && r != NULL
    requires CanSetLeaf(m, free, r, lvl, v, Xlate(m, r, lvl, v).value.(dirty := true))
    ensures LeafSet(m, free, r, lvl, v, Xlate(m, r, lvl, v).value.(dirty := true), MarkDirty(m, r, lvl, v), free, r)
    decreases lvl
  {
    var e := Xlate(m, r, lvl, v).value.(dirty := true);
    if lvl == TBL_LEVEL {
      LeafSetAtTable(m, free, r, v, e);
    } else {
      var pte := Ent(m, r, v.At(lvl));
      CanSetLeafBelow(m, free, r, lvl, v, e);
      MarkDirtySetsLeaf(m, free, pte.pfn, lvl - 1, v);
      LeafSetAbove(m, free, r, lvl, v, e, MarkDirty(m, r, lvl, v), free, pte.pfn, pte);
      StoreSame(MarkDirty(m, r, lvl, v), r, v.At(lvl));
    }
  }
}
