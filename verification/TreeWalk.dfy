/** What the three copying walks (snapshot, clone, deep copy) make of a page-table tree. */
module TreeWalk {
  import opened Layout
  import opened PageTree
  import opened Wrappers

  /** The walks: walkPgTblCopyDirty, walkPgTblCopyDirtyCOW and walkPgTblCOW. */
  datatype Mode = DeepCopy | Snapshot | Clone

  datatype Action = Skip | Share | Copy

  /** What a walk does with an existing leaf. */
  function ActionFor(mode: Mode, dirty: bool, rw: bool): Action {
    if !dirty then Skip
    else match mode
      case DeepCopy => Copy
      case Snapshot => if rw then Copy else Share
      case Clone => Share
  }

  function PteAction(mode: Mode, e: Pte): Action {
    ActionFor(mode, e.dirty, e.rw)
  }

  /** The entry mapIntoPgTbl sets for a copied page, and findAndSetPTECOW for a shared one. */
  function CopiedPte(f: Pfn): Pte {
    SetPte(f, true, true, true, true)
  }

  function SharedPte(f: Pfn): Pte {
    SetPte(f, true, true, false, true)
  }

  /** Memory, the allocator's free frames, and the root of the tree being built. */
  datatype St = St(m: Mem, free: set<Pfn>, copy: Pfn) {

    ghost function Leaf(v: VPage): Option<Pte> {
      Xlate(m, copy, PDPT_LEVEL, v)
    }

    ghost function CopyOwned(): set<Pfn> {
      TreeOwned(m, copy, PDPT_LEVEL)
    }

    ghost predicate Valid() {
      && m.Keys !! free && NULL !in m && NULL !in free
      && IsTreeOrNull(m, copy, PDPT_LEVEL) && CopyOwned() !! free
    }
  }

  /** The pages below entries lo..hi of the level-lvl table on the path to path. */
  predicate InScope(v: VPage, path: VPage, lvl: nat, lo: nat, hi: nat) {
    v.SameAbove(path, lvl) && lo <= v.At(lvl) < hi
  }

  /** Every leaf of the tree at r maps a page in use. */
  ghost predicate LeavesBacked(m: Mem, r: Pfn, lvl: nat) {
    forall v :: Xlate(m, r, lvl, v).Some? ==>
      Xlate(m, r, lvl, v).value.pfn in m && m[Xlate(m, r, lvl, v).value.pfn].Data?
  }

  /** The source tree is well formed and apart from the copy, and the copy maps nothing in scope yet. */
  ghost predicate CanWalk(s: St, src: Pfn, lvl: nat, lo: nat, hi: nat, path: VPage) {
    && s.Valid() && 1 <= lvl <= 3
    && IsTree(s.m, src, lvl) && LeavesBacked(s.m, src, lvl)
    && Owned(s.m, src, lvl) !! s.free && Owned(s.m, src, lvl) !! s.CopyOwned()
    && forall v :: InScope(v, path, lvl, lo, hi) ==> s.Leaf(v) == None
  }

  /** The new leaf of a page, given the source leaf and the old leaf of the copy. */
  ghost predicate LeafCopied(mode: Mode, m: Mem, src: Option<Pte>, m': Mem, was: Option<Pte>, now: Option<Pte>) {
    if src.None? then now == was
    else match PteAction(mode, src.value)
      case Skip => now == was
      case Share => now == Some(SharedPte(src.value.pfn))
      case Copy =>
        && now.Some? && now.value == CopiedPte(now.value.pfn)
        && now.value.pfn !in m && now.value.pfn in m'
        && src.value.pfn in m && m'[now.value.pfn] == m[src.value.pfn]
  }

  /** From s to s' the copy grew: it owns the frames that left the allocator, and nothing outside it was written. */
  ghost predicate CopyGrew(s: St, s': St) {
    && s'.Valid()
    && Grows(s.m, s.free, s'.m, s'.free)
    && WritesOnlyTables(s.m, s.CopyOwned(), s'.m)
    && (s.copy != NULL ==> s'.copy == s.copy)
    && s'.CopyOwned() == s.CopyOwned() + (s.free - s'.free)
    && (AllAccessed(s.m, s.CopyOwned()) ==> AllAccessed(s'.m, s'.CopyOwned()))
  }

  /** Every page in scope is copied, shared or skipped by its source leaf, and every other page of the
      copy has the leaf it had. */
  ghost predicate LeavesCopied(s: St, src: Pfn, lvl: nat, lo: nat, hi: nat, path: VPage, mode: Mode, s': St) {
    forall v :: if InScope(v, path, lvl, lo, hi)
                then LeafCopied(mode, s.m, Xlate(s.m, src, lvl, v), s'.m, s.Leaf(v), s'.Leaf(v))
                else s'.Leaf(v) == s.Leaf(v)
  }

  /** The effect of walking entries lo..hi of the level-lvl source table. */
  ghost predicate Walked(s: St, src: Pfn, lvl: nat, lo: nat, hi: nat, path: VPage, mode: Mode, s': St) {
    CopyGrew(s, s') && LeavesCopied(s, src, lvl, lo, hi, path, mode, s')
  }

  /** The source tree is not touched by a walk. */
  lemma SourceKept(s: St, src: Pfn, lvl: nat, m': Mem)
    requires IsTree(s.m, src, lvl) && Owned(s.m, src, lvl) !! s.CopyOwned()
    requires WritesOnlyTables(s.m, s.CopyOwned(), m')
    ensures IsTree(m', src, lvl) && Owned(m', src, lvl) == Owned(s.m, src, lvl)
    ensures forall v :: Xlate(m', src, lvl, v) == Xlate(s.m, src, lvl, v)
    ensures LeavesBacked(s.m, src, lvl) ==> LeavesBacked(m', src, lvl)
  {
    TreeFrame(s.m, m', src, lvl);
  }

  lemma WalkedNothing(s: St, src: Pfn, lvl: nat, lo: nat, path: VPage, mode: Mode)
    requires CanWalk(s, src, lvl, lo, lo, path)
    ensures Walked(s, src, lvl, lo, lo, path, mode, s)
  {
  }

  /** After entries lo..mid the walk can go on with mid..hi. */
  lemma CanWalkOn(s: St, src: Pfn, lvl: nat, lo: nat, mid: nat, hi: nat, path: VPage, mode: Mode, s1: St)
    requires lo <= mid <= hi && CanWalk(s, src, lvl, lo, hi, path)
    requires Walked(s, src, lvl, lo, mid, path, mode, s1)
    ensures CanWalk(s1, src, lvl, mid, hi, path)
  {
    SourceKept(s, src, lvl, s1.m);
  }

  lemma CanWalkEntry(s: St, src: Pfn, lvl: nat, i: Ix, path: VPage)
    requires CanWalk(s, src, lvl, i, 512, path)
    ensures CanWalk(s, src, lvl, i, i + 1, path)
  {
  }

  /** Walks of adjacent ranges compose. */
  lemma WalkedOn(s: St, src: Pfn, lvl: nat, lo: nat, mid: nat, hi: nat, path: VPage, mode: Mode, s1: St, s2: St)
    requires lo <= mid <= hi && CanWalk(s, src, lvl, lo, hi, path)
    requires Walked(s, src, lvl, lo, mid, path, mode, s1)
    requires Walked(s1, src, lvl, mid, hi, path, mode, s2)
    ensures Walked(s, src, lvl, lo, hi, path, mode, s2)
  {
    SourceKept(s, src, lvl, s1.m);
    CopyGrewOn(s, s1, s2);
    LeavesCopiedOn(s, src, lvl, lo, mid, hi, path, mode, s1, s2);
  }

  lemma LeavesCopiedOn(s: St, src: Pfn, lvl: nat, lo: nat, mid: nat, hi: nat, path: VPage, mode: Mode, s1: St, s2: St)
    requires lo <= mid <= hi && LeavesBacked(s.m, src, lvl)
    requires WritesOnlyTables(s.m, s.CopyOwned(), s1.m) && WritesOnlyTables(s1.m, s1.CopyOwned(), s2.m)
    requires forall v :: Xlate(s1.m, src, lvl, v) == Xlate(s.m, src, lvl, v)
    requires LeavesCopied(s, src, lvl, lo, mid, path, mode, s1)
    requires LeavesCopied(s1, src, lvl, mid, hi, path, mode, s2)
    ensures LeavesCopied(s, src, lvl, lo, hi, path, mode, s2)
  {
    forall v
      ensures if InScope(v, path, lvl, lo, hi)
              then LeafCopied(mode, s.m, Xlate(s.m, src, lvl, v), s2.m, s.Leaf(v), s2.Leaf(v))
              else s2.Leaf(v) == s.Leaf(v)
    {
      var leaf := Xlate(s.m, src, lvl, v);
      if InScope(v, path, lvl, lo, mid) {
        CopiedBefore(mode, s.m, leaf, s1.m, s1.CopyOwned(), s2.m, s.Leaf(v), s1.Leaf(v));
      } else if InScope(v, path, lvl, mid, hi) {
        CopiedAfter(mode, s.m, leaf, s.CopyOwned(), s1.m, s2.m, s.Leaf(v), s2.Leaf(v));
      }
    }
  }

  /** A leaf that was copied stays copied. */
  lemma CopiedBefore(mode: Mode, m: Mem, src: Option<Pte>, m1: Mem, own: set<Pfn>, m2: Mem,
                     was: Option<Pte>, now: Option<Pte>)
    requires LeafCopied(mode, m, src, m1, was, now) && WritesOnlyTables(m1, own, m2)
    requires src.Some? ==> src.value.pfn in m && m[src.value.pfn].Data?
    ensures LeafCopied(mode, m, src, m2, was, now)
  {
  }

  /** A leaf that is copied later is copied from the same page. */
  lemma CopiedAfter(mode: Mode, m: Mem, src: Option<Pte>, own: set<Pfn>, m1: Mem, m2: Mem,
                    was: Option<Pte>, now: Option<Pte>)
    requires LeafCopied(mode, m1, src, m2, was, now) && WritesOnlyTables(m, own, m1)
    requires src.Some? ==> src.value.pfn in m && m[src.value.pfn].Data?
    ensures LeafCopied(mode, m, src, m2, was, now)
  {
  }

  lemma CopyGrewOn(s: St, s1: St, s2: St)
    requires CopyGrew(s, s1) && CopyGrew(s1, s2) && s.Valid()
    ensures CopyGrew(s, s2)
  {
    assert s.free - s2.free == (s.free - s1.free) + (s1.free - s2.free);
  }

  /** The scope depends only on the indices above lvl. */
  lemma CanWalkOtherPath(s: St, src: Pfn, lvl: nat, lo: nat, hi: nat, path: VPage, path': VPage)
    requires path.SameAbove(path', lvl) && CanWalk(s, src, lvl, lo, hi, path)
    ensures CanWalk(s, src, lvl, lo, hi, path')
  {
  }

  lemma WalkedOtherPath(s: St, src: Pfn, lvl: nat, lo: nat, hi: nat, path: VPage, path': VPage, mode: Mode, s': St)
    requires path.SameAbove(path', lvl) && Walked(s, src, lvl, lo, hi, path, mode, s')
    ensures Walked(s, src, lvl, lo, hi, path', mode, s')
  {
  }

  /** What the walk reads: entry i of a table, a leaf exactly at level 1. */
  lemma TableEntry(s: St, src: Pfn, lvl: nat, i: Ix, path: VPage)
    requires CanWalk(s, src, lvl, i, i + 1, path)
    ensures 1 <= lvl <= 3 && src in s.m && s.m[src].Table? && s.m[src].ents[i] == Ent(s.m, src, i)
    ensures Ent(s.m, src, i).sel && IsLeaf(Ent(s.m, src, i), lvl) ==> lvl == TBL_LEVEL
  {
  }

  /** Walking the subtree of entry i is walking the range i..i+1. */
  lemma WalkedChild(s: St, src: Pfn, lvl: nat, i: Ix, path: VPage, mode: Mode, s': St)
    requires TBL_LEVEL < lvl && CanWalk(s, src, lvl, i, i + 1, path) && Ent(s.m, src, i).sel
    requires path.At(lvl) == i
    requires Walked(s, Ent(s.m, src, i).pfn, lvl - 1, 0, 512, path, mode, s')
    ensures Walked(s, src, lvl, i, i + 1, path, mode, s')
  {
    var below := lvl - 1;
    forall v
      ensures InScope(v, path, lvl, i, i + 1) <==> InScope(v, path, below, 0, 512)
    {
    }
    var c := Ent(s.m, src, i).pfn;
    assert forall v: VPage :: v.At(lvl) == i ==> Xlate(s.m, src, lvl, v) == Xlate(s.m, c, below, v);
  }

  lemma CanWalkChild(s: St, src: Pfn, lvl: nat, i: Ix, path: VPage)
    requires TBL_LEVEL < lvl && CanWalk(s, src, lvl, i, i + 1, path) && Ent(s.m, src, i).sel
    requires path.At(lvl) == i
    ensures CanWalk(s, Ent(s.m, src, i).pfn, lvl - 1, 0, 512, path)
  {
    OwnedByInOwned(s.m, src, lvl, i);
    ChildBacked(s.m, src, lvl, i, Ent(s.m, src, i).pfn, lvl - 1);
  }

  lemma ChildBacked(m: Mem, src: Pfn, lvl: nat, i: Ix, c: Pfn, below: nat)
    requires lvl == below + 1 && 1 <= below < 3 && LeavesBacked(m, src, lvl)
    requires Ent(m, src, i).sel && Ent(m, src, i).pfn == c
    ensures LeavesBacked(m, c, below)
  {
    forall v | Xlate(m, c, below, v).Some?
      ensures Xlate(m, c, below, v).value.pfn in m && m[Xlate(m, c, below, v).value.pfn].Data?
    {
      var w := v.With(lvl, i);
      XlateUpTo(m, c, below, v, w);
      assert Xlate(m, src, lvl, w) == Xlate(m, c, below, w);
    }
  }

  /** An entry that is absent or skipped changes nothing. */
  lemma WalkedSkip(s: St, src: Pfn, lvl: nat, i: Ix, path: VPage, mode: Mode)
    requires CanWalk(s, src, lvl, i, i + 1, path)
    requires !Ent(s.m, src, i).sel || (lvl == TBL_LEVEL && PteAction(mode, Ent(s.m, src, i)) == Skip)
    ensures Walked(s, src, lvl, i, i + 1, path, mode, s)
  {
  }

  /** The copy can take a shared leaf; no frame becomes owned. */
  lemma CanShare(s: St, src: Pfn, i: Ix, path: VPage)
    requires CanWalk(s, src, TBL_LEVEL, i, i + 1, path) && Ent(s.m, src, i).sel && path.tab == i
    ensures CanSetLeaf(s.m, s.free, s.copy, PDPT_LEVEL, path, SharedPte(Ent(s.m, src, i).pfn))
  {
  }

  /** At level 1 the range of one entry is one page. */
  lemma OnePage(v: VPage, path: VPage)
    ensures InScope(v, path, TBL_LEVEL, path.tab, path.tab + 1) <==> v == path
    ensures v.SameUpTo(path, PDPT_LEVEL) <==> v == path
  {
  }

  /** A leaf that was set on the way from s to s': every page keeps its leaf but path, which has entry e. */
  lemma OneLeaf(s: St, src: Pfn, path: VPage, mode: Mode, e: Pte, m1: Mem, s': St)
    requires CanWalk(s, src, TBL_LEVEL, path.tab, path.tab + 1, path) && Ent(s.m, src, path.tab).sel
    requires forall v :: Xlate(m1, s.copy, PDPT_LEVEL, v) == s.Leaf(v)
    requires Remaps(m1, s.copy, PDPT_LEVEL, path, e, s'.m, s'.copy)
    requires LeafCopied(mode, s.m, Some(Ent(s.m, src, path.tab)), s'.m, None, Some(e))
    ensures LeavesCopied(s, src, TBL_LEVEL, path.tab, path.tab + 1, path, mode, s')
  {
    forall v
      ensures if InScope(v, path, TBL_LEVEL, path.tab, path.tab + 1)
              then LeafCopied(mode, s.m, Xlate(s.m, src, TBL_LEVEL, v), s'.m, s.Leaf(v), s'.Leaf(v))
              else s'.Leaf(v) == s.Leaf(v)
    {
      OnePage(v, path);
    }
  }

  lemma LeafWasAbsent(s: St, src: Pfn, path: VPage)
    requires CanWalk(s, src, TBL_LEVEL, path.tab, path.tab + 1, path)
    ensures s.Leaf(path) == None
  {
  }

  lemma WalkedShare(s: St, src: Pfn, i: Ix, path: VPage, mode: Mode, s': St)
    requires CanWalk(s, src, TBL_LEVEL, i, i + 1, path) && Ent(s.m, src, i).sel && path.tab == i
    requires PteAction(mode, Ent(s.m, src, i)) == Share
    requires LeafSet(s.m, s.free, s.copy, PDPT_LEVEL, path, SharedPte(Ent(s.m, src, i).pfn), s'.m, s'.free, s'.copy)
    ensures Walked(s, src, TBL_LEVEL, i, i + 1, path, mode, s')
  {
    OneLeaf(s, src, path, mode, SharedPte(Ent(s.m, src, i).pfn), s.m, s');
    LeafWasAbsent(s, src, path);
    SetShareGrows(s, path, SharedPte(Ent(s.m, src, i).pfn), s');
  }

  lemma SetShareGrows(s: St, path: VPage, e: Pte, s': St)
    requires s.Valid() && s.Leaf(path) == None && !e.rw
    requires LeafSet(s.m, s.free, s.copy, PDPT_LEVEL, path, e, s'.m, s'.free, s'.copy)
    ensures CopyGrew(s, s')
  {
  }

  /** The leaf of path maps a page in use. */
  lemma LeafPage(s: St, src: Pfn, i: Ix, path: VPage)
    requires CanWalk(s, src, TBL_LEVEL, i, i + 1, path) && Ent(s.m, src, i).sel && path.tab == i
    ensures Ent(s.m, src, i).pfn in s.m && s.m[Ent(s.m, src, i).pfn].Data?
  {
    assert Xlate(s.m, src, TBL_LEVEL, path) == Some(Ent(s.m, src, i));
  }

  /** The state after a copy of the leaf's page was put on the fresh frame f. */
  function WithCopy(s: St, f: Pfn, page: Frame): St {
    s.(m := s.m[f := page], free := s.free - {f})
  }

  lemma CanCopy(s: St, src: Pfn, i: Ix, path: VPage, f: Pfn)
    requires CanWalk(s, src, TBL_LEVEL, i, i + 1, path) && Ent(s.m, src, i).sel && path.tab == i
    requires f in s.free
    ensures Ent(s.m, src, i).pfn in s.m
    ensures var s1 := WithCopy(s, f, s.m[Ent(s.m, src, i).pfn]);
            && CanSetLeaf(s1.m, s1.free, s.copy, PDPT_LEVEL, path, CopiedPte(f))
            && s1.CopyOwned() == s.CopyOwned()
            && (forall v :: s1.Leaf(v) == s.Leaf(v))
            && (AllAccessed(s.m, s.CopyOwned()) ==> AllAccessed(s1.m, s1.CopyOwned()))
  {
    LeafPage(s, src, i, path);
    var s1 := WithCopy(s, f, s.m[Ent(s.m, src, i).pfn]);
    if s.copy != NULL {
      TreeFrame(s.m, s1.m, s.copy, PDPT_LEVEL);
    }
    if AllAccessed(s.m, s.CopyOwned()) {
      assert forall g, j: Ix :: g in s1.CopyOwned() ==> Ent(s1.m, g, j) == Ent(s.m, g, j);
    }
  }

  lemma WalkedCopy(s: St, src: Pfn, i: Ix, path: VPage, mode: Mode, f: Pfn, s': St)
    requires CanWalk(s, src, TBL_LEVEL, i, i + 1, path) && Ent(s.m, src, i).sel && path.tab == i
    requires PteAction(mode, Ent(s.m, src, i)) == Copy && f in s.free
    requires Ent(s.m, src, i).pfn in s.m
    requires var s1 := WithCopy(s, f, s.m[Ent(s.m, src, i).pfn]);
             LeafSet(s1.m, s1.free, s.copy, PDPT_LEVEL, path, CopiedPte(f), s'.m, s'.free, s'.copy)
    ensures Walked(s, src, TBL_LEVEL, i, i + 1, path, mode, s')
  {
    CanCopy(s, src, i, path, f);
    LeafPage(s, src, i, path);
    LeafWasAbsent(s, src, path);
    var page := s.m[Ent(s.m, src, i).pfn];
    OneLeaf(s, src, path, mode, CopiedPte(f), WithCopy(s, f, page).m, s');
    SetCopyGrows(s, path, f, page, s');
  }

  lemma TakeFrame<T>(owned: set<T>, free: set<T>, f: T, free': set<T>)
    requires f in free && free' <= free - {f}
    ensures (owned - {}) + {f} + (free - {f} - free') == owned + (free - free')
    ensures owned !! free ==> owned + (free - free') !! free'
  {
  }

  lemma SetCopyGrows(s: St, path: VPage, f: Pfn, page: Frame, s': St)
    requires s.Valid() && s.Leaf(path) == None && f in s.free && page.Data?
    requires var s1 := WithCopy(s, f, page);
             && s1.CopyOwned() == s.CopyOwned() && s1.Leaf(path) == None
             && (AllAccessed(s.m, s.CopyOwned()) ==> AllAccessed(s1.m, s1.CopyOwned()))
             && LeafSet(s1.m, s1.free, s.copy, PDPT_LEVEL, path, CopiedPte(f), s'.m, s'.free, s'.copy)
    ensures CopyGrew(s, s')
  {
    TakeFrame(s.CopyOwned(), s.free, f, s'.free);
    SetCopyWrites(s, f, page, s');
  }

  lemma SetCopyWrites(s: St, f: Pfn, page: Frame, s': St)
    requires f in s.free && s.m.Keys !! s.free
    requires Grows(s.m[f := page], s.free - {f}, s'.m, s'.free)
    requires WritesOnlyTables(s.m[f := page], s.CopyOwned(), s'.m)
    ensures Grows(s.m, s.free, s'.m, s'.free)
    ensures WritesOnlyTables(s.m, s.CopyOwned(), s'.m)
  {
  }
}
