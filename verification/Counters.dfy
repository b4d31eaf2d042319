/** The counters over a page table: the direct recursions, the closure-driven traversal, and what both count. */
module Counters {
  import opened Layout
  import opened Wrappers
  import opened PageTree
  import opened TreeWalk
  import opened CoreMemory
  import opened CoreSteps

  /** The tables that a recursion from r can reach are there; leaves may lie above level 1. */
  ghost predicate Tables(m: Mem, r: Pfn, lvl: nat)
    decreases lvl
  {
    && 1 <= lvl <= 4 && r in m && m[r].Table?
    && forall i: Ix :: Ent(m, r, i).sel && !IsLeaf(Ent(m, r, i), lvl) ==> Tables(m, Ent(m, r, i).pfn, lvl - 1)
  }

  /** No leaf lies above level 1. */
  ghost predicate SmallPages(m: Mem, r: Pfn, lvl: nat)
    decreases lvl
  {
    forall i: Ix :: Ent(m, r, i).sel && lvl > TBL_LEVEL ==>
      !Ent(m, r, i).maps && SmallPages(m, Ent(m, r, i).pfn, lvl - 1)
  }

  lemma {:induction false} TreeTables(m: Mem, r: Pfn, lvl: nat)
    requires IsTree(m, r, lvl)
    ensures Tables(m, r, lvl) && SmallPages(m, r, lvl)
    decreases lvl
  {
    forall i: Ix | Ent(m, r, i).sel && lvl > TBL_LEVEL
      ensures !Ent(m, r, i).maps && Tables(m, Ent(m, r, i).pfn, lvl - 1) && SmallPages(m, Ent(m, r, i).pfn, lvl - 1)
    {
      assert EntOk(m, Ent(m, r, i), lvl);
      TreeTables(m, Ent(m, r, i).pfn, lvl - 1);
    }
  }

  // ---------- What the counters count ----------

  /** The direct recursions: among entries 0..n of the level-lvl table r and the tables below them, the
      level-k leaves that keep accepts. */
  function Direct(keep: Pte -> bool, m: Mem, r: Pfn, lvl: nat, n: nat, k: nat): nat
    requires n <= 512
    decreases lvl, 1, n
  {
    if n == 0 then 0
    else Direct(keep, m, r, lvl, n - 1, k) + DirectEntry(keep, m, Ent(m, r, n - 1), lvl, k)
  }

  function DirectEntry(keep: Pte -> bool, m: Mem, e: Pte, lvl: nat, k: nat): nat
    decreases lvl, 0
  {
    if !e.sel || lvl == 0 then 0
    else if IsLeaf(e, lvl) then (if k == lvl && keep(e) then 1 else 0)
    else Direct(keep, m, e.pfn, lvl - 1, 512, k)
  }

  /** countValidPTEsHelper counts every existing entry, and goes below every entry above level 1. */
  function DirectPtes(m: Mem, r: Pfn, lvl: nat, n: nat, k: nat): nat
    requires n <= 512
    decreases lvl, n
  {
    if n == 0 || lvl == 0 then 0
    else
      var e := Ent(m, r, n - 1);
      DirectPtes(m, r, lvl, n - 1, k)
      + if !e.sel then 0
        else (if k == lvl then 1 else 0) + if lvl > TBL_LEVEL then DirectPtes(m, e.pfn, lvl - 1, 512, k) else 0
  }

  /** The closures given to traversePageTable: which entries it follows, whether the test itself counts them,
      and which leaves the leaf function counts. */
  datatype Visitor = Visitor(follow: Pte -> bool, countsEntries: bool, leaf: Pte -> bool)

  predicate Any(e: Pte) {
    true
  }

  function ValidPages(): Visitor {
    Visitor((e: Pte) => e.sel, false, Any)
  }

  function ValidPtes(): Visitor {
    Visitor((e: Pte) => e.sel, true, (e: Pte) => false)
  }

  /** The accessed-only traversals: countAccessedPagesLamb, countDirtyPagesLamb and countWritablePagesLamb. */
  function AccessedOnly(leaf: Pte -> bool): Visitor {
    Visitor((e: Pte) => e.sel && e.acc, false, leaf)
  }

  /** What traversePageTable counts at level k among entries 0..n. */
  function Visited(vis: Visitor, m: Mem, r: Pfn, lvl: nat, n: nat, k: nat): nat
    requires n <= 512
    decreases lvl, 1, n
  {
    if n == 0 then 0
    else Visited(vis, m, r, lvl, n - 1, k) + VisitedEntry(vis, m, Ent(m, r, n - 1), lvl, k)
  }

  function VisitedEntry(vis: Visitor, m: Mem, e: Pte, lvl: nat, k: nat): nat
    decreases lvl, 0
  {
    if !vis.follow(e) || lvl == 0 then 0
    else
      (if vis.countsEntries && k == lvl then 1 else 0)
      + if IsLeaf(e, lvl) then (if k == lvl && vis.leaf(e) then 1 else 0)
        else Visited(vis, m, e.pfn, lvl - 1, 512, k)
  }

  /** The pages under entries 0..n of a level-lvl table on the path to v that f accepts: a count that knows
      nothing of tables. */
  ghost function Pages(f: VPage -> bool, lvl: nat, v: VPage, n: nat): nat
    requires n <= 512
    decreases lvl, n
  {
    if n == 0 || lvl == 0 then 0
    else
      Pages(f, lvl, v, n - 1)
      + if lvl == TBL_LEVEL then (if f(v.With(lvl, n - 1)) then 1 else 0)
        else Pages(f, lvl - 1, v.With(lvl, n - 1), 512)
  }

  // ---------- The counters ----------

  /** countValidPagesHelper, countDirtyPagesHelper and countAccessedPagesHelper; keep is the test at a leaf. */
  method CountPagesHelper(keep: Pte -> bool, m: Mem, root: Pfn, lvl: nat, counts: array<nat>)
    requires counts.Length == 5 && Tables(m, root, lvl)
    modifies counts
    ensures forall k :: 0 <= k < 5 ==> counts[k] == old(counts[k]) + Direct(keep, m, root, lvl, 512, k)
    decreases lvl, 1
  {
    var i := 0;
    while i < 512
      invariant 0 <= i <= 512
      invariant forall k :: 0 <= k < 5 ==> counts[k] == old(counts[k]) + Direct(keep, m, root, lvl, i, k)
    {
      CountEntry(keep, m, Ent(m, root, i), lvl, counts);
      i := i + 1;
    }
  }

  /** One iteration: entry e of a level-lvl table. */
  method CountEntry(keep: Pte -> bool, m: Mem, e: Pte, lvl: nat, counts: array<nat>)
    requires counts.Length == 5 && 1 <= lvl <= 4 && (e.sel && !IsLeaf(e, lvl) ==> Tables(m, e.pfn, lvl - 1))
    modifies counts
    ensures forall k :: 0 <= k < 5 ==> counts[k] == old(counts[k]) + DirectEntry(keep, m, e, lvl, k)
    decreases lvl, 0
  {
    if e.sel {
      if IsLeaf(e, lvl) {
        if keep(e) {
          counts[lvl] := counts[lvl] + 1;
        }
      } else {
        CountPagesHelper(keep, m, e.pfn, lvl - 1, counts);
      }
    }
  }

  /** countValidPTEsHelper. */
  method CountValidPtesHelper(m: Mem, root: Pfn, lvl: nat, counts: array<nat>)
    requires counts.Length == 5 && Tables(m, root, lvl) && SmallPages(m, root, lvl)
    modifies counts
    ensures forall k :: 0 <= k < 5 ==> counts[k] == old(counts[k]) + DirectPtes(m, root, lvl, 512, k)
    decreases lvl
  {
    var i := 0;
    while i < 512
      invariant 0 <= i <= 512
      invariant forall k :: 0 <= k < 5 ==> counts[k] == old(counts[k]) + DirectPtes(m, root, lvl, i, k)
    {
      var e := m[root].ents[i];
      assert e == Ent(m, root, i);
      if e.sel {
        counts[lvl] := counts[lvl] + 1;
        if lvl > TBL_LEVEL {
          CountValidPtesHelper(m, e.pfn, lvl - 1, counts);
        }
      }
      i := i + 1;
    }
  }

  /** traversePageTable, with closures that count. */
  method TraversePageTable(vis: Visitor, m: Mem, root: Pfn, lvl: nat, counts: array<nat>)
    requires counts.Length == 5 && Tables(m, root, lvl)
    requires forall e: Pte :: vis.follow(e) ==> e.sel
    modifies counts
    ensures forall k :: 0 <= k < 5 ==> counts[k] == old(counts[k]) + Visited(vis, m, root, lvl, 512, k)
    decreases lvl
  {
    var i := 0;
    while i < 512
      invariant 0 <= i <= 512
      invariant forall k :: 0 <= k < 5 ==> counts[k] == old(counts[k]) + Visited(vis, m, root, lvl, i, k)
    {
      var e := m[root].ents[i];
      assert e == Ent(m, root, i);
      if vis.follow(e) {
        if vis.countsEntries {
          counts[lvl] := counts[lvl] + 1;
        }
        if IsLeaf(e, lvl) {
          if vis.leaf(e) {
            counts[lvl] := counts[lvl] + 1;
          }
        } else {
          TraversePageTable(vis, m, e.pfn, lvl - 1, counts);
        }
      }
      i := i + 1;
    }
  }

  /** A leaf, at level 1 or with MAPS above it, is counted at its level and not looked into, by both forms. */
  lemma LeavesCounted(keep: Pte -> bool, vis: Visitor, m: Mem, e: Pte, lvl: nat, k: nat)
    requires 1 <= lvl <= 4 && e.sel && (lvl == 1 || e.maps) && vis.follow(e) && !vis.countsEntries
    ensures DirectEntry(keep, m, e, lvl, k) == if k == lvl && keep(e) then 1 else 0
    ensures VisitedEntry(vis, m, e, lvl, k) == if k == lvl && vis.leaf(e) then 1 else 0
  {
  }

  /** At the level of the table, the entries counted are the existing ones. */
  lemma {:induction false} PtesCounted(m: Mem, r: Pfn, lvl: nat, n: nat)
    requires n <= 512 && 1 <= lvl
    ensures DirectPtes(m, r, lvl, n, lvl) == |Existing(m, r, n)|
    decreases n
  {
    if n == 0 {
      assert Existing(m, r, n) == {};
    } else {
      PtesCounted(m, r, lvl, n - 1);
      NoneHigher(m, Ent(m, r, n - 1).pfn, lvl - 1, 512, lvl);
      NextExisting(m, r, n - 1);
    }
  }

  ghost function Existing(m: Mem, r: Pfn, n: nat): set<Ix> {
    set i: Ix | 0 <= i < n && Ent(m, r, i).sel
  }

  lemma NextExisting(m: Mem, r: Pfn, i: Ix)
    ensures Existing(m, r, i + 1) == Existing(m, r, i) + (if Ent(m, r, i).sel then {i} else {})
    ensures i !in Existing(m, r, i)
  {
  }

  /** The recursion below a table counts nothing at higher levels. */
  lemma {:induction false} NoneHigher(m: Mem, r: Pfn, lvl: nat, n: nat, k: nat)
    requires n <= 512 && lvl < k
    ensures DirectPtes(m, r, lvl, n, k) == 0
    decreases lvl, n
  {
    if n > 0 && lvl > 0 {
      NoneHigher(m, r, lvl, n - 1, k);
      NoneHigher(m, Ent(m, r, n - 1).pfn, lvl - 1, 512, k);
    }
  }

  // ---------- The two forms agree ----------

  lemma {:induction false} ValidPagesAgree(m: Mem, r: Pfn, lvl: nat, n: nat, k: nat)
    requires n <= 512
    ensures Visited(ValidPages(), m, r, lvl, n, k) == Direct(Any, m, r, lvl, n, k)
    decreases lvl, n
  {
    if n > 0 {
      ValidPagesAgree(m, r, lvl, n - 1, k);
      if lvl > 0 {
        ValidPagesAgree(m, Ent(m, r, n - 1).pfn, lvl - 1, 512, k);
      }
    }
  }

  lemma {:induction false} ValidPtesAgree(m: Mem, r: Pfn, lvl: nat, n: nat, k: nat)
    requires n <= 512 && lvl > 0 && SmallPages(m, r, lvl)
    ensures Visited(ValidPtes(), m, r, lvl, n, k) == DirectPtes(m, r, lvl, n, k)
    decreases lvl, n
  {
    if n > 0 {
      ValidPtesAgree(m, r, lvl, n - 1, k);
      var e := Ent(m, r, n - 1);
      if e.sel && lvl > TBL_LEVEL {
        ValidPtesAgree(m, e.pfn, lvl - 1, 512, k);
      }
    }
  }

  /** No level-k leaf below entry e is one that keep accepts. */
  ghost predicate NoneBelow(keep: Pte -> bool, m: Mem, e: Pte, lvl: nat, k: nat)
    decreases lvl
  {
    e.sel && lvl > 0 ==>
      if IsLeaf(e, lvl) then !(k == lvl && keep(e))
      else forall i: Ix :: NoneBelow(keep, m, Ent(m, e.pfn, i), lvl - 1, k)
  }

  /** Entries on the way to the level-k leaves that keep accepts are accessed. */
  ghost predicate AccessedAbove(keep: Pte -> bool, m: Mem, e: Pte, lvl: nat, k: nat)
    decreases lvl
  {
    e.sel && lvl > 0 ==>
      if !e.acc then NoneBelow(keep, m, e, lvl, k)
      else IsLeaf(e, lvl) || forall i: Ix :: AccessedAbove(keep, m, Ent(m, e.pfn, i), lvl - 1, k)
  }

  lemma {:induction false} NothingCounted(keep: Pte -> bool, m: Mem, e: Pte, lvl: nat, k: nat)
    ensures DirectEntry(keep, m, e, lvl, k) == 0 <==> NoneBelow(keep, m, e, lvl, k)
    decreases lvl, 0
  {
    if e.sel && lvl > 0 && !IsLeaf(e, lvl) {
      NothingCountedUpTo(keep, m, e.pfn, lvl - 1, 512, k);
    }
  }

  lemma {:induction false} NothingCountedUpTo(keep: Pte -> bool, m: Mem, r: Pfn, lvl: nat, n: nat, k: nat)
    requires n <= 512
    ensures Direct(keep, m, r, lvl, n, k) == 0 <==> forall i: Ix :: i < n ==> NoneBelow(keep, m, Ent(m, r, i), lvl, k)
    decreases lvl, 1, n
  {
    if n > 0 {
      NothingCountedUpTo(keep, m, r, lvl, n - 1, k);
      NothingCounted(keep, m, Ent(m, r, n - 1), lvl, k);
    }
  }

  lemma {:induction false} AccessedEntryAgrees(keep: Pte -> bool, m: Mem, e: Pte, lvl: nat, k: nat)
    ensures VisitedEntry(AccessedOnly(keep), m, e, lvl, k) <= DirectEntry(keep, m, e, lvl, k)
    ensures VisitedEntry(AccessedOnly(keep), m, e, lvl, k) == DirectEntry(keep, m, e, lvl, k)
            <==> AccessedAbove(keep, m, e, lvl, k)
    decreases lvl, 0
  {
    if e.sel && lvl > 0 {
      if !e.acc {
        NothingCounted(keep, m, e, lvl, k);
      } else if !IsLeaf(e, lvl) {
        AccessedPagesAgree(keep, m, e.pfn, lvl - 1, 512, k);
      }
    }
  }

  /** The accessed-only traversal never counts more than the direct recursion, and counts the same exactly when
      every entry on the way to a counted leaf, and the leaf itself, is accessed. */
  lemma {:induction false} AccessedPagesAgree(keep: Pte -> bool, m: Mem, r: Pfn, lvl: nat, n: nat, k: nat)
    requires n <= 512
    ensures Visited(AccessedOnly(keep), m, r, lvl, n, k) <= Direct(keep, m, r, lvl, n, k)
    ensures Visited(AccessedOnly(keep), m, r, lvl, n, k) == Direct(keep, m, r, lvl, n, k)
            <==> forall i: Ix :: i < n ==> AccessedAbove(keep, m, Ent(m, r, i), lvl, k)
    decreases lvl, 1, n
  {
    if n > 0 {
      AccessedPagesAgree(keep, m, r, lvl, n - 1, k);
      AccessedEntryAgrees(keep, m, Ent(m, r, n - 1), lvl, k);
    }
  }

  // The leaf tests of the counters.

  predicate IsAccessed(e: Pte) {
    e.acc
  }

  predicate IsDirty(e: Pte) {
    e.dirty
  }

  /** The closure of countAccessedPagesLamb counts every leaf that the traversal reaches: the accessed ones. */
  lemma {:induction false} ReachedIsAccessed(m: Mem, r: Pfn, lvl: nat, n: nat, k: nat)
    requires n <= 512
    ensures Visited(AccessedOnly(Any), m, r, lvl, n, k) == Visited(AccessedOnly(IsAccessed), m, r, lvl, n, k)
    decreases lvl, n
  {
    if n > 0 {
      ReachedIsAccessed(m, r, lvl, n - 1, k);
      if lvl > 0 {
        ReachedIsAccessed(m, Ent(m, r, n - 1).pfn, lvl - 1, 512, k);
      }
    }
  }

  /** countAccessedPagesLamb counts what countAccessedPages does exactly when every entry above an accessed leaf is
      accessed, and never more. */
  lemma AccessedCountersAgree(m: Mem, r: Pfn, lvl: nat, k: nat)
    ensures Visited(AccessedOnly(Any), m, r, lvl, 512, k) <= Direct(IsAccessed, m, r, lvl, 512, k)
    ensures Visited(AccessedOnly(Any), m, r, lvl, 512, k) == Direct(IsAccessed, m, r, lvl, 512, k)
            <==> forall i: Ix :: AccessedAbove(IsAccessed, m, Ent(m, r, i), lvl, k)
  {
    ReachedIsAccessed(m, r, lvl, 512, k);
    AccessedPagesAgree(IsAccessed, m, r, lvl, 512, k);
  }

  /** countDirtyPagesLamb counts what countDirtyPages does exactly when every dirty leaf and every entry above one
      is accessed, and never more. */
  lemma DirtyCountersAgree(m: Mem, r: Pfn, lvl: nat, k: nat)
    ensures Visited(AccessedOnly(IsDirty), m, r, lvl, 512, k) <= Direct(IsDirty, m, r, lvl, 512, k)
    ensures Visited(AccessedOnly(IsDirty), m, r, lvl, 512, k) == Direct(IsDirty, m, r, lvl, 512, k)
            <==> forall i: Ix :: AccessedAbove(IsDirty, m, Ent(m, r, i), lvl, k)
  {
    AccessedPagesAgree(IsDirty, m, r, lvl, 512, k);
  }

  /** In particular when every existing entry is accessed. */
  lemma {:induction false} AllAccessedSuffices(keep: Pte -> bool, m: Mem, e: Pte, lvl: nat, k: nat)
    requires EntOk(m, e, lvl) && (e.sel ==> e.acc) && AllAccessed(m, OwnedBy(m, e, lvl))
    ensures AccessedAbove(keep, m, e, lvl, k)
    decreases lvl
  {
    if e.sel && lvl > TBL_LEVEL {
      forall i: Ix
        ensures AccessedAbove(keep, m, Ent(m, e.pfn, i), lvl - 1, k)
      {
        OwnedByInOwned(m, e.pfn, lvl - 1, i);
        AllAccessedSuffices(keep, m, Ent(m, e.pfn, i), lvl - 1, k);
      }
    }
  }

  // ---------- What is counted, without tables ----------

  lemma {:induction false} SamePages(f: VPage -> bool, g: VPage -> bool, lvl: nat, v: VPage, n: nat)
    requires n <= 512 && lvl <= 3 && forall x: VPage :: x.SameAbove(v, lvl) ==> f(x) == g(x)
    ensures Pages(f, lvl, v, n) == Pages(g, lvl, v, n)
    decreases lvl, n
  {
    if n > 0 && lvl > 0 {
      SamePages(f, g, lvl, v, n - 1);
      if lvl > TBL_LEVEL {
        SamePages(f, g, lvl - 1, v.With(lvl, n - 1), 512);
      }
    }
  }

  lemma {:induction false} NoPages(f: VPage -> bool, lvl: nat, v: VPage, n: nat)
    requires n <= 512 && lvl <= 3 && forall x: VPage :: x.SameAbove(v, lvl) ==> !f(x)
    ensures Pages(f, lvl, v, n) == 0
    decreases lvl, n
  {
    if n > 0 && lvl > 0 {
      NoPages(f, lvl, v, n - 1);
      if lvl > TBL_LEVEL {
        NoPages(f, lvl - 1, v.With(lvl, n - 1), 512);
      }
    }
  }

  ghost predicate LeafKept(keep: Pte -> bool, m: Mem, r: Pfn, lvl: nat, x: VPage) {
    Xlate(m, r, lvl, x).Some? && keep(Xlate(m, r, lvl, x).value)
  }

  /** The pages that Pages counts, as a set. */
  ghost function PageSet(f: VPage -> bool, lvl: nat, v: VPage, n: nat): set<VPage> {
    set a: Ix, b: Ix, c: Ix | Among(f, lvl, v, n, VPage(a, b, c)) :: VPage(a, b, c)
  }

  predicate Among(f: VPage -> bool, lvl: nat, v: VPage, n: nat, x: VPage) {
    x.SameAbove(v, lvl) && x.At(lvl) < n && f(x)
  }

  lemma InPageSet(f: VPage -> bool, lvl: nat, v: VPage, n: nat)
    ensures forall x :: x in PageSet(f, lvl, v, n) <==> Among(f, lvl, v, n, x)
  {
    forall x | Among(f, lvl, v, n, x)
      ensures x in PageSet(f, lvl, v, n)
    {
      assert x == VPage(x.pdpt, x.dir, x.tab);
    }
  }

  /** Pages is the size of this set. */
  lemma {:induction false} PagesAreSet(f: VPage -> bool, lvl: nat, v: VPage, n: nat)
    requires n <= 512 && 1 <= lvl <= 3
    ensures Pages(f, lvl, v, n) == |PageSet(f, lvl, v, n)|
    decreases lvl, n
  {
    if n == 0 {
      assert PageSet(f, lvl, v, n) == {};
    } else {
      PagesAreSet(f, lvl, v, n - 1);
      if lvl == TBL_LEVEL {
        NextPage(f, v, n);
      } else {
        PagesAreSet(f, lvl - 1, v.With(lvl, n - 1), 512);
        NextPages(f, lvl, v, n);
      }
    }
  }

  lemma NextPage(f: VPage -> bool, v: VPage, n: nat)
    requires 1 <= n <= 512
    ensures var w := v.With(TBL_LEVEL, n - 1);
            && PageSet(f, TBL_LEVEL, v, n) == PageSet(f, TBL_LEVEL, v, n - 1) + (if f(w) then {w} else {})
            && w !in PageSet(f, TBL_LEVEL, v, n - 1)
  {
    InPageSet(f, TBL_LEVEL, v, n);
    InPageSet(f, TBL_LEVEL, v, n - 1);
  }

  lemma NextPages(f: VPage -> bool, lvl: nat, v: VPage, n: nat)
    requires 1 <= n <= 512 && TBL_LEVEL < lvl <= 3
    ensures var w := v.With(lvl, n - 1);
            && PageSet(f, lvl, v, n) == PageSet(f, lvl, v, n - 1) + PageSet(f, lvl - 1, w, 512)
            && PageSet(f, lvl, v, n - 1) !! PageSet(f, lvl - 1, w, 512)
  {
    var w := v.With(lvl, n - 1);
    var all, before, last := PageSet(f, lvl, v, n), PageSet(f, lvl, v, n - 1), PageSet(f, lvl - 1, w, 512);
    InPageSet(f, lvl, v, n);
    InPageSet(f, lvl, v, n - 1);
    InPageSet(f, lvl - 1, w, 512);
    forall x
      ensures x in all <==> x in before || x in last
      ensures !(x in before && x in last)
    {
      AmongNext(f, lvl, v, n, x);
    }
  }

  lemma AmongNext(f: VPage -> bool, lvl: nat, v: VPage, n: nat, x: VPage)
    requires 1 <= n <= 512 && TBL_LEVEL < lvl <= 3
    ensures var w := v.With(lvl, n - 1);
            && (Among(f, lvl, v, n, x) <==> Among(f, lvl, v, n - 1, x) || Among(f, lvl - 1, w, 512, x))
            && !(Among(f, lvl, v, n - 1, x) && Among(f, lvl - 1, w, 512, x))
  {
    if lvl == 2 {
    } else {
    }
  }

  /** The direct recursion counts, at level 1, the pages whose leaf keep accepts. */
  lemma {:induction false} DirectCountsPages(keep: Pte -> bool, m: Mem, r: Pfn, lvl: nat, v: VPage, n: nat)
    requires n <= 512 && IsTree(m, r, lvl)
    ensures Direct(keep, m, r, lvl, n, TBL_LEVEL) == Pages(x => LeafKept(keep, m, r, lvl, x), lvl, v, n)
    decreases lvl, n
  {
    if n > 0 {
      DirectCountsPages(keep, m, r, lvl, v, n - 1);
      var e, w := Ent(m, r, n - 1), v.With(lvl, n - 1);
      assert EntOk(m, e, lvl);
      if lvl > TBL_LEVEL {
        EntryCountsPages(keep, m, r, lvl, w, e);
      }
    }
  }

  lemma {:induction false} EntryCountsPages(keep: Pte -> bool, m: Mem, r: Pfn, lvl: nat, w: VPage, e: Pte)
    requires TBL_LEVEL < lvl <= 3 && e == Ent(m, r, w.At(lvl)) && EntOk(m, e, lvl)
    ensures DirectEntry(keep, m, e, lvl, TBL_LEVEL) == Pages(x => LeafKept(keep, m, r, lvl, x), lvl - 1, w, 512)
    decreases lvl, 0
  {
    var f := x => LeafKept(keep, m, r, lvl, x);
    forall x: VPage | x.SameAbove(w, lvl - 1)
      ensures f(x) == (e.sel && LeafKept(keep, m, e.pfn, lvl - 1, x))
    {
      assert x.At(lvl) == w.At(lvl);
    }
    if e.sel {
      DirectCountsPages(keep, m, e.pfn, lvl - 1, w, 512);
      SamePages(f, x => LeafKept(keep, m, e.pfn, lvl - 1, x), lvl - 1, w, 512);
    } else {
      NoPages(f, lvl - 1, w, 512);
    }
  }

  // ---------- UmPth::CountOwnedPages ----------

  predicate IsWritable(e: Pte) {
    e.rw
  }

  predicate IsWrittenAndOwned(e: Pte) {
    e.dirty && e.rw
  }

  /** The number of pages of the slot whose leaf keep accepts. */
  ghost function SlotPages(keep: Pte -> bool, m: Mem, root: Pfn): nat {
    Pages(x => LeafKept(keep, m, root, PDPT_LEVEL, x), PDPT_LEVEL, VPage(0, 0, 0), 512)
  }

  /** CountOwnedPages: the pages whose frames the page table owns. */
  method CountOwnedPages(m: Mem, root: Pfn) returns (n: nat)
    requires TreeOk(m, root) && root != NULL
    ensures n == SlotPages(IsWritable, m, root)
  {
    var counts := new nat[5](_ => 0);
    TreeTables(m, root, PDPT_LEVEL);
    TraversePageTable(AccessedOnly(IsWritable), m, root, PDPT_LEVEL, counts);
    OwnedPagesCounted(IsWritable, m, root);
    return counts[TBL_LEVEL];
  }

  lemma OwnedPagesCounted(keep: Pte -> bool, m: Mem, root: Pfn)
    requires IsTree(m, root, PDPT_LEVEL) && AllAccessed(m, Owned(m, root, PDPT_LEVEL))
    ensures Visited(AccessedOnly(keep), m, root, PDPT_LEVEL, 512, TBL_LEVEL) == SlotPages(keep, m, root)
  {
    forall i: Ix
      ensures AccessedAbove(keep, m, Ent(m, root, i), PDPT_LEVEL, TBL_LEVEL)
    {
      OwnedByInOwned(m, root, PDPT_LEVEL, i);
      assert EntOk(m, Ent(m, root, i), PDPT_LEVEL);
      AllAccessedSuffices(keep, m, Ent(m, root, i), PDPT_LEVEL, TBL_LEVEL);
    }
    AccessedPagesAgree(keep, m, root, PDPT_LEVEL, 512, TBL_LEVEL);
    DirectCountsPages(keep, m, root, PDPT_LEVEL, VPage(0, 0, 0), 512);
  }

  ghost predicate Injective<A, B>(g: map<A, B>) {
    forall x, y :: x in g && y in g && x != y ==> g[x] != g[y]
  }

  lemma {:induction false} InjectiveSize<A, B>(g: map<A, B>)
    requires Injective(g)
    ensures |g.Values| == |g.Keys|
    decreases |g|
  {
    if g.Keys != {} {
      var x :| x in g;
      var h := g - {x};
      assert h.Keys == g.Keys - {x};
      InjectiveSize(h);
      forall b | b in g.Values
        ensures b in h.Values + {g[x]}
      {
        var y :| y in g && g[y] == b;
        assert y == x || (y in h && h[y] == b);
      }
      assert g.Values == h.Values + {g[x]};
    }
  }

  lemma SameSize<A, B>(g: map<A, B>, a: set<A>, b: set<B>)
    requires Injective(g) && g.Keys == a && g.Values == b
    ensures |b| == |a|
  {
    InjectiveSize(g);
  }

  /** What CountOwnedPages returns is the number of pages, tables apart, that the page table owns and that its
      destruction frees. */
  lemma OwnedFramesCounted(m: Mem, root: Pfn)
    requires BackedTree(m, root)
    ensures SlotPages(IsWritable, m, root) == |OwnedData(m, root)|
  {
    var pages := SlotPageSet(IsWritable, m, root);
    PagesToFrames(m, root, pages);
  }

  lemma SlotPageSet(keep: Pte -> bool, m: Mem, root: Pfn) returns (pages: set<VPage>)
    ensures |pages| == SlotPages(keep, m, root)
    ensures forall x :: x in pages <==> LeafKept(keep, m, root, PDPT_LEVEL, x)
  {
    pages := AllPages(x => LeafKept(keep, m, root, PDPT_LEVEL, x));
  }

  lemma AllPages(f: VPage -> bool) returns (pages: set<VPage>)
    ensures |pages| == Pages(f, PDPT_LEVEL, VPage(0, 0, 0), 512) && forall x :: x in pages <==> f(x)
  {
    pages := CountedPages(f, PDPT_LEVEL, VPage(0, 0, 0), 512);
  }

  lemma CountedPages(f: VPage -> bool, lvl: nat, v: VPage, n: nat) returns (pages: set<VPage>)
    requires n <= 512 && 1 <= lvl <= 3
    ensures |pages| == Pages(f, lvl, v, n) && forall x :: x in pages <==> Among(f, lvl, v, n, x)
  {
    pages := PageSet(f, lvl, v, n);
    PagesAreSet(f, lvl, v, n);
    InPageSet(f, lvl, v, n);
  }

  ghost predicate BackedTree(m: Mem, root: Pfn) {
    IsTree(m, root, PDPT_LEVEL) && LeavesBacked(m, root, PDPT_LEVEL)
  }

  ghost function OwnedData(m: Mem, root: Pfn): set<Pfn> {
    set f | f in Owned(m, root, PDPT_LEVEL) && f in m && m[f].Data?
  }

  lemma PagesToFrames(m: Mem, root: Pfn, pages: set<VPage>)
    requires BackedTree(m, root)
    requires forall x :: x in pages <==> LeafKept(IsWritable, m, root, PDPT_LEVEL, x)
    ensures |OwnedData(m, root)| == |pages|
  {
    FramesInjective(m, root, pages);
    OwnedFrames(m, root, pages);
    SameSize(FrameMap(m, root, pages), pages, OwnedData(m, root));
  }

  ghost function FrameMap(m: Mem, root: Pfn, pages: set<VPage>): map<VPage, Pfn> {
    map x | x in pages :: LeafFrame(m, root, x)
  }

  lemma FramesInjective(m: Mem, root: Pfn, pages: set<VPage>)
    requires BackedTree(m, root)
    requires forall x :: x in pages <==> LeafKept(IsWritable, m, root, PDPT_LEVEL, x)
    ensures Injective(FrameMap(m, root, pages)) && FrameMap(m, root, pages).Keys == pages
  {
    forall x, y | x in pages && y in pages && x != y
      ensures LeafFrame(m, root, x) != LeafFrame(m, root, y)
    {
      FramesDiffer(m, root, x, y);
    }
  }

  lemma FramesDiffer(m: Mem, root: Pfn, x: VPage, y: VPage)
    requires BackedTree(m, root) && x != y
    requires LeafKept(IsWritable, m, root, PDPT_LEVEL, x) && LeafKept(IsWritable, m, root, PDPT_LEVEL, y)
    ensures LeafFrame(m, root, x) != LeafFrame(m, root, y)
  {
    if LeafFrame(m, root, x) == LeafFrame(m, root, y) {
      assert LeafFrame(m, root, x)
          in LeafOwned(Xlate(m, root, PDPT_LEVEL, x)) * LeafOwned(Xlate(m, root, PDPT_LEVEL, y));
      WritableLeavesDistinct(m, root, PDPT_LEVEL, x, y);
    }
  }

  ghost function LeafFrame(m: Mem, root: Pfn, x: VPage): Pfn {
    var e := Xlate(m, root, PDPT_LEVEL, x);
    if e.Some? then e.value.pfn else NULL
  }

  lemma OwnedFrames(m: Mem, root: Pfn, pages: set<VPage>)
    requires BackedTree(m, root)
    requires forall x :: x in pages <==> LeafKept(IsWritable, m, root, PDPT_LEVEL, x)
    ensures FrameMap(m, root, pages).Values == OwnedData(m, root)
  {
    forall f | f in OwnedData(m, root)
      ensures f in FrameMap(m, root, pages).Values
    {
      var x := OwnedPageIsLeaf(m, root, PDPT_LEVEL, f);
      assert x in FrameMap(m, root, pages) && FrameMap(m, root, pages)[x] == f;
    }
    forall x | x in pages
      ensures LeafFrame(m, root, x) in OwnedData(m, root)
    {
      LeafOwnedInTree(m, root, PDPT_LEVEL, x);
    }
  }

  /** A snapshot owns as many pages as its source had both written and owned. */
  lemma SnapshotOwnedPages(m: Mem, free: set<Pfn>, src: Pfn, m': Mem, free': set<Pfn>, root': Pfn)
    requires TableCopied(Snapshot, m, free, src, m', free', root')
    ensures SlotPages(IsWritable, m', root') == SlotPages(IsWrittenAndOwned, m, src)
  {
    forall x
      ensures LeafKept(IsWritable, m', root', PDPT_LEVEL, x) == LeafKept(IsWrittenAndOwned, m, src, PDPT_LEVEL, x)
    {
      assert LeafCopied(Snapshot, m, Xlate(m, src, PDPT_LEVEL, x), m', None, Xlate(m', root', PDPT_LEVEL, x));
    }
    SamePages(x => LeafKept(IsWritable, m', root', PDPT_LEVEL, x),
              x => LeafKept(IsWrittenAndOwned, m, src, PDPT_LEVEL, x), PDPT_LEVEL, VPage(0, 0, 0), 512);
  }
}
