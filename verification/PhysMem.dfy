/** Physical memory with its page allocator, and the page-table algorithms of UmPgTblMgr.cc that run in it. */
module PhysicalMemory {
  import opened Layout
  import opened PageTree
  import opened TreeWalk
  import opened Wrappers

  class PhysMem {
    /** The frames in use. */
    var frames: Mem
    /** The frames the page allocator can hand out. */
    var free: set<Pfn>

    ghost predicate Valid()
      reads this
    {
      frames.Keys !! free && NULL !in frames && NULL !in free
    }

    /** page_allocator->Alloc followed by the fill of the new frame (memset or memcpy).
        Running out of frames is the kbugon abort. */
    method Alloc(init: Frame) returns (r: Outcome<Pfn>)
      requires Valid()
      modifies this
      ensures r.Ok? <==> old(free) != {}
      ensures r.Abort? ==> frames == old(frames) && free == old(free)
      ensures r.Ok? ==> r.value in old(free) && free == old(free) - {r.value} && frames == old(frames)[r.value := init]
      ensures r.Ok? ==> Valid()
    {
      if free == {} {
        return Abort;
      }
      var f :| f in free;
      free := free - {f};
      frames := frames[f := init];
      return Ok(f);
    }

    /** page_allocator->Free: the frame must be in use. */
    method Free(f: Pfn)
      requires Valid() && f in frames
      modifies this
      ensures Valid()
      ensures frames == old(frames) - {f} && free == old(free) + {f}
    {
      frames := frames - {f};
      free := free + {f};
    }

    /** The descent shared by mapIntoPgTblHelper and findAndSetPTECOW: walk down to level 1, creating
        missing tables, and set the leaf of virt to e. A frame that e makes writable must not be owned
        by the tree already, except through the leaf that e replaces. */
    method SetLeaf(root: Pfn, e: Pte, virt: LinAddr, curLvl: nat) returns (r: Outcome<Pfn>)
      requires Valid() && CanSetLeaf(frames, free, root, curLvl, virt.page, e)
      modifies this
      ensures r.Abort? ==> free == {}
      ensures r.Ok? ==> Valid() && LeafSet(old(frames), old(free), root, curLvl, virt.page, e, frames, free, r.value)
      decreases curLvl
    {
      var root' := root;
      if root == NULL {
        root' :- Alloc(Table(ZeroTable()));
        CanSetLeafInNew(old(frames), old(free), root', curLvl, virt.page, e);
      }
      ghost var m, fr := frames, free;
      var i := virt.At(curLvl);
      if curLvl == TBL_LEVEL {
        LeafSetAtTable(m, fr, root', virt.page, e);
        frames := Store(frames, root', i, e);
      } else {
        CanSetLeafBelow(m, fr, root', curLvl, virt.page, e);
        var pte := frames[root'].ents[i];
        if pte.sel {
          var child :- SetLeaf(pte.pfn, e, virt, curLvl - 1);
          LeafSetAbove(m, fr, root', curLvl, virt.page, e, frames, free, child, pte);
          StoreSame(frames, root', i);
        } else {
          var child :- SetLeaf(NULL, e, virt, curLvl - 1);
          LeafSetAbove(m, fr, root', curLvl, virt.page, e, frames, free, child, SetPte(child, false, true, true, true));
          frames := Store(frames, root', i, SetPte(child, false, true, true, true));
        }
      }
      assert LeafSet(m, fr, root', curLvl, virt.page, e, frames, free, root');
      if root == NULL {
        LeafSetFromNull(old(frames), old(free), root', curLvl, virt.page, e, frames, free);
      }
      return Ok(root');
    }

    /** mapIntoPgTbl for 4K pages: map virt to the page phys. */
    method MapIntoPgTbl(root: Pfn, phys: Pfn, virt: LinAddr, rootLvl: nat, mapLvl: nat, curLvl: nat,
                        writeFault: bool, rdPerm: bool := true, execDisable: bool := false)
      returns (r: Outcome<Pfn>)
      requires mapLvl == TBL_LEVEL && mapLvl <= curLvl <= rootLvl <= PDPT_LEVEL
      requires Valid()
      requires CanSetLeaf(frames, free, root, curLvl, virt.page,
                          SetPte(phys, writeFault, true, rdPerm, true, execDisable))
      modifies this
      ensures r.Abort? ==> free == {}
      ensures r.Ok? ==>
        && Valid()
        && LeafSet(old(frames), old(free), root, curLvl, virt.page,
                   SetPte(phys, writeFault, true, rdPerm, true, execDisable), frames, free, r.value)
    {
      r := SetLeaf(root, SetPte(phys, writeFault, true, rdPerm, true, execDisable), virt, curLvl);
    }

    /** findAndSetPTECOW: map virt read-only and dirty to the page that origPte maps. */
    method FindAndSetPteCow(root: Pfn, origPte: Pte, virt: LinAddr, rootLvl: nat, mapLvl: nat, curLvl: nat)
      returns (r: Outcome<Pfn>)
      requires mapLvl == TBL_LEVEL && mapLvl <= curLvl <= rootLvl <= PDPT_LEVEL
      requires Valid() && CanSetLeaf(frames, free, root, curLvl, virt.page, SharedPte(origPte.pfn))
      modifies this
      ensures r.Abort? ==> free == {}
      ensures r.Ok? ==>
        && Valid()
        && LeafSet(old(frames), old(free), root, curLvl, virt.page, SharedPte(origPte.pfn), frames, free, r.value)
    {
      r := SetLeaf(root, SetPte(origPte.pfn, true, true, false, true), virt, curLvl);
    }

    /** copyDirtyPage: a fresh frame with the bytes of src. */
    method CopyDirtyPage(src: Pfn) returns (r: Outcome<Pfn>)
      requires Valid() && src in frames && frames[src].Data?
      modifies this
      ensures r.Abort? ==> free == {}
      ensures r.Ok? ==>
        && Valid() && r.value in old(free)
        && free == old(free) - {r.value} && frames == old(frames)[r.value := old(frames[src])]
    {
      r := Alloc(frames[src]);
    }

    /** The recursion of the three copying walks. The index buffer idx is shared by the whole recursion:
        a call overwrites its own level and those below, never the ones above. */
    method WalkHelper(mode: Mode, root: Pfn, copy: Pfn, lvl: nat, idx: array<Ix>) returns (r: Outcome<Pfn>)
      requires Valid() && idx.Length == 5
      requires CanWalk(St(frames, free, copy), root, lvl, 0, 512, PathOf(idx))
      modifies this, idx
      ensures forall l :: lvl < l < 5 ==> idx[l] == old(idx[l])
      ensures r.Abort? ==> free == {}
      ensures r.Ok? ==>
        && Valid()
        && Walked(old(St(frames, free, copy)), root, lvl, 0, 512, old(PathOf(idx)), mode, St(frames, free, r.value))
      decreases lvl, 2
    {
      var copy' := copy;
      ghost var s0, path := St(frames, free, copy), PathOf(idx);
      WalkedNothing(s0, root, lvl, 0, path, mode);
      var i := 0;
      while i < 512
        invariant 0 <= i <= 512 && Valid()
        invariant forall l :: lvl < l < 5 ==> idx[l] == old(idx[l])
        invariant Walked(s0, root, lvl, 0, i, path, mode, St(frames, free, copy'))
      {
        ghost var s := St(frames, free, copy');
        CanWalkOn(s0, root, lvl, 0, i, 512, path, mode, s);
        CanWalkEntry(s, root, lvl, i, path);
        copy' :- WalkEntry(mode, root, copy', lvl, i, idx, path);
        WalkedOn(s0, root, lvl, 0, i, i + 1, path, mode, s, St(frames, free, copy'));
        i := i + 1;
      }
      return Ok(copy');
    }

    /** One iteration of the walk: entry i of the level-lvl table root. */
    method WalkEntry(mode: Mode, root: Pfn, copy: Pfn, lvl: nat, i: Ix, idx: array<Ix>, ghost path: VPage)
      returns (r: Outcome<Pfn>)
      requires Valid() && idx.Length == 5 && path.SameAbove(PathOf(idx), lvl)
      requires CanWalk(St(frames, free, copy), root, lvl, i, i + 1, path)
      modifies this, idx
      ensures forall l :: lvl < l < 5 ==> idx[l] == old(idx[l])
      ensures r.Abort? ==> free == {}
      ensures r.Ok? ==>
        && Valid()
        && Walked(old(St(frames, free, copy)), root, lvl, i, i + 1, path, mode, St(frames, free, r.value))
      decreases lvl, 1
    {
      ghost var s := St(frames, free, copy);
      TableEntry(s, root, lvl, i, path);
      if !frames[root].ents[i].sel {
        WalkedSkip(s, root, lvl, i, path, mode);
        return Ok(copy);
      }
      idx[lvl] := i;
      ghost var here := PathOf(idx);
      CanWalkOtherPath(s, root, lvl, i, i + 1, path, here);
      var copy' :- WalkExisting(mode, root, copy, lvl, i, idx);
      WalkedOtherPath(s, root, lvl, i, i + 1, here, path, mode, St(frames, free, copy'));
      return Ok(copy');
    }

    /** An existing entry: a leaf, or the root of a subtree. */
    method WalkExisting(mode: Mode, root: Pfn, copy: Pfn, lvl: nat, i: Ix, idx: array<Ix>) returns (r: Outcome<Pfn>)
      requires Valid() && idx.Length == 5 && 1 <= lvl <= 3 && idx[lvl] == i
      requires CanWalk(St(frames, free, copy), root, lvl, i, i + 1, PathOf(idx)) && Ent(frames, root, i).sel
      modifies this, idx
      ensures forall l :: lvl < l < 5 ==> idx[l] == old(idx[l])
      ensures r.Abort? ==> free == {}
      ensures r.Ok? ==>
        && Valid()
        && Walked(old(St(frames, free, copy)), root, lvl, i, i + 1, old(PathOf(idx)), mode, St(frames, free, r.value))
      decreases lvl, 0
    {
      ghost var s, path := St(frames, free, copy), PathOf(idx);
      TableEntry(s, root, lvl, i, path);
      var e := frames[root].ents[i];
      if IsLeaf(e, lvl) {
        r := CopyLeaf(mode, root, copy, i, idx);
      } else {
        CanWalkChild(s, root, lvl, i, path);
        var copy' :- WalkHelper(mode, e.pfn, copy, lvl - 1, idx);
        WalkedChild(s, root, lvl, i, path, mode, St(frames, free, copy'));
        return Ok(copy');
      }
    }

    /** What a walk does at leaf i of the level-1 table root. */
    method CopyLeaf(mode: Mode, root: Pfn, copy: Pfn, i: Ix, idx: array<Ix>) returns (r: Outcome<Pfn>)
      requires Valid() && idx.Length == 5 && idx[TBL_LEVEL] == i
      requires CanWalk(St(frames, free, copy), root, TBL_LEVEL, i, i + 1, PathOf(idx)) && Ent(frames, root, i).sel
      modifies this
      ensures r.Abort? ==> free == {}
      ensures r.Ok? ==>
        && Valid()
        && Walked(old(St(frames, free, copy)), root, TBL_LEVEL, i, i + 1, PathOf(idx), mode, St(frames, free, r.value))
    {
      ghost var s, path := St(frames, free, copy), PathOf(idx);
      var e := frames[root].ents[i];
      var virt := Reconstruct(idx);
      match PteAction(mode, e)
      case Skip =>
        WalkedSkip(s, root, TBL_LEVEL, i, path, mode);
        return Ok(copy);
      case Copy =>
        LeafPage(s, root, i, path);
        var phys :- CopyDirtyPage(e.pfn);
        CanCopy(s, root, i, path, phys);
        var copy' :- MapIntoPgTbl(copy, phys, virt, PDPT_LEVEL, TBL_LEVEL, PDPT_LEVEL, true);
        WalkedCopy(s, root, i, path, mode, phys, St(frames, free, copy'));
        return Ok(copy');
      case Share =>
        CanShare(s, root, i, path);
        var copy' :- FindAndSetPteCow(copy, e, virt, PDPT_LEVEL, TBL_LEVEL, PDPT_LEVEL);
        WalkedShare(s, root, i, path, mode, St(frames, free, copy'));
        return Ok(copy');
    }

    /** The three walks from the root of a page table, with a fresh index buffer. */
    method Walk(mode: Mode, root: Pfn, copy: Pfn, lvl: nat) returns (r: Outcome<Pfn>)
      requires Valid() && lvl == PDPT_LEVEL
      requires forall path :: CanWalk(St(frames, free, copy), root, lvl, 0, 512, path)
      modifies this
      ensures r.Abort? ==> free == {}
      ensures r.Ok? ==>
        && Valid() && CopyGrew(old(St(frames, free, copy)), St(frames, free, r.value))
        && forall v :: LeafCopied(mode, old(frames), Xlate(old(frames), root, PDPT_LEVEL, v), frames,
                                  None, Xlate(frames, r.value, PDPT_LEVEL, v))
    {
      var idx := new Ix[5](l => if l == PML4_LEVEL then SLOT_PML4_NUM else 0);
      var copy' :- WalkHelper(mode, root, copy, lvl, idx);
      return Ok(copy');
    }

    /** freePageTableLamb: the accessed-only traversal that frees the frame of every writable leaf and,
        after its entries, every table. */
    method FreePageTable(root: Pfn, lvl: nat)
      requires Valid() && IsTree(frames, root, lvl)
      requires AllAccessed(frames, Owned(frames, root, lvl)) && Owned(frames, root, lvl) <= frames.Keys
      modifies this
      ensures Valid()
      ensures frames == old(frames) - old(Owned(frames, root, lvl))
      ensures free == old(free) + old(Owned(frames, root, lvl))
      decreases lvl, 1
    {
      ghost var m, fr := frames, free;
      OwnedUpToNext(m, root, lvl, 0);
      assert frames == m - {};
      var i := 0;
      while i < 512
        invariant 0 <= i <= 512 && Valid()
        invariant frames == m - OwnedUpTo(m, root, lvl, i)
        invariant free == fr + OwnedUpTo(m, root, lvl, i)
      {
        ReclaimedUpTo(m, frames, root, lvl, i);
        FreeEntry(frames[root].ents[i], lvl);
        OwnedUpToNext(m, root, lvl, i);
        Reclaim(m, fr, OwnedUpTo(m, root, lvl, i), OwnedBy(m, Ent(m, root, i), lvl));
        i := i + 1;
      }
      OwnedUpToNext(m, root, lvl, 0);
      Reclaim(m, fr, OwnedUpTo(m, root, lvl, 512), {root});
      Free(root);
    }

    /** One step of the traversal: entry e of a level-lvl table. */
    method FreeEntry(e: Pte, lvl: nat)
      requires Valid() && EntOk(frames, e, lvl) && 1 <= lvl
      requires e.sel ==> e.acc
      requires AllAccessed(frames, OwnedBy(frames, e, lvl)) && OwnedBy(frames, e, lvl) <= frames.Keys
      modifies this
      ensures Valid()
      ensures frames == old(frames) - old(OwnedBy(frames, e, lvl))
      ensures free == old(free) + old(OwnedBy(frames, e, lvl))
      decreases lvl, 0
    {
      if e.sel && e.acc {
        if IsLeaf(e, lvl) {
          if e.rw {
            Free(e.pfn);
          }
        } else {
          FreePageTable(e.pfn, lvl - 1);
        }
      }
    }
  }

  /** The page whose indices are in the buffer. */
  function PathOf(idx: array<Ix>): VPage
    requires idx.Length == 5
    reads idx
  {
    VPage(idx[PDPT_LEVEL], idx[DIR_LEVEL], idx[TBL_LEVEL])
  }

  /** reconstructLinAddrPgFromOffsets. */
  function Reconstruct(idx: array<Ix>): LinAddr
    requires idx.Length == 5
    reads idx
  {
    LinAddr(idx[PML4_LEVEL], PathOf(idx), 0)
  }
}
