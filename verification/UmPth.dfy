/** The page-table handler of a state vector (UmPth.cc). */
module PageTableHandler {
  import opened Layout
  import opened Wrappers
  import opened PageTree
  import opened TreeWalk
  import opened PhysicalMemory
  import opened AddressSpaces
  import opened CoreMemory
  import opened CoreSteps

  // A copy forgets which pages may not be executed.

  /** Entry e' of a copy is on a fresh page of its own, writable, with the bytes of the page that e maps. */
  ghost predicate OwnPage(m: Mem, free: set<Pfn>, e: Pte, m': Mem, free': set<Pfn>, e': Pte) {
    && e'.rw && e'.dirty && !e'.xd && e'.pfn in free - free' && e.pfn in m && e'.pfn in m' && m'[e'.pfn] == m[e.pfn]
  }

  /** Entry e' of a copy maps the page of e read-only. */
  predicate SamePage(e: Pte, e': Pte) {
    e'.pfn == e.pfn && !e'.rw && e'.dirty && !e'.xd
  }

  /** The page table at root' has the written pages of the one at src and no others: its own copies in the deep-copy
      build, and otherwise the very same pages, except that a snapshot has its own copies of those that src owns. */
  ghost predicate CopyOf(build: Build, snapshot: bool, m: Mem, free: set<Pfn>, src: Pfn,
                         m': Mem, free': set<Pfn>, root': Pfn)
  {
    forall v :: var e, e' := Xlate(m, src, PDPT_LEVEL, v), Xlate(m', root', PDPT_LEVEL, v);
      && (e'.Some? <==> e.Some? && e.value.dirty)
      && (e'.Some? ==> if build == NoCow || (snapshot && e.value.rw) then OwnPage(m, free, e.value, m', free', e'.value)
                       else SamePage(e.value, e'.value))
  }

  lemma CloneIsCopy(build: Build, m: Mem, free: set<Pfn>, src: Pfn, m': Mem, free': set<Pfn>, root': Pfn)
    requires TableCopied(build.DeployMode(), m, free, src, m', free', root') && m.Keys !! free
    ensures CopyOf(build, false, m, free, src, m', free', root')
  {
    forall v
      ensures LeafCopied(build.DeployMode(), m, Xlate(m, src, PDPT_LEVEL, v), m', None, Xlate(m', root', PDPT_LEVEL, v))
    {
    }
  }

  lemma SnapshotIsCopy(build: Build, m: Mem, free: set<Pfn>, src: Pfn, m': Mem, free': set<Pfn>, root': Pfn)
    requires TableCopied(build.SnapshotMode(), m, free, src, m', free', root') && m.Keys !! free
    ensures CopyOf(build, true, m, free, src, m', free', root')
  {
    forall v
      ensures LeafCopied(build.SnapshotMode(), m, Xlate(m, src, PDPT_LEVEL, v), m', None,
                         Xlate(m', root', PDPT_LEVEL, v))
    {
    }
  }

  class UmPth {
    var root: Pfn
    const lvl: nat := PDPT_LEVEL

    constructor ()
      ensures root == NULL
    {
      root := NULL;
    }

    /** operator=: copy the page table of a snapshot, read-only in the copy-on-write build. */
    method Assign(mem: PhysMem, rhsRoot: Pfn, build: Build) returns (r: Outcome<()>)
      requires mem.Valid() && root == NULL
      requires rhsRoot != NULL ==>
                 forall path :: CanWalk(St(mem.frames, mem.free, NULL), rhsRoot, PDPT_LEVEL, 0, 512, path)
      modifies this, mem
      ensures r.Abort? ==> mem.free == {}
      ensures r.Ok? ==>
        && mem.Valid()
        && TableCopied(build.DeployMode(), old(mem.frames), old(mem.free), rhsRoot, mem.frames, mem.free, root)
        && CopyOf(build, false, old(mem.frames), old(mem.free), rhsRoot, mem.frames, mem.free, root)
    {
      if rhsRoot != NULL {
        root :- mem.Walk(build.DeployMode(), rhsRoot, root, lvl);
      } else {
        NullTableCopied(build.DeployMode(), mem.frames, mem.free);
      }
      CloneIsCopy(build, old(mem.frames), old(mem.free), rhsRoot, mem.frames, mem.free, root);
      return Ok(());
    }

    /** copyInPages: snapshot the dirty pages of a running instance's page table. The caller has at least one. */
    method CopyInPages(mem: PhysMem, srcRoot: Pfn, build: Build) returns (r: Outcome<()>)
      requires mem.Valid() && root == NULL
      requires forall path :: CanWalk(St(mem.frames, mem.free, NULL), srcRoot, PDPT_LEVEL, 0, 512, path)
      requires MapsDirty(mem.frames, srcRoot)
      modifies this, mem
      ensures r.Abort? ==> mem.free == {}
      ensures r.Ok? ==>
        && mem.Valid() && root != NULL
        && TableCopied(build.SnapshotMode(), old(mem.frames), old(mem.free), srcRoot, mem.frames, mem.free, root)
        && CopyOf(build, true, old(mem.frames), old(mem.free), srcRoot, mem.frames, mem.free, root)
    {
      ghost var v :| DirtyLeaf(mem.frames, srcRoot, v);
      root :- mem.Walk(build.SnapshotMode(), srcRoot, root, lvl);
      assert Xlate(mem.frames, root, PDPT_LEVEL, v).Some?;
      SnapshotIsCopy(build, old(mem.frames), old(mem.free), srcRoot, mem.frames, mem.free, root);
      return Ok(());
    }

    /** The destructor: reclaim the tables and the writable pages. */
    method Destroy(mem: PhysMem)
      requires mem.Valid() && TreeOk(mem.frames, root)
      modifies mem
      ensures mem.Valid()
      ensures mem.frames == old(mem.frames) - old(TreeOwned(mem.frames, root, PDPT_LEVEL))
      ensures mem.free == old(mem.free) + old(TreeOwned(mem.frames, root, PDPT_LEVEL))
    {
      if root != NULL {
        mem.FreePageTable(root, lvl);
      }
    }
  }

  lemma NullTableCopied(mode: Mode, m: Mem, free: set<Pfn>)
    requires m.Keys !! free && NULL !in m && NULL !in free
    ensures TableCopied(mode, m, free, NULL, m, free, NULL)
  {
  }
}
