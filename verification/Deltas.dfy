/** Snapshots are layered: copies of page tables take frames for their tables, and pages only for what was written. */
module Deltas {
  import opened Layout
  import opened Wrappers
  import opened PageTree
  import opened TreeWalk
  import opened AddressSpaces
  import opened CoreMemory
  import opened CoreSteps
  import opened CoreMachine
  import opened CoreRuns

  /** Every frame taken from the allocator became a table. */
  ghost predicate OnlyTablesTaken(free: set<Pfn>, m': Mem, free': set<Pfn>) {
    forall f :: f in free - free' ==> f in m' && m'[f].Table?
  }

  /** The page v was written since it became the tree's own. */
  ghost predicate WrittenAndOwned(m: Mem, root: Pfn, v: VPage) {
    DirtyLeaf(m, root, v) && Xlate(m, root, PDPT_LEVEL, v).value.rw
  }

  /** A page that a copy took is mapped by one of its writable leaves. */
  lemma TakenPage(mode: Mode, m: Mem, free: set<Pfn>, src: Pfn, m': Mem, free': set<Pfn>, root': Pfn, f: Pfn)
    returns (v: VPage)
    requires TableCopied(mode, m, free, src, m', free', root') && f in free - free' && f in m' && m'[f].Data?
    ensures Xlate(m', root', PDPT_LEVEL, v).Some?
    ensures Xlate(m', root', PDPT_LEVEL, v).value.rw && Xlate(m', root', PDPT_LEVEL, v).value.pfn == f
    ensures LeafCopied(mode, m, Xlate(m, src, PDPT_LEVEL, v), m', None, Xlate(m', root', PDPT_LEVEL, v))
  {
    CopyTree(m, free, m', free', root');
    v := OwnedPageIsLeaf(m', root', PDPT_LEVEL, f);
  }

  /** The pages that a snapshot takes are in bijection with the pages that its source had written and owned: each is
      the copy of one of them, each of them has one, and no two have the same. */
  lemma CheckpointOwnsDelta(m: Mem, free: set<Pfn>, src: Pfn, m': Mem, free': set<Pfn>, root': Pfn)
    requires TableCopied(Snapshot, m, free, src, m', free', root') && m.Keys !! free
    ensures forall f :: f in free - free' && f in m' && m'[f].Data? ==>
              exists v :: WrittenAndOwned(m, src, v) && Xlate(m', root', PDPT_LEVEL, v) == Some(CopiedPte(f))
    ensures forall v :: WrittenAndOwned(m, src, v) ==> PageTaken(m, free, src, m', free', root', v)
    ensures forall v, x :: WrittenAndOwned(m, src, v) && WrittenAndOwned(m, src, x) && v != x ==>
              Xlate(m', root', PDPT_LEVEL, v) != Xlate(m', root', PDPT_LEVEL, x)
  {
    forall f | f in free - free' && f in m' && m'[f].Data?
      ensures exists v :: WrittenAndOwned(m, src, v) && Xlate(m', root', PDPT_LEVEL, v) == Some(CopiedPte(f))
    {
      var v := TakenPage(Snapshot, m, free, src, m', free', root', f);
      assert WrittenAndOwned(m, src, v) && Xlate(m', root', PDPT_LEVEL, v) == Some(CopiedPte(f));
    }
    forall v | WrittenAndOwned(m, src, v)
      ensures PageTaken(m, free, src, m', free', root', v)
    {
      CopiedPage(m, free, src, m', free', root', v);
    }
    forall v, x | WrittenAndOwned(m, src, v) && WrittenAndOwned(m, src, x) && v != x
      ensures Xlate(m', root', PDPT_LEVEL, v) != Xlate(m', root', PDPT_LEVEL, x)
    {
      CopiedPage(m, free, src, m', free', root', v);
      CopiedPage(m, free, src, m', free', root', x);
      CopyTree(m, free, m', free', root');
      WritableFramesDistinct(m', root', v, x);
    }
  }

  /** The copy has page v on a frame from the allocator, with the bytes of the source's. */
  ghost predicate PageTaken(m: Mem, free: set<Pfn>, src: Pfn, m': Mem, free': set<Pfn>, root': Pfn, v: VPage) {
    && Xlate(m, src, PDPT_LEVEL, v).Some? && Xlate(m', root', PDPT_LEVEL, v).Some?
    && var e := Xlate(m', root', PDPT_LEVEL, v).value;
       && e.rw && e.pfn in free - free' && e.pfn in m'
       && m'[e.pfn] == FrameAt(m, Xlate(m, src, PDPT_LEVEL, v).value.pfn)
  }

  lemma CopiedPage(m: Mem, free: set<Pfn>, src: Pfn, m': Mem, free': set<Pfn>, root': Pfn, v: VPage)
    requires TableCopied(Snapshot, m, free, src, m', free', root') && WrittenAndOwned(m, src, v)
    ensures PageTaken(m, free, src, m', free', root', v)
  {
    assert LeafCopied(Snapshot, m, Xlate(m, src, PDPT_LEVEL, v), m', None, Xlate(m', root', PDPT_LEVEL, v));
    CopyTree(m, free, m', free', root');
  }

  /** A clone takes no page. */
  lemma CloneTakesTables(m: Mem, free: set<Pfn>, src: Pfn, m': Mem, free': set<Pfn>, root': Pfn)
    requires TableCopied(Clone, m, free, src, m', free', root')
    ensures OnlyTablesTaken(free, m', free')
  {
    CopyTree(m, free, m', free', root');
    forall f | f in free - free'
      ensures f in m' && m'[f].Table?
    {
      if m'[f].Data? {
        var v := TakenPage(Clone, m, free, src, m', free', root', f);
        assert false;
      }
    }
  }

  lemma ClonedTwice(m: Mem, src: Option<Pte>, m1: Mem, leaf1: Option<Pte>, m2: Mem, leaf2: Option<Pte>)
    requires LeafCopied(Clone, m, src, m1, None, leaf1) && LeafCopied(Clone, m1, leaf1, m2, None, leaf2)
    ensures leaf2 == leaf1
  {
  }

  /** A clone of a clone translates every page as the clone does, and takes no page either. */
  lemma CloneOfClone(m: Mem, free: set<Pfn>, src: Pfn, m1: Mem, free1: set<Pfn>, c1: Pfn,
                     m2: Mem, free2: set<Pfn>, c2: Pfn)
    requires TableCopied(Clone, m, free, src, m1, free1, c1) && TableCopied(Clone, m1, free1, c1, m2, free2, c2)
    ensures forall v :: Xlate(m2, c2, PDPT_LEVEL, v) == Xlate(m1, c1, PDPT_LEVEL, v)
    ensures OnlyTablesTaken(free, m1, free1) && OnlyTablesTaken(free1, m2, free2)
  {
    CloneTakesTables(m, free, src, m1, free1, c1);
    CloneTakesTables(m1, free1, c1, m2, free2, c2);
    forall v
      ensures Xlate(m2, c2, PDPT_LEVEL, v) == Xlate(m1, c1, PDPT_LEVEL, v)
    {
      ClonedTwice(m, Xlate(m, src, PDPT_LEVEL, v), m1, Xlate(m1, c1, PDPT_LEVEL, v), m2, Xlate(m2, c2, PDPT_LEVEL, v));
    }
  }

  /** A snapshot takes no page exactly when its source owns no page that it wrote. */
  lemma UnwrittenTakesTables(m: Mem, free: set<Pfn>, src: Pfn, m': Mem, free': set<Pfn>, root': Pfn)
    requires TableCopied(Snapshot, m, free, src, m', free', root') && m.Keys !! free
    requires forall v :: LeafInUse(m, src, v)
    ensures OnlyTablesTaken(free, m', free') <==> forall v :: !WrittenAndOwned(m, src, v)
  {
    CopyTree(m, free, m', free', root');
    CheckpointOwnsDelta(m, free, src, m', free', root');
    if OnlyTablesTaken(free, m', free') {
      forall v
        ensures !WrittenAndOwned(m, src, v)
      {
        assert LeafInUse(m, src, v);
        assert WrittenAndOwned(m, src, v) ==> PageTaken(m, free, src, m', free', root', v);
      }
    }
  }

  // ---------- Runs without writing ----------

  /** The space owns no page that was written. */
  ghost predicate Unwritten(sp: Space) {
    forall v :: v in sp.leaves && sp.leaves[v].dirty ==> !sp.leaves[v].rw
  }

  ghost predicate UnwrittenIn(w: World, id: nat) {
    Inst(id) in w.svs && Unwritten(Spaces(w).spaces[Inst(id)])
  }

  /** The operation is no store or write fault of the instance, and does not destroy it. */
  predicate Quiet(w: World, op: Op, id: nat) {
    && (op.StorePage? || (op.PageFault? && op.write) ==> w.active != Some(id))
    && op != DestroyInstance(id)
  }

  predicate QuietEvent(e: Event, id: nat) {
    && (e.Write? ==> e.id != id) && (e.Fault? && e.write ==> e.id != id) && (e.EndInstance? ==> e.id != id)
  }

  lemma QuietStaysUnwritten(build: Build, s: State, e: Event, s': State, id: nat)
    requires Step(build, s, e, s') && Inst(id) in s.spaces && QuietEvent(e, id) && Unwritten(s.spaces[Inst(id)])
    ensures Inst(id) in s'.spaces && Unwritten(s'.spaces[Inst(id)])
  {
  }

  lemma QuietMoves(build: Build, w: World, es: seq<Event>, w': World, id: nat)
    requires Moves(build, w, es, w') && (es != [] ==> QuietEvent(es[0], id)) && UnwrittenIn(w, id)
    ensures UnwrittenIn(w', id)
  {
    assert Inst(id) in Spaces(w).spaces;
    if es != [] && !Reboots(w, es[0], w') {
      QuietStaysUnwritten(build, Spaces(w), es[0], Spaces(w'), id);
    }
    assert Inst(id) in Spaces(w').spaces;
  }

  lemma QuietStep(build: Build, w: World, op: Op, w': World, id: nat)
    requires WorldInv(w) && WorldStep(build, w, op, w') && Quiet(w, op, id) && UnwrittenIn(w, id)
    ensures UnwrittenIn(w', id)
  {
    StepMoves(build, w, op, w');
    QuietMoves(build, w, EventsOf(w, op), w', id);
  }

  lemma QuietAt(build: Build, ws: seq<World>, ops: seq<Op>, id: nat, k: nat)
    requires WorldRun(build, ws, ops) && k < |ops| && Quiet(ws[k], ops[k], id) && UnwrittenIn(ws[k], id)
    ensures UnwrittenIn(ws[k + 1], id)
  {
    InvAlways(build, ws, ops, k);
    QuietStep(build, ws[k], ops[k], ws[k + 1], id);
  }

  /** Whatever else happens, an instance that only reads, is swapped, faulted in for reading or checkpointed comes
      to own no written page. */
  lemma QuietRun(build: Build, ws: seq<World>, ops: seq<Op>, id: nat, j: nat, k: nat)
    requires WorldRun(build, ws, ops) && j <= k <= |ops| && UnwrittenIn(ws[j], id)
    requires forall i :: j <= i < |ops| ==> Quiet(ws[i], ops[i], id)
    ensures UnwrittenIn(ws[k], id)
  {
    forall i | j <= i < k && UnwrittenIn(ws[i], id)
      ensures UnwrittenIn(ws[i + 1], id)
    {
      QuietAt(build, ws, ops, id, i);
    }
    UnwrittenOn(ws, id, j, k);
  }

  lemma {:induction false} UnwrittenOn(ws: seq<World>, id: nat, j: nat, k: nat)
    requires j <= k < |ws| && UnwrittenIn(ws[j], id)
    requires forall i :: j <= i < k && UnwrittenIn(ws[i], id) ==> UnwrittenIn(ws[i + 1], id)
    ensures UnwrittenIn(ws[k], id)
    decreases k
  {
    if j < k {
      UnwrittenOn(ws, id, j, k - 1);
    }
  }

  lemma DeployedUnwritten(w: World, snap: nat, id: nat, built: Built, w': World)
    requires WorldInv(w) && WorldStep(Cow, w, Deployment(snap, id, built), w')
    ensures UnwrittenIn(w', id) && OnlyTablesTaken(w.free, w'.m, w'.free)
  {
    CloneTakesTables(w.m, w.free, w.svs[Snap(snap)].root, built.m, built.free, built.root);
    CloneIsReadOnly(w.m, w.free, w.svs[Snap(snap)].root, built.m, built.free, built.root);
    DeployedLeaves(w, snap, id, built);
  }

  lemma DeployedLeaves(w: World, snap: nat, id: nat, built: Built)
    requires SlotOk(w) && Snap(snap) in w.svs && Inst(id) !in w.svs
    requires forall v :: Xlate(built.m, built.root, PDPT_LEVEL, v).Some? ==>
               !Xlate(built.m, built.root, PDPT_LEVEL, v).value.rw
    ensures UnwrittenIn(AfterCopy(w, Snap(snap), Inst(id), built.m, built.free, built.root), id)
  {
    NewRoot(w, Snap(snap), Inst(id), built.m, built.free, built.root);
  }

  /** Every leaf of a clone is read-only. */
  lemma CloneIsReadOnly(m: Mem, free: set<Pfn>, src: Pfn, m': Mem, free': set<Pfn>, root': Pfn)
    requires TableCopied(Clone, m, free, src, m', free', root')
    ensures forall v :: Xlate(m', root', PDPT_LEVEL, v).Some? ==> !Xlate(m', root', PDPT_LEVEL, v).value.rw
  {
    forall v | Xlate(m', root', PDPT_LEVEL, v).Some?
      ensures !Xlate(m', root', PDPT_LEVEL, v).value.rw
    {
      assert LeafCopied(Clone, m, Xlate(m, src, PDPT_LEVEL, v), m', None, Xlate(m', root', PDPT_LEVEL, v));
    }
  }

  /** A deployment takes no page; and after any run in which the deployed instance writes nothing, however many pages
      it reads and is faulted in for, a checkpoint of it takes no page either. */
  lemma DeployedCheckpoint(ws: seq<World>, ops: seq<Op>, snap: nat, id: nat, built: Built,
                           snap': nat, built': Built, w': World)
    requires WorldRun(Cow, ws, ops) && ops != [] && ops[0] == Deployment(snap, id, built)
    requires forall k :: 1 <= k < |ops| ==> Quiet(ws[k], ops[k], id)
    requires ws[|ops|].active == Some(id) && WorldStep(Cow, ws[|ops|], Checkpointing(snap', built'), w')
    ensures OnlyTablesTaken(ws[0].free, ws[1].m, ws[1].free)
    ensures OnlyTablesTaken(ws[|ops|].free, w'.m, w'.free)
  {
    assert WorldStep(Cow, ws[0], ops[0], ws[1]);
    DeployedUnwritten(ws[0], snap, id, built, ws[1]);
    QuietRun(Cow, ws, ops, id, 1, |ops|);
    InvAlways(Cow, ws, ops, |ops|);
    UnwrittenCheckpoint(ws[|ops|], id, snap', built', w');
  }

  lemma UnwrittenCheckpoint(w: World, id: nat, snap: nat, built: Built, w': World)
    requires WorldInv(w) && w.active == Some(id) && WorldStep(Cow, w, Checkpointing(snap, built), w')
    requires UnwrittenIn(w, id)
    ensures OnlyTablesTaken(w.free, w'.m, w'.free)
  {
    forall v
      ensures LeafInUse(w.m, w.slot.pfn, v) && !WrittenAndOwned(w.m, w.slot.pfn, v)
    {
      LeafKnown(w, Inst(id), v);
    }
    UnwrittenTakesTables(w.m, w.free, w.slot.pfn, built.m, built.free, built.root);
  }
}
