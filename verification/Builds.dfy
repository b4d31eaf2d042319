/** What distinguishes the two builds: the deep-copy build gives every space pages of its own, and the copy-on-write
    build shares what was not written since. */
module Builds {
  import opened Layout
  import opened Wrappers
  import opened PageTree
  import opened AddressSpaces
  import opened CoreMemory
  import opened CoreMachine
  import opened CoreRuns
  import CoreSteps
  import Isolation

  // ---------- One copy ----------

  /** Page v is on a fresh frame of its own, writable and dirty, with the bytes of the source's page. */
  ghost predicate OwnCopy(s: State, src: Space, s': State, dst: Space, v: VPage)
    requires v in src.leaves && v in dst.leaves
  {
    var leaf := dst.leaves[v];
    && leaf.rw && leaf.dirty && leaf.frame !in s.pages && leaf.frame in s'.pages
    && s'.pages[leaf.frame] == PageOf(s.pages, src.leaves[v].frame)
  }

  /** Page v is on the source's frame, dirty and read-only. */
  predicate SharedPage(src: Space, dst: Space, v: VPage)
    requires v in src.leaves && v in dst.leaves
  {
    dst.leaves[v] == Leaf(src.leaves[v].frame, false, true)
  }

  /** Distinct own pages are on distinct frames. */
  ghost predicate OwnFramesDistinct(sp: Space) {
    forall v, w :: v in sp.leaves && w in sp.leaves && v != w && sp.leaves[v].rw && sp.leaves[w].rw ==>
      sp.leaves[v].frame != sp.leaves[w].frame
  }

  /** An instance deployed by the deep-copy build has a copy of its own of every page of the snapshot. */
  lemma DeepDeployment(s: State, snap: nat, id: nat, s': State)
    requires Inv(s) && Step(NoCow, s, Deploy(snap, id), s')
    ensures var src, dst := s.spaces[Snap(snap)], s'.spaces[Inst(id)];
            && dst.leaves.Keys == src.leaves.Keys && OwnFramesDistinct(dst)
            && forall v :: v in src.leaves ==> OwnCopy(s, src, s', dst, v)
  {
    var src, dst := s.spaces[Snap(snap)], s'.spaces[Inst(id)];
    assert forall v :: v in src.leaves ==> LeafInv(s.pages, s.elf, Snap(snap), src, v);
  }

  /** And a checkpoint of it one of every page that was written. */
  lemma DeepCheckpoint(s: State, id: nat, snap: nat, s': State)
    requires Inv(s) && Step(NoCow, s, Checkpoint(id, snap), s')
    ensures var src, dst := s.spaces[Inst(id)], s'.spaces[Snap(snap)];
            && (forall v :: v in dst.leaves <==> v in src.leaves && src.leaves[v].dirty) && OwnFramesDistinct(dst)
            && forall v :: v in dst.leaves ==> OwnCopy(s, src, s', dst, v)
  {
  }

  /** An instance deployed copy-on-write shares every page of the snapshot, and owns none. */
  lemma SharedDeployment(s: State, snap: nat, id: nat, s': State)
    requires Inv(s) && Step(Cow, s, Deploy(snap, id), s')
    ensures var src, dst := s.spaces[Snap(snap)], s'.spaces[Inst(id)];
            && dst.leaves.Keys == src.leaves.Keys && forall v :: v in src.leaves ==> SharedPage(src, dst, v)
  {
    var src, dst := s.spaces[Snap(snap)], s'.spaces[Inst(id)];
    assert forall v :: v in src.leaves ==> LeafInv(s.pages, s.elf, Snap(snap), src, v);
  }

  /** A copy-on-write checkpoint copies the written pages that its source owns, and shares those it borrows. */
  lemma SharedCheckpoint(s: State, id: nat, snap: nat, s': State)
    requires Inv(s) && Step(Cow, s, Checkpoint(id, snap), s')
    ensures var src, dst := s.spaces[Inst(id)], s'.spaces[Snap(snap)];
            && (forall v :: v in dst.leaves <==> v in src.leaves && src.leaves[v].dirty) && OwnFramesDistinct(dst)
            && forall v :: v in dst.leaves ==>
                 if src.leaves[v].rw then OwnCopy(s, src, s', dst, v) else SharedPage(src, dst, v)
  {
  }

  // ---------- Runs of the deep-copy build ----------

  /** Every page is writable, or in a read-only region and on its ELF frame. */
  ghost predicate Deep(s: State) {
    forall r, v :: r in s.spaces && v in s.spaces[r].leaves ==> DeepLeaf(s.elf, s.spaces[r], v)
  }

  predicate DeepLeaf(elf: set<Pfn>, sp: Space, v: VPage)
    requires v in sp.leaves
  {
    sp.leaves[v].rw || (sp.image(v).Elf? && sp.leaves[v].frame in elf)
  }

  lemma DeepStep(s: State, e: Event, s': State)
    requires Inv(s) && Step(NoCow, s, e, s') && Deep(s)
    ensures Deep(s')
  {
    if e.Fault? {
      assert SpaceInv(s.pages, s.elf, Inst(e.id), s.spaces[Inst(e.id)]);
    }
  }

  /** Then no space borrows from another, and no page that is mapped ever faults. */
  lemma DeepApart(s: State)
    requires Inv(s) && Deep(s)
    ensures forall r :: r in s.spaces ==> !Borrowed(s, r)
    ensures forall r, v, write :: r in s.spaces && v in s.spaces[r].leaves ==> !Faults(s.spaces[r], v, write)
  {
    forall r, r', v, w | r in s.spaces && r' in s.spaces && r' != r && w in s.spaces[r'].leaves
      ensures !Owns(s.spaces[r], v, s.spaces[r'].leaves[w].frame)
    {
      NotShared(s, r, v, r', w);
    }
    forall r, v, write | r in s.spaces && v in s.spaces[r].leaves
      ensures !Faults(s.spaces[r], v, write)
    {
      assert DeepLeaf(s.elf, s.spaces[r], v);
    }
  }

  lemma NotShared(s: State, r: Ref, v: VPage, r': Ref, w: VPage)
    requires Inv(s) && Deep(s) && r in s.spaces && r' in s.spaces && r' != r && w in s.spaces[r'].leaves
    ensures !Owns(s.spaces[r], v, s.spaces[r'].leaves[w].frame)
  {
    assert Apart(r, s.spaces[r], s.spaces[r']);
    assert DeepLeaf(s.elf, s.spaces[r'], w);
    assert v in s.spaces[r].leaves ==> LeafInv(s.pages, s.elf, r, s.spaces[r], v);
  }

  lemma {:induction false} DeepRun(ss: seq<State>, es: seq<Event>, k: nat)
    requires Isolation.Run(NoCow, ss, es) && Deep(ss[0]) && k <= |es|
    ensures Inv(ss[k]) && Deep(ss[k])
    decreases k
  {
    if k > 0 {
      assert Step(NoCow, ss[0], es[0], ss[1]);
      Isolation.StepRefines(NoCow, ss[0], es[0], ss[1]);
      DeepStep(ss[0], es[0], ss[1]);
      Isolation.RunTail(NoCow, ss, es);
      DeepRun(ss[1..], es[1..], k - 1);
    }
  }

  /** The deep-copy build never shares: on every run no space ever borrows from another, and there are no
      copy-on-write faults. */
  lemma DeepRunsApart(ss: seq<State>, es: seq<Event>, k: nat)
    requires Isolation.Run(NoCow, ss, es) && Deep(ss[0]) && k <= |es|
    ensures forall r :: r in ss[k].spaces ==> !Borrowed(ss[k], r)
    ensures k < |es| && es[k].Fault? ==>
              Inst(es[k].id) in ss[k].spaces && es[k].v !in ss[k].spaces[Inst(es[k].id)].leaves
  {
    DeepRun(ss, es, k);
    DeepApart(ss[k]);
    if k < |es| && es[k].Fault? {
      assert Step(NoCow, ss[k], es[k], ss[k + 1]);
    }
  }

  // ---------- The same on the core's memory ----------

  lemma DeepMoves(w: World, es: seq<Event>, w': World)
    requires WorldInv(w) && Moves(NoCow, w, es, w') && Deep(Spaces(w))
    ensures Deep(Spaces(w'))
  {
    if es != [] {
      if Reboots(w, es[0], w') {
        DeepReboot(Spaces(w), Inst(es[0].id), es[0].image, Spaces(w'));
      } else {
        DeepStep(Spaces(w), es[0], Spaces(w'));
      }
    }
  }

  lemma DeepReboot(s: State, r: Ref, image: Image, s': State)
    requires Deep(s) && s'.elf == s.elf && s'.spaces == s.spaces[r := Space(imap[], image)]
    ensures Deep(s')
  {
  }

  ghost predicate DeepIn(w: World) {
    Deep(Spaces(w))
  }

  predicate GoesOn(holds: seq<bool>, i: nat)
    requires i + 1 < |holds|
  {
    holds[i] ==> holds[i + 1]
  }

  lemma {:induction false} HoldsOn(holds: seq<bool>, k: nat)
    requires k < |holds| && holds[0] && forall i :: 0 <= i < k ==> GoesOn(holds, i)
    ensures holds[k]
    decreases k
  {
    if k > 0 {
      HoldsOn(holds, k - 1);
      assert GoesOn(holds, k - 1);
    }
  }

  lemma DeepWorlds(ws: seq<World>, ops: seq<Op>, k: nat)
    requires WorldRun(NoCow, ws, ops) && DeepIn(ws[0]) && k <= |ops|
    ensures DeepIn(ws[k])
  {
    var holds := DeepAlong(ws);
    DeepAlongGoesOn(ws, ops, holds);
    HoldsOn(holds, k);
  }

  ghost function DeepAlong(ws: seq<World>): (holds: seq<bool>)
    ensures |holds| == |ws| && forall i :: 0 <= i < |ws| ==> holds[i] == DeepIn(ws[i])
  {
    seq(|ws|, i requires 0 <= i < |ws| => DeepIn(ws[i]))
  }

  lemma DeepAlongGoesOn(ws: seq<World>, ops: seq<Op>, holds: seq<bool>)
    requires WorldRun(NoCow, ws, ops) && holds == DeepAlong(ws)
    ensures forall i :: 0 <= i < |ops| ==> GoesOn(holds, i)
  {
    forall i | 0 <= i < |ops|
      ensures GoesOn(holds, i)
    {
      DeepGoesOn(ws, ops, i, holds);
    }
  }

  lemma DeepGoesOn(ws: seq<World>, ops: seq<Op>, i: nat, holds: seq<bool>)
    requires WorldRun(NoCow, ws, ops) && i < |ops| && |holds| == |ws|
    requires holds[i] == DeepIn(ws[i]) && holds[i + 1] == DeepIn(ws[i + 1])
    ensures GoesOn(holds, i)
  {
    if holds[i] {
      DeepAt(ws, ops, i);
    }
  }

  lemma DeepAt(ws: seq<World>, ops: seq<Op>, k: nat)
    requires WorldRun(NoCow, ws, ops) && k < |ops| && DeepIn(ws[k])
    ensures DeepIn(ws[k + 1])
  {
    InvAlways(NoCow, ws, ops, k);
    DeepOp(ws[k], ops[k], ws[k + 1]);
  }

  lemma DeepOp(w: World, op: Op, w': World)
    requires WorldInv(w) && WorldStep(NoCow, w, op, w') && Deep(Spaces(w))
    ensures Deep(Spaces(w'))
  {
    StepMoves(NoCow, w, op, w');
    DeepMoves(w, EventsOf(w, op), w');
  }

  /** On every run of a core in the deep-copy build nobody ever borrows, so that any snapshot may be torn down at any
      time. */
  lemma DeepWorldsApart(ws: seq<World>, ops: seq<Op>, k: nat, snap: nat)
    requires WorldRun(NoCow, ws, ops) && DeepIn(ws[0]) && k <= |ops| && Snap(snap) in ws[k].svs
    ensures !Borrowed(Spaces(ws[k]), Snap(snap))
    ensures WorldInv(CoreSteps.AfterRemove(ws[k], Snap(snap), ws[k].OwnedOf(Snap(snap))))
  {
    InvAlways(NoCow, ws, ops, k);
    DeepWorlds(ws, ops, k);
    DeepApart(Spaces(ws[k]));
    CoreSteps.RemoveExact(ws[k], Snap(snap));
  }

  /** A core before its first instance shares nothing. */
  lemma NewCoreDeep(w: World)
    requires w.svs == map[]
    ensures DeepIn(w)
  {
  }
}
