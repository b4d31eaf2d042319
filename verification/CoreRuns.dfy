/** Whole runs of a core: whatever its manager and its processor do, in any order, with faults, cached translations
    and the slot, its programs see the ideal machine. */
module CoreRuns {
  import opened Layout
  import opened PageTree
  import opened AddressSpaces
  import opened CoreMemory
  import opened CoreMachine
  import CoreSteps
  import opened Isolation

  ghost predicate WorldRun(build: Build, ws: seq<World>, ops: seq<Op>) {
    && |ws| == |ops| + 1 && WorldInv(ws[0])
    && forall k :: 0 <= k < |ops| ==> WorldStep(build, ws[k], ops[k], ws[k + 1])
  }

  lemma WorldTail(build: Build, ws: seq<World>, ops: seq<Op>)
    requires WorldRun(build, ws, ops) && ops != []
    ensures WorldRun(build, ws[1..], ops[1..]) && WorldInv(ws[1])
  {
    assert WorldStep(build, ws[0], ops[0], ws[1]);
    StepMoves(build, ws[0], ops[0], ws[1]);
    forall k | 0 <= k < |ops[1..]|
      ensures WorldStep(build, ws[1..][k], ops[1..][k], ws[1..][k + 1])
    {
      assert WorldStep(build, ws[k + 1], ops[k + 1], ws[k + 2]);
    }
  }

  /** The invariant holds in every reachable state. */
  lemma {:induction false} InvAlways(build: Build, ws: seq<World>, ops: seq<Op>, k: nat)
    requires WorldRun(build, ws, ops) && k <= |ops|
    ensures WorldInv(ws[k])
    decreases k
  {
    if k > 0 {
      WorldTail(build, ws, ops);
      InvAlways(build, ws[1..], ops[1..], k - 1);
    }
  }

  /** In every reachable state the cached translations agree with the walk of the installed table, and an empty
      slot has none. */
  lemma CachesCoherent(build: Build, ws: seq<World>, ops: seq<Op>, k: nat)
    requires WorldRun(build, ws, ops) && k <= |ops|
    ensures ws[k].active.None? ==> ws[k].tlb == map[]
    ensures forall v :: v in ws[k].tlb ==>
              && ws[k].slot.sel && Xlate(ws[k].m, ws[k].slot.pfn, PDPT_LEVEL, v).Some?
              && var e := Xlate(ws[k].m, ws[k].slot.pfn, PDPT_LEVEL, v).value;
                 e == ws[k].tlb[v].(dirty := e.dirty) && (ws[k].tlb[v].dirty ==> e.dirty)
  {
    InvAlways(build, ws, ops, k);
    assert forall v :: v in ws[k].tlb ==> Coherent(ws[k].m, ws[k].slot.pfn, v, ws[k].tlb[v]);
  }

  // ---------- Programs ----------

  /** What programs and their operator do, without page faults, caches and the slot: events of the ideal machine,
      and reads. */
  datatype Act = Did(e: Event) | Read(id: nat, v: VPage)

  ghost function ActsOf(w: World, op: Op): seq<Act> {
    if op.ReadPage? then (if w.active.Some? then [Read(w.active.value, op.v)] else [])
    else if op.PageFault? || EventsOf(w, op) == [] then []
    else [Did(EventsOf(w, op)[0])]
  }

  ghost function Program(ws: seq<World>, ops: seq<Op>): seq<Act>
    requires |ws| == |ops| + 1
    decreases |ops|
  {
    if ops == [] then [] else ActsOf(ws[0], ops[0]) + Program(ws[1..], ops[1..])
  }

  function SeenBy(op: Op): seq<Page> {
    if op.ReadPage? then [op.page] else []
  }

  /** What the reads of a run return. */
  function Seen(ops: seq<Op>): seq<Page> {
    if ops == [] then [] else SeenBy(ops[0]) + Seen(ops[1..])
  }

  /** It is every page that some read of the run returned, in their order. */
  lemma {:induction false} SeenAt(ops: seq<Op>, k: nat)
    requires k < |ops|
    ensures Seen(ops) == Seen(ops[..k]) + (if ops[k].ReadPage? then [ops[k].page] else []) + Seen(ops[k + 1..])
    decreases k
  {
    if k > 0 {
      SeenAt(ops[1..], k - 1);
      assert ops[1..][..k - 1] == ops[..k][1..] && ops[1..][k..] == ops[k + 1..];
    }
  }

  ghost function IdealAct(i: Ideal, a: Act): Ideal {
    match a
    case Did(e) => IdealStep(i, e)
    case Read(_, _) => i
  }

  ghost function IdealProgram(i: Ideal, acts: seq<Act>): Ideal
    decreases |acts|
  {
    if acts == [] then i else IdealProgram(IdealAct(i, acts[0]), acts[1..])
  }

  ghost function IdealRead(i: Ideal, a: Act): seq<Page> {
    match a
    case Did(_) => []
    case Read(id, v) => [if Inst(id) in i.views && v in i.views[Inst(id)] then i.views[Inst(id)][v] else ZeroPage()]
  }

  /** What the reads of a program return on the ideal machine. */
  ghost function IdealSeen(i: Ideal, acts: seq<Act>): seq<Page>
    decreases |acts|
  {
    if acts == [] then [] else IdealRead(i, acts[0]) + IdealSeen(IdealAct(i, acts[0]), acts[1..])
  }

  lemma {:induction false} IdealOn(i: Ideal, a: seq<Act>, b: seq<Act>)
    ensures IdealProgram(i, a + b) == IdealProgram(IdealProgram(i, a), b)
    ensures IdealSeen(i, a + b) == IdealSeen(i, a) + IdealSeen(IdealProgram(i, a), b)
    decreases |a|
  {
    if a == [] {
      assert a + b == b;
    } else {
      assert (a + b)[1..] == a[1..] + b;
      IdealOn(IdealAct(i, a[0]), a[1..], b);
    }
  }

  lemma OneAct(i: Ideal, a: Act)
    ensures IdealProgram(i, [a]) == IdealAct(i, a) && IdealSeen(i, [a]) == IdealRead(i, a)
  {
    assert [a][1..] == [];
  }

  /** The step loses a page table that only the slot knew. */
  predicate Loses(w: World, op: Op) {
    op.SlotUnload? && w.active.Some? && Inst(w.active.value) in w.svs && w.svs[Inst(w.active.value)].root == NULL
  }

  lemma MovesRefine(build: Build, w: World, es: seq<Event>, w': World)
    requires WorldInv(w) && Moves(build, w, es, w')
    ensures WorldInv(w')
    ensures Abstract(Spaces(w')) == if es == [] then Abstract(Spaces(w)) else IdealStep(Abstract(Spaces(w)), es[0])
    ensures w'.m.Keys + w'.free == w.m.Keys + w.free && w.leaked <= w'.leaked
  {
    if es != [] && Reboots(w, es[0], w') {
      RebootRefines(w, es[0], w');
    }
  }

  /** One step of the core is its act on the ideal machine, with the same bytes read. */
  lemma StepRefines(build: Build, w: World, op: Op, w': World)
    requires WorldInv(w) && WorldStep(build, w, op, w')
    ensures WorldInv(w') && Abstract(Spaces(w')) == IdealProgram(Abstract(Spaces(w)), ActsOf(w, op))
    ensures SeenBy(op) == IdealSeen(Abstract(Spaces(w)), ActsOf(w, op))
    ensures w'.m.Keys + w'.free == w.m.Keys + w.free && w.leaked <= w'.leaked
  {
    StepMoves(build, w, op, w');
    MovesRefine(build, w, EventsOf(w, op), w');
    ActIsEvent(Abstract(Spaces(w)), w, op);
    if op.ReadPage? {
      ReadSees(build, w, op.v, op.page, w');
      ReadIs(Abstract(Spaces(w)), w, op);
    }
  }

  /** An act is the event of its operation, but for the page faults, which the ideal machine does not see. */
  lemma ActIsEvent(i: Ideal, w: World, op: Op)
    ensures IdealProgram(i, ActsOf(w, op)) == if EventsOf(w, op) == [] then i else IdealStep(i, EventsOf(w, op)[0])
    ensures !op.ReadPage? ==> IdealSeen(i, ActsOf(w, op)) == []
  {
    if ActsOf(w, op) != [] {
      OneAct(i, ActsOf(w, op)[0]);
    }
  }

  lemma ReadIs(i: Ideal, w: World, op: Op)
    requires op.ReadPage? && w.active.Some? && Inst(w.active.value) in i.views
    requires op.v in i.views[Inst(w.active.value)] && op.page == i.views[Inst(w.active.value)][op.v]
    ensures SeenBy(op) == IdealSeen(i, ActsOf(w, op))
  {
    OneAct(i, Read(w.active.value, op.v));
  }

  /** A run of the core, from any state of the invariant and with any operations in any order, keeps the invariant,
      shows what the ideal machine shows, returns to every read what the ideal machine returns, and keeps the frames
      it has. */
  lemma {:induction false} WorldRunRefines(build: Build, ws: seq<World>, ops: seq<Op>)
    requires WorldRun(build, ws, ops)
    ensures WorldInv(ws[|ops|])
    ensures Abstract(Spaces(ws[|ops|])) == IdealProgram(Abstract(Spaces(ws[0])), Program(ws, ops))
    ensures Seen(ops) == IdealSeen(Abstract(Spaces(ws[0])), Program(ws, ops))
    ensures ws[|ops|].m.Keys + ws[|ops|].free == ws[0].m.Keys + ws[0].free
    ensures ws[0].leaked <= ws[|ops|].leaked
    decreases |ops|
  {
    if ops != [] {
      assert WorldStep(build, ws[0], ops[0], ws[1]);
      StepRefines(build, ws[0], ops[0], ws[1]);
      WorldTail(build, ws, ops);
      WorldRunRefines(build, ws[1..], ops[1..]);
      IdealOn(Abstract(Spaces(ws[0])), ActsOf(ws[0], ops[0]), Program(ws[1..], ops[1..]));
    }
  }

  /** The frames that the step loses: those of the lost table. */
  ghost function Lost(w: World, op: Op): set<Pfn> {
    if Loses(w, op) then w.OwnedOf(Inst(w.active.value)) else {}
  }

  /** A step leaks what it loses, and it loses some frames exactly when it loses a table. */
  lemma StepLeaks(build: Build, w: World, op: Op, w': World)
    requires WorldInv(w) && WorldStep(build, w, op, w')
    ensures w'.leaked == w.leaked + Lost(w, op) && w.leaked !! Lost(w, op)
    ensures Lost(w, op) != {} <==> Loses(w, op)
  {
    if Loses(w, op) {
      CoreSteps.UnloadLoses(w);
    } else {
      OthersLeakNothing(build, w, op, w');
    }
  }

  lemma OthersLeakNothing(build: Build, w: World, op: Op, w': World)
    requires WorldStep(build, w, op, w') && !Loses(w, op)
    ensures w'.leaked == w.leaked
  {
  }

  /** The frames of all the tables that the run loses. */
  ghost function LostIn(ws: seq<World>, ops: seq<Op>): set<Pfn>
    requires |ws| == |ops| + 1
    decreases |ops|
  {
    if ops == [] then {} else Lost(ws[0], ops[0]) + LostIn(ws[1..], ops[1..])
  }

  /** A run leaks exactly the frames of the tables that it loses, each once. */
  lemma {:induction false} LeaksAreLosses(build: Build, ws: seq<World>, ops: seq<Op>)
    requires WorldRun(build, ws, ops)
    ensures ws[|ops|].leaked == ws[0].leaked + LostIn(ws, ops) && ws[0].leaked !! LostIn(ws, ops)
    decreases |ops|
  {
    if ops != [] {
      assert WorldStep(build, ws[0], ops[0], ws[1]);
      StepLeaks(build, ws[0], ops[0], ws[1]);
      WorldTail(build, ws, ops);
      LeaksAreLosses(build, ws[1..], ops[1..]);
    }
  }

  lemma {:induction false} NothingLost(build: Build, ws: seq<World>, ops: seq<Op>)
    requires WorldRun(build, ws, ops)
    ensures LostIn(ws, ops) == {} <==> forall k :: 0 <= k < |ops| ==> !Loses(ws[k], ops[k])
    decreases |ops|
  {
    if ops != [] {
      assert WorldStep(build, ws[0], ops[0], ws[1]);
      StepLeaks(build, ws[0], ops[0], ws[1]);
      WorldTail(build, ws, ops);
      NothingLost(build, ws[1..], ops[1..]);
      HeadAndTail(ws, ops);
    }
  }

  lemma HeadAndTail(ws: seq<World>, ops: seq<Op>)
    requires |ws| == |ops| + 1 && ops != []
    ensures (forall k :: 0 <= k < |ops| ==> !Loses(ws[k], ops[k])) <==>
            !Loses(ws[0], ops[0]) && forall k :: 0 <= k < |ops[1..]| ==> !Loses(ws[1..][k], ops[1..][k])
  {
    assert forall k :: 0 < k < |ops| ==> ws[k] == ws[1..][k - 1] && ops[k] == ops[1..][k - 1];
  }

  /** A run leaks no frame if and only if it never unloads an instance whose page table only the slot knows. */
  lemma NothingLeaks(build: Build, ws: seq<World>, ops: seq<Op>)
    requires WorldRun(build, ws, ops)
    ensures ws[|ops|].leaked == ws[0].leaked <==> forall k :: 0 <= k < |ops| ==> !Loses(ws[k], ops[k])
  {
    LeaksAreLosses(build, ws, ops);
    NothingLost(build, ws, ops);
  }

  /** Two cores, one of each build, on which the same programs run from the same bytes, return the same bytes to
      every read, and end with the same bytes. */
  lemma WorldsAgree(ws: seq<World>, ops: seq<Op>, us: seq<World>, nops: seq<Op>)
    requires WorldRun(Cow, ws, ops) && WorldRun(NoCow, us, nops)
    requires Program(ws, ops) == Program(us, nops) && Abstract(Spaces(ws[0])) == Abstract(Spaces(us[0]))
    ensures Seen(ops) == Seen(nops)
    ensures Abstract(Spaces(ws[|ops|])) == Abstract(Spaces(us[|nops|]))
  {
    WorldRunRefines(Cow, ws, ops);
    WorldRunRefines(NoCow, us, nops);
  }

  ghost function EventsIn(acts: seq<Act>): seq<Event> {
    if acts == [] then []
    else (if acts[0].Did? then [acts[0].e] else []) + EventsIn(acts[1..])
  }

  lemma {:induction false} ProgramIsRun(i: Ideal, acts: seq<Act>)
    ensures IdealProgram(i, acts) == IdealRun(i, EventsIn(acts))
    decreases |acts|
  {
    if acts != [] {
      ProgramIsRun(IdealAct(i, acts[0]), acts[1..]);
      if acts[0].Did? {
        assert EventsIn(acts) == [acts[0].e] + EventsIn(acts[1..]);
        assert EventsIn(acts)[1..] == EventsIn(acts[1..]);
      } else {
        assert EventsIn(acts) == EventsIn(acts[1..]);
      }
    }
  }

  /** On the core's memory the bytes of a snapshot or an instance change only by its own stores. */
  lemma WorldIsolation(build: Build, ws: seq<World>, ops: seq<Op>, r: Ref)
    requires WorldRun(build, ws, ops) && r in ws[0].svs && Stays(r, EventsIn(Program(ws, ops)))
    ensures r in Abstract(Spaces(ws[|ops|])).views
    ensures Abstract(Spaces(ws[|ops|])).views[r]
            == OwnWrites(Abstract(Spaces(ws[0])).views[r], r, EventsIn(Program(ws, ops)))
  {
    WorldRunRefines(build, ws, ops);
    ProgramIsRun(Abstract(Spaces(ws[0])), Program(ws, ops));
    IdealIsolation(Abstract(Spaces(ws[0])), r, EventsIn(Program(ws, ops)));
  }

  /** And a snapshot's not at all. */
  lemma WorldSnapshots(build: Build, ws: seq<World>, ops: seq<Op>, snap: nat)
    requires WorldRun(build, ws, ops) && Snap(snap) in ws[0].svs && Stays(Snap(snap), EventsIn(Program(ws, ops)))
    ensures Snap(snap) in Abstract(Spaces(ws[|ops|])).views
    ensures Abstract(Spaces(ws[|ops|])).views[Snap(snap)] == Abstract(Spaces(ws[0])).views[Snap(snap)]
  {
    WorldIsolation(build, ws, ops, Snap(snap));
    SnapshotsAreNotWritten(Abstract(Spaces(ws[0])).views[Snap(snap)], snap, EventsIn(Program(ws, ops)));
  }

  /** An instance deployed from a checkpoint starts with the bytes that the running instance had at the checkpoint,
      whatever the core did in between. */
  lemma WorldCheckpointThenDeploy(build: Build, w: World, snap: nat, built: Built, ws: seq<World>, ops: seq<Op>,
                                  id: nat, built': Built, w': World)
    requires WorldInv(w) && WorldRun(build, ws, ops) && Stays(Snap(snap), EventsIn(Program(ws, ops)))
    requires WorldStep(build, w, Checkpointing(snap, built), ws[0])
    requires WorldStep(build, ws[|ops|], Deployment(snap, id, built'), w')
    ensures var before, after := Abstract(Spaces(w)).views, Abstract(Spaces(w')).views;
            && Inst(w.active.value) in before && Inst(id) in after
            && after[Inst(id)] == before[Inst(w.active.value)]
  {
    CheckpointViews(build, w, snap, built, ws[0]);
    WorldSnapshots(build, ws, ops, snap);
    InvAlways(build, ws, ops, |ops|);
    DeploymentViews(build, ws[|ops|], snap, id, built', w');
  }

  lemma CheckpointViews(build: Build, w: World, snap: nat, built: Built, w': World)
    requires WorldInv(w) && WorldStep(build, w, Checkpointing(snap, built), w')
    ensures w.active.Some? && Inst(w.active.value) in Abstract(Spaces(w)).views && Snap(snap) in w'.svs
    ensures Abstract(Spaces(w')).views[Snap(snap)] == Abstract(Spaces(w)).views[Inst(w.active.value)]
  {
    StepMoves(build, w, Checkpointing(snap, built), w');
    CheckpointIs(build, w, snap, built, w');
    CopyViews(build, w, Event.Checkpoint(w.active.value, snap), Inst(w.active.value), Snap(snap), w');
  }

  lemma CheckpointIs(build: Build, w: World, snap: nat, built: Built, w': World)
    requires WorldStep(build, w, Checkpointing(snap, built), w')
    ensures w.active.Some? && Inst(w.active.value) in w.svs
    ensures EventsOf(w, Checkpointing(snap, built)) == [Event.Checkpoint(w.active.value, snap)]
  {
  }

  lemma DeploymentViews(build: Build, w: World, snap: nat, id: nat, built: Built, w': World)
    requires WorldInv(w) && WorldStep(build, w, Deployment(snap, id, built), w')
    ensures Snap(snap) in Abstract(Spaces(w)).views && Inst(id) in w'.svs
    ensures Abstract(Spaces(w')).views[Inst(id)] == Abstract(Spaces(w)).views[Snap(snap)]
  {
    StepMoves(build, w, Deployment(snap, id, built), w');
    CopyViews(build, w, Event.Deploy(snap, id), Snap(snap), Inst(id), w');
  }

  /** A copying event gives the copy the view of its source. */
  lemma CopyViews(build: Build, w: World, e: Event, from: Ref, to: Ref, w': World)
    requires WorldInv(w) && Moves(build, w, [e], w') && from in w.svs
    requires e == (if from.Snap? then Event.Deploy(from.id, to.id) else Event.Checkpoint(from.id, to.id))
    requires from.Snap? <==> to.Inst?
    ensures from in Abstract(Spaces(w)).views && to in w'.svs
    ensures Abstract(Spaces(w')).views[to] == Abstract(Spaces(w)).views[from]
  {
    MovesRefine(build, w, [e], w');
    ViewsOfAll(w);
    IdealCopies(Abstract(Spaces(w)), e, from, to);
    ViewsOfAll(w');
  }

  lemma ViewsOfAll(w: World)
    ensures forall r :: r in w.svs <==> r in Abstract(Spaces(w)).views
  {
  }

  lemma IdealCopies(i: Ideal, e: Event, from: Ref, to: Ref)
    requires from in i.views && (from.Snap? <==> to.Inst?)
    requires e == (if from.Snap? then Event.Deploy(from.id, to.id) else Event.Checkpoint(from.id, to.id))
    ensures to in IdealStep(i, e).views && IdealStep(i, e).views[to] == i.views[from]
  {
  }
}
