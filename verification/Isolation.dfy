/** Whole runs of the address-space machine: it implements the ideal machine, so snapshots are immutable,
    instances are private, and the copy-on-write build cannot be told from the deep-copy build. */
module Isolation {
  import opened AddressSpaces

  /** Every step keeps the invariant and does to the views what the ideal machine does. */
  lemma StepRefines(build: Build, s: State, e: Event, s': State)
    requires Inv(s) && Step(build, s, e, s')
    ensures Inv(s') && Abstract(s') == IdealStep(Abstract(s), e)
  {
    match e
    case Boot(id, image) => BootStep(build, s, id, image, s');
    case Deploy(snap, id) => CopyStep(build.DeployMode(), s, Snap(snap), Inst(id), s');
    case Checkpoint(id, snap) => CopyStep(build.SnapshotMode(), s, Inst(id), Snap(snap), s');
    case Fault(id, v, write) => FaultStep(build, s, id, v, write, s');
    case Write(id, v, page) => WriteStep(build, s, id, v, page, s');
    case EndInstance(id) => RemoveStep(s, Inst(id), s');
    case DropSnapshot(snap) => RemoveStep(s, Snap(snap), s');
  }

  ghost predicate Run(build: Build, ss: seq<State>, es: seq<Event>) {
    && |ss| == |es| + 1
    && Inv(ss[0])
    && forall i :: 0 <= i < |es| ==> Step(build, ss[i], es[i], ss[i + 1])
  }

  ghost function IdealRun(i: Ideal, es: seq<Event>): Ideal
    decreases |es|
  {
    if es == [] then i else IdealRun(IdealStep(i, es[0]), es[1..])
  }

  lemma {:induction false} RunRefines(build: Build, ss: seq<State>, es: seq<Event>)
    requires Run(build, ss, es)
    ensures Inv(ss[|es|]) && Abstract(ss[|es|]) == IdealRun(Abstract(ss[0]), es)
    decreases |es|
  {
    if es != [] {
      StepRefines(build, ss[0], es[0], ss[1]);
      RunTail(build, ss, es);
      RunRefines(build, ss[1..], es[1..]);
    }
  }

  lemma RunTail(build: Build, ss: seq<State>, es: seq<Event>)
    requires Run(build, ss, es) && es != [] && Inv(ss[1])
    ensures Run(build, ss[1..], es[1..])
  {
    forall i | 0 <= i < |es[1..]|
      ensures Step(build, ss[1..][i], es[1..][i], ss[1..][i + 1])
    {
      assert Step(build, ss[i + 1], es[i + 1], ss[i + 2]);
    }
  }

  /** What the program does: every event but the page faults. */
  ghost function Visible(es: seq<Event>): seq<Event> {
    if es == [] then []
    else if es[0].Fault? then Visible(es[1..])
    else [es[0]] + Visible(es[1..])
  }

  lemma {:induction false} FaultsAreInvisible(i: Ideal, es: seq<Event>)
    ensures IdealRun(i, es) == IdealRun(i, Visible(es))
    decreases |es|
  {
    if es != [] {
      FaultsAreInvisible(IdealStep(i, es[0]), es[1..]);
      assert es[0].Fault? || Visible(es)[1..] == Visible(es[1..]);
    }
  }

  /** Copy-on-write is not observable: a run of the copy-on-write build and a run of the deep-copy build
      that do the same boots, writes, checkpoints, deployments and teardowns, with whatever page faults each
      needs, end with the same bytes at every page of every instance and every snapshot. */
  lemma CowRefinesDeepCopy(ss: seq<State>, es: seq<Event>, ts: seq<State>, fs: seq<Event>)
    requires Run(Cow, ss, es) && Run(NoCow, ts, fs)
    requires Visible(es) == Visible(fs) && Abstract(ss[0]) == Abstract(ts[0])
    ensures Abstract(ss[|es|]) == Abstract(ts[|fs|])
    ensures ss[|es|].spaces.Keys == ts[|fs|].spaces.Keys
    ensures forall r :: r in ss[|es|].spaces ==>
              ViewOf(ss[|es|].pages, ss[|es|].spaces[r]) == ViewOf(ts[|fs|].pages, ts[|fs|].spaces[r])
  {
    RunRefines(Cow, ss, es);
    RunRefines(NoCow, ts, fs);
    FaultsAreInvisible(Abstract(ss[0]), es);
    FaultsAreInvisible(Abstract(ts[0]), fs);
    var a, b := ss[|es|], ts[|fs|];
    assert a.spaces.Keys == Abstract(a).views.Keys && b.spaces.Keys == Abstract(b).views.Keys;
    forall r | r in a.spaces
      ensures ViewOf(a.pages, a.spaces[r]) == ViewOf(b.pages, b.spaces[r])
    {
      assert Abstract(a).views[r] == Abstract(b).views[r];
    }
  }

  /** The view of r after the events of es that write to it. */
  ghost function OwnWrites(view: View, r: Ref, es: seq<Event>): View {
    if es == [] then view
    else OwnWrites(if es[0].Write? && r == Inst(es[0].id) then Put(view, es[0].v, es[0].page) else view, r, es[1..])
  }

  /** r is neither removed nor created by es. */
  predicate Stays(r: Ref, es: seq<Event>) {
    forall i :: 0 <= i < |es| ==>
      match es[i]
      case EndInstance(id) => r != Inst(id)
      case DropSnapshot(snap) => r != Snap(snap)
      case Boot(id, _) => r != Inst(id)
      case Deploy(_, id) => r != Inst(id)
      case Checkpoint(_, snap) => r != Snap(snap)
      case _ => true
  }

  lemma {:induction false} IdealIsolation(i: Ideal, r: Ref, es: seq<Event>)
    requires r in i.views && Stays(r, es)
    ensures r in IdealRun(i, es).views && IdealRun(i, es).views[r] == OwnWrites(i.views[r], r, es)
    decreases |es|
  {
    if es != [] {
      var e := es[0];
      assert Stays(r, es[1..]) by {
        assert forall k :: 0 <= k < |es[1..]| ==> es[1..][k] == es[k + 1];
      }
      assert r in IdealStep(i, e).views;
      IdealIsolation(IdealStep(i, e), r, es[1..]);
    }
  }

  /** Isolation over whole runs, in either build: the bytes of a space change only by its own writes. */
  lemma InstanceIsolation(build: Build, ss: seq<State>, es: seq<Event>, r: Ref)
    requires Run(build, ss, es) && r in ss[0].spaces && Stays(r, es)
    ensures r in ss[|es|].spaces
    ensures ViewOf(ss[|es|].pages, ss[|es|].spaces[r]) == OwnWrites(ViewOf(ss[0].pages, ss[0].spaces[r]), r, es)
  {
    RunRefines(build, ss, es);
    IdealIsolation(Abstract(ss[0]), r, es);
    assert r in Abstract(ss[|es|]).views;
  }

  lemma {:induction false} SnapshotsAreNotWritten(view: View, snap: nat, es: seq<Event>)
    ensures OwnWrites(view, Snap(snap), es) == view
    decreases |es|
  {
    if es != [] {
      SnapshotsAreNotWritten(view, snap, es[1..]);
    }
  }

  /** A snapshot never changes, whatever its source and the instances deployed from it do. */
  lemma SnapshotIsolation(build: Build, ss: seq<State>, es: seq<Event>, snap: nat)
    requires Run(build, ss, es) && Snap(snap) in ss[0].spaces && Stays(Snap(snap), es)
    ensures Snap(snap) in ss[|es|].spaces
    ensures ViewOf(ss[|es|].pages, ss[|es|].spaces[Snap(snap)]) == ViewOf(ss[0].pages, ss[0].spaces[Snap(snap)])
  {
    InstanceIsolation(build, ss, es, Snap(snap));
    SnapshotsAreNotWritten(ViewOf(ss[0].pages, ss[0].spaces[Snap(snap)]), snap, es);
  }

  /** An instance deployed from a checkpoint starts with the bytes its source had at the checkpoint, at every
      page of the slot and however much happened in between, although the checkpoint drops clean pages. */
  lemma CheckpointThenDeploy(build: Build, s: State, id: nat, snap: nat, ss: seq<State>, es: seq<Event>,
                             id': nat, s': State)
    requires Run(build, ss, es) && Stays(Snap(snap), es)
    requires Inv(s) && Step(build, s, Checkpoint(id, snap), ss[0])
    requires Step(build, ss[|es|], Deploy(snap, id'), s')
    ensures Inst(id) in s.spaces && Inst(id') in s'.spaces
    ensures ViewOf(s'.pages, s'.spaces[Inst(id')]) == ViewOf(s.pages, s.spaces[Inst(id)])
  {
    StepRefines(build, s, Checkpoint(id, snap), ss[0]);
    assert ViewOf(ss[0].pages, ss[0].spaces[Snap(snap)]) == ViewOf(s.pages, s.spaces[Inst(id)]) by {
      assert Abstract(ss[0]).views[Snap(snap)] == Abstract(s).views[Inst(id)];
    }
    SnapshotIsolation(build, ss, es, snap);
    RunRefines(build, ss, es);
    var last := ss[|es|];
    StepRefines(build, last, Deploy(snap, id'), s');
    assert Abstract(s').views[Inst(id')] == Abstract(last).views[Snap(snap)];
  }
}
