/** The scheduling of one core's execution slot, on values: what every operation of the manager and of its
    instances does to the slot, the queue and the instances, and what every run of them keeps. */
module SlotSchedule {
  import opened Wrappers

  type Id = nat

  /** UmManager::Status. */
  datatype Status = Empty | Loaded | Active | Snapshot | Idle | Halting | Finished

  /** UmmStatus::set accepts the change. */
  predicate CanSet(s: Status, t: Status) {
    match t
    case Empty => s != Active && s != Snapshot
    case Loaded => s == Empty
    case Active => s == Loaded || s == Snapshot || s == Idle
    case Idle => s == Active || s == Loaded
    case Snapshot => s == Active
    case Halting => s != Finished && s != Empty
    case Finished => s == Halting
  }

  /** The saved event context of an instance: none, saved and blocked, or handed to the event manager. */
  datatype Context = NoContext | Saved | Moved

  /** An instance: the flags of UmInstance, with the time to wait for (0 is no time), its context, and whether
      Start has been called on it. */
  datatype Umi = Umi(active: bool, blocked: bool, timer: bool, timeWait: nat, context: Context, started: bool)

  /** A new instance. */
  const NEW_UMI := Umi(true, false, false, 0, NoContext, false)

  /** The slot, every managed instance (the one in the slot and the inactive ones), the queue, the unfulfilled
      activation promises, the instances to halt on entry; and, outside the manager, the instance that the processor
      executes and the activations posted to the event loop. */
  datatype Sched = Sched(status: Status, current: Option<Id>, umis: map<Id, Umi>, queue: seq<Id>, promises: set<Id>,
                         halts: set<Id>, executing: Option<Id>, posted: multiset<Id>)

  function Parked(s: Sched): set<Id> {
    s.umis.Keys - if s.current.Some? then {s.current.value} else {}
  }

  // ---------- The invariant ----------

  ghost predicate NoDuplicates(q: seq<Id>) {
    forall i, j :: 0 <= i < j < |q| ==> q[i] != q[j]
  }

  ghost predicate QueueOk(q: seq<Id>, parked: set<Id>) {
    NoDuplicates(q) && forall id :: id in q <==> id in parked
  }

  /** A started instance is exactly one of executing, blocked with a saved context, or about to be resumed by one
      posted activation; one that was not started is none of these; only a blocked one waits for a time, and a timer
      is set only when it does. */
  predicate Placed(u: Umi, executing: bool, posted: nat) {
    && (u.timer ==> u.timeWait != 0) && (u.timeWait != 0 ==> u.blocked)
    && if !u.started then !u.blocked && u.context == NoContext && !executing && posted == 0
       else
         || (executing && !u.blocked && u.context == NoContext && posted == 0)
         || (!executing && u.blocked && u.context == Saved && posted == 0)
         || (!executing && !u.blocked && u.context == Moved && posted == 1)
  }

  /** What the status says about the slot. */
  predicate SlotOk(s: Sched) {
    && (s.status == Empty <==> s.current.None?)
    && (s.current.Some? ==> s.current.value in s.umis && s.current.value != 0)
    && (s.status == Loaded <==> s.current.Some? && !s.umis[s.current.value].started)
    && (s.status == Active || s.status == Snapshot ==> s.executing.Some?)
    && (s.executing.Some? ==> s.current == s.executing && s.status in {Active, Snapshot, Halting})
    && s.status != Finished
  }

  ghost predicate Inv(s: Sched) {
    && SlotOk(s)
    && QueueOk(s.queue, Parked(s))
    && (forall id :: id in s.umis ==> Placed(s.umis[id], s.executing == Some(id), s.posted[id]))
    && (forall id :: id in s.promises <==> id in Parked(s) && !s.umis[id].started)
    && (forall id :: id in s.posted ==> id in s.umis)
    && 0 !in s.umis
  }

  // ---------- The operations ----------

  function Set(s: Sched, id: Id, u: Umi): Sched {
    s.(umis := s.umis[id := u])
  }

  /** slot_load_instance of an instance that is not in the queue. */
  function LoadIn(s: Sched, id: Id): Sched {
    s.(status := Loaded, current := Some(id))
  }

  /** slot_unload_instance, with the unloaded instance kept inactive at the end of the queue. */
  function Park(s: Sched): Sched
    requires s.current.Some?
  {
    s.(status := Empty, current := None, queue := s.queue + [s.current.value])
  }

  /** request_slot_entry. */
  predicate MayEnter(s: Sched, id: Id) {
    s.current == Some(id) && s.status != Halting && s.status != Snapshot && s.status != Finished
  }

  /** unblock_execution. */
  function Unblocked(u: Umi): Umi {
    u.(blocked := false, timer := false, timeWait := 0, context := Moved)
  }

  /** UmInstance::Kick. */
  function AfterKick(s: Sched, id: Id): Sched
    requires id in s.umis
  {
    if s.umis[id].blocked then Set(s, id, Unblocked(s.umis[id])).(posted := s.posted + multiset{id}) else s
  }

  /** UmManager::Load. */
  function AfterSubmit(s: Sched, id: Id): Sched
    requires SlotOk(s)
  {
    var s1 := Set(s, id, NEW_UMI);
    if s.status == Empty then LoadIn(s1, id)
    else if s.status == Idle && !s.umis[s.current.value].active then LoadIn(Park(s1), id)
    else s1.(queue := s.queue + [id], promises := s.promises + {id})
  }

  /** UmManager::Start, up to the entry into the slot. */
  function AfterStart(s: Sched): Sched
    requires SlotOk(s) && s.status == Loaded
  {
    var id := s.current.value;
    Set(s, id, s.umis[id].(started := true)).(status := Active, executing := Some(id))
  }

  /** When Halt may be called: by the instance, or by an event while it is blocked; not before Start, whose frame it
      returns to, and not while the processor takes a snapshot, which ends in the status active. */
  predicate CanHalt(s: Sched) {
    s.status == Active || s.status == Idle || s.status == Halting
  }

  /** Halt, while other events wait: the halt is posted again. */
  function AfterBeginHalt(s: Sched): Sched
    requires SlotOk(s) && CanHalt(s)
  {
    var id := s.current.value;
    Set(s, id, s.umis[id].(active := true)).(status := Halting)
  }

  /** Halt, when no event waits: process_gateway, and the rest of Start. */
  function AfterHalt(s: Sched): Sched
    requires SlotOk(s) && CanHalt(s)
  {
    s.(status := Empty, current := None, executing := None, umis := s.umis - {s.current.value})
  }

  /** block_execution. */
  function Down(u: Umi): Umi {
    u.(blocked := true, context := Saved)
  }

  /** UmManager::Block and UmInstance::Sleep, up to the wait. */
  function AfterBlock(s: Sched, ns: nat, now: nat): Sched
    requires SlotOk(s) && s.status == Active
  {
    var id := s.executing.value;
    var u := s.umis[id];
    if ns == 0 then s
    else
      Set(s, id, Down(if u.active then u.(timeWait := now + ns, timer := true) else u))
      .(status := Idle, executing := None)
  }

  /** A posted activation is delivered: the instance goes on in the slot, or blocks again. */
  function AfterResume(s: Sched, id: Id): Sched
    requires id in s.umis
  {
    var u := s.umis[id].(context := NoContext);
    var s1 := s.(posted := s.posted - multiset{id});
    if MayEnter(s, id) then Set(s1, id, u).(status := Active, executing := Some(id)) else Set(s1, id, Down(u))
  }

  /** The timer of an instance fires. */
  function AfterFire(s: Sched, id: Id, now: nat): Sched
    requires id in s.umis
  {
    var u := s.umis[id].(timer := false);
    if u.timeWait != 0 && now >= u.timeWait then
      var s1 := Set(s, id, u.(timeWait := 0));
      if MayEnter(s, id) then AfterKick(s1, id) else s1
    else Set(s, id, u)
  }

  /** The position of id in q, or |q|. */
  function IndexOf(q: seq<Id>, id: Id): (k: nat)
    ensures k <= |q| && (k < |q| ==> q[k] == id) && (forall i :: 0 <= i < k ==> q[i] != id)
  {
    if q == [] || q[0] == id then 0 else 1 + IndexOf(q[1..], id)
  }

  function Without(q: seq<Id>, k: nat): seq<Id>
    requires k < |q|
  {
    q[..k] + q[k + 1..]
  }

  /** slot_queue_move_to_front. */
  function MovedToFront(q: seq<Id>, id: Id): seq<Id> {
    var k := IndexOf(q, id);
    if k < |q| then [id] + Without(q, k) else q
  }

  /** The first queued instance that is active. */
  function NextActive(umis: map<Id, Umi>, q: seq<Id>): (k: nat)
    ensures k <= |q| && (k < |q| ==> q[k] in umis && umis[q[k]].active)
    ensures forall i :: 0 <= i < k ==> q[i] in umis ==> !umis[q[i]].active
  {
    if q == [] || (q[0] in umis && umis[q[0]].active) then 0 else 1 + NextActive(umis, q[1..])
  }

  /** Yield gives the slot to a queued instance. */
  predicate Yields(s: Sched)
    requires SlotOk(s)
  {
    && !(s.current.Some? && s.umis[s.current.value].active)
    && (s.status == Idle || s.status == Empty)
    && NextActive(s.umis, s.queue) < |s.queue|
  }

  /** Yield, when there is an eligible instance: it leaves the queue and enters the slot. */
  function Swapped(s: Sched): Sched
    requires SlotOk(s) && Yields(s)
  {
    var k := NextActive(s.umis, s.queue);
    var s1 := s.(queue := Without(s.queue, k));
    LoadIn(if s.status == Idle then Park(s1) else s1, s.queue[k])
  }

  /** UmManager::Yield. */
  function AfterYield(s: Sched): Sched
    requires SlotOk(s)
  {
    if (s.current.Some? && s.umis[s.current.value].active) || (s.status != Idle && s.status != Empty) then s
    else if s.queue == [] then (if s.current.Some? then Park(s) else s)
    else if !Yields(s) then s
    else
      var s1 := Swapped(s);
      var id := s1.current.value;
      if id in s.promises then s1.(promises := s.promises - {id})
      else if id in s.halts then s1.(status := Halting, halts := s.halts - {id})
      else AfterKick(s1.(status := Idle), id)
  }

  /** UmManager::SignalHalt. An eligible instance is active already, so that the halt on its entry only sets the
      status. */
  function AfterSignalHalt(s: Sched, id: Id): Sched
    requires SlotOk(s) && (s.current == Some(id) ==> CanHalt(s))
  {
    if s.current == Some(id) then AfterBeginHalt(s)
    else AfterYield(s.(queue := MovedToFront(s.queue, id), halts := s.halts + {id}))
  }

  /** UmManager::SignalResume. */
  function AfterSignalResume(s: Sched, id: Id): Sched
    requires SlotOk(s)
  {
    if s.current == Some(id) then AfterKick(s, id)
    else AfterYield(s.(queue := MovedToFront(s.queue, id)))
  }

  // ---------- Runs ----------

  datatype Event =
    | Submit(id: Id)
    | Start
    | BeginHalt
    | Halt
    | Block(ns: nat, now: nat)
    | BeginCheckpoint
    | EndCheckpoint
    | Resume(id: Id)
    | Fire(id: Id, now: nat)
    | SignalResume(id: Id)
    | SignalHalt(id: Id)
    | Yield
    | SetActive(id: Id)
    | SetInactive(id: Id)

  /** When each may happen: the events of the program, the event loop, the timers and the proxy. Yield and the
      queue operations need a loaded slot or a non-empty queue. A halt completes when no event waits, so none that
      resumes the instance does. */
  predicate Enabled(s: Sched, e: Event)
    requires SlotOk(s)
  {
    match e
    case Submit(id) => id != 0 && id !in s.umis
    case Start => s.status == Loaded
    case BeginHalt => CanHalt(s)
    case Halt => CanHalt(s) && s.posted[s.current.value] == 0
    case Block(_, _) => s.status == Active
    case BeginCheckpoint => s.status == Active
    case EndCheckpoint => s.status == Snapshot
    case Resume(id) => id in s.posted && id in s.umis
    case Fire(id, _) => id in s.umis && s.umis[id].timer
    case SignalResume(id) => s.current == Some(id) || s.queue != []
    case SignalHalt(id) => s.current.Some? && if s.current == Some(id) then CanHalt(s) else s.queue != []
    case Yield => s.current.Some? || s.queue != []
    case SetActive(id) => id in s.umis
    case SetInactive(id) => id in s.umis
  }

  function After(s: Sched, e: Event): Sched
    requires SlotOk(s) && Enabled(s, e)
  {
    match e
    case Submit(id) => AfterSubmit(s, id)
    case Start => AfterStart(s)
    case BeginHalt => AfterBeginHalt(s)
    case Halt => AfterHalt(s)
    case Block(ns, now) => AfterBlock(s, ns, now)
    case BeginCheckpoint => s.(status := Snapshot)
    case EndCheckpoint => s.(status := Active)
    case Resume(id) => AfterResume(s, id)
    case Fire(id, now) => AfterFire(s, id, now)
    case SignalResume(id) => AfterSignalResume(s, id)
    case SignalHalt(id) => AfterSignalHalt(s, id)
    case Yield => AfterYield(s)
    case SetActive(id) => Set(s, id, s.umis[id].(active := true))
    case SetInactive(id) => Set(s, id, s.umis[id].(active := false))
  }

  // ---------- Every operation keeps the invariant ----------

  /** Changing one instance, where the slot, the queue and the promises do not notice. */
  lemma SetKeeps(s: Sched, id: Id, u: Umi, s': Sched)
    requires Inv(s) && id in s.umis && u.started == s.umis[id].started
    requires s'.umis == s.umis[id := u] && s'.queue == s.queue && s'.promises == s.promises && s'.current == s.current
    requires SlotOk(s')
    requires Placed(u, s'.executing == Some(id), s'.posted[id])
    requires forall o :: o != id ==>
               s'.posted[o] == s.posted[o] && (s'.executing == Some(o) <==> s.executing == Some(o))
    ensures Inv(s')
  {
    assert s'.umis.Keys == s.umis.Keys;
    assert Parked(s') == Parked(s);
    forall o | o in s'.posted
      ensures o in s'.umis
    {
      assert o == id || o in s.posted;
    }
  }

  lemma KickKeeps(s: Sched, id: Id)
    requires Inv(s) && id in s.umis
    ensures Inv(AfterKick(s, id))
  {
    if s.umis[id].blocked {
      assert Placed(s.umis[id], s.executing == Some(id), s.posted[id]);
      SetKeeps(s, id, Unblocked(s.umis[id]), AfterKick(s, id));
    }
  }

  lemma BlockKeeps(s: Sched, ns: nat, now: nat)
    requires Inv(s) && s.status == Active
    ensures Inv(AfterBlock(s, ns, now))
  {
    var id := s.executing.value;
    assert Placed(s.umis[id], true, s.posted[id]);
    if ns != 0 {
      SetKeeps(s, id, AfterBlock(s, ns, now).umis[id], AfterBlock(s, ns, now));
    }
  }

  lemma ResumeKeeps(s: Sched, id: Id)
    requires Inv(s) && id in s.posted
    ensures id in s.umis && Inv(AfterResume(s, id))
  {
    assert Placed(s.umis[id], s.executing == Some(id), s.posted[id]);
    SetKeeps(s, id, AfterResume(s, id).umis[id], AfterResume(s, id));
  }

  lemma FireKeeps(s: Sched, id: Id, now: nat)
    requires Inv(s) && id in s.umis && s.umis[id].timer
    ensures Inv(AfterFire(s, id, now))
  {
    assert Placed(s.umis[id], s.executing == Some(id), s.posted[id]);
    var u := s.umis[id].(timer := false);
    var s1 := Set(s, id, if u.timeWait != 0 && now >= u.timeWait then u.(timeWait := 0) else u);
    SetKeeps(s, id, s1.umis[id], s1);
    KickKeeps(s1, id);
  }

  /** What a delivered activation does to its instance and to the slot. */
  lemma ResumeIs(s: Sched, id: Id)
    requires id in s.umis
    ensures var u := s.umis[id].(context := NoContext);
            var posted := s.posted - multiset{id};
            && (MayEnter(s, id) ==>
                  AfterResume(s, id) == Set(s, id, u).(posted := posted).(status := Active, executing := Some(id)))
            && (!MayEnter(s, id) ==> AfterResume(s, id) == Set(s, id, Down(u)).(posted := posted))
  {
  }

  /** What Yield does when there is an eligible instance. */
  lemma YieldIs(s: Sched)
    requires SlotOk(s) && Yields(s)
    ensures var s1 := Swapped(s);
            var id := s.queue[NextActive(s.umis, s.queue)];
            && s1.current == Some(id) && s1.promises == s.promises && s1.halts == s.halts && s1.umis == s.umis
            && AfterYield(s) ==
               (if id in s.promises then s1.(promises := s.promises - {id})
                else if id in s.halts then s1.(status := Halting, halts := s.halts - {id})
                else AfterKick(s1.(status := Idle), id))
            && FulfillsYield(s) == if id in s.promises then Some(id) else None
  {
  }

  /** What a timer does to its instance and to the event loop. */
  lemma FireIs(s: Sched, id: Id, now: nat, entry: bool, u: Umi, posted: multiset<Id>)
    requires id in s.umis && entry == MayEnter(s, id)
    requires var v := s.umis[id].(timer := false);
             var due := v.timeWait != 0 && now >= v.timeWait;
             && u == (if due then (if entry && v.blocked then Unblocked(v) else v.(timeWait := 0)) else v)
             && posted == s.posted + if due && entry && v.blocked then multiset{id} else multiset{}
    ensures Set(s, id, u).(posted := posted) == AfterFire(s, id, now)
  {
  }

  lemma StartKeeps(s: Sched)
    requires Inv(s) && s.status == Loaded
    ensures Inv(AfterStart(s))
  {
  }

  lemma BeginHaltKeeps(s: Sched)
    requires Inv(s) && CanHalt(s)
    ensures Inv(AfterBeginHalt(s))
  {
    var id := s.current.value;
    assert Placed(s.umis[id], s.executing == Some(id), s.posted[id]);
    SetKeeps(s, id, s.umis[id].(active := true), AfterBeginHalt(s));
  }

  lemma HaltKeeps(s: Sched)
    requires Inv(s) && CanHalt(s) && s.posted[s.current.value] == 0
    ensures Inv(AfterHalt(s))
  {
  }

  /** A queue without its k-th entry, and with an entry added at the end. */
  lemma WithoutKeeps(q: seq<Id>, k: nat, parked: set<Id>)
    requires k < |q| && QueueOk(q, parked)
    ensures QueueOk(Without(q, k), parked - {q[k]})
  {
    var r := Without(q, k);
    assert forall i :: 0 <= i < |r| ==> r[i] == q[if i < k then i else i + 1];
    forall id
      ensures id in r <==> id in parked - {q[k]}
    {
      if id in q && id != q[k] {
        var i :| 0 <= i < |q| && q[i] == id;
        assert r[if i < k then i else i - 1] == id;
      }
    }
  }

  lemma PushKeeps(q: seq<Id>, id: Id, parked: set<Id>)
    requires QueueOk(q, parked) && id !in parked
    ensures QueueOk(q + [id], parked + {id})
  {
  }

  /** Moving to the front changes nothing but the queue's order. */
  lemma MoveKeeps(s: Sched, id: Id)
    requires Inv(s)
    ensures Inv(s.(queue := MovedToFront(s.queue, id)))
  {
  }

  lemma MarkKeeps(s: Sched, halts: set<Id>)
    requires Inv(s)
    ensures Inv(s.(halts := halts))
  {
  }

  lemma ParkKeeps(s: Sched)
    requires Inv(s) && s.status == Idle
    ensures Inv(Park(s))
  {
  }

  /** A new instance enters the empty slot, or the queue with a promise. */
  lemma AddKeeps(s: Sched, id: Id)
    requires Inv(s) && id != 0 && id !in s.umis
    ensures s.status == Empty ==> Inv(LoadIn(Set(s, id, NEW_UMI), id))
    ensures s.status != Empty ==> Inv(Set(s, id, NEW_UMI).(queue := s.queue + [id], promises := s.promises + {id}))
  {
    var s1 := Set(s, id, NEW_UMI);
    assert s1.umis.Keys == s.umis.Keys + {id};
    assert id !in s.posted && s.posted[id] == 0;
    if s.status == Empty {
      assert Parked(LoadIn(s1, id)) == Parked(s);
    } else {
      PushKeeps(s.queue, id, Parked(s));
      assert Parked(s1) == Parked(s) + {id};
    }
  }

  lemma SubmitKeeps(s: Sched, id: Id)
    requires Inv(s) && id != 0 && id !in s.umis
    ensures Inv(AfterSubmit(s, id))
  {
    if s.status == Idle && !s.umis[s.current.value].active {
      ParkKeeps(s);
      AddKeeps(Park(s), id);
      assert Set(Park(s), id, NEW_UMI) == Park(Set(s, id, NEW_UMI));
    } else {
      AddKeeps(s, id);
    }
  }

  /** A queued instance enters the empty slot: one with a promise is new and stays loaded until it is started;
      any other was started before, and the slot is idle or halting. */
  lemma EnterKeeps(s: Sched, k: nat)
    requires Inv(s) && s.status == Empty && k < |s.queue|
    ensures var id := s.queue[k];
            var s1 := LoadIn(s.(queue := Without(s.queue, k)), id);
            && id in s1.umis
            && if id in s.promises then Inv(s1.(promises := s.promises - {id}))
               else Inv(s1.(status := Idle)) && Inv(s1.(status := Halting, halts := s.halts - {id}))
  {
    var id := s.queue[k];
    assert id in Parked(s);
    WithoutKeeps(s.queue, k, Parked(s));
    var s1 := LoadIn(s.(queue := Without(s.queue, k)), id);
    assert Parked(s1) == Parked(s) - {id};
  }

  lemma YieldKeeps(s: Sched)
    requires Inv(s)
    ensures Inv(AfterYield(s))
  {
    if Yields(s) {
      var k := NextActive(s.umis, s.queue);
      if s.status == Idle {
        ParkKeeps(s);
        assert Park(s).queue[k] == s.queue[k];
        assert Without(s.queue, k) + [s.current.value] == Without(Park(s).queue, k);
        EnterKeeps(Park(s), k);
        assert Swapped(s) == LoadIn(Park(s).(queue := Without(Park(s).queue, k)), s.queue[k]);
      } else {
        EnterKeeps(s, k);
      }
      var id := s.queue[k];
      if id !in s.promises && id !in s.halts {
        KickKeeps(Swapped(s).(status := Idle), id);
      }
    } else if s.status == Idle {
      ParkKeeps(s);
    }
  }

  lemma FlagKeeps(s: Sched, id: Id, active: bool)
    requires Inv(s) && id in s.umis
    ensures Inv(Set(s, id, s.umis[id].(active := active)))
  {
    assert Placed(s.umis[id], s.executing == Some(id), s.posted[id]);
    SetKeeps(s, id, s.umis[id].(active := active), Set(s, id, s.umis[id].(active := active)));
  }

  /** Every event keeps the invariant. */
  lemma StepKeeps(s: Sched, e: Event)
    requires Inv(s) && Enabled(s, e)
    ensures Inv(After(s, e))
  {
    match e
    case Submit(id) => SubmitKeeps(s, id);
    case Start => StartKeeps(s);
    case BeginHalt => BeginHaltKeeps(s);
    case Halt => HaltKeeps(s);
    case Block(ns, now) => BlockKeeps(s, ns, now);
    case BeginCheckpoint => assert Parked(s.(status := Snapshot)) == Parked(s);
    case EndCheckpoint => assert Parked(s.(status := Active)) == Parked(s);
    case Resume(id) => ResumeKeeps(s, id);
    case Fire(id, now) => FireKeeps(s, id, now);
    case SignalResume(id) =>
      if s.current == Some(id) {
        KickKeeps(s, id);
      } else {
        MoveKeeps(s, id);
        YieldKeeps(s.(queue := MovedToFront(s.queue, id)));
      }
    case SignalHalt(id) =>
      if s.current == Some(id) {
        BeginHaltKeeps(s);
      } else {
        MoveKeeps(s, id);
        MarkKeeps(s.(queue := MovedToFront(s.queue, id)), s.halts + {id});
        YieldKeeps(s.(queue := MovedToFront(s.queue, id), halts := s.halts + {id}));
      }
    case Yield => YieldKeeps(s);
    case SetActive(id) => FlagKeeps(s, id, true);
    case SetInactive(id) => FlagKeeps(s, id, false);
  }

  // ---------- Whole runs ----------

  ghost predicate CanRun(s: Sched, es: seq<Event>)
    decreases |es|
  {
    SlotOk(s) && (es != [] ==> Enabled(s, es[0]) && CanRun(After(s, es[0]), es[1..]))
  }

  ghost function Final(s: Sched, es: seq<Event>): Sched
    requires CanRun(s, es)
    decreases |es|
  {
    if es == [] then s else Final(After(s, es[0]), es[1..])
  }

  const IDLE_CORE := Sched(Empty, None, map[], [], {}, {}, None, multiset{})

  /** From the empty core every reachable state satisfies the invariant. */
  lemma {:induction false} RunKeeps(s: Sched, es: seq<Event>)
    requires Inv(s) && CanRun(s, es)
    ensures Inv(Final(s, es))
    decreases |es|
  {
    if es != [] {
      StepKeeps(s, es[0]);
      RunKeeps(After(s, es[0]), es[1..]);
    }
  }

  lemma IdleCoreOk()
    ensures Inv(IDLE_CORE)
  {
  }

  /** Of the three statuses that request_slot_entry refuses only halting decides: an instance that is blocked or
      about to be resumed may enter exactly when it is in the slot and the slot is not halting. */
  lemma EntryGuard(s: Sched, id: Id)
    requires Inv(s) && id in s.umis && (s.umis[id].blocked || id in s.posted)
    ensures MayEnter(s, id) <==> s.current == Some(id) && s.status != Halting
  {
    assert Placed(s.umis[id], s.executing == Some(id), s.posted[id]);
  }

  /** The instance in the slot stays there until it halts, as long as it executes, waits to be started, or is
      marked active. */
  lemma SlotKept(s: Sched, e: Event)
    requires Inv(s) && Enabled(s, e) && e != Halt
    requires s.current.Some? && (s.status != Idle || s.umis[s.current.value].active)
    ensures After(s, e).current == s.current
  {
  }

  /** An instance gets the processor only in the slot: when it is started, or when the one activation posted for
      its saved context is delivered while the slot is idle. */
  lemma EntersOwnSlot(s: Sched, e: Event, id: Id)
    requires Inv(s) && Enabled(s, e)
    ensures After(s, e).executing == Some(id) && s.executing != Some(id) ==>
              && s.current == Some(id) && s.executing == None
              && if s.umis[id].started
                 then e == Resume(id) && s.status == Idle && s.posted[id] == 1 && s.umis[id].context == Moved
                 else e == Start && s.status == Loaded
  {
    if e.Resume? {
      assert Placed(s.umis[e.id], s.executing == Some(e.id), s.posted[e.id]);
    } else if e.SignalResume? || e.SignalHalt? || e.Yield? || e.Fire? {
      ProcessorKept(s, e);
    }
  }

  lemma ProcessorKept(s: Sched, e: Event)
    requires SlotOk(s) && Enabled(s, e) && (e.SignalResume? || e.SignalHalt? || e.Yield? || e.Fire?)
    ensures After(s, e).executing == s.executing
  {
  }

  // ---------- Order ----------

  /** An active instance in the queue. */
  ghost predicate Waiting(s: Sched, id: Id) {
    id in s.queue && id in s.umis && s.umis[id].active
  }

  /** Yield gives the slot to the earliest queued instance that is active, keeps the order of the others, and puts
      the old one last. */
  lemma YieldOrder(s: Sched)
    requires Inv(s) && Yields(s)
    ensures exists k: nat ::
              && k < |s.queue| && Waiting(s, s.queue[k])
              && (forall i :: 0 <= i < k ==> !Waiting(s, s.queue[i]))
              && AfterYield(s).current == Some(s.queue[k])
              && AfterYield(s).queue ==
                 s.queue[..k] + s.queue[k + 1..] + (if s.current.Some? then [s.current.value] else [])
  {
    var k := NextActive(s.umis, s.queue);
    assert forall i :: 0 <= i < |s.queue| ==> s.queue[i] in Parked(s) by {
      assert forall i :: 0 <= i < |s.queue| ==> s.queue[i] in s.queue;
    }
    assert AfterYield(s).current == Some(s.queue[k]);
  }

  /** Otherwise the slot goes to no other instance: it is emptied when its instance gives it up and nobody waits, and
      kept in every other case. */
  lemma NoYield(s: Sched)
    requires Inv(s) && !Yields(s) && Enabled(s, Yield)
    ensures AfterYield(s) ==
            if s.status == Idle && !s.umis[s.current.value].active && s.queue == [] then Park(s) else s
  {
  }

  /** The event moves nobody to the front of the queue. */
  predicate Calm(s: Sched, e: Event) {
    e.SignalResume? || e.SignalHalt? ==> s.current == Some(e.id)
  }

  /** The event is a Yield that loads an instance. */
  predicate Bypass(s: Sched, e: Event)
    requires SlotOk(s)
  {
    e == Yield && Yields(s)
  }

  /** An active instance in the queue never moves back, and a Yield that loads another moves it forward. */
  lemma PositionDrops(s: Sched, e: Event, id: Id)
    requires Inv(s) && Enabled(s, e) && Calm(s, e) && Waiting(s, id) && Waiting(After(s, e), id)
    ensures IndexOf(After(s, e).queue, id) + (if Bypass(s, e) then 1 else 0) <= IndexOf(s.queue, id)
  {
    StepKeeps(s, e);
    var p, q' := IndexOf(s.queue, id), After(s, e).queue;
    if Bypass(s, e) {
      NotChosen(s, id, After(s, e));
      BypassMoves(s.queue, NextActive(s.umis, s.queue), p);
    } else {
      OthersAppend(s, e);
      assert q'[p] == id;
    }
  }

  /** The waiting instance was not the one that Yield chose, so that one was before it. */
  lemma NotChosen(s: Sched, id: Id, s': Sched)
    requires Inv(s) && Yields(s) && s' == AfterYield(s) && Waiting(s, id) && Inv(s') && Waiting(s', id)
    ensures NextActive(s.umis, s.queue) < IndexOf(s.queue, id) < |s.queue|
    ensures Without(s.queue, NextActive(s.umis, s.queue)) <= s'.queue
  {
    YieldChooses(s);
    assert id in Parked(s');
  }

  lemma YieldChooses(s: Sched)
    requires SlotOk(s) && Yields(s)
    ensures var k := NextActive(s.umis, s.queue);
            AfterYield(s).current == Some(s.queue[k]) && Without(s.queue, k) <= AfterYield(s).queue
  {
  }

  lemma BypassMoves(q: seq<Id>, k: nat, p: nat)
    requires k < p < |q|
    ensures Without(q, k)[p - 1] == q[p]
  {
  }

  /** Any other calm event leaves the queue, or adds to its end. */
  lemma OthersAppend(s: Sched, e: Event)
    requires Inv(s) && Enabled(s, e) && Calm(s, e) && !Bypass(s, e)
    ensures s.queue <= After(s, e).queue
  {
  }

  ghost predicate KeepsWaiting(s: Sched, es: seq<Event>, id: Id)
    decreases |es|
  {
    && SlotOk(s) && Waiting(s, id)
    && (es != [] ==> Enabled(s, es[0]) && Calm(s, es[0]) && KeepsWaiting(After(s, es[0]), es[1..], id))
  }

  ghost function Bypasses(s: Sched, es: seq<Event>, id: Id): nat
    requires KeepsWaiting(s, es, id)
    decreases |es|
  {
    if es == [] then 0 else (if Bypass(s, es[0]) then 1 else 0) + Bypasses(After(s, es[0]), es[1..], id)
  }

  /** Bounded bypass: while no instance is moved to the front, one that waits active at position k sees at most
      k Yields load others. */
  lemma {:induction false} BoundedBypass(s: Sched, es: seq<Event>, id: Id)
    requires Inv(s) && KeepsWaiting(s, es, id)
    ensures Bypasses(s, es, id) <= IndexOf(s.queue, id)
    decreases |es|
  {
    if es != [] {
      StepKeeps(s, es[0]);
      BoundedBypass(After(s, es[0]), es[1..], id);
      PositionDrops(s, es[0], id);
    }
  }

  /** Another instance than id gets the slot. */
  predicate Overtakes(s: Sched, e: Event, id: Id)
    requires SlotOk(s) && Enabled(s, e)
  {
    var c := After(s, e).current;
    c.Some? && c != s.current && c != Some(id)
  }

  /** The event submits an instance that enters the slot at once. */
  predicate Jump(s: Sched, e: Event)
    requires SlotOk(s)
  {
    e.Submit? && (s.status == Empty || (s.status == Idle && !s.umis[s.current.value].active))
  }

  /** Exactly two kinds of calm events give the slot to another instance while one waits active: a Yield that loads
      another, and a submission to a slot that is empty or can be given up. */
  lemma WhoOvertakes(s: Sched, e: Event, id: Id)
    requires Inv(s) && Enabled(s, e) && Calm(s, e) && Waiting(s, id)
    ensures Overtakes(s, e, id) <==>
            Jump(s, e) || (Bypass(s, e) && s.queue[NextActive(s.umis, s.queue)] != id)
  {
    if Bypass(s, e) {
      YieldChooses(s);
      QueuedIsParked(s, NextActive(s.umis, s.queue));
    } else if e.Fire? || e.SignalResume? || e.SignalHalt? {
      OthersKeepSlot(s, e);
    }
  }

  lemma QueuedIsParked(s: Sched, k: nat)
    requires Inv(s) && k < |s.queue|
    ensures s.current != Some(s.queue[k])
  {
    assert s.queue[k] in s.queue && s.queue[k] in Parked(s);
  }

  lemma OthersKeepSlot(s: Sched, e: Event)
    requires SlotOk(s) && Enabled(s, e) && Calm(s, e) && (e.Fire? || e.SignalResume? || e.SignalHalt?)
    ensures After(s, e).current == s.current
  {
  }

  ghost function Overtaken(s: Sched, es: seq<Event>, id: Id): nat
    requires KeepsWaiting(s, es, id)
    decreases |es|
  {
    if es == [] then 0 else (if Overtakes(s, es[0], id) then 1 else 0) + Overtaken(After(s, es[0]), es[1..], id)
  }

  ghost function Jumps(s: Sched, es: seq<Event>, id: Id): nat
    requires KeepsWaiting(s, es, id)
    decreases |es|
  {
    if es == [] then 0 else (if Jump(s, es[0]) then 1 else 0) + Jumps(After(s, es[0]), es[1..], id)
  }

  /** So a waiting active instance at position k is overtaken at most k times, and once by every submission that
      jumps the queue. */
  lemma {:induction false} OvertakingBound(s: Sched, es: seq<Event>, id: Id)
    requires Inv(s) && KeepsWaiting(s, es, id)
    ensures Overtaken(s, es, id) == Bypasses(s, es, id) + Jumps(s, es, id)
    ensures Overtaken(s, es, id) <= IndexOf(s.queue, id) + Jumps(s, es, id)
    decreases |es|
  {
    BoundedBypass(s, es, id);
    if es != [] {
      StepKeeps(s, es[0]);
      WhoOvertakes(s, es[0], id);
      if Bypass(s, es[0]) {
        NotLoaded(s, es[0], id);
      }
      OvertakingBound(After(s, es[0]), es[1..], id);
    }
  }

  lemma NotLoaded(s: Sched, e: Event, id: Id)
    requires Inv(s) && Enabled(s, e) && Bypass(s, e) && Inv(After(s, e)) && Waiting(After(s, e), id)
    ensures s.queue[NextActive(s.umis, s.queue)] != id
  {
    YieldChooses(s);
    assert id in Parked(After(s, e));
  }

  /** The submissions have no bound: n new instances, one after the other, can be submitted to the empty slot, started,
      block, and be halted by an event, when the Yield that the halt before has posted has done nothing. */
  function Cycle(c: Id): seq<Event> {
    [Submit(c), Start, Block(1, 0), Yield, Halt]
  }

  function Cycles(c: Id, n: nat): seq<Event>
    decreases n
  {
    if n == 0 then [] else Cycle(c) + Cycles(c + 1, n - 1)
  }

  /** A new instance in the slot of s. */
  function Visited(s: Sched, c: Id, status: Status, u: Umi): Sched {
    Set(s, c, u).(status := status, current := Some(c), executing := if status == Active then Some(c) else None)
  }

  lemma CycleBack(s: Sched, c: Id)
    requires Inv(s) && s.status == Empty && c != 0 && c !in s.umis
    ensures AfterSubmit(s, c) == Visited(s, c, Loaded, NEW_UMI)
    ensures var u := NEW_UMI.(started := true);
            var s1 := Visited(s, c, Loaded, NEW_UMI);
            var s2 := Visited(s, c, Active, u);
            var s3 := Visited(s, c, Idle, Down(u.(timeWait := 1, timer := true)));
            && SlotOk(s1) && AfterStart(s1) == s2
            && SlotOk(s2) && AfterBlock(s2, 1, 0) == s3
            && SlotOk(s3) && AfterYield(s3) == s3
            && s3.posted[c] == 0 && AfterHalt(s3) == s
  {
    assert c !in s.posted;
  }

  lemma {:induction false} Starved(s: Sched, id: Id, c: Id, n: nat)
    requires Inv(s) && s.status == Empty && Waiting(s, id) && c != 0 && forall o :: o in s.umis ==> o < c
    ensures Starves(s, Cycles(c, n), id, n)
    decreases n
  {
    if n > 0 {
      var rest := Cycles(c + 1, n - 1);
      Starved(s, id, c + 1, n - 1);
      NewerIsFree(s, c);
      OneCycle(s, id, c, rest, n - 1);
    }
  }

  lemma NewerIsFree(s: Sched, c: Id)
    requires forall o :: o in s.umis ==> o < c
    ensures c !in s.umis
  {
  }

  /** While id waits, n other instances get the slot, all by submissions. */
  ghost predicate Starves(s: Sched, es: seq<Event>, id: Id, n: nat) {
    KeepsWaiting(s, es, id) && Overtaken(s, es, id) == n && Jumps(s, es, id) == n
  }

  lemma OneCycle(s: Sched, id: Id, c: Id, rest: seq<Event>, n: nat)
    requires Inv(s) && s.status == Empty && Waiting(s, id) && c != 0 && c !in s.umis && Starves(s, rest, id, n)
    ensures Starves(s, Cycle(c) + rest, id, n + 1)
  {
    CycleBack(s, c);
    var u := NEW_UMI.(started := true);
    var s1, s2 := Visited(s, c, Loaded, NEW_UMI), Visited(s, c, Active, u);
    var s3 := Visited(s, c, Idle, Down(u.(timeWait := 1, timer := true)));
    VisitEnds(s3, s, rest, id, n);
    VisitStarts(s1, s2, s3, [Yield] + ([Halt] + rest), id, n);
    Enters(s, c, s1, [Start] + ([Block(1, 0)] + ([Yield] + ([Halt] + rest))), id, n);
    CycleEvents(c, rest);
  }

  lemma CycleEvents(c: Id, rest: seq<Event>)
    ensures Cycle(c) + rest == [Submit(c)] + ([Start] + ([Block(1, 0)] + ([Yield] + ([Halt] + rest))))
  {
  }

  lemma VisitStarts(s1: Sched, s2: Sched, s3: Sched, es: seq<Event>, id: Id, n: nat)
    requires SlotOk(s1) && s1.status == Loaded && Waiting(s1, id) && AfterStart(s1) == s2
    requires SlotOk(s2) && s2.status == Active && Waiting(s2, id) && AfterBlock(s2, 1, 0) == s3
    requires s1.current == s2.current == s3.current && Starves(s3, es, id, n)
    ensures Starves(s1, [Start] + ([Block(1, 0)] + es), id, n)
  {
    Stays(s2, Block(1, 0), s3, es, id, n);
    Stays(s1, Start, s2, [Block(1, 0)] + es, id, n);
  }

  lemma VisitEnds(s3: Sched, s: Sched, rest: seq<Event>, id: Id, n: nat)
    requires SlotOk(s3) && s3.status == Idle && s3.posted[s3.current.value] == 0 && Waiting(s3, id)
    requires AfterYield(s3) == s3 && AfterHalt(s3) == s && s.current == None && Starves(s, rest, id, n)
    ensures Starves(s3, [Yield] + ([Halt] + rest), id, n)
  {
    Stays(s3, Halt, s, rest, id, n);
    Stays(s3, Yield, s3, [Halt] + rest, id, n);
  }

  /** An event that gives the slot to nobody, before a run. */
  lemma Stays(s: Sched, e: Event, s': Sched, es: seq<Event>, id: Id, n: nat)
    requires SlotOk(s) && Waiting(s, id) && Enabled(s, e) && Calm(s, e) && !e.Submit? && After(s, e) == s'
    requires (s'.current == s.current || s'.current == None) && Starves(s', es, id, n)
    ensures Starves(s, [e] + es, id, n)
  {
    assert ([e] + es)[1..] == es;
  }

  lemma Enters(s: Sched, c: Id, s': Sched, es: seq<Event>, id: Id, n: nat)
    requires SlotOk(s) && s.status == Empty && Waiting(s, id) && c != 0 && c !in s.umis && AfterSubmit(s, c) == s'
    requires s'.current == Some(c) && Starves(s', es, id, n)
    ensures Starves(s, [Submit(c)] + es, id, n + 1)
  {
    assert ([Submit(c)] + es)[1..] == es;
  }

  // ---------- Halting is final ----------

  /** The instance has left the core, or it was started, does not execute, and is halting or will be on its next
      entry. */
  ghost predicate Doomed(s: Sched, id: Id) {
    id in s.umis ==>
      && s.umis[id].started && s.executing != Some(id)
      && if s.current == Some(id) then s.status == Halting else id in s.halts
  }

  lemma DoomedKept(s: Sched, s': Sched, id: Id)
    requires Doomed(s, id) && s'.umis.Keys == s.umis.Keys
    requires id in s.umis ==> s'.umis[id].started == s.umis[id].started
    requires s'.status == s.status && s'.current == s.current && s.halts <= s'.halts && s'.executing == s.executing
    ensures Doomed(s', id)
  {
  }

  lemma YieldDooms(s: Sched, id: Id)
    requires Inv(s) && Doomed(s, id)
    ensures Doomed(AfterYield(s), id)
  {
    if Yields(s) {
      var o := s.queue[NextActive(s.umis, s.queue)];
      YieldIs(s);
      QueuedIsParked(s, NextActive(s.umis, s.queue));
      assert id in s.umis && s.umis[id].started ==> id !in s.promises;
      EnteredDooms(s, Swapped(s), o, id);
    }
  }

  /** What Yield does to the instance o that entered. */
  lemma EnteredDooms(s: Sched, s1: Sched, o: Id, id: Id)
    requires Doomed(s, id) && s.current != Some(o) && (s.status == Idle || s.status == Empty)
    requires s1.umis == s.umis && s1.halts == s.halts && s1.executing == s.executing && s1.current == Some(o)
    requires o in s.umis && (id in s.umis ==> id !in s.promises)
    ensures o in s.promises ==> Doomed(s1.(promises := s.promises - {o}), id)
    ensures o !in s.promises && o in s.halts ==> Doomed(s1.(status := Halting, halts := s.halts - {o}), id)
    ensures o !in s.promises && o !in s.halts ==> Doomed(AfterKick(s1.(status := Idle), o), id)
  {
  }

  lemma DoomedStep(s: Sched, e: Event, id: Id)
    requires Inv(s) && Enabled(s, e) && Doomed(s, id) && e != Submit(id)
    ensures Doomed(After(s, e), id)
  {
    match e
    case Yield => YieldDooms(s, id);
    case SignalResume(o) =>
      if s.current == Some(o) {
        DoomedKept(s, AfterKick(s, o), id);
      } else {
        MoveKeeps(s, o);
        YieldDooms(s.(queue := MovedToFront(s.queue, o)), id);
      }
    case SignalHalt(o) =>
      if s.current != Some(o) {
        MoveKeeps(s, o);
        MarkKeeps(s.(queue := MovedToFront(s.queue, o)), s.halts + {o});
        YieldDooms(s.(queue := MovedToFront(s.queue, o), halts := s.halts + {o}), id);
      }
    case Fire(o, now) =>
      FireAccounts(s, o, now);
      FireKeepsSlot(s, o, now);
      DoomedKept(s, After(s, e), id);
    case Resume(o) => DoomedResume(s, o, id);
    case Submit(o) => DoomedSubmit(s, o, id);
    case _ =>
  }

  lemma FireKeepsSlot(s: Sched, o: Id, now: nat)
    requires o in s.umis
    ensures var s' := AfterFire(s, o, now);
            && s'.status == s.status && s'.current == s.current && s'.halts == s.halts && s'.executing == s.executing
            && s'.umis.Keys == s.umis.Keys && forall id :: id in s.umis ==> s'.umis[id].started == s.umis[id].started
  {
  }

  lemma DoomedResume(s: Sched, o: Id, id: Id)
    requires SlotOk(s) && o in s.umis && Doomed(s, id)
    ensures Doomed(AfterResume(s, o), id)
  {
    ResumeIs(s, o);
  }

  lemma DoomedSubmit(s: Sched, o: Id, id: Id)
    requires SlotOk(s) && o != id && Doomed(s, id)
    ensures Doomed(AfterSubmit(s, o), id)
  {
  }

  /** It never executes again, whatever happens. Ids are never used twice. */
  lemma {:induction false} HaltIsFinal(s: Sched, es: seq<Event>, id: Id)
    requires Inv(s) && CanRun(s, es) && Doomed(s, id) && Submit(id) !in es
    ensures Doomed(Final(s, es), id) && Final(s, es).executing != Some(id)
    decreases |es|
  {
    if es != [] {
      StepKeeps(s, es[0]);
      DoomedStep(s, es[0], id);
      HaltIsFinal(After(s, es[0]), es[1..], id);
    }
  }

  /** SignalHalt has this effect exactly on the instances that were started and do not execute. */
  lemma SignalHaltDooms(s: Sched, id: Id)
    requires Inv(s) && Enabled(s, SignalHalt(id)) && id in s.umis
    ensures Doomed(After(s, SignalHalt(id)), id) <==> s.umis[id].started && s.executing != Some(id)
  {
    var s1 := s.(queue := MovedToFront(s.queue, id), halts := s.halts + {id});
    if s.current != Some(id) {
      MoveKeeps(s, id);
      MarkKeeps(s.(queue := MovedToFront(s.queue, id)), s.halts + {id});
      if s.umis[id].started && s.executing != Some(id) {
        YieldDooms(s1, id);
      } else {
        YieldStarts(s1, id);
      }
    }
  }

  /** Yield starts nobody. */
  lemma YieldStarts(s: Sched, id: Id)
    requires SlotOk(s) && id in s.umis
    ensures var s' := AfterYield(s); id in s'.umis && s'.umis[id].started == s.umis[id].started
    ensures AfterYield(s).executing == s.executing
  {
    if Yields(s) {
      YieldIs(s);
    }
  }

  /** One that waits with a promise enters the slot in spite of it, starts, and keeps its mark. */
  lemma PromisedStarts(s: Sched, id: Id)
    requires Inv(s) && id in s.promises && s.umis[id].active && s.status == Idle && !s.umis[s.current.value].active
    ensures CanRun(s, [SignalHalt(id), Start])
    ensures var s2 := Final(s, [SignalHalt(id), Start]); s2.executing == Some(id) && id in s2.halts
  {
    assert id in s.queue;
    var s1 := s.(queue := MovedToFront(s.queue, id), halts := s.halts + {id});
    YieldIs(s1);
    var s2 := AfterYield(s1);
    assert After(s, SignalHalt(id)) == s2;
    assert s2.current == Some(id) && s2.status == Loaded && id in s2.halts;
    assert [SignalHalt(id), Start][1..] == [Start];
    assert [Start][1..] == [];
    assert CanRun(AfterStart(s2), []);
    assert CanRun(s2, [Start]);
  }

  // ---------- Going to sleep and waking up ----------

  /** A timer wakes its instance only in the slot, and not before the time it waits for. */
  lemma FireInTime(s: Sched, id: Id, now: nat)
    requires Inv(s) && Enabled(s, Fire(id, now)) && After(s, Fire(id, now)).posted != s.posted
    ensures s.current == Some(id) && now >= s.umis[id].timeWait
    ensures After(s, Fire(id, now)).posted == s.posted + multiset{id}
  {
  }

  /** An active instance that sleeps keeps the slot, and its timer brings back exactly the state it left. */
  lemma SleepCycle(s: Sched, ns: nat, now: nat, then': nat)
    requires Inv(s) && s.status == Active && s.umis[s.executing.value].active && 0 < ns && now + ns <= then'
    ensures var id := s.executing.value;
            var s1 := AfterBlock(s, ns, now);
            && Inv(s1) && s1.current == Some(id) && s1.umis[id].timer
            && var s2 := AfterFire(s1, id, then');
               && Inv(s2) && s2.current == Some(id) && id in s2.posted
               && AfterResume(s2, id) == s
  {
    var id := s.executing.value;
    assert Placed(s.umis[id], true, s.posted[id]);
    BlockKeeps(s, ns, now);
    FireKeeps(AfterBlock(s, ns, now), id, then');
    Woken(s, id, ns, now, then');
    BackInSlot(s, id, s.umis[id].(context := Moved));
  }

  /** The instance is about to be resumed. */
  function Resumable(s: Sched, id: Id, u: Umi): Sched {
    Set(s, id, u).(posted := s.posted + multiset{id}, status := Idle, executing := None)
  }

  lemma Woken(s: Sched, id: Id, ns: nat, now: nat, then': nat)
    requires SlotOk(s) && s.status == Active && s.executing == Some(id) && 0 < ns && now + ns <= then'
    requires s.umis[id].active && Placed(s.umis[id], true, s.posted[id])
    ensures AfterFire(AfterBlock(s, ns, now), id, then') == Resumable(s, id, s.umis[id].(context := Moved))
  {
  }

  lemma BackInSlot(s: Sched, id: Id, u: Umi)
    requires SlotOk(s) && s.status == Active && s.executing == Some(id) && s.umis[id].context == NoContext
    requires u == s.umis[id].(context := Moved)
    ensures AfterResume(Resumable(s, id, u), id) == s
  {
  }

  /** Signalling an active instance in the queue gives it the slot when the slot can be given up, ahead of all
      others, and posts its activation if it was blocked, or begins to halt it if that was asked for. */
  lemma SignalLoads(s: Sched, id: Id)
    requires Inv(s) && Waiting(s, id)
    requires s.status == Empty || (s.status == Idle && !s.umis[s.current.value].active)
    ensures After(s, SignalResume(id)).current == Some(id)
    ensures s.umis[id].blocked && id !in s.halts ==> After(s, SignalResume(id)).posted[id] == 1
    ensures s.umis[id].started && id in s.halts ==> After(s, SignalResume(id)).status == Halting
    ensures !s.umis[id].started ==> After(s, SignalResume(id)).status == Loaded
  {
  }

  // ---------- Promises, and nobody lost ----------

  /** The activation that the event completes: Load's ready future, or the promise of the instance that a Yield
      puts into the slot. */
  function Fulfills(s: Sched, e: Event): Option<Id>
    requires SlotOk(s) && Enabled(s, e)
  {
    match e
    case Submit(id) => if id in After(s, e).promises then None else Some(id)
    case Yield => FulfillsYield(s)
    case SignalResume(id) =>
      if s.current == Some(id) then None else FulfillsYield(s.(queue := MovedToFront(s.queue, id)))
    case SignalHalt(id) =>
      if s.current == Some(id) then None
      else FulfillsYield(s.(queue := MovedToFront(s.queue, id), halts := s.halts + {id}))
    case _ => None
  }

  function FulfillsYield(s: Sched): Option<Id>
    requires SlotOk(s)
  {
    if Yields(s) && Swapped(s).current.value in s.promises then Swapped(s).current else None
  }

  /** The ids submitted so far, those whose activation was completed, and those returned by Start or Run. */
  datatype History = History(submitted: set<Id>, fulfilled: set<Id>, returned: set<Id>)

  function Extended(s: Sched, e: Event, h: History): History
    requires SlotOk(s) && Enabled(s, e)
  {
    History(
      if e.Submit? then h.submitted + {e.id} else h.submitted,
      if Fulfills(s, e).Some? then h.fulfilled + {Fulfills(s, e).value} else h.fulfilled,
      if e == Halt then h.returned + {s.current.value} else h.returned)
  }

  /** Every submitted instance is managed or was returned, not both; and its activation is either still promised
      or was completed. */
  ghost predicate Accounted(s: Sched, h: History) {
    && h.submitted == s.umis.Keys + h.returned && s.umis.Keys !! h.returned
    && s.promises <= h.submitted && h.fulfilled == h.submitted - s.promises
  }

  lemma YieldAccounts(s: Sched)
    requires SlotOk(s)
    ensures AfterYield(s).umis.Keys == s.umis.Keys
    ensures AfterYield(s).promises == s.promises - Only(FulfillsYield(s))
    ensures FulfillsYield(s).Some? ==> FulfillsYield(s).value in s.promises && AfterYield(s).status == Loaded
                                       && AfterYield(s).current == FulfillsYield(s)
  {
  }

  function Only(id: Option<Id>): set<Id> {
    if id.Some? then {id.value} else {}
  }

  lemma AccountedOn(s: Sched, s': Sched, f: Option<Id>, h: History)
    requires Accounted(s, h) && s'.umis.Keys == s.umis.Keys && s'.promises == s.promises - Only(f)
    requires f.Some? ==> f.value in s.promises
    ensures Accounted(s', h.(fulfilled := h.fulfilled + Only(f))) && (f.Some? ==> f.value !in h.fulfilled)
  {
  }

  /** No instance is lost or duplicated, and every activation is completed exactly once, when its instance enters
      the slot. Ids are never used twice. */
  lemma StepAccounts(s: Sched, e: Event, h: History)
    requires Inv(s) && Enabled(s, e) && Accounted(s, h) && (e.Submit? ==> e.id !in h.submitted)
    ensures AccountsFor(s, e, h)
  {
    if e.Submit? {
      SubmitAccounts(s, e.id, h);
    } else if e.Halt? {
      HaltAccounts(s, h);
    } else {
      PlainAccounts(s, e, h);
    }
  }

  /** After the event everybody is accounted for, and an activation that it completes is a first one, of the
      instance now in the slot. */
  ghost predicate AccountsFor(s: Sched, e: Event, h: History)
    requires SlotOk(s) && Enabled(s, e)
  {
    && Accounted(After(s, e), Extended(s, e, h))
    && (Fulfills(s, e).Some? ==>
          && Fulfills(s, e).value !in h.fulfilled
          && After(s, e).current == Fulfills(s, e) && After(s, e).status == Loaded)
  }

  lemma PlainAccounts(s: Sched, e: Event, h: History)
    requires SlotOk(s) && Enabled(s, e) && Accounted(s, h) && !e.Submit? && !e.Halt?
    ensures AccountsFor(s, e, h)
  {
    OthersAccount(s, e);
    AccountedOn(s, After(s, e), Fulfills(s, e), h);
    PlainHistory(s, e, h);
  }

  lemma PlainHistory(s: Sched, e: Event, h: History)
    requires SlotOk(s) && Enabled(s, e) && !e.Submit? && !e.Halt?
    ensures Extended(s, e, h) == h.(fulfilled := h.fulfilled + Only(Fulfills(s, e)))
  {
  }

  lemma HaltAccounts(s: Sched, h: History)
    requires Inv(s) && Enabled(s, Halt) && Accounted(s, h)
    ensures AccountsFor(s, Halt, h)
  {
  }

  /** The other events manage the same instances, and keep every promise but the one they fulfill. */
  lemma OthersAccount(s: Sched, e: Event)
    requires SlotOk(s) && Enabled(s, e) && !e.Submit? && !e.Halt?
    ensures After(s, e).umis.Keys == s.umis.Keys && After(s, e).promises == s.promises - Only(Fulfills(s, e))
    ensures Fulfills(s, e).Some? ==> Fulfills(s, e).value in s.promises && After(s, e).status == Loaded
                                     && After(s, e).current == Fulfills(s, e)
  {
    if e.Yield? {
      YieldAccounts(s);
    } else if e.SignalResume? && s.current != Some(e.id) {
      YieldAccounts(s.(queue := MovedToFront(s.queue, e.id)));
    } else if e.SignalHalt? && s.current != Some(e.id) {
      YieldAccounts(s.(queue := MovedToFront(s.queue, e.id), halts := s.halts + {e.id}));
    } else {
      FewAccount(s, e);
    }
  }

  lemma FewAccount(s: Sched, e: Event)
    requires SlotOk(s) && Enabled(s, e) && !e.Submit? && !e.Halt? && !e.Yield?
    requires e.SignalResume? || e.SignalHalt? ==> s.current == Some(e.id)
    ensures After(s, e).umis.Keys == s.umis.Keys && After(s, e).promises == s.promises
  {
    match e
    case SignalResume(id) => KickAccounts(s, id);
    case Fire(id, now) => FireAccounts(s, id, now);
    case Resume(id) =>
      assert AfterResume(s, id).umis.Keys == s.umis.Keys;
    case _ =>
  }

  lemma KickAccounts(s: Sched, id: Id)
    requires id in s.umis
    ensures AfterKick(s, id).umis.Keys == s.umis.Keys && AfterKick(s, id).promises == s.promises
  {
  }

  lemma FireAccounts(s: Sched, id: Id, now: nat)
    requires id in s.umis
    ensures AfterFire(s, id, now).umis.Keys == s.umis.Keys && AfterFire(s, id, now).promises == s.promises
  {
    KickAccounts(Set(s, id, s.umis[id].(timer := false, timeWait := 0)), id);
  }

  lemma SubmitAccounts(s: Sched, id: Id, h: History)
    requires Inv(s) && Enabled(s, Submit(id)) && Accounted(s, h) && id !in h.submitted
    ensures AccountsFor(s, Submit(id), h)
  {
    assert After(s, Submit(id)).umis.Keys == s.umis.Keys + {id};
  }

  /** The ids that es submits are new: none is among the used ones or submitted twice. */
  ghost predicate NewIds(es: seq<Event>, used: set<Id>)
    decreases |es|
  {
    es != [] ==>
      if es[0].Submit? then es[0].id !in used && NewIds(es[1..], used + {es[0].id}) else NewIds(es[1..], used)
  }

  ghost function HistoryOf(s: Sched, es: seq<Event>, h: History): History
    requires CanRun(s, es)
    decreases |es|
  {
    if es == [] then h else HistoryOf(After(s, es[0]), es[1..], Extended(s, es[0], h))
  }

  /** So on every run. */
  lemma {:induction false} RunAccounts(s: Sched, es: seq<Event>, h: History)
    requires Inv(s) && CanRun(s, es) && Accounted(s, h) && NewIds(es, h.submitted)
    ensures Accounted(Final(s, es), HistoryOf(s, es, h))
    decreases |es|
  {
    if es != [] {
      StepKeeps(s, es[0]);
      StepAccounts(s, es[0], h);
      RunAccounts(After(s, es[0]), es[1..], Extended(s, es[0], h));
    }
  }

  /** The events of the run that complete the activation of id. */
  ghost function Completions(s: Sched, es: seq<Event>, id: Id): nat
    requires CanRun(s, es)
    decreases |es|
  {
    if es == [] then 0
    else (if Fulfills(s, es[0]) == Some(id) then 1 else 0) + Completions(After(s, es[0]), es[1..], id)
  }

  lemma {:induction false} FulfilledGrows(s: Sched, es: seq<Event>, h: History)
    requires CanRun(s, es)
    ensures h.fulfilled <= HistoryOf(s, es, h).fulfilled
    decreases |es|
  {
    if es != [] {
      FulfilledGrows(After(s, es[0]), es[1..], Extended(s, es[0], h));
    }
  }

  /** Every activation is completed by one event of the run at most, and by one exactly when it was not completed
      before the run and is after it. */
  lemma {:induction false} CompletedOnce(s: Sched, es: seq<Event>, h: History, id: Id)
    requires Inv(s) && CanRun(s, es) && Accounted(s, h) && NewIds(es, h.submitted)
    ensures Completions(s, es, id) == if id in HistoryOf(s, es, h).fulfilled && id !in h.fulfilled then 1 else 0
    decreases |es|
  {
    if es != [] {
      StepKeeps(s, es[0]);
      StepAccounts(s, es[0], h);
      CompletedOnce(After(s, es[0]), es[1..], Extended(s, es[0], h), id);
      FulfilledGrows(After(s, es[0]), es[1..], Extended(s, es[0], h));
    }
  }

  /** From the idle core: an id that was submitted was completed exactly once, or is still promised. */
  lemma SubmittedOnce(es: seq<Event>, id: Id)
    requires CanRun(IDLE_CORE, es) && NewIds(es, {})
    ensures var h := HistoryOf(IDLE_CORE, es, History({}, {}, {}));
            Completions(IDLE_CORE, es, id) ==
            if id in h.submitted && id !in Final(IDLE_CORE, es).promises then 1 else 0
  {
    IdleCoreOk();
    RunAccounts(IDLE_CORE, es, History({}, {}, {}));
    CompletedOnce(IDLE_CORE, es, History({}, {}, {}), id);
  }
}
