/** The scheduling side of a core's manager and of its instances (UmManager.cc, UmInstance.cc): every method does
    to the slot, the queue and the instances what SlotSchedule says. Every kassert and kabort on the way is a
    precondition or an assertion. */
module Scheduler {
  import opened Wrappers
  import opened SlotSchedule

  /** The event loop, as far as activations of saved contexts go. */
  class EventLoop {
    var posted: multiset<Id>

    constructor ()
      ensures posted == multiset{}
    {
      posted := multiset{};
    }

    /** EventManager::ActivateContext: asynchronous. */
    method ActivateContext(id: Id)
      modifies this
      ensures posted == old(posted) + multiset{id}
    {
      posted := posted + multiset{id};
    }

    method Deliver(id: Id)
      modifies this
      ensures posted == old(posted) - multiset{id}
    {
      posted := posted - multiset{id};
    }
  }

  class UmInstance {
    const id: Id
    var active: bool
    var blocked: bool
    var timerSet: bool
    var timeWait: nat
    var context: Context
    ghost var started: bool

    ghost function V(): Umi
      reads this
    {
      Umi(active, blocked, timerSet, timeWait, context, started)
    }

    constructor (id: Id)
      ensures this.id == id && V() == NEW_UMI
    {
      this.id := id;
      active, blocked, timerSet, timeWait, context, started := true, false, false, 0, NoContext, false;
    }

    method SetActive()
      modifies this
      ensures V() == old(V()).(active := true)
    {
      if !active {
        active := true;
      }
    }

    method SetInactive()
      modifies this
      ensures V() == old(V()).(active := false)
    {
      if active {
        active := false;
      }
    }

    method EnableTimer(now: nat)
      modifies this
      ensures V() == if old(timerSet) || now >= timeWait then old(V()) else old(V()).(timer := true)
    {
      if timerSet || now >= timeWait {
        return;
      }
      timerSet := true;
    }

    method DisableTimer()
      modifies this
      ensures V() == old(V()).(timer := false, timeWait := 0)
    {
      timerSet := false;
      timeWait := 0;
    }

    /** Up to SaveContext. */
    method BlockExecution()
      modifies this
      ensures V() == Down(old(V()))
    {
      context := Saved;
      blocked := true;
    }

    /** After SaveContext; entry is the manager's answer to request_slot_entry. */
    method ResumeExecution(entry: bool)
      modifies this
      ensures var u := old(V()).(context := NoContext); V() == if entry then u else Down(u)
    {
      context := NoContext;
      if !entry {
        BlockExecution();
      }
    }

    method UnblockExecution(loop: EventLoop)
      requires context != NoContext
      modifies this, loop
      ensures V() == Unblocked(old(V())) && loop.posted == old(loop.posted) + multiset{id}
    {
      blocked := false;
      DisableTimer();
      context := Moved;
      loop.ActivateContext(id);
    }

    method Kick(loop: EventLoop)
      requires blocked ==> context != NoContext
      modifies this, loop
      ensures V() == if old(blocked) then Unblocked(old(V())) else old(V())
      ensures loop.posted == old(loop.posted) + if old(blocked) then multiset{id} else multiset{}
    {
      if blocked {
        UnblockExecution(loop);
      }
    }

    /** Up to the wait; waits says whether there is one. A timer that is already set aborts. */
    method Sleep(ns: nat, now: nat) returns (waits: bool)
      requires !timerSet
      modifies this
      ensures waits == (ns != 0)
      ensures V() == if ns == 0 then old(V())
                     else Down(if old(active) then old(V()).(timeWait := now + ns, timer := true) else old(V()))
    {
      if ns == 0 {
        return false;
      }
      if active {
        timeWait := now + ns;
        EnableTimer(now);
      }
      BlockExecution();
      return true;
    }

    /** The timer fires; entry is the manager's answer to request_slot_entry. */
    method Fire(now: nat, entry: bool, loop: EventLoop)
      requires timerSet && (blocked ==> context != NoContext)
      modifies this, loop
      ensures var u := old(V()).(timer := false);
              var due := u.timeWait != 0 && now >= u.timeWait;
              && V() == (if due then (if entry && u.blocked then Unblocked(u) else u.(timeWait := 0)) else u)
              && loop.posted == old(loop.posted) + if due && entry && u.blocked then multiset{id} else multiset{}
    {
      timerSet := false;
      if timeWait != 0 && now >= timeWait {
        timeWait := 0;
        if entry {
          Kick(loop);
        }
      }
    }
  }

  class UmManager {
    const loop: EventLoop
    var status: Status
    var activeUmi: UmInstance?
    var idleQueue: seq<Id>
    var inactive: map<Id, UmInstance>
    var promises: set<Id>
    var halts: set<Id>
    ghost var executing: Option<Id>

    ghost function Ids(): set<Id>
      reads `activeUmi, `inactive
    {
      inactive.Keys + if activeUmi != null then {activeUmi.id} else {}
    }

    ghost function At(id: Id): UmInstance
      requires id in Ids()
      reads `activeUmi, `inactive
    {
      if activeUmi != null && activeUmi.id == id then activeUmi else inactive[id]
    }

    ghost function Objects(): set<UmInstance>
      reads `activeUmi, `inactive
    {
      inactive.Values + if activeUmi != null then {activeUmi} else {}
    }

    ghost function Current(): Option<Id>
      reads `activeUmi
    {
      if activeUmi != null then Some(activeUmi.id) else None
    }

    ghost function Umis(): map<Id, Umi>
      reads `activeUmi, `inactive, Objects()
    {
      map id | id in Ids() :: At(id).V()
    }

    ghost function S(): Sched
      reads this, loop, Objects()
    {
      Sched(status, Current(), Umis(), idleQueue, promises, halts, executing, loop.posted)
    }

    /** Instances are held under their own ids, and the one in the slot is not among the inactive ones. */
    ghost predicate Shape()
      reads `activeUmi, `inactive
    {
      && (forall id :: id in inactive ==> inactive[id].id == id)
      && (activeUmi != null ==> activeUmi.id !in inactive)
    }

    ghost predicate Valid()
      reads this, loop, Objects()
    {
      Shape() && Inv(S())
    }

    constructor (loop: EventLoop)
      requires loop.posted == multiset{}
      ensures Valid() && S() == IDLE_CORE && this.loop == loop
    {
      this.loop := loop;
      status, activeUmi, idleQueue, inactive, promises, halts, executing := Empty, null, [], map[], {}, {}, None;
      new;
      IdleCoreOk();
      assert Umis() == map[];
    }

    /** UmmStatus::set. */
    method SetStatus(t: Status)
      requires CanSet(status, t)
      modifies `status
      ensures status == t
    {
      status := t;
    }

    function GetInstance(id: Id): (u: UmInstance?)
      requires Shape()
      reads `activeUmi, `inactive
      ensures u == if id in Ids() then At(id) else null
    {
      if activeUmi != null && id == activeUmi.id then activeUmi
      else if id in inactive then inactive[id]
      else null
    }

    predicate RequestSlotEntry(id: Id): (r: bool)
      requires Shape()
      reads this, loop, Objects()
      ensures r == MayEnter(S(), id)
    {
      activeUmi != null && activeUmi.id == id && status != Halting && status != Snapshot && status != Finished
    }

    // ---------- The queue ----------

    method SlotQueueRemove(id: Id) returns (found: bool)
      modifies `idleQueue
      ensures var k := IndexOf(old(idleQueue), id);
              && found == (k < |old(idleQueue)|)
              && idleQueue == if found then Without(old(idleQueue), k) else old(idleQueue)
    {
      var k := 0;
      while k < |idleQueue| && idleQueue[k] != id
        invariant 0 <= k <= |idleQueue| && forall i :: 0 <= i < k ==> idleQueue[i] != id
      {
        k := k + 1;
      }
      if k == |idleQueue| {
        return false;
      }
      idleQueue := idleQueue[..k] + idleQueue[k + 1..];
      return true;
    }

    method SlotQueueMoveToFront(id: Id)
      requires idleQueue != []
      modifies `idleQueue
      ensures idleQueue == MovedToFront(old(idleQueue), id)
    {
      if idleQueue[0] == id {
        return;
      }
      var found := SlotQueueRemove(id);
      if found {
        idleQueue := [id] + idleQueue;
      }
    }

    // ---------- The slot ----------

    method SlotLoadInstance(umi: UmInstance)
      requires status == Empty && activeUmi == null
      modifies `activeUmi, `status
      ensures activeUmi == umi && status == Loaded
    {
      activeUmi := umi;
      SetStatus(Loaded);
    }

    method SlotUnloadInstance() returns (umi: UmInstance)
      requires activeUmi != null && CanSet(status, Empty)
      modifies `activeUmi, `status
      ensures umi == old(activeUmi) && activeUmi == null && status == Empty
    {
      SetStatus(Empty);
      umi := activeUmi;
      activeUmi := null;
    }

    /** Unload, and keep the instance inactive at the end of the queue. */
    method ParkActive()
      requires Shape() && activeUmi != null && CanSet(status, Empty)
      modifies this
      ensures Shape() && S() == Park(old(S())) && activeUmi == null
      ensures Objects() == old(Objects()) && Ids() == old(Ids())
      ensures forall id :: id in Ids() ==> At(id) == old(At(id))
    {
      var leaving := SlotUnloadInstance();
      inactive := inactive[leaving.id := leaving];
      idleQueue := idleQueue + [leaving.id];
      assert Ids() == old(Ids());
      assert Umis() == old(Umis());
    }

    /** Only the instance id changed: so does only its entry. */
    twostate lemma OneChanged(id: Id)
      requires old(Shape()) && activeUmi == old(activeUmi) && inactive == old(inactive) && id in Ids()
      requires forall u: UmInstance :: u in Objects() && u != At(id) ==> u.V() == old(u.V())
      ensures Umis() == old(Umis())[id := At(id).V()]
    {
      assert Ids() == old(Ids());
      forall o | o in Ids() && o != id
        ensures At(o) == old(At(o)) && At(o).V() == old(At(o).V())
      {
        assert At(o) in Objects() && At(o).id == o && At(id).id == id;
      }
    }

    // ---------- Submitting, starting, halting ----------

    method QueueInstanceActivation(umi: UmInstance)
      requires Shape() && umi.id !in Ids() && status != Empty
      modifies this
      ensures Shape()
      ensures S() == Set(old(S()), umi.id, umi.V())
                     .(queue := old(idleQueue) + [umi.id], promises := old(promises) + {umi.id})
    {
      idleQueue := idleQueue + [umi.id];
      promises := promises + {umi.id};
      inactive := inactive[umi.id := umi];
      OneAdded(umi);
    }

    twostate lemma OneAdded(umi: UmInstance)
      requires old(Shape()) && activeUmi == old(activeUmi) && umi.id !in old(Ids())
      requires inactive == old(inactive)[umi.id := umi]
      requires forall u: UmInstance :: u in Objects() ==> u.V() == old(u.V())
      ensures Shape() && Umis() == old(Umis())[umi.id := umi.V()]
    {
      assert Ids() == old(Ids()) + {umi.id};
      forall o | o in old(Ids())
        ensures At(o) == old(At(o))
      {
      }
    }

    /** slot_load_instance of an instance that the manager does not hold. */
    method LoadNew(umi: UmInstance)
      requires Shape() && status == Empty && activeUmi == null && umi.id !in Ids()
      modifies this
      ensures Shape() && S() == LoadIn(Set(old(S()), umi.id, umi.V()), umi.id)
    {
      SlotLoadInstance(umi);
      assert Ids() == old(Ids()) + {umi.id};
      assert Umis() == old(Umis())[umi.id := umi.V()];
    }

    /** Load; ready says whether the activation is complete at once. */
    method Load(umi: UmInstance) returns (ready: bool)
      requires Valid() && umi.V() == NEW_UMI && umi.id != 0 && umi.id !in Ids()
      modifies this
      ensures Valid() && S() == AfterSubmit(old(S()), umi.id)
      ensures ready <==> umi.id !in S().promises
    {
      ghost var s := S();
      SubmitKeeps(s, umi.id);
      assert umi.id !in s.promises;
      if status == Empty {
        LoadNew(umi);
        return true;
      } else if status == Idle && !activeUmi.active {
        ParkActive();
        LoadNew(umi);
        assert Set(Park(s), umi.id, NEW_UMI) == Park(Set(s, umi.id, NEW_UMI));
        return true;
      } else {
        QueueInstanceActivation(umi);
        return false;
      }
    }

    /** Start, and the entry of process_gateway. */
    method Start(id: Id)
      requires Valid() && status == Loaded && activeUmi.id == id
      modifies this, activeUmi
      ensures Valid() && S() == AfterStart(old(S()))
    {
      StartKeeps(S());
      EnterSlot();
    }

    method EnterSlot()
      requires Shape() && SlotOk(S()) && status == Loaded
      modifies `status, `executing, activeUmi
      ensures Shape() && S() == AfterStart(old(S()))
    {
      activeUmi.started := true;
      SetStatus(Active);
      executing := Some(activeUmi.id);
      OneChanged(activeUmi.id);
    }

    /** Halt; pending says whether other events wait, and then the halt is to be posted again. Otherwise no event
        resumes the instance, and it leaves: the exit of process_gateway, and the rest of Start, which returns the
        instance to its caller; spawn says whether Start posts a Yield. */
    method Halt(pending: bool) returns (umi: UmInstance?, spawn: bool)
      requires Valid() && CanHalt(S())
      requires pending || loop.posted[activeUmi.id] == 0
      modifies this, activeUmi
      ensures Valid() && S() == if pending then AfterBeginHalt(old(S())) else AfterHalt(old(S()))
      ensures umi == (if pending then null else old(activeUmi)) && spawn == (!pending && old(idleQueue) != [])
      ensures old(activeUmi).V() == old(activeUmi.V()).(active := true)
    {
      BeginHaltKeeps(S());
      if !pending {
        HaltKeeps(S());
      }
      umi, spawn := HaltSlot(pending);
    }

    method HaltSlot(pending: bool) returns (umi: UmInstance?, spawn: bool)
      requires Shape() && SlotOk(S()) && CanHalt(S())
      modifies this, activeUmi
      ensures Shape() && S() == if pending then AfterBeginHalt(old(S())) else AfterHalt(old(S()))
      ensures umi == (if pending then null else old(activeUmi)) && spawn == (!pending && old(idleQueue) != [])
      ensures old(activeUmi).V() == old(activeUmi.V()).(active := true)
    {
      ghost var s := S();
      PrepareHalt();
      assert S() == AfterBeginHalt(s);
      if pending {
        return null, false;
      }
      umi, spawn := LeaveSlot();
      HaltedTwice(s);
    }

    lemma HaltedTwice(s: Sched)
      requires SlotOk(s) && CanHalt(s) && SlotOk(AfterBeginHalt(s))
      ensures AfterHalt(AfterBeginHalt(s)) == AfterHalt(s)
    {
    }

    /** The instance in the slot may not be swapped out any more. */
    method PrepareHalt()
      requires Shape() && activeUmi != null && CanSet(status, Halting)
      modifies `status, activeUmi
      ensures Shape() && var id := activeUmi.id;
              S() == Set(old(S()), id, old(activeUmi.V()).(active := true)).(status := Halting)
      ensures activeUmi.V() == old(activeUmi.V()).(active := true)
    {
      activeUmi.SetActive();
      SetStatus(Halting);
      OneChanged(activeUmi.id);
    }

    method LeaveSlot() returns (umi: UmInstance, spawn: bool)
      requires Shape() && SlotOk(S()) && status == Halting
      modifies this
      ensures Shape() && S() == AfterHalt(old(S()))
      ensures umi == old(activeUmi) && spawn == (old(idleQueue) != [])
    {
      SetStatus(Finished);
      spawn := idleQueue != [];
      executing := None;
      umi := SlotUnloadInstance();
      assert Ids() == old(Ids()) - {umi.id};
      assert Umis() == old(Umis()) - {umi.id};
    }

    /** SignalHalt, with pending as for Halt. */
    method SignalHalt(id: Id, pending: bool) returns (umi: UmInstance?, spawn: bool)
      requires Valid() && activeUmi != null
      requires if activeUmi.id == id then CanHalt(S()) && (pending || loop.posted[id] == 0) else idleQueue != []
      modifies this, loop, Objects()
      ensures Valid()
      ensures S() == if !pending && old(activeUmi).id == id then AfterHalt(old(S())) else AfterSignalHalt(old(S()), id)
    {
      if activeUmi.id == id {
        umi, spawn := Halt(pending);
        return;
      }
      MoveKeeps(S(), id);
      MarkKeeps(S().(queue := MovedToFront(idleQueue, id)), halts + {id});
      MoveToFront(id);
      MarkHalt(id);
      var fulfilled := Yield();
      return null, false;
    }

    method MarkHalt(id: Id)
      requires Shape()
      modifies `halts
      ensures Shape() && S() == old(S()).(halts := old(halts) + {id})
    {
      halts := halts + {id};
      assert Umis() == old(Umis());
    }

    /** process_checkpoint up to the promise of the snapshot, whose continuation runs in the status snapshot. */
    method BeginCheckpoint()
      requires Valid() && status == Active
      modifies `status
      ensures Valid() && S() == old(S()).(status := Snapshot)
    {
      StepKeeps(S(), SlotSchedule.BeginCheckpoint);
      ChangeStatus(Snapshot);
    }

    method ChangeStatus(t: Status)
      requires CanSet(status, t)
      modifies `status
      ensures S() == old(S()).(status := t) && Shape() == old(Shape())
    {
      SetStatus(t);
      assert Umis() == old(Umis());
    }

    /** The end of process_checkpoint. */
    method EndCheckpoint()
      requires Valid() && status == Snapshot
      modifies `status
      ensures Valid() && S() == old(S()).(status := Active)
    {
      StepKeeps(S(), SlotSchedule.EndCheckpoint);
      ChangeStatus(Active);
    }

    // ---------- Blocking and waking up ----------

    method Block(ns: nat, now: nat)
      requires Valid() && status == Active
      modifies this, activeUmi
      ensures Valid() && S() == AfterBlock(old(S()), ns, now)
    {
      BlockKeeps(S(), ns, now);
      assert Placed(Umis()[activeUmi.id], true, S().posted[activeUmi.id]);
      BlockActive(ns, now);
    }

    method BlockActive(ns: nat, now: nat)
      requires Shape() && SlotOk(S()) && status == Active && !activeUmi.timerSet
      modifies `status, `executing, activeUmi
      ensures Shape() && S() == AfterBlock(old(S()), ns, now)
    {
      SetStatus(Idle);
      var waits := activeUmi.Sleep(ns, now);
      if waits {
        executing := None;
      } else {
        SetStatus(Active);
      }
      OneChanged(activeUmi.id);
      assert old(Umis())[activeUmi.id := old(activeUmi.V())] == old(Umis());
    }

    /** An activation is delivered: the rest of block_execution, and of Block. */
    method Resume(id: Id)
      requires Valid() && id in loop.posted
      modifies this, loop, Objects()
      ensures Valid() && S() == AfterResume(old(S()), id)
    {
      ResumeKeeps(S(), id);
      assert Placed(Umis()[id], S().executing == Some(id), S().posted[id]);
      ResumeInstance(id);
    }

    method ResumeInstance(id: Id)
      requires Shape() && SlotOk(S()) && id in Ids() && (MayEnter(S(), id) ==> status == Idle)
      modifies `status, `executing, loop, At(id)
      ensures Shape() && S() == AfterResume(old(S()), id)
    {
      ResumeIs(S(), id);
      var entry := RequestSlotEntry(id);
      Deliver(id, entry);
      if entry {
        Run(id);
      }
    }

    method Deliver(id: Id, entry: bool)
      requires Shape() && id in Ids()
      modifies loop, At(id)
      ensures Shape()
      ensures var u := old(Umis())[id].(context := NoContext);
              var posted := old(S()).posted - multiset{id};
              && (entry ==> S() == Set(old(S()), id, u).(posted := posted))
              && (!entry ==> S() == Set(old(S()), id, Down(u)).(posted := posted))
    {
      var u := GetInstance(id);
      loop.Deliver(id);
      u.ResumeExecution(entry);
      OneChanged(id);
    }

    method Run(id: Id)
      requires CanSet(status, Active)
      modifies `status, `executing
      ensures S() == old(S()).(status := Active, executing := Some(id)) && Shape() == old(Shape())
    {
      SetStatus(Active);
      executing := Some(id);
      assert Umis() == old(Umis());
    }

    /** Kick of a managed instance. */
    method KickInstance(id: Id)
      requires Shape() && id in Ids() && (At(id).blocked ==> At(id).context != NoContext)
      modifies loop, At(id)
      ensures Shape() && S() == AfterKick(old(S()), id)
    {
      var u := GetInstance(id);
      u.Kick(loop);
      OneChanged(id);
      assert old(Umis())[id := old(At(id).V())] == old(Umis());
    }

    method FireTimer(id: Id, now: nat)
      requires Valid() && id in Ids() && At(id).timerSet
      modifies loop, At(id)
      ensures Valid() && S() == AfterFire(old(S()), id, now)
    {
      FireKeeps(S(), id, now);
      assert Placed(Umis()[id], S().executing == Some(id), S().posted[id]);
      FireInstance(id, now);
    }

    method FireInstance(id: Id, now: nat)
      requires Shape() && id in Ids() && At(id).timerSet && (At(id).blocked ==> At(id).context != NoContext)
      modifies loop, At(id)
      ensures Shape() && S() == AfterFire(old(S()), id, now)
    {
      var u := GetInstance(id);
      var entry := RequestSlotEntry(id);
      ghost var s := S();
      u.Fire(now, entry, loop);
      OneChanged(id);
      FireIs(s, id, now, entry, u.V(), loop.posted);
    }

    /** SetActive of a managed instance. */
    method SetActive(id: Id)
      requires Valid() && id in Ids()
      modifies At(id)
      ensures Valid() && S() == Set(old(S()), id, old(Umis())[id].(active := true))
    {
      FlagKeeps(S(), id, true);
      Mark(id, true);
    }

    method SetInactive(id: Id)
      requires Valid() && id in Ids()
      modifies At(id)
      ensures Valid() && S() == Set(old(S()), id, old(Umis())[id].(active := false))
    {
      FlagKeeps(S(), id, false);
      Mark(id, false);
    }

    method Mark(id: Id, active: bool)
      requires Shape() && id in Ids()
      modifies At(id)
      ensures Shape() && S() == Set(old(S()), id, old(Umis())[id].(active := active))
    {
      var u := GetInstance(id);
      if active {
        u.SetActive();
      } else {
        u.SetInactive();
      }
      OneChanged(id);
    }

    // ---------- Yield ----------

    /** The position of the first queued instance that is active, or the length of the queue. */
    method FindActive() returns (k: nat)
      requires Shape()
      ensures k == NextActive(Umis(), idleQueue) && S() == old(S())
    {
      ghost var umis := Umis();
      k := 0;
      while k < |idleQueue|
        invariant 0 <= k <= |idleQueue|
        invariant NextActive(umis, idleQueue) == k + NextActive(umis, idleQueue[k..])
      {
        var umi := GetInstance(idleQueue[k]);
        assert umi != null <==> idleQueue[k] in umis;
        if umi != null && umi.active {
          assert umis[idleQueue[k]] == umi.V();
          return;
        }
        assert umi != null ==> umis[idleQueue[k]] == umi.V();
        assert idleQueue[k..][1..] == idleQueue[k + 1..];
        k := k + 1;
      }
    }

    /** slot_unload_instance and slot_load_instance in a swap: the old instance goes to the end of the queue, and
        next, which has left the queue and the map, enters. */
    method Swap(next: UmInstance)
      requires Shape() && next.id !in Ids() && (status == Idle ==> activeUmi != null)
      requires status == Idle || (status == Empty && activeUmi == null)
      modifies this
      ensures Shape() && activeUmi == next && status == Loaded
      ensures promises == old(promises) && halts == old(halts) && executing == old(executing)
      ensures idleQueue == old(idleQueue) + if old(activeUmi) != null then [old(activeUmi).id] else []
      ensures Ids() == old(Ids()) + {next.id}
      ensures forall id :: id in old(Ids()) ==> At(id) == old(At(id))
    {
      if status == Idle {
        var leaving := SlotUnloadInstance();
        inactive := inactive[leaving.id := leaving];
        idleQueue := idleQueue + [leaving.id];
      }
      SlotLoadInstance(next);
    }

    /** The k-th queued instance leaves the queue and the map, and enters the slot. */
    method Enter(k: nat)
      requires Shape() && SlotOk(S())
      requires k < |idleQueue| && idleQueue[k] in inactive && k == IndexOf(idleQueue, idleQueue[k])
      requires status == Idle || status == Empty
      modifies this
      ensures Shape() && activeUmi != null && activeUmi.id == old(idleQueue)[k] && Ids() == old(Ids())
      ensures activeUmi == old(inactive[idleQueue[k]])
      ensures forall id :: id in Ids() ==> At(id) == old(At(id))
      ensures status == Loaded && promises == old(promises) && halts == old(halts) && executing == old(executing)
      ensures idleQueue == Without(old(idleQueue), k) + if old(activeUmi) != null then [old(activeUmi).id] else []
    {
      var id := idleQueue[k];
      var next := inactive[id];
      inactive := inactive - {id};
      var found := SlotQueueRemove(id);
      Swap(next);
    }

    /** The eligible instance at position k takes the slot. */
    method Bring(k: nat)
      requires Shape() && SlotOk(S()) && Yields(S()) && k == NextActive(Umis(), idleQueue)
      requires idleQueue[k] in inactive && k == IndexOf(idleQueue, idleQueue[k])
      modifies this
      ensures Shape() && S() == Swapped(old(S())) && activeUmi == old(inactive[idleQueue[k]])
    {
      ghost var s := S();
      Enter(k);
      assert Umis() == s.umis;
    }

    /** Yield; fulfilled is the instance whose activation promise was fulfilled. */
    method Yield() returns (fulfilled: Option<Id>)
      requires Valid() && (activeUmi != null || idleQueue != [])
      modifies this, loop, Objects()
      ensures Valid() && S() == AfterYield(old(S())) && fulfilled == FulfillsYield(old(S()))
    {
      YieldKeeps(S());
      QueuedAreInactive();
      fulfilled := YieldSlot();
    }

    lemma QueuedAreInactive()
      requires Valid()
      ensures forall k :: 0 <= k < |idleQueue| ==> idleQueue[k] in inactive && k == IndexOf(idleQueue, idleQueue[k])
      ensures forall id :: id in Ids() ==> (At(id).blocked ==> At(id).context != NoContext)
    {
      forall k | 0 <= k < |idleQueue|
        ensures idleQueue[k] in inactive && k == IndexOf(idleQueue, idleQueue[k])
      {
        assert idleQueue[k] in idleQueue && idleQueue[k] in Parked(S());
      }
      forall id | id in Ids()
        ensures At(id).blocked ==> At(id).context != NoContext
      {
        assert Placed(Umis()[id], S().executing == Some(id), S().posted[id]);
      }
    }

    method YieldSlot() returns (fulfilled: Option<Id>)
      requires Shape() && SlotOk(S()) && (activeUmi != null || idleQueue != [])
      requires forall k :: 0 <= k < |idleQueue| ==> idleQueue[k] in inactive && k == IndexOf(idleQueue, idleQueue[k])
      requires forall id :: id in Ids() ==> (At(id).blocked ==> At(id).context != NoContext)
      modifies this, loop, Objects()
      ensures Shape() && S() == AfterYield(old(S())) && fulfilled == FulfillsYield(old(S()))
    {
      if activeUmi != null && activeUmi.active {
        return None;
      }
      if status != Idle && status != Empty {
        return None;
      }
      if idleQueue == [] {
        ParkActive();
        return None;
      }
      fulfilled := YieldToQueued();
    }

    /** The rest of Yield when instances wait: the first eligible one, if any, takes the slot. */
    method YieldToQueued() returns (fulfilled: Option<Id>)
      requires Shape() && SlotOk(S()) && (status == Idle || status == Empty)
      requires activeUmi != null ==> !activeUmi.active
      requires idleQueue != []
      requires forall k :: 0 <= k < |idleQueue| ==> idleQueue[k] in inactive && k == IndexOf(idleQueue, idleQueue[k])
      requires forall id :: id in Ids() ==> (At(id).blocked ==> At(id).context != NoContext)
      modifies this, loop, Objects()
      ensures Shape() && S() == AfterYield(old(S())) && fulfilled == FulfillsYield(old(S()))
    {
      var k := FindActive();
      if k == |idleQueue| {
        return None;
      }
      assert At(idleQueue[k]) == inactive[idleQueue[k]];
      fulfilled := YieldTo(k);
    }

    method YieldTo(k: nat) returns (fulfilled: Option<Id>)
      requires Shape() && SlotOk(S()) && Yields(S()) && k == NextActive(Umis(), idleQueue)
      requires idleQueue[k] in inactive && k == IndexOf(idleQueue, idleQueue[k])
      requires inactive[idleQueue[k]].blocked ==> inactive[idleQueue[k]].context != NoContext
      modifies this, loop, Objects()
      ensures Shape() && S() == AfterYield(old(S())) && fulfilled == FulfillsYield(old(S()))
    {
      YieldIs(S());
      assert inactive[idleQueue[k]] in Objects();
      Bring(k);
      fulfilled := Wake();
    }

    /** The instance that entered the slot: its activation promise is fulfilled if there is one; otherwise it is
        halted if that was asked for, or else kicked. */
    method Wake() returns (fulfilled: Option<Id>)
      requires Shape() && status == Loaded && activeUmi != null && activeUmi.active
      requires activeUmi.blocked ==> activeUmi.context != NoContext
      modifies `status, `promises, `halts, loop, activeUmi
      ensures Shape()
      ensures var s := old(S());
              var id := s.current.value;
              && S() == (if id in s.promises then s.(promises := s.promises - {id})
                         else if id in s.halts then s.(status := Halting, halts := s.halts - {id})
                         else AfterKick(s.(status := Idle), id))
              && fulfilled == if id in s.promises then Some(id) else None
    {
      ghost var s := S();
      var id := activeUmi.id;
      if id in promises {
        promises := promises - {id};
        assert Umis() == s.umis;
        return Some(id);
      }
      if id in halts {
        HaltOnEntry();
        return None;
      }
      SetStatus(Idle);
      assert Umis() == s.umis;
      KickInstance(id);
      return None;
    }

    /** An eligible instance is active already. */
    method HaltOnEntry()
      requires Shape() && status == Loaded && activeUmi != null && activeUmi.active
      modifies `status, `halts, activeUmi
      ensures Shape() && S() == old(S()).(status := Halting, halts := old(halts) - {activeUmi.id})
    {
      Unmark(activeUmi.id);
      ghost var s := S();
      assert s.umis[activeUmi.id] == activeUmi.V();
      PrepareHalt();
      assert Set(s, activeUmi.id, s.umis[activeUmi.id]) == s;
    }

    method Unmark(id: Id)
      requires Shape() && status == Loaded
      modifies `status, `halts
      ensures Shape() && S() == old(S()).(status := Idle, halts := old(halts) - {id})
    {
      halts := halts - {id};
      SetStatus(Idle);
      assert Umis() == old(Umis());
    }

    method SignalResume(id: Id)
      requires Valid() && ((activeUmi != null && activeUmi.id == id) || idleQueue != [])
      modifies this, loop, Objects()
      ensures Valid() && S() == AfterSignalResume(old(S()), id)
    {
      ghost var s := S();
      if activeUmi != null && activeUmi.id == id {
        KickKeeps(s, id);
        QueuedAreInactive();
        KickInstance(id);
      } else {
        MoveKeeps(s, id);
        MoveToFront(id);
        var fulfilled := Yield();
      }
    }

    method MoveToFront(id: Id)
      requires Shape() && idleQueue != []
      modifies `idleQueue
      ensures Shape() && S() == old(S()).(queue := MovedToFront(old(idleQueue), id)) && idleQueue != []
    {
      SlotQueueMoveToFront(id);
      assert Umis() == old(Umis());
    }
  }
}
