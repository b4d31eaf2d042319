/** What each event does, seen from outside: which instance changes and how, what becomes of the slot, the queue and
    the event loop, and that nothing else changes. */
module SlotEffects {
  import opened Wrappers
  import opened SlotSchedule

  // ---------- What stays ----------

  /** The instances other than id, and their posted activations, are as before. */
  ghost predicate OthersKept(s: Sched, s': Sched, id: Id) {
    && s'.umis.Keys == s.umis.Keys
    && forall o :: o != id ==> s'.posted[o] == s.posted[o] && (o in s.umis ==> s'.umis[o] == s.umis[o])
  }

  predicate SlotKept(s: Sched, s': Sched) {
    s'.status == s.status && s'.current == s.current && s'.executing == s.executing
  }

  predicate ListsKept(s: Sched, s': Sched) {
    s'.queue == s.queue && s'.promises == s.promises && s'.halts == s.halts
  }

  /** Awake: no longer blocked, without a timer, and about to be resumed by one activation. */
  predicate Awake(u: Umi, u': Umi, posted: nat) {
    && !u'.blocked && !u'.timer && u'.timeWait == 0 && u'.context == Moved && posted == 1
    && u'.active == u.active && u'.started == u.started
  }

  /** Asleep: blocked, with a saved context and no activation. */
  predicate Asleep(u: Umi, u': Umi, posted: nat) {
    u'.blocked && u'.context == Saved && posted == 0 && u'.active == u.active && u'.started == u.started
  }

  // ---------- Waking up ----------

  /** A kick wakes a blocked instance up, and leaves another alone. */
  lemma KickWakes(s: Sched, id: Id)
    requires Inv(s) && id in s.umis
    ensures var s' := AfterKick(s, id);
            && SlotKept(s, s') && ListsKept(s, s') && OthersKept(s, s', id)
            && if s.umis[id].blocked then Awake(s.umis[id], s'.umis[id], s'.posted[id]) else s' == s
  {
    assert Placed(s.umis[id], s.executing == Some(id), s.posted[id]);
  }

  /** A signal to the instance in the slot is a kick: a packet wakes it up, and it keeps the slot. */
  lemma SignalWakes(s: Sched, id: Id)
    requires Inv(s) && s.current == Some(id)
    ensures var s' := After(s, SignalResume(id));
            && SlotKept(s, s') && ListsKept(s, s') && OthersKept(s, s', id)
            && if s.umis[id].blocked then Awake(s.umis[id], s'.umis[id], s'.posted[id]) else s' == s
  {
    KickWakes(s, id);
  }

  /** A delivered activation: its instance goes on executing in the slot, or is asleep again, its timer as it was. */
  lemma ResumeEffect(s: Sched, id: Id)
    requires Inv(s) && Enabled(s, Resume(id))
    ensures var s' := After(s, Resume(id));
            var u, u' := s.umis[id], s'.umis[id];
            && ListsKept(s, s') && OthersKept(s, s', id) && s'.current == s.current
            && s'.posted[id] == 0 && u'.timer == u.timer && u'.timeWait == u.timeWait
            && if s.current == Some(id) && s.status != Halting
               then s'.executing == Some(id) && s'.status == SlotSchedule.Active && u' == u.(context := NoContext)
               else SlotKept(s, s') && Asleep(u, u', 0)
  {
    assert Placed(s.umis[id], s.executing == Some(id), s.posted[id]);
    ResumePlaced(s, id);
  }

  lemma ResumePlaced(s: Sched, id: Id)
    requires SlotOk(s) && id in s.umis && id in s.posted && Placed(s.umis[id], s.executing == Some(id), s.posted[id])
    ensures var s' := AfterResume(s, id);
            var u, u' := s.umis[id], s'.umis[id];
            && ListsKept(s, s') && OthersKept(s, s', id) && s'.current == s.current
            && s'.posted[id] == 0 && u'.timer == u.timer && u'.timeWait == u.timeWait
            && if s.current == Some(id) && s.status != Halting
               then s'.executing == Some(id) && s'.status == SlotSchedule.Active && u' == u.(context := NoContext)
               else SlotKept(s, s') && Asleep(u, u', 0)
  {
    ResumeIs(s, id);
  }

  /** A timer is off once it fired. When it is due, its instance waits for no time any more, and is woken up if it is
      in a slot that is not halting. When it is not, the instance sleeps on, and nothing sets the timer again. */
  lemma FireEffect(s: Sched, id: Id, now: nat)
    requires Inv(s) && Enabled(s, Fire(id, now))
    ensures var s' := After(s, Fire(id, now));
            var u, u' := s.umis[id], s'.umis[id];
            && SlotKept(s, s') && ListsKept(s, s') && OthersKept(s, s', id) && !u'.timer
            && if now < u.timeWait then u' == u.(timer := false) && s'.posted == s.posted
               else if s.current == Some(id) && s.status != Halting then Awake(u, u', s'.posted[id])
               else Asleep(u, u', s'.posted[id]) && u'.timeWait == 0
  {
    assert Placed(s.umis[id], s.executing == Some(id), s.posted[id]);
    FirePlaced(s, id, now);
  }

  lemma FirePlaced(s: Sched, id: Id, now: nat)
    requires SlotOk(s) && id in s.umis && s.umis[id].timer && Placed(s.umis[id], s.executing == Some(id), s.posted[id])
    ensures var s' := AfterFire(s, id, now);
            var u, u' := s.umis[id], s'.umis[id];
            && SlotKept(s, s') && ListsKept(s, s') && OthersKept(s, s', id) && !u'.timer
            && if now < u.timeWait then u' == u.(timer := false) && s'.posted == s.posted
               else if s.current == Some(id) && s.status != Halting then Awake(u, u', s'.posted[id])
               else Asleep(u, u', s'.posted[id]) && u'.timeWait == 0
  {
  }

  // ---------- Executing, blocking, halting ----------

  lemma StartEffect(s: Sched)
    requires Inv(s) && Enabled(s, Start)
    ensures var id, s' := s.current.value, After(s, Start);
            && ListsKept(s, s') && OthersKept(s, s', id) && s'.posted == s.posted && s'.current == s.current
            && s'.executing == Some(id) && s'.status == SlotSchedule.Active
            && s'.umis[id] == s.umis[id].(started := true)
  {
  }

  /** The instance that executes gives up the processor and keeps the slot. An active one waits for the time it asked
      for, with a timer; one that is not waits for a signal. */
  lemma BlockEffect(s: Sched, ns: nat, now: nat)
    requires Inv(s) && Enabled(s, SlotSchedule.Block(ns, now))
    ensures var id, s' := s.executing.value, After(s, SlotSchedule.Block(ns, now));
            var u, u' := s.umis[id], s'.umis[id];
            if ns == 0 then s' == s
            else
              && ListsKept(s, s') && OthersKept(s, s', id) && s'.current == Some(id)
              && s'.executing == None && s'.status == Idle && Asleep(u, u', s'.posted[id])
              && u'.timer == u.active && u'.timeWait == if u.active then now + ns else 0
  {
    assert Placed(s.umis[s.executing.value], true, s.posted[s.executing.value]);
  }

  lemma BeginHaltEffect(s: Sched)
    requires Inv(s) && Enabled(s, BeginHalt)
    ensures var id, s' := s.current.value, After(s, BeginHalt);
            && ListsKept(s, s') && OthersKept(s, s', id) && s'.posted == s.posted
            && s'.current == s.current && s'.executing == s.executing && s'.status == Halting
            && s'.umis[id] == s.umis[id].(active := true)
  {
  }

  /** The instance leaves the core; the slot is empty, and those that wait go on waiting. */
  lemma HaltEffect(s: Sched)
    requires Inv(s) && Enabled(s, Halt)
    ensures var id, s' := s.current.value, After(s, Halt);
            && ListsKept(s, s') && s'.posted == s.posted && s'.posted[id] == 0
            && s'.current == None && s'.executing == None && s'.status == Empty
            && s'.umis.Keys == s.umis.Keys - {id} && forall o :: o in s'.umis ==> s'.umis[o] == s.umis[o]
  {
  }

  /** A checkpoint changes the status and back, and nothing else. */
  lemma CheckpointEffect(s: Sched)
    requires Inv(s) && Enabled(s, BeginCheckpoint)
    ensures var s1 := After(s, BeginCheckpoint);
            && s1.status == Snapshot && s1.(status := SlotSchedule.Active) == s
            && Enabled(s1, EndCheckpoint) && After(s1, EndCheckpoint) == s
  {
  }

  lemma SetActiveEffect(s: Sched, id: Id)
    requires Inv(s) && id in s.umis
    ensures var s' := After(s, SetActive(id));
            && SlotKept(s, s') && ListsKept(s, s') && OthersKept(s, s', id) && s'.posted == s.posted
            && s'.umis[id] == s.umis[id].(active := true)
  {
  }

  lemma SetInactiveEffect(s: Sched, id: Id)
    requires Inv(s) && id in s.umis
    ensures var s' := After(s, SetInactive(id));
            && SlotKept(s, s') && ListsKept(s, s') && OthersKept(s, s', id) && s'.posted == s.posted
            && s'.umis[id] == s.umis[id].(active := false)
  {
  }

  // ---------- Submitting ----------

  /** The slot can be given up: it is empty, or its instance is blocked or about to be resumed, and not active. */
  predicate CanGiveUp(s: Sched)
    requires SlotOk(s)
  {
    s.current.None? || (s.status == Idle && !s.umis[s.current.value].active)
  }

  /** The instance that had the slot, if there is one, now waits at the end of the queue. */
  predicate ParkedLast(s: Sched, q: seq<Id>, q': seq<Id>) {
    if s.current.Some? then |q'| == |q| + 1 && q'[..|q|] == q && q'[|q|] == s.current.value else q' == q
  }

  /** A new instance is loaded if the slot can be given up, and otherwise waits at the end of the queue, with a
      promise. It is active, not blocked and was not started; nobody else changes. */
  lemma SubmitEffect(s: Sched, id: Id)
    requires Inv(s) && Enabled(s, Submit(id))
    ensures var s' := After(s, Submit(id));
            && s'.umis.Keys == s.umis.Keys + {id} && (forall o :: o in s.umis ==> s'.umis[o] == s.umis[o])
            && s'.umis[id].active && !s'.umis[id].blocked && !s'.umis[id].timer && !s'.umis[id].started
            && s'.posted == s.posted && s'.executing == s.executing && s'.halts == s.halts
            && if CanGiveUp(s)
               then s'.current == Some(id) && s'.status == Loaded && s'.promises == s.promises
                    && ParkedLast(s, s.queue, s'.queue)
               else SlotKept(s, s') && s'.promises == s.promises + {id}
                    && |s'.queue| == |s.queue| + 1 && s'.queue[..|s.queue|] == s.queue && s'.queue[|s.queue|] == id
  {
  }

  // ---------- The queue ----------

  lemma {:induction false} IndexOfIs(q: seq<Id>, k: nat)
    requires NoDuplicates(q) && k < |q|
    ensures IndexOf(q, q[k]) == k
  {
    assert IndexOf(q, q[k]) <= k;
  }

  lemma FrontAt(q: seq<Id>, id: Id, k: nat, j: nat)
    requires k < |q| && j < |q| && j != k
    ensures var r := [id] + Without(q, k);
            |r| == |q| && (j < k ==> r[j + 1] == q[j]) && (k < j ==> r[j] == q[j])
  {
  }

  lemma MovedAt(q: seq<Id>, id: Id, j: nat)
    requires id in q && j < |q| && q[j] != id
    ensures var k, r := IndexOf(q, id), MovedToFront(q, id);
            && j != k && |r| == |q| && (j < k ==> r[j + 1] == q[j]) && (k < j ==> r[j] == q[j])
  {
    FrontAt(q, id, IndexOf(q, id), j);
  }

  lemma MovedKeepsSet(q: seq<Id>, id: Id)
    requires NoDuplicates(q)
    ensures NoDuplicates(MovedToFront(q, id)) && forall x :: x in MovedToFront(q, id) <==> x in q
  {
    var parked := set x | x in q;
    assert QueueOk(q, parked);
    var k := IndexOf(q, id);
    if k < |q| {
      WithoutKeeps(q, k, parked);
    }
  }

  /** Moving to the front puts the instance first and keeps the relative order of any two others; it adds and drops
      nobody, and does nothing for one that is not in the queue. */
  lemma MovedKeepsOrder(q: seq<Id>, id: Id)
    requires NoDuplicates(q)
    ensures var r := MovedToFront(q, id);
            && |r| == |q| && (forall x :: x in r <==> x in q)
            && (id in q ==> r[0] == id) && (id !in q ==> r == q)
            && forall x, y :: x in q && y in q && x != id && y != id ==>
                 (IndexOf(q, x) < IndexOf(q, y) <==> IndexOf(r, x) < IndexOf(r, y))
  {
    MovedKeepsSet(q, id);
    var r, k := MovedToFront(q, id), IndexOf(q, id);
    forall x, y | x in q && y in q && x != id && y != id
      ensures IndexOf(q, x) < IndexOf(q, y) <==> IndexOf(r, x) < IndexOf(r, y)
    {
      if id in q {
        MovedIndex(q, id, x);
        MovedIndex(q, id, y);
      }
    }
  }

  /** Those before the moved instance go back by one place. */
  lemma MovedIndex(q: seq<Id>, id: Id, x: Id)
    requires NoDuplicates(q) && id in q && x in q && x != id
    ensures IndexOf(MovedToFront(q, id), x) ==
            if IndexOf(q, x) < IndexOf(q, id) then IndexOf(q, x) + 1 else IndexOf(q, x)
    ensures IndexOf(q, x) != IndexOf(q, id)
  {
    MovedKeepsSet(q, id);
    var j := IndexOf(q, x);
    MovedAt(q, id, j);
    IndexOfIs(MovedToFront(q, id), if j < IndexOf(q, id) then j + 1 else j);
  }

  // ---------- Yield and the signals ----------

  /** The k-th queued instance is the first active one. */
  ghost predicate FirstActive(s: Sched, k: nat) {
    k < |s.queue| && Waiting(s, s.queue[k]) && forall i :: 0 <= i < k ==> !Waiting(s, s.queue[i])
  }

  /** Yield gives the slot to another instance exactly when it can be given up and an active one waits; it empties the
      slot exactly when its instance can give it up and nobody waits; and otherwise it does nothing. */
  lemma YieldWhen(s: Sched)
    requires Inv(s) && Enabled(s, SlotSchedule.Yield)
    ensures var s' := AfterYield(s);
            && (s'.current.Some? && s'.current != s.current <==> CanGiveUp(s) && exists id :: Waiting(s, id))
            && (s.current.Some? && s'.current == None <==> CanGiveUp(s) && s.queue == [])
            && (s' != s ==> s'.current != s.current)
  {
    if Yields(s) {
      YieldIs(s);
      QueuedIsParked(s, NextActive(s.umis, s.queue));
      assert Waiting(s, s.queue[NextActive(s.umis, s.queue)]);
    } else {
      NobodyWaits(s);
    }
  }

  lemma NobodyWaits(s: Sched)
    requires SlotOk(s) && !Yields(s)
    ensures CanGiveUp(s) ==> forall id :: !Waiting(s, id)
  {
    forall id | CanGiveUp(s)
      ensures !Waiting(s, id)
    {
      assert NextActive(s.umis, s.queue) == |s.queue|;
      assert forall i :: 0 <= i < |s.queue| ==> s.queue[i] in s.umis ==> !s.umis[s.queue[i]].active;
    }
  }

  /** The emptied slot: its instance waits alone, and nothing else changes. */
  lemma YieldEmpties(s: Sched)
    requires Inv(s) && s.current.Some? && CanGiveUp(s) && s.queue == []
    ensures var s' := AfterYield(s);
            && s'.status == Empty && s'.current == None && s'.queue == [s.current.value]
            && s'.umis == s.umis && s'.promises == s.promises && s'.halts == s.halts
            && s'.executing == s.executing && s'.posted == s.posted
  {
  }

  /** What becomes of an instance that entered the slot: it is loaded for its first start, or its halt begins, or it
      is woken up. */
  predicate Entered(s: Sched, s': Sched, id: Id)
    requires id in s.umis && id in s'.umis
  {
    var u, u' := s.umis[id], s'.umis[id];
    if id in s.promises then
      && s'.status == Loaded && s'.promises == s.promises - {id} && s'.halts == s.halts
      && u' == u && s'.posted == s.posted
    else if id in s.halts then
      && s'.status == Halting && s'.promises == s.promises && s'.halts == s.halts - {id}
      && u' == u && s'.posted == s.posted
    else
      && s'.status == Idle && s'.promises == s.promises && s'.halts == s.halts
      && if u.blocked then Awake(u, u', s'.posted[id]) else u' == u && s'.posted == s.posted
  }

  /** The instance enters the slot, leaving rest in the queue, to which the one it replaces is added. */
  ghost predicate EntersLeaving(s: Sched, s': Sched, id: Id, rest: seq<Id>) {
    && s'.current == Some(id) && s'.executing == None && OthersKept(s, s', id)
    && id in s.umis && Entered(s, s', id) && ParkedLast(s, rest, s'.queue)
  }

  /** The first active instance of the queue enters the slot. */
  lemma YieldEffect(s: Sched, k: nat)
    requires Inv(s) && CanGiveUp(s) && FirstActive(s, k)
    ensures EntersLeaving(s, AfterYield(s), s.queue[k], s.queue[..k] + s.queue[k + 1..])
  {
    var id := s.queue[k];
    FirstIsNext(s, k);
    YieldIs(s);
    assert Placed(s.umis[id], s.executing == Some(id), s.posted[id]);
    if id !in s.promises && id !in s.halts {
      WokenOnEntry(s, Swapped(s).(status := Idle), id);
    }
  }

  lemma FirstIsNext(s: Sched, k: nat)
    requires SlotOk(s) && CanGiveUp(s) && FirstActive(s, k)
    ensures NextActive(s.umis, s.queue) == k && Yields(s)
  {
    var n := NextActive(s.umis, s.queue);
    assert n < |s.queue| ==> Waiting(s, s.queue[n]);
  }

  lemma WokenOnEntry(s: Sched, s1: Sched, id: Id)
    requires id in s.umis && Placed(s.umis[id], false, s.posted[id]) && s1.umis == s.umis && s1.posted == s.posted
    ensures var s' := AfterKick(s1, id);
            && OthersKept(s, s', id) && SlotKept(s1, s') && ListsKept(s1, s')
            && if s.umis[id].blocked then Awake(s.umis[id], s'.umis[id], s'.posted[id])
               else s'.umis[id] == s.umis[id] && s'.posted == s.posted
  {
  }

  /** A signal to a queued instance moves it to the front, and does nothing else when the slot cannot be given up. */
  lemma SignalMoves(s: Sched, id: Id)
    requires Inv(s) && s.current != Some(id) && !CanGiveUp(s)
    ensures Enabled(s, SignalResume(id)) ==> After(s, SignalResume(id)) == s.(queue := MovedToFront(s.queue, id))
    ensures Enabled(s, SignalHalt(id)) ==>
              After(s, SignalHalt(id)) == s.(queue := MovedToFront(s.queue, id), halts := s.halts + {id})
  {
  }

  /** When the slot can be given up and the instance is active, it enters. */
  lemma SignalEnters(s: Sched, id: Id)
    requires Inv(s) && CanGiveUp(s) && Waiting(s, id) && s.current != Some(id)
    ensures Enabled(s, SignalResume(id))
    ensures var k := IndexOf(s.queue, id);
            && k < |s.queue| && s.queue[k] == id
            && EntersLeaving(s, After(s, SignalResume(id)), id, s.queue[..k] + s.queue[k + 1..])
  {
    MoveKeeps(s, id);
    FrontEnters(s, id, s.(queue := MovedToFront(s.queue, id)));
    FrontRest(s.queue, id);
  }

  lemma FrontEnters(s: Sched, id: Id, s1: Sched)
    requires Waiting(s, id) && Inv(s1) && CanGiveUp(s1) && s1.queue == MovedToFront(s.queue, id) && s1.umis == s.umis
    ensures s1.queue != [] && EntersLeaving(s1, AfterYield(s1), id, s1.queue[..0] + s1.queue[1..])
  {
    FrontIsFirst(s, id, s1);
    YieldEffect(s1, 0);
  }

  lemma FrontRest(q: seq<Id>, id: Id)
    requires id in q
    ensures var r, k := MovedToFront(q, id), IndexOf(q, id);
            k < |q| && r != [] && r[..0] + r[1..] == q[..k] + q[k + 1..]
  {
  }

  lemma FrontIsFirst(s: Sched, id: Id, s1: Sched)
    requires Waiting(s, id) && s1.queue == MovedToFront(s.queue, id) && s1.umis == s.umis
    ensures FirstActive(s1, 0) && s1.queue[0] == id
  {
  }

  /** A signal to halt also marks it: it is loaded with the mark for its first start, or its halt begins. */
  lemma SignalHaltEnters(s: Sched, id: Id)
    requires Inv(s) && CanGiveUp(s) && Waiting(s, id) && s.current.Some? && s.current != Some(id)
    ensures Enabled(s, SignalHalt(id))
    ensures var s', k := After(s, SignalHalt(id)), IndexOf(s.queue, id);
            && k < |s.queue| && EntersLeaving(s.(halts := s.halts + {id}), s', id, s.queue[..k] + s.queue[k + 1..])
            && s'.umis[id] == s.umis[id] && s'.posted == s.posted
            && s'.status == (if id in s.promises then Loaded else Halting)
            && s'.halts == (if id in s.promises then s.halts + {id} else s.halts - {id})
  {
    MoveKeeps(s, id);
    MarkKeeps(s.(queue := MovedToFront(s.queue, id)), s.halts + {id});
    FrontEnters(s, id, s.(queue := MovedToFront(s.queue, id), halts := s.halts + {id}));
    FrontRest(s.queue, id);
  }

  /** To the instance in the slot it is the beginning of a halt. */
  lemma SignalHaltHere(s: Sched, id: Id)
    requires Inv(s) && Enabled(s, SignalHalt(id)) && s.current == Some(id)
    ensures var s' := After(s, SignalHalt(id));
            && ListsKept(s, s') && OthersKept(s, s', id) && s'.posted == s.posted
            && s'.current == s.current && s'.executing == s.executing && s'.status == Halting
            && s'.umis[id] == s.umis[id].(active := true)
  {
  }

  // ---------- What may happen ----------

  /** In every state that the invariant allows, the world outside is free to act: to submit any new instance, deliver
      any posted activation, let any set timer fire at any time, and mark instances as it likes. */
  lemma ReceptiveOutside(s: Sched, id: Id, now: nat)
    requires Inv(s)
    ensures id != 0 && id !in s.umis <==> Enabled(s, Submit(id))
    ensures id in s.posted <==> Enabled(s, Resume(id))
    ensures id in s.umis && s.umis[id].timer <==> Enabled(s, Fire(id, now))
    ensures id in s.umis <==> Enabled(s, SetActive(id))
    ensures id in s.umis <==> Enabled(s, SetInactive(id))
  {
  }

  /** To yield when there is an instance, and to signal any. */
  lemma ReceptiveSignals(s: Sched, id: Id)
    requires Inv(s) && id in s.umis
    ensures Enabled(s, SlotSchedule.Yield) && Enabled(s, SignalResume(id))
    ensures Enabled(s, SignalHalt(id)) <==>
            s.current.Some? && (s.current == Some(id) ==> s.status in {SlotSchedule.Active, Idle, Halting})
  {
    if s.current != Some(id) {
      assert id in Parked(s);
    }
  }

  /** And the instance in the slot to start when it is loaded, to block or reach its checkpoint when it executes, and
      to halt, or to be halted when it does not execute and no activation of it is posted. */
  lemma ReceptiveSlot(s: Sched)
    requires Inv(s) && s.current.Some?
    ensures s.status == Loaded <==> Enabled(s, Start)
    ensures s.status == SlotSchedule.Active <==> Enabled(s, BeginCheckpoint)
    ensures forall ns, now :: s.status == SlotSchedule.Active <==> Enabled(s, SlotSchedule.Block(ns, now))
    ensures s.status == Snapshot <==> Enabled(s, EndCheckpoint)
    ensures s.status in {SlotSchedule.Active, Idle, Halting} <==> Enabled(s, BeginHalt)
    ensures s.status in {SlotSchedule.Active, Idle, Halting} && s.posted[s.current.value] == 0 <==> Enabled(s, Halt)
    ensures s.status == SlotSchedule.Active ==> Enabled(s, Halt)
  {
    if s.status == SlotSchedule.Active {
      assert Placed(s.umis[s.executing.value], true, s.posted[s.executing.value]);
    }
  }

  // ---------- The status ----------

  /** The transitions of the status: which statuses each may be entered from. */
  lemma Transitions(s: Status)
    ensures CanSet(s, Empty) <==> s in {Empty, Loaded, Idle, Halting, Finished}
    ensures CanSet(s, Loaded) <==> s in {Empty}
    ensures CanSet(s, SlotSchedule.Active) <==> s in {Loaded, Snapshot, Idle}
    ensures CanSet(s, Snapshot) <==> s in {SlotSchedule.Active}
    ensures CanSet(s, Idle) <==> s in {Loaded, SlotSchedule.Active}
    ensures CanSet(s, Halting) <==> s in {Loaded, SlotSchedule.Active, Snapshot, Idle, Halting}
    ensures CanSet(s, Finished) <==> s in {Halting}
  {
  }
}
