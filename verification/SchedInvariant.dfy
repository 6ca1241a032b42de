/** The scheduler invariant over sequences: every call keeps it, the two unchecked
    ones (waking the current task, re-prioritising a task that is neither queued nor
    idle) under what their caller must check. */
module SchedInvariant {
  import opened IntrusiveList
  import opened Sched
  import opened SchedQueues

  /** Distinct queues without common slots. */
  ghost predicate Apart(qs: seq<seq<nat>>) {
    && (forall p :: 0 <= p < |qs| ==> Distinct(qs[p]))
    && forall p, r, i, j :: 0 <= p < |qs| && 0 <= r < |qs| && p != r && 0 <= i < |qs[p]| && 0 <= j < |qs[r]| ==>
         qs[p][i] != qs[r][j]
  }

  ghost predicate Absent(qs: seq<seq<nat>>, s: nat) {
    forall p :: 0 <= p < |qs| ==> s !in qs[p]
  }

  lemma WfApart(a: Abs)
    requires Wf(a)
    ensures Apart(a.queues)
  {
    forall p, r, i, j | 0 <= p <= PRIORITY_MAX && 0 <= r <= PRIORITY_MAX && p != r && 0 <= i < |a.queues[p]| && 0 <= j < |a.queues[r]|
      ensures a.queues[p][i] != a.queues[r][j]
    {
      assert QueueOk(a.tasks, a.queues[p], p) && QueueOk(a.tasks, a.queues[r], r);
    }
  }

  lemma NotReadyAbsent(a: Abs, s: nat)
    requires Wf(a) && s < TASK_MAX && a.tasks[s].state != Ready
    ensures Absent(a.queues, s)
  {
    forall p | 0 <= p <= PRIORITY_MAX ensures s !in a.queues[p] {
      assert QueueOk(a.tasks, a.queues[p], p);
    }
  }

  /** Putting a task in slot `s`, not queued so far, READY with priority `p`, and queueing it. */
  lemma EnqueueWf(a: Abs, p: nat, s: nat, t: Task, counter: nat)
    requires Wf(a) && p <= PRIORITY_MAX && 1 <= s < TASK_MAX && Absent(a.queues, s)
    requires t.state == Ready && t.priority == p
    requires counter >= a.counter && IdsOk(a.tasks[s := t], counter)
    ensures Wf(Enqueue(a.(tasks := a.tasks[s := t], counter := counter), p, s))
  {
    var us := a.tasks[s := t];
    var qs := a.queues[p := a.queues[p] + [s]];
    forall r | 0 <= r <= PRIORITY_MAX ensures QueueOk(us, qs[r], r) {
      assert QueueOk(a.tasks, a.queues[r], r);
      assert s !in a.queues[r];
      if r == p {
        QueueAppend(a.tasks, a.queues[p], p, us, [s]);
      }
    }
  }

  lemma EnqueueInv(a: Abs, p: nat, s: nat, t: Task, counter: nat)
    requires Inv(a) && p <= PRIORITY_MAX && 1 <= s < TASK_MAX && Absent(a.queues, s) && s != a.current
    requires t.state == Ready && t.priority == p
    requires counter >= a.counter && IdsOk(a.tasks[s := t], counter)
    ensures Inv(Enqueue(a.(tasks := a.tasks[s := t], counter := counter), p, s))
  {
    EnqueueWf(a, p, s, t, counter);
    var b := Enqueue(a.(tasks := a.tasks[s := t], counter := counter), p, s);
    forall r | 0 <= r <= PRIORITY_MAX ensures b.current !in b.queues[r] {
      assert a.current !in a.queues[r];
    }
  }

  lemma IdsUpdate(ts: seq<Task>, s: nat, t: Task, counter: nat)
    requires IdsOk(ts, counter) && s < |ts| && t.state != Empty
    requires (ts[s].state == Empty && t.id == counter) || (ts[s].state != Empty && t.id == ts[s].id)
    ensures IdsOk(ts[s := t], if ts[s].state == Empty then counter + 1 else counter)
  {
    var us := ts[s := t];
    forall i, j | 0 <= i < j < |us| && us[i].state != Empty
      ensures us[i].id != us[j].id
    {
      if ts[i].state != Empty {
        assert ts[i].id != ts[j].id;
      }
    }
  }

  /** Taking the head of a queue for the current task keeps the invariant. */
  lemma DispatchInv(a: Abs, p: nat, mark: bool)
    requires Wf(a) && p <= PRIORITY_MAX && a.queues[p] != []
    ensures Inv(AMark(ADispatch(a.(running := true), p), mark))
  {
    var b := AMark(ADispatch(a.(running := true), p), mark);
    IdsFrame(a.tasks, b.tasks, a.counter);
    forall r | 0 <= r <= PRIORITY_MAX ensures QueueOk(b.tasks, b.queues[r], r) && b.current !in b.queues[r] {
      DispatchQueue(a, p, r, b.tasks);
    }
  }

  lemma DispatchQueue(a: Abs, p: nat, r: nat, us: seq<Task>)
    requires Wf(a) && p <= PRIORITY_MAX && r <= PRIORITY_MAX && a.queues[p] != [] && |us| == |a.tasks|
    requires forall s :: 0 <= s < |us| && s != a.queues[p][0] ==> us[s] == a.tasks[s]
    ensures var q := if r == p then a.queues[p][1..] else a.queues[r];
            QueueOk(us, q, r) && a.queues[p][0] !in q
  {
    assert QueueOk(a.tasks, a.queues[r], r);
    HeadOnce(a, p, r);
  }

  lemma HeadOnce(a: Abs, p: nat, r: nat)
    requires Wf(a) && p <= PRIORITY_MAX && r <= PRIORITY_MAX && a.queues[p] != []
    ensures a.queues[p][0] !in (if r == p then a.queues[p][1..] else a.queues[r])
  {
    var h := a.queues[p][0];
    assert QueueOk(a.tasks, a.queues[p], p) && QueueOk(a.tasks, a.queues[r], r);
    assert a.tasks[h].priority == p;
  }

  lemma BlockInv(a: Abs, u: Task)
    requires Inv(a) && a.current != 0
    requires u.id == a.tasks[a.current].id && u.state != Empty && u.priority <= PRIORITY_MAX
    ensures Inv(a.(tasks := a.tasks[a.current := u]))
  {
    var b := a.(tasks := a.tasks[a.current := u]);
    IdsUpdate(a.tasks, a.current, u, a.counter);
    forall r | 0 <= r <= PRIORITY_MAX ensures QueueOk(b.tasks, b.queues[r], r) && b.current !in b.queues[r] {
      assert QueueOk(a.tasks, a.queues[r], r);
      assert a.current !in a.queues[r];
    }
  }

  lemma QueuedPriority(a: Abs, s: nat)
    requires Wf(a) && Queued(a, s)
    ensures 1 <= s < TASK_MAX && a.tasks[s].state == Ready && s in a.queues[a.tasks[s].priority]
  {
    var p :| 0 <= p < |a.queues| && s in a.queues[p];
    assert QueueOk(a.tasks, a.queues[p], p);
  }

  lemma MarkInv(a: Abs, mark: bool)
    requires Inv(a) && a.current != 0
    ensures Inv(AMark(a, mark))
  {
    if mark {
      BlockInv(a, a.tasks[a.current].(state := Running));
    }
  }
  ghost function Removed(a: Abs, p: nat, s: nat): Abs
    requires p < |a.queues|
  {
    a.(queues := a.queues[p := Without(a.queues[p], s)])
  }

  lemma RemovedInv(a: Abs, p: nat, s: nat)
    requires Inv(a) && p <= PRIORITY_MAX
    requires forall r :: 0 <= r <= PRIORITY_MAX && r != p ==> s !in a.queues[r]
    ensures Inv(Removed(a, p, s)) && Absent(Removed(a, p, s).queues, s)
  {
    var q := Without(a.queues[p], s);
    WithoutDistinct(a.queues[p], s);
    forall i | 0 <= i < |q| ensures q[i] in a.queues[p] {
      assert q[i] in q;
    }
    forall r | 0 <= r <= PRIORITY_MAX
      ensures QueueOk(a.tasks, Removed(a, p, s).queues[r], r) && a.current !in Removed(a, p, s).queues[r]
    {
      assert QueueOk(a.tasks, a.queues[r], r) && a.current !in a.queues[r];
    }
  }

  lemma OnlyIn(a: Abs, s: nat)
    requires Wf(a) && s < TASK_MAX
    ensures forall r :: 0 <= r <= PRIORITY_MAX && r != a.tasks[s].priority ==> s !in a.queues[r]
  {
    forall r | 0 <= r <= PRIORITY_MAX && s in a.queues[r] ensures r == a.tasks[s].priority {
      assert QueueOk(a.tasks, a.queues[r], r);
    }
  }

  // ----- one lemma a call -----

  lemma CreateInv(a: Abs, hasEntry: bool, priority: nat)
    requires Inv(a)
    ensures Inv(ACreate(a, hasEntry, priority))
  {
    var s := First(a.tasks, IsEmpty, 1);
    if hasEntry && s < TASK_MAX {
      var t := Task(a.counter, Ready, 0, Clamp(priority));
      NotReadyAbsent(a, s);
      IdsUpdate(a.tasks, s, t, a.counter);
      EnqueueInv(a, t.priority, s, t, a.counter + 1);
    }
  }

  lemma WakeInv(a: Abs, id: nat)
    requires Wf(a)
    ensures Wf(AWake(a, id))
    ensures Inv(a) && First(a.tasks, IsBlocked(id), 1) != a.current ==> Inv(AWake(a, id))
  {
    var s := First(a.tasks, IsBlocked(id), 1);
    if s < TASK_MAX {
      var t := a.tasks[s].(state := Ready, wakeTime := 0);
      NotReadyAbsent(a, s);
      IdsUpdate(a.tasks, s, t, a.counter);
      EnqueueWf(a, t.priority, s, t, a.counter);
      if Inv(a) && s != a.current {
        EnqueueInv(a, t.priority, s, t, a.counter);
      }
    }
  }

  lemma SleepInv(a: Abs, ms: nat, mark: bool)
    requires Inv(a)
    ensures Inv(ASleep(a, ms, mark))
  {
    if a.running && a.current != 0 {
      var u := a.tasks[a.current].(state := Blocked, wakeTime := ms);
      var a1 := a.(tasks := a.tasks[a.current := u]);
      BlockInv(a, u);
      if a.queues[u.priority] != [] {
        DispatchInv(a1, u.priority, mark);
        assert a1.(running := true) == a1;
      }
    }
  }

  lemma StartInv(a: Abs)
    requires Inv(a)
    ensures Inv(AStart(a))
  {
    var p := AHighest(a);
    if p >= 0 {
      DispatchInv(a, p, true);
    }
  }

  /** The yield, also right after a tick that queued the current task. */
  lemma YieldInv(a: Abs, mark: bool)
    requires Wf(a)
    ensures Inv(AYield(a, mark))
  {
    var prev := a.current;
    var p := a.tasks[prev].priority;
    if Switches(a) {
      DispatchInv(a, p, false);
      var a1 := ADispatch(a, p);
      assert a.(running := true) == a && AMark(a1, false) == a1;
      if a.tasks[prev].state == Running {
        var t := a.tasks[prev].(state := Ready);
        assert a1.current in a.queues[p];
        NotReadyAbsent(a1, prev);
        IdsUpdate(a1.tasks, prev, t, a1.counter);
        EnqueueInv(a1, p, prev, t, a1.counter);
        MarkInv(Enqueue(a1.(tasks := a1.tasks[prev := t]), p, prev), mark);
      } else {
        MarkInv(a1, mark);
      }
    } else if Queued(a, a.current) {
      QueuedPriority(a, a.current);
    }
  }

  lemma SetPriorityInv(a: Abs, id: nat, priority: nat)
    requires Inv(a) && AGuard(a, ESetPriority(id, priority))
    ensures Inv(ASetPriority(a, id, priority))
  {
    var p := Clamp(priority);
    var s := First(a.tasks, HasId(id), 1);
    if s < TASK_MAX && a.tasks[s].priority != p {
      var from := a.tasks[s].priority;
      OnlyIn(a, s);
      RemovedInv(a, from, s);
      if Queued(a, s) {
        QueuedPriority(a, s);
      }
      var a1 := Removed(a, from, s);
      var t := a.tasks[s].(priority := p);
      IdsUpdate(a1.tasks, s, t, a1.counter);
      EnqueueInv(a1, p, s, t, a1.counter);
      assert a1.(tasks := a1.tasks[s := t], counter := a1.counter) == a1.(tasks := a1.tasks[s := t]);
    }
  }

  // ----- steps -----

  ghost function AStep(a: Abs, e: Event, mark: bool): (a': Abs)
    requires Sized(a)
    ensures Sized(a')
  {
    match e
    case ECreate(hasEntry, priority) => ACreate(a, hasEntry, priority)
    case ESetPriority(id, priority) => ASetPriority(a, id, priority)
    case EYield => AYield(a, mark)
    case ESleep(ms) => ASleep(a, ms, mark)
    case EWake(id) => AWake(a, id)
    case ETimer => AYield(ATick(a, TASK_MAX), mark)
    case EStart => AStart(a)
  }

  /** What the caller must see to, queues being sequences. */
  ghost predicate AGuard(a: Abs, e: Event)
    requires Sized(a)
  {
    match e
    case EWake(id) => First(a.tasks, IsBlocked(id), 1) != a.current
    case ESetPriority(id, priority) =>
      var s := First(a.tasks, HasId(id), 1);
      s == TASK_MAX || a.tasks[s].priority == Clamp(priority) || Queued(a, s) || (a.tasks[s].state == Ready && s != a.current)
    case _ => true
  }

  lemma StepInv(a: Abs, e: Event, mark: bool)
    requires Inv(a) && AGuard(a, e)
    ensures Inv(AStep(a, e, mark))
  {
    match e
    case ECreate(hasEntry, priority) => CreateInv(a, hasEntry, priority);
    case ESetPriority(id, priority) => SetPriorityInv(a, id, priority);
    case EYield => YieldInv(a, mark);
    case ESleep(ms) => SleepInv(a, ms, mark);
    case EWake(id) => WakeInv(a, id);
    case ETimer => TickWf(a, TASK_MAX); YieldInv(ATick(a, TASK_MAX), mark);
    case EStart => StartInv(a);
  }
}
