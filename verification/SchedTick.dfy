/** sched_tick wakes the due slots one by one with task_wake, by id. Because ids are
    unique this is the closed form ATick, on links as on sequences. */
module SchedTick {
  import opened IntrusiveList
  import opened Sched
  import opened SchedQueues
  import opened SchedInvariant
  import opened SchedRefine

  lemma {:induction false} TickRefines(k: Kernel, a: Abs, n: nat)
    requires Rel(k, a) && Wf(a) && 1 <= n <= TASK_MAX
    ensures Rel(Tick(k, n), ATick(a, n))
  {
    if n == 1 {
      TickNone(a);
    } else {
      TickRefines(k, a, n - 1);
      TickWf(a, n - 1);
      TickSlotRefines(Tick(k, n - 1), a, n - 1);
    }
  }

  lemma TickNone(a: Abs)
    requires Sized(a)
    ensures ATick(a, 1) == a
  {
    assert TickTasks(a.tasks, 1) == a.tasks;
    forall p | 0 <= p <= PRIORITY_MAX ensures ATick(a, 1).queues[p] == a.queues[p] {
      assert a.queues[p] + [] == a.queues[p];
    }
  }

  lemma TickTasksStep(ts: seq<Task>, i: nat)
    requires 1 <= i < |ts|
    ensures TickTasks(ts, i)[i] == ts[i]
    ensures TickTasks(ts, i + 1) == TickTasks(ts, i)[i := TickTask(ts[i])]
  {
  }

  lemma TickQueuesStep(a: Abs, i: nat)
    requires Sized(a) && 1 <= i < TASK_MAX
    ensures var qs := ATick(a, i).queues; var p := a.tasks[i].priority;
            ATick(a, i + 1).queues == if Due(a.tasks[i]) then qs[p := qs[p] + [i]] else qs
  {
    forall p | 0 <= p <= PRIORITY_MAX
      ensures ATick(a, i + 1).queues[p] == ATick(a, i).queues[p] + if Due(a.tasks[i]) && a.tasks[i].priority == p then [i] else []
    {
      var w := Woken(a.tasks, p, i);
      assert a.queues[p] + (w + [i]) == a.queues[p] + w + [i];
    }
  }

  lemma TickDue(k: Kernel, a: Abs, i: nat)
    requires Wf(a) && 1 <= i < TASK_MAX && Rel(k, ATick(a, i)) && Wf(ATick(a, i))
    requires Due(a.tasks[i])
    ensures Rel(Wake(k, a.tasks[i].id), ATick(a, i + 1))
  {
    var b := ATick(a, i);
    var t := a.tasks[i];
    TickTasksStep(a.tasks, i);
    TickQueuesStep(a, i);
    BlockedById(b, i);
    WakeRefines(k, b, t.id);
    assert AWake(b, t.id) == ATick(a, i + 1);
  }

  lemma TickNotDue(k: Kernel, a: Abs, i: nat)
    requires Sized(a) && 1 <= i < TASK_MAX && Rel(k, ATick(a, i))
    requires !Due(a.tasks[i])
    ensures Rel(k.(tasks := k.tasks[i := TickTask(a.tasks[i])]), ATick(a, i + 1))
  {
    TickTasksStep(a.tasks, i);
    TickQueuesStep(a, i);
  }

  lemma TickSlotRefines(k: Kernel, a: Abs, i: nat)
    requires Wf(a) && 1 <= i < TASK_MAX && Rel(k, ATick(a, i)) && Wf(ATick(a, i))
    ensures Rel(TickSlot(k, i), ATick(a, i + 1))
  {
    var t := a.tasks[i];
    TickTasksStep(a.tasks, i);
    assert k.tasks[i] == t;
    if Due(t) {
      TickDue(k, a, i);
    } else {
      TickNotDue(k, a, i);
      assert TickSlot(k, i) == k.(tasks := k.tasks[i := TickTask(t)]);
    }
  }

  /** Ids being unique, looking a blocked task up by its id finds its own slot. */
  lemma BlockedById(a: Abs, i: nat)
    requires Wf(a) && 1 <= i < TASK_MAX && a.tasks[i].state == Blocked
    ensures First(a.tasks, IsBlocked(a.tasks[i].id), 1) == i
  {
    forall j | 1 <= j < i ensures a.tasks[j].id != a.tasks[i].id {
    }
    assert Matches(a.tasks[i], IsBlocked(a.tasks[i].id));
  }

  /** timer_handler: the tick may queue the current task, but then the yield of the
      same interrupt takes a task off that queue. */
  lemma TimerRefines(k: Kernel, a: Abs, mark: bool)
    requires Rel(k, a) && Inv(a)
    ensures Rel(Timer(k, mark), AYield(ATick(a, TASK_MAX), mark))
  {
    TickRefines(k, a, TASK_MAX);
    TickWf(a, TASK_MAX);
    YieldRefines(Tick(k, TASK_MAX), ATick(a, TASK_MAX), mark);
  }
}
