/** How long task_sleep sleeps. */
module SchedSleep {
  import opened IntrusiveList
  import opened Sched
  import opened SchedQueues
  import opened SchedInvariant
  import opened SchedRuns

  function Timers(es: seq<Event>): nat {
    if es == [] then 0 else (if es[0] == ETimer then 1 else 0) + Timers(es[1..])
  }

  /** No event wakes slot `s` by its id, and it does not sleep again while current. */
  ghost predicate Undisturbed(a: Abs, es: seq<Event>, s: nat, mark: bool)
    requires Sized(a) && s < TASK_MAX
    decreases |es|
  {
    es != [] ==>
      && es[0] != EWake(a.tasks[s].id)
      && (es[0].ESleep? ==> a.current != s)
      && Undisturbed(AStep(a, es[0], mark), es[1..], s, mark)
  }

  /** A blocked task that is not due at the next tick: only the timer touches its countdown. */
  lemma StepAsleep(a: Abs, e: Event, s: nat, mark: bool)
    requires Inv(a) && 1 <= s < TASK_MAX && a.tasks[s].state == Blocked
    requires e != EWake(a.tasks[s].id) && (e.ESleep? ==> a.current != s)
    requires e == ETimer ==> a.tasks[s].wakeTime != 1
    ensures var t, u := a.tasks[s], AStep(a, e, mark).tasks[s];
            && u.state == Blocked && u.id == t.id
            && u.wakeTime == if e == ETimer && t.wakeTime > 0 then t.wakeTime - 1 else t.wakeTime
  {
    match e {
      case EYield => YieldAsleep(a, s, mark);
      case ETimer => TickWf(a, TASK_MAX); YieldAsleep(ATick(a, TASK_MAX), s, mark);
      case EStart =>
        if AHighest(a) >= 0 {
          HeadReady(a, AHighest(a));
        }
      case ESleep(ms) =>
        if Switches(a) {
          HeadReady(a, a.tasks[a.current].priority);
        }
      case _ =>
    }
  }

  lemma HeadReady(a: Abs, p: nat)
    requires Wf(a) && p <= PRIORITY_MAX && a.queues[p] != []
    ensures a.tasks[a.queues[p][0]].state == Ready
  {
    assert QueueOk(a.tasks, a.queues[p], p);
  }

  lemma YieldAsleep(a: Abs, s: nat, mark: bool)
    requires Wf(a) && s < TASK_MAX && a.tasks[s].state == Blocked
    ensures AYield(a, mark).tasks[s] == a.tasks[s]
  {
    if Switches(a) {
      HeadReady(a, a.tasks[a.current].priority);
    }
  }

  /** Asleep for `w` ticks: after fewer the task is BLOCKED with what is left. */
  lemma {:induction false} RunAsleep(a: Abs, es: seq<Event>, s: nat, mark: bool)
    requires Inv(a) && AGuarded(a, es, mark)
    requires 1 <= s < TASK_MAX && a.tasks[s].state == Blocked && Undisturbed(a, es, s, mark)
    requires a.tasks[s].wakeTime == 0 || Timers(es) < a.tasks[s].wakeTime
    ensures var w, u := a.tasks[s].wakeTime, ARun(a, es, mark).tasks[s];
            u.state == Blocked && u.id == a.tasks[s].id && u.wakeTime == if w == 0 then 0 else w - Timers(es)
    decreases |es|
  {
    if es != [] {
      StepInv(a, es[0], mark);
      StepAsleep(a, es[0], s, mark);
      RunAsleep(AStep(a, es[0], mark), es[1..], s, mark);
    }
  }

  /** A queued task is still queued after a yield, unless the yield chose it. */
  lemma YieldKeepsQueued(a: Abs, p: nat, s: nat, mark: bool)
    requires Wf(a) && p <= PRIORITY_MAX && s in a.queues[p]
    ensures var b := AYield(a, mark);
            && (s in b.queues[p] || b.current == s)
            && b.tasks[s] == a.tasks[s].(state := if mark && Switches(a) && b.current == s then Running else Ready)
  {
    assert QueueOk(a.tasks, a.queues[p], p);
    if Switches(a) && a.tasks[a.current].priority == p {
      assert a.queues[p] == [a.queues[p][0]] + a.queues[p][1..];
    }
  }

  lemma TickWakes(a: Abs, s: nat) returns (b: Abs)
    requires Wf(a) && 1 <= s < TASK_MAX && Due(a.tasks[s])
    ensures b == ATick(a, TASK_MAX) && Wf(b)
    ensures a.tasks[s].priority <= PRIORITY_MAX && s in b.queues[a.tasks[s].priority]
    ensures b.tasks[s].state == Ready && b.tasks[s].wakeTime == 0 && b.tasks[s].priority == a.tasks[s].priority
  {
    TickWf(a, TASK_MAX);
    assert s in Woken(a.tasks, a.tasks[s].priority, TASK_MAX);
    assert ATick(a, TASK_MAX).tasks[s] == TickTask(a.tasks[s]);
    b := ATick(a, TASK_MAX);
  }

  /** At the tick at which the countdown ends the task is READY, in its queue or chosen to run. */
  lemma WakesOnTime(a: Abs, s: nat, mark: bool)
    requires Inv(a) && 1 <= s < TASK_MAX && Due(a.tasks[s])
    ensures var b := AStep(a, ETimer, mark);
            && b.tasks[s].wakeTime == 0
            && (Queued(b, s) || b.current == s)
            && (b.tasks[s].state == Ready || (mark && b.current == s && b.tasks[s].state == Running))
  {
    var p := a.tasks[s].priority;
    var b := TickWakes(a, s);
    YieldKeepsQueued(b, p, s, mark);
  }

  /** task_sleep(ms), ms >= 1: BLOCKED until the ms-th tick after the call, READY at it,
      whatever other tasks do in between. sleep(0) is never ended by ticks. */
  lemma SleepLasts(a: Abs, ms: nat, es: seq<Event>, mark: bool)
    requires Inv(a) && a.running
    requires var s, b := a.current, ASleep(a, ms, mark); AGuarded(b, es, mark) && Undisturbed(b, es, s, mark)
    ensures var s, c := a.current, ARun(ASleep(a, ms, mark), es, mark);
            && (Timers(es) < ms ==> c.tasks[s].state == Blocked && c.tasks[s].wakeTime == ms - Timers(es))
            && (ms == 0 ==> c.tasks[s].state == Blocked)
            && (Timers(es) + 1 == ms ==>
                  var d := AStep(c, ETimer, mark);
                  d.tasks[s].state != Blocked && (Queued(d, s) || d.current == s))
  {
    var s, b := a.current, ASleep(a, ms, mark);
    SleepInv(a, ms, mark);
    assert b.tasks[s].state == Blocked && b.tasks[s].wakeTime == ms by {
      if Switches(a) {
        HeadReady(a, a.tasks[s].priority);
        assert a.queues[a.tasks[s].priority][0] in a.queues[a.tasks[s].priority];
      }
    }
    if Timers(es) < ms || ms == 0 {
      RunAsleep(b, es, s, mark);
      var c := ARun(b, es, mark);
      if Timers(es) + 1 == ms {
        RunInv(b, es, mark);
        WakesOnTime(c, s, mark);
      }
    }
  }
}
