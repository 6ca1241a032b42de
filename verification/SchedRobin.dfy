/** Round robin, which docs/architecture.md promises. It holds of the labelled variant
    (`mark`: a dispatch marks the chosen task RUNNING, as sched_start does). The code as
    written strands a task that yields twice; both are stated here. */
module SchedRobin {
  import opened IntrusiveList
  import opened Sched
  import opened SchedQueues
  import opened SchedInvariant
  import opened SchedRefine
  import opened SchedRuns

  // ----- the labelled variant: round robin -----

  ghost function Yields(a: Abs, n: nat, mark: bool): (a': Abs)
    requires Sized(a)
    ensures Sized(a')
  {
    if n == 0 then a else AYield(Yields(a, n - 1, mark), mark)
  }

  /** The current task and the queue behind it, in the order they get the processor. */
  ghost function Ring(a: Abs): (r: seq<nat>)
    requires Sized(a)
  {
    [a.current] + a.queues[a.tasks[a.current].priority]
  }

  /** The state in which `ring[j]` runs and the others wait in ring order. */
  ghost function Turn(a: Abs, j: nat): Abs
    requires Sized(a) && j < |Ring(a)| && Ring(a)[j] < TASK_MAX
  {
    var r, p := Ring(a), a.tasks[a.current].priority;
    a.(current := r[j],
       queues := a.queues[p := r[j + 1..] + r[..j]],
       tasks := a.tasks[a.current := a.tasks[a.current].(state := Ready)]
                       [r[j] := a.tasks[r[j]].(state := Running)])
  }

  lemma RingDistinct(a: Abs)
    requires Inv(a)
    ensures var r := Ring(a); Distinct(r) && InTable(r)
    ensures var r := Ring(a); forall i :: 1 <= i < |r| ==> a.tasks[r[i]].state == Ready && a.tasks[r[i]].priority == a.tasks[a.current].priority
  {
    var q := a.queues[a.tasks[a.current].priority];
    assert QueueOk(a.tasks, q, a.tasks[a.current].priority);
    var r := Ring(a);
    forall i | 1 <= i < |r| ensures r[i] == q[i - 1] && r[i] in q {
    }
  }

  lemma TurnStart(a: Abs)
    requires Inv(a) && a.current != 0 && a.tasks[a.current].state == Running
    ensures Turn(a, 0) == a
  {
    var r, p := Ring(a), a.tasks[a.current].priority;
    assert r[1..] + r[..0] == a.queues[p];
    assert Turn(a, 0).tasks == a.tasks;
  }

  /** One yield moves the turn on by one place, and from the last place back to the start. */
  lemma TurnNext(a: Abs, j: nat)
    requires Inv(a) && a.current != 0 && a.tasks[a.current].state == Running
    requires |Ring(a)| > 1 && j < |Ring(a)| && InTable(Ring(a))
    ensures Sized(Turn(a, j))
    ensures AYield(Turn(a, j), true) == if j + 1 < |Ring(a)| then Turn(a, j + 1) else Turn(a, 0)
  {
    var r := Ring(a);
    var i := if j + 1 < |r| then j + 1 else 0;
    TurnReady(a, j, i);
    YieldRunning(Turn(a, j), a.tasks[a.current].priority, r[i]);
    TurnQueue(r, j);
    TurnTasks(a, j, i);
  }

  /** In turn `j` the task of place `j` runs, and that of the next place heads its queue. */
  lemma TurnReady(a: Abs, j: nat, i: nat)
    requires Inv(a) && a.current != 0 && a.tasks[a.current].state == Running
    requires |Ring(a)| > 1 && j < |Ring(a)| && InTable(Ring(a)) && i == if j + 1 < |Ring(a)| then j + 1 else 0
    ensures var b, r, p := Turn(a, j), Ring(a), a.tasks[a.current].priority;
            && Sized(b) && Switches(b) && b.current == r[j] && p == b.tasks[r[j]].priority && b.tasks[r[j]].state == Running
            && b.queues[p][0] == r[i] && r[i] != r[j]
  {
    RingDistinct(a);
    var b, r, p := Turn(a, j), Ring(a), a.tasks[a.current].priority;
    assert b.queues[p] == r[j + 1..] + r[..j];
  }

  /** A marked yield between two tasks of one queue, written out. */
  lemma YieldRunning(b: Abs, p: nat, next: nat)
    requires Sized(b) && Switches(b) && p == b.tasks[b.current].priority && b.tasks[b.current].state == Running
    requires next == b.queues[p][0] && next != b.current
    ensures var ts := b.tasks[b.current := b.tasks[b.current].(state := Ready)];
            AYield(b, true) == b.(current := next, queues := b.queues[p := b.queues[p][1..] + [b.current]],
                                  tasks := ts[next := ts[next].(state := Running)])
  {
  }

  lemma TurnQueue(r: seq<nat>, j: nat)
    requires j < |r| && |r| > 1
    ensures (r[j + 1..] + r[..j])[1..] + [r[j]] == if j + 1 < |r| then r[j + 2..] + r[..j + 1] else r[1..] + r[..0]
  {
    if j + 1 == |r| {
      assert r[j + 1..] == [];
      assert r[..j][1..] + [r[j]] == r[1..];
    } else {
      assert (r[j + 1..] + r[..j])[1..] == r[j + 2..] + r[..j];
      assert r[..j] + [r[j]] == r[..j + 1];
    }
  }

  lemma TurnTasks(a: Abs, j: nat, i: nat)
    requires Inv(a) && a.current != 0 && a.tasks[a.current].state == Running
    requires InTable(Ring(a)) && j < |Ring(a)| && i < |Ring(a)| && i != j
    ensures var r, ts := Ring(a), Turn(a, j).tasks;
            var us := ts[r[j] := ts[r[j]].(state := Ready)];
            us[r[i] := us[r[i]].(state := Running)] == Turn(a, i).tasks
  {
    RingDistinct(a);
    var r, ts := Ring(a), Turn(a, j).tasks;
    var us := ts[r[j] := ts[r[j]].(state := Ready)];
    assert r[0] == a.current;
    assert us == a.tasks[a.current := a.tasks[a.current].(state := Ready)];
    assert r[i] != a.current ==> us[r[i]] == a.tasks[r[i]];
  }

  lemma {:induction false} RingTurns(a: Abs, j: nat)
    requires Inv(a) && a.current != 0 && a.tasks[a.current].state == Running
    requires j < |Ring(a)| && InTable(Ring(a))
    ensures Yields(a, j, true) == Turn(a, j)
  {
    if j == 0 {
      TurnStart(a);
    } else {
      RingTurns(a, j - 1);
      TurnNext(a, j - 1);
    }
  }

  /** n tasks of one priority, n yields: each is current exactly once, in ring order,
      and the n-th yield restores the exact state. */
  lemma RoundRobin(a: Abs)
    requires Inv(a) && a.current != 0 && a.tasks[a.current].state == Running
    ensures Distinct(Ring(a))
    ensures forall j :: 0 <= j < |Ring(a)| ==> Yields(a, j, true).current == Ring(a)[j]
    ensures Yields(a, |Ring(a)|, true) == a
  {
    RingDistinct(a);
    var n := |Ring(a)|;
    forall j | 0 <= j < n ensures Yields(a, j, true).current == Ring(a)[j] {
      RingTurns(a, j);
    }
    TurnStart(a);
    if n > 1 {
      RingTurns(a, n - 1);
      TurnNext(a, n - 1);
    } else {
      assert Yields(a, 0, true) == a;
    }
  }

  /** No READY task is off the queues. */
  ghost predicate NoneStranded(a: Abs)
    requires Sized(a)
  {
    forall s :: 1 <= s < TASK_MAX && a.tasks[s].state == Ready ==> s in a.queues[a.tasks[s].priority]
  }

  lemma YieldNoneStranded(a: Abs)
    requires Wf(a) && NoneStranded(a)
    ensures NoneStranded(AYield(a, true))
  {
    if Switches(a) {
      var p := a.tasks[a.current].priority;
      assert a.queues[p] == [a.queues[p][0]] + a.queues[p][1..];
      assert QueueOk(a.tasks, a.queues[p], p);
    }
  }

  lemma TickNoneStranded(a: Abs)
    requires Wf(a) && NoneStranded(a)
    ensures NoneStranded(ATick(a, TASK_MAX))
  {
    var b := ATick(a, TASK_MAX);
    forall s | 1 <= s < TASK_MAX && b.tasks[s].state == Ready ensures s in b.queues[b.tasks[s].priority] {
      var p := a.tasks[s].priority;
      if Due(a.tasks[s]) {
        assert s in Woken(a.tasks, p, TASK_MAX);
      }
      assert b.queues[p] == a.queues[p] + Woken(a.tasks, p, TASK_MAX);
    }
  }

  lemma SetPriorityNoneStranded(a: Abs, id: nat, priority: nat)
    requires Inv(a) && NoneStranded(a) && AGuard(a, ESetPriority(id, priority))
    ensures NoneStranded(ASetPriority(a, id, priority))
  {
    var s := First(a.tasks, HasId(id), 1);
    if s < TASK_MAX {
      OnlyIn(a, s);
    }
  }

  lemma SleepNoneStranded(a: Abs, ms: nat)
    requires Inv(a) && NoneStranded(a)
    ensures NoneStranded(ASleep(a, ms, true))
  {
    if Switches(a) {
      var p := a.tasks[a.current].priority;
      assert a.queues[p] == [a.queues[p][0]] + a.queues[p][1..];
      assert QueueOk(a.tasks, a.queues[p], p);
    }
  }

  lemma StartNoneStranded(a: Abs)
    requires Inv(a) && NoneStranded(a)
    ensures NoneStranded(AStart(a))
  {
    var p := AHighest(a);
    if p >= 0 {
      assert a.queues[p] == [a.queues[p][0]] + a.queues[p][1..];
      assert QueueOk(a.tasks, a.queues[p], p);
    }
  }

  lemma StepNoneStranded(a: Abs, e: Event)
    requires Inv(a) && AGuard(a, e) && NoneStranded(a)
    ensures NoneStranded(AStep(a, e, true))
  {
    match e
    case EYield => YieldNoneStranded(a);
    case ETimer => TickWf(a, TASK_MAX); TickNoneStranded(a); YieldNoneStranded(ATick(a, TASK_MAX));
    case ESetPriority(id, priority) => SetPriorityNoneStranded(a, id, priority);
    case ESleep(ms) => SleepNoneStranded(a, ms);
    case EStart => StartNoneStranded(a);
    case _ =>
  }

  /** Over every run of the labelled variant every READY task is in its queue. */
  lemma {:induction false} RunNoneStranded(a: Abs, es: seq<Event>)
    requires Inv(a) && AGuarded(a, es, true) && NoneStranded(a)
    ensures NoneStranded(ARun(a, es, true))
    decreases |es|
  {
    if es != [] {
      StepInv(a, es[0], true);
      StepNoneStranded(a, es[0]);
      RunNoneStranded(AStep(a, es[0], true), es[1..]);
    }
  }

  // ----- the code as written: stranded tasks -----

  ghost predicate Stranded(a: Abs, s: nat)
    requires Sized(a)
  {
    1 <= s < TASK_MAX && a.tasks[s].state == Ready && !Queued(a, s) && s != a.current
  }

  /** As written, a yield that switches strands the task it takes the processor from
      exactly when that task was not marked RUNNING. */
  lemma YieldStrandsIff(a: Abs)
    requires Inv(a) && Switches(a)
    ensures Stranded(AYield(a, false), a.current) <==> a.tasks[a.current].state == Ready
  {
    var p := a.tasks[a.current].priority;
    var b := AYield(a, false);
    assert a.queues[p][0] in a.queues[p];
    if a.tasks[a.current].state == Running {
      assert a.current in b.queues[p];
    } else {
      forall r | 0 <= r <= PRIORITY_MAX ensures a.current !in b.queues[r] {
        assert a.current !in a.queues[r];
      }
    }
  }

  /** So two yields strand the task the first one chose, whenever another task waits. */
  lemma SecondYieldStrands(a: Abs)
    requires Inv(a) && Switches(a) && a.tasks[a.current].state == Running
    ensures Stranded(Yields(a, 2, false), Ring(a)[1])
  {
    var p := a.tasks[a.current].priority;
    var b := AYield(a, false);
    assert QueueOk(a.tasks, a.queues[p], p);
    assert a.queues[p][0] in a.queues[p];
    assert b.current == Ring(a)[1];
    assert a.current in b.queues[p];
    YieldInv(a, false);
    YieldStrandsIff(b);
    assert Yields(a, 1, false) == AYield(Yields(a, 0, false), false);
  }

  lemma YieldStaysStranded(a: Abs, s: nat, mark: bool)
    requires Wf(a) && Stranded(a, s)
    ensures Stranded(AYield(a, mark), s) && AYield(a, mark).tasks[s] == a.tasks[s]
  {
    if Switches(a) {
      var p := a.tasks[a.current].priority;
      assert a.queues[p][0] in a.queues[p];
      var b := AYield(a, mark);
      forall r | 0 <= r <= PRIORITY_MAX ensures s !in b.queues[r] {
        assert s !in a.queues[r];
      }
    }
  }

  lemma TickStaysStranded(a: Abs, s: nat)
    requires Sized(a) && Stranded(a, s)
    ensures Stranded(ATick(a, TASK_MAX), s) && ATick(a, TASK_MAX).tasks[s] == a.tasks[s]
  {
    var b := ATick(a, TASK_MAX);
    forall p | 0 <= p <= PRIORITY_MAX ensures s !in b.queues[p] {
      assert s !in a.queues[p] && s !in Woken(a.tasks, p, TASK_MAX);
      assert b.queues[p] == a.queues[p] + Woken(a.tasks, p, TASK_MAX);
    }
  }

  /** Choosing a queued task leaves a stranded one where it is. */
  lemma DispatchStaysStranded(a: Abs, p: nat, s: nat, mark: bool)
    requires Sized(a) && Stranded(a, s) && p <= PRIORITY_MAX && a.queues[p] != []
    ensures var b := AMark(ADispatch(a, p), mark); Stranded(b, s) && b.tasks[s] == a.tasks[s]
  {
    var b := AMark(ADispatch(a, p), mark);
    assert a.queues[p][0] in a.queues[p];
    forall r | 0 <= r <= PRIORITY_MAX ensures s !in b.queues[r] {
      assert s !in a.queues[r];
    }
  }

  lemma SleepStaysStranded(a: Abs, ms: nat, s: nat, mark: bool)
    requires Sized(a) && Stranded(a, s)
    ensures Stranded(ASleep(a, ms, mark), s) && ASleep(a, ms, mark).tasks[s] == a.tasks[s]
  {
    if a.running && a.current != 0 {
      var u := a.tasks[a.current].(state := Blocked, wakeTime := ms);
      var b := a.(tasks := a.tasks[a.current := u]);
      assert Stranded(b, s);
      if b.queues[u.priority] != [] {
        DispatchStaysStranded(b, u.priority, s, mark);
      }
    }
  }

  lemma StartStaysStranded(a: Abs, s: nat)
    requires Sized(a) && Stranded(a, s)
    ensures Stranded(AStart(a), s) && AStart(a).tasks[s] == a.tasks[s]
  {
    var b := a.(running := true);
    assert Stranded(b, s);
    if AHighest(a) >= 0 {
      DispatchStaysStranded(b, AHighest(a), s, true);
    }
  }

  lemma StepStaysStranded(a: Abs, e: Event, s: nat, mark: bool)
    requires Wf(a) && Stranded(a, s)
    requires e.ESetPriority? ==> e.id != a.tasks[s].id
    ensures Stranded(AStep(a, e, mark), s) && AStep(a, e, mark).tasks[s] == a.tasks[s]
  {
    match e {
      case EYield => YieldStaysStranded(a, s, mark);
      case ETimer => TickWf(a, TASK_MAX); TickStaysStranded(a, s); YieldStaysStranded(ATick(a, TASK_MAX), s, mark);
      case ESleep(ms) => SleepStaysStranded(a, ms, s, mark);
      case EStart => StartStaysStranded(a, s);
      case _ =>
        var b := AStep(a, e, mark);
        forall r | 0 <= r <= PRIORITY_MAX ensures s !in b.queues[r] {
          assert s !in a.queues[r];
        }
    }
  }

  /** A stranded task stays so, and never runs again, over every run that does not
      change its priority: yields, ticks, sleeps, creations, wakes of any id, restarts. */
  lemma {:induction false} RunStaysStranded(a: Abs, es: seq<Event>, s: nat, mark: bool)
    requires Inv(a) && AGuarded(a, es, mark) && Stranded(a, s)
    requires forall i :: 0 <= i < |es| && es[i].ESetPriority? ==> es[i].id != a.tasks[s].id
    ensures Stranded(ARun(a, es, mark), s)
    decreases |es|
  {
    if es != [] {
      StepInv(a, es[0], mark);
      StepStaysStranded(a, es[0], s, mark);
      RunStaysStranded(AStep(a, es[0], mark), es[1..], s, mark);
    }
  }
}
