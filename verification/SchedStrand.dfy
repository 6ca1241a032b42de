/** Exactly which calls strand a task, as written and in the labelled variant alike: leave
    it READY or RUNNING, on no list and not current. */
module SchedStrand {
  import opened IntrusiveList
  import opened Sched
  import opened SchedQueues
  import opened SchedInvariant
  import opened SchedRefine
  import opened SchedTick
  import opened SchedRuns
  import opened SchedFifo
  import opened SchedLinked

  // ----- READY tasks -----

  /** Every READY task but the current one is in the queue of its priority. */
  ghost predicate WaitersQueued(a: Abs)
    requires Sized(a)
  {
    forall s :: 1 <= s < TASK_MAX && Waits(a.tasks, a.current, s) ==> s in a.queues[a.tasks[s].priority]
  }

  predicate Waits(ts: seq<Task>, current: nat, s: nat)
    requires s < |ts|
  {
    ts[s].state == Ready && s != current
  }

  /** The event takes the processor from the current task, which is READY: nothing marked
      it RUNNING when it was chosen. */
  ghost predicate Strands(a: Abs, e: Event)
    requires Sized(a)
  {
    && a.current != 0 && a.tasks[a.current].state == Ready
    && match e
       case EYield => Switches(a)
       case ETimer => Switches(ATick(a, TASK_MAX))
       case EStart => AHighest(a) >= 0
       case _ => false
  }

  lemma CreateWaiters(a: Abs, hasEntry: bool, priority: nat)
    requires Inv(a) && WaitersQueued(a)
    ensures WaitersQueued(ACreate(a, hasEntry, priority))
  {
    var b := ACreate(a, hasEntry, priority);
    forall s | 1 <= s < TASK_MAX && Waits(b.tasks, b.current, s) ensures s in b.queues[b.tasks[s].priority] {
      assert s != First(a.tasks, IsEmpty, 1) ==> Waits(a.tasks, a.current, s);
    }
  }

  lemma WakeWaiters(a: Abs, id: nat)
    requires Inv(a) && WaitersQueued(a)
    ensures WaitersQueued(AWake(a, id))
  {
    var b := AWake(a, id);
    forall s | 1 <= s < TASK_MAX && Waits(b.tasks, b.current, s) ensures s in b.queues[b.tasks[s].priority] {
      assert s != First(a.tasks, IsBlocked(id), 1) ==> Waits(a.tasks, a.current, s);
    }
  }

  lemma SetPriorityWaiters(a: Abs, id: nat, priority: nat)
    requires Inv(a) && WaitersQueued(a)
    ensures WaitersQueued(ASetPriority(a, id, priority))
  {
    var b := ASetPriority(a, id, priority);
    var m := First(a.tasks, HasId(id), 1);
    forall s | 1 <= s < TASK_MAX && Waits(b.tasks, b.current, s) ensures s in b.queues[b.tasks[s].priority] {
      assert s != m ==> Waits(a.tasks, a.current, s);
    }
  }

  lemma HeadAndRest(q: seq<nat>, s: nat)
    requires q != [] && s in q && s != q[0]
    ensures s in q[1..]
  {
    assert q == [q[0]] + q[1..];
  }

  lemma SleepWaiters(a: Abs, ms: nat, mark: bool)
    requires Inv(a) && WaitersQueued(a)
    ensures WaitersQueued(ASleep(a, ms, mark))
  {
    var b := ASleep(a, ms, mark);
    var p := a.tasks[a.current].priority;
    forall s | 1 <= s < TASK_MAX && Waits(b.tasks, b.current, s) ensures s in b.queues[b.tasks[s].priority] {
      if a.running && a.current != 0 {
        assert s != a.current && Waits(a.tasks, a.current, s);
        if Switches(a) && a.tasks[s].priority == p {
          HeadAndRest(a.queues[p], s);
        }
      } else {
        assert Waits(a.tasks, a.current, s);
      }
    }
  }

  /** Taking the head of queue `p` leaves the other waiters queued. */
  lemma OthersWait(a: Abs, p: nat, s: nat)
    requires Wf(a) && WaitersQueued(a) && p <= PRIORITY_MAX && a.queues[p] != []
    requires 1 <= s < TASK_MAX && Waits(a.tasks, a.current, s) && s != a.queues[p][0]
    ensures var r := a.tasks[s].priority; s in (if r == p then a.queues[p][1..] else a.queues[r])
  {
    if a.tasks[s].priority == p {
      HeadAndRest(a.queues[p], s);
    }
  }

  /** The current task is READY and nowhere else. */
  ghost predicate Exposed(a: Abs)
    requires Sized(a)
  {
    a.tasks[a.current].state == Ready && a.current !in a.queues[a.tasks[a.current].priority]
  }

  lemma YieldWaiters(a: Abs, mark: bool)
    requires Wf(a) && WaitersQueued(a) && !(Switches(a) && Exposed(a))
    ensures WaitersQueued(AYield(a, mark))
  {
    var b, p := AYield(a, mark), a.tasks[a.current].priority;
    if Switches(a) {
      assert QueueOk(a.tasks, a.queues[p], p);
      forall s | 1 <= s < TASK_MAX && Waits(b.tasks, b.current, s) ensures s in b.queues[b.tasks[s].priority] {
        if s != a.current {
          OthersWait(a, p, s);
        } else if a.tasks[s].state == Ready {
          HeadAndRest(a.queues[p], s);
        }
      }
    }
  }

  lemma YieldExposes(a: Abs, mark: bool)
    requires Wf(a) && Switches(a) && Exposed(a)
    ensures !WaitersQueued(AYield(a, mark))
  {
    var b, p := AYield(a, mark), a.tasks[a.current].priority;
    assert a.queues[p][0] in a.queues[p];
    assert Waits(b.tasks, b.current, a.current) && b.queues[p] == a.queues[p][1..];
  }

  lemma TickWaiters(a: Abs)
    requires Inv(a) && WaitersQueued(a)
    ensures WaitersQueued(ATick(a, TASK_MAX))
    ensures a.current != 0 ==> (Exposed(ATick(a, TASK_MAX)) <==> a.tasks[a.current].state == Ready)
  {
    var b := ATick(a, TASK_MAX);
    forall s | 1 <= s < TASK_MAX
      ensures b.tasks[s] == TickTask(a.tasks[s])
      ensures var p := a.tasks[s].priority; s in b.queues[p] <==> s in a.queues[p] || Due(a.tasks[s])
    {
      TickSlotQueued(a, s);
    }
    forall s | 1 <= s < TASK_MAX && Waits(b.tasks, b.current, s) ensures s in b.queues[b.tasks[s].priority] {
      assert !Due(a.tasks[s]) ==> Waits(a.tasks, a.current, s);
    }
  }

  lemma TickSlotQueued(a: Abs, s: nat)
    requires Sized(a) && 1 <= s < TASK_MAX
    ensures var b, p := ATick(a, TASK_MAX), a.tasks[s].priority;
            b.tasks[s] == TickTask(a.tasks[s]) && (s in b.queues[p] <==> s in a.queues[p] || Due(a.tasks[s]))
  {
    var p := a.tasks[s].priority;
    var w := Woken(a.tasks, p, TASK_MAX);
    assert ATick(a, TASK_MAX).queues[p] == a.queues[p] + w;
    assert s in w <==> Due(a.tasks[s]);
  }

  lemma StartWaiters(a: Abs)
    requires Inv(a) && WaitersQueued(a)
    ensures WaitersQueued(AStart(a)) <==> !Strands(a, EStart)
  {
    var p := AHighest(a);
    if p >= 0 {
      var b, h := AStart(a), a.queues[p][0];
      assert QueueOk(a.tasks, a.queues[p], p) && h in a.queues[p];
      if Strands(a, EStart) {
        var r := a.tasks[a.current].priority;
        assert Waits(b.tasks, b.current, a.current);
        assert a.current !in a.queues[r];
        assert b.queues[r] == if r == p then a.queues[p][1..] else a.queues[r];
      } else {
        forall s | 1 <= s < TASK_MAX && Waits(b.tasks, b.current, s) ensures s in b.queues[b.tasks[s].priority] {
          assert s != a.current;
          OthersWait(a, p, s);
        }
      }
    }
  }

  /** Every event, from a state in which every READY task but the current one is queued, keeps
      that so exactly when it does not strand the current task. */
  lemma StepStrandsIff(a: Abs, e: Event, mark: bool)
    requires Inv(a) && AGuard(a, e) && WaitersQueued(a)
    ensures WaitersQueued(AStep(a, e, mark)) <==> !Strands(a, e)
  {
    match e
    case ECreate(hasEntry, priority) => CreateWaiters(a, hasEntry, priority);
    case ESetPriority(id, priority) => SetPriorityWaiters(a, id, priority);
    case EYield => YieldStrands(a, a, mark);
    case ESleep(ms) => SleepWaiters(a, ms, mark);
    case EWake(id) => WakeWaiters(a, id);
    case ETimer =>
      TickWf(a, TASK_MAX);
      TickWaiters(a);
      YieldStrands(a, ATick(a, TASK_MAX), mark);
    case EStart => StartWaiters(a);
  }

  lemma YieldStrands(a: Abs, b: Abs, mark: bool)
    requires Inv(a) && Wf(b) && WaitersQueued(b) && b.current == a.current
    requires a.current != 0 ==> (Exposed(b) <==> a.tasks[a.current].state == Ready)
    ensures WaitersQueued(AYield(b, mark)) <==> !(a.current != 0 && a.tasks[a.current].state == Ready && Switches(b))
  {
    if Switches(b) && Exposed(b) {
      YieldExposes(b, mark);
    } else {
      YieldWaiters(b, mark);
    }
  }

  // ----- RUNNING tasks -----

  /** No task but the current one is RUNNING. */
  predicate OneRuns(ts: seq<Task>, current: nat) {
    forall s :: 0 <= s < |ts| && ts[s].state == Running ==> s == current
  }

  /** A second start: it chooses a task while the current one is RUNNING. */
  ghost predicate StartsAgain(a: Abs, e: Event)
    requires Sized(a)
  {
    e.EStart? && AHighest(a) >= 0 && a.tasks[a.current].state == Running
  }

  /** Every event keeps the current task the only RUNNING one, except a second start. */
  lemma StepOneRunsIff(a: Abs, e: Event, mark: bool)
    requires Inv(a) && OneRuns(a.tasks, a.current)
    ensures var b := AStep(a, e, mark); OneRuns(b.tasks, b.current) <==> !StartsAgain(a, e)
  {
    match e
    case EYield => YieldOneRuns(a, mark);
    case ETimer => TickWf(a, TASK_MAX); TickOneRuns(a); YieldOneRuns(ATick(a, TASK_MAX), mark);
    case EStart => StartOneRuns(a);
    case _ =>
  }

  lemma TickOneRuns(a: Abs)
    requires Sized(a) && OneRuns(a.tasks, a.current)
    ensures OneRuns(ATick(a, TASK_MAX).tasks, a.current)
  {
    var b := ATick(a, TASK_MAX);
    assert forall s :: 0 <= s < TASK_MAX && b.tasks[s].state == Running ==> a.tasks[s].state == Running;
  }

  lemma YieldOneRuns(a: Abs, mark: bool)
    requires Wf(a) && OneRuns(a.tasks, a.current)
    ensures var b := AYield(a, mark); OneRuns(b.tasks, b.current)
  {
  }

  lemma StartOneRuns(a: Abs)
    requires Inv(a) && OneRuns(a.tasks, a.current)
    ensures var b := AStart(a); OneRuns(b.tasks, b.current) <==> !StartsAgain(a, EStart)
  {
    var p := AHighest(a);
    if p >= 0 {
      assert a.queues[p][0] in a.queues[p];
      var b := AStart(a);
      assert a.current != b.current && b.tasks[a.current] == a.tasks[a.current];
    }
  }

  // ----- the same on the linked tables, and over runs -----

  ghost predicate WaitersListed(k: Kernel)
    requires Shape(k)
  {
    forall s :: 1 <= s < TASK_MAX && Waits(k.tasks, k.current, s) ==> OnList(k, k.tasks[s].priority, s)
  }

  ghost predicate StrandsLinked(k: Kernel, e: Event)
    requires Shape(k)
  {
    && k.current != 0 && k.tasks[k.current].state == Ready
    && match e
       case EYield => SwitchesLinked(k)
       case ETimer => SwitchesLinked(Tick(k, TASK_MAX))
       case EStart => Highest(k.head, PRIORITY_MAX) >= 0
       case _ => false
  }

  ghost predicate StartsAgainLinked(k: Kernel, e: Event)
    requires Shape(k)
  {
    e.EStart? && Highest(k.head, PRIORITY_MAX) >= 0 && k.tasks[k.current].state == Running
  }

  lemma WaitersAgree(k: Kernel, a: Abs)
    requires Rel(k, a) && Sized(a)
    ensures WaitersListed(k) <==> WaitersQueued(a)
  {
    forall s | 1 <= s < TASK_MAX
      ensures OnList(k, k.tasks[s].priority, s) <==> s in a.queues[a.tasks[s].priority]
    {
      OnListIff(k, a, k.tasks[s].priority, s);
    }
  }

  lemma StrandsAgree(k: Kernel, a: Abs, e: Event)
    requires Rel(k, a) && Inv(a)
    ensures StrandsLinked(k, e) <==> Strands(a, e)
    ensures StartsAgainLinked(k, e) <==> StartsAgain(a, e)
  {
    HighestAgrees(k, a);
    SwitchesAgree(k, a, 0);
    if e.ETimer? {
      TickRefines(k, a, TASK_MAX);
      SwitchesAgree(Tick(k, TASK_MAX), ATick(a, TASK_MAX), 0);
    }
  }

  /** On the linked tables, every guarded call keeps every READY task but the current one on
      its list exactly when it does not take the processor from a READY current task by a
      yield, a timer interrupt or a start that chooses another. */
  lemma LinkedStepStrandsIff(k: Kernel, a: Abs, e: Event, mark: bool)
    requires Rel(k, a) && Inv(a) && Guard(k, a, e) && WaitersListed(k)
    ensures WaitersListed(Step(k, e, mark)) <==> !StrandsLinked(k, e)
  {
    StepRefines(k, a, e, mark);
    WaitersAgree(k, a);
    WaitersAgree(Step(k, e, mark), AStep(a, e, mark));
    StrandsAgree(k, a, e);
    StepStrandsIff(a, e, mark);
  }

  lemma LinkedStepOneRunsIff(k: Kernel, a: Abs, e: Event, mark: bool)
    requires Rel(k, a) && Inv(a) && Guard(k, a, e) && OneRuns(k.tasks, k.current)
    ensures var l := Step(k, e, mark); OneRuns(l.tasks, l.current) <==> !StartsAgainLinked(k, e)
  {
    StepRefines(k, a, e, mark);
    StrandsAgree(k, a, e);
    StepOneRunsIff(a, e, mark);
  }

  ghost predicate StayListed(k: Kernel, es: seq<Event>, mark: bool)
    requires Shape(k)
    decreases |es|
  {
    es != [] ==> WaitersListed(Step(k, es[0], mark)) && StayListed(Step(k, es[0], mark), es[1..], mark)
  }

  ghost predicate NoneStrands(k: Kernel, es: seq<Event>, mark: bool)
    requires Shape(k)
    decreases |es|
  {
    es != [] ==> !StrandsLinked(k, es[0]) && NoneStrands(Step(k, es[0], mark), es[1..], mark)
  }

  ghost predicate StayOne(k: Kernel, es: seq<Event>, mark: bool)
    requires Shape(k)
    decreases |es|
  {
    es != [] ==>
      var l := Step(k, es[0], mark);
      OneRuns(l.tasks, l.current) && StayOne(l, es[1..], mark)
  }

  ghost predicate NoneStartsAgain(k: Kernel, es: seq<Event>, mark: bool)
    requires Shape(k)
    decreases |es|
  {
    es != [] ==> !StartsAgainLinked(k, es[0]) && NoneStartsAgain(Step(k, es[0], mark), es[1..], mark)
  }

  lemma {:induction false} RunStrandsIff(k: Kernel, a: Abs, es: seq<Event>, mark: bool)
    requires Rel(k, a) && Inv(a) && Guarded(k, a, es, mark) && WaitersListed(k)
    ensures StayListed(k, es, mark) <==> NoneStrands(k, es, mark)
    decreases |es|
  {
    if es != [] {
      LinkedStepStrandsIff(k, a, es[0], mark);
      StepRefines(k, a, es[0], mark);
      if !StrandsLinked(k, es[0]) {
        RunStrandsIff(Step(k, es[0], mark), AStep(a, es[0], mark), es[1..], mark);
      }
    }
  }

  lemma {:induction false} RunOneRunsIff(k: Kernel, a: Abs, es: seq<Event>, mark: bool)
    requires Rel(k, a) && Inv(a) && Guarded(k, a, es, mark) && OneRuns(k.tasks, k.current)
    ensures StayOne(k, es, mark) <==> NoneStartsAgain(k, es, mark)
    decreases |es|
  {
    if es != [] {
      LinkedStepOneRunsIff(k, a, es[0], mark);
      StepRefines(k, a, es[0], mark);
      if !StartsAgainLinked(k, es[0]) {
        RunOneRunsIff(Step(k, es[0], mark), AStep(a, es[0], mark), es[1..], mark);
      }
    }
  }

  /** Over every guarded run from boot: all READY tasks but the current one stay listed
      exactly when no call strands one, and the current task stays the only RUNNING one
      exactly when no start comes while it runs. */
  lemma BootStrandsIff(es: seq<Event>, mark: bool)
    requires Guarded(Boot(), AbsBoot(), es, mark)
    ensures StayListed(Boot(), es, mark) <==> NoneStrands(Boot(), es, mark)
    ensures StayOne(Boot(), es, mark) <==> NoneStartsAgain(Boot(), es, mark)
  {
    BootRel();
    RunStrandsIff(Boot(), AbsBoot(), es, mark);
    RunOneRunsIff(Boot(), AbsBoot(), es, mark);
  }
}
