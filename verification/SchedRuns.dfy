/** Whole runs of the scheduler: the linked queues refine sequences at every step. */
module SchedRuns {
  import opened IntrusiveList
  import opened Sched
  import opened SchedQueues
  import opened SchedInvariant
  import opened SchedRefine
  import opened SchedTick
  import opened SchedPriority

  // ----- the links refine sequences over every run -----

  /** What the caller must see to before an event, on the linked state. */
  ghost predicate Guard(k: Kernel, a: Abs, e: Event)
    requires Shape(k) && Sized(a)
  {
    match e
    case EWake(id) => First(k.tasks, IsBlocked(id), 1) != k.current
    case ESetPriority(id, priority) => PriorityGuard(k, a, id, priority)
    case _ => true
  }

  lemma StepRefines(k: Kernel, a: Abs, e: Event, mark: bool)
    requires Rel(k, a) && Inv(a) && Guard(k, a, e)
    ensures Rel(Step(k, e, mark), AStep(a, e, mark))
    ensures AGuard(a, e) && Inv(AStep(a, e, mark))
  {
    match e {
      case ECreate(hasEntry, priority) => CreateRefines(k, a, hasEntry, priority);
      case ESetPriority(id, priority) => SetPriorityRefines(k, a, id, priority);
      case EYield => YieldRefines(k, a, mark);
      case ESleep(ms) => SleepRefines(k, a, ms, mark);
      case EWake(id) => WakeRefines(k, a, id);
      case ETimer => TimerRefines(k, a, mark);
      case EStart => StartRefines(k, a);
    }
    StepInv(a, e, mark);
  }

  /** Waking the current task leaves it queued while it is current. */
  lemma WakeCurrentBreaks(k: Kernel, a: Abs, id: nat, b: Abs)
    requires Rel(k, a) && Inv(a) && First(k.tasks, IsBlocked(id), 1) == k.current
    requires Rel(Wake(k, id), b)
    ensures !Inv(b)
  {
    var p := k.tasks[k.current].priority;
    var k' := Wake(k, id);
    assert k'.tail[p] == k.current;
    assert IsList(k'.next, k'.head[p], k'.tail[p], b.queues[p]);
    assert b.queues[p][|b.queues[p]| - 1] in b.queues[p];
  }

  /** An event leaves valid queues exactly when its guard holds. */
  lemma StepKeepsInvIff(k: Kernel, a: Abs, e: Event, mark: bool)
    requires Rel(k, a) && Inv(a)
    ensures Guard(k, a, e) <==> exists b :: Rel(Step(k, e, mark), b) && Inv(b)
  {
    if Guard(k, a, e) {
      StepRefines(k, a, e, mark);
    } else if e.EWake? {
      forall b | Rel(Wake(k, e.id), b) ensures !Inv(b) {
        WakeCurrentBreaks(k, a, e.id, b);
      }
    } else {
      SetPriorityKeepsInvIff(k, a, e.id, e.priority);
    }
  }

  function Run(k: Kernel, es: seq<Event>, mark: bool): (k': Kernel)
    requires Shape(k)
    ensures Shape(k')
    decreases |es|
  {
    if es == [] then k else Run(Step(k, es[0], mark), es[1..], mark)
  }

  ghost function ARun(a: Abs, es: seq<Event>, mark: bool): (a': Abs)
    requires Sized(a)
    ensures Sized(a')
    decreases |es|
  {
    if es == [] then a else ARun(AStep(a, es[0], mark), es[1..], mark)
  }

  ghost predicate Guarded(k: Kernel, a: Abs, es: seq<Event>, mark: bool)
    requires Shape(k) && Sized(a)
    decreases |es|
  {
    es != [] ==> Guard(k, a, es[0]) && Guarded(Step(k, es[0], mark), AStep(a, es[0], mark), es[1..], mark)
  }

  ghost predicate AGuarded(a: Abs, es: seq<Event>, mark: bool)
    requires Sized(a)
    decreases |es|
  {
    es != [] ==> AGuard(a, es[0]) && AGuarded(AStep(a, es[0], mark), es[1..], mark)
  }

  lemma {:induction false} RunRefines(k: Kernel, a: Abs, es: seq<Event>, mark: bool)
    requires Rel(k, a) && Inv(a) && Guarded(k, a, es, mark)
    ensures Rel(Run(k, es, mark), ARun(a, es, mark))
    ensures AGuarded(a, es, mark) && Inv(ARun(a, es, mark))
    decreases |es|
  {
    if es != [] {
      StepRefines(k, a, es[0], mark);
      RunRefines(Step(k, es[0], mark), AStep(a, es[0], mark), es[1..], mark);
    }
  }

  /** Valid queues after every event of the run. */
  ghost predicate StaysValid(k: Kernel, es: seq<Event>, mark: bool)
    requires Shape(k)
    decreases |es|
  {
    es != [] ==>
      && (exists b :: Rel(Step(k, es[0], mark), b) && Inv(b))
      && StaysValid(Step(k, es[0], mark), es[1..], mark)
  }

  /** A run leaves valid queues after every event exactly when it is guarded. */
  lemma {:induction false} RunStaysValidIff(k: Kernel, a: Abs, es: seq<Event>, mark: bool)
    requires Rel(k, a) && Inv(a)
    ensures Guarded(k, a, es, mark) <==> StaysValid(k, es, mark)
    decreases |es|
  {
    if es != [] {
      StepKeepsInvIff(k, a, es[0], mark);
      if Guard(k, a, es[0]) {
        StepRefines(k, a, es[0], mark);
        RunStaysValidIff(Step(k, es[0], mark), AStep(a, es[0], mark), es[1..], mark);
      }
    }
  }

  /** A run without task_set_priority whose wakes never find the current task. */
  ghost predicate WakesOthers(k: Kernel, es: seq<Event>, mark: bool)
    requires Shape(k)
    decreases |es|
  {
    es != [] ==>
      && !es[0].ESetPriority?
      && (es[0].EWake? ==> First(k.tasks, IsBlocked(es[0].id), 1) != k.current)
      && WakesOthers(Step(k, es[0], mark), es[1..], mark)
  }

  lemma {:induction false} WakesOthersGuarded(k: Kernel, a: Abs, es: seq<Event>, mark: bool)
    requires Shape(k) && Sized(a) && WakesOthers(k, es, mark)
    ensures Guarded(k, a, es, mark)
    decreases |es|
  {
    if es != [] {
      WakesOthersGuarded(Step(k, es[0], mark), AStep(a, es[0], mark), es[1..], mark);
    }
  }

  lemma BootRel()
    ensures Rel(Boot(), AbsBoot()) && Inv(AbsBoot())
  {
  }

  /** From boot, over every guarded run, the linked queues are the queues of the
      sequence machine: acyclic, zero-terminated, READY tasks of their priority,
      each slot at most once, the current task never. */
  lemma BootRunRefines(es: seq<Event>, mark: bool)
    requires Guarded(Boot(), AbsBoot(), es, mark)
    ensures Rel(Run(Boot(), es, mark), ARun(AbsBoot(), es, mark))
    ensures Inv(ARun(AbsBoot(), es, mark))
  {
    BootRel();
    RunRefines(Boot(), AbsBoot(), es, mark);
  }

  lemma {:induction false} RunInv(a: Abs, es: seq<Event>, mark: bool)
    requires Inv(a) && AGuarded(a, es, mark)
    ensures Inv(ARun(a, es, mark))
    decreases |es|
  {
    if es != [] {
      StepInv(a, es[0], mark);
      RunInv(AStep(a, es[0], mark), es[1..], mark);
    }
  }
}
