/** Each priority is served strictly first come, first served, over every run. */
module SchedFifo {
  import opened IntrusiveList
  import opened Sched
  import opened SchedQueues
  import opened SchedInvariant
  import opened SchedRefine
  import opened SchedRuns
  import opened SchedTick

  /** The slots an event makes READY in priority `p`, in the order they are queued. */
  ghost function Arrivals(a: Abs, e: Event, p: nat): seq<nat>
    requires Sized(a) && p <= PRIORITY_MAX
  {
    match e
    case ECreate(hasEntry, priority) =>
      var s := First(a.tasks, IsEmpty, 1);
      if hasEntry && s < TASK_MAX && Clamp(priority) == p then [s] else []
    case EWake(id) =>
      var s := First(a.tasks, IsBlocked(id), 1);
      if s < TASK_MAX && a.tasks[s].priority == p then [s] else []
    case EYield => Preempted(a, p)
    case ETimer => Woken(a.tasks, p, TASK_MAX) + Preempted(ATick(a, TASK_MAX), p)
    case _ => []
  }

  /** The running task a yield sends back to queue `p`. */
  ghost function Preempted(a: Abs, p: nat): seq<nat>
    requires Sized(a)
  {
    if Switches(a) && a.tasks[a.current].priority == p && a.tasks[a.current].state == Running then [a.current] else []
  }

  /** The slot of priority `p` an event makes current, if it makes one current. */
  ghost function Dispatched(a: Abs, e: Event, p: nat, mark: bool): seq<nat>
    requires Sized(a) && p <= PRIORITY_MAX
  {
    var chosen := [AStep(a, e, mark).current];
    match e
    case EYield => if Switches(a) && a.tasks[a.current].priority == p then chosen else []
    case ETimer =>
      var b := ATick(a, TASK_MAX);
      if Switches(b) && b.tasks[b.current].priority == p then chosen else []
    case ESleep(_) => if Switches(a) && a.tasks[a.current].priority == p then chosen else []
    case EStart => if AHighest(a) == p then chosen else []
    case _ => []
  }

  lemma YieldFifo(a: Abs, p: nat, mark: bool)
    requires Sized(a) && p <= PRIORITY_MAX
    ensures a.queues[p] + Preempted(a, p)
         == (if Switches(a) && a.tasks[a.current].priority == p then [AYield(a, mark).current] else []) + AYield(a, mark).queues[p]
  {
    var q := a.queues[p];
    if Switches(a) && a.tasks[a.current].priority == p {
      assert q == [q[0]] + q[1..];
    }
  }

  lemma TimerFifo(a: Abs, p: nat, mark: bool)
    requires Sized(a) && p <= PRIORITY_MAX
    ensures a.queues[p] + Arrivals(a, ETimer, p) == Dispatched(a, ETimer, p, mark) + AStep(a, ETimer, mark).queues[p]
  {
    var b := ATick(a, TASK_MAX);
    var w := Woken(a.tasks, p, TASK_MAX);
    YieldFifo(b, p, mark);
    assert b.queues[p] == a.queues[p] + w;
    assert a.queues[p] + (w + Preempted(b, p)) == (a.queues[p] + w) + Preempted(b, p);
  }

  lemma StepFifo(a: Abs, e: Event, p: nat, mark: bool)
    requires Sized(a) && p <= PRIORITY_MAX && !e.ESetPriority?
    ensures a.queues[p] + Arrivals(a, e, p) == Dispatched(a, e, p, mark) + AStep(a, e, mark).queues[p]
  {
    if e.EYield? {
      YieldFifo(a, p, mark);
    } else if e.ETimer? {
      TimerFifo(a, p, mark);
    } else {
      var q := a.queues[p];
      assert q != [] ==> q == [q[0]] + q[1..];
    }
  }

  ghost function ArrivalLog(a: Abs, es: seq<Event>, p: nat, mark: bool): seq<nat>
    requires Sized(a) && p <= PRIORITY_MAX
    decreases |es|
  {
    if es == [] then [] else Arrivals(a, es[0], p) + ArrivalLog(AStep(a, es[0], mark), es[1..], p, mark)
  }

  ghost function DispatchLog(a: Abs, es: seq<Event>, p: nat, mark: bool): seq<nat>
    requires Sized(a) && p <= PRIORITY_MAX
    decreases |es|
  {
    if es == [] then [] else Dispatched(a, es[0], p, mark) + DispatchLog(AStep(a, es[0], mark), es[1..], p, mark)
  }

  lemma Chain(q: seq<nat>, x: seq<nat>, u: seq<nat>, r: seq<nat>, y: seq<nat>, v: seq<nat>, f: seq<nat>)
    requires q + x == u + r && r + y == v + f
    ensures q + (x + y) == (u + v) + f
  {
    assert q + (x + y) == (q + x) + y;
    assert (u + r) + y == u + (r + y);
    assert u + (v + f) == (u + v) + f;
  }

  /** Strict FIFO per priority: what was queued, then what arrived, is what was
      dispatched, then what is still queued. */
  lemma {:induction false} RunFifo(a: Abs, es: seq<Event>, p: nat, mark: bool)
    requires Sized(a) && p <= PRIORITY_MAX
    requires forall i :: 0 <= i < |es| ==> !es[i].ESetPriority?
    ensures a.queues[p] + ArrivalLog(a, es, p, mark) == DispatchLog(a, es, p, mark) + ARun(a, es, mark).queues[p]
    decreases |es|
  {
    if es != [] {
      var b := AStep(a, es[0], mark);
      StepFifo(a, es[0], p, mark);
      RunFifo(b, es[1..], p, mark);
      Chain(a.queues[p], Arrivals(a, es[0], p), Dispatched(a, es[0], p, mark), b.queues[p],
            ArrivalLog(b, es[1..], p, mark), DispatchLog(b, es[1..], p, mark), ARun(b, es[1..], mark).queues[p]);
    }
  }

  // ----- the same on the linked queues -----

  /** Whether a yield on the linked state switches to another task. */
  ghost predicate SwitchesLinked(k: Kernel)
    requires Shape(k)
  {
    k.running && k.current != 0 && k.head[k.tasks[k.current].priority] != 0
  }

  ghost function PreemptedNow(k: Kernel, p: nat): seq<nat>
    requires Shape(k)
  {
    if SwitchesLinked(k) && k.tasks[k.current].priority == p && k.tasks[k.current].state == Running then [k.current] else []
  }

  /** The slots that an event makes READY in priority `p`, in order. */
  ghost function QueuedNow(k: Kernel, e: Event, p: nat): seq<nat>
    requires Shape(k) && p <= PRIORITY_MAX
  {
    match e
    case ECreate(hasEntry, priority) =>
      var s := First(k.tasks, IsEmpty, 1);
      if hasEntry && s < TASK_MAX && Clamp(priority) == p then [s] else []
    case EWake(id) =>
      var s := First(k.tasks, IsBlocked(id), 1);
      if s < TASK_MAX && k.tasks[s].priority == p then [s] else []
    case EYield => PreemptedNow(k, p)
    case ETimer => Woken(k.tasks, p, TASK_MAX) + PreemptedNow(Tick(k, TASK_MAX), p)
    case _ => []
  }

  /** The slot of priority `p` that an event makes current, if any. */
  ghost function ChosenNow(k: Kernel, e: Event, p: nat, mark: bool): seq<nat>
    requires Shape(k) && p <= PRIORITY_MAX
  {
    var chosen := [Step(k, e, mark).current];
    match e
    case EYield => if SwitchesLinked(k) && k.tasks[k.current].priority == p then chosen else []
    case ETimer =>
      var l := Tick(k, TASK_MAX);
      if SwitchesLinked(l) && l.tasks[l.current].priority == p then chosen else []
    case ESleep(_) => if SwitchesLinked(k) && k.tasks[k.current].priority == p then chosen else []
    case EStart => if Highest(k.head, PRIORITY_MAX) == p then chosen else []
    case _ => []
  }

  ghost function QueuedLog(k: Kernel, es: seq<Event>, p: nat, mark: bool): seq<nat>
    requires Shape(k) && p <= PRIORITY_MAX
    decreases |es|
  {
    if es == [] then [] else QueuedNow(k, es[0], p) + QueuedLog(Step(k, es[0], mark), es[1..], p, mark)
  }

  ghost function ChosenLog(k: Kernel, es: seq<Event>, p: nat, mark: bool): seq<nat>
    requires Shape(k) && p <= PRIORITY_MAX
    decreases |es|
  {
    if es == [] then [] else ChosenNow(k, es[0], p, mark) + ChosenLog(Step(k, es[0], mark), es[1..], p, mark)
  }

  lemma SwitchesAgree(k: Kernel, a: Abs, p: nat)
    requires Rel(k, a) && Sized(a)
    ensures SwitchesLinked(k) <==> Switches(a)
    ensures PreemptedNow(k, p) == Preempted(a, p)
  {
    var r := k.tasks[k.current].priority;
    assert IsList(k.next, k.head[r], k.tail[r], a.queues[r]);
  }

  lemma HighestAgrees(k: Kernel, a: Abs)
    requires Rel(k, a) && Sized(a)
    ensures Highest(k.head, PRIORITY_MAX) == AHighest(a)
  {
    forall p | 0 <= p <= PRIORITY_MAX ensures k.head[p] == 0 <==> a.queues[p] == [] {
      assert IsList(k.next, k.head[p], k.tail[p], a.queues[p]);
    }
  }

  lemma QueuedAgrees(k: Kernel, a: Abs, e: Event, p: nat)
    requires Rel(k, a) && Inv(a) && p <= PRIORITY_MAX
    ensures QueuedNow(k, e, p) == Arrivals(a, e, p)
  {
    match e
    case EYield => SwitchesAgree(k, a, p);
    case ETimer =>
      TickRefines(k, a, TASK_MAX);
      SwitchesAgree(Tick(k, TASK_MAX), ATick(a, TASK_MAX), p);
    case _ =>
  }

  lemma ChosenAgrees(k: Kernel, a: Abs, e: Event, p: nat, mark: bool)
    requires Rel(k, a) && Inv(a) && p <= PRIORITY_MAX && Step(k, e, mark).current == AStep(a, e, mark).current
    ensures ChosenNow(k, e, p, mark) == Dispatched(a, e, p, mark)
  {
    if e.ETimer? {
      TimerChosenAgrees(k, a, p, mark);
    } else if e.EStart? {
      HighestAgrees(k, a);
    } else {
      SwitchesAgree(k, a, p);
    }
  }

  lemma TimerChosenAgrees(k: Kernel, a: Abs, p: nat, mark: bool)
    requires Rel(k, a) && Inv(a) && p <= PRIORITY_MAX && Step(k, ETimer, mark).current == AStep(a, ETimer, mark).current
    ensures ChosenNow(k, ETimer, p, mark) == Dispatched(a, ETimer, p, mark)
  {
    var l, b := Tick(k, TASK_MAX), ATick(a, TASK_MAX);
    TickRefines(k, a, TASK_MAX);
    SwitchesAgree(l, b, p);
    assert l.tasks == b.tasks && l.current == b.current;
  }

  lemma {:induction false} LogsAgree(k: Kernel, a: Abs, es: seq<Event>, p: nat, mark: bool)
    requires Rel(k, a) && Inv(a) && Guarded(k, a, es, mark) && p <= PRIORITY_MAX
    ensures QueuedLog(k, es, p, mark) == ArrivalLog(a, es, p, mark)
    ensures ChosenLog(k, es, p, mark) == DispatchLog(a, es, p, mark)
    decreases |es|
  {
    if es != [] {
      StepRefines(k, a, es[0], mark);
      QueuedAgrees(k, a, es[0], p);
      ChosenAgrees(k, a, es[0], p, mark);
      LogsAgree(Step(k, es[0], mark), AStep(a, es[0], mark), es[1..], p, mark);
    }
  }

  lemma {:induction false} NoSetPriority(k: Kernel, es: seq<Event>, mark: bool)
    requires Shape(k) && WakesOthers(k, es, mark)
    ensures forall i :: 0 <= i < |es| ==> !es[i].ESetPriority?
    decreases |es|
  {
    if es != [] {
      NoSetPriority(Step(k, es[0], mark), es[1..], mark);
      assert forall i :: 1 <= i < |es| ==> es[i] == es[1..][i - 1];
    }
  }

  /** The linked queue of priority `p` is what it was, then what was queued, without what
      was chosen, which came off its front. */
  lemma LinkedFifo(k: Kernel, a: Abs, es: seq<Event>, p: nat, mark: bool) returns (q: seq<nat>)
    requires Rel(k, a) && Inv(a) && WakesOthers(k, es, mark) && p <= PRIORITY_MAX
    ensures var l := Run(k, es, mark); IsList(l.next, l.head[p], l.tail[p], q)
    ensures a.queues[p] + QueuedLog(k, es, p, mark) == ChosenLog(k, es, p, mark) + q
  {
    WakesOthersGuarded(k, a, es, mark);
    NoSetPriority(k, es, mark);
    RunRefines(k, a, es, mark);
    LogsAgree(k, a, es, p, mark);
    RunFifo(a, es, p, mark);
    q := ARun(a, es, mark).queues[p];
  }

  lemma Split(x: seq<nat>, d: seq<nat>, q: seq<nat>)
    requires x == d + q
    ensures d <= x && x[|d|..] == q
  {
  }

  /** From boot nothing is duplicated or dropped: the i-th slot of a priority to be chosen
      is the i-th to be queued, and those not chosen yet are, in order, the list that the
      links hold. */
  lemma BootFifo(es: seq<Event>, p: nat, mark: bool)
    requires p <= PRIORITY_MAX && WakesOthers(Boot(), es, mark)
    ensures var k, x, d := Run(Boot(), es, mark), QueuedLog(Boot(), es, p, mark), ChosenLog(Boot(), es, p, mark);
            d <= x && IsList(k.next, k.head[p], k.tail[p], x[|d|..])
  {
    BootRel();
    var q := LinkedFifo(Boot(), AbsBoot(), es, p, mark);
    var x := QueuedLog(Boot(), es, p, mark);
    assert [] + x == x;
    Split(x, ChosenLog(Boot(), es, p, mark), q);
  }
}
