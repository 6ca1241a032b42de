/** What the sequences say about sleeping, stranding and taking turns, said of the linked
    tables: over every guarded run of the calls on heads, tails and links. */
module SchedLinked {
  import opened IntrusiveList
  import opened Sched
  import opened SchedQueues
  import opened SchedInvariant
  import opened SchedRefine
  import opened SchedRuns
  import opened SchedSleep
  import opened SchedTick
  import opened SchedRobin

  /** The slot is on the list of priority `p`. */
  ghost predicate OnList(k: Kernel, p: nat, s: nat)
    requires Shape(k) && p <= PRIORITY_MAX
  {
    exists q :: IsList(k.next, k.head[p], k.tail[p], q) && s in q
  }

  ghost predicate OnSomeList(k: Kernel, s: nat)
    requires Shape(k)
  {
    exists p: nat :: p <= PRIORITY_MAX && OnList(k, p, s)
  }

  /** The links hold one sequence only, so being on the list is being in that sequence. */
  lemma OnListIff(k: Kernel, a: Abs, p: nat, s: nat)
    requires Rel(k, a) && p <= PRIORITY_MAX
    ensures OnList(k, p, s) <==> s in a.queues[p]
  {
    assert IsList(k.next, k.head[p], k.tail[p], a.queues[p]);
    forall q | IsList(k.next, k.head[p], k.tail[p], q) ensures q == a.queues[p] {
      ListUnique(k.next, k.head[p], k.tail[p], q, a.queues[p]);
    }
  }

  lemma OnSomeListIff(k: Kernel, a: Abs, s: nat)
    requires Rel(k, a)
    ensures OnSomeList(k, s) <==> Queued(a, s)
  {
    forall p | 0 <= p <= PRIORITY_MAX ensures OnList(k, p, s) <==> s in a.queues[p] {
      OnListIff(k, a, p, s);
    }
    if Queued(a, s) {
      var p :| 0 <= p < |a.queues| && s in a.queues[p];
      assert OnList(k, p, s);
    }
  }

  // ----- sleeping -----

  /** No event of the run wakes slot `s` by its id, and it does not sleep again. */
  ghost predicate LeftAlone(k: Kernel, es: seq<Event>, s: nat, mark: bool)
    requires Shape(k) && s < TASK_MAX
    decreases |es|
  {
    es != [] ==>
      && es[0] != EWake(k.tasks[s].id)
      && (es[0].ESleep? ==> k.current != s)
      && LeftAlone(Step(k, es[0], mark), es[1..], s, mark)
  }

  lemma {:induction false} LeftAloneUndisturbed(k: Kernel, a: Abs, es: seq<Event>, s: nat, mark: bool)
    requires Rel(k, a) && Inv(a) && Guarded(k, a, es, mark) && s < TASK_MAX && LeftAlone(k, es, s, mark)
    ensures Undisturbed(a, es, s, mark)
    decreases |es|
  {
    if es != [] {
      StepRefines(k, a, es[0], mark);
      LeftAloneUndisturbed(Step(k, es[0], mark), AStep(a, es[0], mark), es[1..], s, mark);
    }
  }

  /** The current task of `k` slept as asked: after task_sleep(ms) and the run it is BLOCKED
      with ms minus the ticks so far, and the ms-th tick makes it READY, on a list or current;
      sleep(0) is not ended by ticks. */
  ghost predicate Slept(k: Kernel, ms: nat, es: seq<Event>, mark: bool)
    requires Shape(k)
  {
    var s, l := k.current, Run(Sleep(k, ms, mark), es, mark);
    && (Timers(es) < ms || ms == 0 ==> l.tasks[s].state == Blocked)
    && (Timers(es) < ms ==> l.tasks[s].wakeTime == ms - Timers(es))
    && (Timers(es) + 1 == ms ==>
          var d := Timer(l, mark);
          d.tasks[s].state != Blocked && (OnSomeList(d, s) || d.current == s))
  }

  lemma LinkedSleep(k: Kernel, a: Abs, ms: nat, es: seq<Event>, mark: bool)
    requires Rel(k, a) && Inv(a) && k.running
    requires var l := Sleep(k, ms, mark); Guarded(l, ASleep(a, ms, mark), es, mark) && LeftAlone(l, es, k.current, mark)
    ensures Slept(k, ms, es, mark)
  {
    var s, l, b := k.current, Sleep(k, ms, mark), ASleep(a, ms, mark);
    StepRefines(k, a, ESleep(ms), mark);
    RunRefines(l, b, es, mark);
    LeftAloneUndisturbed(l, b, es, s, mark);
    SleepLasts(a, ms, es, mark);
    var c := ARun(b, es, mark);
    StepRefines(Run(l, es, mark), c, ETimer, mark);
    OnSomeListIff(Timer(Run(l, es, mark), mark), AStep(c, ETimer, mark), s);
  }

  /** So for a sleep after any guarded run from boot. */
  lemma BootSleep(fs: seq<Event>, k: Kernel, a: Abs, ms: nat, es: seq<Event>, mark: bool)
    requires Guarded(Boot(), AbsBoot(), fs, mark)
    requires k == Run(Boot(), fs, mark) && a == ARun(AbsBoot(), fs, mark) && k.running
    requires var l := Sleep(k, ms, mark); Guarded(l, ASleep(a, ms, mark), es, mark) && LeftAlone(l, es, k.current, mark)
    ensures Slept(k, ms, es, mark)
  {
    BootRunRefines(fs, mark);
    LinkedSleep(k, a, ms, es, mark);
  }

  // ----- stranding -----

  ghost predicate LinkedStranded(k: Kernel, s: nat)
    requires Shape(k)
  {
    1 <= s < TASK_MAX && k.tasks[s].state == Ready && !OnSomeList(k, s) && s != k.current
  }

  /** The labelled variant: over every guarded run from boot a READY task is on the list
      of its priority. */
  lemma BootNoneStranded(es: seq<Event>, s: nat)
    requires Guarded(Boot(), AbsBoot(), es, true)
    requires 1 <= s < TASK_MAX && Run(Boot(), es, true).tasks[s].state == Ready
    ensures var k := Run(Boot(), es, true); OnList(k, k.tasks[s].priority, s)
  {
    BootRel();
    RunRefines(Boot(), AbsBoot(), es, true);
    RunNoneStranded(AbsBoot(), es);
    var k := Run(Boot(), es, true);
    OnListIff(k, ARun(AbsBoot(), es, true), k.tasks[s].priority, s);
  }

  /** As written: a yield that switches strands the task it takes the processor from
      exactly when that task was not marked RUNNING. */
  lemma LinkedYieldStrandsIff(k: Kernel, a: Abs)
    requires Rel(k, a) && Inv(a) && Switches(a)
    ensures LinkedStranded(Yield(k, false), k.current) <==> k.tasks[k.current].state == Ready
  {
    StepRefines(k, a, EYield, false);
    OnSomeListIff(Yield(k, false), AYield(a, false), k.current);
    YieldStrandsIff(a);
  }

  /** A stranded task is still stranded, so on no list and not current, after every guarded
      run that does not change its priority. */
  lemma LinkedStaysStranded(k: Kernel, a: Abs, es: seq<Event>, s: nat, mark: bool)
    requires Rel(k, a) && Inv(a) && Guarded(k, a, es, mark) && LinkedStranded(k, s)
    requires forall i :: 0 <= i < |es| && es[i].ESetPriority? ==> es[i].id != k.tasks[s].id
    ensures LinkedStranded(Run(k, es, mark), s)
  {
    OnSomeListIff(k, a, s);
    RunRefines(k, a, es, mark);
    RunStaysStranded(a, es, s, mark);
    OnSomeListIff(Run(k, es, mark), ARun(a, es, mark), s);
  }

  // ----- taking turns -----

  function YieldsLinked(k: Kernel, n: nat, mark: bool): (k': Kernel)
    requires Shape(k)
    ensures Shape(k')
  {
    if n == 0 then k else Yield(YieldsLinked(k, n - 1, mark), mark)
  }

  lemma {:induction false} YieldsRefine(k: Kernel, a: Abs, n: nat, mark: bool)
    requires Rel(k, a) && Inv(a)
    ensures Rel(YieldsLinked(k, n, mark), Yields(a, n, mark)) && Inv(Yields(a, n, mark))
  {
    if n > 0 {
      YieldsRefine(k, a, n - 1, mark);
      StepRefines(YieldsLinked(k, n - 1, mark), Yields(a, n - 1, mark), EYield, mark);
    }
  }

  /** The labelled variant: n tasks of one priority and n yields make each current once, in
      the order of the list, and end with the tasks and the lists of the start. */
  lemma LinkedRoundRobin(k: Kernel, a: Abs)
    requires Rel(k, a) && Inv(a) && k.current != 0 && k.tasks[k.current].state == Running
    ensures Distinct(Ring(a))
    ensures forall j :: 0 <= j < |Ring(a)| ==> YieldsLinked(k, j, true).current == Ring(a)[j]
    ensures Rel(YieldsLinked(k, |Ring(a)|, true), a)
  {
    RoundRobin(a);
    forall j | 0 <= j <= |Ring(a)| ensures Rel(YieldsLinked(k, j, true), Yields(a, j, true)) {
      YieldsRefine(k, a, j, true);
    }
  }
}
