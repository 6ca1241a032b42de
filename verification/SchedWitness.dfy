/** Concrete runs from boot on which the code as written misses what it is for. */
module SchedWitness {
  import opened IntrusiveList
  import opened Sched
  import opened SchedQueues
  import opened SchedInvariant
  import opened SchedRefine
  import opened SchedPriority
  import opened SchedRuns
  import opened SchedRobin

  function T(id: nat, state: State, wakeTime: nat): Task {
    Task(id, state, wakeTime, 1)
  }

  /** A table whose slots 1 to 4 are given and whose others are free. */
  function Table(t1: Task, t2: Task, t3: Task, t4: Task): (ts: seq<Task>)
    ensures |ts| == TASK_MAX && ts[0] == EmptyTask
    ensures ts[1] == t1 && ts[2] == t2 && ts[3] == t3 && ts[4] == t4
    ensures forall i :: 5 <= i < TASK_MAX ==> ts[i] == EmptyTask
  {
    Boot().tasks[1 := t1][2 := t2][3 := t3][4 := t4]
  }

  function Links(n1: nat, n2: nat, n3: nat, n4: nat): (ns: seq<nat>)
    ensures |ns| == TASK_MAX && ns[0] == 0
    ensures ns[1] == n1 && ns[2] == n2 && ns[3] == n3 && ns[4] == n4
    ensures forall i :: 5 <= i < TASK_MAX ==> ns[i] == 0
  {
    Boot().next[1 := n1][2 := n2][3 := n3][4 := n4]
  }

  function Normal(ts: seq<Task>, ns: seq<nat>, head: nat, tail: nat, current: nat, counter: nat): Kernel {
    Kernel(ts, ns, [0, head, 0], [0, tail, 0], current, counter, current != 0)
  }

  function Three(): Kernel { Normal(Table(T(1, Ready, 0), T(2, Ready, 0), T(3, Ready, 0), EmptyTask), Links(2, 3, 0, 0), 1, 3, 0, 4) }
  function Started(): Kernel { Normal(Table(T(1, Running, 0), T(2, Ready, 0), T(3, Ready, 0), EmptyTask), Links(2, 3, 0, 0), 2, 3, 1, 4) }
  function Yielded(): Kernel { Normal(Table(T(1, Ready, 0), T(2, Ready, 0), T(3, Ready, 0), EmptyTask), Links(0, 3, 1, 0), 3, 1, 2, 4) }
  function OneAsleep(): Kernel { Normal(Table(T(1, Ready, 0), T(2, Blocked, 5), T(3, Ready, 0), EmptyTask), Links(0, 3, 1, 0), 1, 1, 3, 4) }
  function TwoAsleep(): Kernel { Normal(Table(T(1, Ready, 0), T(2, Blocked, 5), T(3, Blocked, 5), EmptyTask), Links(0, 3, 1, 0), 0, 0, 1, 4) }
  function FourMade(): Kernel { Normal(Table(T(1, Ready, 0), T(2, Blocked, 5), T(3, Blocked, 5), T(4, Ready, 0)), Links(0, 3, 1, 0), 4, 4, 1, 5) }
  function ThreeWoken(): Kernel { Normal(Table(T(1, Ready, 0), T(2, Blocked, 5), T(3, Ready, 0), T(4, Ready, 0)), Links(0, 3, 0, 3), 4, 3, 1, 5) }

  function One(): Kernel { Normal(Table(T(1, Ready, 0), EmptyTask, EmptyTask, EmptyTask), Links(0, 0, 0, 0), 1, 1, 0, 2) }
  function Two(): Kernel { Normal(Table(T(1, Ready, 0), T(2, Ready, 0), EmptyTask, EmptyTask), Links(2, 0, 0, 0), 1, 2, 0, 3) }

  lemma FirstCreated()
    ensures Create(Boot(), true, 1) == One()
  {
    assert First(Boot().tasks, IsEmpty, 1) == 1;
    assert Create(Boot(), true, 1).tasks == One().tasks;
    assert Create(Boot(), true, 1).next == One().next;
  }

  lemma SecondCreated()
    ensures Create(One(), true, 1) == Two()
  {
    assert First(One().tasks, IsEmpty, 1) == 2;
    assert Create(One(), true, 1).tasks == Two().tasks;
    assert Create(One(), true, 1).next == Two().next;
  }

  lemma ThirdCreated()
    ensures Create(Two(), true, 1) == Three()
  {
    assert First(Two().tasks, IsEmpty, 1) == 3;
    assert Create(Two(), true, 1).tasks == Three().tasks;
    assert Create(Two(), true, 1).next == Three().next;
  }

  lemma StartedAndYielded()
    ensures Start(Three()) == Started() && Yield(Started(), false) == Yielded()
  {
    assert Highest(Three().head, PRIORITY_MAX) == 1;
    assert Start(Three()).tasks == Started().tasks;
    assert Yield(Started(), false).tasks == Yielded().tasks;
    assert Yield(Started(), false).next == Yielded().next;
  }

  lemma BothAsleep()
    ensures Sleep(Yielded(), 5, false) == OneAsleep() && Sleep(OneAsleep(), 5, false) == TwoAsleep()
  {
    assert Sleep(Yielded(), 5, false).tasks == OneAsleep().tasks;
    assert Sleep(OneAsleep(), 5, false).tasks == TwoAsleep().tasks;
  }

  lemma FourthAndWake()
    ensures Create(TwoAsleep(), true, 1) == FourMade() && Wake(FourMade(), 3) == ThreeWoken()
  {
    assert First(TwoAsleep().tasks, IsEmpty, 1) == 4;
    assert Create(TwoAsleep(), true, 1).tasks == FourMade().tasks;
    assert Create(TwoAsleep(), true, 1).next == FourMade().next;
    assert First(FourMade().tasks, IsBlocked(3), 1) == 3;
    assert Wake(FourMade(), 3).tasks == ThreeWoken().tasks;
    assert Wake(FourMade(), 3).next == ThreeWoken().next;
  }

  /** Three tasks, the scheduler started, one yield. */
  function Short(): (k: Kernel)
    ensures Shape(k)
  {
    Yield(Start(Create(Create(Create(Boot(), true, 1), true, 1), true, 1)), false)
  }

  /** Then two sleeps, a fourth task, and a wake of task 3. */
  function Long(): (k: Kernel)
    ensures Shape(k)
  {
    Wake(Create(Sleep(Sleep(Short(), 5, false), 5, false), true, 1), 3)
  }

  lemma ShortIsYielded()
    ensures Short() == Yielded()
  {
    FirstCreated(); SecondCreated(); ThirdCreated(); StartedAndYielded();
  }

  lemma LongIsThreeWoken()
    ensures Long() == ThreeWoken()
  {
    ShortIsYielded(); BothAsleep(); FourthAndWake();
  }

  lemma TableIds(t1: Task, t2: Task, t3: Task, t4: Task, counter: nat)
    requires t1.id == 1 && t2.id == 2 && t3.id == 3 && (t4 == EmptyTask || t4.id == 4) && counter > t4.id && counter > 3
    requires t1.state != Empty && t2.state != Empty && t3.state != Empty && (t4 != EmptyTask ==> t4.state != Empty)
    ensures IdsOk(Table(t1, t2, t3, t4), counter)
  {
    var ts := Table(t1, t2, t3, t4);
    assert forall i :: 0 <= i < 4 ==> ts[i].id == i;
  }

  /** A state whose one queue is that of priority 1. */
  lemma NormalInv(k: Kernel, q: seq<nat>, a: Abs)
    requires Shape(k) && k.head == [0, k.head[1], 0] && k.tail == [0, k.tail[1], 0]
    requires IsList(k.next, k.head[1], k.tail[1], q) && QueueOk(k.tasks, q, 1)
    requires IdsOk(k.tasks, k.counter) && k.tasks[0] == EmptyTask
    requires k.current != 0 && k.running && k.tasks[k.current].state != Empty && k.current !in q
    requires a == Abs(k.tasks, [[], q, []], k.current, k.counter, true)
    ensures Rel(k, a) && Inv(a)
  {
    assert forall p :: 0 <= p <= PRIORITY_MAX && p != 1 ==> a.queues[p] == [] && k.head[p] == k.tail[p] == 0;
    assert a.queues[1] == q;
  }

  function Woken34(): Abs {
    Abs(ThreeWoken().tasks, [[], [4, 3], []], 1, 5, true)
  }

  lemma WokenInv()
    ensures Shape(ThreeWoken()) && Rel(ThreeWoken(), Woken34()) && Inv(Woken34())
  {
    TableIds(T(1, Ready, 0), T(2, Blocked, 5), T(3, Ready, 0), T(4, Ready, 0), 5);
    NormalInv(ThreeWoken(), [4, 3], Woken34());
  }

  /** After the long run slot 2, asleep, still links to slot 3, which is queued behind
      slot 4: re-prioritising task 3 then leaves no valid queues. */
  lemma StaleLinkBreaksSetPriority()
    ensures Rel(Long(), Woken34()) && Inv(Woken34())
    ensures !exists b :: Rel(SetPriority(Long(), 3, 0), b) && Inv(b)
  {
    LongIsThreeWoken();
    WokenInv();
    StaleGuard();
    SetPriorityKeepsInvIff(ThreeWoken(), Woken34(), 3, 0);
  }

  lemma StaleGuard()
    ensures Shape(ThreeWoken()) && !PriorityGuard(ThreeWoken(), Woken34(), 3, 0)
  {
    WokenInv();
    var k := ThreeWoken();
    assert First(k.tasks, HasId(3), 1) == 3;
    assert FirstLink(k.next, 3, 1) == 2;
    assert Woken34().queues[1][1] == 3;
    NotReadyAbsent(Woken34(), 2);
  }

  function Yielded31(): Abs {
    Abs(Yielded().tasks, [[], [3, 1], []], 2, 4, true)
  }

  lemma YieldedInv()
    ensures Shape(Yielded()) && Rel(Yielded(), Yielded31()) && Inv(Yielded31())
  {
    TableIds(T(1, Ready, 0), T(2, Ready, 0), T(3, Ready, 0), EmptyTask, 4);
    NormalInv(Yielded(), [3, 1], Yielded31());
  }

  /** After the short run one more yield leaves task 2 READY, in no queue and not current. */
  lemma SecondYieldStrandsTaskTwo()
    ensures Rel(Short(), Yielded31()) && Inv(Yielded31()) && Stranded(AYield(Yielded31(), false), 2)
  {
    ShortIsYielded();
    YieldedInv();
    YieldStrandsIff(Yielded31());
  }

  // ----- waking the current task -----

  function StartedTwo(): Kernel { Normal(Table(T(1, Running, 0), T(2, Ready, 0), EmptyTask, EmptyTask), Links(2, 0, 0, 0), 2, 2, 1, 3) }
  function TwoRuns(): Kernel { Normal(Table(T(1, Blocked, 5), T(2, Ready, 0), EmptyTask, EmptyTask), Links(2, 0, 0, 0), 0, 0, 2, 3) }
  function AllAsleep(): Kernel { Normal(Table(T(1, Blocked, 5), T(2, Blocked, 5), EmptyTask, EmptyTask), Links(2, 0, 0, 0), 0, 0, 2, 3) }
  function ThreeMade(): Kernel { Normal(Table(T(1, Blocked, 5), T(2, Blocked, 5), T(3, Ready, 0), EmptyTask), Links(2, 0, 0, 0), 3, 3, 2, 4) }
  function TwoWoken(): Kernel { Normal(Table(T(1, Blocked, 5), T(2, Ready, 0), T(3, Ready, 0), EmptyTask), Links(2, 0, 2, 0), 3, 2, 2, 4) }
  function TwoAgain(): Kernel { Normal(Table(T(1, Blocked, 5), T(2, Blocked, 5), T(3, Ready, 0), EmptyTask), Links(2, 0, 2, 0), 2, 2, 3, 4) }
  function SelfLinked(): Kernel { Normal(Table(T(1, Blocked, 5), T(2, Ready, 0), T(3, Ready, 0), EmptyTask), Links(2, 2, 2, 0), 2, 2, 3, 4) }

  /** Two tasks started, both put to sleep while current, a third made. */
  function Asleep(): (k: Kernel)
    ensures Shape(k)
  {
    Create(Sleep(Sleep(Start(Create(Create(Boot(), true, 1), true, 1)), 5, false), 5, false), true, 1)
  }

  /** Then task 2, which is current, is woken, sleeps and is woken again. */
  function Looped(): (k: Kernel)
    ensures Shape(k)
  {
    Wake(Sleep(Wake(Asleep(), 2), 5, false), 2)
  }

  lemma TwoStarted()
    ensures Start(Two()) == StartedTwo() && Sleep(StartedTwo(), 5, false) == TwoRuns()
    ensures Sleep(TwoRuns(), 5, false) == AllAsleep()
  {
    assert Highest(Two().head, PRIORITY_MAX) == 1;
    assert Start(Two()).tasks == StartedTwo().tasks;
    assert Sleep(StartedTwo(), 5, false).tasks == TwoRuns().tasks;
    assert Sleep(TwoRuns(), 5, false).tasks == AllAsleep().tasks;
  }

  lemma ThirdMade()
    ensures Create(AllAsleep(), true, 1) == ThreeMade()
  {
    assert First(AllAsleep().tasks, IsEmpty, 1) == 3;
    assert Create(AllAsleep(), true, 1).tasks == ThreeMade().tasks;
    assert Create(AllAsleep(), true, 1).next == ThreeMade().next;
  }

  lemma AsleepIsThreeMade()
    ensures Asleep() == ThreeMade()
  {
    FirstCreated(); SecondCreated(); TwoStarted(); ThirdMade();
  }

  lemma WokenTwice()
    ensures Wake(ThreeMade(), 2) == TwoWoken() && Sleep(TwoWoken(), 5, false) == TwoAgain()
    ensures Wake(TwoAgain(), 2) == SelfLinked()
  {
    assert First(ThreeMade().tasks, IsBlocked(2), 1) == 2;
    assert Wake(ThreeMade(), 2).tasks == TwoWoken().tasks;
    assert Wake(ThreeMade(), 2).next == TwoWoken().next;
    assert Sleep(TwoWoken(), 5, false).tasks == TwoAgain().tasks;
    assert First(TwoAgain().tasks, IsBlocked(2), 1) == 2;
    assert Wake(TwoAgain(), 2).tasks == SelfLinked().tasks;
    assert Wake(TwoAgain(), 2).next == SelfLinked().next;
  }

  function OnlyThree(): Abs {
    Abs(ThreeMade().tasks, [[], [3], []], 2, 4, true)
  }

  lemma ThreeMadeInv()
    ensures Shape(ThreeMade()) && Rel(ThreeMade(), OnlyThree()) && Inv(OnlyThree())
  {
    TableIds(T(1, Blocked, 5), T(2, Blocked, 5), T(3, Ready, 0), EmptyTask, 4);
    NormalInv(ThreeMade(), [3], OnlyThree());
  }

  lemma FindsCurrent(k: Kernel, a: Abs, id: nat)
    requires Rel(k, a) && Inv(a) && First(k.tasks, IsBlocked(id), 1) == k.current
    ensures !exists b :: Rel(Wake(k, id), b) && Inv(b)
  {
    forall b | Rel(Wake(k, id), b) ensures !Inv(b) {
      WakeCurrentBreaks(k, a, id, b);
    }
  }

  /** Six calls from boot lead to a state in which a wake finds the current task, and then
      leaves no valid queues. */
  lemma WakeFindsCurrent()
    ensures Rel(Asleep(), OnlyThree()) && Inv(OnlyThree())
    ensures First(Asleep().tasks, IsBlocked(2), 1) == Asleep().current
    ensures !exists b :: Rel(Wake(Asleep(), 2), b) && Inv(b)
  {
    AsleepIsThreeMade();
    ThreeMadeInv();
    assert First(ThreeMade().tasks, IsBlocked(2), 1) == 2;
    FindsCurrent(Asleep(), OnlyThree(), 2);
  }

  /** A list whose one slot links to itself is no sequence, and yields never get past it. */
  lemma SelfLink(k: Kernel, s: nat)
    requires Shape(k) && 1 <= s < TASK_MAX && k.next[s] == s && k.head[1] == k.tail[1] == s
    requires k.running && k.current != 0 && k.tasks[k.current].priority == 1 && k.tasks[k.current].state == Ready
    requires k.tasks[s].priority == 1 && k.tasks[s].state == Ready
    ensures !exists b :: Rel(k, b)
    ensures var l := Yield(k, false); l.current == s && Yield(l, false) == l
  {
    assert forall q: seq<nat> :: !IsList(k.next, k.head[1], k.tail[1], q);
    forall b: Abs ensures !Rel(k, b) {
      assert Rel(k, b) ==> IsList(k.next, k.head[1], k.tail[1], b.queues[1]);
    }
  }

  /** Three calls later slot 2 links to itself: no sequences describe the lists, and after
      the next yield every other one chooses task 2 again, from the same state. */
  lemma WakesLoop()
    ensures Looped().next[2] == 2 && Looped().head[1] == Looped().tail[1] == 2
    ensures !exists b :: Rel(Looped(), b)
    ensures var k := Yield(Looped(), false); k.current == 2 && Yield(k, false) == k
  {
    AsleepIsThreeMade();
    WokenTwice();
    SelfLinkedShape(SelfLinked());
    SelfLink(Looped(), 2);
  }

  lemma SelfLinkedShape(k: Kernel)
    requires k == SelfLinked()
    ensures k.next[2] == 2 && k.head[1] == k.tail[1] == 2 && k.running && k.current == 3
    ensures k.tasks[2] == T(2, Ready, 0) && k.tasks[3] == T(3, Ready, 0)
  {
  }
}
