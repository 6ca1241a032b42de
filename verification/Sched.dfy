/** The scheduler of kernel/src/sched.c at the level of its static variables: task
    table, links, and one head and one tail per priority. Every kernel call is one
    atomic step; a context switch is the change of `current`.

    `mark` selects the labelled variant: false is the code as written, where
    task_yield and task_sleep leave the newly chosen task READY; true adds to them
    the assignment that sched_start makes (state RUNNING). */
module Sched {

  const TASK_MAX := 64
  const PRIORITY_MAX := 2

  datatype State = Empty | Ready | Running | Blocked | Terminated

  /** A task table entry. Its `next` field is kept in Kernel.next. */
  datatype Task = Task(id: nat, state: State, wakeTime: nat, priority: nat)

  datatype Kernel = Kernel(
    tasks: seq<Task>,
    next: seq<nat>,
    head: seq<nat>,
    tail: seq<nat>,
    current: nat,
    counter: nat,
    running: bool)

  /** What every state the code can be in satisfies, even after misuse: array bounds. */
  ghost predicate Shape(k: Kernel) {
    && |k.tasks| == |k.next| == TASK_MAX
    && |k.head| == |k.tail| == PRIORITY_MAX + 1
    && k.current < TASK_MAX
    && (forall i :: 0 <= i < TASK_MAX ==> k.tasks[i].priority <= PRIORITY_MAX)
    && (forall i :: 0 <= i < TASK_MAX ==> k.next[i] < TASK_MAX)
    && (forall p :: 0 <= p <= PRIORITY_MAX ==> k.head[p] < TASK_MAX && k.tail[p] < TASK_MAX)
  }

  const EmptyTask := Task(0, Empty, 0, 1)

  /** After sched_init, with the links zero as static storage starts. */
  function Boot(): (k: Kernel)
    ensures Shape(k)
  {
    Kernel(seq(TASK_MAX, i => EmptyTask), seq(TASK_MAX, i => 0), [0, 0, 0], [0, 0, 0], 0, 1, false)
  }

  function Clamp(priority: nat): (p: nat)
    ensures p <= PRIORITY_MAX && (priority <= PRIORITY_MAX ==> p == priority)
  {
    if priority > PRIORITY_MAX then PRIORITY_MAX else priority
  }

  /** The questions the scanning loops ask of a slot. */
  datatype Query = IsEmpty | HasId(id: nat) | IsBlocked(id: nat)

  predicate Matches(t: Task, q: Query) {
    match q
    case IsEmpty => t.state == Empty
    case HasId(id) => t.id == id
    case IsBlocked(id) => t.id == id && t.state == Blocked
  }

  /** The first slot from `i` on that matches, or the table length. */
  function First(ts: seq<Task>, q: Query, i: nat): (r: nat)
    requires i <= |ts|
    ensures i <= r <= |ts|
    ensures r < |ts| ==> Matches(ts[r], q)
    ensures forall j :: i <= j < r ==> !Matches(ts[j], q)
    decreases |ts| - i
  {
    if i == |ts| || Matches(ts[i], q) then i else First(ts, q, i + 1)
  }

  /** The first slot from `i` on whose link is `s`, or the table length. */
  function FirstLink(next: seq<nat>, s: nat, i: nat): (r: nat)
    requires i <= |next|
    ensures i <= r <= |next|
    ensures r < |next| ==> next[r] == s
    ensures forall j :: i <= j < r ==> next[j] != s
    decreases |next| - i
  {
    if i == |next| || next[i] == s then i else FirstLink(next, s, i + 1)
  }

  /** Appends slot `s` to the queue of priority `p`, its own link aside. */
  function Link(k: Kernel, p: nat, s: nat): (k': Kernel)
    requires Shape(k) && p <= PRIORITY_MAX && s < TASK_MAX
    ensures Shape(k')
  {
    if k.head[p] == 0 then
      k.(head := k.head[p := s], tail := k.tail[p := s])
    else
      k.(next := k.next[k.tail[p] := s], tail := k.tail[p := s])
  }

  /** Takes the head of queue `p` off and makes it current. */
  function Dispatch(k: Kernel, p: nat): (k': Kernel)
    requires Shape(k) && p <= PRIORITY_MAX
    ensures Shape(k')
  {
    var h := k.next[k.head[p]];
    k.(current := k.head[p], head := k.head[p := h], tail := if h == 0 then k.tail[p := 0] else k.tail)
  }

  function SetState(k: Kernel, s: nat, state: State): (k': Kernel)
    requires Shape(k) && s < TASK_MAX
    ensures Shape(k')
  {
    k.(tasks := k.tasks[s := k.tasks[s].(state := state)])
  }

  function MarkCurrent(k: Kernel, mark: bool): (k': Kernel)
    requires Shape(k)
    ensures Shape(k')
  {
    if mark then SetState(k, k.current, Running) else k
  }

  function Create(k: Kernel, hasEntry: bool, priority: nat): (k': Kernel)
    requires Shape(k)
    ensures Shape(k')
  {
    var s := First(k.tasks, IsEmpty, 1);
    if !hasEntry || s == TASK_MAX then k
    else
      var p := Clamp(priority);
      Link(k.(tasks := k.tasks[s := Task(k.counter, Ready, 0, p)], next := k.next[s := 0], counter := k.counter + 1), p, s)
  }

  /** Removal from the queue of priority `p`, by the predecessor scan. */
  function Unlink(k: Kernel, p: nat, s: nat): (k': Kernel)
    requires Shape(k) && p <= PRIORITY_MAX && s < TASK_MAX
    ensures Shape(k')
  {
    if k.head[p] == s then
      k.(head := k.head[p := k.next[s]], tail := if k.tail[p] == s then k.tail[p := 0] else k.tail)
    else
      var j := FirstLink(k.next, s, 1);
      if j == TASK_MAX then k
      else k.(next := k.next[j := k.next[s]], tail := if k.tail[p] == s then k.tail[p := j] else k.tail)
  }

  function SetPriority(k: Kernel, id: nat, priority: nat): (k': Kernel)
    requires Shape(k)
    ensures Shape(k')
  {
    var p := Clamp(priority);
    var s := First(k.tasks, HasId(id), 1);
    if s == TASK_MAX || k.tasks[s].priority == p then k
    else
      var k1 := Unlink(k, k.tasks[s].priority, s);
      var k2 := Link(k1.(tasks := k1.tasks[s := k1.tasks[s].(priority := p)]), p, s);
      k2.(next := k2.next[s := 0])
  }

  function Yield(k: Kernel, mark: bool): (k': Kernel)
    requires Shape(k)
    ensures Shape(k')
  {
    var prev := k.current;
    var p := k.tasks[prev].priority;
    if !k.running || prev == 0 || k.head[p] == 0 then k
    else
      var k1 := Dispatch(k, p);
      var k2 := if k1.tasks[prev].state == Running
                then Link(SetState(k1, prev, Ready).(next := k1.next[prev := 0]), p, prev)
                else k1;
      MarkCurrent(k2, mark)
  }

  function Sleep(k: Kernel, ms: nat, mark: bool): (k': Kernel)
    requires Shape(k)
    ensures Shape(k')
  {
    if !k.running || k.current == 0 then k
    else
      var t := k.tasks[k.current];
      var k1 := k.(tasks := k.tasks[k.current := t.(state := Blocked, wakeTime := ms)]);
      if k1.head[t.priority] == 0 then k1
      else MarkCurrent(Dispatch(k1, t.priority), mark)
  }

  /** What task_wake does with the slot it found. */
  function WakeSlot(k: Kernel, s: nat): (k': Kernel)
    requires Shape(k) && s < TASK_MAX
    ensures Shape(k')
  {
    var t := k.tasks[s];
    Link(k.(tasks := k.tasks[s := t.(state := Ready, wakeTime := 0)], next := k.next[s := 0]), t.priority, s)
  }

  function Wake(k: Kernel, id: nat): (k': Kernel)
    requires Shape(k)
    ensures Shape(k')
  {
    var s := First(k.tasks, IsBlocked(id), 1);
    if s == TASK_MAX then k else WakeSlot(k, s)
  }

  /** The body of the sched_tick loop for slot `i`. */
  function TickSlot(k: Kernel, i: nat): (k': Kernel)
    requires Shape(k) && i < TASK_MAX
    ensures Shape(k')
  {
    var t := k.tasks[i];
    if t.state == Blocked && t.wakeTime > 0 then
      if t.wakeTime <= 1 then Wake(k, t.id)
      else k.(tasks := k.tasks[i := t.(wakeTime := t.wakeTime - 1)])
    else k
  }

  /** sched_tick once it has done the slots below `n`. */
  function Tick(k: Kernel, n: nat): (k': Kernel)
    requires Shape(k) && 1 <= n <= TASK_MAX
    ensures Shape(k')
  {
    if n == 1 then k else TickSlot(Tick(k, n - 1), n - 1)
  }

  /** timer_handler: the tick, then the yield, as one step. */
  function Timer(k: Kernel, mark: bool): (k': Kernel)
    requires Shape(k)
    ensures Shape(k')
  {
    Yield(Tick(k, TASK_MAX), mark)
  }

  /** The highest priority with a queued task, or -1. */
  function Highest(head: seq<nat>, p: int): (r: int)
    requires -1 <= p < |head|
    ensures -1 <= r <= p
    ensures r >= 0 ==> head[r] != 0
    ensures forall j :: r < j <= p ==> head[j] == 0
    decreases p + 1
  {
    if p == -1 || head[p] != 0 then p else Highest(head, p - 1)
  }

  function Start(k: Kernel): (k': Kernel)
    requires Shape(k)
    ensures Shape(k')
  {
    var p := Highest(k.head, PRIORITY_MAX);
    if p == -1 then k
    else MarkCurrent(Dispatch(k.(running := true), p), true)
  }

  datatype Event =
    | ECreate(hasEntry: bool, priority: nat)
    | ESetPriority(id: nat, priority: nat)
    | EYield
    | ESleep(ms: nat)
    | EWake(id: nat)
    | ETimer
    | EStart

  function Step(k: Kernel, e: Event, mark: bool): (k': Kernel)
    requires Shape(k)
    ensures Shape(k')
  {
    match e
    case ECreate(hasEntry, priority) => Create(k, hasEntry, priority)
    case ESetPriority(id, priority) => SetPriority(k, id, priority)
    case EYield => Yield(k, mark)
    case ESleep(ms) => Sleep(k, ms, mark)
    case EWake(id) => Wake(k, id)
    case ETimer => Timer(k, mark)
    case EStart => Start(k)
  }
}
