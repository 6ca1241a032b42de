/** The scheduler without links: each priority has a plain sequence of slots.
    This is the simple form that the linked tables of module Sched refine. */
module SchedQueues {
  import opened IntrusiveList
  import opened Sched

  datatype Abs = Abs(
    tasks: seq<Task>,
    queues: seq<seq<nat>>,
    current: nat,
    counter: nat,
    running: bool)

  function AbsBoot(): Abs {
    Abs(Boot().tasks, [[], [], []], 0, 1, false)
  }

  ghost predicate Sized(a: Abs) {
    && |a.tasks| == TASK_MAX
    && |a.queues| == PRIORITY_MAX + 1
    && a.current < TASK_MAX
    && (forall i :: 0 <= i < TASK_MAX ==> a.tasks[i].priority <= PRIORITY_MAX)
    && forall p :: 0 <= p <= PRIORITY_MAX ==> InTable(a.queues[p])
  }

  ghost predicate InTable(q: seq<nat>) {
    forall i :: 0 <= i < |q| ==> q[i] < TASK_MAX
  }

  /** Task ids name slots: live slots have distinct ids below the counter, free ones 0. */
  ghost predicate IdsOk(ts: seq<Task>, counter: nat) {
    && 1 <= counter
    && (forall i :: 0 <= i < |ts| ==> if ts[i].state == Empty then ts[i].id == 0 else 1 <= ts[i].id < counter)
    && forall i, j :: 0 <= i < j < |ts| && ts[i].state != Empty ==> ts[i].id != ts[j].id
  }

  /** A queue holds READY tasks of its priority, each slot in 1..63 once. */
  ghost predicate QueueOk(ts: seq<Task>, q: seq<nat>, p: nat) {
    && Distinct(q)
    && forall i :: 0 <= i < |q| ==> 1 <= q[i] < |ts| && ts[q[i]].state == Ready && ts[q[i]].priority == p
  }

  /** The invariant without the clause about the current task, which
      sched_tick can break until the yield of the same interrupt. */
  ghost predicate Wf(a: Abs) {
    && Sized(a)
    && a.tasks[0].state == Empty
    && IdsOk(a.tasks, a.counter)
    && (a.current == 0 <==> !a.running)
    && (a.current != 0 ==> a.tasks[a.current].state != Empty)
    && forall p :: 0 <= p <= PRIORITY_MAX ==> QueueOk(a.tasks, a.queues[p], p)
  }

  ghost predicate Queued(a: Abs, s: nat) {
    exists p :: 0 <= p < |a.queues| && s in a.queues[p]
  }

  /** The scheduler invariant. */
  ghost predicate Inv(a: Abs) {
    Wf(a) && !Queued(a, a.current)
  }

  function Enqueue(a: Abs, p: nat, s: nat): Abs
    requires p < |a.queues|
  {
    a.(queues := a.queues[p := a.queues[p] + [s]])
  }

  ghost function ACreate(a: Abs, hasEntry: bool, priority: nat): (a': Abs)
    requires Sized(a)
    ensures Sized(a')
  {
    var s := First(a.tasks, IsEmpty, 1);
    if !hasEntry || s == TASK_MAX then a
    else
      var p := Clamp(priority);
      Enqueue(a.(tasks := a.tasks[s := Task(a.counter, Ready, 0, p)], counter := a.counter + 1), p, s)
  }

  ghost function ASetPriority(a: Abs, id: nat, priority: nat): (a': Abs)
    requires Sized(a)
    ensures Sized(a')
  {
    var p := Clamp(priority);
    var s := First(a.tasks, HasId(id), 1);
    if s == TASK_MAX || a.tasks[s].priority == p then a
    else
      var from := a.tasks[s].priority;
      var q := Without(a.queues[from], s);
      assert InTable(q) by {
        forall i | 0 <= i < |q| ensures q[i] < TASK_MAX {
          assert q[i] in q;
        }
      }
      Enqueue(a.(tasks := a.tasks[s := a.tasks[s].(priority := p)], queues := a.queues[from := q]), p, s)
  }

  ghost function ADispatch(a: Abs, p: nat): (a': Abs)
    requires Sized(a) && p <= PRIORITY_MAX && a.queues[p] != []
    ensures Sized(a')
  {
    a.(current := a.queues[p][0], queues := a.queues[p := a.queues[p][1..]])
  }

  ghost function AMark(a: Abs, mark: bool): (a': Abs)
    requires Sized(a)
    ensures Sized(a')
  {
    if mark then a.(tasks := a.tasks[a.current := a.tasks[a.current].(state := Running)]) else a
  }

  /** Whether a yield switches to another task. */
  ghost predicate Switches(a: Abs)
    requires Sized(a)
  {
    a.running && a.current != 0 && a.queues[a.tasks[a.current].priority] != []
  }

  ghost function AYield(a: Abs, mark: bool): (a': Abs)
    requires Sized(a)
    ensures Sized(a')
  {
    var prev := a.current;
    var p := a.tasks[prev].priority;
    if !Switches(a) then a
    else
      var a1 := ADispatch(a, p);
      var a2 := if a.tasks[prev].state == Running
                then Enqueue(a1.(tasks := a1.tasks[prev := a1.tasks[prev].(state := Ready)]), p, prev)
                else a1;
      AMark(a2, mark)
  }

  ghost function ASleep(a: Abs, ms: nat, mark: bool): (a': Abs)
    requires Sized(a)
    ensures Sized(a')
  {
    if !a.running || a.current == 0 then a
    else
      var t := a.tasks[a.current];
      var a1 := a.(tasks := a.tasks[a.current := t.(state := Blocked, wakeTime := ms)]);
      if a1.queues[t.priority] == [] then a1
      else AMark(ADispatch(a1, t.priority), mark)
  }

  ghost function AWake(a: Abs, id: nat): (a': Abs)
    requires Sized(a)
    ensures Sized(a')
  {
    var s := First(a.tasks, IsBlocked(id), 1);
    if s == TASK_MAX then a
    else
      var t := a.tasks[s];
      Enqueue(a.(tasks := a.tasks[s := t.(state := Ready, wakeTime := 0)]), t.priority, s)
  }

  /** A task whose sleep ends at the next tick. */
  predicate Due(t: Task) {
    t.state == Blocked && t.wakeTime == 1
  }

  function TickTask(t: Task): Task {
    if Due(t) then t.(state := Ready, wakeTime := 0)
    else if t.state == Blocked && t.wakeTime > 1 then t.(wakeTime := t.wakeTime - 1)
    else t
  }

  /** The slots below `n` that a tick wakes into queue `p`, in slot order. */
  ghost function Woken(ts: seq<Task>, p: nat, n: nat): (w: seq<nat>)
    requires 1 <= n <= |ts|
    ensures forall s :: s in w <==> 1 <= s < n && Due(ts[s]) && ts[s].priority == p
    ensures forall i, j :: 0 <= i < j < |w| ==> w[i] < w[j]
    ensures forall i :: 0 <= i < |w| ==> w[i] < n
  {
    if n == 1 then []
    else
      var w := Woken(ts, p, n - 1);
      assert forall i :: 0 <= i < |w| ==> w[i] in w;
      if Due(ts[n - 1]) && ts[n - 1].priority == p then w + [n - 1] else w
  }

  ghost function TickTasks(ts: seq<Task>, n: nat): (r: seq<Task>)
    requires n <= |ts|
    ensures |r| == |ts|
  {
    seq(|ts|, i requires 0 <= i < |ts| => if 1 <= i < n then TickTask(ts[i]) else ts[i])
  }

  /** One tick over the slots below `n`, in closed form. */
  ghost function ATick(a: Abs, n: nat): (a': Abs)
    requires Sized(a) && 1 <= n <= TASK_MAX
    ensures Sized(a')
  {
    a.(tasks := TickTasks(a.tasks, n),
       queues := [a.queues[0] + Woken(a.tasks, 0, n),
                  a.queues[1] + Woken(a.tasks, 1, n),
                  a.queues[2] + Woken(a.tasks, 2, n)])
  }

  /** The highest priority with a queued task, or -1. */
  ghost function AHighest(a: Abs): (r: int)
    requires Sized(a)
    ensures -1 <= r <= PRIORITY_MAX
    ensures r >= 0 ==> a.queues[r] != []
    ensures forall j :: r < j <= PRIORITY_MAX ==> a.queues[j] == []
  {
    if a.queues[2] != [] then 2 else if a.queues[1] != [] then 1 else if a.queues[0] != [] then 0 else -1
  }

  ghost function AStart(a: Abs): (a': Abs)
    requires Sized(a)
    ensures Sized(a')
  {
    var p := AHighest(a);
    if p == -1 then a else AMark(ADispatch(a.(running := true), p), true)
  }

  /** Neither ids nor which slots are free changed. */
  ghost predicate SameIds(ts: seq<Task>, us: seq<Task>) {
    && |ts| == |us|
    && forall i :: 0 <= i < |ts| ==> us[i].id == ts[i].id && (us[i].state == Empty <==> ts[i].state == Empty)
  }

  lemma IdsFrame(ts: seq<Task>, us: seq<Task>, counter: nat)
    requires IdsOk(ts, counter) && SameIds(ts, us)
    ensures IdsOk(us, counter)
  {
    forall i, j | 0 <= i < j < |us| && us[i].state != Empty
      ensures us[i].id != us[j].id
    {
      assert ts[i].id != ts[j].id;
    }
  }

  lemma QueueAppend(ts: seq<Task>, q: seq<nat>, p: nat, us: seq<Task>, w: seq<nat>)
    requires QueueOk(ts, q, p) && QueueOk(us, w, p)
    requires |ts| == |us|
    requires forall i :: 0 <= i < |q| ==> us[q[i]] == ts[q[i]]
    requires forall i, j :: 0 <= i < |q| && 0 <= j < |w| ==> q[i] != w[j]
    ensures QueueOk(us, q + w, p)
  {
  }

  lemma WokenOk(ts: seq<Task>, p: nat, n: nat)
    requires 1 <= n <= |ts|
    ensures QueueOk(TickTasks(ts, n), Woken(ts, p, n), p)
  {
    var w := Woken(ts, p, n);
    forall i | 0 <= i < |w| ensures w[i] in w {}
  }

  /** A tick keeps everything but "the current task is not queued". */
  lemma TickWf(a: Abs, n: nat)
    requires Wf(a) && 1 <= n <= TASK_MAX
    ensures Wf(ATick(a, n))
  {
    var us := TickTasks(a.tasks, n);
    IdsFrame(a.tasks, us, a.counter);
    forall p | 0 <= p <= PRIORITY_MAX
      ensures QueueOk(us, a.queues[p] + Woken(a.tasks, p, n), p)
    {
      var w := Woken(a.tasks, p, n);
      var q := a.queues[p];
      WokenOk(a.tasks, p, n);
      forall i, j | 0 <= i < |q| && 0 <= j < |w| ensures q[i] != w[j] {
        assert w[j] in w;
      }
      QueueAppend(a.tasks, q, p, us, w);
    }
  }
}
