/** What each scheduler call does to the task table and the linked lists, field by field:
    `qs[p]` is the sequence that the list of priority `p` holds before the call. */
module SchedLaws {
  import opened IntrusiveList
  import opened Sched
  import opened SchedQueues
  import opened SchedInvariant
  import opened SchedRefine
  import opened SchedTick
  import opened SchedPriority
  import opened SchedRuns
  import opened SchedLinked

  /** The list of priority `p` holds the sequence `q`. */
  ghost predicate Held(k: Kernel, p: nat, q: seq<nat>)
    requires Shape(k) && p <= 2
  {
    IsList(k.next, k.head[p], k.tail[p], q)
  }

  ghost predicate Stays(k: Kernel, l: Kernel) {
    l.current == k.current && l.counter == k.counter && l.running == k.running
  }

  // ----- task_set_priority -----

  /** Ids being unique, looking a task up by its id finds its own slot. */
  lemma HasIdFinds(a: Abs, s: nat)
    requires Wf(a) && 1 <= s < TASK_MAX && a.tasks[s].state != Empty
    ensures First(a.tasks, HasId(a.tasks[s].id), 1) == s
  {
    forall j | 1 <= j < s ensures a.tasks[j].id != a.tasks[s].id {
    }
    assert Matches(a.tasks[s], HasId(a.tasks[s].id));
  }

  /** Of the task table only the priority of the task named changes: to the one asked for,
      or to 2 if that is higher. */
  lemma SetPrioritySets(k: Kernel, a: Abs, s: nat, priority: nat, mark: bool)
    requires Rel(k, a) && Inv(a) && 1 <= s < 64 && k.tasks[s].state != Empty
    ensures var l := Step(k, ESetPriority(k.tasks[s].id, priority), mark);
            l.tasks == k.tasks[s := k.tasks[s].(priority := if priority > 2 then 2 else priority)] && Stays(k, l)
  {
    HasIdFinds(a, s);
    FoundSets(k, k.tasks[s].id, priority, s);
  }

  lemma FoundSets(k: Kernel, id: nat, priority: nat, s: nat)
    requires Shape(k) && s < 64 && First(k.tasks, HasId(id), 1) == s
    ensures var l := SetPriority(k, id, priority);
            l.tasks == k.tasks[s := k.tasks[s].(priority := if priority > 2 then 2 else priority)] && Stays(k, l)
  {
    assert k.tasks == k.tasks[s := k.tasks[s]];
  }

  /** Under the guard, a task that gets another priority goes to the end of the list of that
      priority, and leaves the list it was on with the rest in order. */
  lemma SetPriorityMoves(k: Kernel, a: Abs, s: nat, priority: nat, mark: bool)
    requires Rel(k, a) && Inv(a) && 1 <= s < 64 && k.tasks[s].state != Empty
    requires PriorityGuard(k, a, k.tasks[s].id, priority)
    requires k.tasks[s].priority != if priority > 2 then 2 else priority
    ensures var l, p, from := Step(k, ESetPriority(k.tasks[s].id, priority), mark), (if priority > 2 then 2 else priority), k.tasks[s].priority;
            && Held(l, p, a.queues[p] + [s])
            && (s !in a.queues[from] ==> Held(l, from, a.queues[from]))
            && (forall m :: 0 <= m < |a.queues[from]| && a.queues[from][m] == s ==>
                 Held(l, from, a.queues[from][..m] + a.queues[from][m + 1..]))
            && (forall r: nat :: r <= 2 && r != p && r != from ==> Held(l, r, a.queues[r]))
  {
    HasIdFinds(a, s);
    SetPriorityRefines(k, a, k.tasks[s].id, priority);
    var from, p := k.tasks[s].priority, if priority > 2 then 2 else priority;
    assert QueueOk(a.tasks, a.queues[from], from);
    MovedQueues(a, s, priority);
    MoveHeld(SetPriority(k, k.tasks[s].id, priority), ASetPriority(a, k.tasks[s].id, priority), a.queues, from, p, s);
  }

  lemma MovedQueues(a: Abs, s: nat, priority: nat)
    requires Sized(a) && s < 64 && First(a.tasks, HasId(a.tasks[s].id), 1) == s
    requires a.tasks[s].priority != if priority > 2 then 2 else priority
    ensures var p, from := (if priority > 2 then 2 else priority), a.tasks[s].priority;
            ASetPriority(a, a.tasks[s].id, priority).queues == a.queues[from := Without(a.queues[from], s)][p := a.queues[p] + [s]]
  {
  }

  lemma MoveHeld(l: Kernel, b: Abs, qs: seq<seq<nat>>, from: nat, p: nat, s: nat)
    requires Rel(l, b) && |qs| == 3 && p <= 2 && from <= 2 && p != from && Distinct(qs[from])
    requires b.queues == qs[from := Without(qs[from], s)][p := qs[p] + [s]]
    ensures Held(l, p, qs[p] + [s])
    ensures s !in qs[from] ==> Held(l, from, qs[from])
    ensures forall m :: 0 <= m < |qs[from]| && qs[from][m] == s ==> Held(l, from, qs[from][..m] + qs[from][m + 1..])
    ensures forall r: nat :: r <= 2 && r != p && r != from ==> Held(l, r, qs[r])
  {
    RelHeld(l, b);
    var q := qs[from];
    if s !in q {
      WithoutAbsent(q, s);
    }
    forall m | 0 <= m < |q| && q[m] == s ensures Without(q, s) == q[..m] + q[m + 1..] {
      WithoutAt(q, m);
    }
  }

  /** So afterwards it is on the list of its new priority and on no other. */
  lemma SetPriorityLists(k: Kernel, a: Abs, s: nat, priority: nat, mark: bool, r: nat)
    requires Rel(k, a) && Inv(a) && 1 <= s < 64 && k.tasks[s].state != Empty && r <= 2
    requires PriorityGuard(k, a, k.tasks[s].id, priority)
    requires k.tasks[s].priority != if priority > 2 then 2 else priority
    ensures var l, p := Step(k, ESetPriority(k.tasks[s].id, priority), mark), if priority > 2 then 2 else priority;
            (OnList(l, r, s) <==> r == p) && l.tail[p] == s
  {
    var e := ESetPriority(k.tasks[s].id, priority);
    var p := if priority > 2 then 2 else priority;
    SetPriorityMoves(k, a, s, priority, mark);
    StepRefines(k, a, e, mark);
    var l, b := Step(k, e, mark), AStep(a, e, mark);
    ListUnique(l.next, l.head[p], l.tail[p], b.queues[p], a.queues[p] + [s]);
    assert s in b.queues[p];
    OnListIff(l, b, r, s);
    QueuedPriority(b, s);
    SetPrioritySets(k, a, s, priority, mark);
  }

  lemma SetPriorityUnknown(k: Kernel, id: nat, priority: nat, mark: bool)
    requires Shape(k) && forall i :: 1 <= i < 64 ==> k.tasks[i].id != id
    ensures Step(k, ESetPriority(id, priority), mark) == k
  {
  }

  // ----- task_create -----

  /** The new task gets the first empty slot, the next id and the end of its list. */
  lemma CreateFills(k: Kernel, a: Abs, s: nat, priority: nat, mark: bool)
    requires Rel(k, a) && Inv(a) && 1 <= s < 64 && k.tasks[s].state == Empty
    requires forall j :: 1 <= j < s ==> k.tasks[j].state != Empty
    ensures var l, p := Step(k, ECreate(true, priority), mark), if priority > 2 then 2 else priority;
            && l.tasks == k.tasks[s := Task(k.counter, Ready, 0, p)] && l.counter == k.counter + 1
            && l.current == k.current && l.running == k.running
            && forall r: nat :: r <= 2 ==> Held(l, r, if r == p then a.queues[r] + [s] else a.queues[r])
  {
    assert Matches(a.tasks[s], IsEmpty);
    assert First(a.tasks, IsEmpty, 1) == s;
    CreateRefines(k, a, true, priority);
    PushHeld(Create(k, true, priority), ACreate(a, true, priority), a.queues, if priority > 2 then 2 else priority, s);
  }

  lemma CreateRefuses(k: Kernel, hasEntry: bool, priority: nat, mark: bool)
    requires Shape(k) && (!hasEntry || forall i :: 1 <= i < 64 ==> k.tasks[i].state != Empty)
    ensures Step(k, ECreate(hasEntry, priority), mark) == k
  {
  }

  // ----- task_wake -----

  /** Waking the id of a BLOCKED task makes that task READY, last on the list of its priority. */
  lemma WakeQueues(k: Kernel, a: Abs, s: nat, mark: bool)
    requires Rel(k, a) && Inv(a) && 1 <= s < 64 && s != k.current && k.tasks[s].state == Blocked
    ensures var l, p := Step(k, EWake(k.tasks[s].id), mark), k.tasks[s].priority;
            && l.tasks == k.tasks[s := k.tasks[s].(state := Ready, wakeTime := 0)] && Stays(k, l)
            && forall r: nat :: r <= 2 ==> Held(l, r, if r == p then a.queues[r] + [s] else a.queues[r])
  {
    BlockedById(a, s);
    WakeRefines(k, a, k.tasks[s].id);
    PushHeld(Wake(k, k.tasks[s].id), AWake(a, k.tasks[s].id), a.queues, k.tasks[s].priority, s);
  }

  lemma WakeNothing(k: Kernel, id: nat, mark: bool)
    requires Shape(k) && forall i :: 1 <= i < 64 && k.tasks[i].id == id ==> k.tasks[i].state != Blocked
    ensures Step(k, EWake(id), mark) == k
  {
  }

  // ----- task_yield, task_sleep, sched_start -----

  /** A yield chooses the head of the list of the current task's priority, if there is one,
      and puts the task that yields at its end if it was RUNNING. */
  lemma YieldRotates(k: Kernel, a: Abs, mark: bool)
    requires Rel(k, a) && Inv(a)
    ensures var l, c, p := Step(k, EYield, mark), k.current, k.tasks[k.current].priority;
            if !k.running || c == 0 || a.queues[p] == [] then l == k
            else
              var h, runs := a.queues[p][0], k.tasks[c].state == Running;
              var ts := if runs then k.tasks[c := k.tasks[c].(state := Ready)] else k.tasks;
              && l.current == h && l.counter == k.counter && l.running
              && l.tasks == (if mark then ts[h := ts[h].(state := Running)] else ts)
              && Held(l, p, a.queues[p][1..] + if runs then [c] else [])
              && forall r: nat :: r <= 2 && r != p ==> Held(l, r, a.queues[r])
  {
    var p := k.tasks[k.current].priority;
    assert Held(k, p, a.queues[p]);
    if k.running && k.current != 0 && a.queues[p] != [] {
      YieldRefines(k, a, mark);
      YieldTakes(a, mark);
      RelHeld(Yield(k, mark), AYield(a, mark));
    }
  }

  lemma YieldTakes(a: Abs, mark: bool)
    requires Inv(a) && Switches(a)
    ensures var b, c, p := AYield(a, mark), a.current, a.tasks[a.current].priority;
            var h, runs := a.queues[p][0], a.tasks[c].state == Running;
            var ts := if runs then a.tasks[c := a.tasks[c].(state := Ready)] else a.tasks;
            && b.current == h < 64 && b.counter == a.counter && b.running
            && b.tasks == (if mark then ts[h := ts[h].(state := Running)] else ts)
            && b.queues == a.queues[p := a.queues[p][1..] + if runs then [c] else []]
  {
    var p := a.tasks[a.current].priority;
    assert a.queues[p][1..] + [] == a.queues[p][1..];
  }

  /** task_sleep blocks the current task for `ms` ticks and chooses the head of the list of
      its priority, or leaves it current when that list is empty. */
  lemma SleepBlocks(k: Kernel, a: Abs, ms: nat, mark: bool)
    requires Rel(k, a) && Inv(a)
    ensures var l, c, p := Step(k, ESleep(ms), mark), k.current, k.tasks[k.current].priority;
            if !k.running || c == 0 then l == k
            else
              var ts := k.tasks[c := k.tasks[c].(state := Blocked, wakeTime := ms)];
              l.counter == k.counter && l.running &&
              if a.queues[p] == [] then
                l.current == c && l.tasks == ts && forall r: nat :: r <= 2 ==> Held(l, r, a.queues[r])
              else
                var h := a.queues[p][0];
                && l.current == h && l.tasks == (if mark then ts[h := ts[h].(state := Running)] else ts)
                && forall r: nat :: r <= 2 ==> Held(l, r, if r == p then a.queues[r][1..] else a.queues[r])
  {
    SleepRefines(k, a, ms, mark);
    var p := k.tasks[k.current].priority;
    assert Held(k, p, a.queues[p]);
  }

  /** sched_start runs the head of the list of the highest priority that has one. */
  lemma StartRuns(k: Kernel, a: Abs, p: nat, mark: bool)
    requires Rel(k, a) && Inv(a) && p <= 2 && a.queues[p] != [] && forall r: nat :: p < r <= 2 ==> a.queues[r] == []
    ensures Started(k, Step(k, EStart, mark), a.queues, p)
  {
    StartedAt(k, a, p, Step(k, EStart, mark));
  }

  lemma StartedAt(k: Kernel, a: Abs, p: nat, l: Kernel)
    requires Rel(k, a) && Inv(a) && l == Start(k)
    requires p <= 2 && a.queues[p] != [] && forall r: nat :: p < r <= 2 ==> a.queues[r] == []
    ensures Started(k, l, a.queues, p)
  {
    StartRefines(k, a);
    StartedBy(k, a, p, l);
  }

  ghost predicate Started(k: Kernel, l: Kernel, qs: seq<seq<nat>>, p: nat)
    requires Shape(k) && Shape(l) && |qs| == 3 && p <= 2 && qs[p] != []
  {
    var h := qs[p][0];
    && l.running && l.current == h && l.counter == k.counter
    && h < 64 && l.tasks == k.tasks[h := k.tasks[h].(state := Running)]
    && forall r: nat :: r <= 2 ==> Held(l, r, if r == p then qs[r][1..] else qs[r])
  }

  lemma StartedBy(k: Kernel, a: Abs, p: nat, l: Kernel)
    requires Rel(k, a) && Inv(a) && Rel(l, AStart(a))
    requires p <= 2 && a.queues[p] != [] && forall r: nat :: p < r <= 2 ==> a.queues[r] == []
    ensures Started(k, l, a.queues, p)
  {
    StartTakes(a, p);
    PopHeld(l, AStart(a), a.queues, p);
  }

  lemma PopHeld(l: Kernel, b: Abs, qs: seq<seq<nat>>, p: nat)
    requires Rel(l, b) && |qs| == 3 && p <= 2 && qs[p] != [] && b.queues == qs[p := qs[p][1..]]
    ensures forall r: nat :: r <= 2 ==> Held(l, r, if r == p then qs[r][1..] else qs[r])
  {
    RelHeld(l, b);
  }

  lemma PushHeld(l: Kernel, b: Abs, qs: seq<seq<nat>>, p: nat, s: nat)
    requires Rel(l, b) && |qs| == 3 && p <= 2 && b.queues == qs[p := qs[p] + [s]]
    ensures forall r: nat :: r <= 2 ==> Held(l, r, if r == p then qs[r] + [s] else qs[r])
  {
    RelHeld(l, b);
  }

  lemma StartTakes(a: Abs, p: nat)
    requires Inv(a) && p <= 2 && a.queues[p] != [] && forall r: nat :: p < r <= 2 ==> a.queues[r] == []
    ensures var h := a.queues[p][0];
            AStart(a) == a.(running := true, current := h, queues := a.queues[p := a.queues[p][1..]],
                            tasks := a.tasks[h := a.tasks[h].(state := Running)])
  {
    assert AHighest(a) == p;
  }

  lemma RelHeld(k: Kernel, a: Abs)
    requires Rel(k, a)
    ensures forall r: nat :: r <= 2 ==> Held(k, r, a.queues[r])
  {
  }

  lemma StartIdle(k: Kernel, a: Abs, mark: bool)
    requires Rel(k, a) && forall r: nat :: r <= 2 ==> a.queues[r] == []
    ensures Step(k, EStart, mark) == k
  {
    assert forall r: nat :: r <= 2 ==> Held(k, r, a.queues[r]);
  }

  // ----- sched_tick -----

  /** A tick counts down every sleeper, and makes READY and lists, after those already
      there, the ones whose count was 1. */
  lemma TickCounts(k: Kernel, a: Abs, s: nat)
    requires Rel(k, a) && Inv(a) && 1 <= s < 64
    ensures var l, t := Tick(k, 64), k.tasks[s];
            && Stays(k, l)
            && l.tasks[s] == (if t.state != Blocked || t.wakeTime == 0 then t
                              else if t.wakeTime == 1 then t.(state := Ready, wakeTime := 0)
                              else t.(wakeTime := t.wakeTime - 1))
            && (OnList(l, t.priority, s) <==> OnList(k, t.priority, s) || (t.state == Blocked && t.wakeTime == 1))
  {
    var p := k.tasks[s].priority;
    TickRefines(k, a, TASK_MAX);
    OnListIff(k, a, p, s);
    OnListIff(Tick(k, TASK_MAX), ATick(a, TASK_MAX), p, s);
    var w := Woken(a.tasks, p, TASK_MAX);
    assert ATick(a, TASK_MAX).queues[p] == a.queues[p] + w;
    assert s in w <==> Due(a.tasks[s]);
  }

  /** The lists after a tick: what was there, then sleepers of that priority by slot. */
  lemma TickAppends(k: Kernel, a: Abs, p: nat) returns (w: seq<nat>)
    requires Rel(k, a) && Inv(a) && p <= 2
    ensures Held(Tick(k, 64), p, a.queues[p] + w)
    ensures forall i, j :: 0 <= i < j < |w| ==> w[i] < w[j]
    ensures forall s: nat :: s in w <==> 1 <= s < 64 && k.tasks[s].state == Blocked && k.tasks[s].wakeTime == 1 && k.tasks[s].priority == p
  {
    TickRefines(k, a, TASK_MAX);
    w := WokenSlots(a.tasks, p);
    TickHeld(Tick(k, TASK_MAX), a, p, w);
  }

  lemma TickHeld(l: Kernel, a: Abs, p: nat, w: seq<nat>)
    requires Sized(a) && Rel(l, ATick(a, TASK_MAX)) && p <= 2 && w == Woken(a.tasks, p, TASK_MAX)
    ensures Held(l, p, a.queues[p] + w)
  {
    assert ATick(a, TASK_MAX).queues[p] == a.queues[p] + w;
  }

  lemma WokenSlots(ts: seq<Task>, p: nat) returns (w: seq<nat>)
    requires |ts| == TASK_MAX
    ensures w == Woken(ts, p, TASK_MAX)
    ensures forall i, j :: 0 <= i < j < |w| ==> w[i] < w[j]
    ensures forall s: nat :: s in w <==> 1 <= s < 64 && ts[s].state == Blocked && ts[s].wakeTime == 1 && ts[s].priority == p
  {
    w := Woken(ts, p, TASK_MAX);
  }

  // ----- sched_init -----

  /** At boot no slot holds a task, every list is empty, ids start at 1 and nothing runs. */
  lemma BootIs()
    ensures var k := Boot();
            && |k.tasks| == 64 && (forall i :: 0 <= i < 64 ==> k.tasks[i] == Task(0, Empty, 0, 1))
            && (forall p: nat :: p <= 2 ==> Held(k, p, []))
            && k.current == 0 && k.counter == 1 && !k.running
  {
  }
}
