/** The linked ready queues refine plain sequences: from a linked state that
    represents (tasks, queues), every kernel call leads to a linked state that
    represents what the same call does on sequences, and keeps the invariant. */
module SchedRefine {
  import opened IntrusiveList
  import opened Sched
  import opened SchedQueues
  import opened SchedInvariant

  /** The linked state `k` represents the sequence state `a`. */
  ghost predicate Rel(k: Kernel, a: Abs) {
    && Shape(k)
    && k.tasks == a.tasks && k.current == a.current && k.counter == a.counter && k.running == a.running
    && Lists(k, a.queues)
  }

  ghost predicate Lists(k: Kernel, qs: seq<seq<nat>>)
    requires Shape(k)
  {
    && |qs| == PRIORITY_MAX + 1
    && forall p :: 0 <= p <= PRIORITY_MAX ==> IsList(k.next, k.head[p], k.tail[p], qs[p])
  }

  lemma LinkLists(k: Kernel, qs: seq<seq<nat>>, p: nat, s: nat)
    requires Shape(k) && Lists(k, qs) && Apart(qs) && Absent(qs, s)
    requires p <= PRIORITY_MAX && 1 <= s < TASK_MAX
    ensures Lists(Link(k.(next := k.next[s := 0]), p, s), qs[p := qs[p] + [s]])
    ensures var l := Link(k, p, s); Lists(l.(next := l.next[s := 0]), qs[p := qs[p] + [s]])
  {
    var l := Link(k.(next := k.next[s := 0]), p, s);
    var m := Link(k, p, s);
    ListAppend(k.next, k.head[p], k.tail[p], qs[p], s);
    assert l.next == m.next[s := 0] by {
      assert qs[p] != [] ==> k.tail[p] in qs[p];
    }
    forall r | 0 <= r <= PRIORITY_MAX && r != p
      ensures IsList(l.next, l.head[r], l.tail[r], qs[r])
    {
      forall i | 0 <= i < |qs[r]| ensures l.next[qs[r][i]] == k.next[qs[r][i]] {
        assert qs[p] != [] ==> qs[p][|qs[p]| - 1] != qs[r][i];
        assert qs[r][i] in qs[r];
      }
      ListFrame(k.next, l.next, k.head[r], k.tail[r], qs[r]);
    }
    if qs[p] == [] {
      assert qs[p] + [s] == [s];
    }
  }

  lemma DispatchLists(k: Kernel, qs: seq<seq<nat>>, p: nat)
    requires Shape(k) && Lists(k, qs)
    requires p <= PRIORITY_MAX && qs[p] != []
    ensures Lists(Dispatch(k, p), qs[p := qs[p][1..]])
    ensures Dispatch(k, p).current == qs[p][0]
  {
    ListPop(k.next, k.head[p], k.tail[p], qs[p]);
  }

  lemma LinkRel(k: Kernel, a: Abs, p: nat, s: nat)
    requires Rel(k, a) && Apart(a.queues) && Absent(a.queues, s)
    requires p <= PRIORITY_MAX && 1 <= s < TASK_MAX
    ensures Rel(Link(k.(next := k.next[s := 0]), p, s), Enqueue(a, p, s))
    ensures var l := Link(k, p, s); Rel(l.(next := l.next[s := 0]), Enqueue(a, p, s))
  {
    LinkLists(k, a.queues, p, s);
  }

  lemma DispatchRel(k: Kernel, a: Abs, p: nat)
    requires Rel(k, a) && Sized(a)
    requires p <= PRIORITY_MAX && a.queues[p] != []
    ensures a.queues[p][0] < TASK_MAX && Rel(Dispatch(k, p), ADispatch(a, p))
  {
    DispatchLists(k, a.queues, p);
  }

  // ----- one lemma a kernel call -----

  lemma CreateRefines(k: Kernel, a: Abs, hasEntry: bool, priority: nat)
    requires Rel(k, a) && Inv(a)
    ensures Rel(Create(k, hasEntry, priority), ACreate(a, hasEntry, priority))
  {
    var s := First(a.tasks, IsEmpty, 1);
    if hasEntry && s < TASK_MAX {
      var p := Clamp(priority);
      var t := Task(a.counter, Ready, 0, p);
      NotReadyAbsent(a, s);
      WfApart(a);
      LinkRel(k.(tasks := k.tasks[s := t], counter := k.counter + 1),
              a.(tasks := a.tasks[s := t], counter := a.counter + 1), p, s);
    }
  }

  lemma WakeRefines(k: Kernel, a: Abs, id: nat)
    requires Rel(k, a) && Wf(a)
    ensures Rel(Wake(k, id), AWake(a, id))
  {
    var s := First(a.tasks, IsBlocked(id), 1);
    if s < TASK_MAX {
      var t := a.tasks[s].(state := Ready, wakeTime := 0);
      NotReadyAbsent(a, s);
      WfApart(a);
      LinkRel(k.(tasks := k.tasks[s := t]), a.(tasks := a.tasks[s := t]), t.priority, s);
    }
  }

  lemma StartRefines(k: Kernel, a: Abs)
    requires Rel(k, a) && Inv(a)
    ensures Rel(Start(k), AStart(a))
  {
    var p := AHighest(a);
    assert p == Highest(k.head, PRIORITY_MAX) by {
      assert forall r :: 0 <= r <= PRIORITY_MAX ==> (k.head[r] == 0 <==> a.queues[r] == []);
    }
    if p >= 0 {
      DispatchRel(k.(running := true), a.(running := true), p);
    }
  }

  lemma SleepRefines(k: Kernel, a: Abs, ms: nat, mark: bool)
    requires Rel(k, a) && Inv(a)
    ensures Rel(Sleep(k, ms, mark), ASleep(a, ms, mark))
  {
    if a.running && a.current != 0 {
      var u := a.tasks[a.current].(state := Blocked, wakeTime := ms);
      if a.queues[u.priority] != [] {
        DispatchRel(k.(tasks := k.tasks[k.current := u]), a.(tasks := a.tasks[a.current := u]), u.priority);
      }
    }
  }

  lemma RequeueRefines(k: Kernel, a: Abs, p: nat, prev: nat)
    requires Rel(k, a) && Inv(a) && p <= PRIORITY_MAX
    requires 1 <= prev < TASK_MAX && a.tasks[prev].state == Running
    ensures Rel(Link(SetState(k, prev, Ready).(next := k.next[prev := 0]), p, prev),
                Enqueue(a.(tasks := a.tasks[prev := a.tasks[prev].(state := Ready)]), p, prev))
  {
    var t := a.tasks[prev].(state := Ready);
    NotReadyAbsent(a, prev);
    WfApart(a);
    LinkRel(k.(tasks := k.tasks[prev := t]), a.(tasks := a.tasks[prev := t]), p, prev);
  }

  /** The yield, also right after a tick that queued the current task. */
  lemma YieldRefines(k: Kernel, a: Abs, mark: bool)
    requires Rel(k, a) && Wf(a)
    ensures Rel(Yield(k, mark), AYield(a, mark))
  {
    var prev := a.current;
    var p := a.tasks[prev].priority;
    if Switches(a) {
      DispatchRel(k, a, p);
      if a.tasks[prev].state == Running {
        var a1 := ADispatch(a, p);
        DispatchInv(a, p, false);
        assert a.(running := true) == a && AMark(a1, false) == a1;
        RequeueRefines(Dispatch(k, p), a1, p, prev);
      }
    }
  }
}
