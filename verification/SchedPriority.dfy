/** task_set_priority: exactly when it keeps the ready queues intact. */
module SchedPriority {
  import opened IntrusiveList
  import opened Sched
  import opened SchedQueues
  import opened SchedInvariant
  import opened SchedRefine

  /** What a caller can check before the call. Nothing to do is harmless. A queued
      task must be the head of its queue, or the first slot that links to it (the one
      the scan finds) must itself be queued rather than hold a stale link. A task that
      is not queued must be READY and not the current one. */
  ghost predicate PriorityGuard(k: Kernel, a: Abs, id: nat, priority: nat)
    requires Shape(k) && Sized(a)
  {
    var s := First(k.tasks, HasId(id), 1);
    || s == TASK_MAX
    || k.tasks[s].priority == Clamp(priority)
    || if Queued(a, s) then k.head[k.tasks[s].priority] == s || Queued(a, FirstLink(k.next, s, 1))
       else k.tasks[s].state == Ready && s != k.current
  }

  /** A queued slot that links to `s` is the one before `s` in its queue. */
  lemma QueuedPredecessor(k: Kernel, a: Abs, j: nat, s: nat) returns (p: nat, m: nat)
    requires Rel(k, a) && Queued(a, j) && k.next[j] == s && s != 0
    ensures p <= PRIORITY_MAX && 0 < m < |a.queues[p]| && a.queues[p][m - 1] == j && a.queues[p][m] == s
  {
    p :| 0 <= p < |a.queues| && j in a.queues[p];
    var i :| 0 <= i < |a.queues[p]| && a.queues[p][i] == j;
    m := i + 1;
  }

  /** Removing the head, or unlinking a slot through its queued predecessor. */
  lemma UnlinkOwn(k: Kernel, a: Abs, p: nat, m: nat)
    requires Rel(k, a) && Inv(a) && p <= PRIORITY_MAX && m < |a.queues[p]|
    requires m > 0 ==> FirstLink(k.next, a.queues[p][m], 1) == a.queues[p][m - 1]
    ensures var k' := Unlink(k, p, a.queues[p][m]);
            IsList(k'.next, k'.head[p], k'.tail[p], Without(a.queues[p], a.queues[p][m]))
  {
    var q := a.queues[p];
    assert QueueOk(a.tasks, q, p);
    WithoutAt(q, m);
    if m == 0 {
      ListPop(k.next, k.head[p], k.tail[p], q);
      assert q[..0] + q[1..] == q[1..];
    } else {
      ListUnlink(k.next, k.head[p], k.tail[p], q, m);
    }
  }

  lemma ScanFindsPredecessor(k: Kernel, a: Abs, p: nat, m: nat)
    requires Rel(k, a) && Apart(a.queues) && p <= PRIORITY_MAX && m < |a.queues[p]|
    requires Queued(a, FirstLink(k.next, a.queues[p][m], 1))
    ensures m > 0 && FirstLink(k.next, a.queues[p][m], 1) == a.queues[p][m - 1]
  {
    var o, i := QueuedPredecessor(k, a, FirstLink(k.next, a.queues[p][m], 1), a.queues[p][m]);
    assert o == p && i == m;
  }

  lemma UnlinkOthers(k: Kernel, a: Abs, p: nat, m: nat, r: nat)
    requires Rel(k, a) && Apart(a.queues) && p <= PRIORITY_MAX && m < |a.queues[p]|
    requires m > 0 ==> FirstLink(k.next, a.queues[p][m], 1) == a.queues[p][m - 1]
    requires r <= PRIORITY_MAX && r != p
    ensures var k' := Unlink(k, p, a.queues[p][m]); IsList(k'.next, k'.head[r], k'.tail[r], a.queues[r])
  {
    var k' := Unlink(k, p, a.queues[p][m]);
    ListFrame(k.next, k'.next, k.head[r], k.tail[r], a.queues[r]);
  }

  /** The unlinking of a queued task, at the head, in the middle or at the tail. */
  lemma UnlinkQueued(k: Kernel, a: Abs, p: nat, m: nat)
    requires Rel(k, a) && Inv(a) && p <= PRIORITY_MAX && m < |a.queues[p]|
    requires k.head[p] == a.queues[p][m] || Queued(a, FirstLink(k.next, a.queues[p][m], 1))
    ensures Rel(Unlink(k, p, a.queues[p][m]), Removed(a, p, a.queues[p][m]))
  {
    WfApart(a);
    if k.head[p] != a.queues[p][m] {
      ScanFindsPredecessor(k, a, p, m);
    }
    UnlinkOwn(k, a, p, m);
    var k' := Unlink(k, p, a.queues[p][m]);
    forall r | 0 <= r <= PRIORITY_MAX && r != p
      ensures IsList(k'.next, k'.head[r], k'.tail[r], a.queues[r])
    {
      UnlinkOthers(k, a, p, m, r);
    }
  }

  lemma LinkerUnqueued(k: Kernel, a: Abs, j: nat, s: nat)
    requires Rel(k, a) && j < TASK_MAX && k.next[j] == s && s != 0 && Absent(a.queues, s)
    ensures Absent(a.queues, j)
  {
    if Queued(a, j) {
      var o, i := QueuedPredecessor(k, a, j, s);
    }
  }

  /** On a task that is not queued the scan can only patch a stale link. */
  lemma UnlinkUnqueued(k: Kernel, a: Abs, p: nat, s: nat)
    requires Rel(k, a) && Inv(a) && p <= PRIORITY_MAX && 1 <= s < TASK_MAX && Absent(a.queues, s)
    ensures Rel(Unlink(k, p, s), Removed(a, p, s))
  {
    WithoutAbsent(a.queues[p], s);
    var k' := Unlink(k, p, s);
    var j := FirstLink(k.next, s, 1);
    assert k.head[p] != s && k.tail[p] != s;
    if j < TASK_MAX {
      LinkerUnqueued(k, a, j, s);
    }
    forall r | 0 <= r <= PRIORITY_MAX
      ensures IsList(k'.next, k'.head[r], k'.tail[r], a.queues[r])
    {
      forall i | 0 <= i < |a.queues[r]| ensures a.queues[r][i] != j {
        assert a.queues[r][i] in a.queues[r];
      }
      ListFrame(k.next, k'.next, k.head[r], k.tail[r], a.queues[r]);
    }
  }

  lemma UnlinkRefines(k: Kernel, a: Abs, s: nat)
    requires Rel(k, a) && Inv(a) && 1 <= s < TASK_MAX
    requires if Queued(a, s) then k.head[k.tasks[s].priority] == s || Queued(a, FirstLink(k.next, s, 1))
             else k.tasks[s].state == Ready && s != k.current
    ensures var p := k.tasks[s].priority;
            Rel(Unlink(k, p, s), Removed(a, p, s)) && Inv(Removed(a, p, s)) && Absent(Removed(a, p, s).queues, s)
    ensures k.tasks[s].state == Ready && s != k.current
  {
    var p := a.tasks[s].priority;
    OnlyIn(a, s);
    RemovedInv(a, p, s);
    if Queued(a, s) {
      QueuedPriority(a, s);
      var m :| 0 <= m < |a.queues[p]| && a.queues[p][m] == s;
      UnlinkQueued(k, a, p, m);
    } else {
      UnlinkUnqueued(k, a, p, s);
    }
  }

  /** The task leaves its queue, the rest in order, and joins the new queue at its tail. */
  lemma SetPriorityRefines(k: Kernel, a: Abs, id: nat, priority: nat)
    requires Rel(k, a) && Inv(a) && PriorityGuard(k, a, id, priority)
    ensures Rel(SetPriority(k, id, priority), ASetPriority(a, id, priority))
  {
    var p := Clamp(priority);
    var s := First(a.tasks, HasId(id), 1);
    if s < TASK_MAX && a.tasks[s].priority != p {
      var from := a.tasks[s].priority;
      UnlinkRefines(k, a, s);
      var a1 := Removed(a, from, s);
      var k1 := Unlink(k, from, s);
      var t := a.tasks[s].(priority := p);
      WfApart(a1);
      LinkRel(k1.(tasks := k1.tasks[s := t]), a1.(tasks := a1.tasks[s := t]), p, s);
    }
  }

  // ----- the converse: a call outside the guard leaves no valid queues -----

  /** The links up to the predecessor of a queued slot are untouched when the scan
      patches a stale link, so the slot stays on its old list. */
  lemma {:induction false} PrefixForced(k: Kernel, k': Kernel, q: seq<nat>, r: seq<nat>, p: nat, m: nat)
    requires Shape(k) && Shape(k') && p <= PRIORITY_MAX && m < |q|
    requires IsList(k.next, k.head[p], k.tail[p], q) && IsList(k'.next, k'.head[p], k'.tail[p], r)
    requires k'.head[p] == k.head[p]
    requires forall i :: 0 <= i < m ==> k'.next[q[i]] == k.next[q[i]]
    ensures m < |r| && r[m] == q[m]
  {
    if m > 0 {
      PrefixForced(k, k', q, r, p, m - 1);
      assert k.next[q[m - 1]] == q[m];
    }
  }

  /** Whatever the scan did, the slot ends as the tail of its new queue. */
  lemma EndsAtTail(k: Kernel, id: nat, priority: nat, b: Abs)
    requires Shape(k) && Rel(SetPriority(k, id, priority), b)
    requires var s := First(k.tasks, HasId(id), 1); s < TASK_MAX && k.tasks[s].priority != Clamp(priority)
    ensures var s := First(k.tasks, HasId(id), 1);
            && s in b.queues[Clamp(priority)]
            && b.tasks[s] == k.tasks[s].(priority := Clamp(priority)) && b.current == k.current
  {
    var k' := SetPriority(k, id, priority);
    var p := Clamp(priority);
    assert k'.tail[p] == First(k.tasks, HasId(id), 1);
    assert IsList(k'.next, k'.head[p], k'.tail[p], b.queues[p]);
  }

  /** Off the head, the call writes only the links of the slot, of the slot the scan
      found and of the new queue's tail; the old head stays. */
  lemma SetPriorityFrame(k: Kernel, id: nat, priority: nat, x: nat)
    requires Shape(k)
    requires var s := First(k.tasks, HasId(id), 1); s < TASK_MAX && k.tasks[s].priority != Clamp(priority)
    requires var s := First(k.tasks, HasId(id), 1); k.head[k.tasks[s].priority] != s
    requires var s := First(k.tasks, HasId(id), 1); x < TASK_MAX && x != s && x != FirstLink(k.next, s, 1)
    requires k.head[Clamp(priority)] != 0 ==> x != k.tail[Clamp(priority)]
    ensures SetPriority(k, id, priority).next[x] == k.next[x]
  {
  }

  lemma StaysOnOldList(k: Kernel, a: Abs, id: nat, priority: nat, b: Abs)
    requires Rel(k, a) && Inv(a) && !PriorityGuard(k, a, id, priority)
    requires Rel(SetPriority(k, id, priority), b)
    requires Queued(a, First(k.tasks, HasId(id), 1))
    ensures var s := First(k.tasks, HasId(id), 1); s in b.queues[k.tasks[s].priority]
  {
    var s := First(k.tasks, HasId(id), 1);
    var from := k.tasks[s].priority;
    var k' := SetPriority(k, id, priority);
    QueuedPriority(a, s);
    var q := a.queues[from];
    var m :| 0 <= m < |q| && q[m] == s;
    forall i | 0 <= i < m ensures k'.next[q[i]] == k.next[q[i]] {
      PrefixUntouched(k, a, from, m, Clamp(priority), i);
      SetPriorityFrame(k, id, priority, q[i]);
    }
    assert k'.head[from] == k.head[from];
    PrefixForced(k, k', q, b.queues[from], from, m);
  }

  /** Outside the guard, no queues that satisfy the invariant describe the result. */
  lemma SetPriorityBreaks(k: Kernel, a: Abs, id: nat, priority: nat, b: Abs)
    requires Rel(k, a) && Inv(a) && !PriorityGuard(k, a, id, priority)
    requires Rel(SetPriority(k, id, priority), b)
    ensures !Inv(b)
  {
    var s := First(k.tasks, HasId(id), 1);
    EndsAtTail(k, id, priority, b);
    if Inv(b) {
      OnlyIn(b, s);
      QueuedPriority(b, s);
      if Queued(a, s) {
        StaysOnOldList(k, a, id, priority, b);
      }
    }
  }

  lemma PrefixUntouched(k: Kernel, a: Abs, from: nat, m: nat, p: nat, i: nat)
    requires Rel(k, a) && Inv(a) && from <= PRIORITY_MAX && p <= PRIORITY_MAX && p != from
    requires i < m < |a.queues[from]|
    requires !Queued(a, FirstLink(k.next, a.queues[from][m], 1))
    ensures var s := a.queues[from][m]; var x := a.queues[from][i];
            && x != s && x != FirstLink(k.next, s, 1)
            && (k.head[p] != 0 ==> x != k.tail[p])
  {
    WfApart(a);
    assert a.queues[from][i] in a.queues[from];
    if a.queues[p] != [] {
      assert a.queues[p][|a.queues[p]| - 1] == k.tail[p];
    }
  }

  /** task_set_priority keeps the queues valid exactly when the guard holds. */
  lemma SetPriorityKeepsInvIff(k: Kernel, a: Abs, id: nat, priority: nat)
    requires Rel(k, a) && Inv(a)
    ensures PriorityGuard(k, a, id, priority) <==> exists b :: Rel(SetPriority(k, id, priority), b) && Inv(b)
  {
    if PriorityGuard(k, a, id, priority) {
      SetPriorityRefines(k, a, id, priority);
      SetPriorityInv(a, id, priority);
    } else if b :| Rel(SetPriority(k, id, priority), b) && Inv(b) {
      SetPriorityBreaks(k, a, id, priority, b);
    }
  }
}
