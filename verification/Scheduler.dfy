/** The scheduler in the form of kernel/src/sched.c and kernel/src/timer.c: static tables
    updated in place. Each method is the step of the same name of module Sched, so the
    run theorems about those steps are about these methods. */
module Scheduler {
  import opened Sched

  class Scheduler {
    const tasks: array<Task>
    const next: array<nat>
    const head: array<nat>
    const tail: array<nat>
    var current: nat
    var counter: nat
    var running: bool
    var ticks: nat

    /** Static storage starts zeroed; the boot code then calls sched_init. */
    constructor ()
      ensures Valid() && fresh(tasks) && fresh(next) && fresh(head) && fresh(tail)
      ensures View() == Boot() && ticks == 0
    {
      tasks := new Task[TASK_MAX](_ => EmptyTask);
      next := new nat[TASK_MAX](_ => 0);
      head := new nat[PRIORITY_MAX + 1](_ => 0);
      tail := new nat[PRIORITY_MAX + 1](_ => 0);
      current, counter, running, ticks := 0, 1, false, 0;
      new;
      assert tasks[..] == Boot().tasks && next[..] == Boot().next && head[..] == Boot().head && tail[..] == Boot().tail;
    }

    ghost function View(): Kernel
      reads this, tasks, next, head, tail
    {
      Kernel(tasks[..], next[..], head[..], tail[..], current, counter, running)
    }

    ghost predicate Valid()
      reads this, tasks, next, head, tail
    {
      next != head && next != tail && head != tail && Shape(View())
    }

    method SchedInit()
      requires Valid()
      modifies this, tasks, head, tail
      ensures Valid() && ticks == old(ticks)
      ensures View() == Kernel(seq(TASK_MAX, i requires 0 <= i < TASK_MAX => EmptyTask.(wakeTime := old(tasks[..])[i].wakeTime)),
                               old(next[..]), [0, 0, 0], [0, 0, 0], 0, 1, false)
    {
      for i := 0 to TASK_MAX
        modifies tasks
        invariant forall j :: 0 <= j < i ==> tasks[j] == EmptyTask.(wakeTime := old(tasks[..])[j].wakeTime)
        invariant forall j :: i <= j < TASK_MAX ==> tasks[j] == old(tasks[..])[j]
      {
        tasks[i] := tasks[i].(id := 0, state := Empty, priority := 1);
      }
      current := 0;
      for p := 0 to PRIORITY_MAX + 1
        modifies head, tail
        invariant next[..] == old(next[..])
        invariant forall o :: 0 <= o < p ==> head[o] == 0 && tail[o] == 0
      {
        head[p] := 0;
        tail[p] := 0;
      }
      assert head[..] == [0, 0, 0] && tail[..] == [0, 0, 0];
      counter := 1;
      running := false;
    }

    /** The statements by which every caller appends to a ready queue. */
    method Append(p: nat, s: nat)
      requires Valid() && p <= PRIORITY_MAX && s < TASK_MAX
      modifies next, head, tail
      ensures Valid() && View() == Link(old(View()), p, s)
    {
      if head[p] == 0 {
        head[p] := s;
        tail[p] := s;
      } else {
        next[tail[p]] := s;
        tail[p] := s;
      }
    }

    /** The statements by which a switch takes the head of a ready queue. */
    method TakeHead(p: nat)
      requires Valid() && p <= PRIORITY_MAX
      modifies this`current, head, tail
      ensures Valid() && View() == Dispatch(old(View()), p)
    {
      current := head[p];
      head[p] := next[head[p]];
      if head[p] == 0 {
        tail[p] := 0;
      }
    }

    method TaskCreatePriority(hasEntry: bool, priority: nat) returns (id: nat)
      requires Valid()
      modifies this, tasks, next, head, tail
      ensures Valid() && View() == Create(old(View()), hasEntry, priority) && ticks == old(ticks)
      ensures id == if old(View()) == View() then 0 else old(counter)
    {
      if !hasEntry {
        return 0;
      }
      var p := if priority > PRIORITY_MAX then PRIORITY_MAX else priority;
      var slot := 1;
      while slot < TASK_MAX && tasks[slot].state != Empty
        invariant 1 <= slot <= TASK_MAX
        invariant First(tasks[..], IsEmpty, 1) == First(tasks[..], IsEmpty, slot)
      {
        slot := slot + 1;
      }
      if slot == TASK_MAX {
        return 0;
      }
      id := counter;
      counter := counter + 1;
      tasks[slot] := Task(id, Ready, 0, p);
      next[slot] := 0;
      Append(p, slot);
    }

    /** task_create: normal priority. */
    method TaskCreate(hasEntry: bool) returns (id: nat)
      requires Valid()
      modifies this, tasks, next, head, tail
      ensures Valid() && View() == Create(old(View()), hasEntry, 1) && ticks == old(ticks)
      ensures id == if old(View()) == View() then 0 else old(counter)
    {
      id := TaskCreatePriority(hasEntry, 1);
    }

    method Remove(p: nat, s: nat)
      requires Valid() && p <= PRIORITY_MAX && s < TASK_MAX
      modifies next, head, tail
      ensures Valid() && View() == Unlink(old(View()), p, s)
    {
      if head[p] == s {
        head[p] := next[s];
        if tail[p] == s {
          tail[p] := 0;
        }
      } else {
        var j := 1;
        while j < TASK_MAX && next[j] != s
          invariant 1 <= j <= TASK_MAX
          invariant FirstLink(next[..], s, 1) == FirstLink(next[..], s, j)
        {
          j := j + 1;
        }
        if j < TASK_MAX {
          next[j] := next[s];
          if tail[p] == s {
            tail[p] := j;
          }
        }
      }
    }

    /** Takes task `s` out of its queue and appends it to that of priority `p`. */
    method Requeue(s: nat, p: nat)
      requires Valid() && s < TASK_MAX && p <= PRIORITY_MAX
      modifies tasks, next, head, tail
      ensures Valid()
      ensures var k1 := Unlink(old(View()), old(tasks[s].priority), s);
              var k2 := Link(k1.(tasks := k1.tasks[s := k1.tasks[s].(priority := p)]), p, s);
              View() == k2.(next := k2.next[s := 0])
    {
      Remove(tasks[s].priority, s);
      tasks[s] := tasks[s].(priority := p);
      Append(p, s);
      next[s] := 0;
    }

    method TaskSetPriority(id: nat, priority: nat)
      requires Valid()
      modifies this, tasks, next, head, tail
      ensures Valid() && View() == SetPriority(old(View()), id, priority) && ticks == old(ticks)
    {
      var p := if priority > PRIORITY_MAX then PRIORITY_MAX else priority;
      var i := 1;
      while i < TASK_MAX && tasks[i].id != id
        invariant 1 <= i <= TASK_MAX
        invariant First(tasks[..], HasId(id), 1) == First(tasks[..], HasId(id), i)
      {
        i := i + 1;
      }
      if i < TASK_MAX && tasks[i].priority != p {
        Requeue(i, p);
      }
    }

    method TaskYield(mark: bool)
      requires Valid()
      modifies this, tasks, next, head, tail
      ensures Valid() && View() == Yield(old(View()), mark) && ticks == old(ticks)
    {
      if !running || current == 0 {
        return;
      }
      var prio := tasks[current].priority;
      if head[prio] == 0 {
        return;
      }
      var prev := current;
      TakeHead(prio);
      if tasks[prev].state == Running {
        tasks[prev] := tasks[prev].(state := Ready);
        next[prev] := 0;
        Append(prio, prev);
      }
      if mark {
        tasks[current] := tasks[current].(state := Running);
      }
    }

    method TaskSleep(ms: nat, mark: bool)
      requires Valid()
      modifies this, tasks, head, tail
      ensures Valid() && View() == Sleep(old(View()), ms, mark) && ticks == old(ticks)
    {
      if !running || current == 0 {
        return;
      }
      var prev := current;
      tasks[prev] := tasks[prev].(state := Blocked, wakeTime := ms);
      if head[tasks[prev].priority] == 0 {
        return;
      }
      TakeHead(tasks[prev].priority);
      if mark {
        tasks[current] := tasks[current].(state := Running);
      }
    }

    method TaskWake(id: nat)
      requires Valid()
      modifies this, tasks, next, head, tail
      ensures Valid() && View() == Wake(old(View()), id) && ticks == old(ticks)
    {
      var i := 1;
      while i < TASK_MAX && !(tasks[i].id == id && tasks[i].state == Blocked)
        invariant 1 <= i <= TASK_MAX
        invariant First(tasks[..], IsBlocked(id), 1) == First(tasks[..], IsBlocked(id), i)
      {
        i := i + 1;
      }
      if i < TASK_MAX {
        tasks[i] := tasks[i].(state := Ready, wakeTime := 0);
        next[i] := 0;
        Append(tasks[i].priority, i);
      }
    }

    method TickOne(i: nat)
      requires Valid() && 1 <= i < TASK_MAX
      modifies this, tasks, next, head, tail
      ensures Valid() && View() == TickSlot(old(View()), i) && ticks == old(ticks)
    {
      if tasks[i].state == Blocked && tasks[i].wakeTime > 0 {
        if tasks[i].wakeTime <= 1 {
          TaskWake(tasks[i].id);
        } else {
          tasks[i] := tasks[i].(wakeTime := tasks[i].wakeTime - 1);
        }
      }
    }

    method SchedTick()
      requires Valid()
      modifies this, tasks, next, head, tail
      ensures Valid() && View() == Tick(old(View()), TASK_MAX) && ticks == old(ticks)
    {
      var i := 1;
      while i < TASK_MAX
        invariant 1 <= i <= TASK_MAX
        invariant Valid() && View() == Tick(old(View()), i) && ticks == old(ticks)
      {
        TickOne(i);
        i := i + 1;
      }
    }

    method TimerHandler(mark: bool)
      requires Valid()
      modifies this, tasks, next, head, tail
      ensures Valid() && View() == Timer(old(View()), mark) && ticks == old(ticks) + 1
    {
      ticks := ticks + 1;
      SchedTick();
      TaskYield(mark);
    }

    method SchedStart()
      requires Valid()
      modifies this, tasks, next, head, tail
      ensures Valid() && View() == Start(old(View())) && ticks == old(ticks)
    {
      var p := PRIORITY_MAX;
      while p >= 0 && head[p] == 0
        invariant -1 <= p <= PRIORITY_MAX
        invariant Highest(head[..], PRIORITY_MAX) == Highest(head[..], p)
      {
        p := p - 1;
      }
      if p == -1 {
        return;
      }
      running := true;
      TakeHead(p);
      tasks[current] := tasks[current].(state := Running);
    }
  }
}
