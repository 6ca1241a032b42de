/** The endpoints in the form of kernel/src/ipc.c, a static table updated by each call. */
module Ipc {
  import opened Mailboxes

  class Ipc {
    const used: array<bool>
    const pending: array<Message>
    const hasPending: array<bool>

    constructor (m: Message)
      ensures Valid() && fresh(used) && fresh(pending) && fresh(hasPending)
    {
      used := new bool[MAX_ENDPOINTS](_ => false);
      pending := new Message[MAX_ENDPOINTS](_ => m);
      hasPending := new bool[MAX_ENDPOINTS](_ => false);
    }

    ghost predicate Valid() {
      used.Length == pending.Length == hasPending.Length == MAX_ENDPOINTS && used != hasPending
    }

    ghost function View(): (t: Table)
      requires Valid()
      reads used, pending, hasPending
      ensures forall i :: 0 <= i < MAX_ENDPOINTS ==> t[i] == Endpoint(used[i], pending[i], hasPending[i])
    {
      seq(MAX_ENDPOINTS, i requires 0 <= i < MAX_ENDPOINTS reads used, pending, hasPending =>
          Endpoint(used[i], pending[i], hasPending[i]))
    }

    method IpcInit()
      requires Valid()
      modifies used, hasPending
      ensures Fresh(View())
    {
      for i := 0 to MAX_ENDPOINTS
        invariant forall j :: 0 <= j < i ==> !used[j] && !hasPending[j]
      {
        used[i] := false;
        hasPending[i] := false;
      }
    }

    method IpcEndpointCreate(hasOut: bool) returns (r: Result)
      requires Valid()
      modifies used, hasPending
      ensures (View(), r) == Step(old(View()), Create(hasOut))
    {
      if !hasOut {
        return Error(-1);
      }
      ghost var t := View();
      for i := 0 to MAX_ENDPOINTS
        invariant View() == t && FirstUnused(t, 0) == FirstUnused(t, i)
      {
        if !used[i] {
          used[i] := true;
          hasPending[i] := false;
          assert View() == t[i := t[i].(used := true, hasPending := false)];
          return Created(i);
        }
      }
      return Error(-1);
    }

    method IpcSend(to: nat, msg: Option<Message>) returns (r: Result)
      requires Valid()
      modifies pending, hasPending
      ensures (View(), r) == Step(old(View()), Send(to, msg))
    {
      if msg.None? || to >= MAX_ENDPOINTS || !used[to] {
        return Error(-1);
      }
      if hasPending[to] {
        return Error(-2);
      }
      ghost var t := View();
      pending[to] := msg.value;
      hasPending[to] := true;
      assert View() == t[to := t[to].(pending := msg.value, hasPending := true)];
      return Sent;
    }

    method IpcRecv(on: nat, hasOut: bool) returns (r: Result)
      requires Valid()
      modifies hasPending
      ensures (View(), r) == Step(old(View()), Recv(on, hasOut))
    {
      if !hasOut || on >= MAX_ENDPOINTS || !used[on] {
        return Error(-1);
      }
      if !hasPending[on] {
        return Error(-2);
      }
      ghost var t := View();
      r := Received(pending[on]);
      hasPending[on] := false;
      assert View() == t[on := t[on].(hasPending := false)];
    }
  }
}
