/** The endpoints of kernel/src/ipc.c as a machine on values: one-place mailboxes. */
module Mailboxes {
  import opened Bytes

  const MAX_ENDPOINTS := 64

  datatype Message = Message(sender: nat, kind: nat, arg0: nat, arg1: nat, arg2: nat, payload: seq<Byte>)

  datatype Option<T> = None | Some(value: T)

  datatype Endpoint = Endpoint(used: bool, pending: Message, hasPending: bool)

  /** The pointers the source checks for NULL are absent or present. */
  datatype Call =
    | Create(hasOut: bool)
    | Send(to: nat, msg: Option<Message>)
    | Recv(on: nat, hasOut: bool)

  datatype Result = Error(code: int) | Created(id: nat) | Sent | Received(msg: Message)

  type Table = t: seq<Endpoint> | |t| == MAX_ENDPOINTS
    witness seq(MAX_ENDPOINTS, i => Endpoint(false, Message(0, 0, 0, 0, 0, []), false))

  function FirstUnused(t: Table, i: nat): (r: nat)
    requires i <= MAX_ENDPOINTS
    ensures i <= r <= MAX_ENDPOINTS && (forall j :: i <= j < r ==> t[j].used) && (r < MAX_ENDPOINTS ==> !t[r].used)
    decreases MAX_ENDPOINTS - i, t
  {
    if i == MAX_ENDPOINTS || !t[i].used then i else FirstUnused(t, i + 1)
  }

  function Step(t: Table, c: Call): (Table, Result) {
    match c
    case Create(hasOut) =>
      if !hasOut then (t, Error(-1)) else
      var i := FirstUnused(t, 0);
      if i == MAX_ENDPOINTS then (t, Error(-1))
      else (t[i := t[i].(used := true, hasPending := false)], Created(i))
    case Send(to, msg) =>
      if msg.None? || to >= MAX_ENDPOINTS || !t[to].used then (t, Error(-1))
      else if t[to].hasPending then (t, Error(-2))
      else (t[to := t[to].(pending := msg.value, hasPending := true)], Sent)
    case Recv(on, hasOut) =>
      if !hasOut || on >= MAX_ENDPOINTS || !t[on].used then (t, Error(-1))
      else if !t[on].hasPending then (t, Error(-2))
      else (t[on := t[on].(hasPending := false)], Received(t[on].pending))
  }

  /** A table after ipc_init: the messages left in it do not matter. */
  predicate Fresh(t: Table) {
    forall i :: 0 <= i < MAX_ENDPOINTS ==> !t[i].used && !t[i].hasPending
  }

  function After(t: Table, cs: seq<Call>): Table {
    if cs == [] then t else Step(After(t, cs[..|cs| - 1]), cs[|cs| - 1]).0
  }

  // ----- the history of one endpoint -----

  function SentNow(t: Table, c: Call, ep: nat): seq<Message> {
    if c.Send? && c.to == ep && Step(t, c).1.Sent? then [c.msg.value] else []
  }

  function ReceivedNow(t: Table, c: Call, ep: nat): seq<Message> {
    if c.Recv? && c.on == ep && Step(t, c).1.Received? then [Step(t, c).1.msg] else []
  }

  function SentTo(t: Table, cs: seq<Call>, ep: nat): seq<Message> {
    if cs == [] then [] else
    SentTo(t, cs[..|cs| - 1], ep) + SentNow(After(t, cs[..|cs| - 1]), cs[|cs| - 1], ep)
  }

  function ReceivedFrom(t: Table, cs: seq<Call>, ep: nat): seq<Message> {
    if cs == [] then [] else
    ReceivedFrom(t, cs[..|cs| - 1], ep) + ReceivedNow(After(t, cs[..|cs| - 1]), cs[|cs| - 1], ep)
  }

  /** The at most one message waiting at an endpoint. */
  function Waiting(t: Table, ep: nat): (q: seq<Message>)
    requires ep < MAX_ENDPOINTS
    ensures |q| <= 1
  {
    if t[ep].hasPending then [t[ep].pending] else []
  }

  /** Only endpoints in use have a message waiting. */
  predicate Sound(t: Table) {
    forall i :: 0 <= i < MAX_ENDPOINTS && t[i].hasPending ==> t[i].used
  }

  lemma StepMail(t: Table, c: Call, ep: nat)
    requires Sound(t) && ep < MAX_ENDPOINTS
    ensures Waiting(t, ep) + SentNow(t, c, ep) == ReceivedNow(t, c, ep) + Waiting(Step(t, c).0, ep)
    ensures Sound(Step(t, c).0)
  {
  }

  /** Over every run from a fresh table, what was sent to an endpoint is what was received
      from it and then the message waiting there, if any. */
  lemma {:induction false} RunMail(t: Table, cs: seq<Call>, ep: nat)
    requires Fresh(t) && ep < MAX_ENDPOINTS
    ensures SentTo(t, cs, ep) == ReceivedFrom(t, cs, ep) + Waiting(After(t, cs), ep)
    ensures Sound(After(t, cs))
  {
    if cs != [] {
      var ds, c := cs[..|cs| - 1], cs[|cs| - 1];
      RunMail(t, ds, ep);
      var now := After(t, ds);
      StepMail(now, c, ep);
      MailNext(ReceivedFrom(t, ds, ep), Waiting(now, ep), SentNow(now, c, ep), ReceivedNow(now, c, ep),
               Waiting(After(t, cs), ep));
    }
  }

  lemma MailNext(done: seq<Message>, w: seq<Message>, s: seq<Message>, r: seq<Message>, n: seq<Message>)
    requires w + s == r + n
    ensures done + w + s == done + r + n
  {
    assert done + w + s == done + (w + s);
    assert done + r + n == done + (r + n);
  }

  /** The endpoint a call is about; a create is about the one it hands out. */
  predicate About(t: Table, c: Call, ep: nat) {
    match c
    case Create(_) => FirstUnused(t, 0) == ep
    case Send(to, _) => to == ep
    case Recv(on, _) => on == ep
  }

  /** A call about another endpoint changes nothing at this one. */
  lemma Independent(t: Table, c: Call, ep: nat)
    requires ep < MAX_ENDPOINTS && !About(t, c, ep)
    ensures Step(t, c).0[ep] == t[ep]
  {
  }

  // ----- the ids -----

  function Creations(t: Table, cs: seq<Call>): seq<nat> {
    if cs == [] then [] else
    var r := Step(After(t, cs[..|cs| - 1]), cs[|cs| - 1]).1;
    Creations(t, cs[..|cs| - 1]) + if r.Created? then [r.id] else []
  }

  /** The endpoints in use are the first `n`. */
  predicate InUse(t: Table, n: nat) {
    n <= MAX_ENDPOINTS && forall i :: 0 <= i < MAX_ENDPOINTS ==> (t[i].used <==> i < n)
  }

  lemma StepInUse(t: Table, c: Call, n: nat)
    requires InUse(t, n)
    ensures var (u, r) := Step(t, c);
            if c.Create? && c.hasOut && n < MAX_ENDPOINTS then r == Created(n) && InUse(u, n + 1)
            else !r.Created? && InUse(u, n)
  {
    var f := FirstUnused(t, 0);
    assert n < MAX_ENDPOINTS ==> !t[n].used;
    assert f < MAX_ENDPOINTS ==> !t[f].used;
  }

  /** The ids handed out over a run are 0, 1, 2 and so on, at most 64 of them, and while
      there are fewer a create with somewhere to put the id succeeds. */
  lemma {:induction false} RunIds(t: Table, cs: seq<Call>)
    requires Fresh(t)
    ensures InUse(After(t, cs), |Creations(t, cs)|)
    ensures forall k :: 0 <= k < |Creations(t, cs)| ==> Creations(t, cs)[k] == k
  {
    if cs != [] {
      var ds := cs[..|cs| - 1];
      RunIds(t, ds);
      StepInUse(After(t, ds), cs[|cs| - 1], |Creations(t, ds)|);
    }
  }

  lemma NextCreate(t: Table, cs: seq<Call>)
    requires Fresh(t)
    ensures var n := |Creations(t, cs)|;
            n <= 64 && Step(After(t, cs), Create(true)).1 == if n < 64 then Created(n) else Error(-1)
  {
    RunIds(t, cs);
    StepInUse(After(t, cs), Create(true), |Creations(t, cs)|);
  }

  // ----- when a call succeeds, by the logs alone -----

  /** After any run a send to an endpoint that was created is taken exactly when everything
      sent there has been received; otherwise it is told that a message is waiting. */
  lemma SendAnswers(t: Table, cs: seq<Call>, ep: nat, m: Message)
    requires Fresh(t) && ep < |Creations(t, cs)|
    ensures Step(After(t, cs), Send(ep, Some(m))).1 ==
            if |SentTo(t, cs, ep)| == |ReceivedFrom(t, cs, ep)| then Sent else Error(-2)
  {
    RunIds(t, cs);
    RunMail(t, cs, ep);
  }

  /** A receive gives the first message not received yet, exactly when there is one. */
  lemma RecvAnswers(t: Table, cs: seq<Call>, ep: nat)
    requires Fresh(t) && ep < |Creations(t, cs)|
    ensures |SentTo(t, cs, ep)| == |ReceivedFrom(t, cs, ep)| || |SentTo(t, cs, ep)| == |ReceivedFrom(t, cs, ep)| + 1
    ensures Step(After(t, cs), Recv(ep, true)).1 ==
            if |SentTo(t, cs, ep)| == |ReceivedFrom(t, cs, ep)| + 1 then Received(SentTo(t, cs, ep)[|ReceivedFrom(t, cs, ep)|])
            else Error(-2)
  {
    RunIds(t, cs);
    RunMail(t, cs, ep);
  }

  /** An endpoint that was not created, or a NULL pointer, is answered -1 and nothing changes. */
  lemma BadCalls(t: Table, cs: seq<Call>, ep: nat, msg: Option<Message>, hasOut: bool)
    requires Fresh(t)
    ensures ep >= |Creations(t, cs)| || msg.None? ==> Step(After(t, cs), Send(ep, msg)) == (After(t, cs), Error(-1))
    ensures ep >= |Creations(t, cs)| || !hasOut ==> Step(After(t, cs), Recv(ep, hasOut)) == (After(t, cs), Error(-1))
    ensures Step(After(t, cs), Create(false)) == (After(t, cs), Error(-1))
  {
    RunIds(t, cs);
  }

  /** A message sent is what the next receive gives, whatever goes on at other endpoints. */
  lemma SendThenRecv(t: Table, cs: seq<Call>, ds: seq<Call>, ep: nat, m: Message)
    requires Fresh(t) && ep < |Creations(t, cs)|
    requires |SentTo(t, cs, ep)| == |ReceivedFrom(t, cs, ep)|
    requires forall i :: 0 <= i < |ds| ==> match ds[i] case Create(_) => true case Send(to, _) => to != ep case Recv(on, _) => on != ep
    ensures Step(After(t, cs + [Send(ep, Some(m))] + ds), Recv(ep, true)).1 == Received(m)
  {
    RunIds(t, cs);
    RunMail(t, cs, ep);
    var sent := cs + [Send(ep, Some(m))];
    assert sent[..|sent| - 1] == cs;
    Undisturbed(t, sent, ds, ep);
  }

  /** An endpoint in use keeps its message through calls about others. */
  lemma {:induction false} Undisturbed(t: Table, cs: seq<Call>, ds: seq<Call>, ep: nat)
    requires ep < MAX_ENDPOINTS && After(t, cs)[ep].used
    requires forall i :: 0 <= i < |ds| ==> match ds[i] case Create(_) => true case Send(to, _) => to != ep case Recv(on, _) => on != ep
    ensures After(t, cs + ds)[ep] == After(t, cs)[ep]
    decreases |ds|
  {
    if ds == [] {
      assert cs + ds == cs;
    } else {
      var n := |ds| - 1;
      Undisturbed(t, cs, ds[..n], ep);
      assert (cs + ds)[..|cs + ds| - 1] == cs + ds[..n];
      Independent(After(t, cs + ds[..n]), ds[n], ep);
    }
  }
}
