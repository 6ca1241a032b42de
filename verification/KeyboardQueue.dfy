/** The keyboard driver of kernel/src/keyboard.c as a machine on values: modifier flags, the
    two scancode tables, and the ring of decoded keys. */
module KeyboardQueue {
  import opened Bytes

  const BUFFER_SIZE := 256
  const KEY_NONE := 0
  const KEY_LCTRL := 29
  const KEY_LSHIFT := 42
  const KEY_RSHIFT := 54
  const KEY_LALT := 56
  const KEY_CAPSLOCK := 58

  // ----- the scancode tables, row by row as they are written -----

  function Plain(code: nat): Byte {
    if code < 15 then [0, 0, 49, 50, 51, 52, 53, 54, 55, 56, 57, 48, 45, 61, 8][code]
    else if code < 29 then [9, 113, 119, 101, 114, 116, 121, 117, 105, 111, 112, 91, 93, 10][code - 15]
    else if code < 42 then [0, 97, 115, 100, 102, 103, 104, 106, 107, 108, 59, 39, 96][code - 29]
    else if code < 54 then [0, 92, 122, 120, 99, 118, 98, 110, 109, 44, 46, 47][code - 42]
    else if code < 58 then [0, 42, 0, 32][code - 54]
    else if 77 <= code < 90 then [55, 56, 57, 45, 52, 53, 54, 43, 49, 50, 51, 48, 46][code - 77]
    else 0
  }

  /** The first row of this table is one entry short, so the rest of it sits one early. */
  function Shifted(code: nat): Byte {
    if code < 14 then [0, 0, 33, 64, 35, 36, 37, 94, 38, 42, 40, 41, 95, 43][code]
    else if code < 28 then [9, 81, 87, 69, 82, 84, 89, 85, 73, 79, 80, 123, 125, 10][code - 14]
    else if code < 41 then [0, 65, 83, 68, 70, 71, 72, 74, 75, 76, 58, 34, 126][code - 28]
    else if code < 53 then [0, 124, 90, 88, 67, 86, 66, 78, 77, 60, 62, 63][code - 41]
    else if code < 57 then [0, 42, 0, 32][code - 53]
    else if 76 <= code < 89 then [55, 56, 57, 45, 52, 53, 54, 43, 49, 50, 51, 48, 46][code - 76]
    else 0
  }

  type Table = t: seq<Byte> | |t| == 128 witness Zeros(128)

  /** The two tables; the driver works the same way whatever they hold. */
  datatype Layout = Layout(plain: Table, shifted: Table)

  function UsLayout(): Layout {
    Layout(seq<Byte>(128, i requires 0 <= i < 128 => Plain(i)), seq<Byte>(128, i requires 0 <= i < 128 => Shifted(i)))
  }

  // ----- one interrupt -----

  datatype Mods = Mods(shift: bool, caps: bool, ctrl: bool, alt: bool)

  const NO_MODS := Mods(false, false, false, false)

  function Released(scancode: Byte): bool {
    scancode >= 128
  }

  function Code(scancode: Byte): nat {
    scancode % 128
  }

  function Modify(m: Mods, scancode: Byte): Mods {
    var down := !Released(scancode);
    var code := Code(scancode);
    if code == KEY_LSHIFT || code == KEY_RSHIFT then m.(shift := down)
    else if code == KEY_CAPSLOCK then (if down then m.(caps := !m.caps) else m)
    else if code == KEY_LCTRL then m.(ctrl := down)
    else if code == KEY_LALT then m.(alt := down)
    else m
  }

  /** The key a scancode stands for under the flags it has itself just set, or KEY_NONE. */
  function Decode(l: Layout, m: Mods, scancode: Byte): Byte {
    if Released(scancode) then KEY_NONE
    else if m.shift != m.caps then l.shifted[Code(scancode)]
    else l.plain[Code(scancode)]
  }

  // ----- the ring -----

  datatype Ring = Ring(slots: seq<Byte>, head: nat, tail: nat)

  predicate RingOk(r: Ring) {
    |r.slots| == BUFFER_SIZE && r.head < BUFFER_SIZE && r.tail < BUFFER_SIZE
  }

  function Next(i: nat): nat {
    (i + 1) % BUFFER_SIZE
  }

  function Put(r: Ring, c: Byte): (n: Ring)
    requires RingOk(r)
    ensures RingOk(n)
  {
    if Next(r.tail) != r.head then Ring(r.slots[r.tail := c], r.head, Next(r.tail)) else r
  }

  function Get(r: Ring): (p: (Byte, Ring))
    requires RingOk(r)
    ensures RingOk(p.1)
  {
    if r.head == r.tail then (KEY_NONE, r) else (r.slots[r.head], Ring(r.slots, Next(r.head), r.tail))
  }

  function Count(r: Ring): nat
    requires RingOk(r)
  {
    if r.head <= r.tail then r.tail - r.head else r.tail + BUFFER_SIZE - r.head
  }

  /** The keys from head up to tail, around the end of the buffer. */
  function Pending(r: Ring): (q: seq<Byte>)
    requires RingOk(r)
    ensures |q| == Count(r) < BUFFER_SIZE
  {
    if r.head <= r.tail then r.slots[r.head..r.tail] else r.slots[r.head..] + r.slots[..r.tail]
  }

  /** A key is added at the back, and dropped exactly when 255 are pending. */
  lemma PutSpec(r: Ring, c: Byte)
    requires RingOk(r)
    ensures Pending(Put(r, c)) == if |Pending(r)| < BUFFER_SIZE - 1 then Pending(r) + [c] else Pending(r)
  {
    if Next(r.tail) == r.head {
      assert |Pending(r)| == BUFFER_SIZE - 1;
    } else if r.tail == BUFFER_SIZE - 1 {
      PutLast(r, c);
    } else {
      PutMiddle(r, c);
    }
  }

  lemma PutMiddle(r: Ring, c: Byte)
    requires RingOk(r) && r.tail < BUFFER_SIZE - 1 && r.tail + 1 != r.head
    ensures Pending(Put(r, c)) == Pending(r) + [c] && |Pending(r)| < BUFFER_SIZE - 1
  {
    SetAt(r.slots, if r.head <= r.tail then r.head else 0, r.tail, c);
    if r.head > r.tail {
      assert r.slots[r.tail := c][r.head..] == r.slots[r.head..];
    }
  }

  lemma SetAt(s: seq<Byte>, i: nat, j: nat, c: Byte)
    requires i <= j < |s|
    ensures s[j := c][i..j + 1] == s[i..j] + [c]
  {
  }

  lemma PutLast(r: Ring, c: Byte)
    requires RingOk(r) && r.tail == BUFFER_SIZE - 1 && r.head != 0
    ensures Pending(Put(r, c)) == Pending(r) + [c] && |Pending(r)| < BUFFER_SIZE - 1
  {
    SetAt(r.slots, r.head, r.tail, c);
    assert r.slots[r.tail := c][r.head..] == r.slots[r.tail := c][r.head..r.tail + 1];
  }

  /** A read takes the key at the front. */
  lemma GetSpec(r: Ring)
    requires RingOk(r)
    ensures Get(r).0 == (if Pending(r) == [] then KEY_NONE else Pending(r)[0])
    ensures Pending(Get(r).1) == if Pending(r) == [] then [] else Pending(r)[1..]
  {
  }

  // ----- runs -----

  /** A keyboard interrupt, with what the status and the data port read, or a call that
      takes a key. */
  datatype Event = Interrupt(status: Byte, scancode: Byte) | Read

  datatype State = State(mods: Mods, ring: Ring)

  function Start(): (s: State)
    ensures RingOk(s.ring)
  {
    State(NO_MODS, Ring(Zeros(BUFFER_SIZE), 0, 0))
  }

  predicate HasData(status: Byte) {
    status % 2 == 1
  }

  function Handle(l: Layout, s: State, scancode: Byte): (n: State)
    requires RingOk(s.ring)
    ensures RingOk(n.ring)
  {
    var m := Modify(s.mods, scancode);
    var c := Decode(l, m, scancode);
    State(m, if c != 0 then Put(s.ring, c) else s.ring)
  }

  function Step(l: Layout, s: State, e: Event): (n: State)
    requires RingOk(s.ring)
    ensures RingOk(n.ring)
  {
    match e
    case Interrupt(status, scancode) => if HasData(status) then Handle(l, s, scancode) else s
    case Read => State(s.mods, Get(s.ring).1)
  }

  function After(l: Layout, es: seq<Event>): (s: State)
    ensures RingOk(s.ring)
  {
    if es == [] then Start() else Step(l, After(l, es[..|es| - 1]), es[|es| - 1])
  }

  /** The key an event offers to the ring, if any. */
  function Offered(l: Layout, s: State, e: Event): seq<Byte> {
    if e.Interrupt? && HasData(e.status) && Decode(l, Modify(s.mods, e.scancode), e.scancode) != 0
    then [Decode(l, Modify(s.mods, e.scancode), e.scancode)] else []
  }

  /** What the event adds to the ring: the offer, unless the ring is full. */
  function Accepted(l: Layout, s: State, e: Event): seq<Byte>
    requires RingOk(s.ring)
  {
    if |Pending(s.ring)| < BUFFER_SIZE - 1 then Offered(l, s, e) else []
  }

  /** What the event takes: the key a read returns; a read of KEY_NONE takes nothing. */
  function Taken(s: State, e: Event): seq<Byte>
    requires RingOk(s.ring)
  {
    if e.Read? && Get(s.ring).0 != KEY_NONE then [Get(s.ring).0] else []
  }

  function AllAccepted(l: Layout, es: seq<Event>): seq<Byte> {
    if es == [] then [] else
    AllAccepted(l, es[..|es| - 1]) + Accepted(l, After(l, es[..|es| - 1]), es[|es| - 1])
  }

  function AllTaken(l: Layout, es: seq<Event>): seq<Byte> {
    if es == [] then [] else
    AllTaken(l, es[..|es| - 1]) + Taken(After(l, es[..|es| - 1]), es[|es| - 1])
  }

  ghost predicate NoneZero(q: seq<Byte>) {
    forall i :: 0 <= i < |q| ==> q[i] != 0
  }

  lemma StepQueue(l: Layout, s: State, e: Event)
    requires RingOk(s.ring) && NoneZero(Pending(s.ring))
    ensures Pending(s.ring) + Accepted(l, s, e) == Taken(s, e) + Pending(Step(l, s, e).ring)
    ensures NoneZero(Pending(Step(l, s, e).ring))
  {
    match e
    case Interrupt(status, scancode) =>
      OfferQueue(l, s, e, if HasData(status) then Decode(l, Modify(s.mods, scancode), scancode) else 0);
    case Read =>
      GetSpec(s.ring);
  }

  lemma OfferQueue(l: Layout, s: State, e: Event, c: Byte)
    requires RingOk(s.ring) && NoneZero(Pending(s.ring)) && e.Interrupt?
    requires Offered(l, s, e) == if c != 0 then [c] else []
    requires Step(l, s, e).ring == if c != 0 then Put(s.ring, c) else s.ring
    ensures Pending(s.ring) + Accepted(l, s, e) == Taken(s, e) + Pending(Step(l, s, e).ring)
    ensures NoneZero(Pending(Step(l, s, e).ring))
  {
    PutSpec(s.ring, c);
  }

  /** First in, first out: over every run the keys accepted are the keys read and then the
      keys pending, of which there are at most 255. */
  lemma {:induction false} RunFifo(l: Layout, es: seq<Event>)
    ensures AllAccepted(l, es) == AllTaken(l, es) + Pending(After(l, es).ring)
    ensures NoneZero(Pending(After(l, es).ring)) && |Pending(After(l, es).ring)| < BUFFER_SIZE
  {
    if es != [] {
      var f, e := es[..|es| - 1], es[|es| - 1];
      RunFifo(l, f);
      StepQueue(l, After(l, f), e);
      FifoNext(AllTaken(l, f), Pending(After(l, f).ring), Accepted(l, After(l, f), e), Taken(After(l, f), e), Pending(After(l, es).ring));
    }
  }

  lemma FifoNext(taken: seq<Byte>, pending: seq<Byte>, a: seq<Byte>, t: seq<Byte>, now: seq<Byte>)
    requires pending + a == t + now
    ensures taken + pending + a == taken + t + now
  {
    assert taken + pending + a == taken + (pending + a);
    assert taken + t + now == taken + (t + now);
  }

  // ----- the modifiers over a run -----

  predicate Seen(e: Event) {
    e.Interrupt? && HasData(e.status)
  }

  predicate IsShift(e: Event) {
    Seen(e) && (Code(e.scancode) == KEY_LSHIFT || Code(e.scancode) == KEY_RSHIFT)
  }

  predicate IsCapsPress(e: Event) {
    Seen(e) && e.scancode == KEY_CAPSLOCK
  }

  function CapsPresses(es: seq<Event>): nat {
    if es == [] then 0 else CapsPresses(es[..|es| - 1]) + if IsCapsPress(es[|es| - 1]) then 1 else 0
  }

  lemma StepMods(l: Layout, s: State, e: Event)
    requires RingOk(s.ring)
    ensures Step(l, s, e).mods.shift == if IsShift(e) then !Released(e.scancode) else s.mods.shift
    ensures Step(l, s, e).mods.caps == (s.mods.caps != IsCapsPress(e))
  {
  }

  /** Shift is down exactly when the last shift event was a press. */
  lemma {:induction false} ShiftIsLast(l: Layout, es: seq<Event>, i: nat)
    requires i < |es| && IsShift(es[i]) && forall j :: i < j < |es| ==> !IsShift(es[j])
    ensures After(l, es).mods.shift == !Released(es[i].scancode)
    decreases |es|
  {
    var f, e := es[..|es| - 1], es[|es| - 1];
    StepMods(l, After(l, f), e);
    if i < |es| - 1 {
      ShiftIsLast(l, f, i);
    }
  }

  lemma {:induction false} NoShift(l: Layout, es: seq<Event>)
    requires forall j :: 0 <= j < |es| ==> !IsShift(es[j])
    ensures !After(l, es).mods.shift
  {
    if es != [] {
      StepMods(l, After(l, es[..|es| - 1]), es[|es| - 1]);
      NoShift(l, es[..|es| - 1]);
    }
  }

  /** Caps lock is on exactly after an odd number of presses. */
  lemma {:induction false} CapsIsParity(l: Layout, es: seq<Event>)
    ensures After(l, es).mods.caps == (CapsPresses(es) % 2 == 1)
  {
    if es != [] {
      StepMods(l, After(l, es[..|es| - 1]), es[|es| - 1]);
      CapsIsParity(l, es[..|es| - 1]);
    }
  }

  /** The last shift event of the run was a press. */
  ghost predicate ShiftHeld(es: seq<Event>) {
    exists i: nat :: LastShift(es, i) && !Released(es[i].scancode)
  }

  ghost predicate LastShift(es: seq<Event>, i: nat) {
    i < |es| && IsShift(es[i]) && forall j :: i < j < |es| ==> !IsShift(es[j])
  }

  lemma {:induction false} ShiftIsHeld(l: Layout, es: seq<Event>)
    ensures After(l, es).mods.shift <==> ShiftHeld(es)
  {
    if forall j :: 0 <= j < |es| ==> !IsShift(es[j]) {
      NoShift(l, es);
    } else {
      var i := FindLastShift(es, |es|);
      ShiftIsLast(l, es, i);
      assert forall k: nat :: LastShift(es, k) ==> k == i;
    }
  }

  lemma {:induction false} FindLastShift(es: seq<Event>, n: nat) returns (i: nat)
    requires n <= |es| && (exists j :: 0 <= j < n && IsShift(es[j])) && forall j :: n <= j < |es| ==> !IsShift(es[j])
    ensures LastShift(es, i)
  {
    if IsShift(es[n - 1]) {
      i := n - 1;
    } else {
      i := FindLastShift(es, n - 1);
    }
  }

  /** Over any run every key pressed, modifiers too, is looked up in the shift table exactly
      when shift being held differs from caps lock being on, the press itself counted. */
  lemma RunDecodes(l: Layout, es: seq<Event>, e: Event)
    requires Seen(e) && !Released(e.scancode)
    ensures var fs := es + [e];
            var c := if ShiftHeld(fs) != (CapsPresses(fs) % 2 == 1) then l.shifted[e.scancode] else l.plain[e.scancode];
            Offered(l, After(l, es), e) == if c != 0 then [c] else []
  {
    var fs := es + [e];
    assert fs[..|es|] == es;
    ShiftIsHeld(l, fs);
    CapsIsParity(l, fs);
    assert After(l, fs).mods == Modify(After(l, es).mods, e.scancode);
    PressOffers(l, After(l, es), e, After(l, fs).mods);
  }

  lemma PressOffers(l: Layout, s: State, e: Event, m: Mods)
    requires Seen(e) && !Released(e.scancode) && RingOk(s.ring) && m == Modify(s.mods, e.scancode)
    ensures var c := if m.shift != m.caps then l.shifted[e.scancode] else l.plain[e.scancode];
            Offered(l, s, e) == if c != 0 then [c] else []
  {
  }

  // ----- what the short row does -----

  predicate LetterCode(code: nat) {
    16 <= code < 26 || 30 <= code < 39 || 44 <= code < 51
  }

  function Upper(c: Byte): int {
    c - 32
  }

  /** The shift table has every capital one place before its letter, and none in its place. */
  lemma CapitalsOneEarly(code: nat)
    requires LetterCode(code)
    ensures Shifted(code - 1) == Upper(Plain(code)) && Shifted(code) != Upper(Plain(code))
  {
  }

  lemma LeftShiftDecodes(m: Mods)
    ensures var n := Modify(m, KEY_LSHIFT);
            n == m.(shift := true) && Decode(UsLayout(), n, KEY_LSHIFT) == if m.caps then 0 else 124
  {
    assert Plain(KEY_LSHIFT) == 0 && Shifted(KEY_LSHIFT) == 124;
  }

  /** So pressing left shift itself types a bar, exactly when caps lock is off and there is room. */
  lemma LeftShiftTypesIff(s: State)
    requires RingOk(s.ring)
    ensures var n := Step(UsLayout(), s, Interrupt(1, KEY_LSHIFT));
            n.mods.shift && Pending(n.ring) ==
            if !s.mods.caps && |Pending(s.ring)| < BUFFER_SIZE - 1 then Pending(s.ring) + [124] else Pending(s.ring)
  {
    LeftShiftDecodes(s.mods);
    PutSpec(s.ring, 124);
  }

  // ----- the tables and the interrupt, in characters and numbers -----

  /** From entry `code` on, the table holds those characters. */
  ghost predicate Types(l: Table, code: nat, s: string) {
    code + |s| <= 128 && forall i :: 0 <= i < |s| ==> l[code + i] == s[i] as int
  }

  /** Entries that type nothing. */
  ghost predicate Silent(l: Table, code: nat, n: nat) {
    code + n <= 128 && forall i :: code <= i < code + n ==> l[i] == 0
  }

  /** The plain table, key by key. */
  lemma PlainKeys()
    ensures var l := UsLayout().plain;
            && Silent(l, 0, 2) && Types(l, 2, "1234567890-=") && l[14] == 8
            && l[15] == 9 && Types(l, 16, "qwertyuiop[]") && l[28] == 10
            && l[29] == 0 && Types(l, 30, "asdfghjkl;'`")
            && l[42] == 0 && Types(l, 43, "\\zxcvbnm,./")
            && l[54] == 0 && Types(l, 55, "*") && l[56] == 0 && Types(l, 57, " ") && Types(l, 77, "789-456+1230.")
            && Silent(l, 58, 19) && Silent(l, 90, 38)
  {
    PlainDigits();
    PlainTop();
    PlainMiddle();
    PlainBottom();
    PlainPad();
    PlainRest();
  }

  lemma PlainDigits()
    ensures var l := UsLayout().plain; Silent(l, 0, 2) && Types(l, 2, "1234567890-=") && l[14] == 8
  {
  }

  lemma PlainTop()
    ensures var l := UsLayout().plain; l[15] == 9 && Types(l, 16, "qwertyuiop[]") && l[28] == 10
  {
  }

  lemma PlainMiddle()
    ensures var l := UsLayout().plain; l[29] == 0 && Types(l, 30, "asdfghjkl;'`")
  {
  }

  lemma PlainBottom()
    ensures var l := UsLayout().plain; l[42] == 0 && Types(l, 43, "\\zxcvbnm,./")
  {
  }

  lemma PlainPad()
    ensures var l := UsLayout().plain; l[54] == 0 && Types(l, 55, "*") && l[56] == 0 && Types(l, 57, " ") && Types(l, 77, "789-456+1230.")
  {
  }

  lemma PlainRest()
    ensures var l := UsLayout().plain; Silent(l, 58, 19) && Silent(l, 90, 38)
  {
  }

  /** The shift table: the keys of the first row in place, all others one place early. */
  lemma ShiftedKeys()
    ensures var l := UsLayout().shifted;
            && Silent(l, 0, 2) && Types(l, 2, "!@#$%^&*()_+")
            && l[14] == 9 && Types(l, 15, "QWERTYUIOP{}") && l[27] == 10
            && l[28] == 0 && Types(l, 29, "ASDFGHJKL:\"~")
            && l[41] == 0 && Types(l, 42, "|ZXCVBNM<>?")
            && l[53] == 0 && Types(l, 54, "*") && l[55] == 0 && Types(l, 56, " ") && Types(l, 76, "789-456+1230.")
            && Silent(l, 57, 19) && Silent(l, 89, 39)
  {
    ShiftedDigits();
    ShiftedTop();
    ShiftedMiddle();
    ShiftedBottom();
    ShiftedPad();
    ShiftedRest();
  }

  lemma ShiftedDigits()
    ensures var l := UsLayout().shifted; Silent(l, 0, 2) && Types(l, 2, "!@#$%^&*()_+")
  {
  }

  lemma ShiftedTop()
    ensures var l := UsLayout().shifted; l[14] == 9 && Types(l, 15, "QWERTYUIOP{}") && l[27] == 10
  {
  }

  lemma ShiftedMiddle()
    ensures var l := UsLayout().shifted; l[28] == 0 && Types(l, 29, "ASDFGHJKL:\"~")
  {
  }

  lemma ShiftedBottom()
    ensures var l := UsLayout().shifted; l[41] == 0 && Types(l, 42, "|ZXCVBNM<>?")
  {
  }

  lemma ShiftedPad()
    ensures var l := UsLayout().shifted; l[53] == 0 && Types(l, 54, "*") && l[55] == 0 && Types(l, 56, " ") && Types(l, 76, "789-456+1230.")
  {
  }

  lemma ShiftedRest()
    ensures var l := UsLayout().shifted; Silent(l, 57, 19) && Silent(l, 89, 39)
  {
  }

  /** An interrupt whose status has bit 0 clear does nothing. Otherwise a code below 128 is a
      press and queues what the flags select, if there is room, and a code of a modifier sets
      its flag. */
  lemma InterruptDoes(l: Layout, s: State, status: Byte, scancode: Byte)
    requires RingOk(s.ring)
    ensures var n, code, down := Step(l, s, Interrupt(status, scancode)), scancode % 128, scancode < 128;
            if status % 2 == 0 then n == s
            else
              && n.mods.shift == (if code == 42 || code == 54 then down else s.mods.shift)
              && n.mods.caps == (if code == 58 && down then !s.mods.caps else s.mods.caps)
              && n.mods.ctrl == (if code == 29 then down else s.mods.ctrl)
              && n.mods.alt == (if code == 56 then down else s.mods.alt)
              && var c := if n.mods.shift != n.mods.caps then l.shifted[code] else l.plain[code];
                 Pending(n.ring) == Pending(s.ring) + if down && c != 0 && |Pending(s.ring)| < 255 then [c] else []
  {
    var n := Modify(s.mods, scancode);
    var c := Decode(l, n, scancode);
    if c != 0 {
      PutSpec(s.ring, c);
    }
  }
}
