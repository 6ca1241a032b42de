/** The line editor and the commands of servers/shell/shell.c, as functions of the key
    messages. */
module ShellEditor {
  import opened Bytes
  import opened ShellWords

  const MAX_CMD_LEN := 256
  const MAX_ARGS := 16
  const KEY_MESSAGE := 4

  /** ipc_recv either fails or delivers a message of some type. */
  datatype Event = NoMessage | Message(kind: nat, arg0: nat)

  datatype Reply = Nothing | Help | Echo(text: seq<Byte>) | Clear | Reboot | Unknown(name: seq<Byte>)

  /** The argument as the signed char it is cast to. */
  function KeyOf(arg0: nat): (c: int)
    ensures -128 <= c < 128
  {
    var b := arg0 % 256;
    if b >= 128 then b - 256 else b
  }

  predicate Enter(c: int) {
    c == 10 || c == 13
  }

  predicate Backspace(c: int) {
    c == 8 || c == 127
  }

  predicate Printable(c: int) {
    32 <= c < 127
  }

  // ----- commands -----

  const HELP: seq<Byte> := [104, 101, 108, 112]
  const ECHO: seq<Byte> := [101, 99, 104, 111]
  const CLEAR: seq<Byte> := [99, 108, 101, 97, 114]
  const REBOOT: seq<Byte> := [114, 101, 98, 111, 111, 116]

  function Exec(args: seq<seq<Byte>>): Reply {
    if args == [] then Nothing
    else if args[0] == HELP then Help
    else if args[0] == ECHO then Echo(Join(args[1..]) + [10])
    else if args[0] == CLEAR then Clear
    else if args[0] == REBOOT then Reboot
    else Unknown(args[0])
  }

  /** The bytes are those characters. */
  predicate Spells(b: seq<Byte>, s: string) {
    |b| == |s| && forall i :: 0 <= i < |b| ==> b[i] == s[i] as int
  }

  /** Each command is run exactly for its own name, and any other name is reported. */
  lemma ExecIs(args: seq<seq<Byte>>)
    ensures Exec(args) == Nothing <==> args == []
    ensures args != [] ==>
              && (Exec(args) == Help <==> Spells(args[0], "help"))
              && (Exec(args).Echo? <==> Spells(args[0], "echo"))
              && (Exec(args) == Clear <==> Spells(args[0], "clear"))
              && (Exec(args) == Reboot <==> Spells(args[0], "reboot"))
              && (Exec(args).Unknown? ==> Exec(args).name == args[0])
  {
    if args != [] {
      SpellsIff(args[0], "help", HELP);
      SpellsIff(args[0], "echo", ECHO);
      SpellsIff(args[0], "clear", CLEAR);
      SpellsIff(args[0], "reboot", REBOOT);
    }
  }

  lemma SpellsIff(b: seq<Byte>, s: string, name: seq<Byte>)
    requires Spells(name, s)
    ensures b == name <==> Spells(b, s)
  {
  }

  /** The arguments of a line: its first fifteen words. */
  function Args(line: seq<Byte>): (args: seq<seq<Byte>>) {
    var ws := Words(line);
    if |ws| < MAX_ARGS then ws else ws[..MAX_ARGS - 1]
  }

  /** All the words, or the first fifteen of more. */
  lemma ArgsAre(line: seq<Byte>)
    ensures var ws := Words(line); Args(line) == if |ws| <= 15 then ws else ws[..15]
  {
    assert Words(line)[..|Words(line)|] == Words(line);
  }

  function Command(line: seq<Byte>): Reply {
    if line == [] then Nothing else Exec(Args(line))
  }

  // ----- the editor -----

  function Edit(line: seq<Byte>, c: int): seq<Byte> {
    if Enter(c) then []
    else if Backspace(c) then (if line == [] then [] else line[..|line| - 1])
    else if Printable(c) && |line| < MAX_CMD_LEN - 1 then line + [c]
    else line
  }

  /** The line, and what each Enter so far did. */
  datatype State = State(line: seq<Byte>, replies: seq<Reply>)

  const START := State([], [])

  function Step(s: State, e: Event): State {
    if e.NoMessage? || e.kind != KEY_MESSAGE then s else
    var c := KeyOf(e.arg0);
    State(Edit(s.line, c), if Enter(c) then s.replies + [Command(s.line)] else s.replies)
  }

  function After(es: seq<Event>): State {
    if es == [] then START else Step(After(es[..|es| - 1]), es[|es| - 1])
  }

  function Keys(t: seq<Byte>): seq<Event> {
    seq(|t|, i requires 0 <= i < |t| => Message(KEY_MESSAGE, t[i]))
  }

  predicate LineOk(line: seq<Byte>) {
    |line| < MAX_CMD_LEN && forall x :: 0 <= x < |line| ==> Printable(line[x])
  }

  /** Whatever the messages, the line is of printable bytes and leaves room for the NUL. */
  lemma {:induction false} LineStaysOk(es: seq<Event>)
    ensures LineOk(After(es).line)
  {
    if es != [] {
      LineStaysOk(es[..|es| - 1]);
    }
  }

  /** What each message does: only type 4 counts, and of its argument the low byte, as a
      signed char. Newline and return run the line and clear it, backspace and delete take the
      last byte off, bytes from 32 to 126 are added while fewer than 255 are there, and
      everything else, 128 and up included, does nothing. */
  lemma MessageDoes(s: State, e: Event)
    ensures e.NoMessage? || e.kind != 4 ==> Step(s, e) == s
    ensures e.Message? && e.kind == 4 ==>
              var b, n := e.arg0 % 256, Step(s, e);
              if b == 10 || b == 13 then n == State([], s.replies + [Command(s.line)])
              else
                && n.replies == s.replies
                && n.line == if b == 8 || b == 127 then (if s.line == [] then [] else s.line[..|s.line| - 1])
                             else if 32 <= b <= 126 && |s.line| < 255 then s.line + [b] else s.line
  {
  }

  lemma AfterNext(es: seq<Event>, e: Event)
    ensures After(es + [e]) == Step(After(es), e)
  {
    assert (es + [e])[..|es|] == es;
  }

  /** The line with as much of `t` after it as fits. */
  function Filled(line: seq<Byte>, t: seq<Byte>): seq<Byte> {
    var room := MAX_CMD_LEN - 1 - |line|;
    if |t| <= room then line + t else if room > 0 then line + t[..room] else line
  }

  lemma FilledNext(line: seq<Byte>, t: seq<Byte>, c: Byte)
    requires |line| < MAX_CMD_LEN && Printable(c)
    ensures Edit(Filled(line, t), c) == Filled(line, t + [c])
  {
  }

  lemma KeysNext(t: seq<Byte>, c: Byte)
    ensures Keys(t + [c]) == Keys(t) + [Message(KEY_MESSAGE, c)]
  {
  }

  lemma StepPrintable(s: State, c: Byte)
    requires Printable(c)
    ensures Step(s, Message(KEY_MESSAGE, c)) == State(Edit(s.line, c), s.replies)
  {
  }

  lemma TypedNext(es: seq<Event>, line: seq<Byte>, t: seq<Byte>, rs: seq<Reply>, c: Byte)
    requires After(es) == State(Filled(line, t), rs) && |line| < MAX_CMD_LEN && Printable(c)
    ensures After(es + [Message(KEY_MESSAGE, c)]) == State(Filled(line, t + [c]), rs)
  {
    AfterNext(es, Message(KEY_MESSAGE, c));
    StepPrintable(After(es), c);
    FilledNext(line, t, c);
  }

  lemma Regroup(es: seq<Event>, t: seq<Byte>, c: Byte)
    ensures es + Keys(t + [c]) == es + Keys(t) + [Message(KEY_MESSAGE, c)]
  {
    KeysNext(t, c);
  }

  /** Typing adds to the line what fits in it, in order. */
  lemma {:induction false} Typed(es: seq<Event>, t: seq<Byte>)
    requires forall x :: 0 <= x < |t| ==> Printable(t[x])
    ensures After(es + Keys(t)) == State(Filled(After(es).line, t), After(es).replies)
  {
    LineStaysOk(es);
    if t == [] {
      assert es + Keys(t) == es;
    } else {
      var u, c := t[..|t| - 1], t[|t| - 1];
      assert t == u + [c];
      Typed(es, u);
      TypedNext(es + Keys(u), After(es).line, u, After(es).replies, c);
      Regroup(es, u, c);
    }
  }

  /** Backspace takes back a printable key exactly when the line had room for it. */
  lemma BackspaceUndoesIff(line: seq<Byte>, c: int)
    requires LineOk(line) && Printable(c)
    ensures Edit(Edit(line, c), 8) == line <==> |line| < MAX_CMD_LEN - 1
  {
    if |line| < MAX_CMD_LEN - 1 {
      assert (line + [c])[..|line|] == line;
    }
  }

  /** Typing words with single spaces and then Enter, on an empty line, runs those words
      if they fit in the line and are at most fifteen, and leaves the line empty. */
  lemma TypeAndRun(es: seq<Event>, ts: seq<seq<Byte>>)
    requires After(es).line == [] && AllPlain(ts) && ts != [] && |ts| < MAX_ARGS && |Join(ts)| < MAX_CMD_LEN
    requires forall x :: 0 <= x < |Join(ts)| ==> Printable(Join(ts)[x])
    ensures After(es + Keys(Join(ts)) + [Message(KEY_MESSAGE, 10)]) == State([], After(es).replies + [Exec(ts)])
  {
    var t := Join(ts);
    Typed(es, t);
    assert After(es + Keys(t)).line == t;
    AfterNext(es + Keys(t), Message(KEY_MESSAGE, 10));
    JoinSplits(ts);
    JoinNotEmpty(ts);
  }

  lemma JoinNotEmpty(ts: seq<seq<Byte>>)
    requires AllPlain(ts) && ts != []
    ensures Join(ts) != []
  {
    assert Plain(ts[0]);
  }

  /** echo prints its arguments with single spaces, however they were spaced. */
  lemma EchoPrints(line: seq<Byte>, ts: seq<seq<Byte>>)
    requires Words(line) == [ECHO] + ts && |ts| < MAX_ARGS - 1
    ensures Command(line) == Echo(Join(ts) + [10])
  {
    assert line != [];
    assert Args(line) == [ECHO] + ts && ([ECHO] + ts)[1..] == ts;
  }
}
