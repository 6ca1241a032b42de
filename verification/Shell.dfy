/** The shell in the form of servers/shell/shell.c: a static command buffer that the editor
    and the tokenizer write in place, and an argument vector pointing into it. */
module Shell {
  import opened Bytes
  import opened ShellWords
  import opened ShellEditor

  datatype Pointer = Null | To(offset: nat)

  function Shorter(rs: seq<Run>, n: nat): seq<Run> {
    if |rs| < n then rs else rs[..n]
  }

  lemma Shorten(rs: seq<Run>, all: seq<Run>, n: nat)
    requires rs <= all && (rs == all || |rs| == n) && |rs| <= n
    ensures rs == Shorter(all, n)
  {
  }

  /** The tokenizer has cut the runs `rs` of the line `s` in the buffer `b` and is at `p`. */
  ghost predicate Cutting(c: seq<Byte>, b: seq<Byte>, s: seq<Byte>, rs: seq<Run>, p: nat) {
    && p <= |s| < |b| && b[..|s|] == s && b[|s|] == 0 && RunsDone(s, rs, p)
    && c == Cut(b, rs) && forall x :: p <= x < |b| ==> c[x] == b[x]
  }

  ghost predicate RunsDone(s: seq<Byte>, rs: seq<Run>, p: nat)
    requires p <= |s|
    ensures RunsDone(s, rs, p) ==> forall k :: 0 <= k < |rs| ==> rs[k].end <= |s|
  {
    var all := Runs(s, 0);
    rs <= all && all[|rs|..] == Runs(s, p)
  }

  lemma NextRun(s: seq<Byte>, rs: seq<Run>, p: nat, a: nat, e: nat)
    requires p <= |s| && RunsDone(s, rs, p) && a == SkipBlanks(s, p) < |s| && e == WordEnd(s, a)
    ensures RunsDone(s, rs + [Run(a, e)], if e < |s| then e + 1 else e)
  {
    var all := Runs(s, 0);
    if e < |s| {
      RunsAfterBlank(s, e);
    }
    assert all[|rs|..][0] == Run(a, e) && all[|rs|..][1..] == Runs(s, e);
  }

  lemma CutStep(b: seq<Byte>, rs: seq<Run>, r: Run)
    requires r.end < |b| && forall k :: 0 <= k < |rs| ==> rs[k].end < |b|
    ensures Cut(b, rs + [r]) == Cut(b, rs)[r.end := 0]
  {
    assert (rs + [r])[..|rs|] == rs;
  }

  lemma CutNext(c: seq<Byte>, b: seq<Byte>, s: seq<Byte>, rs: seq<Run>, p: nat, a: nat, e: nat)
    requires Cutting(c, b, s, rs, p) && a == SkipBlanks(s, p) < |s| && e == WordEnd(s, a)
    ensures Cutting(c[e := 0], b, s, rs + [Run(a, e)], if e < |s| then e + 1 else e)
    ensures e == |s| ==> c[e := 0] == c
  {
    NextRun(s, rs, p, a, e);
    CutStep(b, rs, Run(a, e));
  }

  lemma CutReach(c: seq<Byte>, b: seq<Byte>, s: seq<Byte>, rs: seq<Run>, p: nat)
    requires Cutting(c, b, s, rs, p) && 0 !in s
    ensures c[|s|] == 0 && forall x :: p <= x < |s| ==> c[x] == s[x] != 0
    ensures c[p] == 0 ==> rs == Runs(s, 0)
    ensures rs <= Runs(s, 0)
  {
    if c[p] == 0 {
      assert p == |s|;
      Finished(s, rs, p);
    }
  }

  lemma Finished(s: seq<Byte>, rs: seq<Run>, p: nat)
    requires p <= |s| && RunsDone(s, rs, p) && SkipBlanks(s, p) == |s|
    ensures rs == Runs(s, 0)
  {
  }

  ghost predicate Pointed(v: seq<Pointer>, rs: seq<Run>) {
    |rs| <= |v| && forall k :: 0 <= k < |rs| ==> v[k] == To(rs[k].start)
  }

  /** The arguments are the words at the first runs. */
  lemma FirstWords(s: seq<Byte>)
    ensures var rs := Shorter(Runs(s, 0), MAX_ARGS - 1);
            && rs <= Runs(s, 0) && |Args(s)| == |rs|
            && forall k :: 0 <= k < |rs| ==> Args(s)[k] == Word(s, rs[k])
  {
  }

  class Shell {
    const cmdBuffer: array<Byte>
    const argv: array<Pointer>
    ghost var line: seq<Byte>
    /** What each Enter so far did. */
    var replies: seq<Reply>

    constructor ()
      ensures Valid() && line == [] && replies == [] && fresh(cmdBuffer) && fresh(argv)
    {
      cmdBuffer := new Byte[MAX_CMD_LEN](_ => 0);
      argv := new Pointer[MAX_ARGS](_ => Null);
      line, replies := [], [];
    }

    /** The buffer is the line and zeros, so it is NUL-terminated. */
    ghost predicate Valid()
      reads this, cmdBuffer
    {
      && cmdBuffer.Length == MAX_CMD_LEN && argv.Length == MAX_ARGS
      && LineOk(line) && cmdBuffer[..] == line + Zeros(MAX_CMD_LEN - |line|)
    }

    lemma LineInBuffer()
      requires Valid()
      ensures CStr(cmdBuffer[..]) == line && Terminated(cmdBuffer[..])
      ensures forall x :: 0 <= x < MAX_CMD_LEN ==> cmdBuffer[x] == if x < |line| then line[x] else 0
    {
      assert forall x :: 0 <= x < MAX_CMD_LEN ==> cmdBuffer[..][x] == if x < |line| then line[x] else 0;
      CStrOf(line, cmdBuffer[..]);
    }

    method StrLen() returns (n: nat)
      requires Valid()
      ensures n == |line|
    {
      LineInBuffer();
      n := 0;
      while cmdBuffer[n] != 0
        invariant 0 <= n <= |line|
        decreases MAX_CMD_LEN - n
      {
        n := n + 1;
      }
    }

    // ----- the tokenizer -----

    method SkipFrom(p: nat, ghost s: seq<Byte>) returns (q: nat)
      requires cmdBuffer.Length == MAX_CMD_LEN && p <= |s| < MAX_CMD_LEN && cmdBuffer[|s|] == 0
      requires forall x :: p <= x < |s| ==> cmdBuffer[x] == s[x]
      ensures q == SkipBlanks(s, p)
    {
      q := p;
      while cmdBuffer[q] == SPACE || cmdBuffer[q] == TAB
        invariant p <= q <= |s| && SkipBlanks(s, p) == SkipBlanks(s, q)
        decreases |s| - q
      {
        q := q + 1;
      }
    }

    method EndFrom(p: nat, ghost s: seq<Byte>) returns (q: nat)
      requires cmdBuffer.Length == MAX_CMD_LEN && p <= |s| < MAX_CMD_LEN && cmdBuffer[|s|] == 0 && 0 !in s
      requires forall x :: p <= x < |s| ==> cmdBuffer[x] == s[x]
      ensures q == WordEnd(s, p)
    {
      q := p;
      while cmdBuffer[q] != 0 && cmdBuffer[q] != SPACE && cmdBuffer[q] != TAB
        invariant p <= q <= |s| && WordEnd(s, p) == WordEnd(s, q)
        decreases |s| - q
      {
        q := q + 1;
      }
    }

    /** The rest of a turn of the tokenizer's loop, from the word at `a` on. */
    method CutWord(a: nat, argc: nat, ghost s: seq<Byte>, ghost e: nat) returns (q: nat)
      requires cmdBuffer.Length == MAX_CMD_LEN && argv.Length == MAX_ARGS && argc < MAX_ARGS
      requires a <= |s| < MAX_CMD_LEN && cmdBuffer[|s|] == 0 && 0 !in s && e == WordEnd(s, a)
      requires forall x :: a <= x < |s| ==> cmdBuffer[x] == s[x]
      modifies cmdBuffer, argv
      ensures cmdBuffer[..] == if e < |s| then old(cmdBuffer[..])[e := 0] else old(cmdBuffer[..])
      ensures q == if e < |s| then e + 1 else e
      ensures argv[..] == old(argv[..])[argc := To(a)]
    {
      argv[argc] := To(a);
      q := EndFrom(a, s);
      if cmdBuffer[q] != 0 {
        cmdBuffer[q] := 0;
        q := q + 1;
      }
    }

    /** One turn of the tokenizer's loop; false when only blanks are left. */
    method NextWord(p: nat, argc: nat, ghost b: seq<Byte>, ghost s: seq<Byte>, ghost rs: seq<Run>)
      returns (q: nat, more: bool, ghost out: seq<Run>)
      requires cmdBuffer.Length == MAX_CMD_LEN && argv.Length == MAX_ARGS && argc == |rs| < MAX_ARGS && 0 !in s
      requires Cutting(cmdBuffer[..], b, s, rs, p) && Pointed(argv[..], rs)
      modifies cmdBuffer, argv
      ensures Cutting(cmdBuffer[..], b, s, out, q) && Pointed(argv[..], out)
      ensures more ==> p < q && |out| == |rs| + 1
      ensures !more ==> out == rs == Runs(s, 0)
    {
      ghost var c := cmdBuffer[..];
      CutReach(c, b, s, rs, p);
      var a := SkipFrom(p, s);
      if cmdBuffer[a] == 0 {
        Finished(s, rs, p);
        return p, false, rs;
      }
      ghost var e := WordEnd(s, a);
      CutNext(c, b, s, rs, p, a, e);
      q := CutWord(a, argc, s, e);
      out := rs + [Run(a, e)];
      more := true;
    }

    /** Cuts the buffer into the first `MAX_ARGS - 1` words and points at them. */
    method ParseCmd() returns (argc: nat)
      requires Valid()
      modifies cmdBuffer, argv
      ensures var rs := Shorter(Runs(line, 0), MAX_ARGS - 1);
              && argc == |rs| < MAX_ARGS && cmdBuffer[..] == Cut(old(cmdBuffer[..]), rs)
              && (forall k :: 0 <= k < argc ==> argv[k] == To(rs[k].start)) && argv[argc] == Null
    {
      ghost var b, s, rs := cmdBuffer[..], line, [];
      LineInBuffer();
      argc := 0;
      var p, more := 0, true;
      while more && cmdBuffer[p] != 0 && argc < MAX_ARGS - 1
        invariant 0 <= p <= |s| < MAX_CMD_LEN && argc == |rs| < MAX_ARGS
        invariant Cutting(cmdBuffer[..], b, s, rs, p) && Pointed(argv[..], rs)
        invariant !more ==> rs == Runs(s, 0)
        decreases more, |s| - p
      {
        p, more, rs := NextWord(p, argc, b, s, rs);
        argc := if more then argc + 1 else argc;
      }
      if more {
        CutReach(cmdBuffer[..], b, s, rs, p);
      }
      Shorten(rs, Runs(s, 0), MAX_ARGS - 1);
      argv[argc] := Null;
    }

    // ----- the builtins -----

    /** The argument vector points at the words `args`. */
    ghost predicate Holds(args: seq<seq<Byte>>)
      reads cmdBuffer, argv
    {
      |args| <= argv.Length && forall k :: 0 <= k < |args| ==> HoldsAt(k, args[k])
    }

    ghost predicate HoldsAt(k: nat, w: seq<Byte>)
      requires k < argv.Length
      reads cmdBuffer, argv
    {
      argv[k].To? && argv[k].offset <= cmdBuffer.Length && CStr(cmdBuffer[argv[k].offset..]) == w
    }

    method Arg(k: nat, ghost args: seq<seq<Byte>>) returns (w: seq<Byte>)
      requires k < |args| && Holds(args)
      ensures w == args[k]
    {
      assert HoldsAt(k, args[k]);
      w := CStr(cmdBuffer[argv[k].offset..]);
    }

    method EchoArgs(argc: nat, ghost args: seq<seq<Byte>>) returns (text: seq<Byte>)
      requires argc == |args| > 0 && Holds(args)
      ensures text == Join(args[1..]) + [10]
    {
      text := [];
      var i := 1;
      while i < argc
        invariant 1 <= i <= argc
        invariant text + Join(args[i..]) == Join(args[1..])
      {
        var w := Arg(i, args);
        JoinNext(text, args[i..]);
        assert args[i..][1..] == args[i + 1..];
        text := text + w;
        if i < argc - 1 {
          text := text + [SPACE];
        }
        i := i + 1;
      }
      text := text + [10];
    }

    method ExecBuiltin(argc: nat, ghost args: seq<seq<Byte>>) returns (r: Reply)
      requires argc == |args| && Holds(args)
      ensures r == Exec(args)
    {
      if argc == 0 {
        return Nothing;
      }
      var name := Arg(0, args);
      if name == HELP {
        return Help;
      }
      if name == ECHO {
        var text := EchoArgs(argc, args);
        return Echo(text);
      }
      if name == CLEAR {
        return ShellEditor.Clear;
      }
      if name == REBOOT {
        return Reboot;
      }
      return Unknown(name);
    }

    // ----- the message loop -----

    method RunLine() returns (r: Reply)
      requires Valid() && line != []
      modifies cmdBuffer, argv
      ensures r == Exec(Args(line))
    {
      ghost var b, rs := cmdBuffer[..], Shorter(Runs(line, 0), MAX_ARGS - 1);
      LineInBuffer();
      FirstWords(line);
      var argc := ParseCmd();
      forall k | 0 <= k < |rs| ensures HoldsAt(k, Args(line)[k]) {
        CutReads(b, rs, k);
      }
      r := ExecBuiltin(argc, Args(line));
    }

    method ClearBuffer()
      requires cmdBuffer.Length == MAX_CMD_LEN && argv.Length == MAX_ARGS
      modifies this`line, cmdBuffer
      ensures Valid() && line == []
    {
      forall x | 0 <= x < MAX_CMD_LEN {
        cmdBuffer[x] := 0;
      }
      line := [];
    }

    method EraseLast()
      requires Valid()
      modifies this`line, cmdBuffer
      ensures Valid() && line == if old(line) == [] then [] else old(line)[..|old(line)| - 1]
    {
      var len := StrLen();
      if len > 0 {
        cmdBuffer[len - 1] := 0;
        line := line[..len - 1];
      }
    }

    method Push(c: Byte)
      requires Valid() && Printable(c)
      modifies this`line, cmdBuffer
      ensures Valid() && line == if |old(line)| < MAX_CMD_LEN - 1 then old(line) + [c] else old(line)
    {
      var len := StrLen();
      if len < MAX_CMD_LEN - 1 {
        cmdBuffer[len] := c;
        cmdBuffer[len + 1] := 0;
        line := line + [c];
      }
    }

    /** One turn of the message loop. */
    method Handle(e: Event)
      requires Valid()
      modifies this, cmdBuffer, argv
      ensures Valid() && State(line, replies) == Step(old(State(line, replies)), e)
    {
      if e.NoMessage? || e.kind != KEY_MESSAGE {
        return;
      }
      var c := KeyOf(e.arg0);
      if c == 10 || c == 13 {
        var len := StrLen();
        var r := Nothing;
        if len > 0 {
          r := RunLine();
        }
        replies := replies + [r];
        ClearBuffer();
      } else if c == 8 || c == 127 {
        EraseLast();
      } else if c >= 32 && c < 127 {
        Push(c);
      }
    }

    /** The message loop over a run of events. */
    method ShellMain(es: seq<Event>)
      requires Valid() && line == [] && replies == []
      modifies this, cmdBuffer, argv
      ensures Valid() && State(line, replies) == After(es)
    {
      assert es[..0] == [];
      for i := 0 to |es|
        invariant Valid() && State(line, replies) == After(es[..i])
      {
        AfterNext(es[..i], es[i]);
        assert es[..i + 1] == es[..i] + [es[i]];
        Handle(es[i]);
      }
      assert es[..|es|] == es;
    }
  }

  lemma JoinNext(text: seq<Byte>, ts: seq<seq<Byte>>)
    requires ts != []
    ensures text + Join(ts) == (if |ts| == 1 then text + ts[0] else text + ts[0] + [SPACE]) + Join(ts[1..])
  {
  }
}
