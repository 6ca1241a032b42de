/** What a client reads off a reply, in the numbers of the protocol: a refusal is -1 in both
    words, anything else is a count of at most 512 beside zero. */
module VfsReplies {
  import opened Bytes
  import opened VfsTable
  import opened VfsFiles
  import opened VfsRuns
  import opened VfsListing
  import opened VfsLimits

  /** Both words are -1, as 64 bits hold it. */
  predicate SaysNo(r: Reply) {
    r.Reply? && r.arg0 == 0xFFFF_FFFF_FFFF_FFFF && r.arg1 == 0xFFFF_FFFF_FFFF_FFFF
  }

  /** A count and a zero. */
  predicate SaysYes(r: Reply) {
    r.Reply? && r.arg0 <= 512 && r.arg1 == 0
  }

  /** When the request cannot be met. */
  ghost predicate Unmet(m: Files, e: Event) {
    if e.ECreate? then Path(e.m) in m || |m| == 64 else Path(e.m) !in m
  }

  /** On every well-formed table, guarded or not: a request whose copy stays in its buffers
      is refused exactly when it cannot be met, and then changes nothing. */
  lemma RefusedIff(t: Table, e: Event)
    requires Inv(t) && Request(e.m)
    ensures var (t', r) := Step(t, e);
            !r.OutOfBounds? ==>
              && (SaysNo(r) <==> Unmet(Contents(t), e))
              && (SaysYes(r) <==> !Unmet(Contents(t), e))
              && (SaysNo(r) ==> t' == t && r.data == [])
  {
    FindIsLookup(t, Path(e.m));
    FullIff(t);
    match e
    case ECreate(m) => assert SaysNo(Step(t, e).1) <==> Unmet(Contents(t), e);
    case _ =>
      assert Unmet(Contents(t), e) <==> Find(t, Path(e.m), 0) == |t|;
  }

  /** What leaves the buffers is a read or a write of a file that is there. */
  lemma OutOfBoundsOnly(t: Table, e: Event)
    requires Inv(t) && Request(e.m) && Step(t, e).1.OutOfBounds?
    ensures (e.ERead? || e.EWrite?) && Path(e.m) in Contents(t) && Step(t, e).0 == t
  {
    FindIsLookup(t, Path(e.m));
    if e.ETruncate? {
      TruncateSpec(t, e.m);
    }
  }

  /** The words of the replies that grant a request. */
  lemma GrantedWords(t: Table, e: Event)
    requires Inv(t) && Request(e.m) && !Unmet(Contents(t), e) && !Step(t, e).1.OutOfBounds?
    ensures var r := Step(t, e).1;
            match e
            case ERead(m) =>
              var c := Contents(t)[Path(m)].bytes;
              m.arg0 <= |c| && r.arg0 == (if m.arg1 < |c| - m.arg0 then m.arg1 else |c| - m.arg0) && |r.data| == r.arg0
            case EWrite(m) => m.arg0 <= 4096 && r.arg0 == (if m.arg1 < 4096 - m.arg0 then m.arg1 else 4096 - m.arg0) && r.data == []
            case _ => r.arg0 == 0 && r.data == []
  {
    FindIsLookup(t, Path(e.m));
    FullIff(t);
    match e
    case ERead(m) => ReadSpec(t, m);
    case EWrite(m) => WriteSpec(t, m);
    case _ =>
  }

  /** So over every guarded run a client can tell from each reply whether its request was
      refused, and that is whether the map of the files then in the table refuses it. */
  lemma {:induction false} RunTells(t: Table, es: seq<Event>, i: nat)
    requires Inv(t) && Guarded(t, es) && i < |es|
    ensures forall j :: 0 <= j < |es| ==> Request(es[j].m)
    ensures |Replies(t, es)| == |es| && Inv(Run(t, es[..i]))
    ensures var r, m := Replies(t, es)[i], Contents(Run(t, es[..i]));
            !r.OutOfBounds? ==> (SaysNo(r) <==> Unmet(m, es[i])) && (SaysYes(r) <==> !Unmet(m, es[i]))
    decreases |es|
  {
    GuardedRequests(t, es);
    if i == 0 {
      RefusedIff(t, es[0]);
      assert es[..0] == [];
      ReplyCount(t, es);
    } else {
      StepRefines(t, es[0]);
      RunTells(Step(t, es[0]).0, es[1..], i - 1);
      assert es[..i][1..] == es[1..][..i - 1];
    }
  }

  lemma {:induction false} ReplyCount(t: Table, es: seq<Event>)
    requires Shape(t) && forall j :: 0 <= j < |es| ==> Request(es[j].m)
    ensures |Replies(t, es)| == |es|
    decreases |es|
  {
    if es != [] {
      ReplyCount(Step(t, es[0]).0, es[1..]);
    }
  }

  lemma BootTells(es: seq<Event>, i: nat)
    requires Guarded(Boot(), es) && i < |es|
    ensures forall j :: 0 <= j < |es| ==> Request(es[j].m)
    ensures |Replies(Boot(), es)| == |es| && Inv(Run(Boot(), es[..i]))
    ensures var r, m := Replies(Boot(), es)[i], Contents(Run(Boot(), es[..i]));
            !r.OutOfBounds? ==> (SaysNo(r) <==> Unmet(m, es[i])) && (SaysYes(r) <==> !Unmet(m, es[i]))
  {
    BootFiles();
    RunTells(Boot(), es, i);
  }

  // ----- the order of a listing -----

  /** The names come in slot order: that of slot `i` behind one for each live slot before it. */
  lemma {:induction false} ListedInOrder(t: Table, i: nat)
    requires i <= |t|
    ensures |LiveNames(t, 0)| == Used(t[..i]) + |LiveNames(t, i)|
    ensures i < |t| && t[i].used ==>
              Used(t[..i]) < |LiveNames(t, 0)| && LiveNames(t, 0)[Used(t[..i])] == CStr(t[i].name)
    ensures LiveNames(t, 0)[Used(t[..i])..] == LiveNames(t, i)
    decreases i
  {
    if i == 0 {
      assert t[..0] == [];
    } else {
      ListedInOrder(t, i - 1);
      assert t[..i][..i - 1] == t[..i - 1];
    }
  }

  // ----- the files at boot, byte by byte -----

  lemma BootNamesText()
    ensures Ascii("/hello.txt") == [47, 104, 101, 108, 108, 111, 46, 116, 120, 116]
    ensures Ascii("/readme.md") == [47, 114, 101, 97, 100, 109, 101, 46, 109, 100]
    ensures Ascii("/version") == [47, 118, 101, 114, 115, 105, 111, 110]
  {
  }

  lemma HelloText()
    ensures Ascii("Hello from Aegis RAM filesystem!\n") == HELLO
  {
  }

  lemma AsciiJoin(a: string, b: string)
    ensures Ascii(a + b) == Ascii(a) + Ascii(b)
  {
  }

  lemma ReadmeHead()
    ensures Ascii("# Aegis OS\n\nA microkernel") == README_HEAD
  {
  }

  lemma ReadmeTail()
    ensures Ascii("-based operating system.\n") == README_TAIL
  {
  }

  lemma ReadmeText()
    ensures Ascii("# Aegis OS\n\nA microkernel-based operating system.\n") == README_HEAD + README_TAIL
  {
    var a, b := "# Aegis OS\n\nA microkernel", "-based operating system.\n";
    assert "# Aegis OS\n\nA microkernel-based operating system.\n" == a + b;
    AsciiJoin(a, b);
    ReadmeHead();
    ReadmeTail();
  }

  lemma VersionText()
    ensures Ascii("Aegis OS 0.1.0\n") == [65, 101, 103, 105, 115, 32, 79, 83, 32, 48, 46, 49, 46, 48, 10]
  {
  }

  const HELLO: seq<Byte> := [72, 101, 108, 108, 111, 32, 102, 114, 111, 109, 32, 65, 101, 103, 105, 115, 32,
                             82, 65, 77, 32, 102, 105, 108, 101, 115, 121, 115, 116, 101, 109, 33, 10]

  const README_HEAD: seq<Byte> := [35, 32, 65, 101, 103, 105, 115, 32, 79, 83, 10, 10, 65, 32, 109, 105, 99, 114, 111, 107, 101, 114, 110, 101, 108]

  const README_TAIL: seq<Byte> := [45, 98, 97, 115, 101, 100, 32, 111, 112, 101, 114, 97, 116, 105, 110, 103, 32, 115, 121, 115, 116, 101, 109, 46, 10]

  /** The three files of the boot table, in bytes. */
  lemma BootBytes()
    ensures Contents(Boot()) == map[
              [47, 104, 101, 108, 108, 111, 46, 116, 120, 116] := Content(HELLO, 0),
              [47, 114, 101, 97, 100, 109, 101, 46, 109, 100] := Content(README_HEAD + README_TAIL, 0),
              [47, 118, 101, 114, 115, 105, 111, 110] :=
                Content([65, 101, 103, 105, 115, 32, 79, 83, 32, 48, 46, 49, 46, 48, 10], 0)]
  {
    BootFiles();
    BootNamesText();
    HelloText();
    ReadmeText();
    VersionText();
  }
}
