/** Concrete requests, from the table the server starts with, on which the filesystem as
    written misses what it is for. */
module VfsWitness {
  import opened Bytes
  import opened VfsTable
  import opened VfsFiles
  import opened VfsRuns
  import opened VfsLimits
  import opened Words

  /** The request for the file of that name. */
  function For(name: string, arg0: nat, arg1: nat): (m: Message)
    requires |name| < DATA_SIZE && arg0 < WORD && arg1 < WORD
    ensures Request(m) && m.arg0 == arg0 && m.arg1 == arg1
  {
    Message(arg0, arg1, Ascii(name) + Zeros(DATA_SIZE - |name|))
  }

  lemma PathOfFor(name: string, arg0: nat, arg1: nat)
    requires |name| < DATA_SIZE && arg0 < WORD && arg1 < WORD && forall i :: 0 <= i < |name| ==> 0 < name[i] as int < 128
    ensures Path(For(name, arg0, arg1)) == Ascii(name)
  {
    AsciiPlain(name);
    CStrOf(Ascii(name), For(name, arg0, arg1).data);
  }

  lemma InstallFirst(t: Table, name: seq<Byte>, content: seq<Byte>)
    requires Shape(t) && !t[0].used && |name| < 63 && |content| <= MAX_FILE_SIZE && 0 !in name
    ensures var f := Install(t, name, content)[0]; f.used && Name(f) == name
  {
    assert FindFree(t, 0) == 0;
    CStrOf(name, name + [0]);
    CStrOf(name, Install(t, name, content)[0].name);
  }

  lemma InstallLater(t: Table, name: seq<Byte>, content: seq<Byte>)
    requires Shape(t) && t[0].used && |name| < 63 && |content| <= MAX_FILE_SIZE
    ensures Install(t, name, content)[0] == t[0]
  {
    assert FindFree(t, 0) > 0;
  }

  lemma FoundFirst(t: Table, path: seq<Byte>)
    requires Shape(t) && t[0].used && Name(t[0]) == path
    ensures Find(t, path, 0) == 0 < FindFree(t, 0)
  {
  }

  /** The first file of the boot table is in slot 0. */
  lemma HelloSlot()
    ensures Find(Boot(), Ascii("/hello.txt"), 0) == 0 < FindFree(Boot(), 0)
  {
    var t0 := seq(MAX_FILES, i => EmptyFile);
    var x, y := Ascii("Hello from Aegis RAM filesystem!\n"), Ascii("# Aegis OS\n\nA microkernel-based operating system.\n");
    BootNames();
    InstallFirst(t0, Ascii("/hello.txt"), x);
    var t1 := Install(t0, Ascii("/hello.txt"), x);
    InstallLater(t1, Ascii("/readme.md"), y);
    var t2 := Install(t1, Ascii("/readme.md"), y);
    InstallLater(t2, Ascii("/version"), Ascii("Aegis OS 0.1.0\n"));
    FoundFirst(Boot(), Ascii("/hello.txt"));
  }

  lemma ThreeFiles(m: Files, a: seq<Byte>, b: seq<Byte>, c: seq<Byte>, x: Content, y: Content, z: Content)
    requires m == map[a := x, b := y, c := z] && a != b && a != c && 2 < |a| < 64 && 2 < |b| < 64 && 2 < |c| < 64
    ensures a in m && m[a] == x && |m| < MAX_FILES
    ensures forall p :: p in m ==> 2 < |p| < 64
  {
    assert m.Keys == {a, b, c};
    assert |m.Keys| <= |{a, b}| + 1 <= |{a}| + 2;
  }

  /** A table with /hello.txt in a slot before the first free one, and short names. */
  ghost predicate Ready(t: Table) {
    && Inv(t) && Ascii("/hello.txt") in Contents(t)
    && Contents(t)[Ascii("/hello.txt")].bytes == Ascii("Hello from Aegis RAM filesystem!\n")
    && Find(t, Ascii("/hello.txt"), 0) < FindFree(t, 0)
    && |Contents(t)| < MAX_FILES && forall p :: p in Contents(t) ==> 2 < |p| < 64
  }

  lemma BootReady()
    ensures Ready(Boot())
  {
    BootFiles();
    BootNames();
    HelloSlot();
    ThreeFiles(Contents(Boot()), Ascii("/hello.txt"), Ascii("/readme.md"), Ascii("/version"),
               Content(Ascii("Hello from Aegis RAM filesystem!\n"), 0),
               Content(Ascii("# Aegis OS\n\nA microkernel-based operating system.\n"), 0),
               Content(Ascii("Aegis OS 0.1.0\n"), 0));
  }

  lemma HelloText()
    ensures var h := Ascii("Hello from Aegis RAM filesystem!\n"); |h| == 33 && h[..5] == Ascii("Hello")
  {
  }

  lemma HelloReturnsFrom(t: Table, d: Message, c: Message, g: Message, r: Message)
    requires Ready(t) && Request(d) && Request(c) && Request(g) && Request(r)
    requires Path(d) == Ascii("/hello.txt") && Path(c) == Path(g) == Path(r) && |Path(c)| == 2
    requires g.arg0 == 5 && r.arg0 == 0 && r.arg1 == 5
    ensures HandleRead(HandleTruncate(HandleCreate(HandleDelete(t, d).0, c).0, g).0, r) == Reply(5, 0, Ascii("Hello"))
  {
    HelloText();
    DeletedBytesRead(t, d, c, g, r);
  }

  lemma HelloPaths(d: Message, c: Message, g: Message, r: Message)
    requires d == For("/hello.txt", 0, 0) && c == For("/a", 0, 0) && g == For("/a", 5, 0) && r == For("/a", 0, 5)
    ensures Path(d) == Ascii("/hello.txt") && Path(c) == Path(g) == Path(r) && |Path(c)| == 2
  {
    PathOfFor("/hello.txt", 0, 0);
    PathOfFor("/a", 0, 0);
    PathOfFor("/a", 5, 0);
    PathOfFor("/a", 0, 5);
  }

  /** Delete /hello.txt, create /a, grow it to five bytes: it reads Hello. */
  lemma HelloReturns(t: Table, d: Message, c: Message, g: Message, r: Message)
    requires t == Boot() && d == For("/hello.txt", 0, 0)
    requires c == For("/a", 0, 0) && g == For("/a", 5, 0) && r == For("/a", 0, 5)
    ensures HandleRead(HandleTruncate(HandleCreate(HandleDelete(t, d).0, c).0, g).0, r) == Reply(5, 0, Ascii("Hello"))
  {
    BootReady();
    HelloPaths(d, c, g, r);
    HelloReturnsFrom(t, d, c, g, r);
  }

  /** Every name of 64 bytes is created and then not found. */
  lemma LongNameLost(name: string)
    requires |name| == 64 && forall i :: 0 <= i < |name| ==> 0 < name[i] as int < 128
    ensures var (t', r) := HandleCreate(Boot(), For(name, 0, 0));
            r == Reply(0, 0, []) && HandleRead(t', For(name, 0, 0)) == Refusal
  {
    PathOfFor(name, 0, 0);
    BootReady();
    CreatedThenLost(Boot(), For(name, 0, 0));
  }

  lemma CreatedThenLost(t: Table, m: Message)
    requires Inv(t) && Request(m) && Path(m) !in Contents(t) && |Contents(t)| < MAX_FILES && |Path(m)| > 63
    ensures var (t', r) := HandleCreate(t, m); r == Reply(0, 0, []) && HandleRead(t', m) == Refusal
  {
    FullIff(t);
    FindIsLookup(t, Path(m));
    CreatedIsFoundIff(t, m);
  }

  /** A read of nothing just past the end of /hello.txt copies out of its buffers. */
  lemma ReadOutOfBuffers()
    ensures HandleRead(Boot(), For("/hello.txt", 34, 0)) == OutOfBounds
  {
    PathOfFor("/hello.txt", 34, 0);
    BootReady();
    HelloText();
    ReadPastEnd(Boot(), For("/hello.txt", 34, 0));
  }
}
