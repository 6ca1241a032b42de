/** Where the file table is a map and where it is not: names of 64 bytes and more, bytes
    that outlive a delete, writes whose payload begins with the path. */
module VfsLimits {
  import opened Bytes
  import opened VfsTable
  import opened VfsFiles
  import opened VfsRuns
  import opened Words

  // ----- long names -----

  /** A file just created is found under its own path exactly when the path has at most
      63 bytes; a longer one is stored cut and looked up in full. */
  lemma CreatedIsFoundIff(t: Table, m: Message)
    requires Inv(t) && Request(m) && Path(m) !in Contents(t) && |Contents(t)| < MAX_FILES
    ensures var t' := HandleCreate(t, m).0; Find(t', Path(m), 0) < |t'| <==> |Path(m)| <= 63
  {
    var t' := HandleCreate(t, m).0;
    FindIsLookup(t, Path(m));
    FullIff(t);
    var i := FindFree(t, 0);
    StoredName(t[i].name, m.data);
    assert Name(t'[i]) == Stored(Path(m));
    if |Path(m)| <= 63 {
      assert Stored(Path(m)) == Path(m);
      assert t'[i].used;
    } else {
      forall j | 0 <= j < |t'| && t'[j].used ensures |Name(t'[j])| < NAME_SIZE {
        assert j != i ==> EntryOk(t[j]);
      }
    }
  }

  /** Create keeps live names distinct exactly when the cut name is not live yet. */
  lemma CreateKeepsDistinctIff(t: Table, m: Message)
    requires Inv(t) && Request(m) && Path(m) !in Contents(t) && |Contents(t)| < MAX_FILES
    ensures Inv(HandleCreate(t, m).0) <==> Stored(Path(m)) !in Contents(t)
  {
    if Stored(Path(m)) !in Contents(t) {
      CreateSpec(t, m);
    } else {
      var t' := HandleCreate(t, m).0;
      FindIsLookup(t, Path(m));
      FullIff(t);
      FindIsLookup(t, Stored(Path(m)));
      var i, j := FindFree(t, 0), Find(t, Stored(Path(m)), 0);
      StoredName(t[i].name, m.data);
      assert Live(t', i) && Live(t', j) && i != j && Name(t'[i]) == Name(t'[j]);
    }
  }

  // ----- the guard is exact -----

  lemma NamesFit(t: Table, path: seq<Byte>)
    requires Inv(t) && path in Contents(t)
    ensures |path| <= 63
  {
    ContentsAt(t);
    var i :| Live(t, i) && Name(t[i]) == path;
    assert EntryOk(t[i]);
  }

  lemma LongNameFails(t: Table, m: Message)
    requires Inv(t) && Request(m) && |Path(m)| > 63 && |Contents(t)| != MAX_FILES
    ensures var t' := HandleCreate(t, m).0; !Inv(t') || Contents(t') != MStep(Contents(t), ECreate(m)).0
  {
    if Path(m) in Contents(t) {
      NamesFit(t, Path(m));
    }
    CountsFiles(t);
    CreateKeepsDistinctIff(t, m);
    if Stored(Path(m)) !in Contents(t) {
      CreateSpec(t, m);
      assert Path(m) !in Contents(HandleCreate(t, m).0);
    }
  }

  /** A request does to the table what it does to the map, reply included, exactly when its
      guard holds. */
  lemma StepRefinesIff(t: Table, e: Event)
    requires Inv(t) && Request(e.m)
    ensures var (t', r) := Step(t, e);
            Guard(t, e) <==> Inv(t') && (Contents(t'), r) == MStep(Contents(t), e)
  {
    if Guard(t, e) {
      StepRefines(t, e);
    } else {
      match e
      case ECreate(m) => LongNameFails(t, m);
      case EWrite(m) => WriteSpec(t, m);
      case ETruncate(m) => TruncateSpec(t, m);
      case _ =>
    }
  }

  // ----- deleted bytes -----

  /** Delete a file, create another in the freed slot, grow it by truncate: it reads
      back the deleted file's bytes. */
  lemma DeletedBytesReturn(t: Table, d: Message, c: Message, g: Message)
    requires Inv(t) && Request(d) && Request(c) && Request(g)
    requires Path(d) in Contents(t) && Find(t, Path(d), 0) < FindFree(t, 0)
    requires Path(c) !in Contents(t) && |Path(c)| <= 63 && Path(g) == Path(c)
    requires g.arg0 <= |Contents(t)[Path(d)].bytes|
    ensures var t1 := HandleDelete(t, d).0;
            var t2 := HandleCreate(t1, c).0;
            var t3 := HandleTruncate(t2, g).0;
            && Inv(t3) && Path(c) in Contents(t3)
            && Contents(t3)[Path(c)].bytes == Contents(t)[Path(d)].bytes[..g.arg0]
  {
    FindIsLookup(t, Path(d));
    var i := Find(t, Path(d), 0);
    FreedSlot(t, d, i);
    var t1 := HandleDelete(t, d).0;
    ReusedSlot(t1, c, i);
    GrownSlot(HandleCreate(t1, c).0, g, i);
    assert EntryOk(t[i]);
  }

  /** And so a read of the new file returns them. */
  lemma DeletedBytesRead(t: Table, d: Message, c: Message, g: Message, r: Message)
    requires Inv(t) && Request(d) && Request(c) && Request(g) && Request(r)
    requires Path(d) in Contents(t) && Find(t, Path(d), 0) < FindFree(t, 0)
    requires Path(c) !in Contents(t) && |Path(c)| <= 63 && Path(g) == Path(r) == Path(c)
    requires g.arg0 <= |Contents(t)[Path(d)].bytes| && r.arg0 == 0 && r.arg1 == g.arg0 <= DATA_SIZE
    ensures HandleRead(HandleTruncate(HandleCreate(HandleDelete(t, d).0, c).0, g).0, r) ==
            Reply(g.arg0, 0, Contents(t)[Path(d)].bytes[..g.arg0])
  {
    DeletedBytesReturn(t, d, c, g);
    ReadsBack(HandleTruncate(HandleCreate(HandleDelete(t, d).0, c).0, g).0, r, Contents(t)[Path(d)].bytes[..g.arg0]);
  }

  /** A read that starts past the end of its file takes its size from a wrapped difference. */
  lemma ReadPastEnd(t: Table, m: Message)
    requires Inv(t) && Request(m) && Path(m) in Contents(t) && m.arg0 > |Contents(t)[Path(m)].bytes|
    ensures HandleRead(t, m) == OutOfBounds
  {
    ReadSpec(t, m);
  }

  lemma FreedSlot(t: Table, d: Message, i: nat)
    requires Inv(t) && Request(d) && Find(t, Path(d), 0) == i < |t| && i < FindFree(t, 0)
    ensures var t1 := HandleDelete(t, d).0;
            Inv(t1) && FindFree(t1, 0) == i && t1[i].data == t[i].data && Contents(t1) == Contents(t) - {Path(d)}
  {
    DeleteSpec(t, d);
    FindIsLookup(t, Path(d));
    FirstFreed(t, i, t[i].(used := false, size := 0));
  }

  lemma FirstFreed(t: Table, i: nat, f: File)
    requires i < FindFree(t, 0) && i < |t| && !f.used
    ensures FindFree(t[i := f], 0) == i
  {
    var u := t[i := f];
    assert !u[i].used && forall j :: 0 <= j < i ==> u[j].used;
  }

  lemma ReusedSlot(t: Table, c: Message, i: nat)
    requires Inv(t) && Request(c) && Path(c) !in Contents(t) && |Path(c)| <= 63 && FindFree(t, 0) == i < |t|
    ensures var t2 := HandleCreate(t, c).0;
            Inv(t2) && Find(t2, Path(c), 0) == i && t2[i].data == t[i].data && t2[i].size == 0
  {
    FindIsLookup(t, Path(c));
    assert Stored(Path(c)) == Path(c);
    CreateSpec(t, c);
    StoredName(t[i].name, c.data);
    var t2 := HandleCreate(t, c).0;
    assert Live(t2, i) && Name(t2[i]) == Path(c);
    assert Live(t2, Find(t2, Path(c), 0));
  }

  lemma GrownSlot(t: Table, g: Message, i: nat)
    requires Inv(t) && Request(g) && Find(t, Path(g), 0) == i < |t| && t[i].size == 0 && g.arg0 <= MAX_FILE_SIZE
    ensures var t' := HandleTruncate(t, g).0;
            Inv(t') && Path(g) in Contents(t') && Contents(t')[Path(g)].bytes == t[i].data[..g.arg0]
  {
    var f := t[i].(size := g.arg0);
    assert Live(t, i) && EntryOk(t[i]) && HandleTruncate(t, g).0 == t[i := f];
    ContentsUpdate(t, i, f);
    InvUpdate(t, i, f);
  }

  // ----- reading back -----

  /** The bytes of a successful write, and where they are in the file afterwards, whatever
      the gap before them holds. */
  lemma WrittenBytes(f: File, off: nat, p: seq<Byte>)
    requires |f.data| == MAX_FILE_SIZE && off + |p| <= MAX_FILE_SIZE && f.size <= MAX_FILE_SIZE
    ensures var c := ContentOf(Written(f, off, p)).bytes; off + |p| <= |c| && c[off..off + |p|] == p
  {
    var g := Written(f, off, p);
    assert g.data[off..off + |p|] == p;
    assert g.data[..g.size][off..off + |p|] == g.data[off..off + |p|];
  }

  /** What a read returns that stays inside the file. */
  lemma ReadsBack(t: Table, r: Message, p: seq<Byte>)
    requires Inv(t) && Request(r) && Path(r) in Contents(t) && r.arg1 == |p| <= DATA_SIZE
    requires var c := Contents(t)[Path(r)].bytes; r.arg0 + |p| <= |c| <= MAX_FILE_SIZE && c[r.arg0..r.arg0 + |p|] == p
    ensures HandleRead(t, r) == Reply(|p|, 0, p)
  {
    ReadSpec(t, r);
  }

  lemma WriteUpdate(t: Table, w: Message, n: nat)
    requires Inv(t) && Request(w) && Path(w) in Contents(t)
    requires TransferOk(MAX_FILE_SIZE, w.arg0, w.arg1) && n == Min(w.arg1, MAX_FILE_SIZE - w.arg0)
    ensures var t' := HandleWrite(t, w).0;
            && Inv(t') && Path(w) in Contents(t')
            && (var c := Contents(t')[Path(w)].bytes; w.arg0 + n <= |c| <= MAX_FILE_SIZE && c[w.arg0..w.arg0 + n] == w.data[..n])
            && Contents(t') == Contents(t)[Path(w) := Contents(t')[Path(w)]]
  {
    FindIsLookup(t, Path(w));
    var i := Find(t, Path(w), 0);
    CopyOkIff(MAX_FILE_SIZE, w.arg0, w.arg1);
    assert EntryOk(t[i]);
    var f := Written(t[i], w.arg0, w.data[..n]);
    assert HandleWrite(t, w).0 == t[i := f];
    ContentsUpdate(t, i, f);
    InvUpdate(t, i, f);
    WrittenBytes(t[i], w.arg0, w.data[..n]);
  }

  /** A read of what a write put down returns it, in every well-formed table, and every other
      file is as before. Since the path and the payload are the same bytes of the message,
      what it returns begins with the path and its NUL. */
  lemma ReadAfterWrite(t: Table, w: Message, r: Message, n: nat)
    requires Inv(t) && Request(w) && Request(r) && Path(r) == Path(w) && Path(w) in Contents(t)
    requires TransferOk(MAX_FILE_SIZE, w.arg0, w.arg1) && n == Min(w.arg1, MAX_FILE_SIZE - w.arg0)
    requires r.arg0 == w.arg0 && r.arg1 == n
    ensures var t' := HandleWrite(t, w).0;
            && Inv(t') && HandleRead(t', r) == Reply(n, 0, w.data[..n])
            && (forall p :: p != Path(w) ==>
                 (p in Contents(t') <==> p in Contents(t)) && (p in Contents(t) ==> Contents(t')[p] == Contents(t)[p]))
    ensures n > |Path(w)| ==> w.data[..n][..|Path(w)| + 1] == Path(w) + [0]
  {
    WriteUpdate(t, w, n);
    ReadsBack(HandleWrite(t, w).0, r, w.data[..n]);
  }

  // ----- the boot table -----

  lemma AsciiPlain(s: string)
    requires forall i :: 0 <= i < |s| ==> 0 < s[i] as int < 128
    ensures 0 !in Ascii(s)
  {
  }

  lemma InstallSpec(t: Table, name: seq<Byte>, content: seq<Byte>)
    requires Inv(t) && Clean(t) && |name| < 63 && |content| <= MAX_FILE_SIZE && 0 !in name
    requires name !in Contents(t) && |Contents(t)| < MAX_FILES
    ensures var t' := Install(t, name, content);
            Inv(t') && Clean(t') && Contents(t') == Contents(t)[name := Content(content, 0)]
  {
    FullIff(t);
    var i := FindFree(t, 0);
    var f := Install(t, name, content)[i];
    CStrOf(name, name + [0]);
    CStrOf(name, f.name);
    assert ContentOf(f).bytes == content;
    assert EntryOk(t[i]) && CleanFile(t[i]);
    ContentsInsert(t, i, f);
    InvUpdate(t, i, f);
    CleanUpdate(t, i, f);
  }

  lemma EmptyTable(t: Table)
    requires Shape(t) && forall i :: 0 <= i < |t| ==> t[i] == EmptyFile
    ensures Inv(t) && Clean(t) && Contents(t) == map[]
  {
    assert forall i :: !Live(t, i);
    assert Distinct(t);
    ContentsIs(t, map[]);
  }

  /** The server starts with three files, on a table that satisfies the invariant. */
  lemma BootFiles()
    ensures Inv(Boot()) && Clean(Boot())
    ensures Contents(Boot()) == map[
              Ascii("/hello.txt") := Content(Ascii("Hello from Aegis RAM filesystem!\n"), 0),
              Ascii("/readme.md") := Content(Ascii("# Aegis OS\n\nA microkernel-based operating system.\n"), 0),
              Ascii("/version") := Content(Ascii("Aegis OS 0.1.0\n"), 0)]
  {
    var t0 := seq(MAX_FILES, i => EmptyFile);
    EmptyTable(t0);
    BootNames();
    var a, b, c := Ascii("/hello.txt"), Ascii("/readme.md"), Ascii("/version");
    var x, y := Ascii("Hello from Aegis RAM filesystem!\n"), Ascii("# Aegis OS\n\nA microkernel-based operating system.\n");
    InstallSpec(t0, a, x);
    var t1 := Install(t0, a, x);
    InstallSpec(t1, b, y);
    var t2 := Install(t1, b, y);
    InstallSpec(t2, c, Ascii("Aegis OS 0.1.0\n"));
  }

  lemma BootNames()
    ensures var a, b, c := Ascii("/hello.txt"), Ascii("/readme.md"), Ascii("/version");
            0 !in a && 0 !in b && 0 !in c && a != b && a != c && b != c
  {
    var a, b, c := Ascii("/hello.txt"), Ascii("/readme.md"), Ascii("/version");
    AsciiPlain("/hello.txt"); AsciiPlain("/readme.md"); AsciiPlain("/version");
    assert a[1] != b[1] && a[1] != c[1] && b[1] != c[1];
  }

  /** So from boot every guarded sequence of requests, deletes among them, gives the replies
      and the files of a map that starts with those three. */
  lemma BootRuns(es: seq<Event>)
    requires Guarded(Boot(), es)
    ensures forall i :: 0 <= i < |es| ==> Request(es[i].m)
    ensures Inv(Run(Boot(), es)) && Replies(Boot(), es) == MReplies(Contents(Boot()), es)
    ensures Contents(Run(Boot(), es)) == MRun(Contents(Boot()), es)
  {
    BootFiles();
    RunRefines(Boot(), es);
  }

  /** Without deletes, names of at most 63 bytes are all it takes. */
  lemma BootDeleteFree(es: seq<Event>)
    requires forall i :: 0 <= i < |es| ==>
               Request(es[i].m) && !es[i].EDelete? && (es[i].ECreate? ==> |Path(es[i].m)| <= 63)
    ensures Guarded(Boot(), es) && Clean(Run(Boot(), es))
  {
    BootFiles();
    DeleteFreeRuns(Boot(), es);
  }
}
