/** Every request, and every run of requests, on the table is the same request or run
    on a map from names to contents. */
module VfsRuns {
  import opened Bytes
  import opened VfsTable
  import opened VfsFiles
  import opened Words

  // ----- the map machine -----

  function Min(a: nat, b: nat): nat {
    if a < b then a else b
  }

  function Pad(c: seq<Byte>, n: nat): (r: seq<Byte>)
    ensures |r| == if |c| < n then n else |c|
  {
    if |c| >= n then c else c + Zeros(n - |c|)
  }

  /** `p` written over `c` from `off` on; a gap before it is zeros. */
  function Splice(c: seq<Byte>, off: nat, p: seq<Byte>): seq<Byte> {
    Pad(c, off)[..off] + p + if off + |p| < |c| then c[off + |p|..] else []
  }

  /** A transfer that stays inside the buffers: nothing wraps, it starts within the
      limit, and after clipping it fits in a message. */
  predicate TransferOk(limit: nat, offset: nat, count: nat) {
    offset <= limit && offset + count < WORD && Min(count, limit - offset) <= DATA_SIZE
  }

  ghost function MStep(m: Files, e: Event): (Files, Reply)
    requires Request(e.m)
  {
    var p := Path(e.m);
    if e.ECreate? then
      if p in m || |m| == MAX_FILES then (m, Refusal)
      else (m[p := Content([], e.m.arg0 % 0x1_0000_0000)], Reply(0, 0, []))
    else if p !in m then (m, Refusal)
    else
      var c := m[p].bytes;
      match e
      case EDelete(_) => (m - {p}, Reply(0, 0, []))
      case ERead(q) =>
        if !TransferOk(|c|, q.arg0, q.arg1) then (m, OutOfBounds)
        else var n := Min(q.arg1, |c| - q.arg0); (m, Reply(n, 0, c[q.arg0..q.arg0 + n]))
      case EWrite(q) =>
        if !TransferOk(MAX_FILE_SIZE, q.arg0, q.arg1) then (m, OutOfBounds)
        else
          var n := Min(q.arg1, MAX_FILE_SIZE - q.arg0);
          (m[p := m[p].(bytes := Splice(c, q.arg0, q.data[..n]))], Reply(n, 0, []))
      case ETruncate(q) =>
        var n := Min(q.arg0, MAX_FILE_SIZE);
        (m[p := m[p].(bytes := Pad(c, n)[..n])], Reply(0, 0, []))
  }

  // ----- the table's arithmetic -----

  /** A read or write copies outside its buffers exactly when its transfer is not ok. */
  lemma CopyOkIff(limit: nat, offset: nat, count: nat)
    requires limit <= MAX_FILE_SIZE && offset < WORD && count < WORD
    ensures var n := ReadCount(limit, offset, count);
            && (TransferOk(limit, offset, count) <==> n <= DATA_SIZE && offset + n <= MAX_FILE_SIZE)
            && (TransferOk(limit, offset, count) ==> n == Min(count, limit - offset))
  {
    Wrap(offset + count);
    Wrap(limit + WORD - offset);
  }

  lemma Wrap(x: nat)
    requires x < 2 * WORD
    ensures x % WORD == if x < WORD then x else x - WORD
  {
  }

  // ----- the bytes past the end -----

  /** Every byte past the size of a slot, free or not, is zero. */
  ghost predicate CleanFile(f: File) {
    f.size <= |f.data| && forall k :: f.size <= k < |f.data| ==> f.data[k] == 0
  }

  ghost predicate Clean(t: Table) {
    forall i :: 0 <= i < |t| ==> CleanFile(t[i])
  }

  /** The bytes from the end of the file up to `n` are zero. */
  ghost predicate ZeroGap(f: File, n: nat) {
    forall k :: f.size <= k < n && k < |f.data| ==> f.data[k] == 0
  }

  // ----- create -----

  /** The name that create stores: the path, cut to 63 bytes. */
  function Stored(path: seq<Byte>): seq<Byte> {
    path[..Min(63, |path|)]
  }

  lemma StoredName(dest: seq<Byte>, src: seq<Byte>)
    requires |dest| == NAME_SIZE && |src| == DATA_SIZE
    ensures var r := StrNCpy(dest, src, 63)[63 := 0]; |r| == NAME_SIZE && CStr(r) == Stored(CStr(src)) && Terminated(r)
  {
    var r := StrNCpy(dest, src, 63)[63 := 0];
    var k := |CStr(src)|;
    if k < 63 {
      CStrOf(src[..k], r);
    } else {
      assert forall i :: 0 <= i < 63 ==> CStr(src)[i] in CStr(src) && src[i] == CStr(src)[i];
      assert 0 !in src[..63];
      CStrOf(src[..63], r);
      assert Stored(CStr(src)) == src[..63];
    }
  }

  lemma CreateSpec(t: Table, m: Message)
    requires Inv(t) && Request(m) && (Path(m) in Contents(t) || Stored(Path(m)) !in Contents(t))
    ensures var (t', r) := HandleCreate(t, m);
            && Inv(t')
            && (Path(m) in Contents(t) || |Contents(t)| == MAX_FILES ==> t' == t && r == Refusal)
            && (Path(m) !in Contents(t) && |Contents(t)| != MAX_FILES ==>
                 && r == Reply(0, 0, [])
                 && Contents(t') == Contents(t)[Stored(Path(m)) := Content([], m.arg0 % 0x1_0000_0000)])
            && (Clean(t) ==> Clean(t'))
  {
    FindIsLookup(t, Path(m));
    FullIff(t);
    var i := FindFree(t, 0);
    if Find(t, Path(m), 0) == |t| && i < |t| {
      StoredName(t[i].name, m.data);
      var f := HandleCreate(t, m).0[i];
      assert ContentOf(f) == Content([], m.arg0 % 0x1_0000_0000);
      ContentsInsert(t, i, f);
      InvUpdate(t, i, f);
      if Clean(t) {
        assert CleanFile(t[i]);
      }
    }
  }

  lemma InvUpdate(t: Table, i: nat, f: File)
    requires Inv(t) && i < |t| && Distinct(t[i := f])
    requires |f.name| == NAME_SIZE && |f.data| == MAX_FILE_SIZE && EntryOk(f)
    ensures Inv(t[i := f])
  {
  }

  lemma CleanUpdate(t: Table, i: nat, f: File)
    requires Clean(t) && i < |t| && CleanFile(f)
    ensures Clean(t[i := f])
  {
  }

  // ----- delete -----

  lemma DeleteSpec(t: Table, m: Message)
    requires Inv(t) && Request(m)
    ensures var (t', r) := HandleDelete(t, m);
            Inv(t') && (Contents(t'), r) == MStep(Contents(t), EDelete(m))
  {
    FindIsLookup(t, Path(m));
    var i := Find(t, Path(m), 0);
    if i < |t| {
      var f := t[i].(used := false, size := 0);
      ContentsRemove(t, i, f);
      InvUpdate(t, i, f);
    }
  }

  /** Delete leaves the old bytes in the slot: the slots stay clean exactly when the
      deleted file held nothing but zeros. */
  lemma DeleteCleanIff(t: Table, m: Message)
    requires Inv(t) && Request(m) && Clean(t) && Path(m) in Contents(t)
    ensures Clean(HandleDelete(t, m).0) <==> Contents(t)[Path(m)].bytes == Zeros(|Contents(t)[Path(m)].bytes|)
  {
    FindIsLookup(t, Path(m));
    var i := Find(t, Path(m), 0);
    var f, c := t[i].(used := false, size := 0), Contents(t)[Path(m)].bytes;
    assert CleanFile(t[i]) && EntryOk(t[i]);
    assert c == t[i].data[..t[i].size] && HandleDelete(t, m).0 == t[i := f];
    if CleanFile(f) {
      forall k | 0 <= k < |c| ensures c[k] == 0 {
        assert c[k] == f.data[k];
      }
      CleanUpdate(t, i, f);
    } else {
      var k :| 0 <= k < |f.data| && f.data[k] != 0;
      assert k < |c| && c[k] == f.data[k];
      assert t[i := f][i] == f;
    }
  }

  // ----- read -----

  lemma ReadSpec(t: Table, m: Message)
    requires Inv(t) && Request(m)
    ensures HandleRead(t, m) == MStep(Contents(t), ERead(m)).1
  {
    FindIsLookup(t, Path(m));
    var i := Find(t, Path(m), 0);
    if i < |t| {
      assert EntryOk(t[i]);
      CopyOkIff(t[i].size, m.arg0, m.arg1);
      if TransferOk(t[i].size, m.arg0, m.arg1) {
        ReadBytes(t[i], m.arg0, Min(m.arg1, t[i].size - m.arg0));
      }
    }
  }

  lemma ReadBytes(f: File, off: nat, n: nat)
    requires off + n <= f.size <= |f.data|
    ensures f.data[off..off + n] == f.data[..f.size][off..off + n]
  {
  }

  // ----- write -----

  /** The file of a successful write of the first `n` bytes of the message at `off`. */
  function Written(f: File, off: nat, p: seq<Byte>): (g: File)
    requires |f.data| == MAX_FILE_SIZE && off + |p| <= MAX_FILE_SIZE
    ensures |g.data| == MAX_FILE_SIZE
  {
    f.(data := f.data[..off] + p + f.data[off + |p|..], size := if off + |p| > f.size then off + |p| else f.size)
  }

  lemma GapIsZeros(f: File, n: nat)
    requires f.size <= n <= |f.data|
    ensures f.data[..n] == f.data[..f.size] + Zeros(n - f.size) <==> ZeroGap(f, n)
  {
    var z := f.data[..f.size] + Zeros(n - f.size);
    if f.data[..n] == z {
      forall k | f.size <= k < n ensures f.data[k] == 0 {
        assert f.data[..n][k] == z[k];
      }
    }
  }

  /** The write is a splice exactly when the gap before it, if any, holds zeros. */
  lemma WrittenContent(f: File, off: nat, p: seq<Byte>)
    requires |f.data| == MAX_FILE_SIZE && off + |p| <= MAX_FILE_SIZE && f.size <= MAX_FILE_SIZE
    ensures ContentOf(Written(f, off, p)).bytes == Splice(ContentOf(f).bytes, off, p) <==> ZeroGap(f, off)
  {
    var c, g := ContentOf(f).bytes, Written(f, off, p);
    if off > f.size {
      assert g.data[..off + |p|] == f.data[..off] + p;
      GapIsZeros(f, off);
      SamePrefix(f.data[..off], c + Zeros(off - f.size), p);
    } else {
      assert Pad(c, off)[..off] == f.data[..off];
      if off + |p| < f.size {
        assert g.data[..f.size] == f.data[..off] + p + f.data[off + |p|..f.size];
        assert c[off + |p|..] == f.data[off + |p|..f.size];
      } else {
        assert g.data[..off + |p|] == f.data[..off] + p;
      }
    }
  }

  lemma SamePrefix(a: seq<Byte>, b: seq<Byte>, p: seq<Byte>)
    requires |a| == |b|
    ensures a + p == b[..|b|] + p + [] <==> a == b
  {
    if a + p == b[..|b|] + p + [] {
      assert (a + p)[..|a|] == a && (b[..|b|] + p + [])[..|b|] == b;
    }
  }

  lemma WrittenClean(f: File, off: nat, p: seq<Byte>)
    requires |f.data| == MAX_FILE_SIZE && off + |p| <= MAX_FILE_SIZE && CleanFile(f)
    ensures CleanFile(Written(f, off, p))
  {
  }

  /** The gap that a write leaves behind it holds zeros, if the write is done at all. */
  ghost predicate WriteGapZero(t: Table, m: Message) {
    var i := Find(t, Path(m), 0);
    i < |t| && TransferOk(MAX_FILE_SIZE, m.arg0, m.arg1) ==> ZeroGap(t[i], m.arg0)
  }

  /** A write keeps the table well-formed and replies as the map does; it does to the files
      what it does to the map exactly when the slot's own gap holds zeros. */
  lemma WriteSpec(t: Table, m: Message)
    requires Inv(t) && Request(m)
    ensures var (t', r) := HandleWrite(t, m);
            && Inv(t') && r == MStep(Contents(t), EWrite(m)).1
            && (Contents(t') == MStep(Contents(t), EWrite(m)).0 <==> WriteGapZero(t, m))
            && (Clean(t) ==> Clean(t') && WriteGapZero(t, m))
  {
    FindIsLookup(t, Path(m));
    var i := Find(t, Path(m), 0);
    CopyOkIff(MAX_FILE_SIZE, m.arg0, m.arg1);
    if i < |t| && TransferOk(MAX_FILE_SIZE, m.arg0, m.arg1) {
      var n := Min(m.arg1, MAX_FILE_SIZE - m.arg0);
      assert HandleWrite(t, m).0 == t[i := Written(t[i], m.arg0, m.data[..n])];
      WriteUpdates(t, i, m.arg0, m.data[..n]);
    }
  }

  lemma WriteUpdates(t: Table, i: nat, off: nat, p: seq<Byte>)
    requires Inv(t) && Live(t, i) && off + |p| <= MAX_FILE_SIZE
    ensures var u := t[i := Written(t[i], off, p)];
            var c := ContentOf(t[i]);
            && Inv(u) && (Clean(t) ==> Clean(u) && ZeroGap(t[i], off))
            && (Contents(u) == Contents(t)[Name(t[i]) := c.(bytes := Splice(c.bytes, off, p))] <==> ZeroGap(t[i], off))
  {
    var f, c := Written(t[i], off, p), ContentOf(t[i]);
    assert EntryOk(t[i]) && (Clean(t) ==> CleanFile(t[i]));
    WrittenContent(t[i], off, p);
    ContentsUpdate(t, i, f);
    InvUpdate(t, i, f);
    SameUpdate(Contents(t), Name(f), ContentOf(f), c.(bytes := Splice(c.bytes, off, p)));
    if Clean(t) {
      WrittenClean(t[i], off, p);
      CleanUpdate(t, i, f);
    }
  }

  lemma SameUpdate(m: Files, p: seq<Byte>, c: Content, d: Content)
    ensures m[p := c] == m[p := d] <==> c == d
  {
    assert m[p := c][p] == c && m[p := d][p] == d;
  }

  // ----- truncate -----

  lemma TruncatedContent(f: File, n: nat, g: File)
    requires |f.data| == MAX_FILE_SIZE && n <= MAX_FILE_SIZE && f.size <= MAX_FILE_SIZE
    requires g == if n >= f.size then f.(size := n)
                  else f.(data := f.data[..n] + Zeros(f.size - n) + f.data[f.size..], size := n)
    ensures ContentOf(g).bytes == Pad(ContentOf(f).bytes, n)[..n] <==> ZeroGap(f, n)
    ensures CleanFile(f) ==> CleanFile(g) && ZeroGap(f, n)
  {
    var c := ContentOf(f).bytes;
    if n >= f.size {
      GapIsZeros(f, n);
      assert Pad(c, n)[..n] == Pad(c, n) == c + Zeros(n - f.size);
    } else {
      assert ContentOf(g).bytes == f.data[..n] == c[..n];
    }
  }

  /** The gap over which a truncate grows the file holds zeros. */
  ghost predicate TruncateGapZero(t: Table, m: Message) {
    var i := Find(t, Path(m), 0);
    i < |t| ==> ZeroGap(t[i], Min(m.arg0, MAX_FILE_SIZE))
  }

  lemma TruncateSpec(t: Table, m: Message)
    requires Inv(t) && Request(m)
    ensures var (t', r) := HandleTruncate(t, m);
            && Inv(t') && r == MStep(Contents(t), ETruncate(m)).1
            && (Contents(t') == MStep(Contents(t), ETruncate(m)).0 <==> TruncateGapZero(t, m))
            && (Clean(t) ==> Clean(t') && TruncateGapZero(t, m))
  {
    FindIsLookup(t, Path(m));
    var i := Find(t, Path(m), 0);
    if i < |t| {
      var n := Min(m.arg0, MAX_FILE_SIZE);
      var f, c := HandleTruncate(t, m).0[i], ContentOf(t[i]);
      assert EntryOk(t[i]) && (Clean(t) ==> CleanFile(t[i]));
      TruncatedContent(t[i], n, f);
      ContentsUpdate(t, i, f);
      InvUpdate(t, i, f);
      SameUpdate(Contents(t), Name(f), ContentOf(f), c.(bytes := Pad(c.bytes, n)[..n]));
      if Clean(t) {
        CleanUpdate(t, i, f);
      }
    }
  }

  // ----- steps and runs -----

  /** A name of at most 63 bytes, unless there is no slot for it anyway; growth only over
      bytes that are zero in the file's own slot. */
  ghost predicate Guard(t: Table, e: Event)
    requires Shape(t)
  {
    && Request(e.m)
    && match e
       case ECreate(m) => |Path(m)| <= 63 || |Contents(t)| == MAX_FILES
       case EWrite(m) => WriteGapZero(t, m)
       case ETruncate(m) => TruncateGapZero(t, m)
       case _ => true
  }

  lemma CreateRefines(t: Table, m: Message)
    requires Inv(t) && Request(m) && (|Path(m)| <= 63 || |Contents(t)| == MAX_FILES)
    ensures var (t', r) := HandleCreate(t, m);
            && Inv(t') && (Contents(t'), r) == MStep(Contents(t), ECreate(m))
            && (Clean(t) ==> Clean(t'))
  {
    if |Path(m)| <= 63 {
      assert Stored(Path(m)) == Path(m);
      CreateSpec(t, m);
    } else {
      FullIff(t);
    }
  }

  lemma StepRefines(t: Table, e: Event)
    requires Inv(t) && Guard(t, e)
    ensures var (t', r) := Step(t, e);
            && Inv(t') && (Contents(t'), r) == MStep(Contents(t), e)
            && (Clean(t) && !e.EDelete? ==> Clean(t'))
  {
    match e
    case ECreate(m) => CreateRefines(t, m);
    case EDelete(m) => DeleteSpec(t, m);
    case ERead(m) => ReadSpec(t, m);
    case EWrite(m) => WriteSpec(t, m);
    case ETruncate(m) => TruncateSpec(t, m);
  }

  /** Without old bytes anywhere, every growth is over zeros. */
  lemma CleanGuard(t: Table, e: Event)
    requires Inv(t) && Clean(t) && Request(e.m) && (e.ECreate? ==> |Path(e.m)| <= 63)
    ensures Guard(t, e)
  {
    if e.EWrite? {
      WriteSpec(t, e.m);
    } else if e.ETruncate? {
      TruncateSpec(t, e.m);
    }
  }

  ghost function Run(t: Table, es: seq<Event>): (t': Table)
    requires Shape(t) && forall i :: 0 <= i < |es| ==> Request(es[i].m)
    ensures Shape(t')
    decreases |es|
  {
    if es == [] then t else Run(Step(t, es[0]).0, es[1..])
  }

  ghost function MRun(m: Files, es: seq<Event>): Files
    requires forall i :: 0 <= i < |es| ==> Request(es[i].m)
    decreases |es|
  {
    if es == [] then m else MRun(MStep(m, es[0]).0, es[1..])
  }

  ghost function Replies(t: Table, es: seq<Event>): seq<Reply>
    requires Shape(t) && forall i :: 0 <= i < |es| ==> Request(es[i].m)
    decreases |es|
  {
    if es == [] then [] else [Step(t, es[0]).1] + Replies(Step(t, es[0]).0, es[1..])
  }

  ghost function MReplies(m: Files, es: seq<Event>): seq<Reply>
    requires forall i :: 0 <= i < |es| ==> Request(es[i].m)
    decreases |es|
  {
    if es == [] then [] else [MStep(m, es[0]).1] + MReplies(MStep(m, es[0]).0, es[1..])
  }

  ghost predicate Guarded(t: Table, es: seq<Event>)
    requires Shape(t)
    decreases |es|
  {
    es != [] ==> Guard(t, es[0]) && Guarded(Step(t, es[0]).0, es[1..])
  }

  lemma {:induction false} GuardedRequests(t: Table, es: seq<Event>)
    requires Shape(t) && Guarded(t, es)
    ensures forall i :: 0 <= i < |es| ==> Request(es[i].m)
    decreases |es|
  {
    if es != [] {
      GuardedRequests(Step(t, es[0]).0, es[1..]);
      assert forall i :: 1 <= i < |es| ==> es[i] == es[1..][i - 1];
    }
  }

  /** Over every guarded run the table is the map: same files after it, same replies. */
  lemma {:induction false} RunRefines(t: Table, es: seq<Event>)
    requires Inv(t) && Guarded(t, es)
    ensures forall i :: 0 <= i < |es| ==> Request(es[i].m)
    ensures Inv(Run(t, es)) && Contents(Run(t, es)) == MRun(Contents(t), es)
    ensures Replies(t, es) == MReplies(Contents(t), es)
    decreases |es|
  {
    GuardedRequests(t, es);
    if es != [] {
      StepRefines(t, es[0]);
      RunRefines(Step(t, es[0]).0, es[1..]);
    }
  }

  /** Without deletes every byte past the end of a file stays zero, so the guard on
      growth holds by itself: any sequence of creates (of names of at most 63 bytes),
      reads, writes and truncates refines the map. */
  lemma {:induction false} DeleteFreeRuns(t: Table, es: seq<Event>)
    requires Inv(t) && Clean(t)
    requires forall i :: 0 <= i < |es| ==>
               Request(es[i].m) && !es[i].EDelete? && (es[i].ECreate? ==> |Path(es[i].m)| <= 63)
    ensures Guarded(t, es) && Clean(Run(t, es))
    decreases |es|
  {
    if es != [] {
      CleanGuard(t, es[0]);
      StepRefines(t, es[0]);
      DeleteFreeRuns(Step(t, es[0]).0, es[1..]);
    }
  }

  // ----- slots that no delete has freed -----

  /** No delete of the run frees slot `i`. */
  ghost predicate Spares(t: Table, es: seq<Event>, i: nat)
    requires Shape(t) && forall j :: 0 <= j < |es| ==> Request(es[j].m)
    decreases |es|
  {
    es != [] ==>
      && (es[0].EDelete? ==> Find(t, Path(es[0].m), 0) != i)
      && Spares(Step(t, es[0]).0, es[1..], i)
  }

  lemma WriteKeepsSlotClean(t: Table, m: Message, i: nat)
    requires Inv(t) && Request(m) && i < |t| && CleanFile(t[i])
    ensures CleanFile(HandleWrite(t, m).0[i])
  {
    CopyOkIff(MAX_FILE_SIZE, m.arg0, m.arg1);
    if Find(t, Path(m), 0) == i && TransferOk(MAX_FILE_SIZE, m.arg0, m.arg1) {
      var n := Min(m.arg1, MAX_FILE_SIZE - m.arg0);
      assert HandleWrite(t, m).0[i] == Written(t[i], m.arg0, m.data[..n]);
      WrittenClean(t[i], m.arg0, m.data[..n]);
    }
  }

  lemma TruncateKeepsSlotClean(t: Table, m: Message, i: nat)
    requires Inv(t) && Request(m) && i < |t| && CleanFile(t[i])
    ensures CleanFile(HandleTruncate(t, m).0[i])
  {
    assert EntryOk(t[i]);
    if Find(t, Path(m), 0) == i {
      TruncatedContent(t[i], Min(m.arg0, MAX_FILE_SIZE), HandleTruncate(t, m).0[i]);
    }
  }

  lemma StepKeepsSlotClean(t: Table, e: Event, i: nat)
    requires Inv(t) && Request(e.m) && i < |t| && CleanFile(t[i])
    requires e.EDelete? ==> Find(t, Path(e.m), 0) != i
    ensures CleanFile(Step(t, e).0[i])
  {
    match e
    case EWrite(m) => WriteKeepsSlotClean(t, m, i);
    case ETruncate(m) => TruncateKeepsSlotClean(t, m, i);
    case _ => assert EntryOk(t[i]);
  }

  /** Deletes elsewhere leave a slot clean: after any guarded run that does not free it, the
      bytes past its file's end are zero. */
  lemma {:induction false} RunKeepsSlotClean(t: Table, es: seq<Event>, i: nat)
    requires Inv(t) && Guarded(t, es) && i < |t| && CleanFile(t[i])
    ensures forall j :: 0 <= j < |es| ==> Request(es[j].m)
    ensures Spares(t, es, i) ==> CleanFile(Run(t, es)[i])
    decreases |es|
  {
    GuardedRequests(t, es);
    if es != [] && Spares(t, es, i) {
      StepRefines(t, es[0]);
      StepKeepsSlotClean(t, es[0], i);
      RunKeepsSlotClean(Step(t, es[0]).0, es[1..], i);
    }
  }

  /** So a file in such a slot grows over zeros, whatever was deleted. */
  lemma GrowsOverZeros(t: Table, es: seq<Event>, e: Event)
    requires Inv(t) && Clean(t) && Guarded(t, es) && Request(e.m) && (e.EWrite? || e.ETruncate?)
    ensures forall j :: 0 <= j < |es| ==> Request(es[j].m)
    ensures Spares(t, es, Find(Run(t, es), Path(e.m), 0)) ==> Guard(Run(t, es), e)
  {
    RunRefines(t, es);
    var u := Run(t, es);
    var i := Find(u, Path(e.m), 0);
    if i < |u| && Spares(t, es, i) {
      RunKeepsSlotClean(t, es, i);
    }
  }
}
