/** What a load leaves in memory, for an image whose segments stay out of each other's way
    and out of the image's own. */
module ElfProofs {
  import opened Bytes
  import opened LittleEndian
  import opened ElfMemory
  import opened Words

  // ----- the byte loops -----

  /** memcpy from the first byte on also moves bytes downwards over themselves. */
  lemma {:induction false} CopySpec(m: Memory, dst: nat, src: nat, n: nat, a: nat)
    requires dst + n <= WORD && src + n <= WORD && (dst <= src || src + n <= dst) && a < WORD
    ensures Copy(m, dst, src, n)[a] == if dst <= a < dst + n then m[src + (a - dst)] else m[a]
    decreases n
  {
    if n > 0 {
      CopySpec(m[dst := m[src]], dst + 1, src + 1, n - 1, a);
    }
  }

  lemma {:induction false} ClearSpec(m: Memory, dst: nat, n: nat, a: nat)
    requires dst + n <= WORD && a < WORD
    ensures Clear(m, dst, n)[a] == if dst <= a < dst + n then 0 else m[a]
    decreases n
  {
    if n > 0 {
      ClearSpec(m[dst := 0], dst + 1, n - 1, a);
    }
  }

  // ----- segments as values -----

  /** The bytes a segment writes: the file's, and more if it has more in memory. */
  function Extent(s: Segment): nat {
    if s.memsz > s.filesz then s.memsz else s.filesz
  }

  predicate Into(s: Segment, a: nat) {
    s.vaddr <= a < s.vaddr + Extent(s)
  }

  /** The segment writes none of the `n` bytes from `lo` on. */
  predicate Avoids(s: Segment, lo: nat, n: nat) {
    Extent(s) == 0 || n == 0 || s.vaddr + Extent(s) <= lo || lo + n <= s.vaddr
  }

  predicate Fits(at: nat, s: Segment) {
    at + s.offset + s.filesz <= WORD && s.vaddr + Extent(s) <= WORD && Avoids(s, at + s.offset, s.filesz)
  }

  function LoadOne(m: Memory, at: nat, s: Segment): Memory {
    var copied := Copy(m, s.vaddr, at + s.offset, s.filesz);
    if s.memsz > s.filesz then Clear(copied, s.vaddr + s.filesz, s.memsz - s.filesz) else copied
  }

  function LoadAll(m: Memory, at: nat, segs: seq<Segment>): Memory
    decreases |segs|
  {
    if segs == [] then m else LoadAll(LoadOne(m, at, segs[0]), at, segs[1..])
  }

  /** What belongs at address `a` of the segment: its file byte, or zero past the file's. */
  function SegmentByte(m: Memory, at: nat, s: Segment, a: nat): Byte
    requires Into(s, a)
  {
    if a < s.vaddr + s.filesz then At(m, at + s.offset + (a - s.vaddr)) else 0
  }

  lemma LoadOneSpec(m: Memory, at: nat, s: Segment, a: nat)
    requires Fits(at, s) && a < WORD
    ensures LoadOne(m, at, s)[a] == if Into(s, a) then SegmentByte(m, at, s, a) else m[a]
  {
    if s.filesz > 0 {
      CopySpec(m, s.vaddr, at + s.offset, s.filesz, a);
    }
    if s.memsz > s.filesz {
      ClearSpec(Copy(m, s.vaddr, at + s.offset, s.filesz), s.vaddr + s.filesz, s.memsz - s.filesz, a);
    }
  }

  /** No segment writes what another one reads or writes. */
  ghost predicate Apart(at: nat, segs: seq<Segment>) {
    && (forall i :: 0 <= i < |segs| ==> Fits(at, segs[i]))
    && (forall i, j :: 0 <= i < |segs| && 0 <= j < |segs| ==> Avoids(segs[i], at + segs[j].offset, segs[j].filesz))
    && (forall i, j :: 0 <= i < j < |segs| ==> Avoids(segs[i], segs[j].vaddr, Extent(segs[j])))
  }

  /** The first segment that writes address `a`, or their number. */
  function Owner(segs: seq<Segment>, a: nat): (o: nat)
    ensures o <= |segs|
    ensures o < |segs| ==> Into(segs[o], a)
    ensures forall j :: 0 <= j < o ==> !Into(segs[j], a)
  {
    if segs == [] || Into(segs[0], a) then 0 else 1 + Owner(segs[1..], a)
  }

  /** The byte at `a` after every segment is loaded. */
  function Expected(m: Memory, at: nat, segs: seq<Segment>, a: nat): Byte
    requires a < WORD
  {
    var o := Owner(segs, a);
    if o < |segs| then SegmentByte(m, at, segs[o], a) else m[a]
  }

  lemma ApartTail(at: nat, segs: seq<Segment>)
    requires segs != [] && Apart(at, segs)
    ensures Apart(at, segs[1..])
  {
  }

  lemma OnlyOwner(at: nat, segs: seq<Segment>, j: nat, a: nat)
    requires Apart(at, segs) && j < |segs| && Into(segs[j], a)
    ensures Owner(segs, a) == j
  {
  }

  /** A segment's file bytes are the ones it had before another segment was loaded. */
  lemma SourceKept(m: Memory, at: nat, s: Segment, t: Segment, a: nat)
    requires Fits(at, s) && Fits(at, t) && Avoids(s, at + t.offset, t.filesz) && Into(t, a)
    ensures SegmentByte(LoadOne(m, at, s), at, t, a) == SegmentByte(m, at, t, a)
  {
    if a < t.vaddr + t.filesz {
      LoadOneSpec(m, at, s, at + t.offset + (a - t.vaddr));
    }
  }

  lemma {:induction false} LoadAllSpec(m: Memory, at: nat, segs: seq<Segment>, a: nat)
    requires Apart(at, segs) && a < WORD
    ensures LoadAll(m, at, segs)[a] == Expected(m, at, segs, a)
    decreases |segs|
  {
    if segs != [] {
      var s, rest := segs[0], segs[1..];
      ApartTail(at, segs);
      LoadAllSpec(LoadOne(m, at, s), at, rest, a);
      LoadOneSpec(m, at, s, a);
      var o := Owner(rest, a);
      if o < |rest| {
        OnlyOwner(at, segs, o + 1, a);
        SourceKept(m, at, s, rest[o], a);
      }
    }
  }

  lemma SameOwner(m: Memory, at: nat, s1: seq<Segment>, s2: seq<Segment>, a: nat)
    requires Apart(at, s2) && a < WORD && forall s :: s in s1 ==> s in s2
    requires Owner(s1, a) < |s1|
    ensures Expected(m, at, s1, a) == Expected(m, at, s2, a)
  {
    var s := s1[Owner(s1, a)];
    assert s in s2;
    var j :| 0 <= j < |s2| && s2[j] == s;
    OnlyOwner(at, s2, j, a);
  }

  /** The order of the segments makes no difference. */
  lemma OrderFree(m: Memory, at: nat, s1: seq<Segment>, s2: seq<Segment>)
    requires Apart(at, s1) && Apart(at, s2) && forall s :: s in s1 <==> s in s2
    ensures LoadAll(m, at, s1) == LoadAll(m, at, s2)
  {
    forall a | 0 <= a < WORD ensures LoadAll(m, at, s1)[a] == LoadAll(m, at, s2)[a] {
      LoadAllSpec(m, at, s1, a);
      LoadAllSpec(m, at, s2, a);
      if Owner(s1, a) < |s1| {
        SameOwner(m, at, s1, s2, a);
      } else if Owner(s2, a) < |s2| {
        SameOwner(m, at, s2, s1, a);
      }
    }
  }

  // ----- the loop over the headers in memory -----

  ghost predicate Agree(m: Memory, n: Memory, lo: nat, k: nat) {
    lo + k <= WORD && forall a :: lo <= a < lo + k ==> m[a] == n[a]
  }

  lemma FieldAgrees(m: Memory, n: Memory, lo: nat, k: nat, a: nat, w: nat)
    requires Agree(m, n, lo, k) && lo <= a && a + w <= lo + k
    ensures Field(m, a, w) == Field(n, a, w)
  {
    forall j | 0 <= j < w ensures Span(m, a, w)[j] == Span(n, a, w)[j] {
      assert m[a + j] == n[a + j];
    }
    assert Span(m, a, w) == Span(n, a, w);
  }

  /** The segment of the header at `p`, if it is a PT_LOAD one. */
  function SegmentOf(m: Memory, p: nat): seq<Segment> {
    if Field(m, p, 4) == PT_LOAD then [SegmentAt(m, p)] else []
  }

  function Headers(m: Memory, table: nat, count: nat): (hs: seq<seq<Segment>>)
    ensures |hs| == count && forall i :: 0 <= i < count ==> hs[i] == SegmentOf(m, table + PHDR_SIZE * i)
  {
    seq(count, i requires 0 <= i < count => SegmentOf(m, table + PHDR_SIZE * i))
  }

  function Flatten(hs: seq<seq<Segment>>, i: nat): seq<Segment>
    decreases |hs| - i
  {
    if i >= |hs| then [] else hs[i] + Flatten(hs, i + 1)
  }

  /** The PT_LOAD segments from header `i` on. */
  function Segments(m: Memory, table: nat, i: nat, count: nat): seq<Segment> {
    Flatten(Headers(m, table, count), i)
  }

  lemma HeaderAgrees(m: Memory, n: Memory, table: nat, count: nat, i: nat)
    requires Agree(m, n, table, PHDR_SIZE * count) && i < count
    ensures var p := table + PHDR_SIZE * i;
            SegmentOf(m, p) == SegmentOf(n, p) && SegmentAt(m, p) == SegmentAt(n, p)
  {
    var p, k := table + PHDR_SIZE * i, PHDR_SIZE * count;
    assert p + PHDR_SIZE <= table + k;
    FieldAgrees(m, n, table, k, p, 4);
    FieldAgrees(m, n, table, k, p + 8, 8);
    FieldAgrees(m, n, table, k, p + 16, 8);
    FieldAgrees(m, n, table, k, p + 32, 8);
    FieldAgrees(m, n, table, k, p + 40, 8);
  }

  lemma SegmentsAgree(m: Memory, n: Memory, table: nat, i: nat, count: nat)
    requires Agree(m, n, table, PHDR_SIZE * count)
    ensures Segments(m, table, i, count) == Segments(n, table, i, count)
  {
    forall j | 0 <= j < count ensures Headers(m, table, count)[j] == Headers(n, table, count)[j] {
      HeaderAgrees(m, n, table, count, j);
    }
    assert Headers(m, table, count) == Headers(n, table, count);
  }

  /** No segment writes the header or the table of program headers. */
  ghost predicate HeadersKept(at: nat, table: nat, count: nat, segs: seq<Segment>) {
    && at + EHDR_SIZE <= WORD && table + PHDR_SIZE * count <= WORD
    && forall i :: 0 <= i < |segs| ==> Avoids(segs[i], at, EHDR_SIZE) && Avoids(segs[i], table, PHDR_SIZE * count)
  }

  lemma AvoidsAgrees(m: Memory, at: nat, s: Segment, lo: nat, k: nat)
    requires Fits(at, s) && Avoids(s, lo, k) && lo + k <= WORD
    ensures Agree(m, LoadOne(m, at, s), lo, k)
  {
    forall a | lo <= a < lo + k ensures m[a] == LoadOne(m, at, s)[a] {
      LoadOneSpec(m, at, s, a);
    }
  }

  lemma CopyAgrees(m: Memory, at: nat, s: Segment, lo: nat, k: nat)
    requires Fits(at, s) && Avoids(s, lo, k) && lo + k <= WORD
    ensures Agree(m, Copy(m, s.vaddr, at + s.offset, s.filesz), lo, k)
  {
    forall a | lo <= a < lo + k ensures m[a] == Copy(m, s.vaddr, at + s.offset, s.filesz)[a] {
      if s.filesz > 0 {
        CopySpec(m, s.vaddr, at + s.offset, s.filesz, a);
      }
    }
  }

  /** Reading the sizes again after the copy makes no difference. */
  lemma LoadAtIsLoadOne(m: Memory, at: nat, table: nat, count: nat, i: nat)
    requires i < count && table + PHDR_SIZE * count <= WORD
    requires var s := SegmentAt(m, table + PHDR_SIZE * i); Fits(at, s) && Avoids(s, table, PHDR_SIZE * count)
    ensures var p := table + PHDR_SIZE * i; LoadAt(m, at, p) == LoadOne(m, at, SegmentAt(m, p))
  {
    var s := SegmentAt(m, table + PHDR_SIZE * i);
    CopyAgrees(m, at, s, table, PHDR_SIZE * count);
    HeaderAgrees(m, Copy(m, s.vaddr, at + s.offset, s.filesz), table, count, i);
    SameSizesRead(m, at, table + PHDR_SIZE * i, s);
  }

  lemma SameSizesRead(m: Memory, at: nat, p: nat, s: Segment)
    requires s == SegmentAt(m, p) && SegmentAt(Copy(m, s.vaddr, at + s.offset, s.filesz), p) == s
    ensures LoadAt(m, at, p) == LoadOne(m, at, s)
  {
  }

  /** The loop over headers in memory loads the segments the headers named at the start. */
  lemma {:induction false} LoadFromIsLoadAll(m: Memory, at: nat, table: nat, i: nat, count: nat, segs: seq<Segment>)
    requires count == PhNum(m, at) && segs == Segments(m, table, i, count)
    requires Apart(at, segs) && HeadersKept(at, table, count, segs)
    ensures LoadFrom(m, at, table, i) == LoadAll(m, at, segs)
    decreases 0x1_0000 - i, table
  {
    if i < count {
      var p := table + PHDR_SIZE * i;
      if Field(m, p, 4) != PT_LOAD {
        SkipHeader(m, at, table, i, count, segs);
        LoadFromIsLoadAll(m, at, table, i + 1, count, segs);
      } else {
        var s := SegmentAt(m, p);
        var rest := NextSegment(m, at, table, i, count, s, segs);
        LoadFromIsLoadAll(LoadOne(m, at, s), at, table, i + 1, count, rest);
        LoadFirst(m, at, s, rest, segs);
      }
    }
  }

  lemma LoadFirst(m: Memory, at: nat, s: Segment, rest: seq<Segment>, segs: seq<Segment>)
    requires segs == [s] + rest
    ensures LoadAll(m, at, segs) == LoadAll(LoadOne(m, at, s), at, rest)
  {
    assert segs[0] == s && segs[1..] == rest;
  }

  /** A header that is not PT_LOAD names no segment, and the loop passes it by. */
  lemma SkipHeader(m: Memory, at: nat, table: nat, i: nat, count: nat, segs: seq<Segment>)
    requires count == PhNum(m, at) && segs == Segments(m, table, i, count)
    requires i < count && Field(m, table + PHDR_SIZE * i, 4) != PT_LOAD
    ensures segs == Segments(m, table, i + 1, count)
    ensures LoadFrom(m, at, table, i) == LoadFrom(m, at, table, i + 1)
  {
    assert segs == [] + Segments(m, table, i + 1, count) == Segments(m, table, i + 1, count);
    LoadFromTurn(m, m, at, table, i);
  }

  /** After the segment of header `i` the loop goes on as if with the same headers. */
  lemma NextSegment(m: Memory, at: nat, table: nat, i: nat, count: nat, s: Segment, segs: seq<Segment>)
    returns (rest: seq<Segment>)
    requires count == PhNum(m, at) && segs == Segments(m, table, i, count)
    requires Apart(at, segs) && HeadersKept(at, table, count, segs)
    requires i < count && Field(m, table + PHDR_SIZE * i, 4) == PT_LOAD && s == SegmentAt(m, table + PHDR_SIZE * i)
    ensures LoadFrom(m, at, table, i) == LoadFrom(LoadOne(m, at, s), at, table, i + 1) && segs == [s] + rest
    ensures PhNum(LoadOne(m, at, s), at) == count && Segments(LoadOne(m, at, s), table, i + 1, count) == rest
    ensures Apart(at, rest) && HeadersKept(at, table, count, rest)
  {
    rest := Segments(m, table, i + 1, count);
    RestApart(at, table, count, s, rest);
    LoadAtIsLoadOne(m, at, table, count, i);
    LoadFromTurn(m, LoadOne(m, at, s), at, table, i);
    HeadersStay(m, at, s, table, count, i + 1);
  }

  lemma RestApart(at: nat, table: nat, count: nat, s: Segment, rest: seq<Segment>)
    requires Apart(at, [s] + rest) && HeadersKept(at, table, count, [s] + rest)
    ensures Fits(at, s) && Avoids(s, at, EHDR_SIZE) && Avoids(s, table, PHDR_SIZE * count)
    ensures Apart(at, rest) && HeadersKept(at, table, count, rest)
  {
    var segs := [s] + rest;
    assert segs[0] == s && segs[1..] == rest;
    ApartTail(at, segs);
    assert forall j :: 0 <= j < |rest| ==> rest[j] == segs[j + 1];
  }

  lemma HeadersStay(m: Memory, at: nat, s: Segment, table: nat, count: nat, i: nat)
    requires Fits(at, s) && Avoids(s, at, EHDR_SIZE) && Avoids(s, table, PHDR_SIZE * count)
    requires at + EHDR_SIZE <= WORD && table + PHDR_SIZE * count <= WORD
    ensures var n := LoadOne(m, at, s);
            PhNum(n, at) == PhNum(m, at) && Segments(n, table, i, count) == Segments(m, table, i, count)
  {
    var n := LoadOne(m, at, s);
    AvoidsAgrees(m, at, s, at, EHDR_SIZE);
    FieldAgrees(m, n, at, EHDR_SIZE, at + 56, 2);
    AvoidsAgrees(m, at, s, table, PHDR_SIZE * count);
    SegmentsAgree(m, n, table, i, count);
  }

  // ----- the whole load -----

  ghost predicate GoodImage(m: Memory, at: nat) {
    var count, table := PhNum(m, at), TableOf(m, at);
    var segs := Segments(m, table, 0, count);
    Apart(at, segs) && HeadersKept(at, table, count, segs)
  }

  /** A rejected header, whatever its segments, writes nothing. A good image leaves in each segment its file's
      bytes and then zeros, and every other byte of memory as it was. */
  lemma ElfLoadSpec(m: Memory, at: nat, a: nat)
    requires (HeaderOk(m, at) ==> GoodImage(m, at)) && a < WORD
    ensures var (r, n) := ElfLoad(m, at);
            && (r.Rejected? <==> !HeaderOk(m, at))
            && n[a] == if r.Rejected? then m[a]
                       else Expected(m, at, Segments(m, TableOf(m, at), 0, PhNum(m, at)), a)
  {
    if HeaderOk(m, at) {
      var segs := Segments(m, TableOf(m, at), 0, PhNum(m, at));
      LoadFromIsLoadAll(m, at, TableOf(m, at), 0, PhNum(m, at), segs);
      LoadAllSpec(m, at, segs, a);
    }
  }
}
