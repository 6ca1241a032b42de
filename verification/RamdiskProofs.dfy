/** Round trip between the ramdisk writer and reader. */
module RamdiskProofs {
  import opened Bytes
  import opened LittleEndian
  import opened RamdiskFormat
  import opened Words

  // ----- decoding an entry -----

  lemma FourParts(a: seq<Byte>, b: seq<Byte>, c: seq<Byte>, d: seq<Byte>)
    ensures var e := a + b + c + d; var n := |a| + |b|;
            && e[..|a|] == a && e[|a|..n] == b && e[n..n + |c|] == c && e[n + |c|..] == d
  {
  }

  lemma Within(a: seq<Byte>, b: seq<Byte>, c: seq<Byte>, d: seq<Byte>, lo: nat, hi: nat)
    requires lo <= hi <= |b|
    ensures (a + b + c + d)[|a| + lo..|a| + hi] == b[lo..hi]
  {
  }

  lemma EntryParts(e: seq<Byte>, a: seq<Byte>, b: seq<Byte>, c: seq<Byte>, d: seq<Byte>, f: Found)
    requires e == a + b + c + d && |a| == 64 && |b| == |c| == 8 && |d| == 4
    requires f == Found(Num(b), Num(c))
    ensures |e| == ENTRY_SIZE && e[..NAME_SIZE] == a && FoundIn(e) == f
  {
    FourParts(a, b, c, d);
    assert e[64..72] == b && e[72..80] == c;
  }

  lemma NumbersDecode(offset: nat, size: nat)
    requires offset < WORD && size < WORD
    ensures Found(Num(Le(offset, 8)), Num(Le(size, 8))) == Found(offset, size)
  {
    Widths();
    LeRoundTrip(offset, 8);
    LeRoundTrip(size, 8);
  }

  lemma EntryDecodes(name: seq<Byte>, offset: nat, size: nat)
    requires 0 !in name && offset < WORD && size < WORD
    ensures var e := Entry(name, offset, size);
            CStr(e[..NAME_SIZE]) == Stored(name) && FoundIn(e) == Found(offset, size)
  {
    NumbersDecode(offset, size);
    StoredString(name);
    EntryParts(Entry(name, offset, size), NameField(name), Le(offset, 8), Le(size, 8), Le(0, 4), Found(offset, size));
  }

  lemma StoredString(name: seq<Byte>)
    requires 0 !in name
    ensures CStr(NameField(name)) == Stored(name)
  {
    CStrOf(Stored(name), NameField(name));
  }

  lemma Append(a: seq<Byte>, b: seq<Byte>, lo: nat, hi: nat)
    requires lo <= hi
    ensures hi <= |a| ==> (a + b)[lo..hi] == a[lo..hi]
    ensures lo == |a| && hi == |a| + |b| ==> (a + b)[lo..hi] == b
  {
  }

  lemma {:induction false} BlocksAt(es: seq<Block>, i: nat)
    requires i < |es|
    ensures i * ENTRY_SIZE + ENTRY_SIZE <= |es| * ENTRY_SIZE
    ensures Blocks(es)[i * ENTRY_SIZE..i * ENTRY_SIZE + ENTRY_SIZE] == es[i]
  {
    var m := |es| - 1;
    Append(Blocks(es[..m]), es[m], i * ENTRY_SIZE, i * ENTRY_SIZE + ENTRY_SIZE);
    if i < m {
      BlocksAt(es[..m], i);
    }
  }

  lemma BlockInImage(h: seq<Byte>, es: seq<Block>, z: seq<Byte>, d: seq<Byte>, i: nat)
    requires i < |es| && |h| == HEADER_SIZE
    ensures EntriesEnd(i + 1) <= EntriesEnd(|es|) == |h| + |Blocks(es)|
    ensures EntryAt(h + Blocks(es) + z + d, i) == es[i]
  {
    var lo := i * ENTRY_SIZE;
    BlocksAt(es, i);
    Within(h, Blocks(es), z, d, lo, lo + ENTRY_SIZE);
  }

  lemma ImageEntry(fs: seq<Source>, own: bool, i: nat)
    requires i < |fs|
    ensures EntriesEnd(i + 1) <= EntriesEnd(|fs|) <= |Image(fs, own)|
    ensures EntryAt(Image(fs, own), i) == EntryList(fs, own)[i]
  {
    BlockInImage(Header(fs), EntryList(fs, own), Zeros(DataStart(|fs|) - EntriesEnd(|fs|)), Data(fs), i);
  }

  lemma HeaderDecodes(n: nat, total: nat, rest: seq<Byte>)
    requires n < 0x1_0000_0000 && total < WORD
    ensures var b := Le(MAGIC, 4) + Le(n, 4) + Le(total, 8) + rest;
            Magic(b) == MAGIC && FileCount(b) == n && HeaderTotal(b) == total
  {
    Widths();
    LeRoundTrip(MAGIC, 4);
    LeRoundTrip(n, 4);
    LeRoundTrip(total, 8);
    FourParts(Le(MAGIC, 4), Le(n, 4), Le(total, 8), rest);
  }

  lemma ImageHeader(fs: seq<Source>, own: bool)
    requires Fits(fs, own)
    ensures var b := Image(fs, own);
            |b| >= HEADER_SIZE && Magic(b) == MAGIC && FileCount(b) == |fs| && HeaderTotal(b) == |b|
  {
    var es, z, d := Blocks(EntryList(fs, own)), Zeros(DataStart(|fs|) - EntriesEnd(|fs|)), Data(fs);
    HeaderDecodes(|fs|, TotalSize(fs), es + z + d);
    Regroup(Header(fs), es, z, d);
  }

  lemma Regroup(a: seq<Byte>, b: seq<Byte>, c: seq<Byte>, d: seq<Byte>)
    ensures a + b + c + d == a + (b + c + d)
  {
  }

  // ----- where the data is -----

  lemma {:induction false} OwnOffsets(fs: seq<Source>, i: nat)
    requires i <= |fs|
    ensures EntryOffset(fs, true, i) == DataStart(|fs|) + Sizes(fs[..i])
  {
    if i > 0 {
      OwnOffsets(fs, i - 1);
      assert fs[..i][..i - 1] == fs[..i - 1];
    } else {
      assert fs[..0] == [];
    }
  }

  /** The bytes `x` are at offset `off` of `b`. */
  predicate HasAt(b: seq<Byte>, off: nat, x: seq<Byte>) {
    off + |x| <= |b| && forall k :: 0 <= k < |x| ==> b[off + k] == x[k]
  }

  lemma Shift(b: seq<Byte>, a: seq<Byte>, d: seq<Byte>, lo: nat, x: seq<Byte>, off: nat)
    requires b == a + d && HasAt(d, lo, x) && off == |a| + lo
    ensures HasAt(b, off, x)
  {
    forall k | 0 <= k < |x| ensures b[off + k] == x[k] {
      assert d[lo + k] == x[k];
    }
  }

  lemma Stays(b: seq<Byte>, a: seq<Byte>, d: seq<Byte>, lo: nat, x: seq<Byte>)
    requires b == a + d && HasAt(a, lo, x)
    ensures HasAt(b, lo, x)
  {
  }

  lemma {:induction false} DataAt(fs: seq<Source>, i: nat)
    requires i < |fs|
    ensures Sizes(fs[..i]) + |fs[i].bytes| <= Sizes(fs)
    ensures HasAt(Data(fs), Sizes(fs[..i]), fs[i].bytes)
  {
    var n := |fs| - 1;
    if i < n {
      DataAt(fs[..n], i);
      assert fs[..n][..i] == fs[..i];
      Stays(Data(fs), Data(fs[..n]), fs[n].bytes, Sizes(fs[..i]), fs[i].bytes);
    } else {
      Shift(Data(fs), Data(fs[..n]), fs[n].bytes, 0, fs[n].bytes, Sizes(fs[..n]));
    }
  }

  /** With its own size each entry points at exactly its file's bytes, past the header
      and the entries, one file after the other up to the end of the image. */
  lemma OwnEntriesPoint(fs: seq<Source>, i: nat)
    requires i < |fs|
    ensures EntriesEnd(|fs|) <= EntryOffset(fs, true, 0) <= EntryOffset(fs, true, i)
    ensures EntryOffset(fs, true, i) + |fs[i].bytes| == EntryOffset(fs, true, i + 1) <= TotalSize(fs)
    ensures i + 1 == |fs| ==> EntryOffset(fs, true, i + 1) == TotalSize(fs)
    ensures HasAt(Image(fs, true), EntryOffset(fs, true, i), fs[i].bytes)
  {
    OwnPlaces(fs, i);
    DataAt(fs, i);
    Shift(Image(fs, true), Front(fs, true), Data(fs), Sizes(fs[..i]), fs[i].bytes, EntryOffset(fs, true, i));
  }

  lemma OwnPlaces(fs: seq<Source>, i: nat)
    requires i < |fs|
    ensures EntryOffset(fs, true, i) == DataStart(|fs|) + Sizes(fs[..i])
    ensures EntryOffset(fs, true, i + 1) == EntryOffset(fs, true, i) + |fs[i].bytes| <= TotalSize(fs)
    ensures i + 1 == |fs| ==> EntryOffset(fs, true, i + 1) == TotalSize(fs)
  {
    OwnOffsets(fs, i);
    OwnOffsets(fs, i + 1);
    DataAt(fs, i);
    assert i + 1 == |fs| ==> fs[..i + 1] == fs;
  }

  /** As written, every entry is the one its file needs exactly when all files have
      the same size. */
  lemma LiteralEntriesRightIff(fs: seq<Source>)
    requires fs != []
    ensures (forall i :: 0 <= i < |fs| ==>
               EntryOffset(fs, false, i) == EntryOffset(fs, true, i) && EntrySize(fs, false, i) == EntrySize(fs, true, i))
       <==> (forall i, j :: 0 <= i < |fs| && 0 <= j < |fs| ==> |fs[i].bytes| == |fs[j].bytes|)
  {
    if forall i, j :: 0 <= i < |fs| && 0 <= j < |fs| ==> |fs[i].bytes| == |fs[j].bytes| {
      forall i | 0 <= i < |fs|
        ensures EntryOffset(fs, false, i) == EntryOffset(fs, true, i) && EntrySize(fs, false, i) == EntrySize(fs, true, i)
      {
        EqualSizes(fs, i);
      }
    } else {
      var i, j :| 0 <= i < |fs| && 0 <= j < |fs| && |fs[i].bytes| != |fs[j].bytes|;
      assert EntrySize(fs, false, i) != EntrySize(fs, true, i) || EntrySize(fs, false, j) != EntrySize(fs, true, j);
    }
  }

  lemma {:induction false} EqualSizes(fs: seq<Source>, i: nat)
    requires i <= |fs| && forall j, k :: 0 <= j < |fs| && 0 <= k < |fs| ==> |fs[j].bytes| == |fs[k].bytes|
    ensures EntryOffset(fs, false, i) == EntryOffset(fs, true, i)
    ensures forall j :: 0 <= j < |fs| ==> EntrySize(fs, false, j) == EntrySize(fs, true, j)
  {
    if i > 0 {
      EqualSizes(fs, i - 1);
    }
  }

  // ----- finding a file -----

  ghost predicate PlainNames(fs: seq<Source>) {
    forall i :: 0 <= i < |fs| ==> 0 !in fs[i].name
  }

  /** The first file whose (stored) name is the one asked for, or the number of files. */
  function FirstNamed(fs: seq<Source>, name: seq<Byte>, i: nat): (r: nat)
    requires i <= |fs|
    ensures i <= r <= |fs|
    ensures r < |fs| ==> Stored(fs[r].name) == name
    ensures forall j :: i <= j < r ==> Stored(fs[j].name) != name
    decreases |fs| - i
  {
    if i == |fs| || Stored(fs[i].name) == name then i else FirstNamed(fs, name, i + 1)
  }

  /** A name field matches exactly the name stored in it, and strcmp stops inside it. */
  lemma FieldMatches(b: seq<Byte>, at: nat, field: seq<Byte>, stored: seq<Byte>, name: seq<Byte>)
    requires |field| == NAME_SIZE && at + NAME_SIZE <= |b| && b[at..at + NAME_SIZE] == field
    requires CStr(field) == stored && |stored| < NAME_SIZE && 0 !in name
    ensures Matches(b, at, name) <==> stored == name
    ensures exists k: nat :: Stops(b, at, name, k)
  {
    assert forall j :: 0 <= j < NAME_SIZE ==> b[at + j] == field[j];
    var n := |stored|;
    if |name| <= n {
      assert Stops(b, at, name, |name|);
    } else {
      assert b[at + n] == 0 && name[n] in name;
      assert Stops(b, at, name, n);
    }
    if Matches(b, at, name) {
      assert forall j :: 0 <= j < |name| ==> b[at + j] == b[at..at + |name|][j] == name[j];
      assert field[..|name|] == name;
      CStrOf(name, field);
    }
    if stored == name {
      assert b[at..at + n] == field[..n];
    }
  }

  lemma EntryMatches(fs: seq<Source>, own: bool, name: seq<Byte>, i: nat)
    requires i < |fs| && PlainNames(fs) && Fits(fs, own) && 0 !in name
    ensures EntriesEnd(i + 1) <= |Image(fs, own)| && NamedEntry(fs, own, Image(fs, own), name, i)
  {
    assert EntryFits(fs, own, i);
    ImageEntry(fs, own, i);
    EntryNamed(fs, own, Image(fs, own), name, i);
  }

  /** What a reader of `b` makes of entry `i`. */
  ghost predicate NamedEntry(fs: seq<Source>, own: bool, b: seq<Byte>, name: seq<Byte>, i: nat)
    requires i < |fs| && EntriesEnd(i + 1) <= |b|
  {
    && (Matches(b, EntriesEnd(i), name) <==> Stored(fs[i].name) == name)
    && (exists k: nat :: Stops(b, EntriesEnd(i), name, k))
    && FoundIn(EntryAt(b, i)) == Found(EntryOffset(fs, own, i), EntrySize(fs, own, i))
  }

  lemma EntryNamed(fs: seq<Source>, own: bool, b: seq<Byte>, name: seq<Byte>, i: nat)
    requires i < |fs| && 0 !in fs[i].name && EntryFits(fs, own, i) && 0 !in name
    requires EntriesEnd(i + 1) <= |b| && EntryAt(b, i) == EntryList(fs, own)[i]
    ensures NamedEntry(fs, own, b, name, i)
  {
    EntryDecodes(fs[i].name, EntryOffset(fs, own, i), EntrySize(fs, own, i));
    NameMatches(b, EntriesEnd(i), EntryList(fs, own)[i], Stored(fs[i].name), name);
  }

  lemma NameMatches(b: seq<Byte>, at: nat, e: seq<Byte>, stored: seq<Byte>, name: seq<Byte>)
    requires at + ENTRY_SIZE <= |b| && e == b[at..at + ENTRY_SIZE]
    requires CStr(e[..NAME_SIZE]) == stored && |stored| < NAME_SIZE && 0 !in name
    ensures Matches(b, at, name) <==> stored == name
    ensures exists k: nat :: Stops(b, at, name, k)
  {
    assert b[at..at + NAME_SIZE] == e[..NAME_SIZE];
    FieldMatches(b, at, e[..NAME_SIZE], stored, name);
  }

  lemma {:induction false} FindInImage(fs: seq<Source>, own: bool, name: seq<Byte>, i: nat)
    requires i <= |fs| && PlainNames(fs) && Fits(fs, own) && 0 !in name
    ensures Scannable(Image(fs, own), name, i, |fs|)
    ensures var r := FirstNamed(fs, name, i);
            Find(Image(fs, own), name, i, |fs|) ==
            if r == |fs| then NotFound else Found(EntryOffset(fs, own, r), EntrySize(fs, own, r))
    decreases |fs| - i
  {
    if i < |fs| {
      EntryMatches(fs, own, name, i);
      FindInImage(fs, own, name, i + 1);
    }
  }

  /** The reader stays inside the image `b` and finds `name` exactly when a file of the walk
      is stored under it, and then the size and the place it gives are those of the bytes of
      the first such file. */
  ghost predicate Reads(fs: seq<Source>, b: seq<Byte>, name: seq<Byte>) {
    && |b| >= HEADER_SIZE && Scannable(b, name, 0, FileCount(b))
    && var f, r := Find(b, name, 0, FileCount(b)), FirstNamed(fs, name, 0);
       if r == |fs| then f.NotFound?
       else f.Found? && f.size == |fs[r].bytes| && HasAt(b, f.offset, fs[r].bytes)
  }

  lemma ReadsOwn(fs: seq<Source>, name: seq<Byte>)
    requires PlainNames(fs) && Fits(fs, true) && 0 !in name
    ensures Reads(fs, Image(fs, true), name)
  {
    ImageHeader(fs, true);
    FindInImage(fs, true, name, 0);
    var r := FirstNamed(fs, name, 0);
    if r < |fs| {
      OwnEntriesPoint(fs, r);
    }
  }

  /** Round trip with the entry's own size, for every name a C string can hold. */
  lemma RoundTrip(fs: seq<Source>, name: seq<Byte>)
    requires PlainNames(fs) && Fits(fs, true) && 0 !in name
    ensures var b := Image(fs, true);
            && |b| >= HEADER_SIZE && Magic(b) == MAGIC && HeaderTotal(b) == |b| && FileCount(b) == |fs|
            && Reads(fs, b, name)
  {
    ImageHeader(fs, true);
    ReadsOwn(fs, name);
  }

  ghost predicate DistinctShortNames(fs: seq<Source>) {
    && PlainNames(fs)
    && (forall i :: 0 <= i < |fs| ==> |fs[i].name| <= 63)
    && (forall i, j :: 0 <= i < j < |fs| ==> fs[i].name != fs[j].name)
  }

  ghost predicate SameSizes(fs: seq<Source>) {
    forall i, j :: 0 <= i < |fs| && 0 <= j < |fs| ==> |fs[i].bytes| == |fs[j].bytes|
  }

  /** With base names distinct and of at most 63 bytes that is the file of that name. */
  lemma FirstNamedIs(fs: seq<Source>, i: nat)
    requires i < |fs| && DistinctShortNames(fs)
    ensures FirstNamed(fs, fs[i].name, 0) == i
  {
    assert Stored(fs[i].name) == fs[i].name;
  }

  lemma SameImage(fs: seq<Source>)
    requires Fits(fs, false) && SameSizes(fs)
    ensures Image(fs, false) == Image(fs, true) && Fits(fs, true)
  {
    EqualSizes(fs, |fs|);
    forall i | 0 <= i <= |fs| ensures EntryOffset(fs, false, i) == EntryOffset(fs, true, i) {
      EqualSizes(fs, i);
    }
    assert EntryList(fs, false) == EntryList(fs, true);
    forall i | 0 <= i < |fs| ensures EntryFits(fs, true, i) {
      assert EntryFits(fs, false, i);
    }
  }

  lemma LiteralSize(fs: seq<Source>, i: nat)
    requires i < |fs| && DistinctShortNames(fs) && Fits(fs, false)
    ensures Scannable(Image(fs, false), fs[i].name, 0, |fs|)
    ensures Find(Image(fs, false), fs[i].name, 0, |fs|) ==
            Found(EntryOffset(fs, false, i), |fs[|fs| - 1].bytes|)
  {
    FindInImage(fs, false, fs[i].name, 0);
    FirstNamedIs(fs, i);
  }

  /** As written, every file of the walk reads back exactly when all have one size. */
  lemma LiteralReadsIff(fs: seq<Source>)
    requires fs != [] && DistinctShortNames(fs) && Fits(fs, false)
    ensures (forall i :: 0 <= i < |fs| ==> Reads(fs, Image(fs, false), fs[i].name)) <==> SameSizes(fs)
  {
    if SameSizes(fs) {
      SameImage(fs);
      forall i | 0 <= i < |fs| ensures Reads(fs, Image(fs, false), fs[i].name) {
        ReadsOwn(fs, fs[i].name);
      }
    } else {
      var i :| 0 <= i < |fs| && |fs[i].bytes| != |fs[|fs| - 1].bytes|;
      OtherSizeLost(fs, i);
    }
  }

  /** The name of a file of another size than the last does not read back. */
  lemma OtherSizeLost(fs: seq<Source>, i: nat)
    requires DistinctShortNames(fs) && Fits(fs, false) && i < |fs| && |fs[i].bytes| != |fs[|fs| - 1].bytes|
    ensures !Reads(fs, Image(fs, false), fs[i].name)
  {
    ImageHeader(fs, false);
    LiteralSize(fs, i);
    FirstNamedIs(fs, i);
  }

  lemma TwoFit(fs: seq<Source>)
    requires |fs| == 2 && |fs[0].bytes| <= 2 && |fs[1].bytes| <= 2
    ensures Fits(fs, false)
  {
    assert fs[..1] == [fs[0]] && [fs[0]][..0] == [];
    assert Sizes(fs) == Sizes(fs[..1]) + |fs[1].bytes| && Sizes([fs[0]]) == Sizes([]) + |fs[0].bytes|;
    assert EntryOffset(fs, false, 1) == EntryOffset(fs, false, 0) + EntrySize(fs, false, 0);
  }

  /** Two files of one and two bytes: the first is found with the size of the second. */
  lemma TwoSizesLost(fs: seq<Source>)
    requires fs == [Source([97], [1]), Source([98], [1, 2])]
    ensures DistinctShortNames(fs) && Fits(fs, false) && !Reads(fs, Image(fs, false), fs[0].name)
  {
    TwoFit(fs);
    OtherSizeLost(fs, 0);
  }
}
