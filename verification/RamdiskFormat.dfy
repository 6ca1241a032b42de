/** The ramdisk image: what scripts/mkramdisk.py writes and kernel/src/ramdisk.c reads.

    The writer's entry loop takes the size of an entry, and the step to the next
    offset, from variables left over by the loop before it, so from the last file of
    the walk. `own` selects: false is that code as written, true is the labelled
    variant in which the loop uses the size it has itself bound. */
module RamdiskFormat {
  import opened Bytes
  import opened LittleEndian
  import opened Words

  const MAGIC := 0x444B4D52
  const HEADER_SIZE := 16
  const ENTRY_SIZE := 84
  const NAME_SIZE := 64

  /** A file of the walk: its base name in UTF-8, and its bytes. */
  datatype Source = Source(name: seq<Byte>, bytes: seq<Byte>)

  // ----- the writer -----

  function Align8(n: nat): (r: nat)
    ensures n <= r < n + 8 && r % 8 == 0
  {
    (n + 7) / 8 * 8
  }

  function EntriesEnd(n: nat): nat {
    HEADER_SIZE + n * ENTRY_SIZE
  }

  function DataStart(n: nat): (d: nat)
    ensures EntriesEnd(n) <= d
  {
    Align8(EntriesEnd(n))
  }

  function Sizes(fs: seq<Source>): nat {
    if fs == [] then 0 else Sizes(fs[..|fs| - 1]) + |fs[|fs| - 1].bytes|
  }

  function TotalSize(fs: seq<Source>): nat {
    DataStart(|fs|) + Sizes(fs)
  }

  /** The size that entry `i` records. */
  function EntrySize(fs: seq<Source>, own: bool, i: nat): nat
    requires i < |fs|
  {
    if own then |fs[i].bytes| else |fs[|fs| - 1].bytes|
  }

  /** The offset that entry `i` records. */
  function EntryOffset(fs: seq<Source>, own: bool, i: nat): nat
    requires i <= |fs|
  {
    if i == 0 then DataStart(|fs|) else EntryOffset(fs, own, i - 1) + EntrySize(fs, own, i - 1)
  }

  /** The first 63 bytes of a name. */
  function Stored(name: seq<Byte>): (n: seq<Byte>)
    ensures |n| <= 63
  {
    if |name| > 63 then name[..63] else name
  }

  function NameField(name: seq<Byte>): (f: seq<Byte>)
    ensures |f| == NAME_SIZE
  {
    Stored(name) + Zeros(NAME_SIZE - |Stored(name)|)
  }

  function Entry(name: seq<Byte>, offset: nat, size: nat): (e: seq<Byte>)
    ensures |e| == ENTRY_SIZE
  {
    NameField(name) + Le(offset, 8) + Le(size, 8) + Le(0, 4)
  }

  type Block = e: seq<Byte> | |e| == ENTRY_SIZE witness Zeros(ENTRY_SIZE)

  function Blocks(es: seq<Block>): (b: seq<Byte>)
    ensures |b| == |es| * ENTRY_SIZE
  {
    if es == [] then [] else Blocks(es[..|es| - 1]) + es[|es| - 1]
  }

  function EntryList(fs: seq<Source>, own: bool): (es: seq<Block>)
    ensures |es| == |fs|
  {
    seq(|fs|, i requires 0 <= i < |fs| => Entry(fs[i].name, EntryOffset(fs, own, i), EntrySize(fs, own, i)))
  }

  function Data(fs: seq<Source>): (b: seq<Byte>)
    ensures |b| == Sizes(fs)
  {
    if fs == [] then [] else Data(fs[..|fs| - 1]) + fs[|fs| - 1].bytes
  }

  function Header(fs: seq<Source>): (h: seq<Byte>)
    ensures |h| == HEADER_SIZE
  {
    Le(MAGIC, 4) + Le(|fs|, 4) + Le(TotalSize(fs), 8)
  }

  /** Everything before the file data: header, entries and the padding to eight bytes. */
  function Front(fs: seq<Source>, own: bool): (b: seq<Byte>)
    ensures |b| == DataStart(|fs|)
  {
    Header(fs) + Blocks(EntryList(fs, own)) + Zeros(DataStart(|fs|) - EntriesEnd(|fs|))
  }

  function Image(fs: seq<Source>, own: bool): (b: seq<Byte>)
    ensures |b| == TotalSize(fs)
  {
    Front(fs, own) + Data(fs)
  }

  predicate EntryFits(fs: seq<Source>, own: bool, i: nat)
    requires i < |fs|
  {
    EntryOffset(fs, own, i) < WORD && EntrySize(fs, own, i) < WORD
  }

  /** The numbers fit the fields; struct.pack raises an error otherwise. */
  predicate Fits(fs: seq<Source>, own: bool) {
    |fs| < 0x1_0000_0000 && TotalSize(fs) < WORD && forall i :: 0 <= i < |fs| ==> EntryFits(fs, own, i)
  }

  // ----- the reader -----

  function Magic(b: seq<Byte>): nat
    requires |b| >= HEADER_SIZE
  {
    Num(b[..4])
  }

  function FileCount(b: seq<Byte>): nat
    requires |b| >= HEADER_SIZE
  {
    Num(b[4..8])
  }

  function HeaderTotal(b: seq<Byte>): nat
    requires |b| >= HEADER_SIZE
  {
    Num(b[8..16])
  }

  /** The bytes of entry `i`. */
  function EntryAt(b: seq<Byte>, i: nat): (e: seq<Byte>)
    requires EntriesEnd(i + 1) <= |b|
    ensures |e| == ENTRY_SIZE
  {
    b[EntriesEnd(i)..EntriesEnd(i) + ENTRY_SIZE]
  }

  datatype Found = NotFound | Found(offset: nat, size: nat)

  function FoundIn(e: seq<Byte>): Found
    requires |e| == ENTRY_SIZE
  {
    Found(Num(e[64..72]), Num(e[72..80]))
  }

  /** The C string at `at` is `name`, which has no NUL in it. */
  predicate Matches(b: seq<Byte>, at: nat, name: seq<Byte>) {
    at + |name| < |b| && b[at..at + |name|] == name && b[at + |name|] == 0
  }

  /** strcmp of the bytes at `at` with `name` stops at byte `k`: at a NUL or a difference. */
  predicate Stops(b: seq<Byte>, at: nat, name: seq<Byte>, k: nat) {
    k <= |name| && at + k < |b| && (k == |name| || b[at + k] == 0 || b[at + k] != name[k])
  }

  /** The search from entry `i` on reads only bytes of `b`. */
  ghost predicate Scannable(b: seq<Byte>, name: seq<Byte>, i: nat, count: nat)
    requires i <= count
    decreases count - i
  {
    i < count ==>
      && EntriesEnd(i + 1) <= |b|
      && (exists k: nat :: Stops(b, EntriesEnd(i), name, k))
      && (Matches(b, EntriesEnd(i), name) || Scannable(b, name, i + 1, count))
  }

  /** The first entry from `i` on with that name. */
  function Find(b: seq<Byte>, name: seq<Byte>, i: nat, count: nat): (r: Found)
    requires i <= count && Scannable(b, name, i, count)
    decreases count - i
  {
    if i == count then NotFound
    else if Matches(b, EntriesEnd(i), name) then FoundIn(EntryAt(b, i))
    else Find(b, name, i + 1, count)
  }
}
