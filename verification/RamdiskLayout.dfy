/** Where the writer puts each number and name in the image, byte by byte. */
module RamdiskLayout {
  import opened Bytes
  import opened LittleEndian
  import opened RamdiskFormat
  import opened RamdiskProofs
  import opened Words

  /** The bytes of `b` from `at` on are the number `n`, lowest byte first. */
  ghost predicate HoldsNumber(b: seq<Byte>, at: nat, n: nat, k: nat) {
    at + k <= |b| && forall i :: 0 <= i < k ==> b[at + i] == n / Pow256(i) % 256
  }

  lemma NumberAt(b: seq<Byte>, at: nat, n: nat, k: nat)
    requires at + k <= |b| && b[at..at + k] == Le(n, k)
    ensures HoldsNumber(b, at, n, k)
  {
    forall i | 0 <= i < k ensures b[at + i] == n / Pow256(i) % 256 {
      LeByte(n, k, i);
      assert b[at + i] == b[at..at + k][i];
    }
  }

  /** The header: RMDK, the number of files, and the length of the image. */
  lemma HeaderLayout(fs: seq<Source>, own: bool)
    requires Fits(fs, own)
    ensures var b := Image(fs, own);
            && |b| >= 16 && b[0] == 0x52 && b[1] == 0x4D && b[2] == 0x4B && b[3] == 0x44
            && HoldsNumber(b, 4, |fs|, 4) && HoldsNumber(b, 8, |b|, 8)
  {
    var rest := Blocks(EntryList(fs, own)) + Zeros(DataStart(|fs|) - EntriesEnd(|fs|)) + Data(fs);
    var b := Image(fs, own);
    Regroup(Header(fs), Blocks(EntryList(fs, own)), Zeros(DataStart(|fs|) - EntriesEnd(|fs|)), Data(fs));
    HeaderBytes(b, |fs|, TotalSize(fs), rest);
  }

  lemma MagicBytes()
    ensures Le(MAGIC, 4) == [0x52, 0x4D, 0x4B, 0x44]
  {
  }

  lemma HeaderBytes(b: seq<Byte>, n: nat, total: nat, rest: seq<Byte>)
    requires b == Le(MAGIC, 4) + Le(n, 4) + Le(total, 8) + rest
    ensures |b| >= 16 && b[0] == 0x52 && b[1] == 0x4D && b[2] == 0x4B && b[3] == 0x44
    ensures HoldsNumber(b, 4, n, 4) && HoldsNumber(b, 8, total, 8)
  {
    MagicBytes();
    assert b[..4] == Le(MAGIC, 4) && b[4..8] == Le(n, 4) && b[8..16] == Le(total, 8);
    NumberAt(b, 4, n, 4);
    NumberAt(b, 8, total, 8);
  }

  /** The 84 bytes of an entry: at most 63 bytes of the name, NULs up to 64, the offset, the
      size, and zero flags. */
  ghost predicate LaidOut(e: seq<Byte>, name: seq<Byte>, offset: nat, size: nat) {
    && |e| == 84
    && (forall j :: 0 <= j < 64 ==> e[j] == if j < |name| && j < 63 then name[j] else 0)
    && HoldsNumber(e, 64, offset, 8) && HoldsNumber(e, 72, size, 8)
    && e[80] == 0 && e[81] == 0 && e[82] == 0 && e[83] == 0
  }

  lemma EndsAt(i: nat)
    ensures EntriesEnd(i) == 16 + 84 * i
  {
  }

  /** Entry `i` is at byte 16 + 84 i. */
  lemma EntryLayout(fs: seq<Source>, own: bool, i: nat, p: nat)
    requires i < |fs| && Fits(fs, own) && p == 16 + 84 * i
    ensures p + 84 <= |Image(fs, own)|
    ensures LaidOut(Image(fs, own)[p..p + 84], fs[i].name, EntryOffset(fs, own, i), EntrySize(fs, own, i))
  {
    ImageEntry(fs, own, i);
    EntryIn(Image(fs, own), i, p, fs[i].name, EntryOffset(fs, own, i), EntrySize(fs, own, i));
  }

  lemma EntryIn(b: seq<Byte>, i: nat, p: nat, name: seq<Byte>, offset: nat, size: nat)
    requires EntriesEnd(i + 1) <= |b| && EntryAt(b, i) == Entry(name, offset, size) && p == 16 + 84 * i
    ensures p + 84 <= |b| && LaidOut(b[p..p + 84], name, offset, size)
  {
    EndsAt(i);
    EndsAt(i + 1);
    EntryBytes(b[p..p + 84], name, offset, size);
  }

  lemma EntryBytes(e: seq<Byte>, name: seq<Byte>, offset: nat, size: nat)
    requires e == Entry(name, offset, size)
    ensures LaidOut(e, name, offset, size)
  {
    Slices(e, NameField(name), Le(offset, 8), Le(size, 8), Le(0, 4));
    FieldBytes(e, name);
    NumberAt(e, 64, offset, 8);
    NumberAt(e, 72, size, 8);
    assert Le(0, 4) == [0, 0, 0, 0];
  }

  lemma FieldBytes(e: seq<Byte>, name: seq<Byte>)
    requires |e| >= 64 && e[..64] == NameField(name)
    ensures forall j :: 0 <= j < 64 ==> e[j] == if j < |name| && j < 63 then name[j] else 0
  {
    assert forall j :: 0 <= j < 64 ==> e[j] == e[..64][j];
  }

  lemma Slices(e: seq<Byte>, f: seq<Byte>, x: seq<Byte>, y: seq<Byte>, z: seq<Byte>)
    requires e == f + x + y + z && |f| == 64 && |x| == 8 && |y| == 8 && |z| == 4
    ensures e[..64] == f && e[64..64 + 8] == x && e[72..72 + 8] == y
    ensures e[80] == z[0] && e[81] == z[1] && e[82] == z[2] && e[83] == z[3]
  {
  }
}
