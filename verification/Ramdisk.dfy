/** The ramdisk writer and reader in the form of scripts/mkramdisk.py and
    kernel/src/ramdisk.c: the writer's sequential writes, the reader's two pointers. */
module Ramdisk {
  import opened Bytes
  import opened LittleEndian
  import opened RamdiskFormat
  import opened RamdiskProofs
  import opened Words

  /** NoFiles is the early return of 1; PackError the exception of a number too big for
      its field. */
  datatype Outcome = NoFiles | PackError | Written(image: seq<Byte>)

  // ----- the writer -----

  /** struct.pack_into for a little-endian number of `k` bytes. */
  method PackInto(entry: array<Byte>, at: nat, n: nat, k: nat)
    requires at + k <= entry.Length
    modifies entry
    ensures entry[..] == old(entry[..at]) + Le(n, k) + old(entry[at + k..])
  {
    var b := Le(n, k);
    forall j | 0 <= j < k {
      entry[at + j] := b[j];
    }
  }

  lemma FieldsJoin(a: seq<Byte>, z: seq<Byte>, x: seq<Byte>, y: seq<Byte>, w: seq<Byte>)
    requires |a| == 64 && |x| == |y| == 8 && |w| == 4 && |z| == 20
    ensures var e1 := (a + z)[..64] + x + (a + z)[72..];
            var e2 := e1[..72] + y + e1[80..];
            var e3 := e2[..80] + w + e2[84..];
            |e1| == |e2| == 84 && e3 == a + x + y + w
  {
    var e1 := (a + z)[..64] + x + (a + z)[72..];
    assert e1 == a + x + z[8..];
    var e2 := e1[..72] + y + e1[80..];
    assert e2 == a + x + y + z[16..];
    assert e2[..80] == a + x + y && e2[84..] == [];
  }

  method MakeEntry(name: seq<Byte>, offset: nat, size: nat) returns (e: seq<Byte>)
    ensures e == Entry(name, offset, size)
  {
    var entry := new Byte[ENTRY_SIZE](_ => 0);
    var n := Stored(name);
    forall j | 0 <= j < |n| {
      entry[j] := n[j];
    }
    assert entry[..] == NameField(name) + Zeros(20);
    FieldsJoin(NameField(name), Zeros(20), Le(offset, 8), Le(size, 8), Le(0, 4));
    PackInto(entry, 64, offset, 8);
    PackInto(entry, 72, size, 8);
    PackInto(entry, 80, 0, 4);
    e := entry[..];
  }

  method TotalOf(files: seq<Source>) returns (total: nat)
    ensures total == TotalSize(files)
  {
    total := Align8(4 + 4 + 8 + |files| * (64 + 8 + 8 + 4));
    for i := 0 to |files|
      invariant total == DataStart(|files|) + Sizes(files[..i])
    {
      total := total + |files[i].bytes|;
      assert files[..i + 1][..i] == files[..i];
    }
    assert files[..|files|] == files;
  }

  lemma Assoc(a: seq<Byte>, b: seq<Byte>, c: seq<Byte>)
    ensures a + b + c == a + (b + c)
  {
  }

  /** The file as it stands after `i` of the entries `es`. */
  ghost function Appended(start: seq<Byte>, es: seq<Block>, i: nat): seq<Byte>
    requires i <= |es|
  {
    if i == 0 then start else Appended(start, es, i - 1) + es[i - 1]
  }

  lemma {:induction false} AppendedBlocks(start: seq<Byte>, es: seq<Block>, i: nat)
    requires i <= |es|
    ensures Appended(start, es, i) == start + Blocks(es[..i])
  {
    if i == 0 {
      assert es[..i] == [];
    } else {
      AppendedBlocks(start, es, i - 1);
      assert es[..i] == es[..i - 1] + [es[i - 1]];
      BlocksSnoc(start, es[..i - 1], es[i - 1]);
    }
  }

  lemma BlocksSnoc(start: seq<Byte>, es: seq<Block>, e: Block)
    ensures start + Blocks(es) + e == start + Blocks(es + [e])
  {
    var all := es + [e];
    assert all[..|all| - 1] == es && all[|all| - 1] == e;
    Assoc(start, Blocks(es), e);
  }

  lemma AllAppended(start: seq<Byte>, es: seq<Block>)
    ensures Appended(start, es, |es|) == start + Blocks(es)
  {
    AppendedBlocks(start, es, |es|);
    assert es[..|es|] == es;
  }

  method WriteEntry(files: seq<Source>, own: bool, i: nat, offset: nat, left: nat, start: seq<Byte>, ghost es: seq<Block>,
                    out: seq<Byte>)
    returns (r: seq<Byte>, next: nat, ok: bool)
    requires i < |files| && offset == EntryOffset(files, own, i) && left == |files[|files| - 1].bytes|
    requires |es| == |files| && es[i] == EntryList(files, own)[i] && out == Appended(start, es, i)
    ensures ok <==> EntryFits(files, own, i)
    ensures ok ==> r == Appended(start, es, i + 1) && next == EntryOffset(files, own, i + 1)
  {
    var size := if own then |files[i].bytes| else left;
    if offset >= WORD || size >= WORD {
      return [], 0, false;
    }
    var entry := MakeEntry(files[i].name, offset, size);
    return out + entry, offset + size, true;
  }

  ghost predicate FirstFit(fs: seq<Source>, own: bool, n: nat)
    requires n <= |fs|
  {
    forall i :: 0 <= i < n ==> EntryFits(fs, own, i)
  }

  /** The entry loop; `ok` is false when packing an entry raises. */
  method WriteEntries(files: seq<Source>, own: bool, start: seq<Byte>, ghost es: seq<Block>)
    returns (out: seq<Byte>, ok: bool)
    requires files != [] && es == EntryList(files, own)
    ensures ok <==> FirstFit(files, own, |files|)
    ensures ok ==> out == start + Blocks(es)
  {
    out, ok := start, true;
    var offset := Align8(4 + 4 + 8 + |files| * (64 + 8 + 8 + 4));
    var left := |files[|files| - 1].bytes|;
    for i := 0 to |files|
      invariant offset == EntryOffset(files, own, i)
      invariant out == Appended(start, es, i)
      invariant ok && FirstFit(files, own, i)
    {
      out, offset, ok := WriteEntry(files, own, i, offset, left, start, es, out);
      if !ok {
        return;
      }
    }
    AllAppended(start, es);
  }

  method WriteData(files: seq<Source>, start: seq<Byte>) returns (out: seq<Byte>)
    ensures out == start + Data(files)
  {
    out := start;
    for i := 0 to |files|
      invariant out == start + Data(files[..i])
    {
      assert files[..i + 1][..i] == files[..i];
      Assoc(start, Data(files[..i]), files[i].bytes);
      out := out + files[i].bytes;
    }
    assert files[..|files|] == files;
  }

  method Pad(files: seq<Source>, own: bool, written: seq<Byte>) returns (out: seq<Byte>)
    requires written == Header(files) + Blocks(EntryList(files, own))
    ensures out == Front(files, own)
  {
    out := written;
    var start := Align8(|written|);
    assert |written| == EntriesEnd(|files|);
    if start > |written| {
      out := out + Zeros(start - |written|);
    }
  }

  /** Everything after the numbers of the header. */
  method WriteBody(files: seq<Source>, own: bool, start: seq<Byte>) returns (r: Outcome)
    requires files != [] && start == Header(files)
    ensures r == if FirstFit(files, own, |files|) then Written(Image(files, own)) else PackError
  {
    var out, ok := WriteEntries(files, own, start, EntryList(files, own));
    if !ok {
      return PackError;
    }
    out := Pad(files, own, out);
    out := WriteData(files, out);
    return Written(out);
  }

  method BuildRamdisk(files: seq<Source>, own: bool) returns (r: Outcome)
    ensures r == if files == [] then NoFiles else if Fits(files, own) then Written(Image(files, own)) else PackError
  {
    if files == [] {
      return NoFiles;
    }
    if |files| >= 0x1_0000_0000 {
      return PackError;
    }
    var total := TotalOf(files);
    if total >= WORD {
      return PackError;
    }
    r := WriteBody(files, own, Le(MAGIC, 4) + Le(|files|, 4) + Le(total, 8));
  }

  // ----- the reader -----

  /** What the writer makes, the reader can search for any name. */
  lemma ImageReadable(fs: seq<Source>, own: bool, name: seq<Byte>)
    requires PlainNames(fs) && Fits(fs, own) && 0 !in name
    ensures var b := Image(fs, own); |b| >= HEADER_SIZE && Scannable(b, name, 0, FileCount(b))
  {
    ImageHeader(fs, own);
    FindInImage(fs, own, name, 0);
  }

  class Ramdisk {
    var header: array?<Byte>
    var entries: array?<Byte>

    constructor ()
      ensures header == null && entries == null
    {
      header, entries := null, null;
    }

    /** A bad magic number leaves the entry pointer as it was, null or of an image given before. */
    method RamdiskInit(data: array<Byte>)
      requires data.Length >= HEADER_SIZE
      modifies this
      ensures header == data
      ensures entries == if Magic(data[..]) == MAGIC then data else old(entries)
    {
      header := data;
      assert data[..][..4] == data[..4];
      if Num(data[..4]) != MAGIC {
        return;
      }
      entries := data;
    }

    /** strcmp of the bytes at `at` with `name`. */
    method StrCmp(b: array<Byte>, at: nat, name: seq<Byte>, ghost stop: nat) returns (r: int)
      requires Terminated(name) && Stops(b[..], at, CStr(name), stop)
      ensures r == 0 <==> Matches(b[..], at, CStr(name))
    {
      ghost var n := CStr(name);
      var k := 0;
      while b[at + k] != 0 && b[at + k] == name[k]
        invariant 0 <= k <= stop
        invariant forall j :: 0 <= j < k ==> b[at + j] == n[j]
        decreases stop - k
      {
        k := k + 1;
      }
      r := b[at + k] as int - name[k] as int;
      Compared(b[..], at, n, k);
    }

    method PlaceAt(b: array<Byte>, at: nat) returns (r: Found)
      requires at + ENTRY_SIZE <= b.Length
      ensures r == FoundIn(b[..][at..at + ENTRY_SIZE])
    {
      var e := b[at..at + ENTRY_SIZE];
      assert e == b[..][at..at + ENTRY_SIZE];
      r := Found(Num(e[64..72]), Num(e[72..80]));
    }

    /** One turn of the search: whether entry `i` has the name, and then its place. */
    method TryEntry(b: array<Byte>, i: nat, name: seq<Byte>, ghost count: nat) returns (hit: bool, r: Found)
      requires Terminated(name) && i < count && Scannable(b[..], CStr(name), i, count)
      ensures hit <==> Matches(b[..], EntriesEnd(i), CStr(name))
      ensures hit ==> r == FoundIn(EntryAt(b[..], i))
    {
      ghost var stop: nat :| Stops(b[..], EntriesEnd(i), CStr(name), stop);
      var c := StrCmp(b, HEADER_SIZE + i * ENTRY_SIZE, name, stop);
      hit, r := c == 0, NotFound;
      if hit {
        r := PlaceAt(b, HEADER_SIZE + i * ENTRY_SIZE);
      }
    }

    /** The place and size of the first entry of that name; the place is relative to the header. */
    method RamdiskFindFile(name: seq<Byte>) returns (r: Found)
      requires Terminated(name)
      requires header != null && entries != null ==>
                 header.Length >= HEADER_SIZE && Scannable(entries[..], CStr(name), 0, FileCount(header[..]))
      ensures r == if header == null || entries == null then NotFound
                   else Find(entries[..], CStr(name), 0, FileCount(header[..]))
    {
      if header == null || entries == null {
        return NotFound;
      }
      assert header[..][4..8] == header[4..8];
      var count := Num(header[4..8]);
      ghost var b, n := entries[..], CStr(name);
      var i, hit := 0, false;
      while i < count
        invariant 0 <= i <= count && Scannable(b, n, i, count)
        invariant Find(b, n, 0, count) == Find(b, n, i, count)
      {
        hit, r := TryEntry(entries, i, name, count);
        if hit {
          return;
        }
        i := i + 1;
      }
      return NotFound;
    }
  }

  /** Where strcmp stops decides whether the strings are equal. */
  lemma Compared(b: seq<Byte>, at: nat, n: seq<Byte>, k: nat)
    requires k <= |n| && at + k < |b| && 0 !in n && forall j :: 0 <= j < k ==> b[at + j] == n[j]
    requires b[at + k] == 0 || k == |n| || b[at + k] != n[k]
    ensures Matches(b, at, n) <==> k == |n| && b[at + k] == 0
  {
    assert k < |n| ==> n[k] in n;
    if k == |n| {
      assert b[at..at + k] == n;
    }
  }
}
