/** The byte layout of an ELF image, as kernel/include/elf.h declares it (the ELF-64 object
    file format): what the loader reads from an encoded image is what was encoded. */
module ElfImage {
  import opened Bytes
  import opened LittleEndian
  import opened ElfMemory
  import opened ElfProofs
  import opened Words

  datatype Ehdr = Ehdr(ident: seq<Byte>, kind: nat, machine: nat, version: nat, entry: nat, phoff: nat, shoff: nat,
                       flags: nat, ehsize: nat, phentsize: nat, phnum: nat, shentsize: nat, shnum: nat, shstrndx: nat)

  datatype Phdr = Phdr(kind: nat, flags: nat, offset: nat, vaddr: nat, paddr: nat, filesz: nat, memsz: nat, align: nat)

  /** Every field fits its type. */
  predicate EhdrOk(h: Ehdr) {
    && |h.ident| == 16 && h.kind < 0x1_0000 && h.machine < 0x1_0000 && h.version < 0x1_0000_0000
    && h.entry < WORD && h.phoff < WORD && h.shoff < WORD && h.flags < 0x1_0000_0000
    && h.ehsize < 0x1_0000 && h.phentsize < 0x1_0000 && h.phnum < 0x1_0000
    && h.shentsize < 0x1_0000 && h.shnum < 0x1_0000 && h.shstrndx < 0x1_0000
  }

  predicate PhdrOk(p: Phdr) {
    && p.kind < 0x1_0000_0000 && p.flags < 0x1_0000_0000 && p.offset < WORD && p.vaddr < WORD
    && p.paddr < WORD && p.filesz < WORD && p.memsz < WORD && p.align < WORD
  }

  /** The 64 bytes of the file header, field after field. */
  function EncodeEhdr(h: Ehdr): seq<Byte> {
    h.ident + Le(h.kind, 2) + Le(h.machine, 2) + Le(h.version, 4) + Le(h.entry, 8) + Le(h.phoff, 8) + Le(h.shoff, 8)
    + Le(h.flags, 4) + Le(h.ehsize, 2) + Le(h.phentsize, 2) + Le(h.phnum, 2) + Le(h.shentsize, 2) + Le(h.shnum, 2)
    + Le(h.shstrndx, 2)
  }

  /** The 56 bytes of a program header. */
  function EncodePhdr(p: Phdr): (b: seq<Byte>)
    ensures |b| == 56
  {
    Le(p.kind, 4) + Le(p.flags, 4) + Le(p.offset, 8) + Le(p.vaddr, 8) + Le(p.paddr, 8) + Le(p.filesz, 8) + Le(p.memsz, 8)
    + Le(p.align, 8)
  }

  /** Memory holds the bytes `b` from `at` on. */
  ghost predicate Holds(m: Memory, at: nat, b: seq<Byte>) {
    Span(m, at, |b|) == b
  }

  /** Program header `p` is entry `i` of the table at `at`. */
  ghost predicate HoldsRow(m: Memory, at: nat, i: nat, p: Phdr) {
    PhdrOk(p) && Holds(m, at + 56 * i, EncodePhdr(p))
  }

  ghost predicate HoldsTable(m: Memory, at: nat, ps: seq<Phdr>) {
    forall i :: 0 <= i < |ps| ==> HoldsRow(m, at, i, ps[i])
  }

  lemma HoldsParts(m: Memory, at: nat, a: seq<Byte>, b: seq<Byte>)
    requires Holds(m, at, a + b)
    ensures Holds(m, at, a) && Holds(m, at + |a|, b)
  {
    var all := Span(m, at, |a + b|);
    assert Span(m, at, |a|) == all[..|a|] == a;
    assert Span(m, at + |a|, |b|) == all[|a|..];
    assert all[|a|..] == b;
  }

  /** Taking the last field off: it reads back as the number. */
  lemma Peel(m: Memory, at: nat, b: seq<Byte>, n: nat, k: nat, o: nat)
    requires Holds(m, at, b + Le(n, k)) && n < Pow256(k) && o == at + |b|
    ensures Holds(m, at, b) && Field(m, o, k) == n
  {
    HoldsParts(m, at, b, Le(n, k));
    LeRoundTrip(n, k);
  }

  /** What the loader reads of a file header. */
  ghost predicate Reads(m: Memory, at: nat, h: Ehdr) {
    && Span(m, at, 16) == h.ident && Field(m, at + 16, 2) == h.kind && Field(m, at + 18, 2) == h.machine
    && Entry(m, at) == h.entry && TableOf(m, at) == at + h.phoff && PhNum(m, at) == h.phnum
  }

  lemma EhdrDecodes(m: Memory, at: nat, h: Ehdr)
    requires EhdrOk(h) && Holds(m, at, EncodeEhdr(h))
    ensures Reads(m, at, h)
  {
    Widths();
    var a := h.ident + Le(h.kind, 2) + Le(h.machine, 2) + Le(h.version, 4);
    var b := a + Le(h.entry, 8) + Le(h.phoff, 8) + Le(h.shoff, 8);
    var c := b + Le(h.flags, 4) + Le(h.ehsize, 2) + Le(h.phentsize, 2);
    HoldsParts(m, at, c + Le(h.phnum, 2) + Le(h.shentsize, 2) + Le(h.shnum, 2), Le(h.shstrndx, 2));
    HoldsParts(m, at, c + Le(h.phnum, 2) + Le(h.shentsize, 2), Le(h.shnum, 2));
    HoldsParts(m, at, c + Le(h.phnum, 2), Le(h.shentsize, 2));
    Peel(m, at, c, h.phnum, 2, at + 56);
    HoldsParts(m, at, b + Le(h.flags, 4) + Le(h.ehsize, 2), Le(h.phentsize, 2));
    HoldsParts(m, at, b + Le(h.flags, 4), Le(h.ehsize, 2));
    HoldsParts(m, at, b, Le(h.flags, 4));
    HoldsParts(m, at, a + Le(h.entry, 8) + Le(h.phoff, 8), Le(h.shoff, 8));
    Peel(m, at, a + Le(h.entry, 8), h.phoff, 8, at + 32);
    Peel(m, at, a, h.entry, 8, at + 24);
    HoldsParts(m, at, h.ident + Le(h.kind, 2) + Le(h.machine, 2), Le(h.version, 4));
    Peel(m, at, h.ident + Le(h.kind, 2), h.machine, 2, at + 18);
    Peel(m, at, h.ident, h.kind, 2, at + 16);
  }

  /** The segment that a program header asks to load: type 1 is PT_LOAD. */
  function LoadOf(p: Phdr): seq<Segment> {
    if p.kind == 1 then [Segment(p.offset, p.vaddr, p.filesz, p.memsz)] else []
  }

  lemma PhdrDecodes(m: Memory, at: nat, p: Phdr)
    requires PhdrOk(p) && Holds(m, at, EncodePhdr(p))
    ensures SegmentOf(m, at) == LoadOf(p)
  {
    Widths();
    var a := Le(p.kind, 4) + Le(p.flags, 4);
    var b := a + Le(p.offset, 8) + Le(p.vaddr, 8);
    var c := b + Le(p.paddr, 8) + Le(p.filesz, 8);
    HoldsParts(m, at, c + Le(p.memsz, 8), Le(p.align, 8));
    Peel(m, at, c, p.memsz, 8, at + 40);
    Peel(m, at, b + Le(p.paddr, 8), p.filesz, 8, at + 32);
    HoldsParts(m, at, b, Le(p.paddr, 8));
    Peel(m, at, a + Le(p.offset, 8), p.vaddr, 8, at + 16);
    Peel(m, at, a, p.offset, 8, at + 8);
    HoldsParts(m, at, Le(p.kind, 4), Le(p.flags, 4));
    assert [] + Le(p.kind, 4) == Le(p.kind, 4);
    Peel(m, at, [], p.kind, 4, at);
  }

  /** The segments to load, in the order of the table. */
  function Loads(ps: seq<Phdr>): seq<Segment> {
    if ps == [] then [] else LoadOf(ps[0]) + Loads(ps[1..])
  }

  ghost predicate Tabled(hs: seq<seq<Segment>>, ps: seq<Phdr>) {
    |hs| == |ps| && forall i :: 0 <= i < |ps| ==> hs[i] == LoadOf(ps[i])
  }

  lemma {:induction false} FlattenLoads(hs: seq<seq<Segment>>, ps: seq<Phdr>, i: nat)
    requires Tabled(hs, ps) && i <= |ps|
    ensures Flatten(hs, i) == Loads(ps[i..])
    decreases |ps| - i
  {
    if i < |ps| {
      FlattenLoads(hs, ps, i + 1);
      assert ps[i..][0] == ps[i] && ps[i..][1..] == ps[i + 1..];
    }
  }

  lemma RowDecodes(m: Memory, at: nat, ps: seq<Phdr>, i: nat)
    requires HoldsTable(m, at, ps) && i < |ps|
    ensures Headers(m, at, |ps|)[i] == LoadOf(ps[i])
  {
    assert HoldsRow(m, at, i, ps[i]);
    PhdrDecodes(m, at + 56 * i, ps[i]);
  }

  lemma TableDecodes(m: Memory, at: nat, ps: seq<Phdr>)
    requires HoldsTable(m, at, ps)
    ensures Segments(m, at, 0, |ps|) == Loads(ps)
  {
    forall i | 0 <= i < |ps| ensures Headers(m, at, |ps|)[i] == LoadOf(ps[i]) {
      RowDecodes(m, at, ps, i);
    }
    TabledLoads(Headers(m, at, |ps|), ps);
  }

  lemma TabledLoads(hs: seq<seq<Segment>>, ps: seq<Phdr>)
    requires Tabled(hs, ps)
    ensures Flatten(hs, 0) == Loads(ps)
  {
    FlattenLoads(hs, ps, 0);
    assert ps[0..] == ps;
  }

  /** What the loader accepts: magic, 64-bit class, little-endian data, x86-64, executable. */
  predicate Loadable(h: Ehdr) {
    && |h.ident| == 16 && h.ident[0] == 0x7F && h.ident[1] == 0x45 && h.ident[2] == 0x4C && h.ident[3] == 0x46
    && h.ident[4] == 2 && h.ident[5] == 1 && h.machine == 0x3E && h.kind == 2
  }

  lemma AnswerOf(m: Memory, at: nat, h: Ehdr)
    requires Reads(m, at, h)
    ensures ElfLoad(m, at).0 == if Loadable(h) then Loaded(h.entry) else Rejected
  {
    assert forall j :: 0 <= j < 6 ==> Span(m, at, 16)[j] == h.ident[j];
  }

  /** The loader's answer to an encoded header: its entry point, or a rejection exactly when
      one of the checked fields differs. */
  lemma AnswerIs(m: Memory, at: nat, h: Ehdr)
    requires EhdrOk(h) && Holds(m, at, EncodeEhdr(h))
    ensures ElfLoad(m, at).0 == if Loadable(h) then Loaded(h.entry) else Rejected
  {
    EhdrDecodes(m, at, h);
    AnswerOf(m, at, h);
  }

  /** Memory holds the image: the file header at `at` and its program headers where it says. */
  ghost predicate HoldsImage(m: Memory, at: nat, h: Ehdr, ps: seq<Phdr>) {
    EhdrOk(h) && h.phnum == |ps| && Holds(m, at, EncodeEhdr(h)) && HoldsTable(m, at + h.phoff, ps)
  }

  /** The segments do not write over the headers or over what others read or write. */
  ghost predicate Tidy(at: nat, h: Ehdr, ps: seq<Phdr>) {
    Apart(at, Loads(ps)) && HeadersKept(at, at + h.phoff, |ps|, Loads(ps))
  }

  /** What the loader reads of an image. */
  ghost predicate Decoded(m: Memory, at: nat, h: Ehdr, segs: seq<Segment>) {
    Reads(m, at, h) && Segments(m, at + h.phoff, 0, h.phnum) == segs
  }

  lemma ImageDecodes(m: Memory, at: nat, h: Ehdr, ps: seq<Phdr>)
    requires HoldsImage(m, at, h, ps)
    ensures Decoded(m, at, h, Loads(ps))
  {
    EhdrDecodes(m, at, h);
    TableDecodes(m, at + h.phoff, ps);
  }

  lemma DecodedLoads(m: Memory, at: nat, h: Ehdr, segs: seq<Segment>)
    requires Decoded(m, at, h, segs) && Loadable(h)
    requires Apart(at, segs) && HeadersKept(at, at + h.phoff, h.phnum, segs)
    ensures ElfLoad(m, at) == (Loaded(h.entry), LoadAll(m, at, segs))
  {
    AnswerOf(m, at, h);
    LoadFromIsLoadAll(m, at, at + h.phoff, 0, h.phnum, segs);
  }

  /** Loading an encoded image answers with its entry point and loads its PT_LOAD segments. */
  lemma ImageLoads(m: Memory, at: nat, h: Ehdr, ps: seq<Phdr>)
    requires HoldsImage(m, at, h, ps) && Loadable(h) && Tidy(at, h, ps)
    ensures ElfLoad(m, at) == (Loaded(h.entry), LoadAll(m, at, Loads(ps)))
  {
    ImageDecodes(m, at, h, ps);
    DecodedLoads(m, at, h, Loads(ps));
  }

  /** An image with another header is rejected, and memory stays. */
  lemma ImageRejected(m: Memory, at: nat, h: Ehdr)
    requires EhdrOk(h) && Holds(m, at, EncodeEhdr(h)) && !Loadable(h)
    ensures ElfLoad(m, at) == (Rejected, m)
  {
    AnswerIs(m, at, h);
  }

  lemma SegmentBytes(m: Memory, at: nat, segs: seq<Segment>, j: nat, a: nat)
    requires Apart(at, segs) && j < |segs| && a < WORD
    ensures var n, s := LoadAll(m, at, segs), segs[j];
            && (s.vaddr <= a < s.vaddr + s.filesz ==> n[a] == At(m, at + s.offset + (a - s.vaddr)))
            && (s.vaddr + s.filesz <= a < s.vaddr + s.memsz ==> n[a] == 0)
  {
    LoadAllSpec(m, at, segs, a);
    if Into(segs[j], a) {
      OnlyOwner(at, segs, j, a);
    }
  }

  /** Each PT_LOAD segment is then its bytes of the file at its address, and zeros up to its
      size in memory. */
  lemma ImageBytes(m: Memory, at: nat, ps: seq<Phdr>, i: nat, a: nat)
    requires Apart(at, Loads(ps)) && i < |ps| && ps[i].kind == 1 && a < WORD
    ensures var n, p := LoadAll(m, at, Loads(ps)), ps[i];
            && (p.vaddr <= a < p.vaddr + p.filesz ==> n[a] == At(m, at + p.offset + (a - p.vaddr)))
            && (p.vaddr + p.filesz <= a < p.vaddr + p.memsz ==> n[a] == 0)
  {
    var j := Listed(ps, i);
    SegmentBytes(m, at, Loads(ps), j, a);
  }

  /** And a byte of no PT_LOAD segment is as it was. */
  lemma ImageElsewhere(m: Memory, at: nat, ps: seq<Phdr>, a: nat)
    requires Apart(at, Loads(ps)) && a < WORD
    requires forall i :: 0 <= i < |ps| && ps[i].kind == 1 ==>
               a < ps[i].vaddr || (a >= ps[i].vaddr + ps[i].filesz && a >= ps[i].vaddr + ps[i].memsz)
    ensures LoadAll(m, at, Loads(ps))[a] == m[a]
  {
    LoadAllSpec(m, at, Loads(ps), a);
    var segs := Loads(ps);
    if Owner(segs, a) < |segs| {
      var i := Source(ps, Owner(segs, a));
    }
  }

  /** Where the segment of a PT_LOAD header comes in the list. */
  lemma {:induction false} Listed(ps: seq<Phdr>, i: nat) returns (j: nat)
    requires i < |ps| && ps[i].kind == 1
    ensures j < |Loads(ps)| && [Loads(ps)[j]] == LoadOf(ps[i])
  {
    if i == 0 {
      j := 0;
    } else {
      j := Listed(ps[1..], i - 1);
      j := j + |LoadOf(ps[0])|;
    }
  }

  /** And which header a listed segment comes from. */
  lemma {:induction false} Source(ps: seq<Phdr>, j: nat) returns (i: nat)
    requires j < |Loads(ps)|
    ensures i < |ps| && ps[i].kind == 1 && [Loads(ps)[j]] == LoadOf(ps[i])
  {
    if j < |LoadOf(ps[0])| {
      i := 0;
    } else {
      i := Source(ps[1..], j - |LoadOf(ps[0])|);
      i := i + 1;
    }
  }
}
