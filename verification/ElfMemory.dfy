/** What kernel/src/elf.c does to memory, byte by byte. Memory is the whole 64-bit address
    space, so addresses wrap and every access is to some byte. */
module ElfMemory {
  import opened Bytes
  import opened LittleEndian
  import opened Words

  type Memory = m: seq<Byte> | |m| == WORD ghost witness Zeros(WORD)

  const CLASS_64 := 2
  const DATA_LSB := 1
  const TYPE_EXEC := 2
  const MACHINE_X86_64 := 0x3E
  const PT_LOAD := 1
  const EHDR_SIZE := 64
  const PHDR_SIZE := 56

  /** Addresses are 64-bit numbers. */
  function Wrap(a: nat): (r: nat)
    ensures r < WORD
  {
    if a < WORD then a else a % WORD
  }

  function At(m: Memory, a: nat): Byte {
    m[Wrap(a)]
  }

  function Span(m: Memory, a: nat, k: nat): (b: seq<Byte>)
    ensures |b| == k && forall j :: 0 <= j < k ==> b[j] == At(m, a + j)
  {
    seq<Byte>(k, j requires 0 <= j < k => At(m, a + j))
  }

  function Field(m: Memory, a: nat, k: nat): nat {
    Num(Span(m, a, k))
  }

  // ----- the byte loops -----

  /** memcpy, from the first byte on. */
  function Copy(m: Memory, dst: nat, src: nat, n: nat): Memory
    decreases n
  {
    if n == 0 then m else Copy(m[Wrap(dst) := At(m, src)], dst + 1, src + 1, n - 1)
  }

  /** memset to zero. */
  function Clear(m: Memory, dst: nat, n: nat): Memory
    decreases n
  {
    if n == 0 then m else Clear(m[Wrap(dst) := 0], dst + 1, n - 1)
  }

  // ----- the headers -----

  predicate HeaderOk(m: Memory, at: nat) {
    && At(m, at) == 0x7F && At(m, at + 1) == 0x45 && At(m, at + 2) == 0x4C && At(m, at + 3) == 0x46
    && At(m, at + 4) == CLASS_64 && At(m, at + 5) == DATA_LSB
    && Field(m, at + 18, 2) == MACHINE_X86_64 && Field(m, at + 16, 2) == TYPE_EXEC
  }

  function Entry(m: Memory, at: nat): nat {
    Field(m, at + 24, 8)
  }

  function TableOf(m: Memory, at: nat): nat {
    at + Field(m, at + 32, 8)
  }

  function PhNum(m: Memory, at: nat): (n: nat)
    ensures n < 0x1_0000
  {
    NumBound(Span(m, at + 56, 2));
    Widths();
    Field(m, at + 56, 2)
  }

  datatype Segment = Segment(offset: nat, vaddr: nat, filesz: nat, memsz: nat)

  /** The four fields of the program header at `p` that the loader uses. */
  function SegmentAt(m: Memory, p: nat): Segment {
    Segment(Field(m, p + 8, 8), Field(m, p + 16, 8), Field(m, p + 32, 8), Field(m, p + 40, 8))
  }

  // ----- the loader -----

  /** One segment. The sizes are read again after the copy, which may have changed them. */
  function LoadAt(m: Memory, at: nat, p: nat): Memory {
    var s := SegmentAt(m, p);
    var copied := Copy(m, s.vaddr, at + s.offset, s.filesz);
    var t := SegmentAt(copied, p);
    if t.memsz > t.filesz then Clear(copied, s.vaddr + t.filesz, t.memsz - t.filesz) else copied
  }

  /** The segment loop from header `i` on; the number of headers and the headers
      themselves are read from memory as it then is. */
  function LoadFrom(m: Memory, at: nat, table: nat, i: nat): Memory
    decreases 0x1_0000 - i, table
  {
    if i >= PhNum(m, at) then m
    else if Field(m, table + PHDR_SIZE * i, 4) != PT_LOAD then LoadFrom(m, at, table, i + 1)
    else LoadFrom(LoadAt(m, at, table + PHDR_SIZE * i), at, table, i + 1)
  }

  /** What the loop does for one header. */
  function Turn(m: Memory, at: nat, p: nat): Memory {
    if Field(m, p, 4) == PT_LOAD then LoadAt(m, at, p) else m
  }

  lemma LoadFromTurn(m: Memory, n: Memory, at: nat, table: nat, i: nat)
    requires i < PhNum(m, at) && n == Turn(m, at, table + PHDR_SIZE * i)
    ensures LoadFrom(m, at, table, i) == LoadFrom(n, at, table, i + 1)
  {
  }

  datatype Outcome = Rejected | Loaded(entry: nat)

  function ElfLoad(m: Memory, at: nat): (Outcome, Memory) {
    if HeaderOk(m, at) then (Loaded(Entry(m, at)), LoadFrom(m, at, TableOf(m, at), 0)) else (Rejected, m)
  }
}
