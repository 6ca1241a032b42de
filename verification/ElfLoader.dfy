/** The ELF loader in the form of kernel/src/elf.c, writing memory in place. */
module ElfLoader {
  import opened Bytes
  import opened LittleEndian
  import opened ElfMemory
  import opened Words

  method MemCpy(mem: array<Byte>, dst: nat, src: nat, n: nat)
    requires mem.Length == WORD
    modifies mem
    ensures mem[..] == Copy(old(mem[..]), dst, src, n)
  {
    var d, s, left := dst, src, n;
    while left > 0
      invariant 0 <= left
      invariant Copy(mem[..], d, s, left) == Copy(old(mem[..]), dst, src, n)
    {
      ghost var was := mem[..];
      mem[Wrap(d)] := mem[Wrap(s)];
      assert mem[..] == was[Wrap(d) := At(was, s)];
      d, s, left := d + 1, s + 1, left - 1;
    }
  }

  method MemSetZero(mem: array<Byte>, dst: nat, n: nat)
    requires mem.Length == WORD
    modifies mem
    ensures mem[..] == Clear(old(mem[..]), dst, n)
  {
    var p, left := dst, n;
    while left > 0
      invariant 0 <= left
      invariant Clear(mem[..], p, left) == Clear(old(mem[..]), dst, n)
    {
      ghost var was := mem[..];
      mem[Wrap(p)] := 0;
      assert mem[..] == was[Wrap(p) := 0];
      p, left := p + 1, left - 1;
    }
  }

  /** The body of the segment loop for a PT_LOAD header at `p`. */
  method LoadSegment(mem: array<Byte>, at: nat, p: nat)
    requires mem.Length == WORD
    modifies mem
    ensures mem[..] == LoadAt(old(mem[..]), at, p)
  {
    var s := SegmentAt(mem[..], p);
    MemCpy(mem, s.vaddr, at + s.offset, s.filesz);
    var t := SegmentAt(mem[..], p);
    if t.memsz > t.filesz {
      MemSetZero(mem, s.vaddr + t.filesz, t.memsz - t.filesz);
    }
  }

  method LoadHeader(mem: array<Byte>, at: nat, p: nat)
    requires mem.Length == WORD
    modifies mem
    ensures mem[..] == Turn(old(mem[..]), at, p)
  {
    if Field(mem[..], p, 4) != PT_LOAD {
      return;
    }
    LoadSegment(mem, at, p);
  }

  method LoadSegments(mem: array<Byte>, at: nat, table: nat)
    requires mem.Length == WORD
    modifies mem
    ensures mem[..] == LoadFrom(old(mem[..]), at, table, 0)
  {
    var i := 0;
    ghost var m := mem[..];
    ghost var all := LoadFrom(m, at, table, 0);
    while i < PhNum(mem[..], at)
      invariant 0 <= i < 0x1_0000 && m == mem[..]
      invariant LoadFrom(m, at, table, i) == all
      decreases 0x1_0000 - i
    {
      LoadHeader(mem, at, table + PHDR_SIZE * i);
      LoadFromTurn(m, mem[..], at, table, i);
      m := mem[..];
      i := i + 1;
    }
  }

  method Load(mem: array<Byte>, at: nat) returns (r: Outcome)
    requires mem.Length == WORD
    modifies mem
    ensures (r, mem[..]) == ElfLoad(old(mem[..]), at)
  {
    if mem[Wrap(at)] != 0x7F || mem[Wrap(at + 1)] != 0x45 || mem[Wrap(at + 2)] != 0x4C || mem[Wrap(at + 3)] != 0x46 {
      return Rejected;
    }
    if mem[Wrap(at + 4)] != CLASS_64 {
      return Rejected;
    }
    if mem[Wrap(at + 5)] != DATA_LSB {
      return Rejected;
    }
    if Field(mem[..], at + 18, 2) != MACHINE_X86_64 {
      return Rejected;
    }
    if Field(mem[..], at + 16, 2) != TYPE_EXEC {
      return Rejected;
    }
    r := Loaded(Entry(mem[..], at));
    LoadSegments(mem, at, TableOf(mem[..], at));
  }
}
