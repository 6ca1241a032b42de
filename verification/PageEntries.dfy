/** The words that map and protect leave in the tables, in numbers and bit by bit. */
module PageEntries {
  import opened Bits
  import opened Heap
  import opened PageTables
  import opened PageTableProofs
  import opened Words

  lemma OrLowBits(a: nat, f: nat)
    requires a % 4096 == 0 && f < 4096
    ensures Or(a, f) == a + f
  {
    Pow2At();
    OrAdds(a, f, 12);
  }

  lemma OrLowest(x: nat)
    ensures Or(x, 1) == x + if x % 2 == 0 then 1 else 0
  {
    OrZero(x / 2);
  }

  lemma PageFloor(paddr: nat)
    ensures (paddr - paddr % 4096) % 4096 == 0 && (paddr - paddr % 4096) % 2 == 0
  {
    var a, q := paddr - paddr % 4096, paddr / 4096;
    assert a == 4096 * q;
    PageMod(q, 0);
    assert a == 2 * (2048 * q);
  }

  /** With flags in the low twelve bits the entry is the page address plus the flags, made
      odd. */
  lemma EntryNumber(paddr: nat, flags: nat)
    requires flags < 4096
    ensures MakeEntry(paddr, flags) == paddr - paddr % 4096 + flags + if flags % 2 == 0 then 1 else 0
    ensures Or(Address(paddr), flags) == paddr - paddr % 4096 + flags
  {
    PageFloor(paddr);
    OrLowBits(paddr - paddr % 4096, flags);
    OrLowest(paddr - paddr % 4096 + flags);
  }

  /** The bits of `e` are those of the page address of `paddr` and those of `flags`. */
  ghost predicate Joins(e: nat, paddr: nat, flags: nat, present: bool) {
    forall i: nat :: Bit(e, i) <==> Bit(paddr - paddr % 4096, i) || Bit(flags, i) || (present && i == 0)
  }

  lemma OneBit(i: nat)
    ensures Bit(1, i) <==> i == 0
  {
    if i == 0 {
      BitZero(1);
    } else {
      BitHalf(1, i);
      assert 0 / Pow2(i - 1) == 0;
    }
  }

  lemma EntryBits(paddr: nat, flags: nat)
    ensures Joins(MakeEntry(paddr, flags), paddr, flags, true)
    ensures Joins(Or(Address(paddr), flags), paddr, flags, false)
  {
    var a := paddr - paddr % 4096;
    forall i: nat
      ensures Bit(Or(a, flags), i) <==> Bit(a, i) || Bit(flags, i)
      ensures Bit(Or(Or(a, flags), 1), i) <==> Bit(a, i) || Bit(flags, i) || i == 0
    {
      OrBit(a, flags, i);
      OrBit(Or(a, flags), 1, i);
      OneBit(i);
    }
  }

  /** mm_page_map: after a call that succeeds the entry of the page has the address of the
      frame, the flags and the present bit. */
  lemma MapStores(m: Mm, ks: Kinds, root: nat, vaddr: nat, paddr: nat, flags: nat)
    requires Forest(m, ks) && root in ks && ks[root] == 4 && paddr < WORD && flags < WORD
    requires Map(m, root, vaddr, paddr, flags).1.Ok?
    ensures var e := Lookup(Map(m, root, vaddr, paddr, flags).0, root, 4, Split(vaddr));
            && Joins(e, paddr, flags, true)
            && (flags < 4096 ==> e == paddr - paddr % 4096 + flags + if flags % 2 == 0 then 1 else 0)
  {
    var ks' := MapSpec(m, ks, root, vaddr, paddr, flags);
    EntryBits(paddr, flags);
    if flags < 4096 {
      EntryNumber(paddr, flags);
    }
  }

  /** mm_page_protect succeeds exactly on an entry with bit 0 set, which keeps its address and
      gets the new flags, present or not. */
  lemma ProtectStores(m: Mm, ks: Kinds, root: nat, vaddr: nat, flags: nat)
    requires Forest(m, ks) && root in ks && ks[root] == 4 && flags < WORD
    ensures var was := Lookup(m, root, 4, Split(vaddr));
            var (m', o) := Protect(m, root, vaddr, flags);
            var e := Lookup(m', root, 4, Split(vaddr));
            if was % 2 == 0 then o.Failed? && m' == m
            else o.Ok? && Joins(e, was, flags, false) && (flags < 4096 ==> e == was - was % 4096 + flags)
  {
    ProtectSpec(m, ks, root, vaddr, flags);
    DescendFinds(m, ks, root, 4, Split(vaddr));
    var was := Lookup(m, root, 4, Split(vaddr));
    EntryBits(was, flags);
    if flags < 4096 {
      EntryNumber(was, flags);
    }
  }

  // ----- the walk of the processor -----

  /** What one entry of a table of that level spans: 4 KiB, 2 MiB, 1 GiB, 512 GiB. */
  function Reach(level: nat): (r: nat)
    requires 1 <= level <= 4
    ensures r >= 1
  {
    if level == 1 then 4096 else if level == 2 then 4096 * 512 else if level == 3 then 4096 * 512 * 512
    else 4096 * 512 * 512 * 512
  }

  /** Translating `vaddr` by the table of that level in page `p`: each entry is a word of the
      heap, bit 0 says it is there, and from bit 12 on it is the address of the next table. */
  function Translate(m: Mm, p: nat, level: nat, vaddr: nat): nat
    requires 1 <= level <= 4
    decreases level
  {
    var w := 512 * p + vaddr / Reach(level) % 512;
    if w >= |m.words| then 0
    else
      var e := m.words[w];
      if level == 1 then e
      else if e % 2 == 0 || e / 4096 * 4096 < m.base then 0
      else Translate(m, (e / 4096 * 4096 - m.base) / 4096, level - 1, vaddr)
  }

  lemma IndexAt(vaddr: nat, level: nat)
    requires 1 <= level <= 4
    ensures At(Split(vaddr), level) == vaddr / Reach(level) % 512
  {
  }

  lemma LinkLeads(m: Mm, q: nat, e: nat)
    requires Sound(m) && q < PAGES && e == LinkTo(m, q)
    ensures e % 2 == 1 && e / 4096 * 4096 == m.base + 4096 * q && (e / 4096 * 4096 - m.base) / 4096 == q
  {
    FollowLink(m, q);
    FloorPage(e, m.base / 4096 + q);
    LinkArithmetic(m.base / 4096, q, e);
  }

  lemma FloorPage(e: nat, n: nat)
    requires e == 4096 * n + 7
    ensures e / 4096 * 4096 == 4096 * n
  {
    PageMod(n, 7);
  }

  /** The entry that the tables have for a page is the one a walk by the bits of its address
      comes to: nine bits each from 39, 30, 21 and 12 on. */
  lemma {:induction false} LookupTranslates(m: Mm, ks: Kinds, p: nat, level: nat, vaddr: nat)
    requires Forest(m, ks) && p in ks && ks[p] == level
    ensures Lookup(m, p, level, Split(vaddr)) == Translate(m, p, level, vaddr)
    decreases level
  {
    var v := Split(vaddr);
    IndexAt(vaddr, level);
    var e := m.words[512 * p + vaddr / Reach(level) % 512];
    assert e == W(m, p, At(v, level));
    if level == 1 {
      LookupLeaf(m, p, v);
    } else {
      LookupStep(m, p, level, v);
      assert Inner(ks, p, At(v, level)) && Links(m, ks, level, e);
      if e != 0 {
        var q := Follow(m, e).page;
        LinkLeads(m, q, e);
        LookupTranslates(m, ks, q, level - 1, vaddr);
      }
    }
  }

  /** For a root: */
  lemma RootTranslates(m: Mm, ks: Kinds, root: nat, vaddr: nat)
    requires Forest(m, ks) && root in ks && ks[root] == 4
    ensures Lookup(m, root, 4, Split(vaddr)) == Translate(m, root, 4, vaddr)
  {
    LookupTranslates(m, ks, root, 4, vaddr);
  }

  /** A table that page_table_get_entry adds is the next free page, linked as present, writable
      and open to user mode. */
  lemma NewLink(m: Mm, ks: Kinds, p: nat, i: nat)
    requires Forest(m, ks) && Inner(ks, p, i) && W(m, p, i) == 0
    ensures var (m', h) := GetEntry(m, p, i, true);
            if 4096 * 63 < m.off then h.Absent? && m' == m
            else
              && h.Table? && m.off <= 4096 * h.page < m.off + 4096 && m'.off == 4096 * h.page + 4096
              && m'.base == m.base && m'.words == m.words[512 * p + i := m.base + 4096 * h.page + 1 + 2 + 4]
  {
    AllocPageSpec(m);
    if FreePages(m) > 0 {
      GetEntryFresh(m, p, i);
    }
  }
}
