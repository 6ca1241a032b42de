/** The leaf access exactly as kernel/src/mm.c writes it: the leaf table is found and
    checked, and then the entry is taken in the root, `pt->entries[pt_idx]`. */
module LiteralLeaf {
  import opened Bits
  import opened Heap
  import opened PageTables
  import opened PageTableProofs
  import opened Words

  function MapLiteral(m: Mm, root: nat, vaddr: nat, paddr: nat, flags: nat): (Mm, Outcome)
    requires |m.words| == PAGES * ENTRIES && m.off < WORD && root < PAGES
  {
    var (m1, h) := Descend(m, root, 4, Split(vaddr), true);
    match h
    case Table(_) => (SetW(m1, root, Split(vaddr).pt, MakeEntry(paddr, flags)), Ok)
    case Absent => (m1, Failed)
    case Stray => (m1, OutOfHeap)
  }

  function UnmapLiteral(m: Mm, root: nat, vaddr: nat): Mm
    requires |m.words| == PAGES * ENTRIES && m.off < WORD && root < PAGES
  {
    if Descend(m, root, 4, Split(vaddr), false).1.Table? then SetW(m, root, Split(vaddr).pt, 0) else m
  }

  function ProtectLiteral(m: Mm, root: nat, vaddr: nat, flags: nat): Mm
    requires |m.words| == PAGES * ENTRIES && m.off < WORD && root < PAGES
  {
    var e := W(m, root, Split(vaddr).pt);
    if Descend(m, root, 4, Split(vaddr), false).1.Table? && Present(e)
    then SetW(m, root, Split(vaddr).pt, Or(Address(e), flags)) else m
  }

  /** What mm_page_walk points at: a word of the root, if the walk succeeds. */
  function LookupLiteral(m: Mm, root: nat, x: Ix): nat
    requires |m.words| == PAGES * ENTRIES && root < PAGES
  {
    if Find(m, root, 4, x).Table? then W(m, root, x.pt) else 0
  }

  /** Off the root, writing a root entry changes no step of a walk that does not use it. */
  lemma {:induction false} RootWriteFind(m: Mm, ks: Kinds, root: nat, i: nat, e: nat, p: nat, level: nat, x: Ix)
    requires Forest(m, ks) && root in ks && ks[root] == 4 && i < ENTRIES
    requires p in ks && ks[p] == level
    requires p == root ==> x.pml4 != i
    ensures Find(SetW(m, root, i, e), p, level, x) == Find(m, p, level, x)
    decreases level
  {
    if level > 1 {
      var j := At(x, level);
      SetWFrame(m, root, i, e, p, j);
      InnerChild(m, ks, p, j);
      var h := Follow(m, W(m, p, j));
      if h.Table? {
        RootWriteFind(m, ks, root, i, e, h.page, level - 1, x);
        FindStep(m, p, level, x, h.page, Find(m, h.page, level - 1, x));
        FindStep(SetW(m, root, i, e), p, level, x, h.page, Find(m, h.page, level - 1, x));
      }
    }
  }

  /** The entry of page `y` if its walk goes on from the entry `e`: none unless that points
      at a page of the heap, which is then read as a table of the next level. */
  function Redirected(m: Mm, root: nat, e: nat, y: Ix): nat
    requires |m.words| == PAGES * ENTRIES && root < PAGES
  {
    match Follow(m, e)
    case Table(q) => if Find(m, q, 3, y).Table? then W(m, root, y.pt) else 0
    case _ => 0
  }

  /** A store into the root gives the pages that share that word their new entry, and
      redirects the walks of the pages reached through it. */
  lemma StoreLookup(m: Mm, ks: Kinds, root: nat, i: nat, e: nat, y: Ix)
    requires Forest(m, ks) && root in ks && ks[root] == 4 && i < ENTRIES
    ensures var m' := SetW(m, root, i, e);
            LookupLiteral(m', root, y) ==
            if y.pml4 == i then Redirected(m', root, e, y)
            else if !Find(m, root, 4, y).Table? then 0
            else if y.pt == i then e else W(m, root, y.pt)
  {
    var m' := SetW(m, root, i, e);
    SetWFrame(m, root, i, e, root, y.pml4);
    SetWFrame(m, root, i, e, root, y.pt);
    assert At(y, 4) == y.pml4;
    if y.pml4 != i {
      RootWriteFind(m, ks, root, i, e, root, 4, y);
    }
  }

  lemma EntryAddress(paddr: nat, flags: nat)
    requires paddr < WORD && flags < PAGE
    ensures Address(MakeEntry(paddr, flags)) == Address(paddr)
  {
    Pow2At();
    var a := Address(paddr);
    AddressRounds(paddr);
    OrAdds(a, flags, 12);
    var f := Or(flags, 1);
    OrBound(flags, 1, 12);
    OrLow(a, flags);
    OrAdds(a, f, 12);
    AddressOf(MakeEntry(paddr, flags), paddr / PAGE, f);
  }

  lemma AddressOf(e: nat, q: nat, f: nat)
    requires e == PAGE * q + f && f < PAGE
    ensures Address(e) == PAGE * q
  {
    PageMod(q, f);
  }

  lemma AddressRounds(paddr: nat)
    ensures Address(paddr) == PAGE * (paddr / PAGE) && Address(paddr) % PAGE == 0
  {
    PageMod(paddr / PAGE, 0);
  }

  lemma OrAssoc(x: nat, y: nat, z: nat)
    ensures Or(Or(x, y), z) == Or(x, Or(y, z))
    decreases x + y + z
  {
    if x != 0 || y != 0 || z != 0 {
      OrAssoc(x / 2, y / 2, z / 2);
    }
  }

  lemma OrLow(a: nat, flags: nat)
    ensures Or(Or(a, flags), 1) == Or(a, Or(flags, 1))
  {
    OrAssoc(a, flags, 1);
  }

  /** Mapping any frame outside the kernel heap puts a link that leaves the heap into the
      root: whatever the other pages hold, the tables are a forest no more. */
  lemma LiteralBreaksForest(m: Mm, ks: Kinds, root: nat, vaddr: nat, paddr: nat, flags: nat, ks': Kinds)
    requires Forest(m, ks) && root in ks && ks[root] == 4
    requires paddr < WORD && flags < PAGE && !(m.base <= Address(paddr) < m.base + HEAP_SIZE)
    requires MapLiteral(m, root, vaddr, paddr, flags).1.Ok?
    requires root in ks' && ks'[root] == 4
    ensures !Forest(MapLiteral(m, root, vaddr, paddr, flags).0, ks')
  {
    var m' := MapLiteral(m, root, vaddr, paddr, flags).0;
    var i, e := Split(vaddr).pt, MakeEntry(paddr, flags);
    var ks1 := DescendSpec(m, ks, root, 4, Split(vaddr));
    var m1 := Descend(m, root, 4, Split(vaddr), true).0;
    EntryAddress(paddr, flags);
    EntryBound(paddr, flags);
    SetWFrame(m1, root, i, e, root, i);
    assert W(m', root, i) == e && Follow(m', e).Stray?;
    if Forest(m', ks') {
      InnerChild(m', ks', root, i);
    }
  }

  lemma StrayDescends(m: Mm, root: nat, x: Ix)
    requires |m.words| == PAGES * ENTRIES && m.off < WORD && root < PAGES
    requires Follow(m, W(m, root, x.pml4)).Stray?
    ensures Descend(m, root, 4, x, true) == (m, Stray)
  {
    assert At(x, 4) == x.pml4;
    assert GetEntry(m, root, x.pml4, true) == (m, Stray);
  }

  /** mm_init with the literal leaf: once page 0 is mapped to frame 0, every walk below
      512 GiB follows that frame's own entry, whose address is 0, out of the heap. */
  lemma LiteralInitLeavesHeap(m: Mm, ks: Kinds, root: nat, x: Ix)
    requires Forest(m, ks) && root in ks && ks[root] == 4 && FreePages(m) >= 3 && W(m, root, 0) == 0
    requires x.pml4 == 0
    ensures var (m1, o) := MapLiteral(m, root, 0, 0, 0x103);
            o.Ok? && |m1.words| == PAGES * ENTRIES && m1.off < WORD && Descend(m1, root, 4, x, true) == (m1, Stray)
  {
    var y := Split(0);
    assert y == Indices(0, 0, 0, 0) && At(y, 4) == 0;
    DescendFailsIff(m, ks, root, 4, y);
    var ks1 := DescendSpec(m, ks, root, 4, y);
    var d := Descend(m, root, 4, y, true).0;
    EntryAddress(0, 0x103);
    EntryBound(0, 0x103);
    SetWFrame(d, root, 0, MakeEntry(0, 0x103), root, 0);
    StrayDescends(MapLiteral(m, root, 0, 0, 0x103).0, root, x);
  }
}
