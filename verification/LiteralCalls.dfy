/** What whole calls with the literal leaf access do to every page of the tree: the tables
    they create put links into the root, where the pages' entries are as well. */
module LiteralCalls {
  import opened Bits
  import opened Heap
  import opened PageTables
  import opened PageTableProofs
  import opened LiteralLeaf
  import opened Words

  // ----- what a descent with create writes -----

  /** Walks that take the same entry and agree below it agree. */
  lemma StepAgrees(m: Mm, m': Mm, x: nat, level: nat, y: Ix)
    requires |m.words| == |m'.words| == PAGES * ENTRIES && m.base == m'.base && x < PAGES && 2 <= level <= 4
    requires W(m', x, At(y, level)) == W(m, x, At(y, level))
    requires var h := Follow(m, W(m, x, At(y, level))); h.Table? ==> Find(m', h.page, level - 1, y) == Find(m, h.page, level - 1, y)
    ensures Find(m', x, level, y) == Find(m, x, level, y)
  {
    assert Follow(m', W(m', x, At(y, level))) == Follow(m, W(m, x, At(y, level)));
  }

  /** Linking a new table below `p` changes no walk from another table of that level or below. */
  lemma {:induction false} GrowFind(m: Mm, ks: Kinds, p: nat, i: nat, q: nat, m': Mm, x: nat, level: nat, y: Ix)
    requires Grows(m, ks, p, i, q, m') && Sound(m')
    requires x in ks && ks[x] == level <= ks[p] && x != p
    ensures Find(m', x, level, y) == Find(m, x, level, y)
    decreases level
  {
    if level > 1 {
      var j := At(y, level);
      GrowWords(m, ks, p, i, q, m', x, j);
      InnerChild(m, ks, x, j);
      var h := Follow(m, W(m, x, j));
      if h.Table? {
        GrowFind(m, ks, p, i, q, m', h.page, level - 1, y);
      }
      StepAgrees(m, m', x, level, y);
    }
  }

  lemma GetEntryWords(m: Mm, ks: Kinds, p: nat, i: nat, x: nat, j: nat)
    requires Forest(m, ks) && Inner(ks, p, i) && x < PAGES && j < ENTRIES
    ensures W(GetEntry(m, p, i, true).0, x, j) ==
            if x == p && j == i && W(m, p, i) == 0 && FreePages(m) > 0 then LinkTo(m, PAGES - FreePages(m)) else W(m, x, j)
  {
    InnerChild(m, ks, p, i);
    AllocPageSpec(m);
    if W(m, p, i) == 0 && FreePages(m) > 0 {
      GetEntryFresh(m, p, i);
      var q := PAGES - FreePages(m);
      SetWFrame(m.(off := PAGE * (q + 1)), p, i, LinkTo(m, q), x, j);
    }
  }

  lemma GetEntrySibling(m: Mm, ks: Kinds, p: nat, i: nat, x: nat, level: nat, y: Ix)
    requires Forest(m, ks) && Inner(ks, p, i) && x in ks && ks[x] == level <= ks[p] && x != p
    ensures Find(GetEntry(m, p, i, true).0, x, level, y) == Find(m, x, level, y)
  {
    InnerChild(m, ks, p, i);
    AllocPageSpec(m);
    if W(m, p, i) == 0 && FreePages(m) > 0 {
      GetEntryGrows(m, ks, p, i);
      var (g, h) := GetEntry(m, p, i, true);
      GrowSound(m, ks, p, i, h.page, g);
      GrowFind(m, ks, p, i, h.page, g, x, level, y);
    }
  }

  /** A descent writes no table above the one it starts from. */
  lemma {:induction false} DescendUpper(m: Mm, ks: Kinds, c: nat, level: nat, v: Ix, x: nat, j: nat)
    requires Forest(m, ks) && c in ks && ks[c] == level && x in ks && ks[x] > level && j < ENTRIES
    ensures W(Descend(m, c, level, v, true).0, x, j) == W(m, x, j)
    decreases level
  {
    if level > 1 {
      var i := At(v, level);
      var ks1 := GetEntrySpec(m, ks, c, i);
      var (g, h) := GetEntry(m, c, i, true);
      GetEntryWords(m, ks, c, i, x, j);
      if h.Table? {
        DescendUpper(g, ks1, h.page, level - 1, v, x, j);
      }
    }
  }

  /** Two tables of one level have different children. */
  lemma ChildrenApart(m: Mm, ks: Kinds, x: nat, j: nat, c: nat, i: nat)
    requires Forest(m, ks) && Inner(ks, x, j) && Inner(ks, c, i) && (x != c || j != i)
    requires Follow(m, W(m, x, j)).Table? && Follow(m, W(m, c, i)).Table?
    ensures Follow(m, W(m, x, j)).page != Follow(m, W(m, c, i)).page
  {
    assert Links(m, ks, ks[x], W(m, x, j)) && Links(m, ks, ks[c], W(m, c, i));
  }

  /** A descent changes no walk from another table of the level it starts from. */
  lemma {:induction false} DescendSibling(m: Mm, ks: Kinds, c: nat, level: nat, v: Ix, x: nat, y: Ix)
    requires Forest(m, ks) && c in ks && x in ks && ks[c] == ks[x] == level && x != c
    ensures Find(Descend(m, c, level, v, true).0, x, level, y) == Find(m, x, level, y)
    decreases level, 0
  {
    if level > 1 {
      var i := At(v, level);
      var ks1 := GetEntrySpec(m, ks, c, i);
      var (g, h) := GetEntry(m, c, i, true);
      DescendStep(m, c, level, v, true);
      GetEntrySibling(m, ks, c, i, x, level, y);
      if h.Table? {
        BelowSibling(g, ks1, c, i, h.page, level, v, x, y);
      }
    }
  }

  /** The descent goes on below entry `i` of `c`; a walk by another entry is not affected. */
  lemma {:induction false} BelowSibling(g: Mm, ks: Kinds, c: nat, i: nat, d: nat, level: nat, v: Ix, x: nat, y: Ix)
    requires Forest(g, ks) && c in ks && x in ks && ks[c] == ks[x] == level >= 2 && i < ENTRIES
    requires d in ks && ks[d] == level - 1 && Follow(g, W(g, c, i)) == Table(d)
    requires x != c || At(y, level) != i
    ensures Find(Descend(g, d, level - 1, v, true).0, x, level, y) == Find(g, x, level, y)
    decreases level - 1, 1
  {
    var j := At(y, level);
    var m1 := DescendSame(g, ks, d, level - 1, v);
    DescendUpper(g, ks, d, level - 1, v, x, j);
    InnerChild(g, ks, x, j);
    var e := Follow(g, W(g, x, j));
    if e.Table? {
      ChildrenApart(g, ks, x, j, c, i);
      DescendSibling(g, ks, d, level - 1, v, e.page, y);
    }
    StepAgrees(g, m1, x, level, y);
  }

  lemma DescendSame(m: Mm, ks: Kinds, p: nat, level: nat, v: Ix) returns (m1: Mm)
    requires Forest(m, ks) && p in ks && ks[p] == level
    ensures m1 == Descend(m, p, level, v, true).0 && m1.base == m.base && |m1.words| == |m.words|
  {
    var ks2 := DescendSpec(m, ks, p, level, v);
    m1 := Descend(m, p, level, v, true).0;
  }

  // ----- which pages have a leaf table afterwards -----

  predicate SamePath(y: Ix, v: Ix, level: nat)
    requires level <= 4
  {
    forall l :: 2 <= l <= level ==> At(y, l) == At(v, l)
  }

  lemma NewTableFinds(m: Mm, ks: Kinds, p: nat, i: nat, q: nat, m': Mm, level: nat, y: Ix)
    requires Grows(m, ks, p, i, q, m') && |m'.words| == PAGES * ENTRIES && 1 <= level <= 4
    ensures Find(m', q, level, y) == if level == 1 then Table(q) else Absent
  {
    if level > 1 {
      GrowWords(m, ks, p, i, q, m', q, At(y, level));
      FreshPageZero(m, q, At(y, level));
    }
  }

  /** Through the entry a descent takes, a page has a leaf table in the grown heap exactly if
      it had one, or the new table is itself a leaf table. */
  lemma EntryFinds(m: Mm, ks: Kinds, p: nat, level: nat, y: Ix)
    requires Forest(m, ks) && p in ks && ks[p] == level >= 2
    ensures var (g, h) := GetEntry(m, p, At(y, level), true);
            h.Table? ==> (Find(g, h.page, level - 1, y).Table? <==> Find(m, p, level, y).Table? || level == 2)
  {
    var i := At(y, level);
    InnerChild(m, ks, p, i);
    AllocPageSpec(m);
    if W(m, p, i) == 0 && FreePages(m) > 0 {
      GetEntryGrows(m, ks, p, i);
      var (g, h) := GetEntry(m, p, i, true);
      NewTableFinds(m, ks, p, i, h.page, g, level - 1, y);
    }
  }

  /** After a descent for `v` exactly those pages have a leaf table that had one, and, if it
      succeeds, those whose leaf table is that of `v`. */
  lemma {:induction false} DescendFindIff(m: Mm, ks: Kinds, p: nat, level: nat, v: Ix, y: Ix)
    requires Forest(m, ks) && p in ks && ks[p] == level
    ensures var (m1, h) := Descend(m, p, level, v, true);
            Find(m1, p, level, y).Table? <==> Find(m, p, level, y).Table? || (h.Table? && SamePath(y, v, level))
    decreases level, 0
  {
    if level > 1 {
      var i := At(v, level);
      var ks1 := GetEntrySpec(m, ks, p, i);
      var (g, h) := GetEntry(m, p, i, true);
      if h.Table? {
        if At(y, level) != i {
          OtherEntry(m, ks, p, level, v, y, g, ks1, h.page);
        } else {
          SameEntry(m, ks, p, level, v, y, g, ks1, h.page);
        }
      }
    }
  }

  lemma OtherEntry(m: Mm, ks: Kinds, p: nat, level: nat, v: Ix, y: Ix, g: Mm, ks1: Kinds, c: nat)
    requires Forest(m, ks) && p in ks && ks[p] == level >= 2 && At(y, level) != At(v, level)
    requires Forest(g, ks1) && Extends(m, ks, g, ks1) && GetEntry(m, p, At(v, level), true) == (g, Table(c))
    requires c in ks1 && ks1[c] == level - 1 && Follow(g, W(g, p, At(v, level))) == Table(c)
    ensures Find(Descend(m, p, level, v, true).0, p, level, y) == Find(m, p, level, y)
  {
    var i, j := At(v, level), At(y, level);
    DescendStep(m, p, level, v, true);
    BelowSibling(g, ks1, p, i, c, level, v, p, y);
    GetEntryWords(m, ks, p, i, p, j);
    InnerChild(m, ks, p, j);
    var h := Follow(m, W(m, p, j));
    if h.Table? {
      GetEntrySibling(m, ks, p, i, h.page, level - 1, y);
    }
    StepAgrees(m, g, p, level, y);
  }

  lemma {:induction false} SameEntry(m: Mm, ks: Kinds, p: nat, level: nat, v: Ix, y: Ix, g: Mm, ks1: Kinds, c: nat)
    requires Forest(m, ks) && p in ks && ks[p] == level >= 2 && At(y, level) == At(v, level)
    requires Forest(g, ks1) && Extends(m, ks, g, ks1) && GetEntry(m, p, At(v, level), true) == (g, Table(c))
    requires c in ks1 && ks1[c] == level - 1 && Follow(g, W(g, p, At(v, level))) == Table(c)
    ensures var (m1, h) := Descend(m, p, level, v, true);
            Find(m1, p, level, y).Table? <==> Find(m, p, level, y).Table? || (h.Table? && SamePath(y, v, level))
    decreases level - 1, 1
  {
    DescendStep(m, p, level, v, true);
    DescendFindIff(g, ks1, c, level - 1, v, y);
    EntryFinds(m, ks, p, level, y);
    SameEntryDown(g, ks1, p, level, v, y, c);
    assert SamePath(y, v, level) <==> SamePath(y, v, level - 1);
    if level == 2 {
      assert SamePath(y, v, 1) && Descend(g, c, 1, v, true) == (g, Table(c));
    }
  }

  lemma SameEntryDown(g: Mm, ks: Kinds, p: nat, level: nat, v: Ix, y: Ix, c: nat)
    requires Forest(g, ks) && p in ks && ks[p] == level >= 2 && At(y, level) == At(v, level)
    requires c in ks && ks[c] == level - 1 && Follow(g, W(g, p, At(v, level))) == Table(c)
    ensures var m1 := Descend(g, c, level - 1, v, true).0; Find(m1, p, level, y) == Find(m1, c, level - 1, y)
  {
    DescendUpper(g, ks, c, level - 1, v, p, At(v, level));
    var m1 := DescendSame(g, ks, c, level - 1, v);
    FindStep(m1, p, level, y, c, Find(m1, c, level - 1, y));
  }

  // ----- the calls -----

  predicate Kept(m: Mm, m': Mm, root: nat, y: Ix)
    requires |m.words| == |m'.words| == PAGES * ENTRIES && root < PAGES
  {
    LookupLiteral(m', root, y) == LookupLiteral(m, root, y)
  }

  /** A descent for `v` links a table into the zero root word of index `j`. */
  predicate LinksRoot(m: Mm, root: nat, v: Ix, j: nat)
    requires |m.words| == PAGES * ENTRIES && root < PAGES && j < ENTRIES && m.off <= HEAP_SIZE
  {
    j == v.pml4 && W(m, root, j) == 0 && FreePages(m) > 0
  }

  lemma RootAfter(m: Mm, ks: Kinds, root: nat, v: Ix, j: nat)
    requires Forest(m, ks) && root in ks && ks[root] == 4 && j < ENTRIES
    ensures var w := W(Descend(m, root, 4, v, true).0, root, j);
            if LinksRoot(m, root, v, j) then w != 0 else w == W(m, root, j)
  {
    var ks1 := GetEntrySpec(m, ks, root, v.pml4);
    var (g, h) := GetEntry(m, root, v.pml4, true);
    DescendStep(m, root, 4, v, true);
    GetEntryWords(m, ks, root, v.pml4, root, j);
    if h.Table? {
      DescendUpper(g, ks1, h.page, 3, v, root, j);
    }
  }

  /** mm_page_walk with create: it changes the entry of exactly the pages that have a leaf
      table then and whose entry is the root word of the new link, or another word that
      was not zero before they had a leaf table. */
  lemma WalkLiteralIff(m: Mm, ks: Kinds, root: nat, v: Ix, y: Ix)
    requires Forest(m, ks) && root in ks && ks[root] == 4
    ensures var (m1, h) := Descend(m, root, 4, v, true);
            var had := Find(m, root, 4, y).Table?;
            Kept(m, m1, root, y) <==>
            if LinksRoot(m, root, v, y.pt) then !had && !(h.Table? && SamePath(y, v, 4))
            else had || W(m, root, y.pt) == 0 || !(h.Table? && SamePath(y, v, 4))
  {
    DescendFindIff(m, ks, root, 4, v, y);
    RootAfter(m, ks, root, v, y.pt);
  }

  /** mm_page_map that fails is the walk alone: it changes the entry of every page that has
      its tables and shares the root word in which a first new table was linked. */
  lemma FailedMapLiteralIff(m: Mm, ks: Kinds, root: nat, vaddr: nat, paddr: nat, flags: nat, y: Ix)
    requires Forest(m, ks) && root in ks && ks[root] == 4
    requires !MapLiteral(m, root, vaddr, paddr, flags).1.Ok?
    ensures Kept(m, MapLiteral(m, root, vaddr, paddr, flags).0, root, y) <==>
            !(Find(m, root, 4, y).Table? && LinksRoot(m, root, Split(vaddr), y.pt))
  {
    WalkLiteralIff(m, ks, root, Split(vaddr), y);
  }

  lemma LinkedEnough(m: Mm, ks: Kinds, root: nat, v: Ix)
    requires Forest(m, ks) && root in ks && ks[root] == 4 && Descend(m, root, 4, v, true).1.Table?
    ensures W(m, root, v.pml4) == 0 ==> FreePages(m) > 0
  {
    DescendFailsIff(m, ks, root, 4, v);
    assert At(v, 4) == v.pml4;
  }

  /** mm_page_map that succeeds leaves the entry of page `y` as it was exactly when
      - its walk used the root word written, and the redirected walk gives the old entry;
      - or it has no leaf table, before or after;
      - or its entry is the word written, and was the entry written;
      - or its entry is another word, in which no link was put, and it had a leaf table or
        the word was zero. */
  lemma MapLiteralIff(m: Mm, ks: Kinds, root: nat, vaddr: nat, paddr: nat, flags: nat, y: Ix)
    requires Forest(m, ks) && root in ks && ks[root] == 4 && paddr < WORD && flags < WORD
    requires MapLiteral(m, root, vaddr, paddr, flags).1.Ok?
    ensures var v, e, m' := Split(vaddr), MakeEntry(paddr, flags), MapLiteral(m, root, vaddr, paddr, flags).0;
            var had := Find(m, root, 4, y).Table?;
            Kept(m, m', root, y) <==>
            if y.pml4 == v.pt then Redirected(m', root, e, y) == LookupLiteral(m, root, y)
            else if !had && !SamePath(y, v, 4) then true
            else if y.pt == v.pt then had && e == W(m, root, y.pt)
            else !(y.pt == v.pml4 && W(m, root, y.pt) == 0) && (had || W(m, root, y.pt) == 0)
  {
    var v, e := Split(vaddr), MakeEntry(paddr, flags);
    var ks1 := DescendSpec(m, ks, root, 4, v);
    var m1 := Descend(m, root, 4, v, true).0;
    EntryBound(paddr, flags);
    StoreLookup(m1, ks1, root, v.pt, e, y);
    DescendFindIff(m, ks, root, 4, v, y);
    RootAfter(m, ks, root, v, y.pt);
    LinkedEnough(m, ks, root, v);
  }

  /** A frame outside the heap redirects the walks into nowhere. */
  lemma OutsideRedirects(m: Mm, root: nat, paddr: nat, flags: nat, y: Ix)
    requires |m.words| == PAGES * ENTRIES && root < PAGES && paddr < WORD && flags < PAGE
    requires !(m.base <= Address(paddr) < m.base + HEAP_SIZE)
    ensures Redirected(m, root, MakeEntry(paddr, flags), y) == 0
  {
    EntryAddress(paddr, flags);
  }

  /** mm_page_unmap clears the entry of every page that shares the root word or is reached
      through it. */
  lemma UnmapLiteralIff(m: Mm, ks: Kinds, root: nat, vaddr: nat, y: Ix)
    requires Forest(m, ks) && root in ks && ks[root] == 4
    ensures var v, was := Split(vaddr), LookupLiteral(m, root, y);
            Kept(m, UnmapLiteral(m, root, vaddr), root, y) <==>
            Find(m, root, 4, v).Table? && (y.pml4 == v.pt || y.pt == v.pt) ==> was == 0
  {
    DescendFinds(m, ks, root, 4, Split(vaddr));
    StoreLookup(m, ks, root, Split(vaddr).pt, 0, y);
  }

  /** mm_page_protect gives every page that shares the root word the new flags, and
      redirects those reached through it. */
  lemma ProtectLiteralIff(m: Mm, ks: Kinds, root: nat, vaddr: nat, flags: nat, y: Ix)
    requires Forest(m, ks) && root in ks && ks[root] == 4
    ensures var v, m' := Split(vaddr), ProtectLiteral(m, root, vaddr, flags);
            var w := W(m, root, v.pt);
            var e := Or(Address(w), flags);
            Kept(m, m', root, y) <==>
            Find(m, root, 4, v).Table? && Present(w) ==>
              if y.pml4 == v.pt then Redirected(m', root, e, y) == LookupLiteral(m, root, y)
              else Find(m, root, 4, y).Table? && y.pt == v.pt ==> e == w
  {
    var v := Split(vaddr);
    DescendFinds(m, ks, root, 4, v);
    StoreLookup(m, ks, root, v.pt, Or(Address(W(m, root, v.pt)), flags), y);
  }
}
