/** The four-level tables denote a flat map from page numbers to entries, for every root
    at once: map, unmap and protect change the addressed page and nothing else. */
module PageTableProofs {
  import opened Bits
  import opened Heap
  import opened PageTables
  import opened Words

  // ----- allocating a table -----

  /** Pages the bump allocator can still hand out. */
  function PagesLeft(off: nat): nat
    requires off <= HEAP_SIZE
  {
    PAGES - (off + PAGE - 1) / PAGE
  }

  function FreePages(m: Mm): nat
    requires m.off <= HEAP_SIZE
  {
    PagesLeft(m.off)
  }

  lemma PagePower()
    ensures Power(PAGE)
  {
    Pow2At();
  }

  lemma AllocPageSpec(m: Mm)
    requires Sound(m)
    ensures var (m1, g) := AllocPage(m);
            if FreePages(m) == 0 then g.Refused? && m1 == m
            else g == Granted(PAGE * (PAGES - FreePages(m))) && m1 == m.(off := g.start + PAGE) && Sound(m1)
                 && FreePages(m1) == FreePages(m) - 1
  {
    PageAligned(m.off);
    NoWrapMod(AlignUp(m.off, PAGE) + PAGE);
  }

  lemma PageAligned(off: nat)
    requires off <= HEAP_SIZE
    ensures AlignUp(off, PAGE) == PAGE * ((off + PAGE - 1) / PAGE)
  {
    PagePower();
    AlignUpLeast(off, PAGE);
    var r, n := AlignUp(off, PAGE), (off + PAGE - 1) / PAGE;
    Multiple(n);
    assert PAGE * n >= off;
    assert r <= PAGE * n < off + PAGE;
    if r < PAGE * n {
      MultiplesApart(r, PAGE * n, PAGE);
    }
  }

  lemma Multiple(n: nat)
    ensures PAGE * n % PAGE == 0
  {
  }

  lemma FreshPageZero(m: Mm, q: nat, i: nat)
    requires Sound(m) && q < PAGES && i < ENTRIES && PAGE * q >= m.off
    ensures W(m, q, i) == 0
  {
  }

  /** Linking a fresh, zeroed table below an absent entry. */
  ghost predicate Grows(m: Mm, ks: Kinds, p: nat, i: nat, q: nat, m': Mm) {
    && Forest(m, ks) && Inner(ks, p, i)
    && W(m, p, i) == 0
    && q < PAGES && PAGE * q >= m.off && PAGE * (q + 1) <= HEAP_SIZE
    && m' == SetW(m.(off := PAGE * (q + 1)), p, i, LinkTo(m, q))
  }

  lemma GrowWords(m: Mm, ks: Kinds, p: nat, i: nat, q: nat, m': Mm, x: nat, j: nat)
    requires Grows(m, ks, p, i, q, m') && x < PAGES && j < ENTRIES
    ensures |m'.words| == PAGES * ENTRIES
    ensures W(m', x, j) == if x == p && j == i then LinkTo(m, q) else W(m, x, j)
  {
    SetWFrame(m.(off := PAGE * (q + 1)), p, i, LinkTo(m, q), x, j);
  }

  lemma GrowSound(m: Mm, ks: Kinds, p: nat, i: nat, q: nat, m': Mm)
    requires Grows(m, ks, p, i, q, m')
    ensures Sound(m') && q !in ks
  {
    FollowLink(m, q);
  }

  lemma GrowForest(m: Mm, ks: Kinds, p: nat, i: nat, q: nat, m': Mm)
    requires Grows(m, ks, p, i, q, m')
    ensures Forest(m', ks[q := ks[p] - 1])
  {
    GrowSound(m, ks, p, i, q, m');
    var ks' := ks[q := ks[p] - 1];
    FollowLink(m, q);
    forall x, j | Inner(ks', x, j) ensures Links(m', ks', ks'[x], W(m', x, j)) {
      GrowWords(m, ks, p, i, q, m', x, j);
      if x == q {
        FreshPageZero(m, q, j);
      } else if !(x == p && j == i) {
        assert Inner(ks, x, j) && Links(m, ks, ks[x], W(m, x, j));
      }
    }
    forall x, j, y, k | Inner(ks', x, j) && Inner(ks', y, k) && W(m', x, j) == W(m', y, k) != 0
      ensures x == y && j == k
    {
      GrowSource(m, ks, p, i, q, m', x, j);
      GrowSource(m, ks, p, i, q, m', y, k);
    }
  }

  /** A non-zero inner entry after growing is the new link or an old link to an old table. */
  lemma GrowSource(m: Mm, ks: Kinds, p: nat, i: nat, q: nat, m': Mm, x: nat, j: nat)
    requires Grows(m, ks, p, i, q, m') && Sound(m') && q !in ks
    requires Inner(ks[q := ks[p] - 1], x, j) && x < PAGES && W(m', x, j) != 0
    ensures x != q
    ensures if x == p && j == i then W(m', x, j) == LinkTo(m, q)
            else Inner(ks, x, j) && W(m', x, j) == W(m, x, j) != LinkTo(m, q)
  {
    GrowWords(m, ks, p, i, q, m', x, j);
    if x == q {
      FreshPageZero(m, q, j);
    } else if !(x == p && j == i) {
      assert Inner(ks, x, j) && Links(m, ks, ks[x], W(m, x, j));
      FollowLink(m, q);
    }
  }

  lemma LookupStep(m: Mm, p: nat, level: nat, v: Ix)
    requires |m.words| == PAGES * ENTRIES && p < PAGES && 2 <= level <= 4
    ensures var h := Follow(m, W(m, p, At(v, level)));
            Lookup(m, p, level, v) == if h.Table? then Lookup(m, h.page, level - 1, v) else 0
  {
  }

  lemma LookupLeaf(m: Mm, p: nat, v: Ix)
    requires |m.words| == PAGES * ENTRIES && p < PAGES
    ensures Lookup(m, p, 1, v) == W(m, p, v.pt)
  {
  }

  /** The new link leads to an empty table: still no entry. */
  lemma NewLinkEmpty(m: Mm, ks: Kinds, p: nat, i: nat, q: nat, m': Mm, level: nat, v: Ix)
    requires Grows(m, ks, p, i, q, m') && Sound(m')
    requires ks[p] == level && At(v, level) == i
    ensures Lookup(m', p, level, v) == 0 == Lookup(m, p, level, v)
  {
    GrowWords(m, ks, p, i, q, m', p, i);
    FollowLink(m, q);
    NewTableEmpty(m, ks, p, i, q, m', level - 1, v);
    LookupStep(m', p, level, v);
    LookupStep(m, p, level, v);
  }

  /** An entry that stays leads to the same table. */
  lemma SameLink(m: Mm, m': Mm, ks: Kinds, x: nat, level: nat, v: Ix)
    requires Forest(m, ks) && Sound(m') && m'.base == m.base
    requires x in ks && ks[x] == level >= 2 && W(m', x, At(v, level)) == W(m, x, At(v, level))
    ensures var h := Follow(m, W(m, x, At(v, level)));
            if h.Table? then
              && h.page in ks && ks[h.page] == level - 1
              && Lookup(m, x, level, v) == Lookup(m, h.page, level - 1, v)
              && Lookup(m', x, level, v) == Lookup(m', h.page, level - 1, v)
            else Lookup(m, x, level, v) == 0 == Lookup(m', x, level, v)
  {
    InnerChild(m, ks, x, At(v, level));
    LookupStep(m, x, level, v);
    LookupStep(m', x, level, v);
  }

  /** In the table that got the new link, and in a leaf table. */
  lemma GrowHere(m: Mm, ks: Kinds, p: nat, i: nat, q: nat, m': Mm, x: nat, level: nat, v: Ix)
    requires Grows(m, ks, p, i, q, m') && Sound(m')
    requires x in ks && ks[x] == level && (level == 1 || (x == p && At(v, level) == i))
    ensures Lookup(m', x, level, v) == Lookup(m, x, level, v)
  {
    if level == 1 {
      GrowWords(m, ks, p, i, q, m', x, v.pt);
      LookupLeaf(m, x, v);
      LookupLeaf(m', x, v);
    } else {
      NewLinkEmpty(m, ks, p, i, q, m', level, v);
    }
  }

  /** Elsewhere the entry stays, and what it means is what the table behind it means. */
  lemma GrowElsewhere(m: Mm, ks: Kinds, p: nat, i: nat, q: nat, m': Mm, x: nat, level: nat, v: Ix) returns (h: Hop)
    requires Grows(m, ks, p, i, q, m') && Sound(m')
    requires x in ks && ks[x] == level >= 2 && !(x == p && At(v, level) == i)
    ensures if h.Table? then
              && h.page in ks && ks[h.page] == level - 1 && h.page < PAGES
              && Lookup(m, x, level, v) == Lookup(m, h.page, level - 1, v)
              && Lookup(m', x, level, v) == Lookup(m', h.page, level - 1, v)
            else Lookup(m', x, level, v) == Lookup(m, x, level, v)
  {
    GrowWords(m, ks, p, i, q, m', x, At(v, level));
    SameLink(m, m', ks, x, level, v);
    h := Follow(m, W(m, x, At(v, level)));
  }

  lemma {:induction false} GrowLookup(m: Mm, ks: Kinds, p: nat, i: nat, q: nat, m': Mm, x: nat, level: nat, v: Ix)
    requires Grows(m, ks, p, i, q, m') && Sound(m')
    requires x in ks && ks[x] == level
    ensures Lookup(m', x, level, v) == Lookup(m, x, level, v)
    decreases level
  {
    if level == 1 || (x == p && At(v, level) == i) {
      GrowHere(m, ks, p, i, q, m', x, level, v);
    } else {
      var h := GrowElsewhere(m, ks, p, i, q, m', x, level, v);
      if h.Table? {
        GrowLookup(m, ks, p, i, q, m', h.page, level - 1, v);
      }
    }
  }

  lemma NewTableEmpty(m: Mm, ks: Kinds, p: nat, i: nat, q: nat, m': Mm, level: nat, v: Ix)
    requires Grows(m, ks, p, i, q, m') && Sound(m') && 1 <= level <= 4
    ensures Lookup(m', q, level, v) == 0
  {
    var j := At(v, level);
    GrowWords(m, ks, p, i, q, m', q, j);
    FreshPageZero(m, q, j);
  }

  // ----- descending -----

  /** How many tables are missing on the way down. */
  function Missing(m: Mm, p: nat, level: nat, x: Ix): nat
    requires |m.words| == PAGES * ENTRIES && p < PAGES && 1 <= level <= 4
    decreases level
  {
    if level == 1 then 0
    else
      match Follow(m, W(m, p, At(x, level)))
      case Table(c) => Missing(m, c, level - 1, x)
      case _ => level - 1
  }

  /** Only pages of tables were written, and new tables came from the free part. */
  ghost predicate Below(m: Mm, ks: Kinds, m': Mm, ks': Kinds)
    requires |m.words| == |m'.words|
  {
    && m'.base == m.base && m.off <= m'.off
    && (forall x :: x in ks' && x !in ks ==> PAGE * x >= m.off)
    && forall w :: 0 <= w < |m.words| && w / ENTRIES !in ks' ==> m'.words[w] == m.words[w]
  }

  /** `m'` has the tables of `m`, with the same meaning, and perhaps more tables. */
  ghost predicate Extends(m: Mm, ks: Kinds, m': Mm, ks': Kinds)
    requires Forest(m, ks) && Forest(m', ks')
  {
    && Below(m, ks, m', ks')
    && (forall x :: x in ks ==> x in ks' && ks'[x] == ks[x])
    && (forall x, j :: Inner(ks, x, j) && W(m, x, j) != 0 ==> W(m', x, j) == W(m, x, j))
    && forall x, v :: x in ks ==> Lookup(m', x, ks[x], v) == Lookup(m, x, ks[x], v)
  }

  lemma ExtendsTransitive(m: Mm, ks: Kinds, m1: Mm, ks1: Kinds, m2: Mm, ks2: Kinds)
    requires Forest(m, ks) && Forest(m1, ks1) && Forest(m2, ks2)
    requires Extends(m, ks, m1, ks1) && Extends(m1, ks1, m2, ks2)
    ensures Extends(m, ks, m2, ks2)
  {
    forall w | 0 <= w < |m.words| && w / ENTRIES !in ks2 ensures m2.words[w] == m.words[w] {
      assert w / ENTRIES !in ks1;
    }
    forall x, v | x in ks ensures Lookup(m2, x, ks[x], v) == Lookup(m, x, ks[x], v) {
      assert Lookup(m1, x, ks1[x], v) == Lookup(m, x, ks[x], v);
    }
    forall x, j | Inner(ks, x, j) && W(m, x, j) != 0 ensures W(m2, x, j) == W(m, x, j) {
      assert Inner(ks1, x, j) && W(m1, x, j) == W(m, x, j);
    }
  }

  lemma GrowExtends(m: Mm, ks: Kinds, p: nat, i: nat, q: nat, m': Mm)
    requires Grows(m, ks, p, i, q, m')
    ensures Forest(m', ks[q := ks[p] - 1]) && Extends(m, ks, m', ks[q := ks[p] - 1])
  {
    GrowSound(m, ks, p, i, q, m');
    GrowForest(m, ks, p, i, q, m');
    forall x, v | x in ks ensures Lookup(m', x, ks[x], v) == Lookup(m, x, ks[x], v) {
      GrowLookup(m, ks, p, i, q, m', x, ks[x], v);
    }
    forall x, j | Inner(ks, x, j) && W(m, x, j) != 0 ensures W(m', x, j) == W(m, x, j) {
      GrowWords(m, ks, p, i, q, m', x, j);
    }
  }

  /** page_table_get_entry with create set: an existing link is followed, a missing table
      is linked in, and only an exhausted heap makes it fail. */
  lemma GetEntrySpec(m: Mm, ks: Kinds, p: nat, i: nat) returns (ks': Kinds)
    requires Forest(m, ks) && Inner(ks, p, i)
    ensures var (m', h) := GetEntry(m, p, i, true);
            && Forest(m', ks') && Extends(m, ks, m', ks')
            && (Follow(m, W(m, p, i)).Table? ==> m' == m && ks' == ks && h == Follow(m, W(m, p, i)))
            && (Follow(m, W(m, p, i)).Absent? && FreePages(m) == 0 ==> m' == m && ks' == ks && h.Absent?)
            && (Follow(m, W(m, p, i)).Absent? && FreePages(m) > 0 ==>
                 h.Table? && FreePages(m') == FreePages(m) - 1 && Grows(m, ks, p, i, h.page, m'))
            && (h.Table? ==> h.page in ks' && ks'[h.page] + 1 == ks[p] && W(m', p, i) != 0 && Follow(m', W(m', p, i)) == h)
    ensures !Follow(m, W(m, p, i)).Stray?
  {
    InnerChild(m, ks, p, i);
    AllocPageSpec(m);
    if W(m, p, i) != 0 || FreePages(m) == 0 {
      ks' := ks;
    } else {
      var q := PAGES - FreePages(m);
      ks' := ks[q := ks[p] - 1];
      GetEntryGrows(m, ks, p, i);
      GrowExtends(m, ks, p, i, q, GetEntry(m, p, i, true).0);
    }
  }

  lemma GetEntryFresh(m: Mm, p: nat, i: nat)
    requires Sound(m) && p < PAGES && i < ENTRIES && W(m, p, i) == 0 && FreePages(m) > 0
    ensures var q := PAGES - FreePages(m);
            GetEntry(m, p, i, true) == (SetW(m.(off := PAGE * (q + 1)), p, i, LinkTo(m, q)), Table(q))
  {
    AllocPageSpec(m);
    PageMod(PAGES - FreePages(m), 0);
  }

  lemma GetEntryGrows(m: Mm, ks: Kinds, p: nat, i: nat)
    requires Forest(m, ks) && Inner(ks, p, i) && W(m, p, i) == 0 && FreePages(m) > 0
    ensures var (m', h) := GetEntry(m, p, i, true);
            && h == Table(PAGES - FreePages(m)) && Grows(m, ks, p, i, h.page, m')
            && FreePages(m') == FreePages(m) - 1
            && W(m', p, i) != 0 && Follow(m', W(m', p, i)) == h
  {
    AllocPageSpec(m);
    GetEntryFresh(m, p, i);
    var q := PAGES - FreePages(m);
    GrowWords(m, ks, p, i, q, GetEntry(m, p, i, true).0, p, i);
    FollowLink(m, q);
  }

  lemma FindStep(m: Mm, p: nat, level: nat, v: Ix, c: nat, h: Hop)
    requires |m.words| == PAGES * ENTRIES && p < PAGES && c < PAGES && 2 <= level <= 4
    requires Follow(m, W(m, p, At(v, level))) == Table(c) && Find(m, c, level - 1, v) == h
    ensures Find(m, p, level, v) == h
  {
  }

  lemma DescendStep(m: Mm, p: nat, level: nat, x: Ix, create: bool)
    requires |m.words| == PAGES * ENTRIES && m.off < WORD && p < PAGES && 2 <= level <= 4
    ensures Descend(m, p, level, x, create) ==
            var (m1, h) := GetEntry(m, p, At(x, level), create);
            if h.Table? then Descend(m1, h.page, level - 1, x, create) else (m1, h)
  {
  }

  /** Descending with create set: it ends at the leaf table, having changed no meaning,
      or fails, having changed no meaning. It never leaves the heap. */
  ghost predicate Descends(m: Mm, ks: Kinds, p: nat, level: nat, v: Ix, ks': Kinds)
    requires Forest(m, ks) && p in ks && ks[p] == level
  {
    var (m', h) := Descend(m, p, level, v, true);
    && Forest(m', ks') && Extends(m, ks, m', ks')
    && !h.Stray?
    && (h.Table? ==> h.page in ks' && ks'[h.page] == 1 && Find(m', p, level, v) == h)
  }

  lemma {:induction false} DescendSpec(m: Mm, ks: Kinds, p: nat, level: nat, v: Ix) returns (ks': Kinds)
    requires Forest(m, ks) && p in ks && ks[p] == level
    ensures Descends(m, ks, p, level, v, ks')
    decreases level
  {
    if level == 1 {
      ks' := ks;
    } else {
      var ks1 := GetEntrySpec(m, ks, p, At(v, level));
      var (m1, h) := GetEntry(m, p, At(v, level), true);
      if h.Table? {
        ks' := DescendSpec(m1, ks1, h.page, level - 1, v);
        DescendJoin(m, ks, p, level, v, m1, ks1, h.page, ks');
      } else {
        ks' := ks1;
        assert Descend(m, p, level, v, true) == (m1, h);
      }
    }
  }

  lemma DescendJoin(m: Mm, ks: Kinds, p: nat, level: nat, v: Ix, m1: Mm, ks1: Kinds, c: nat, ks': Kinds)
    requires Forest(m, ks) && Forest(m1, ks1)
    requires Extends(m, ks, m1, ks1)
    requires p in ks && ks[p] == level >= 2 && c in ks1 && ks1[c] == level - 1
    requires var i := At(v, level);
             W(m1, p, i) != 0 && Follow(m1, W(m1, p, i)) == Table(c) && GetEntry(m, p, i, true) == (m1, Table(c))
    requires Descends(m1, ks1, c, level - 1, v, ks')
    ensures Descends(m, ks, p, level, v, ks')
  {
    var (m', g) := Descend(m1, c, level - 1, v, true);
    assert Descend(m, p, level, v, true) == (m', g);
    ExtendsTransitive(m, ks, m1, ks1, m', ks');
    if g.Table? {
      KeptLink(m1, ks1, m', ks', p, At(v, level), c);
      FindStep(m', p, level, v, c, g);
    }
  }

  lemma KeptLink(m: Mm, ks: Kinds, m': Mm, ks': Kinds, p: nat, i: nat, c: nat)
    requires Forest(m, ks) && Forest(m', ks') && Extends(m, ks, m', ks')
    requires Inner(ks, p, i) && W(m, p, i) != 0 && Follow(m, W(m, p, i)) == Table(c)
    ensures Follow(m', W(m', p, i)) == Table(c)
  {
    assert W(m', p, i) == W(m, p, i);
  }

  /** It fails exactly when more tables are missing than the heap has pages, and
      otherwise takes exactly the missing ones. */
  lemma {:induction false} DescendFailsIff(m: Mm, ks: Kinds, p: nat, level: nat, v: Ix)
    requires Forest(m, ks) && p in ks && ks[p] == level
    ensures var (m', h) := Descend(m, p, level, v, true);
            && m'.off <= HEAP_SIZE
            && (h.Absent? <==> Missing(m, p, level, v) > FreePages(m))
            && (h.Table? ==> FreePages(m') == FreePages(m) - Missing(m, p, level, v))
    decreases level
  {
    if level > 1 {
      var i := At(v, level);
      var ks1 := GetEntrySpec(m, ks, p, i);
      var (m1, h) := GetEntry(m, p, i, true);
      DescendStep(m, p, level, v, true);
      if h.Table? {
        DescendFailsIff(m1, ks1, h.page, level - 1, v);
        MissingStep(m, ks, p, level, v, m1, h.page);
      }
    }
  }

  /** What is missing below the table that the first step reached. */
  lemma MissingStep(m: Mm, ks: Kinds, p: nat, level: nat, v: Ix, m1: Mm, c: nat)
    requires Forest(m, ks) && p in ks && ks[p] == level >= 2 && |m1.words| == PAGES * ENTRIES && c < PAGES
    requires var h := Follow(m, W(m, p, At(v, level)));
             (h == Table(c) && m1 == m) || (h.Absent? && Grows(m, ks, p, At(v, level), c, m1))
    ensures Missing(m1, c, level - 1, v) + (if m1 == m then 0 else 1) == Missing(m, p, level, v)
  {
    var i := At(v, level);
    if Follow(m, W(m, p, i)).Absent? {
      NewTableMissing(m, ks, p, i, c, m1, level - 1, v);
      GrowWords(m, ks, p, i, c, m1, p, i);
      FollowLink(m, c);
    }
  }

  lemma NewTableMissing(m: Mm, ks: Kinds, p: nat, i: nat, q: nat, m': Mm, level: nat, v: Ix)
    requires Grows(m, ks, p, i, q, m') && |m'.words| == PAGES * ENTRIES && 1 <= level <= 4
    ensures Missing(m', q, level, v) == level - 1
  {
    GrowWords(m, ks, p, i, q, m', q, At(v, level));
    FreshPageZero(m, q, At(v, level));
  }

  /** Without create the descent is the search, and writes nothing. */
  lemma {:induction false} DescendFinds(m: Mm, ks: Kinds, p: nat, level: nat, v: Ix)
    requires Forest(m, ks) && p in ks && ks[p] == level
    ensures Descend(m, p, level, v, false) == (m, Find(m, p, level, v))
    ensures !Find(m, p, level, v).Stray?
    ensures var h := Find(m, p, level, v); h.Table? ==> h.page in ks && ks[h.page] == 1
    decreases level
  {
    if level > 1 {
      var i := At(v, level);
      assert Inner(ks, p, i) && Links(m, ks, ks[p], W(m, p, i));
      if W(m, p, i) != 0 {
        DescendFinds(m, ks, Follow(m, W(m, p, i)).page, level - 1, v);
      }
    }
  }

  // ----- no table has two parents -----

  /** A leaf table is reached from one root, by one choice of upper indices. */
  lemma {:induction false} FindInjective(m: Mm, ks: Kinds, x: nat, y: nat, level: nat, v: Ix, w: Ix)
    requires Forest(m, ks) && x in ks && y in ks && ks[x] == ks[y] == level
    requires Find(m, x, level, v).Table? && Find(m, x, level, v) == Find(m, y, level, w)
    ensures x == y && forall l :: 2 <= l <= level ==> At(v, l) == At(w, l)
    decreases level
  {
    if level > 1 {
      var i, j := At(v, level), At(w, level);
      assert Inner(ks, x, i) && Links(m, ks, ks[x], W(m, x, i));
      assert Inner(ks, y, j) && Links(m, ks, ks[y], W(m, y, j));
      FindInjective(m, ks, Follow(m, W(m, x, i)).page, Follow(m, W(m, y, j)).page, level - 1, v, w);
      assert W(m, x, i) == W(m, y, j);
    }
  }

  // ----- writing a leaf entry -----

  lemma LeafWriteForest(m: Mm, ks: Kinds, t: nat, i: nat, e: nat)
    requires Forest(m, ks) && t in ks && ks[t] == 1 && i < ENTRIES && e < WORD
    ensures Forest(SetW(m, t, i, e), ks)
  {
    var m' := SetW(m, t, i, e);
    forall x, j | Inner(ks, x, j) ensures W(m', x, j) == W(m, x, j) {
      SetWFrame(m, t, i, e, x, j);
    }
    forall x, j | Inner(ks, x, j) ensures Links(m', ks, ks[x], W(m', x, j)) {
      assert Links(m, ks, ks[x], W(m, x, j));
    }
  }

  /** A leaf write on top of an extension stays within the tables. */
  lemma LeafWriteBelow(m: Mm, ks: Kinds, m1: Mm, ks': Kinds, t: nat, i: nat, e: nat)
    requires |m.words| == |m1.words| == PAGES * ENTRIES
    requires Below(m, ks, m1, ks') && t in ks' && t < PAGES && i < ENTRIES
    ensures Below(m, ks, SetW(m1, t, i, e), ks')
  {
    forall w | 0 <= w < |m.words| && w / ENTRIES !in ks' ensures SetW(m1, t, i, e).words[w] == m.words[w] {
      assert w != ENTRIES * t + i;
    }
  }

  lemma InnerChild(m: Mm, ks: Kinds, x: nat, j: nat)
    requires Forest(m, ks) && Inner(ks, x, j)
    ensures var h := Follow(m, W(m, x, j)); h.Absent? || (h.Table? && h.page in ks && ks[h.page] + 1 == ks[x])
    ensures W(m, x, j) == 0 <==> Follow(m, W(m, x, j)).Absent?
  {
    assert Links(m, ks, ks[x], W(m, x, j));
  }

  lemma {:induction false} LeafWriteFind(m: Mm, ks: Kinds, t: nat, i: nat, e: nat, x: nat, level: nat, v: Ix)
    requires Forest(m, ks) && t in ks && ks[t] == 1 && i < ENTRIES
    requires x in ks && ks[x] == level
    ensures Find(SetW(m, t, i, e), x, level, v) == Find(m, x, level, v)
    decreases level
  {
    if level > 1 {
      var j := At(v, level);
      SetWFrame(m, t, i, e, x, j);
      InnerChild(m, ks, x, j);
      var h := Follow(m, W(m, x, j));
      if h.Table? {
        LeafWriteFind(m, ks, t, i, e, h.page, level - 1, v);
        FindStep(m, x, level, v, h.page, Find(m, h.page, level - 1, v));
        FindStep(SetW(m, t, i, e), x, level, v, h.page, Find(m, h.page, level - 1, v));
      }
    }
  }

  /** Writing the entry of `v` in the tree of `root` changes that page in that tree only. */
  lemma LeafWriteLookup(m: Mm, ks: Kinds, root: nat, v: Ix, e: nat, s: nat, w: Ix)
    requires Forest(m, ks) && root in ks && s in ks && ks[root] == ks[s] == 4
    requires Find(m, root, 4, v).Table?
    ensures Lookup(SetW(m, Find(m, root, 4, v).page, v.pt, e), s, 4, w)
         == if s == root && w == v then e else Lookup(m, s, 4, w)
  {
    var t, i := Find(m, root, 4, v).page, v.pt;
    DescendFinds(m, ks, root, 4, v);
    LeafWriteFind(m, ks, t, i, e, s, 4, w);
    var h := Find(m, s, 4, w);
    if h.Table? {
      SetWFrame(m, t, i, e, h.page, w.pt);
      if h.page == t {
        FindInjective(m, ks, root, s, 4, v, w);
        assert At(v, 2) == At(w, 2) && At(v, 3) == At(w, 3) && At(v, 4) == At(w, 4);
      }
    }
  }

  // ----- the operations -----

  lemma EntryBound(paddr: nat, flags: nat)
    requires paddr < WORD && flags < WORD
    ensures Or(Address(paddr), flags) < WORD && MakeEntry(paddr, flags) < WORD && Present(MakeEntry(paddr, flags))
  {
    Pow2At();
    OrBound(Address(paddr), flags, 64);
    OrBound(Or(Address(paddr), flags), 1, 64);
    OrOdd(Or(Address(paddr), flags), 1);
  }

  /** mm_page_map: when the tables it needs fit in the heap it sets the entry of that page
      and changes no other page of any tree; otherwise it fails and changes no page at all. */
  lemma MapSpec(m: Mm, ks: Kinds, root: nat, vaddr: nat, paddr: nat, flags: nat) returns (ks': Kinds)
    requires Forest(m, ks) && root in ks && ks[root] == 4 && paddr < WORD && flags < WORD
    ensures var (m', o) := Map(m, root, vaddr, paddr, flags);
            && Forest(m', ks') && Below(m, ks, m', ks')
            && (forall x :: x in ks ==> x in ks' && ks'[x] == ks[x])
            && o == (if Missing(m, root, 4, Split(vaddr)) <= FreePages(m) then Ok else Failed)
            && (o.Ok? ==> FreePages(m') == FreePages(m) - Missing(m, root, 4, Split(vaddr)))
            && forall s, w :: s in ks && ks[s] == 4 ==>
                 Lookup(m', s, 4, w) == if o.Ok? && s == root && w == Split(vaddr) then MakeEntry(paddr, flags)
                                        else Lookup(m, s, 4, w)
  {
    var v := Split(vaddr);
    ks' := DescendSpec(m, ks, root, 4, v);
    DescendFailsIff(m, ks, root, 4, v);
    var (m1, h) := Descend(m, root, 4, v, true);
    if h.Table? {
      var e := MakeEntry(paddr, flags);
      EntryBound(paddr, flags);
      LeafWriteForest(m1, ks', h.page, v.pt, e);
      LeafWriteBelow(m, ks, m1, ks', h.page, v.pt, e);
      forall s, w | s in ks && ks[s] == 4
        ensures Lookup(SetW(m1, h.page, v.pt, e), s, 4, w)
             == if s == root && w == Split(vaddr) then e else Lookup(m, s, 4, w)
      {
        LeafWriteLookup(m1, ks', root, v, e, s, w);
        assert Lookup(m1, s, ks[s], w) == Lookup(m, s, ks[s], w);
      }
    }
  }

  /** mm_page_unmap: the page loses its entry, if it has one, and no other page changes. */
  lemma UnmapSpec(m: Mm, ks: Kinds, root: nat, vaddr: nat)
    requires Forest(m, ks) && root in ks && ks[root] == 4
    ensures var (m', o) := Unmap(m, root, vaddr);
            && Forest(m', ks) && o.Ok? && m'.off == m.off && Below(m, ks, m', ks)
            && forall s, w :: s in ks && ks[s] == 4 ==>
                 Lookup(m', s, 4, w) == if s == root && w == Split(vaddr) then 0 else Lookup(m, s, 4, w)
  {
    var v := Split(vaddr);
    DescendFinds(m, ks, root, 4, v);
    var h := Find(m, root, 4, v);
    if h.Table? {
      LeafWriteForest(m, ks, h.page, v.pt, 0);
      LeafWriteBelow(m, ks, m, ks, h.page, v.pt, 0);
    }
    forall s, w | s in ks && ks[s] == 4
      ensures Lookup(Unmap(m, root, vaddr).0, s, 4, w) == if s == root && w == Split(vaddr) then 0 else Lookup(m, s, 4, w)
    {
      if h.Table? {
        LeafWriteLookup(m, ks, root, v, 0, s, w);
      }
    }
  }

  /** mm_page_protect: it succeeds exactly on pages with a present entry, gives that page
      the new flags beside its old address bits, and changes no other page. */
  lemma ProtectSpec(m: Mm, ks: Kinds, root: nat, vaddr: nat, flags: nat)
    requires Forest(m, ks) && root in ks && ks[root] == 4 && flags < WORD
    ensures var (m', o) := Protect(m, root, vaddr, flags);
            var e := Lookup(m, root, 4, Split(vaddr));
            && Forest(m', ks) && m'.off == m.off && Below(m, ks, m', ks)
            && o == (if Present(e) then Ok else Failed)
            && forall s, w :: s in ks && ks[s] == 4 ==>
                 Lookup(m', s, 4, w) == if o.Ok? && s == root && w == Split(vaddr) then Or(Address(e), flags)
                                        else Lookup(m, s, 4, w)
  {
    var v := Split(vaddr);
    DescendFinds(m, ks, root, 4, v);
    var h := Find(m, root, 4, v);
    if h.Table? && Present(W(m, h.page, v.pt)) {
      var e := W(m, h.page, v.pt);
      EntryBound(e, flags);
      LeafWriteForest(m, ks, h.page, v.pt, Or(Address(e), flags));
      LeafWriteBelow(m, ks, m, ks, h.page, v.pt, Or(Address(e), flags));
      forall s, w | s in ks && ks[s] == 4
        ensures Lookup(SetW(m, h.page, v.pt, Or(Address(e), flags)), s, 4, w)
             == if s == root && w == Split(vaddr) then Or(Address(e), flags) else Lookup(m, s, 4, w)
      {
        LeafWriteLookup(m, ks, root, v, Or(Address(e), flags), s, w);
      }
    }
  }
}
