/** The memory manager in the form of kernel/src/mm.c: one heap of words updated in place.
    A table pointer is the heap page it points at; areas are list nodes in the same heap. */
module MemoryManager {
  import opened Bits
  import opened Heap
  import opened PageTables
  import opened PageTableProofs
  import opened PageEntries
  import opened Vma
  import opened Words

  const PTE_PRESENT := 1
  const PTE_WRITABLE := 2
  const PTE_USER := 4
  /** Present, writable, global. */
  const INIT_FLAGS := 0x103
  const IDENTITY_PAGES := 1024

  // ----- what the bit operations of the source amount to -----

  lemma PresentBit(e: nat)
    ensures And(e, PTE_PRESENT) != 0 <==> Present(e)
  {
    AndZero(e / 2);
  }

  lemma AddressBits(e: nat)
    requires e < WORD
    ensures And(e, Not(0xFFF)) == Address(e)
  {
    Pow2At();
    RoundDown(e, 12);
  }

  lemma IndexBits(n: nat)
    ensures And(n, 0x1FF) == n % ENTRIES
  {
    assert Pow2(4) == 16;
    Pow2Add(4, 5);
    assert Pow2(9) == 512 && Pow2(0) == 1;
    AndRange(n, 0, 9);
  }

  lemma OrDouble(x: nat, y: nat)
    ensures Or(2 * x + 1, 2 * y) == 2 * Or(x, y) + 1
  {
  }

  lemma OrEven(x: nat)
    ensures Or(2 * x, 1) == 2 * x + 1
  {
    OrZero(x);
  }

  lemma OrTwo(d: nat)
    ensures Or(4 * d + 1, 2) == 4 * d + 3
  {
    OrDouble(2 * d, 1);
    OrEven(d);
  }

  lemma OrFour(d: nat)
    ensures Or(8 * d + 3, 4) == 8 * d + 7
  {
    OrDouble(4 * d + 1, 2);
    OrTwo(d);
  }

  lemma LinkSteps(d: nat, x: nat, y: nat)
    requires x == 8 * d + 1 && y == 8 * d + 3
    ensures Or(8 * d, 1) == x && Or(x, 2) == y && Or(y, 4) == 8 * d + 7
  {
    OrEven(4 * d);
    OrTwo(2 * d);
    OrFour(d);
  }

  lemma Eighths(a: nat)
    requires a % PAGE == 0
    ensures a == 8 * (a / 8)
  {
    EightTimes(a, 512 * (a / PAGE));
  }

  lemma EightTimes(a: nat, q: nat)
    requires a == 8 * q
    ensures a == 8 * (a / 8) && a % 8 == 0
  {
  }

  lemma LinkBits(a: nat)
    requires a % PAGE == 0
    ensures Or(Or(Or(a, PTE_PRESENT), PTE_WRITABLE), PTE_USER) == a + 7
  {
    Eighths(a);
    LinkSteps(a / 8, a + 1, a + 3);
  }

  class MemoryManager {
    const base: nat
    const heap: array<nat>
    var heapOffset: nat
    ghost var kinds: Kinds

    /** A page-aligned, zeroed heap with nothing allocated. */
    constructor (base: nat)
      requires 0 < base && base % PAGE == 0 && base + HEAP_SIZE <= WORD
      ensures Valid() && fresh(heap) && kinds == map[] && heapOffset == 0
    {
      this.base := base;
      heap := new nat[PAGES * ENTRIES](_ => 0);
      heapOffset := 0;
      kinds := map[];
    }

    ghost function View(): Mm
      reads this, heap
    {
      Mm(base, heap[..], heapOffset)
    }

    ghost predicate Valid()
      reads this, heap
    {
      Forest(View(), kinds)
    }

    /** The flat meaning of the tree of `root`. */
    ghost function Entry(root: nat, x: Ix): nat
      requires Valid() && root in kinds && kinds[root] == 4
      reads this, heap
    {
      Lookup(View(), root, 4, x)
    }

    method MmAlloc(size: nat, align: nat) returns (g: Grant)
      requires Valid() && size < WORD && align < WORD
      modifies this`heapOffset
      ensures (heapOffset, g) == Alloc(old(heapOffset), Request(size, align))
      ensures Proper(Request(size, align)) && NoWrap(old(heapOffset), Request(size, align)) ==>
                Valid() && forall x, v :: x in kinds ==> Lookup(View(), x, kinds[x], v) == old(Lookup(View(), x, kinds[x], v))
    {
      ghost var m := View();
      var start := AlignUp(heapOffset, align);
      if (start + size) % WORD > HEAP_SIZE {
        g := Refused;
      } else {
        heapOffset := (start + size) % WORD;
        g := Granted(start);
      }
      ghost var r := Request(size, align);
      if Proper(r) && NoWrap(m.off, r) {
        AllocInsideIff(m.off, r);
        TablesFrame(m, kinds, View());
      }
    }

    /** page_table_alloc: the next page of the heap, or nothing when it is used up. */
    method PageTableAlloc() returns (h: Hop)
      requires Valid()
      modifies this`heapOffset
      ensures h == if old(FreePages(View())) == 0 then Absent else Table(PAGES - old(FreePages(View())))
      ensures h.Absent? ==> View() == old(View())
      ensures h.Table? ==> FreshPage(old(View()), h.page) && View() == old(View()).(off := PAGE * (h.page + 1))
    {
      ghost var m := View();
      AllocPageSpec(m);
      var g := MmAlloc(PAGE, PAGE);
      if g.Granted? {
        NextPageFresh(m, g.start);
        h := Table(g.start / PAGE);
      } else {
        h := Absent;
      }
    }

    /** mm_page_table_create: a new, empty tree beside the others. */
    method MmPageTableCreate() returns (h: Hop)
      requires Valid()
      modifies this
      ensures Valid() && heap[..] == old(heap[..])
      ensures h == if old(FreePages(View())) == 0 then Absent else Table(PAGES - old(FreePages(View())))
      ensures h.Absent? ==> View() == old(View()) && kinds == old(kinds)
      ensures h.Table? ==> NewTree(old(View()), old(kinds), View(), kinds, h.page) && heapOffset == PAGE * (h.page + 1)
    {
      ghost var m := View();
      h := PageTableAlloc();
      if h.Table? {
        ghost var m' := View();
        FreshRoot(m, kinds, h.page);
        kinds := kinds[h.page := 4];
        assert View() == m';
      }
    }

    /** The part of page_table_get_entry that adds a table below an absent entry. */
    method LinkNewTable(p: nat, i: nat) returns (h: Hop)
      requires Valid() && Inner(kinds, p, i) && W(View(), p, i) == 0
      modifies this, heap
      ensures Valid() && (View(), h) == GetEntry(old(View()), p, i, true)
      ensures h.Absent? || (h.Table? && h.page in kinds && kinds[h.page] + 1 == old(kinds[p]))
    {
      ghost var m, ks := View(), kinds;
      h := PageTableAlloc();
      if h.Absent? {
        GetEntryAllocates(m, p, i);
        return;
      }
      NewTableLinked(m, ks, p, i, h.page);
      StoreWord(ENTRIES * p + i, Or(Or(Or(base + PAGE * h.page, PTE_PRESENT), PTE_WRITABLE), PTE_USER));
      ghost var m' := View();
      assert m' == Linked(m, p, i, h.page);
      kinds := ks[h.page := ks[p] - 1];
      assert View() == m';
    }

    /** page_table_get_entry. */
    method PageTableGetEntry(p: nat, i: nat, create: bool) returns (h: Hop)
      requires Valid() && Inner(kinds, p, i)
      modifies this, heap
      ensures Valid() && (View(), h) == GetEntry(old(View()), p, i, create)
      ensures h.Absent? || (h.Table? && h.page in kinds && kinds[h.page] + 1 == old(kinds[p]))
    {
      EntryPointer(View(), kinds, p, i, create);
      var e := heap[ENTRIES * p + i];
      if And(e, PTE_PRESENT) != 0 {
        h := Table((And(e, Not(0xFFF)) - base) / PAGE);
      } else if !create {
        h := Absent;
      } else {
        h := LinkNewTable(p, i);
      }
    }

    /** The part common to map, unmap and walk: from the root down to the leaf table. */
    method LeafTable(pt: nat, x: Ix, create: bool) returns (h: Hop)
      requires Valid() && pt in kinds && kinds[pt] == 4
      modifies this, heap
      ensures Valid() && (View(), h) == Descend(old(View()), pt, 4, x, create)
      ensures h.Absent? || (h.Table? && h.page in kinds && kinds[h.page] == 1)
    {
      ghost var m := View();
      DescendStep(m, pt, 4, x, create);
      var pdpt := PageTableGetEntry(pt, x.pml4, create);
      if pdpt.Absent? {
        return Absent;
      }
      ghost var m1 := View();
      DescendStep(m1, pdpt.page, 3, x, create);
      var pd := PageTableGetEntry(pdpt.page, x.pdpt, create);
      if pd.Absent? {
        return Absent;
      }
      DescendStep(View(), pd.page, 2, x, create);
      h := PageTableGetEntry(pd.page, x.pd, create);
    }

    /** mm_page_map, the leaf entry taken in the leaf table. */
    method MmPageMap(pt: nat, vaddr: nat, paddr: nat, flags: nat) returns (rc: int)
      requires Valid() && pt in kinds && kinds[pt] == 4
      requires paddr < WORD && flags < WORD
      modifies this, heap
      ensures Valid() && Mapped(old(View()), old(kinds), View(), kinds, pt, vaddr, MakeEntry(paddr, flags), rc == 0)
      ensures rc == if old(Missing(View(), pt, 4, Split(vaddr)) <= FreePages(View())) then 0 else -1
      ensures rc == 0 ==> FreePages(View()) == old(FreePages(View())) - old(Missing(View(), pt, 4, Split(vaddr)))
      ensures rc == 0 ==> pt in kinds && kinds[pt] == 4 && Joins(Entry(pt, Split(vaddr)), paddr, flags, true)
      ensures rc == 0 && flags < 4096 ==>
                Entry(pt, Split(vaddr)) == paddr - paddr % 4096 + flags + if flags % 2 == 0 then 1 else 0
    {
      ghost var m, ks := View(), kinds;
      var x := SplitAddress(vaddr);
      ghost var ks' := MapSpec(m, ks, pt, vaddr, paddr, flags);
      var h := LeafTable(pt, x, true);
      if h.Absent? {
        rc := -1;
      } else {
        AddressBits(paddr);
        heap[ENTRIES * h.page + x.pt] := Or(Or(And(paddr, Not(0xFFF)), flags), PTE_PRESENT);
        rc := 0;
      }
      assert View() == Map(m, pt, vaddr, paddr, flags).0;
      kinds := ks';
      EntryMeans(paddr, flags);
      assert View() == Map(m, pt, vaddr, paddr, flags).0;
    }

    /** mm_page_unmap. */
    method MmPageUnmap(pt: nat, vaddr: nat)
      requires Valid() && pt in kinds && kinds[pt] == 4
      modifies this, heap
      ensures Valid() && kinds == old(kinds) && heapOffset == old(heapOffset)
      ensures Mapped(old(View()), kinds, View(), kinds, pt, vaddr, 0, true)
    {
      ghost var m, ks := View(), kinds;
      var x := SplitAddress(vaddr);
      UnmapSpec(m, ks, pt, vaddr);
      DescendFinds(m, ks, pt, 4, x);
      var h := LeafTable(pt, x, false);
      if h.Table? {
        heap[ENTRIES * h.page + x.pt] := 0;
      }
      kinds := ks;
      assert View() == Unmap(m, pt, vaddr).0;
    }

    /** mm_page_walk: the word of the heap that holds the entry, or nothing. */
    method MmPageWalk(pt: nat, vaddr: nat, create: bool) returns (found: bool, slot: nat)
      requires Valid() && pt in kinds && kinds[pt] == 4
      modifies this, heap
      ensures Valid() && pt in kinds && kinds[pt] == 4
      ensures View() == Descend(old(View()), pt, 4, Split(vaddr), create).0
      ensures found <==> Descend(old(View()), pt, 4, Split(vaddr), create).1.Table?
      ensures found ==> slot < heap.Length && IsSlot(View(), pt, Split(vaddr), slot) && heap[slot] == Entry(pt, Split(vaddr))
      ensures !found ==> Entry(pt, Split(vaddr)) == 0
      ensures !create ==> kinds == old(kinds) && View() == old(View())
      ensures Mapped(old(View()), old(kinds), View(), kinds, pt, vaddr, 0, false)
    {
      ghost var m, ks := View(), kinds;
      var x := SplitAddress(vaddr);
      ghost var ks' := WalkMeans(m, ks, pt, vaddr, create);
      var h := LeafTable(pt, x, create);
      found := h.Table?;
      slot := if found then ENTRIES * h.page + x.pt else 0;
      ghost var m' := View();
      kinds := ks';
      assert View() == m';
    }

    /** mm_page_protect. */
    method MmPageProtect(pt: nat, vaddr: nat, flags: nat) returns (rc: int)
      requires Valid() && pt in kinds && kinds[pt] == 4 && flags < WORD
      modifies this, heap
      ensures Valid() && kinds == old(kinds) && heapOffset == old(heapOffset)
      ensures rc == if Present(old(Entry(pt, Split(vaddr)))) then 0 else -1
      ensures Mapped(old(View()), kinds, View(), kinds, pt, vaddr, Or(Address(old(Entry(pt, Split(vaddr)))), flags), rc == 0)
      ensures rc == 0 && flags < 4096 ==>
                Entry(pt, Split(vaddr)) == old(Entry(pt, Split(vaddr)) - Entry(pt, Split(vaddr)) % 4096) + flags
    {
      ghost var m, ks := View(), kinds;
      ghost var e := Or(Address(Entry(pt, Split(vaddr))), flags);
      NothingMapped(m, ks, pt, vaddr, e);
      var found, slot := MmPageWalk(pt, vaddr, false);
      if !found {
        NoSlot(m, ks, pt, Split(vaddr));
        return -1;
      }
      PresentBit(heap[slot]);
      AddressBits(heap[slot]);
      if And(heap[slot], PTE_PRESENT) == 0 {
        return -1;
      }
      ProtectSlot(m, ks, pt, vaddr, flags, slot);
      EntryMeans(heap[slot], flags);
      heap[slot] := Or(And(heap[slot], Not(0xFFF)), flags);
      rc := 0;
      assert View() == m.(words := m.words[slot := Or(Address(m.words[slot]), flags)]);
    }

    /** mm_init: the first 4 MiB are mapped to themselves, and nothing else is mapped.
        It runs at boot, on a heap nobody has used. */
    method MmInit() returns (root: nat)
      requires Valid() && kinds == map[] && heapOffset == 0
      modifies this, heap
      ensures Valid() && root in kinds && kinds[root] == 4
      ensures forall x :: Entry(root, x) ==
                if Join(x) < 1024 then 4096 * Join(x) + 0x103 else 0
    {
      var h := MmPageTableCreate();
      root := h.page;
      var n := 0;
      while n < IDENTITY_PAGES
        invariant n <= IDENTITY_PAGES
        invariant Initialising(View(), kinds, root, n)
      {
        MapToItself(root, n);
        n := n + 1;
      }
      InitEntries(View(), root);
    }

    method MapToItself(root: nat, n: nat)
      requires n < IDENTITY_PAGES && Initialising(View(), kinds, root, n)
      modifies this, heap
      ensures Initialising(View(), kinds, root, n + 1)
    {
      ghost var m, ks := View(), kinds;
      InitRoom(m, ks, root, n);
      var rc := MmPageMap(root, PAGE * n, PAGE * n, INIT_FLAGS);
      InitStep(m, ks, root, n, View(), kinds);
    }

    /** One assignment through a pointer into the heap. */
    method StoreWord(w: nat, e: nat)
      requires w < heap.Length
      modifies heap
      ensures View() == old(View()).(words := old(View()).words[w := e])
    {
      heap[w] := e;
    }

    method StoreNode(n: nat, start: nat, end: nat, flags: nat, next: nat)
      requires n + 4 <= heap.Length
      modifies heap
      ensures View() == SetNode(old(View()), n, Area(start, end, flags), next)
    {
      heap[n], heap[n + 1], heap[n + 2], heap[n + 3] := start, end, flags, next;
    }

    /** mm_vma_add: on success the new area is the first of the list; no tree changes. */
    method MmVmaAdd(head: nat, start: nat, end: nat, flags: nat, ghost ns: seq<nat>)
      returns (rc: int, head': nat, ghost ns': seq<nat>)
      requires Valid() && Chain(View(), kinds, head, ns)
      requires start < WORD && end < WORD && flags < WORD && head < WORD
      modifies this, heap
      ensures Valid() && Chain(View(), kinds, head', ns') && SameTrees(old(View()), old(kinds), View(), kinds)
      ensures rc == 0 <==> AreaOk(start, end) && FreeNode(old(heapOffset)) <= HEAP_SIZE - NODE_SIZE
      ensures ns' == (if rc == 0 then [FreeNode(old(heapOffset)) / 8] else []) + ns
      ensures Areas(View(), ns') == (if rc == 0 then [Area(start, end, flags)] else []) + old(Areas(View(), ns))
      ensures if rc == 0 then heapOffset == FreeNode(old(heapOffset)) + NODE_SIZE else head' == head && View() == old(View())
      ensures ListsKept(old(View()), old(kinds), View(), kinds, [])
    {
      ghost var m := View();
      rc, head', ns' := -1, head, ns;
      if start >= end || start % PAGE != 0 || end % PAGE != 0 {
        return;
      }
      NodeAlloc(m.off);
      var g := MmAlloc(NODE_SIZE, 8);
      if g.Refused? {
        return;
      }
      var n := g.start / 8;
      StoreNode(n, start, end, flags, head);
      rc, head', ns' := 0, base + 8 * n, [n] + ns;
      AddNode(m, kinds, head, ns, n, Area(start, end, flags), View());
    }

    /** mm_vma_find: the node of the newest area that covers the address. */
    method MmVmaFind(head: nat, addr: nat, ghost ks: Kinds, ghost ns: seq<nat>) returns (node: nat)
      requires Sound(View()) && Chain(View(), ks, head, ns)
      ensures node == NodeAt(View(), ns, FindArea(Areas(View(), ns), addr))
    {
      ghost var m, i := View(), 0;
      ghost var xs := Areas(m, ns);
      node := head;
      SeekStart(m, ks, head, ns);
      while node != 0
        invariant Seeking(m, ks, ns, xs, node, i)
        invariant i <= FindArea(xs, addr)
        decreases |ns| - i
      {
        SeekNext(m, ks, ns, xs, node, i);
        var n := (node - base) / 8;
        if heap[n] <= addr < heap[n + 1] {
          break;
        }
        node := heap[n + 3];
        i := i + 1;
      }
    }

    /** The walk of mm_vma_remove: the node to take out, and the one before it if any. */
    method FindNode(head: nat, start: nat, ghost ks: Kinds, ghost ns: seq<nat>)
      returns (curr: nat, prev: nat, first: bool, ghost i: nat)
      requires Sound(View()) && Chain(View(), ks, head, ns)
      ensures i == FindStart(Areas(View(), ns), start)
      ensures Searching(View(), ks, ns, Areas(View(), ns), curr, prev, first, i, start)
    {
      curr, prev, first, i := head, 0, true, 0;
      ghost var m := View();
      ghost var xs := Areas(m, ns);
      SeekStart(m, ks, head, ns);
      while curr != 0
        invariant Searching(m, ks, ns, xs, curr, prev, first, i, start)
        decreases |ns| - i
      {
        SearchNext(m, ks, ns, xs, curr, prev, first, i, start);
        var n := (curr - base) / 8;
        if heap[n] == start {
          break;
        }
        prev, curr, first := n, heap[n + 3], false;
        i := i + 1;
      }
      StartsAt(m, ks, ns, xs, curr, i, start);
    }

    /** The end of mm_vma_remove: relinking around the node that the walk stopped at. */
    method TakeNode(head: nat, curr: nat, prev: nat, first: bool) returns (head': nat)
      requires Takeable(View(), curr, prev, first)
      modifies heap
      ensures (View(), head') == Taken(old(View()), head, curr, prev, first)
    {
      head' := head;
      if curr != 0 {
        var n := (curr - base) / 8;
        if first {
          head' := heap[n + 3];
        } else {
          heap[prev + 3] := heap[n + 3];
        }
      }
    }

    /** mm_vma_remove: the list loses the newest area with that start, if there is one. */
    method MmVmaRemove(head: nat, start: nat, ghost ns: seq<nat>) returns (head': nat, ghost ns': seq<nat>)
      requires Valid() && Chain(View(), kinds, head, ns)
      modifies heap
      ensures Valid() && ns' == Dropped(ns, FindStart(old(Areas(View(), ns)), start))
      ensures Removed(old(View()), kinds, View(), head', ns, start)
    {
      ghost var m := View();
      var curr, prev, first, i := FindNode(head, start, kinds, ns);
      SearchEnd(m, kinds, ns, curr, prev, first, i, start);
      head' := TakeNode(head, curr, prev, first);
      ns' := Dropped(ns, i);
      RemoveNode(m, kinds, head, ns, curr, prev, first, i, start, View(), head');
    }
  }

  ghost predicate Takeable(m: Mm, curr: nat, prev: nat, first: bool) {
    curr != 0 ==> curr >= m.base && (curr - m.base) / 8 + 4 <= |m.words| && (!first ==> prev + 4 <= |m.words|)
  }

  /** Relinking around the node that the walk stopped at. */
  ghost function Taken(m: Mm, head: nat, curr: nat, prev: nat, first: bool): (Mm, nat)
    requires Takeable(m, curr, prev, first)
  {
    if curr == 0 then (m, head)
    else
      var next := Field(m, (curr - m.base) / 8, 3);
      if first then (m, next) else (m.(words := m.words[prev + 3 := next]), head)
  }

  /** The list without position `k`, or all of it when there is no such position. */
  ghost function Dropped(ns: seq<nat>, k: nat): seq<nat> {
    if k < |ns| then ns[..k] + ns[k + 1..] else ns
  }

  const NODE_SIZE := 32

  predicate AreaOk(start: nat, end: nat) {
    start < end && start % PAGE == 0 && end % PAGE == 0
  }

  /** Where the next node would start: the offset rounded up to a multiple of eight. */
  function FreeNode(off: nat): nat {
    8 * ((off + 7) / 8)
  }

  /** What mm_vma_add takes: a non-empty range of whole pages, and 32 bytes of heap from the
      next multiple of eight. */
  lemma AddTakes(start: nat, end: nat, off: nat)
    ensures AreaOk(start, end) && FreeNode(off) <= HEAP_SIZE - NODE_SIZE <==>
            start < end && start % 4096 == 0 && end % 4096 == 0 && exists n: nat :: off <= 8 * n < off + 8 && 8 * n + 32 <= 262144
  {
    assert 8 * ((off + 7) / 8) >= off;
  }

  ghost predicate SameTrees(m: Mm, ks: Kinds, m': Mm, ks': Kinds)
    requires Forest(m, ks) && Forest(m', ks')
  {
    ks' == ks && forall x, v :: x in ks ==> Lookup(m', x, ks[x], v) == Lookup(m, x, ks[x], v)
  }

  lemma EightPower()
    ensures Power(8)
  {
    assert Pow2(3) == 8;
  }

  lemma NodeAlign(off: nat)
    requires off <= HEAP_SIZE
    ensures AlignUp(off, 8) == FreeNode(off) >= off && FreeNode(off) == 8 * (FreeNode(off) / 8) && FreeNode(off) <= HEAP_SIZE
  {
    EightPower();
    AlignUpLeast(off, 8);
    NextEighth(off, AlignUp(off, 8));
  }

  lemma NextEighth(off: nat, r: nat)
    requires off <= r < off + 8 && r % 8 == 0 && off <= HEAP_SIZE
    ensures r == FreeNode(off) == 8 * (FreeNode(off) / 8) && r <= HEAP_SIZE
  {
  }

  lemma NodeAlloc(off: nat)
    requires off <= HEAP_SIZE
    ensures Proper(Request(NODE_SIZE, 8)) && NoWrap(off, Request(NODE_SIZE, 8))
    ensures Alloc(off, Request(NODE_SIZE, 8)) ==
            if FreeNode(off) <= HEAP_SIZE - NODE_SIZE then (FreeNode(off) + NODE_SIZE, Granted(FreeNode(off))) else (off, Refused)
    ensures off <= FreeNode(off) == 8 * (FreeNode(off) / 8)
  {
    EightPower();
    NodeAlign(off);
    NoWrapMod(FreeNode(off) + NODE_SIZE);
  }

  lemma AddNode(m: Mm, ks: Kinds, head: nat, ns: seq<nat>, n: nat, a: Area, m': Mm)
    requires Forest(m, ks) && Chain(m, ks, head, ns)
    requires m.off <= 8 * n && 8 * n + 32 == m'.off <= HEAP_SIZE
    requires a.start < WORD && a.end < WORD && a.flags < WORD && head < WORD
    requires n + 4 <= |m.words| && m' == SetNode(m.(off := m'.off), n, a, head)
    ensures Forest(m', ks) && SameTrees(m, ks, m', ks) && ListsKept(m, ks, m', ks, [])
    ensures Chain(m', ks, m.base + 8 * n, [n] + ns) && Areas(m', [n] + ns) == [a] + Areas(m, ns)
  {
    AddChain(m, ks, head, ns, n, a, m'.off);
    FreshPlaced(m, ks, n, m'.off);
    SetNodeTables(m.(off := m'.off), ks, n, a, head);
  }

  ghost function NodeAt(m: Mm, ns: seq<nat>, k: nat): nat {
    if k < |ns| then m.base + 8 * ns[k] else 0
  }

  /** The node at position `k` holds its area and links to the next. */
  ghost predicate NodeOk(m: Mm, ks: Kinds, ns: seq<nat>, xs: seq<Area>, k: nat)
    requires |xs| == |ns|
  {
    k < |ns| ==> Placed(m, ks, ns[k]) && Sound(m) && AreaAt(m, ns[k]) == xs[k] && Field(m, ns[k], 3) == NodeAt(m, ns, k + 1)
  }

  /** A walk down the list has passed `i` nodes and points at the next, if any. */
  ghost predicate Seeking(m: Mm, ks: Kinds, ns: seq<nat>, xs: seq<Area>, node: nat, i: nat) {
    && |xs| == |ns| && i <= |ns|
    && (forall k {:trigger NodeOk(m, ks, ns, xs, k)} :: NodeOk(m, ks, ns, xs, k))
    && node == NodeAt(m, ns, i)
  }

  lemma {:induction false} ChainLinks(m: Mm, ks: Kinds, head: nat, ns: seq<nat>, k: nat)
    requires Sound(m) && Chain(m, ks, head, ns)
    ensures head == NodeAt(m, ns, 0)
    ensures NodeOk(m, ks, ns, Areas(m, ns), k)
    decreases |ns|
  {
    if 0 < k < |ns| {
      ChainLinks(m, ks, Field(m, ns[0], 3), ns[1..], k - 1);
    } else if |ns| > 1 {
      assert Placed(m, ks, ns[1..][0]);
    }
  }

  lemma SeekStart(m: Mm, ks: Kinds, head: nat, ns: seq<nat>)
    requires Sound(m) && Chain(m, ks, head, ns)
    ensures Seeking(m, ks, ns, Areas(m, ns), head, 0)
  {
    ChainLinks(m, ks, head, ns, 0);
    forall k ensures NodeOk(m, ks, ns, Areas(m, ns), k) {
      ChainLinks(m, ks, head, ns, k);
    }
  }

  lemma SeekNext(m: Mm, ks: Kinds, ns: seq<nat>, xs: seq<Area>, node: nat, i: nat)
    requires Sound(m) && Seeking(m, ks, ns, xs, node, i) && node != 0
    ensures i < |ns| && node >= m.base && (node - m.base) / 8 == ns[i] && ns[i] + 4 <= |m.words|
    ensures xs[i] == Area(m.words[ns[i]], m.words[ns[i] + 1], m.words[ns[i] + 2])
    ensures Seeking(m, ks, ns, xs, m.words[ns[i] + 3], i + 1)
  {
    assert NodeOk(m, ks, ns, xs, i);
  }

  /** The walk of mm_vma_remove: no area it passed has that start. */
  ghost predicate Searching(m: Mm, ks: Kinds, ns: seq<nat>, xs: seq<Area>, curr: nat, prev: nat, first: bool, i: nat, start: nat) {
    && Seeking(m, ks, ns, xs, curr, i)
    && (first <==> i == 0) && (i > 0 ==> prev == ns[i - 1])
    && forall j :: 0 <= j < i ==> xs[j].start != start
  }

  lemma SearchNext(m: Mm, ks: Kinds, ns: seq<nat>, xs: seq<Area>, curr: nat, prev: nat, first: bool, i: nat, start: nat)
    requires Sound(m) && Searching(m, ks, ns, xs, curr, prev, first, i, start) && curr != 0
    ensures i < |ns| && curr >= m.base && (curr - m.base) / 8 == ns[i] && ns[i] + 4 <= |m.words|
    ensures xs[i].start == m.words[ns[i]]
    ensures m.words[ns[i]] != start ==> Searching(m, ks, ns, xs, m.words[ns[i] + 3], ns[i], false, i + 1, start)
  {
    SeekNext(m, ks, ns, xs, curr, i);
  }

  /** The walk stops where FindStart says. */
  lemma StartsAt(m: Mm, ks: Kinds, ns: seq<nat>, xs: seq<Area>, node: nat, i: nat, start: nat)
    requires Seeking(m, ks, ns, xs, node, i) && forall j :: 0 <= j < i ==> xs[j].start != start
    requires node == 0 || (i < |xs| && xs[i].start == start)
    ensures FindStart(xs, start) == i
  {
    assert NodeOk(m, ks, ns, xs, i);
  }

  /** What mm_vma_remove leaves, seen from any list. */
  ghost predicate Removed(m: Mm, ks: Kinds, m': Mm, head': nat, ns: seq<nat>, start: nat)
    requires Forest(m, ks)
  {
    var ns' := Dropped(ns, FindStart(Areas(m, ns), start));
    && Forest(m', ks) && SameTrees(m, ks, m', ks)
    && Chain(m', ks, head', ns')
    && Areas(m', ns') == RemoveStart(Areas(m, ns), start)
    && ListsKept(m, ks, m', ks, ns)
  }

  lemma RemoveNone(m: Mm, ks: Kinds, head: nat, ns: seq<nat>, start: nat)
    requires Forest(m, ks) && Chain(m, ks, head, ns) && FindStart(Areas(m, ns), start) == |ns|
    ensures Removed(m, ks, m, head, ns, start)
  {
  }

  lemma RemoveFirst(m: Mm, ks: Kinds, head: nat, ns: seq<nat>, start: nat)
    requires Forest(m, ks) && Chain(m, ks, head, ns) && ns != [] && FindStart(Areas(m, ns), start) == 0
    ensures Placed(m, ks, ns[0]) && Removed(m, ks, m, Field(m, ns[0], 3), ns, start)
  {
    var xs := Areas(m, ns);
    assert xs == [AreaAt(m, ns[0])] + Areas(m, ns[1..]);
    assert xs[..0] + xs[1..] == Areas(m, ns[1..]) && ns[..0] + ns[1..] == ns[1..];
  }

  lemma RemoveLater(m: Mm, ks: Kinds, head: nat, ns: seq<nat>, i: nat, start: nat)
    requires Forest(m, ks) && Chain(m, ks, head, ns) && 0 < i < |ns| && FindStart(Areas(m, ns), start) == i
    ensures Placed(m, ks, ns[i - 1]) && Placed(m, ks, ns[i])
    ensures Removed(m, ks, Unhook(m, ns, i), head, ns, start)
  {
    ChainPlaced(m, ks, head, ns);
    UnhookTables(m, ks, head, ns, i);
    UnhookChain(m, ks, head, ns, i);
    UnhookKeeps(m, ks, head, ns, i);
  }

  lemma SearchEnd(m: Mm, ks: Kinds, ns: seq<nat>, curr: nat, prev: nat, first: bool, i: nat, start: nat)
    requires Sound(m) && Searching(m, ks, ns, Areas(m, ns), curr, prev, first, i, start)
    ensures Takeable(m, curr, prev, first)
  {
    if curr != 0 {
      SeekNext(m, ks, ns, Areas(m, ns), curr, i);
      if i > 0 {
        assert NodeOk(m, ks, ns, Areas(m, ns), i - 1);
      }
    }
  }

  /** Relinking around what the walk found is what has to be done. */
  lemma RemoveNode(m: Mm, ks: Kinds, head: nat, ns: seq<nat>, curr: nat, prev: nat, first: bool, i: nat, start: nat,
                   m': Mm, head': nat)
    requires Forest(m, ks) && Chain(m, ks, head, ns) && i == FindStart(Areas(m, ns), start)
    requires Searching(m, ks, ns, Areas(m, ns), curr, prev, first, i, start)
    requires Takeable(m, curr, prev, first) && (m', head') == Taken(m, head, curr, prev, first)
    ensures Removed(m, ks, m', head', ns, start)
  {
    if curr == 0 {
      RemoveNone(m, ks, head, ns, start);
    } else {
      SeekNext(m, ks, ns, Areas(m, ns), curr, i);
      if first {
        RemoveFirst(m, ks, head, ns, start);
      } else {
        RemoveLater(m, ks, head, ns, i, start);
        assert m' == Unhook(m, ns, i);
      }
    }
  }

  lemma InitRoom(m: Mm, ks: Kinds, root: nat, n: nat)
    requires n < IDENTITY_PAGES && Initialising(m, ks, root, n)
    ensures Missing(m, root, 4, Split(PAGE * n)) <= FreePages(m)
  {
    InitFits(m, root, n);
    RoomStep(n, FreePages(m), Missing(m, root, 4, Split(PAGE * n)));
  }

  function Room(n: nat): nat {
    if n == 0 then 63 else if n <= 512 then 60 else 57
  }

  lemma RoomStep(n: nat, free: nat, taken: nat)
    requires n < IDENTITY_PAGES && free >= Room(n) && taken <= if n % 512 == 0 then 3 else 0
    ensures taken <= free && free - taken >= Room(n + 1)
  {
    assert n % 512 == 0 ==> n == 0 || n == 512;
  }

  /** mm_init after `n` pages: what is mapped, and how much heap is left. */
  ghost predicate Initialising(m: Mm, ks: Kinds, root: nat, n: nat) {
    && Forest(m, ks) && root in ks && ks[root] == 4
    && FreePages(m) >= Room(n)
    && IdentityUpTo(m, root, n)
  }

  /** Pages below `n` are mapped to themselves, the others not at all. */
  ghost predicate IdentityUpTo(m: Mm, root: nat, n: nat)
    requires |m.words| == PAGES * ENTRIES && root < PAGES
  {
    forall x :: Lookup(m, root, 4, x) == if Join(x) < n then MakeEntry(PAGE * Join(x), INIT_FLAGS) else 0
  }

  lemma EntryMeans(paddr: nat, flags: nat)
    ensures Joins(MakeEntry(paddr, flags), paddr, flags, true)
    ensures flags < 4096 ==> MakeEntry(paddr, flags) == paddr - paddr % 4096 + flags + if flags % 2 == 0 then 1 else 0
    ensures flags < 4096 ==> Or(Address(paddr), flags) == paddr - paddr % 4096 + flags
  {
    EntryBits(paddr, flags);
    if flags < 4096 {
      EntryNumber(paddr, flags);
    }
  }

  lemma InitEntries(m: Mm, root: nat)
    requires |m.words| == PAGES * ENTRIES && root < PAGES && IdentityUpTo(m, root, IDENTITY_PAGES)
    ensures forall x :: Lookup(m, root, 4, x) == if Join(x) < 1024 then 4096 * Join(x) + 0x103 else 0
  {
    forall x ensures Join(x) < 1024 ==> MakeEntry(PAGE * Join(x), INIT_FLAGS) == 4096 * Join(x) + 0x103 {
      Multiple(Join(x));
      EntryNumber(PAGE * Join(x), INIT_FLAGS);
    }
  }

  lemma MissingNone(m: Mm, p: nat, level: nat, x: Ix)
    requires |m.words| == PAGES * ENTRIES && p < PAGES && 1 <= level <= 4
    requires Find(m, p, level, x).Table?
    ensures Missing(m, p, level, x) == 0
    decreases level
  {
    if level > 1 {
      MissingNone(m, Follow(m, W(m, p, At(x, level))).page, level - 1, x);
    }
  }

  lemma {:induction false} MissingBound(m: Mm, p: nat, level: nat, x: Ix)
    requires |m.words| == PAGES * ENTRIES && p < PAGES && 1 <= level <= 4
    ensures Missing(m, p, level, x) <= level - 1
    decreases level
  {
    if level > 1 {
      var h := Follow(m, W(m, p, At(x, level)));
      if h.Table? {
        MissingBound(m, h.page, level - 1, x);
      }
    }
  }

  /** The search does not look at the last index. */
  lemma {:induction false} FindUpper(m: Mm, p: nat, level: nat, x: Ix, y: Ix)
    requires |m.words| == PAGES * ENTRIES && p < PAGES && 1 <= level <= 4
    requires x.pml4 == y.pml4 && x.pdpt == y.pdpt && x.pd == y.pd
    ensures Find(m, p, level, x) == Find(m, p, level, y)
    decreases level
  {
    if level > 1 {
      var h := Follow(m, W(m, p, At(x, level)));
      if h.Table? {
        FindUpper(m, h.page, level - 1, x, y);
      }
    }
  }

  lemma SplitLowPage(n: nat)
    requires n < IDENTITY_PAGES
    ensures Split(PAGE * n) == Indices(0, 0, n / 512, n % 512) && Join(Split(PAGE * n)) == n
  {
    PageOfNumber(n);
    SplitIndices(PAGE * n);
    var x: Ix := Indices(0, 0, n / 512, n % 512);
    assert Join(x) == n;
    JoinInjective(Split(PAGE * n), x);
  }

  /** Every 512th page may need new tables, the others use those of the page before. */
  lemma InitFits(m: Mm, root: nat, n: nat)
    requires |m.words| == PAGES * ENTRIES && root < PAGES && n < IDENTITY_PAGES && IdentityUpTo(m, root, n)
    ensures Missing(m, root, 4, Split(PAGE * n)) <= if n % 512 == 0 then 3 else 0
  {
    var x := Split(PAGE * n);
    MissingBound(m, root, 4, x);
    if n % 512 != 0 {
      var y := Split(PAGE * (n - 1));
      SplitLowPage(n);
      SplitLowPage(n - 1);
      OrOdd(Or(Address(PAGE * (n - 1)), INIT_FLAGS), 1);
      assert Lookup(m, root, 4, y) != 0;
      FindUpper(m, root, 4, x, y);
      MissingNone(m, root, 4, x);
    }
  }

  /** Mapping page `n` to itself extends the identity map by one page. */
  lemma InitStep(m: Mm, ks: Kinds, root: nat, n: nat, m': Mm, ks': Kinds)
    requires n < IDENTITY_PAGES && Initialising(m, ks, root, n)
    requires Forest(m', ks') && Mapped(m, ks, m', ks', root, PAGE * n, MakeEntry(PAGE * n, INIT_FLAGS), true)
    requires FreePages(m') == FreePages(m) - Missing(m, root, 4, Split(PAGE * n))
    ensures Initialising(m', ks', root, n + 1)
  {
    InitFits(m, root, n);
    RoomStep(n, FreePages(m), Missing(m, root, 4, Split(PAGE * n)));
    InitMaps(m, ks, root, n, m', ks');
  }

  lemma InitMaps(m: Mm, ks: Kinds, root: nat, n: nat, m': Mm, ks': Kinds)
    requires Forest(m, ks) && root in ks && ks[root] == 4 && n < IDENTITY_PAGES && IdentityUpTo(m, root, n)
    requires Forest(m', ks') && Mapped(m, ks, m', ks', root, PAGE * n, MakeEntry(PAGE * n, INIT_FLAGS), true)
    ensures IdentityUpTo(m', root, n + 1)
  {
    SplitLowPage(n);
    forall x ensures Lookup(m', root, 4, x) == if Join(x) < n + 1 then MakeEntry(PAGE * Join(x), INIT_FLAGS) else 0 {
      if Join(x) == n {
        JoinInjective(x, Split(PAGE * n));
      }
    }
  }

  /** `slot` is the word of the leaf entry that the tree of `root` has for `x`. */
  ghost predicate IsSlot(m: Mm, root: nat, x: Ix, slot: nat)
    requires |m.words| == PAGES * ENTRIES && root < PAGES
  {
    var h := Find(m, root, 4, x);
    h.Table? && slot == ENTRIES * h.page + x.pt
  }

  /** Walking, with or without create, changes no entry, and ends at the page's leaf table
      or finds that it has no entry. */
  lemma WalkMeans(m: Mm, ks: Kinds, root: nat, vaddr: nat, create: bool) returns (ks': Kinds)
    requires Forest(m, ks) && root in ks && ks[root] == 4
    ensures var (m', h) := Descend(m, root, 4, Split(vaddr), create);
            && Forest(m', ks') && Mapped(m, ks, m', ks', root, vaddr, 0, false)
            && (!create ==> m' == m && ks' == ks)
            && (h.Table? ==> Find(m', root, 4, Split(vaddr)) == h)
            && (!h.Table? ==> Lookup(m', root, 4, Split(vaddr)) == 0)
  {
    var x := Split(vaddr);
    DescendFinds(m, ks, root, 4, x);
    if create {
      ks' := DescendSpec(m, ks, root, 4, x);
      WalkFails(m, ks, root, x);
    } else {
      ks' := ks;
      NothingMapped(m, ks, root, vaddr, 0);
    }
  }

  lemma WalkFails(m: Mm, ks: Kinds, root: nat, x: Ix)
    requires Forest(m, ks) && root in ks && ks[root] == 4
    ensures Descend(m, root, 4, x, true).1.Absent? ==> Lookup(m, root, 4, x) == 0
  {
    DescendFailsIff(m, ks, root, 4, x);
    if Find(m, root, 4, x).Table? {
      MissingNone(m, root, 4, x);
    }
  }

  lemma NothingMapped(m: Mm, ks: Kinds, root: nat, vaddr: nat, e: nat)
    requires Forest(m, ks)
    ensures Mapped(m, ks, m, ks, root, vaddr, e, false)
  {
  }

  lemma NoSlot(m: Mm, ks: Kinds, root: nat, x: Ix)
    requires Forest(m, ks) && root in ks && ks[root] == 4
    requires !Descend(m, root, 4, x, false).1.Table?
    ensures !Present(Lookup(m, root, 4, x))
  {
    DescendFinds(m, ks, root, 4, x);
  }

  lemma ProtectAtSlot(m: Mm, ks: Kinds, root: nat, vaddr: nat, flags: nat, slot: nat)
    requires Forest(m, ks) && root in ks && ks[root] == 4
    requires IsSlot(m, root, Split(vaddr), slot) && slot < |m.words| && Present(m.words[slot])
    ensures m.words[slot] == Lookup(m, root, 4, Split(vaddr))
    ensures Protect(m, root, vaddr, flags) == (m.(words := m.words[slot := Or(Address(m.words[slot]), flags)]), Ok)
  {
    DescendFinds(m, ks, root, 4, Split(vaddr));
    var h := Find(m, root, 4, Split(vaddr));
    assert m.words[slot] == W(m, h.page, Split(vaddr).pt);
  }

  /** mm_page_protect in terms of the word that mm_page_walk points at. */
  lemma ProtectSlot(m: Mm, ks: Kinds, root: nat, vaddr: nat, flags: nat, slot: nat)
    requires Forest(m, ks) && root in ks && ks[root] == 4 && flags < WORD
    requires IsSlot(m, root, Split(vaddr), slot) && slot < |m.words| && Present(m.words[slot])
    ensures m.words[slot] == Lookup(m, root, 4, Split(vaddr))
    ensures var e := Or(Address(m.words[slot]), flags);
            var m' := m.(words := m.words[slot := e]);
            Forest(m', ks) && Mapped(m, ks, m', ks, root, vaddr, e, true)
  {
    ProtectAtSlot(m, ks, root, vaddr, flags, slot);
    ProtectSpec(m, ks, root, vaddr, flags);
  }

  /** The four `(vaddr >> shift) & 0x1FF` of the table functions. */
  function SplitAddress(vaddr: nat): (x: Ix)
    ensures x == Split(vaddr)
  {
    IndexBits(vaddr / 0x80_0000_0000);
    IndexBits(vaddr / 0x4000_0000);
    IndexBits(vaddr / 0x20_0000);
    IndexBits(vaddr / 0x1000);
    Indices(And(vaddr / 0x80_0000_0000, 0x1FF), And(vaddr / 0x4000_0000, 0x1FF),
            And(vaddr / 0x20_0000, 0x1FF), And(vaddr / 0x1000, 0x1FF))
  }

  /** The tables mean the same as before, except that the page of `vaddr` in the tree
      of `root` has the entry `e` if `done`. Only table words and free words changed. */
  ghost predicate Mapped(m: Mm, ks: Kinds, m': Mm, ks': Kinds, root: nat, vaddr: nat, e: nat, done: bool)
    requires Forest(m, ks) && Forest(m', ks')
  {
    && Below(m, ks, m', ks')
    && (forall x :: x in ks ==> x in ks' && ks'[x] == ks[x])
    && forall s, x :: s in ks && ks[s] == 4 ==>
         Lookup(m', s, 4, x) == if done && s == root && x == Split(vaddr) then e else Lookup(m, s, 4, x)
  }

  /** An inner entry of a forest is zero or a pointer to a table of the next level. */
  lemma EntryPointer(m: Mm, ks: Kinds, p: nat, i: nat, create: bool)
    requires Forest(m, ks) && Inner(ks, p, i)
    ensures var e := W(m, p, i);
            if And(e, PTE_PRESENT) == 0 then e == 0 && GetEntry(m, p, i, false) == (m, Absent)
            else
              && e < WORD && And(e, Not(0xFFF)) >= m.base
              && var q := (And(e, Not(0xFFF)) - m.base) / PAGE;
                 GetEntry(m, p, i, create) == (m, Table(q)) && q in ks && ks[q] + 1 == ks[p]
  {
    var e := W(m, p, i);
    InnerChild(m, ks, p, i);
    PresentBit(e);
    AddressBits(e);
  }

  /** `q` is the page at the allocation offset, rounded up, and it fits. */
  ghost predicate FreshPage(m: Mm, q: nat) {
    q < PAGES && m.off <= PAGE * q && PAGE * (q + 1) <= HEAP_SIZE
  }

  lemma NextPageFresh(m: Mm, start: nat)
    requires Sound(m) && FreePages(m) > 0 && start == PAGE * (PAGES - FreePages(m))
    ensures start / PAGE == PAGES - FreePages(m) && FreshPage(m, start / PAGE) && PAGE * (start / PAGE + 1) == start + PAGE
  {
    PageMod(PAGES - FreePages(m), 0);
  }

  /** What page_table_get_entry does below an absent entry, by the next free page. */
  lemma GetEntryAllocates(m: Mm, p: nat, i: nat)
    requires Sound(m) && p < PAGES && i < ENTRIES && W(m, p, i) == 0
    ensures GetEntry(m, p, i, true) ==
            if FreePages(m) == 0 then (m, Absent)
            else var q := PAGES - FreePages(m); (SetW(m.(off := PAGE * (q + 1)), p, i, LinkTo(m, q)), Table(q))
  {
    if FreePages(m) == 0 {
      AllocPageSpec(m);
    } else {
      GetEntryFresh(m, p, i);
    }
  }

  /** The word written for a new table in page `q`. */
  lemma LinkWord(m: Mm, q: nat)
    requires Sound(m)
    ensures Or(Or(Or(m.base + PAGE * q, PTE_PRESENT), PTE_WRITABLE), PTE_USER) == LinkTo(m, q)
  {
    LinkAligned(m.base, q);
    LinkBits(m.base + PAGE * q);
  }

  lemma LinkAligned(base: nat, q: nat)
    requires base % PAGE == 0
    ensures (base + PAGE * q) % PAGE == 0
  {
  }

  function Linked(m: Mm, p: nat, i: nat, q: nat): Mm
    requires |m.words| == PAGES * ENTRIES && p < PAGES && i < ENTRIES
  {
    m.(off := PAGE * (q + 1),
       words := m.words[ENTRIES * p + i := Or(Or(Or(m.base + PAGE * q, PTE_PRESENT), PTE_WRITABLE), PTE_USER)])
  }

  lemma NewTableLinked(m: Mm, ks: Kinds, p: nat, i: nat, q: nat)
    requires Forest(m, ks) && Inner(ks, p, i) && W(m, p, i) == 0 && FreshPage(m, q)
    requires FreePages(m) > 0 && q == PAGES - FreePages(m)
    ensures q != p && Forest(Linked(m, p, i, q), ks[q := ks[p] - 1])
    ensures GetEntry(m, p, i, true) == (Linked(m, p, i, q), Table(q))
  {
    GetEntryAllocates(m, p, i);
    LinkWord(m, q);
    NewTableForest(m, ks, p, i, q);
  }

  lemma NewTableForest(m: Mm, ks: Kinds, p: nat, i: nat, q: nat)
    requires Forest(m, ks) && Inner(ks, p, i) && W(m, p, i) == 0 && FreshPage(m, q)
    ensures q != p && Forest(SetW(m.(off := PAGE * (q + 1)), p, i, LinkTo(m, q)), ks[q := ks[p] - 1])
  {
    var m' := SetW(m.(off := PAGE * (q + 1)), p, i, LinkTo(m, q));
    GrowForest(m, ks, p, i, q, m');
    GrowSound(m, ks, p, i, q, m');
  }

  lemma FreshRootForest(m: Mm, ks: Kinds, q: nat, m': Mm)
    requires Forest(m, ks) && Forest(m', ks) && PAGE * q >= m.off && q < PAGES && m' == m.(off := PAGE * (q + 1))
    ensures q !in ks && Forest(m', ks[q := 4])
  {
    var ks' := ks[q := 4];
    forall p, i | Inner(ks', p, i) ensures if p == q then W(m', p, i) == 0 else Inner(ks, p, i) {
      if p == q {
        FreshPageZero(m, q, i);
      }
    }
    forall p, i | Inner(ks', p, i) ensures Links(m', ks', ks'[p], W(m', p, i)) {
      if p != q {
        assert Inner(ks, p, i) && Links(m', ks, ks[p], W(m', p, i));
      }
    }
    forall p, i, r, j | Inner(ks', p, i) && Inner(ks', r, j) && W(m', p, i) == W(m', r, j) != 0
      ensures p == r && i == j
    {
      assert Inner(ks, p, i) && Inner(ks, r, j);
    }
  }

  lemma FreshRootEmpty(m: Mm, q: nat, m': Mm, x: Ix)
    requires Sound(m) && PAGE * q >= m.off && q < PAGES && m' == m.(off := PAGE * (q + 1))
    ensures Lookup(m', q, 4, x) == 0
  {
    FreshPageZero(m, q, At(x, 4));
  }

  /** `q` is a new, empty tree, and the other trees mean what they meant. */
  ghost predicate NewTree(m: Mm, ks: Kinds, m': Mm, ks': Kinds, q: nat)
    requires Forest(m, ks) && Forest(m', ks')
  {
    && q < PAGES && q !in ks && ks' == ks[q := 4]
    && (forall x :: Lookup(m', q, 4, x) == 0)
    && forall s, x :: s in ks && ks[s] == 4 ==> Lookup(m', s, 4, x) == Lookup(m, s, 4, x)
  }

  lemma FreshRoot(m: Mm, ks: Kinds, q: nat)
    requires Forest(m, ks) && FreshPage(m, q)
    ensures var m' := m.(off := PAGE * (q + 1)); Forest(m', ks[q := 4]) && NewTree(m, ks, m', ks[q := 4], q)
  {
    var m' := m.(off := PAGE * (q + 1));
    TablesFrame(m, ks, m');
    FreshRootForest(m, ks, q, m');
    forall x ensures Lookup(m', q, 4, x) == 0 {
      FreshRootEmpty(m, q, m', x);
    }
    forall s, x | s in ks && ks[s] == 4 ensures Lookup(m', s, 4, x) == Lookup(m, s, 4, x) {
      assert Lookup(m', s, ks[s], x) == Lookup(m, s, ks[s], x);
    }
  }
}
