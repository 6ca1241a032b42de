/** Whole runs of the memory manager: page tables, area lists and plain blocks share one heap,
    and whatever the order of the calls, every root denotes one map from pages to entries and
    every list head one list of areas. */
module MmRuns {
  import opened Heap
  import opened PageTables
  import opened PageTableProofs
  import opened Vma
  import opened MemoryManager
  import opened Words

  /** The calls of kernel/src/mm.c. Trees and lists are named by their position among those
      the callers hold. */
  datatype Call =
    | Create
    | MapPage(tree: nat, vaddr: nat, paddr: nat, flags: nat)
    | UnmapPage(tree: nat, vaddr: nat)
    | ProtectPage(tree: nat, vaddr: nat, flags: nat)
    | WalkPage(tree: nat, vaddr: nat, create: bool)
    | AddArea(list: nat, area: Area)
    | SeekArea(list: nat, addr: nat)
    | RemoveArea(list: nat, start: nat)
    | AllocBlock(request: Request)

  datatype Reply = Done | Rejected | Holds(entry: nat) | Covering(area: Area) | Block(start: nat)

  /** The pointers that the callers hold: table roots and list heads. */
  datatype Handles = Handles(roots: seq<nat>, heads: seq<nat>)

  /** What the heap means to its callers. */
  datatype Meaning = Meaning(off: nat, trees: seq<Ix -> nat>, lists: seq<seq<Area>>)

  /** What a call demands: 64-bit arguments, a tree or list that exists, and for a block that
      would be granted that its end does not wrap. */
  predicate Guard(trees: nat, lists: nat, off: nat, c: Call)
    requires off <= HEAP_SIZE
  {
    match c
    case Create => true
    case MapPage(t, _, paddr, flags) => t < trees && paddr < WORD && flags < WORD
    case UnmapPage(t, _) => t < trees
    case ProtectPage(t, _, flags) => t < trees && flags < WORD
    case WalkPage(t, _, _) => t < trees
    case AddArea(l, a) => l < lists && a.start < WORD && a.end < WORD && a.flags < WORD
    case SeekArea(l, _) => l < lists
    case RemoveArea(l, _) => l < lists
    case AllocBlock(r) => Proper(r) && (Small(r); Alloc(off, r).1.Granted? ==> NoWrap(off, r))
  }

  ghost predicate TreesKept(a: Meaning, b: Meaning) {
    |b.trees| == |a.trees| && forall s, x :: 0 <= s < |a.trees| ==> b.trees[s](x) == a.trees[s](x)
  }

  /** Tree `t` has the entry `e` for `v`, and every other entry of every tree is as before. */
  ghost predicate Put(a: Meaning, b: Meaning, t: nat, v: Ix, e: nat) {
    |b.trees| == |a.trees| && forall s, x :: 0 <= s < |a.trees| ==> b.trees[s](x) == if s == t && x == v then e else a.trees[s](x)
  }

  ghost predicate TreeAdded(a: Meaning, b: Meaning) {
    && |b.trees| == |a.trees| + 1
    && (forall s, x :: 0 <= s < |a.trees| ==> b.trees[s](x) == a.trees[s](x))
    && forall x :: b.trees[|a.trees|](x) == 0
  }

  /** What a call replies and does, on meanings. */
  ghost predicate Step(a: Meaning, c: Call, r: Reply, b: Meaning)
    requires a.off <= HEAP_SIZE && Guard(|a.trees|, |a.lists|, a.off, c)
  {
    match c
    case Create =>
      && b.lists == a.lists
      && r == (if PagesLeft(a.off) > 0 then Done else Rejected)
      && if r.Done? then TreeAdded(a, b) else TreesKept(a, b) && b.off == a.off
    case MapPage(t, vaddr, paddr, flags) =>
      && b.lists == a.lists
      && (r.Done? || (r.Rejected? && PagesLeft(a.off) < 3))
      && if r.Done? then Put(a, b, t, Split(vaddr), MakeEntry(paddr, flags)) else TreesKept(a, b)
    case UnmapPage(t, vaddr) =>
      b.off == a.off && b.lists == a.lists && r.Done? && Put(a, b, t, Split(vaddr), 0)
    case ProtectPage(t, vaddr, flags) =>
      var e := a.trees[t](Split(vaddr));
      && b.off == a.off && b.lists == a.lists
      && r == (if Present(e) then Done else Rejected)
      && if r.Done? then Put(a, b, t, Split(vaddr), Bits.Or(Address(e), flags)) else TreesKept(a, b)
    case WalkPage(t, vaddr, create) =>
      var e := a.trees[t](Split(vaddr));
      && (!create ==> b.off == a.off) && b.lists == a.lists && TreesKept(a, b)
      && (r == Holds(e) || (r.Rejected? && e == 0))
    case AddArea(l, x) =>
      && TreesKept(a, b)
      && r == (if AreaOk(x.start, x.end) && FreeNode(a.off) <= HEAP_SIZE - NODE_SIZE then Done else Rejected)
      && b.off == (if r.Done? then FreeNode(a.off) + NODE_SIZE else a.off)
      && b.lists == if r.Done? then a.lists[l := [x] + a.lists[l]] else a.lists
    case SeekArea(l, addr) =>
      var i := FindArea(a.lists[l], addr);
      && b.off == a.off && b.lists == a.lists && TreesKept(a, b)
      && r == if i < |a.lists[l]| then Covering(a.lists[l][i]) else Rejected
    case RemoveArea(l, start) =>
      b.off == a.off && TreesKept(a, b) && r.Done? && b.lists == a.lists[l := RemoveStart(a.lists[l], start)]
    case AllocBlock(q) =>
      Small(q);
      && b.lists == a.lists && TreesKept(a, b)
      && (b.off, r) == match Alloc(a.off, q)
                       case (off', Granted(s)) => (off', Block(s))
                       case (off', Refused) => (off', Rejected)
  }

  // ----- the heap and its meaning -----

  ghost function TreeOf(m: Mm, root: nat): Ix -> nat {
    (x: Ix) => if |m.words| == PAGES * ENTRIES && root < PAGES then Lookup(m, root, 4, x) else 0
  }

  ghost function Trees(m: Mm, roots: seq<nat>): (ts: seq<Ix -> nat>)
    ensures |ts| == |roots|
    ensures forall s :: 0 <= s < |roots| ==> ts[s] == TreeOf(m, roots[s])
  {
    seq(|roots|, s requires 0 <= s < |roots| => TreeOf(m, roots[s]))
  }

  ghost function Lists(m: Mm, nss: seq<seq<nat>>): (ls: seq<seq<Area>>)
    ensures |ls| == |nss|
    ensures forall l :: 0 <= l < |nss| ==> ls[l] == Areas(m, nss[l])
  {
    seq(|nss|, l requires 0 <= l < |nss| => Areas(m, nss[l]))
  }

  ghost function Means(m: Mm, hs: Handles, nss: seq<seq<nat>>): Meaning {
    Meaning(m.off, Trees(m, hs.roots), Lists(m, nss))
  }

  ghost predicate Rooted(ks: Kinds, roots: seq<nat>) {
    && (forall s :: 0 <= s < |roots| ==> roots[s] in ks && ks[roots[s]] == 4)
    && forall s, t :: 0 <= s < t < |roots| ==> roots[s] != roots[t]
  }

  ghost predicate Chained(m: Mm, ks: Kinds, heads: seq<nat>, nss: seq<seq<nat>>)
    requires Sound(m)
  {
    && |nss| == |heads|
    && (forall l :: 0 <= l < |nss| ==> Chain(m, ks, heads[l], nss[l]))
    && forall l, k :: 0 <= l < |nss| && 0 <= k < |nss| && l != k ==> Apart(nss[l], nss[k])
  }

  /** Each held root is a tree of its own, and each held head a list of its own. */
  ghost predicate Shared(m: Mm, ks: Kinds, hs: Handles, nss: seq<seq<nat>>) {
    Forest(m, ks) && Rooted(ks, hs.roots) && Chained(m, ks, hs.heads, nss)
  }

  lemma NodesKept(m: Mm, ks: Kinds, m': Mm, ks': Kinds, heads: seq<nat>, nss: seq<seq<nat>>)
    requires Forest(m, ks) && Forest(m', ks') && Chained(m, ks, heads, nss) && Below(m, ks, m', ks')
    ensures Chained(m', ks', heads, nss) && Lists(m', nss) == Lists(m, nss)
  {
    forall l | 0 <= l < |nss| ensures Chain(m', ks', heads[l], nss[l]) && Areas(m', nss[l]) == Areas(m, nss[l]) {
      ChainFrame(m, ks, m', ks', heads[l], nss[l]);
    }
  }

  /** Changing one page of one tree. */
  lemma PagePut(m: Mm, ks: Kinds, m': Mm, ks': Kinds, hs: Handles, nss: seq<seq<nat>>, t: nat, vaddr: nat, e: nat)
    requires Shared(m, ks, hs, nss) && t < |hs.roots| && Forest(m', ks')
    requires Mapped(m, ks, m', ks', hs.roots[t], vaddr, e, true)
    ensures Shared(m', ks', hs, nss) && Lists(m', nss) == Lists(m, nss)
    ensures Put(Means(m, hs, nss), Means(m', hs, nss), t, Split(vaddr), e)
  {
    NodesKept(m, ks, m', ks', hs.heads, nss);
    forall s, x | 0 <= s < |hs.roots|
      ensures TreeOf(m', hs.roots[s])(x) == if s == t && x == Split(vaddr) then e else TreeOf(m, hs.roots[s])(x)
    {
      assert hs.roots[s] == hs.roots[t] <==> s == t;
      assert Lookup(m', hs.roots[s], 4, x) == if s == t && x == Split(vaddr) then e else Lookup(m, hs.roots[s], 4, x);
    }
  }

  /** Changing no page of any tree. */
  lemma PagesKept(m: Mm, ks: Kinds, m': Mm, ks': Kinds, hs: Handles, nss: seq<seq<nat>>)
    requires Shared(m, ks, hs, nss) && Forest(m', ks') && Below(m, ks, m', ks')
    requires forall x :: x in ks ==> x in ks' && ks'[x] == ks[x]
    requires forall s, x :: s in ks && ks[s] == 4 ==> Lookup(m', s, 4, x) == Lookup(m, s, 4, x)
    ensures Shared(m', ks', hs, nss) && Lists(m', nss) == Lists(m, nss)
    ensures TreesKept(Means(m, hs, nss), Means(m', hs, nss))
  {
    NodesKept(m, ks, m', ks', hs.heads, nss);
    forall s, x | 0 <= s < |hs.roots| ensures TreeOf(m', hs.roots[s])(x) == TreeOf(m, hs.roots[s])(x) {
      assert Lookup(m', hs.roots[s], 4, x) == Lookup(m, hs.roots[s], 4, x);
    }
  }

  lemma RootAdded(m: Mm, ks: Kinds, m': Mm, ks': Kinds, hs: Handles, nss: seq<seq<nat>>, q: nat)
    requires Shared(m, ks, hs, nss) && Forest(m', ks') && NewTree(m, ks, m', ks', q)
    requires m' == m.(off := m'.off) && m.off <= PAGE * q && m.off <= m'.off
    ensures var hs' := hs.(roots := hs.roots + [q]);
            && Shared(m', ks', hs', nss) && Lists(m', nss) == Lists(m, nss)
            && TreeAdded(Means(m, hs, nss), Means(m', hs', nss))
  {
    NodesKept(m, ks, m', ks', hs.heads, nss);
    var roots' := hs.roots + [q];
    forall s, x | 0 <= s < |hs.roots| ensures TreeOf(m', roots'[s])(x) == TreeOf(m, hs.roots[s])(x) {
      assert Lookup(m', hs.roots[s], 4, x) == Lookup(m, hs.roots[s], 4, x);
    }
    forall x ensures TreeOf(m', q)(x) == 0 {
      assert Lookup(m', q, 4, x) == 0;
    }
    assert |Means(m, hs, nss).trees| == |hs.roots|;
  }

  lemma HeadInRange(m: Mm, ks: Kinds, head: nat, ns: seq<nat>)
    requires Sound(m) && Chain(m, ks, head, ns)
    ensures head < WORD
  {
  }

  /** One list changes, to nodes that are new or its own. */
  lemma ListSet(m: Mm, ks: Kinds, m': Mm, hs: Handles, nss: seq<seq<nat>>, l: nat, head': nat, ns': seq<nat>)
    requires Shared(m, ks, hs, nss) && l < |hs.heads| && Forest(m', ks) && SameTrees(m, ks, m', ks)
    requires Chain(m', ks, head', ns')
    requires forall k :: 0 <= k < |nss| && k != l ==>
               && Chain(m', ks, hs.heads[k], nss[k]) && Areas(m', nss[k]) == Areas(m, nss[k])
               && Apart(ns', nss[k]) && Apart(nss[k], ns')
    ensures var hs', nss' := hs.(heads := hs.heads[l := head']), nss[l := ns'];
            && Shared(m', ks, hs', nss')
            && Lists(m', nss') == Lists(m, nss)[l := Areas(m', ns')]
            && TreesKept(Means(m, hs, nss), Means(m', hs', nss'))
  {
    forall s, x | 0 <= s < |hs.roots| ensures TreeOf(m', hs.roots[s])(x) == TreeOf(m, hs.roots[s])(x) {
      assert Lookup(m', hs.roots[s], ks[hs.roots[s]], x) == Lookup(m, hs.roots[s], ks[hs.roots[s]], x);
    }
  }

  lemma NodeAdded(m: Mm, ks: Kinds, m': Mm, hs: Handles, nss: seq<seq<nat>>, l: nat, head': nat, n: nat)
    requires Shared(m, ks, hs, nss) && l < |hs.heads| && Forest(m', ks) && SameTrees(m, ks, m', ks)
    requires m.off <= 8 * n && Chain(m', ks, head', [n] + nss[l]) && ListsKept(m, ks, m', ks, [])
    ensures var hs', nss' := hs.(heads := hs.heads[l := head']), nss[l := [n] + nss[l]];
            && Shared(m', ks, hs', nss')
            && Lists(m', nss') == Lists(m, nss)[l := Areas(m', [n] + nss[l])]
            && TreesKept(Means(m, hs, nss), Means(m', hs', nss'))
  {
    forall k | 0 <= k < |nss| && k != l
      ensures Chain(m', ks, hs.heads[k], nss[k]) && Areas(m', nss[k]) == Areas(m, nss[k])
      ensures Apart([n] + nss[l], nss[k]) && Apart(nss[k], [n] + nss[l])
    {
      assert Apart([], nss[k]);
      ChainPlaced(m, ks, hs.heads[k], nss[k]);
      FreshApart(m, ks, n, nss[l], nss[k]);
    }
    ListSet(m, ks, m', hs, nss, l, head', [n] + nss[l]);
  }

  lemma FreshApart(m: Mm, ks: Kinds, n: nat, ns: seq<nat>, xs: seq<nat>)
    requires m.off <= 8 * n && Apart(ns, xs) && Apart(xs, ns)
    requires forall k :: 0 <= k < |xs| ==> Placed(m, ks, xs[k])
    ensures Apart([n] + ns, xs) && Apart(xs, [n] + ns)
  {
    forall k | 0 <= k < |xs| ensures xs[k] + 4 <= n {
      assert Placed(m, ks, xs[k]);
    }
    forall j | 0 <= j < |ns| + 1 ensures Clear(([n] + ns)[j], xs) {
      if j > 0 {
        assert Clear(ns[j - 1], xs);
      }
    }
    forall k | 0 <= k < |xs| ensures Clear(xs[k], [n] + ns) {
      assert Clear(xs[k], ns);
    }
  }

  lemma NodeRemoved(m: Mm, ks: Kinds, m': Mm, hs: Handles, nss: seq<seq<nat>>, l: nat, head': nat, start: nat)
    requires Shared(m, ks, hs, nss) && l < |hs.heads| && Removed(m, ks, m', head', nss[l], start)
    ensures var hs' := hs.(heads := hs.heads[l := head']);
            var nss' := nss[l := Dropped(nss[l], FindStart(Areas(m, nss[l]), start))];
            && Shared(m', ks, hs', nss')
            && Lists(m', nss') == Lists(m, nss)[l := RemoveStart(Areas(m, nss[l]), start)]
            && TreesKept(Means(m, hs, nss), Means(m', hs', nss'))
  {
    var i := FindStart(Areas(m, nss[l]), start);
    forall k | 0 <= k < |nss| && k != l
      ensures Chain(m', ks, hs.heads[k], nss[k]) && Areas(m', nss[k]) == Areas(m, nss[k])
      ensures Apart(Dropped(nss[l], i), nss[k]) && Apart(nss[k], Dropped(nss[l], i))
    {
      assert Apart(nss[l], nss[k]);
      DroppedApart(nss[l], i, nss[k]);
    }
    ListSet(m, ks, m', hs, nss, l, head', Dropped(nss[l], i));
  }

  lemma DroppedApart(ns: seq<nat>, i: nat, xs: seq<nat>)
    requires Apart(ns, xs) && Apart(xs, ns)
    ensures Apart(Dropped(ns, i), xs) && Apart(xs, Dropped(ns, i))
  {
    var ds := Dropped(ns, i);
    forall j | 0 <= j < |ds| ensures Clear(ds[j], xs) {
      assert Clear(ns[if j < i then j else j + 1], xs) || i >= |ns|;
    }
    forall k | 0 <= k < |xs| ensures Clear(xs[k], ds) {
      assert Clear(xs[k], ns);
    }
  }

  // ----- the calls -----

  ghost predicate Ready(m: Mm, ks: Kinds, hs: Handles, nss: seq<seq<nat>>, c: Call) {
    Shared(m, ks, hs, nss) && Guard(|hs.roots|, |hs.heads|, m.off, c)
  }

  ghost predicate Answered(m: Mm, ks: Kinds, hs: Handles, nss: seq<seq<nat>>, c: Call, r: Reply,
                           m': Mm, ks': Kinds, hs': Handles, nss': seq<seq<nat>>)
    requires Ready(m, ks, hs, nss, c)
  {
    Shared(m', ks', hs', nss') && Step(Means(m, hs, nss), c, r, Means(m', hs', nss'))
  }

  lemma ThreeTables(m: Mm, root: nat, x: Ix)
    requires Sound(m) && root < PAGES && Missing(m, root, 4, x) > FreePages(m)
    ensures PagesLeft(m.off) < 3
  {
    MissingBound(m, root, 4, x);
  }

  method AnswerCreate(mm: MemoryManager, hs: Handles, ghost nss: seq<seq<nat>>) returns (hs': Handles, r: Reply)
    requires Ready(mm.View(), mm.kinds, hs, nss, Create)
    modifies mm, mm.heap
    ensures Answered(old(mm.View()), old(mm.kinds), hs, nss, Create, r, mm.View(), mm.kinds, hs', nss)
  {
    ghost var m, ks := mm.View(), mm.kinds;
    var h := mm.MmPageTableCreate();
    match h {
      case Table(q) =>
        RootAdded(m, ks, mm.View(), mm.kinds, hs, nss, q);
        hs', r := hs.(roots := hs.roots + [q]), Done;
      case _ =>
        hs', r := hs, Rejected;
    }
  }

  method AnswerMap(mm: MemoryManager, hs: Handles, c: Call, ghost nss: seq<seq<nat>>) returns (r: Reply)
    requires Ready(mm.View(), mm.kinds, hs, nss, c) && c.MapPage?
    modifies mm, mm.heap
    ensures Answered(old(mm.View()), old(mm.kinds), hs, nss, c, r, mm.View(), mm.kinds, hs, nss)
  {
    ghost var m, ks := mm.View(), mm.kinds;
    var root := hs.roots[c.tree];
    var rc := mm.MmPageMap(root, c.vaddr, c.paddr, c.flags);
    if rc == 0 {
      PagePut(m, ks, mm.View(), mm.kinds, hs, nss, c.tree, c.vaddr, MakeEntry(c.paddr, c.flags));
      r := Done;
    } else {
      ThreeTables(m, root, Split(c.vaddr));
      PagesKept(m, ks, mm.View(), mm.kinds, hs, nss);
      r := Rejected;
    }
  }

  method AnswerUnmap(mm: MemoryManager, hs: Handles, c: Call, ghost nss: seq<seq<nat>>) returns (r: Reply)
    requires Ready(mm.View(), mm.kinds, hs, nss, c) && c.UnmapPage?
    modifies mm, mm.heap
    ensures Answered(old(mm.View()), old(mm.kinds), hs, nss, c, r, mm.View(), mm.kinds, hs, nss)
  {
    ghost var m, ks := mm.View(), mm.kinds;
    mm.MmPageUnmap(hs.roots[c.tree], c.vaddr);
    PagePut(m, ks, mm.View(), mm.kinds, hs, nss, c.tree, c.vaddr, 0);
    r := Done;
  }

  method AnswerProtect(mm: MemoryManager, hs: Handles, c: Call, ghost nss: seq<seq<nat>>) returns (r: Reply)
    requires Ready(mm.View(), mm.kinds, hs, nss, c) && c.ProtectPage?
    modifies mm, mm.heap
    ensures Answered(old(mm.View()), old(mm.kinds), hs, nss, c, r, mm.View(), mm.kinds, hs, nss)
  {
    ghost var m, ks := mm.View(), mm.kinds;
    ghost var e := mm.Entry(hs.roots[c.tree], Split(c.vaddr));
    var rc := mm.MmPageProtect(hs.roots[c.tree], c.vaddr, c.flags);
    assert Means(m, hs, nss).trees[c.tree](Split(c.vaddr)) == e;
    if rc == 0 {
      PagePut(m, ks, mm.View(), mm.kinds, hs, nss, c.tree, c.vaddr, Bits.Or(Address(e), c.flags));
      r := Done;
    } else {
      PagesKept(m, ks, mm.View(), mm.kinds, hs, nss);
      r := Rejected;
    }
  }

  method AnswerWalk(mm: MemoryManager, hs: Handles, c: Call, ghost nss: seq<seq<nat>>) returns (r: Reply)
    requires Ready(mm.View(), mm.kinds, hs, nss, c) && c.WalkPage?
    modifies mm, mm.heap
    ensures Answered(old(mm.View()), old(mm.kinds), hs, nss, c, r, mm.View(), mm.kinds, hs, nss)
  {
    ghost var m, ks := mm.View(), mm.kinds;
    var found, slot := mm.MmPageWalk(hs.roots[c.tree], c.vaddr, c.create);
    PagesKept(m, ks, mm.View(), mm.kinds, hs, nss);
    assert Means(mm.View(), hs, nss).trees[c.tree](Split(c.vaddr)) == mm.Entry(hs.roots[c.tree], Split(c.vaddr));
    r := if found then Holds(mm.heap[slot]) else Rejected;
  }

  lemma AddAnswered(m: Mm, ks: Kinds, m': Mm, hs: Handles, nss: seq<seq<nat>>, c: Call, head': nat, n: nat)
    requires Ready(m, ks, hs, nss, c) && c.AddArea? && AreaOk(c.area.start, c.area.end)
    requires FreeNode(m.off) <= HEAP_SIZE - NODE_SIZE && n == FreeNode(m.off) / 8 && m'.off == FreeNode(m.off) + NODE_SIZE
    requires Forest(m', ks) && SameTrees(m, ks, m', ks) && ListsKept(m, ks, m', ks, [])
    requires Chain(m', ks, head', [n] + nss[c.list])
    requires Areas(m', [n] + nss[c.list]) == [c.area] + Areas(m, nss[c.list])
    ensures Answered(m, ks, hs, nss, c, Done, m', ks, hs.(heads := hs.heads[c.list := head']), nss[c.list := [n] + nss[c.list]])
  {
    NodeAlloc(m.off);
    NodeAdded(m, ks, m', hs, nss, c.list, head', n);
  }

  method AnswerAdd(mm: MemoryManager, hs: Handles, c: Call, ghost nss: seq<seq<nat>>)
    returns (hs': Handles, r: Reply, ghost nss': seq<seq<nat>>)
    requires Ready(mm.View(), mm.kinds, hs, nss, c) && c.AddArea?
    modifies mm, mm.heap
    ensures Answered(old(mm.View()), old(mm.kinds), hs, nss, c, r, mm.View(), mm.kinds, hs', nss')
  {
    ghost var m, ks, l := mm.View(), mm.kinds, c.list;
    HeadInRange(m, ks, hs.heads[c.list], nss[l]);
    var rc, head', ns' := mm.MmVmaAdd(hs.heads[c.list], c.area.start, c.area.end, c.area.flags, nss[l]);
    if rc == 0 {
      AddAnswered(m, ks, mm.View(), hs, nss, c, head', FreeNode(m.off) / 8);
      hs', r, nss' := hs.(heads := hs.heads[c.list := head']), Done, nss[l := ns'];
    } else {
      assert mm.View() == m;
      hs', r, nss' := hs, Rejected, nss;
    }
  }

  method AnswerSeek(mm: MemoryManager, hs: Handles, c: Call, ghost nss: seq<seq<nat>>) returns (r: Reply)
    requires Ready(mm.View(), mm.kinds, hs, nss, c) && c.SeekArea?
    ensures Answered(mm.View(), mm.kinds, hs, nss, c, r, mm.View(), mm.kinds, hs, nss)
  {
    ghost var m, ks, ns := mm.View(), mm.kinds, nss[c.list];
    var node := mm.MmVmaFind(hs.heads[c.list], c.addr, ks, ns);
    ghost var i := FindArea(Areas(m, ns), c.addr);
    ChainLinks(m, ks, hs.heads[c.list], ns, i);
    if node == 0 {
      r := Rejected;
    } else {
      assert i < |ns|;
      var n := (node - mm.base) / 8;
      r := Covering(Area(mm.heap[n], mm.heap[n + 1], mm.heap[n + 2]));
    }
  }

  method AnswerRemove(mm: MemoryManager, hs: Handles, c: Call, ghost nss: seq<seq<nat>>)
    returns (hs': Handles, r: Reply, ghost nss': seq<seq<nat>>)
    requires Ready(mm.View(), mm.kinds, hs, nss, c) && c.RemoveArea?
    modifies mm.heap
    ensures Answered(old(mm.View()), mm.kinds, hs, nss, c, r, mm.View(), mm.kinds, hs', nss')
  {
    ghost var m, ks, l := mm.View(), mm.kinds, c.list;
    var head', ns' := mm.MmVmaRemove(hs.heads[c.list], c.start, nss[l]);
    NodeRemoved(m, ks, mm.View(), hs, nss, l, head', c.start);
    hs', r, nss' := hs.(heads := hs.heads[c.list := head']), Done, nss[l := ns'];
  }

  method AnswerAlloc(mm: MemoryManager, hs: Handles, c: Call, ghost nss: seq<seq<nat>>) returns (r: Reply)
    requires Ready(mm.View(), mm.kinds, hs, nss, c) && c.AllocBlock?
    modifies mm
    ensures Answered(old(mm.View()), old(mm.kinds), hs, nss, c, r, mm.View(), mm.kinds, hs, nss)
  {
    ghost var m, ks := mm.View(), mm.kinds;
    Small(c.request);
    var g := mm.MmAlloc(c.request.size, c.request.align);
    match g {
      case Granted(start) =>
        AllocInsideIff(m.off, c.request);
        r := Block(start);
      case Refused =>
        assert mm.View() == m;
        r := Rejected;
    }
    PagesKept(m, ks, mm.View(), ks, hs, nss);
  }

  method Answer(mm: MemoryManager, hs: Handles, c: Call, ghost nss: seq<seq<nat>>)
    returns (hs': Handles, r: Reply, ghost nss': seq<seq<nat>>)
    requires Ready(mm.View(), mm.kinds, hs, nss, c)
    modifies mm, mm.heap
    ensures Answered(old(mm.View()), old(mm.kinds), hs, nss, c, r, mm.View(), mm.kinds, hs', nss')
  {
    hs', nss' := hs, nss;
    match c {
      case Create => hs', r := AnswerCreate(mm, hs, nss);
      case MapPage(_, _, _, _) => r := AnswerMap(mm, hs, c, nss);
      case UnmapPage(_, _) => r := AnswerUnmap(mm, hs, c, nss);
      case ProtectPage(_, _, _) => r := AnswerProtect(mm, hs, c, nss);
      case WalkPage(_, _, _) => r := AnswerWalk(mm, hs, c, nss);
      case AddArea(_, _) => hs', r, nss' := AnswerAdd(mm, hs, c, nss);
      case SeekArea(_, _) => r := AnswerSeek(mm, hs, c, nss);
      case RemoveArea(_, _) => hs', r, nss' := AnswerRemove(mm, hs, c, nss);
      case AllocBlock(_) => r := AnswerAlloc(mm, hs, c, nss);
    }
  }

  // ----- runs -----

  ghost predicate Follows(a: Meaning, c: Call, r: Reply, b: Meaning) {
    a.off <= HEAP_SIZE && Guard(|a.trees|, |a.lists|, a.off, c) && Step(a, c, r, b)
  }

  /** The meanings before, between and after the calls. */
  ghost predicate Run(ms: seq<Meaning>, cs: seq<Call>, rs: seq<Reply>) {
    && |ms| == |cs| + 1 && |rs| == |cs|
    && forall i :: 0 <= i < |cs| ==> Follows(ms[i], cs[i], rs[i], ms[i + 1])
  }

  /** Any interleaving of the calls, up to the first that is outside the guard. */
  method Serve(mm: MemoryManager, hs: Handles, cs: seq<Call>, ghost nss: seq<seq<nat>>)
    returns (hs': Handles, rs: seq<Reply>, ghost nss': seq<seq<nat>>, ghost ms: seq<Meaning>)
    requires Shared(mm.View(), mm.kinds, hs, nss)
    modifies mm, mm.heap
    ensures Shared(mm.View(), mm.kinds, hs', nss')
    ensures |rs| <= |cs| && Run(ms, cs[..|rs|], rs)
    ensures ms[0] == Means(old(mm.View()), hs, nss) && ms[|rs|] == Means(mm.View(), hs', nss')
    ensures |rs| < |cs| ==> !Guard(|hs'.roots|, |hs'.heads|, mm.heapOffset, cs[|rs|])
  {
    hs', rs, nss', ms := hs, [], nss, [Means(mm.View(), hs, nss)];
    while |rs| < |cs| && Guard(|hs'.roots|, |hs'.heads|, mm.heapOffset, cs[|rs|])
      invariant |rs| <= |cs| && Shared(mm.View(), mm.kinds, hs', nss')
      invariant Run(ms, cs[..|rs|], rs)
      invariant ms[0] == Means(old(mm.View()), hs, nss) && ms[|rs|] == Means(mm.View(), hs', nss')
      decreases |cs| - |rs|
    {
      var r;
      ghost var a, c := ms[|rs|], cs[|rs|];
      hs', r, nss' := Answer(mm, hs', cs[|rs|], nss');
      ghost var b := Means(mm.View(), hs', nss');
      RunGrows(ms, cs[..|rs|], rs, c, r, b);
      assert cs[..|rs|] + [c] == cs[..|rs| + 1];
      rs, ms := rs + [r], ms + [b];
    }
  }

  lemma RunGrows(ms: seq<Meaning>, cs: seq<Call>, rs: seq<Reply>, c: Call, r: Reply, b: Meaning)
    requires Run(ms, cs, rs) && Follows(ms[|cs|], c, r, b)
    ensures Run(ms + [b], cs + [c], rs + [r])
  {
  }

  /** A kernel that has just run mm_init, with `k` lists nobody has added to. */
  lemma BootShared(m: Mm, ks: Kinds, root: nat, k: nat)
    requires Forest(m, ks) && root in ks && ks[root] == 4
    ensures var hs, nss := Handles([root], seq(k, l => 0)), seq(k, l => []);
            Shared(m, ks, hs, nss) && Means(m, hs, nss).lists == seq(k, l => [])
  {
  }

  /** What one call makes of the entry of page `v` in tree `t`. */
  function Touch(e: nat, t: nat, v: Ix, c: Call, r: Reply): nat {
    match c
    case MapPage(u, vaddr, paddr, flags) => if r.Done? && u == t && Split(vaddr) == v then MakeEntry(paddr, flags) else e
    case UnmapPage(u, vaddr) => if u == t && Split(vaddr) == v then 0 else e
    case ProtectPage(u, vaddr, flags) => if r.Done? && u == t && Split(vaddr) == v then Bits.Or(Address(e), flags) else e
    case _ => e
  }

  function TouchAll(e: nat, t: nat, v: Ix, cs: seq<Call>, rs: seq<Reply>): nat
    requires |rs| == |cs|
  {
    var n := |cs| - 1;
    if n < 0 then e else Touch(TouchAll(e, t, v, cs[..n], rs[..n]), t, v, cs[n], rs[n])
  }

  /** What one call makes of list `l`. */
  function Relist(xs: seq<Area>, l: nat, c: Call, r: Reply): seq<Area> {
    match c
    case AddArea(k, a) => if r.Done? && k == l then [a] + xs else xs
    case RemoveArea(k, start) => if k == l then RemoveStart(xs, start) else xs
    case _ => xs
  }

  function RelistAll(xs: seq<Area>, l: nat, cs: seq<Call>, rs: seq<Reply>): seq<Area>
    requires |rs| == |cs|
  {
    var n := |cs| - 1;
    if n < 0 then xs else Relist(RelistAll(xs, l, cs[..n], rs[..n]), l, cs[n], rs[n])
  }

  /** After any run the entry of a page is what the calls that name the page made of it,
      whatever else was created, mapped, added or allocated in between. */
  lemma {:induction false} EntryOfRun(ms: seq<Meaning>, cs: seq<Call>, rs: seq<Reply>, t: nat, v: Ix)
    requires Run(ms, cs, rs) && t < |ms[0].trees|
    ensures t < |ms[|cs|].trees| && ms[|cs|].trees[t](v) == TouchAll(ms[0].trees[t](v), t, v, cs, rs)
    decreases |cs|
  {
    var n := |cs| - 1;
    if n >= 0 {
      EntryOfRun(ms[..n + 1], cs[..n], rs[..n], t, v);
      EntryOfStep(ms[n], cs[n], rs[n], ms[n + 1], t, v);
    }
  }

  lemma EntryOfStep(a: Meaning, c: Call, r: Reply, b: Meaning, t: nat, v: Ix)
    requires Follows(a, c, r, b) && t < |a.trees|
    ensures t < |b.trees| && b.trees[t](v) == Touch(a.trees[t](v), t, v, c, r)
  {
  }

  /** And an area list is what the additions to it and the removals from it made of it. */
  lemma {:induction false} ListOfRun(ms: seq<Meaning>, cs: seq<Call>, rs: seq<Reply>, l: nat)
    requires Run(ms, cs, rs) && l < |ms[0].lists|
    ensures l < |ms[|cs|].lists| && ms[|cs|].lists[l] == RelistAll(ms[0].lists[l], l, cs, rs)
    decreases |cs|
  {
    var n := |cs| - 1;
    if n >= 0 {
      ListOfRun(ms[..n + 1], cs[..n], rs[..n], l);
      ListOfStep(ms[n], cs[n], rs[n], ms[n + 1], l);
    }
  }

  lemma ListOfStep(a: Meaning, c: Call, r: Reply, b: Meaning, l: nat)
    requires Follows(a, c, r, b) && l < |a.lists|
    ensures l < |b.lists| && b.lists[l] == Relist(a.lists[l], l, c, r)
  {
  }
}
