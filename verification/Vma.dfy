/** Virtual memory areas: a linked list of four-word nodes in the kernel heap. */
module Vma {
  import opened Bits
  import opened Heap
  import opened PageTables
  import opened PageTableProofs
  import opened Words

  datatype Area = Area(start: nat, end: nat, flags: nat)

  predicate Covers(a: Area, addr: nat) {
    a.start <= addr < a.end
  }

  /** The first area of the list that covers the address, or the list's length. */
  function FindArea(xs: seq<Area>, addr: nat): (i: nat)
    ensures i <= |xs|
    ensures i < |xs| ==> Covers(xs[i], addr)
    ensures forall j :: 0 <= j < i ==> !Covers(xs[j], addr)
  {
    if xs == [] || Covers(xs[0], addr) then 0 else 1 + FindArea(xs[1..], addr)
  }

  /** An area is found exactly when one starts at or before the address and ends after it,
      and then it is the first such one: the end itself is outside. */
  lemma FoundIff(xs: seq<Area>, addr: nat)
    ensures var i := FindArea(xs, addr);
            && (i < |xs| <==> exists j :: 0 <= j < |xs| && xs[j].start <= addr && addr < xs[j].end)
            && (i < |xs| ==> xs[i].start <= addr && addr < xs[i].end)
            && forall j :: 0 <= j < i ==> addr < xs[j].start || xs[j].end <= addr
  {
    var i := FindArea(xs, addr);
    assert i < |xs| ==> Covers(xs[i], addr);
    if j :| 0 <= j < |xs| && xs[j].start <= addr && addr < xs[j].end {
      assert Covers(xs[j], addr);
    }
  }

  /** The first area of the list with that start, or the list's length. */
  function FindStart(xs: seq<Area>, start: nat): (i: nat)
    ensures i <= |xs|
    ensures i < |xs| ==> xs[i].start == start
    ensures forall j :: 0 <= j < i ==> xs[j].start != start
  {
    if xs == [] || xs[0].start == start then 0 else 1 + FindStart(xs[1..], start)
  }

  function RemoveStart(xs: seq<Area>, start: nat): seq<Area> {
    var i := FindStart(xs, start);
    if i == |xs| then xs else xs[..i] + xs[i + 1..]
  }

  /** Exactly the first area with that start goes, wherever it is; without one nothing does. */
  lemma RemovedIs(xs: seq<Area>, start: nat, i: nat)
    requires i <= |xs| && (i < |xs| ==> xs[i].start == start) && forall j :: 0 <= j < i ==> xs[j].start != start
    ensures RemoveStart(xs, start) == if i < |xs| then xs[..i] + xs[i + 1..] else xs
  {
  }

  ghost predicate PairwiseDisjoint(xs: seq<Area>) {
    forall i, j, addr :: 0 <= i < j < |xs| && Covers(xs[i], addr) ==> !Covers(xs[j], addr)
  }

  /** When areas are pairwise disjoint, which one is found does not depend on the order
      in which they were added. */
  lemma FindOrderFree(xs: seq<Area>, ys: seq<Area>, addr: nat)
    requires PairwiseDisjoint(xs) && PairwiseDisjoint(ys) && multiset(xs) == multiset(ys)
    ensures FindArea(xs, addr) < |xs| <==> FindArea(ys, addr) < |ys|
    ensures FindArea(xs, addr) < |xs| ==> xs[FindArea(xs, addr)] == ys[FindArea(ys, addr)]
  {
    FoundIn(xs, ys, addr);
    FoundIn(ys, xs, addr);
  }

  lemma FoundIn(xs: seq<Area>, ys: seq<Area>, addr: nat)
    requires PairwiseDisjoint(ys) && multiset(xs) == multiset(ys)
    ensures FindArea(xs, addr) < |xs| ==> FindArea(ys, addr) < |ys| && ys[FindArea(ys, addr)] == xs[FindArea(xs, addr)]
  {
    var i := FindArea(xs, addr);
    if i < |xs| {
      assert xs[i] in multiset(ys);
      var j :| 0 <= j < |ys| && ys[j] == xs[i];
      var k := FindArea(ys, addr);
      assert k <= j;
    }
  }

  /** Adding and removing again gives the list back. */
  lemma RemoveUndoesAdd(a: Area, xs: seq<Area>)
    ensures RemoveStart([a] + xs, a.start) == xs
  {
    assert ([a] + xs)[..0] + ([a] + xs)[1..] == xs;
  }

  // ----- nodes in the heap -----

  /** Field `i` of the node at word `n`: start, end, flags, next. */
  function Field(m: Mm, n: nat, i: nat): nat
    requires n + 4 <= |m.words| && i < 4
  {
    m.words[n + i]
  }

  /** `head` points at a null-terminated chain of nodes at the words `ns`, allocated,
      outside page tables and not overlapping. */
  ghost predicate Chain(m: Mm, ks: Kinds, head: nat, ns: seq<nat>)
    requires Sound(m)
    decreases |ns|
  {
    if ns == [] then head == 0
    else
      && Placed(m, ks, ns[0])
      && head == m.base + 8 * ns[0]
      && Clear(ns[0], ns[1..])
      && Chain(m, ks, Field(m, ns[0], 3), ns[1..])
  }

  ghost predicate Placed(m: Mm, ks: Kinds, n: nat) {
    8 * n + 32 <= m.off <= HEAP_SIZE && n / ENTRIES !in ks && (n + 3) / ENTRIES !in ks
  }

  ghost predicate Clear(n: nat, ns: seq<nat>) {
    forall k :: 0 <= k < |ns| ==> ns[k] + 4 <= n || n + 4 <= ns[k]
  }

  /** The areas of a chain, newest first. */
  ghost function Areas(m: Mm, ns: seq<nat>): (xs: seq<Area>)
    ensures |xs| == |ns|
  {
    if ns == [] then []
    else [if ns[0] + 4 <= |m.words| then AreaAt(m, ns[0]) else Area(0, 0, 0)] + Areas(m, ns[1..])
  }

  function AreaAt(m: Mm, n: nat): Area
    requires n + 4 <= |m.words|
  {
    Area(Field(m, n, 0), Field(m, n, 1), Field(m, n, 2))
  }

  /** The node at word `n` is where and what it was. */
  ghost predicate SameNode(m: Mm, m': Mm, ks': Kinds, n: nat) {
    && Placed(m', ks', n)
    && n + 4 <= |m.words| && |m'.words| == |m.words|
    && m'.words[n..n + 4] == m.words[n..n + 4]
  }

  lemma SameFields(m: Mm, m': Mm, ks': Kinds, n: nat)
    requires SameNode(m, m', ks', n)
    ensures Field(m', n, 3) == Field(m, n, 3) && AreaAt(m', n) == AreaAt(m, n)
  {
    var a, b := m.words[n..n + 4], m'.words[n..n + 4];
    assert a[0] == b[0] && a[1] == b[1] && a[2] == b[2] && a[3] == b[3];
  }

  lemma {:induction false} ChainKept(m: Mm, ks: Kinds, m': Mm, ks': Kinds, head: nat, ns: seq<nat>)
    requires Sound(m) && Sound(m') && m'.base == m.base && Chain(m, ks, head, ns)
    requires forall k :: 0 <= k < |ns| ==> SameNode(m, m', ks', ns[k])
    ensures Chain(m', ks', head, ns) && Areas(m', ns) == Areas(m, ns)
    decreases |ns|
  {
    if ns != [] {
      SameFields(m, m', ks', ns[0]);
      ChainKept(m, ks, m', ks', Field(m, ns[0], 3), ns[1..]);
    }
  }

  lemma {:induction false} ChainPlaced(m: Mm, ks: Kinds, head: nat, ns: seq<nat>)
    requires Sound(m) && Chain(m, ks, head, ns)
    ensures forall k :: 0 <= k < |ns| ==> Placed(m, ks, ns[k])
    decreases |ns|
  {
    if ns != [] {
      ChainPlaced(m, ks, Field(m, ns[0], 3), ns[1..]);
    }
  }

  lemma NodeBelow(m: Mm, ks: Kinds, m': Mm, ks': Kinds, n: nat)
    requires Sound(m) && Sound(m') && Placed(m, ks, n) && Below(m, ks, m', ks')
    ensures SameNode(m, m', ks', n)
  {
    assert n / ENTRIES !in ks' && (n + 3) / ENTRIES !in ks';
    forall w | n <= w < n + 4 ensures m'.words[w] == m.words[w] {
      assert w / ENTRIES == n / ENTRIES || w / ENTRIES == (n + 3) / ENTRIES;
    }
  }

  /** Page-table operations do not touch the lists. */
  lemma ChainFrame(m: Mm, ks: Kinds, m': Mm, ks': Kinds, head: nat, ns: seq<nat>)
    requires Sound(m) && Sound(m') && Chain(m, ks, head, ns) && Below(m, ks, m', ks')
    ensures Chain(m', ks', head, ns) && Areas(m', ns) == Areas(m, ns)
  {
    ChainPlaced(m, ks, head, ns);
    forall k | 0 <= k < |ns| ensures SameNode(m, m', ks', ns[k]) {
      NodeBelow(m, ks, m', ks', ns[k]);
    }
    ChainKept(m, ks, m', ks', head, ns);
  }

  // ----- writes outside the tables -----

  ghost predicate Tabled(ks: Kinds, p: nat, i: nat) {
    p in ks && i < ENTRIES
  }

  /** Words outside the tables, and further allocation, do not matter to the tables. */
  lemma TablesFrame(m: Mm, ks: Kinds, m': Mm)
    requires Forest(m, ks) && Sound(m') && m'.base == m.base && m'.off >= m.off
    requires forall w :: 0 <= w < |m.words| && w / ENTRIES in ks ==> m'.words[w] == m.words[w]
    ensures Forest(m', ks)
    ensures forall x, v :: x in ks ==> Lookup(m', x, ks[x], v) == Lookup(m, x, ks[x], v)
  {
    forall p, i | Tabled(ks, p, i) ensures W(m', p, i) == W(m, p, i) {
      WordPage(p, i);
    }
    forall p, i | Inner(ks, p, i) ensures W(m', p, i) == W(m, p, i) && Links(m', ks, ks[p], W(m', p, i)) {
      assert Tabled(ks, p, i) && Links(m, ks, ks[p], W(m, p, i));
    }
    forall x, v | x in ks ensures Lookup(m', x, ks[x], v) == Lookup(m, x, ks[x], v) {
      FrameLookup(m, ks, m', x, ks[x], v);
    }
  }

  lemma WordPage(p: nat, i: nat)
    requires i < ENTRIES
    ensures (ENTRIES * p + i) / ENTRIES == p
  {
  }

  lemma {:induction false} FrameLookup(m: Mm, ks: Kinds, m': Mm, x: nat, level: nat, v: Ix)
    requires Forest(m, ks) && Sound(m') && m'.base == m.base
    requires forall p, i {:trigger Tabled(ks, p, i)} :: Tabled(ks, p, i) ==> W(m', p, i) == W(m, p, i)
    requires x in ks && ks[x] == level
    ensures Lookup(m', x, level, v) == Lookup(m, x, level, v)
    decreases level
  {
    assert Tabled(ks, x, At(v, level));
    if level == 1 {
      LookupLeaf(m, x, v);
      LookupLeaf(m', x, v);
    } else {
      SameLink(m, m', ks, x, level, v);
      var h := Follow(m, W(m, x, At(v, level)));
      if h.Table? {
        FrameLookup(m, ks, m', h.page, level - 1, v);
      }
    }
  }

  // ----- the list operations on the heap -----

  /** Setting the node at word `n`. */
  function SetNode(m: Mm, n: nat, a: Area, next: nat): Mm
    requires n + 4 <= |m.words|
  {
    m.(words := m.words[n := a.start][n + 1 := a.end][n + 2 := a.flags][n + 3 := next])
  }

  lemma NodeWords(n: nat, w: nat)
    ensures n <= w < n + 4 ==> w / ENTRIES == n / ENTRIES || w / ENTRIES == (n + 3) / ENTRIES
  {
  }

  lemma SetNodeTables(m: Mm, ks: Kinds, n: nat, a: Area, next: nat)
    requires Forest(m, ks) && Placed(m, ks, n)
    requires a.start < WORD && a.end < WORD && a.flags < WORD && next < WORD
    ensures Forest(SetNode(m, n, a, next), ks)
    ensures forall x, v :: x in ks ==> Lookup(SetNode(m, n, a, next), x, ks[x], v) == Lookup(m, x, ks[x], v)
  {
    var m' := SetNode(m, n, a, next);
    forall w | 0 <= w < |m.words| && w / ENTRIES in ks ensures m'.words[w] == m.words[w] {
      NodeWords(n, w);
    }
    TablesFrame(m, ks, m');
  }

  /** A fresh 32-byte block is no part of a table or of a list. */
  lemma FreshPlaced(m: Mm, ks: Kinds, n: nat, off': nat)
    requires Forest(m, ks) && m.off <= 8 * n && 8 * n + 32 == off' <= HEAP_SIZE
    ensures Forest(m.(off := off'), ks) && Placed(m.(off := off'), ks, n)
    ensures forall x, v :: x in ks ==> Lookup(m.(off := off'), x, ks[x], v) == Lookup(m, x, ks[x], v)
  {
    TablesFrame(m, ks, m.(off := off'));
    forall p | p in ks ensures n / ENTRIES > p && (n + 3) / ENTRIES > p {
      assert ENTRIES * (p + 1) <= n;
    }
  }

  /** No node of one list overlaps a node of the other. */
  ghost predicate Apart(ns: seq<nat>, xs: seq<nat>) {
    forall k :: 0 <= k < |ns| ==> Clear(ns[k], xs)
  }

  /** Every list of the heap apart from the nodes `ns` is where and what it was. */
  ghost predicate ListsKept(m: Mm, ks: Kinds, m': Mm, ks': Kinds, ns: seq<nat>)
    requires Sound(m) && Sound(m')
  {
    forall h, xs :: Chain(m, ks, h, xs) && Apart(ns, xs) ==> Chain(m', ks', h, xs) && Areas(m', xs) == Areas(m, xs)
  }

  /** A list does not notice a node stored behind the allocation offset. */
  lemma AddKeeps(m: Mm, ks: Kinds, h: nat, xs: seq<nat>, n: nat, a: Area, next: nat, off': nat)
    requires Forest(m, ks) && Chain(m, ks, h, xs)
    requires m.off <= 8 * n && 8 * n + 32 == off' <= HEAP_SIZE
    requires a.start < WORD && a.end < WORD && a.flags < WORD && next < WORD
    ensures var m' := SetNode(m.(off := off'), n, a, next);
            && Forest(m', ks) && Placed(m', ks, n) && Clear(n, xs)
            && Chain(m', ks, h, xs) && Areas(m', xs) == Areas(m, xs)
  {
    var m' := SetNode(m.(off := off'), n, a, next);
    FreshPlaced(m, ks, n, off');
    SetNodeTables(m.(off := off'), ks, n, a, next);
    ChainPlaced(m, ks, h, xs);
    forall k | 0 <= k < |xs| ensures SameNode(m, m', ks, xs[k]) && xs[k] + 4 <= n {
      assert Placed(m, ks, xs[k]);
    }
    ChainKept(m, ks, m', ks, h, xs);
  }

  /** mm_vma_add: the new node goes in front, and no list changes. */
  lemma AddChain(m: Mm, ks: Kinds, head: nat, ns: seq<nat>, n: nat, a: Area, off': nat)
    requires Forest(m, ks) && Chain(m, ks, head, ns)
    requires m.off <= 8 * n && 8 * n + 32 == off' <= HEAP_SIZE
    requires a.start < WORD && a.end < WORD && a.flags < WORD && head < WORD
    ensures var m' := SetNode(m.(off := off'), n, a, head);
            && Sound(m') && Chain(m', ks, m.base + 8 * n, [n] + ns)
            && Areas(m', [n] + ns) == [a] + Areas(m, ns)
            && ListsKept(m, ks, m', ks, [])
  {
    var m' := SetNode(m.(off := off'), n, a, head);
    AddKeeps(m, ks, head, ns, n, a, head, off');
    assert AreaAt(m', n) == a && Field(m', n, 3) == head;
    assert ([n] + ns)[1..] == ns;
    forall h, xs | Chain(m, ks, h, xs) ensures Chain(m', ks, h, xs) && Areas(m', xs) == Areas(m, xs) {
      AddKeeps(m, ks, h, xs, n, a, head, off');
    }
  }

  /** Giving the node before position `k` the link of the node at `k`. */
  ghost function Unhook(m: Mm, ns: seq<nat>, k: nat): Mm
    requires 0 < k < |ns| && ns[k] + 4 <= |m.words| && ns[k - 1] + 4 <= |m.words|
  {
    m.(words := m.words[ns[k - 1] + 3 := Field(m, ns[k], 3)])
  }

  lemma UnhookTables(m: Mm, ks: Kinds, head: nat, ns: seq<nat>, k: nat)
    requires Forest(m, ks) && Chain(m, ks, head, ns) && 0 < k < |ns|
    ensures Placed(m, ks, ns[k]) && Placed(m, ks, ns[k - 1])
    ensures Forest(Unhook(m, ns, k), ks)
    ensures forall x, v :: x in ks ==> Lookup(Unhook(m, ns, k), x, ks[x], v) == Lookup(m, x, ks[x], v)
  {
    ChainPlaced(m, ks, head, ns);
    assert Placed(m, ks, ns[k - 1]);
    TablesFrame(m, ks, Unhook(m, ns, k));
  }

  /** A node other than the one before position `k` keeps its words. */
  lemma UnhookSame(m: Mm, ks: Kinds, n: nat, p: nat, e: nat)
    requires Sound(m) && Placed(m, ks, n) && Placed(m, ks, p) && (n + 4 <= p || p + 4 <= n)
    ensures SameNode(m, m.(words := m.words[p + 3 := e]), ks, n)
  {
  }

  /** Unhooking changes no list but the one it is done in. */
  lemma UnhookKeeps(m: Mm, ks: Kinds, head: nat, ns: seq<nat>, k: nat)
    requires Sound(m) && Chain(m, ks, head, ns) && 0 < k < |ns|
    requires Placed(m, ks, ns[k]) && Placed(m, ks, ns[k - 1]) && Sound(Unhook(m, ns, k))
    ensures ListsKept(m, ks, Unhook(m, ns, k), ks, ns)
  {
    var m' := Unhook(m, ns, k);
    forall h, xs | Chain(m, ks, h, xs) && Apart(ns, xs) ensures Chain(m', ks, h, xs) && Areas(m', xs) == Areas(m, xs) {
      ChainPlaced(m, ks, h, xs);
      assert Clear(ns[k - 1], xs);
      forall j | 0 <= j < |xs| ensures SameNode(m, m', ks, xs[j]) {
        UnhookSame(m, ks, xs[j], ns[k - 1], Field(m, ns[k], 3));
      }
      ChainKept(m, ks, m', ks, h, xs);
    }
  }

  lemma UnhookSecond(m: Mm, ks: Kinds, head: nat, ns: seq<nat>)
    requires Sound(m) && Chain(m, ks, head, ns) && |ns| > 1
    requires Placed(m, ks, ns[0]) && Placed(m, ks, ns[1]) && Sound(Unhook(m, ns, 1))
    ensures var m' := Unhook(m, ns, 1);
            && Chain(m', ks, head, [ns[0]] + ns[2..])
            && Areas(m', [ns[0]] + ns[2..]) == [AreaAt(m, ns[0])] + Areas(m, ns[2..])
  {
    var m', tail := Unhook(m, ns, 1), ns[2..];
    assert ns[1..][1..] == tail && ns[1..][0] == ns[1];
    ChainPlaced(m, ks, Field(m, ns[1], 3), tail);
    forall i | 0 <= i < |tail| ensures SameNode(m, m', ks, tail[i]) {
      assert tail[i] == ns[1..][i + 1];
      UnhookSame(m, ks, tail[i], ns[0], Field(m, ns[1], 3));
    }
    ChainKept(m, ks, m', ks, Field(m, ns[1], 3), tail);
    assert ([ns[0]] + tail)[1..] == tail;
    assert AreaAt(m', ns[0]) == AreaAt(m, ns[0]);
  }

  /** mm_vma_remove past the head: the chain loses exactly the node at position `k`. */
  lemma {:induction false} UnhookChain(m: Mm, ks: Kinds, head: nat, ns: seq<nat>, k: nat)
    requires Sound(m) && Chain(m, ks, head, ns) && 0 < k < |ns|
    requires Placed(m, ks, ns[k]) && Placed(m, ks, ns[k - 1]) && Sound(Unhook(m, ns, k))
    ensures var ns' := ns[..k] + ns[k + 1..];
            && Chain(Unhook(m, ns, k), ks, head, ns')
            && Areas(Unhook(m, ns, k), ns') == Areas(m, ns)[..k] + Areas(m, ns)[k + 1..]
    decreases |ns|
  {
    var rest := ns[1..];
    if k == 1 {
      UnhookOne(m, ks, head, ns);
    } else {
      assert rest[k - 1] == ns[k] && rest[k - 2] == ns[k - 1];
      assert Unhook(m, rest, k - 1) == Unhook(m, ns, k);
      UnhookChain(m, ks, Field(m, ns[0], 3), rest, k - 1);
      UnhookFront(m, ks, head, ns, k);
    }
  }

  lemma UnhookOne(m: Mm, ks: Kinds, head: nat, ns: seq<nat>)
    requires Sound(m) && Chain(m, ks, head, ns) && |ns| > 1
    requires Placed(m, ks, ns[0]) && Placed(m, ks, ns[1]) && Sound(Unhook(m, ns, 1))
    ensures Chain(Unhook(m, ns, 1), ks, head, ns[..1] + ns[2..])
    ensures Areas(Unhook(m, ns, 1), ns[..1] + ns[2..]) == Areas(m, ns)[..1] + Areas(m, ns)[2..]
  {
    UnhookSecond(m, ks, head, ns);
    assert ns[..1] + ns[2..] == [ns[0]] + ns[2..] && ns[1..][1..] == ns[2..];
    assert Areas(m, ns)[..1] == [AreaAt(m, ns[0])];
    assert Areas(m, ns)[2..] == Areas(m, ns[1..])[1..] == Areas(m, ns[2..]);
  }

  lemma SplitFront(xs: seq<Area>, x: Area, rest: seq<Area>, k: nat)
    requires xs == [x] + rest && 0 < k < |xs|
    ensures xs[..k] + xs[k + 1..] == [x] + (rest[..k - 1] + rest[k..])
  {
  }

  /** Putting the first node back in front of a chain that lost a later one. */
  lemma UnhookFront(m: Mm, ks: Kinds, head: nat, ns: seq<nat>, k: nat)
    requires Sound(m) && Chain(m, ks, head, ns) && 1 < k < |ns|
    requires Placed(m, ks, ns[0]) && Placed(m, ks, ns[k]) && Placed(m, ks, ns[k - 1]) && Sound(Unhook(m, ns, k))
    requires Chain(Unhook(m, ns, k), ks, Field(m, ns[0], 3), ns[1..][..k - 1] + ns[1..][k..])
    requires Areas(Unhook(m, ns, k), ns[1..][..k - 1] + ns[1..][k..]) == Areas(m, ns[1..])[..k - 1] + Areas(m, ns[1..])[k..]
    ensures var ns' := ns[..k] + ns[k + 1..];
            && Chain(Unhook(m, ns, k), ks, head, ns')
            && Areas(Unhook(m, ns, k), ns') == Areas(m, ns)[..k] + Areas(m, ns)[k + 1..]
  {
    SplitFront(Areas(m, ns), AreaAt(m, ns[0]), Areas(m, ns[1..]), k);
    var m', ns', rest := Unhook(m, ns, k), ns[..k] + ns[k + 1..], ns[1..];
    assert ns'[0] == ns[0] && ns'[1..] == rest[..k - 1] + rest[k..];
    assert ns[k - 1] == rest[k - 2];
    UnhookSame(m, ks, ns[0], ns[k - 1], Field(m, ns[k], 3));
    SameFields(m, m', ks, ns[0]);
    ClearParts(ns[0], rest, k - 1);
  }

  lemma ClearParts(n: nat, ns: seq<nat>, k: nat)
    requires Clear(n, ns) && k < |ns|
    ensures Clear(n, ns[..k] + ns[k + 1..])
  {
  }
}
