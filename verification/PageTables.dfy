/** Four-level page tables in the kernel heap (section 4.5 of the Intel SDM, Vol. 3A), as
    kernel/src/mm.c builds them: the heap is 64 pages of 512 words, table entries are
    absolute addresses with flag bits, new tables come from the bump allocator.

    The leaf entry is taken in the leaf table. kernel/src/mm.c computes that table
    and then indexes the root instead; module LiteralLeaf states what that does. */
module PageTables {
  import opened Bits
  import opened Heap
  import opened Words

  const PAGE := 4096
  const ENTRIES := 512
  const PAGES := 64

  /** The heap: its address, its words, and how much of it is allocated. */
  datatype Mm = Mm(base: nat, words: seq<nat>, off: nat)

  ghost predicate Sound(m: Mm) {
    && 0 < m.base && m.base % PAGE == 0 && m.base + HEAP_SIZE <= WORD
    && |m.words| == PAGES * ENTRIES
    && m.off <= HEAP_SIZE
    && (forall w :: 0 <= w < |m.words| ==> m.words[w] < WORD)
    && (forall w :: 0 <= w < |m.words| && 8 * w >= m.off ==> m.words[w] == 0)
  }

  /** Entry `i` of the table in heap page `p`. */
  function W(m: Mm, p: nat, i: nat): nat
    requires |m.words| == PAGES * ENTRIES && p < PAGES && i < ENTRIES
  {
    m.words[ENTRIES * p + i]
  }

  function SetW(m: Mm, p: nat, i: nat, e: nat): Mm
    requires |m.words| == PAGES * ENTRIES && p < PAGES && i < ENTRIES
  {
    m.(words := m.words[ENTRIES * p + i := e])
  }

  lemma SetWFrame(m: Mm, p: nat, i: nat, e: nat, p': nat, i': nat)
    requires |m.words| == PAGES * ENTRIES && p < PAGES && i < ENTRIES && p' < PAGES && i' < ENTRIES
    ensures W(SetW(m, p, i, e), p', i') == if p' == p && i' == i then e else W(m, p', i')
  {
  }

  /** The four table indices of a virtual address. */
  datatype Indices = Indices(pml4: nat, pdpt: nat, pd: nat, pt: nat)

  type Ix = x: Indices | x.pml4 < ENTRIES && x.pdpt < ENTRIES && x.pd < ENTRIES && x.pt < ENTRIES
    witness Indices(0, 0, 0, 0)

  function Split(vaddr: nat): Ix {
    Indices(vaddr / 0x80_0000_0000 % ENTRIES, vaddr / 0x4000_0000 % ENTRIES,
            vaddr / 0x20_0000 % ENTRIES, vaddr / 0x1000 % ENTRIES)
  }

  /** The index into a table of the given level, 4 being the root. */
  function At(x: Ix, level: nat): (i: nat)
    requires 1 <= level <= 4
    ensures i < ENTRIES
  {
    if level == 4 then x.pml4 else if level == 3 then x.pdpt else if level == 2 then x.pd else x.pt
  }

  /** The page number: address bits 12 to 47. */
  function PageNumber(vaddr: nat): nat {
    vaddr / PAGE % 0x10_0000_0000
  }

  function Join(x: Ix): (n: nat)
    ensures n < 0x10_0000_0000
  {
    ((x.pml4 * 512 + x.pdpt) * 512 + x.pd) * 512 + x.pt
  }

  lemma Digits(a: nat, b: nat, c: nat, d: nat)
    requires b < 512 && d < 512 && a * 512 + b == c * 512 + d
    ensures a == c && b == d
  {
  }

  /** Splitting page numbers into four indices is a bijection. */
  lemma SplitBijection(v: nat, w: nat)
    ensures Join(Split(v)) == PageNumber(v)
    ensures Split(v) == Split(w) <==> PageNumber(v) == PageNumber(w)
  {
    SplitIndices(v);
    SplitIndices(w);
    if PageNumber(v) == PageNumber(w) {
      JoinInjective(Split(v), Split(w));
    }
  }

  lemma JoinInjective(x: Ix, y: Ix)
    requires Join(x) == Join(y)
    ensures x == y
  {
    Digits((x.pml4 * 512 + x.pdpt) * 512 + x.pd, x.pt, (y.pml4 * 512 + y.pdpt) * 512 + y.pd, y.pt);
    Digits(x.pml4 * 512 + x.pdpt, x.pd, y.pml4 * 512 + y.pdpt, y.pd);
    Digits(x.pml4, x.pdpt, y.pml4, y.pdpt);
  }

  /** Every choice of indices is that of a page. */
  lemma SplitOnto(x: Ix)
    ensures PageNumber(PAGE * Join(x)) == Join(x) && Split(PAGE * Join(x)) == x
  {
    PageOfNumber(Join(x));
    SplitIndices(PAGE * Join(x));
    JoinInjective(Split(PAGE * Join(x)), x);
  }

  lemma PageOfNumber(n: nat)
    requires n < 0x10_0000_0000
    ensures PageNumber(PAGE * n) == n
  {
    PageMod(n, 0);
  }

  lemma SplitLow(n: nat)
    ensures n % 0x10_0000_0000 == n / 512 % 0x800_0000 * 512 + n % 512
  {
  }

  lemma SplitMiddle(n: nat)
    ensures n % 0x800_0000 == n / 512 % 0x4_0000 * 512 + n % 512
  {
  }

  lemma SplitHigh(n: nat)
    ensures n % 0x4_0000 == n / 512 % 512 * 512 + n % 512
  {
  }

  lemma Shifts(v: nat)
    ensures v / 0x20_0000 == v / PAGE / 512 && v / 0x4000_0000 == v / PAGE / 512 / 512
    ensures v / 0x80_0000_0000 == v / PAGE / 512 / 512 / 512
  {
  }

  lemma SplitIndices(v: nat)
    ensures PageNumber(v) == Join(Split(v))
  {
    Shifts(v);
    SplitLow(v / PAGE);
    SplitMiddle(v / PAGE / 512);
    SplitHigh(v / PAGE / 512 / 512);
  }

  // ----- following and adding links -----

  /** Where an entry leads: nowhere, to a table in the heap, or outside the heap. */
  datatype Hop = Absent | Table(page: nat) | Stray

  predicate Present(e: nat) {
    e % 2 == 1
  }

  /** `e & ~0xFFF`. */
  function Address(e: nat): nat {
    e - e % PAGE
  }

  function Follow(m: Mm, e: nat): (h: Hop)
    ensures h.Table? ==> h.page < PAGES
  {
    if !Present(e) then Absent
    else if m.base % PAGE == 0 && m.base <= Address(e) < m.base + HEAP_SIZE then Table((Address(e) - m.base) / PAGE)
    else Stray
  }

  /** The entry that links to the table in page `q`: present, writable, user. */
  function LinkTo(m: Mm, q: nat): nat {
    m.base + PAGE * q + 7
  }

  lemma PageMod(x: nat, r: nat)
    requires r < PAGE
    ensures (PAGE * x + r) % PAGE == r && (PAGE * x + r) / PAGE == x
  {
  }

  lemma LinkArithmetic(b: nat, q: nat, e: nat)
    requires e == PAGE * b + PAGE * q + 7
    ensures Present(e) && Address(e) == PAGE * b + PAGE * q && (Address(e) - PAGE * b) / PAGE == q
  {
    assert e == PAGE * (b + q) + 7;
    PageMod(b + q, 7);
    PageMod(q, 0);
    assert e == 2 * (2048 * (b + q) + 3) + 1;
  }

  lemma FollowLink(m: Mm, q: nat)
    requires Sound(m) && q < PAGES
    ensures LinkTo(m, q) < WORD && Follow(m, LinkTo(m, q)) == Table(q)
  {
    LinkArithmetic(m.base / PAGE, q, LinkTo(m, q));
  }

  const PageRequest := Request(PAGE, PAGE)

  function AllocPage(m: Mm): (Mm, Grant)
    requires m.off < WORD
  {
    var (off', g) := Alloc(m.off, PageRequest);
    (m.(off := off'), g)
  }

  /** page_table_get_entry. */
  function GetEntry(m: Mm, p: nat, i: nat, create: bool): (r: (Mm, Hop))
    requires |m.words| == PAGES * ENTRIES && m.off < WORD && p < PAGES && i < ENTRIES
    ensures |r.0.words| == PAGES * ENTRIES && r.0.off < WORD
    ensures r.1.Table? ==> r.1.page < PAGES
  {
    var e := W(m, p, i);
    if Present(e) then (m, Follow(m, e))
    else if !create then (m, Absent)
    else
      var (m1, g) := AllocPage(m);
      if g.Refused? || g.start / PAGE >= PAGES then (m, Absent)
      else (SetW(m1, p, i, LinkTo(m, g.start / PAGE)), Table(g.start / PAGE))
  }

  /** From the table of the given level in page `p` down to the leaf table. */
  function Descend(m: Mm, p: nat, level: nat, x: Ix, create: bool): (r: (Mm, Hop))
    requires |m.words| == PAGES * ENTRIES && m.off < WORD && p < PAGES && 1 <= level <= 4
    ensures |r.0.words| == PAGES * ENTRIES && r.0.off < WORD
    ensures r.1.Table? ==> r.1.page < PAGES
    decreases level
  {
    if level == 1 then (m, Table(p))
    else
      var (m1, h) := GetEntry(m, p, At(x, level), create);
      match h
      case Table(c) => Descend(m1, c, level - 1, x, create)
      case _ => (m1, h)
  }

  datatype Outcome = Ok | Failed | OutOfHeap

  function MakeEntry(paddr: nat, flags: nat): nat {
    Or(Or(Address(paddr), flags), 1)
  }

  function Map(m: Mm, root: nat, vaddr: nat, paddr: nat, flags: nat): (Mm, Outcome)
    requires |m.words| == PAGES * ENTRIES && m.off < WORD && root < PAGES
  {
    var (m1, h) := Descend(m, root, 4, Split(vaddr), true);
    match h
    case Table(t) => (SetW(m1, t, Split(vaddr).pt, MakeEntry(paddr, flags)), Ok)
    case Absent => (m1, Failed)
    case Stray => (m1, OutOfHeap)
  }

  function Unmap(m: Mm, root: nat, vaddr: nat): (Mm, Outcome)
    requires |m.words| == PAGES * ENTRIES && m.off < WORD && root < PAGES
  {
    match Descend(m, root, 4, Split(vaddr), false).1
    case Table(t) => (SetW(m, t, Split(vaddr).pt, 0), Ok)
    case Absent => (m, Ok)
    case Stray => (m, OutOfHeap)
  }

  function Protect(m: Mm, root: nat, vaddr: nat, flags: nat): (Mm, Outcome)
    requires |m.words| == PAGES * ENTRIES && m.off < WORD && root < PAGES
  {
    match Descend(m, root, 4, Split(vaddr), false).1
    case Table(t) =>
      var e := W(m, t, Split(vaddr).pt);
      if Present(e) then (SetW(m, t, Split(vaddr).pt, Or(Address(e), flags)), Ok) else (m, Failed)
    case Absent => (m, Failed)
    case Stray => (m, OutOfHeap)
  }

  // ----- the tables form a forest -----

  /** Which heap pages hold tables, and of which level (4 is a root, 1 a leaf table). */
  type Kinds = map<nat, nat>

  ghost predicate Links(m: Mm, ks: Kinds, level: nat, e: nat) {
    e == 0 || (Follow(m, e).Table? && var q := Follow(m, e).page; e == LinkTo(m, q) && q in ks && ks[q] + 1 == level)
  }

  ghost predicate Inner(ks: Kinds, p: nat, i: nat) {
    p in ks && ks[p] >= 2 && i < ENTRIES
  }

  /** The page tables are well-formed: inner entries are zero or link to a table one
      level down, and no two of them link to the same one. */
  ghost predicate Forest(m: Mm, ks: Kinds) {
    && Sound(m)
    && (forall p :: p in ks ==> p < PAGES && 1 <= ks[p] <= 4 && PAGE * (p + 1) <= m.off)
    && (forall p, i :: Inner(ks, p, i) ==> Links(m, ks, ks[p], W(m, p, i)))
    && (forall p, i, q, j :: Inner(ks, p, i) && Inner(ks, q, j) && W(m, p, i) == W(m, q, j) != 0 ==> p == q && i == j)
  }

  /** The leaf table for an address, from the table of the given level in page `p`. */
  function Find(m: Mm, p: nat, level: nat, x: Ix): (h: Hop)
    requires |m.words| == PAGES * ENTRIES && p < PAGES && 1 <= level <= 4
    ensures h.Table? ==> h.page < PAGES
    decreases level
  {
    if level == 1 then Table(p)
    else
      match Follow(m, W(m, p, At(x, level)))
      case Table(c) => Find(m, c, level - 1, x)
      case h => h
  }

  /** The flat meaning of the tables: the entry of a page, 0 if it has none. */
  function Lookup(m: Mm, p: nat, level: nat, x: Ix): nat
    requires |m.words| == PAGES * ENTRIES && p < PAGES && 1 <= level <= 4
  {
    match Find(m, p, level, x)
    case Table(t) => W(m, t, x.pt)
    case _ => 0
  }
}
