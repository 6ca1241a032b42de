/** The bump allocator of kernel/src/mm.c: 64-bit offsets into a 256 KiB heap. */
module Heap {
  import opened Bits
  import opened Words

  const HEAP_SIZE := 256 * 1024

  /** `(value + align - 1) & ~(align - 1)` in 64-bit arithmetic. */
  function AlignUp(value: nat, align: nat): nat
    requires value < WORD && align < WORD
  {
    And((value + align + WORD - 1) % WORD, Not((align + WORD - 1) % WORD))
  }

  datatype Grant = Refused | Granted(start: nat)

  datatype Request = Request(size: nat, align: nat)

  /** What the allocator is meant for: a 64-bit size and a power of two. */
  predicate Proper(r: Request) {
    r.size < WORD && Power(r.align)
  }

  function Alloc(off: nat, r: Request): (res: (nat, Grant))
    requires off < WORD && r.size < WORD && r.align < WORD
    ensures res.1.Refused? ==> res.0 == off
    ensures off <= HEAP_SIZE ==> res.0 <= HEAP_SIZE
  {
    var start := AlignUp(off, r.align);
    var end := (start + r.size) % WORD;
    if end > HEAP_SIZE then (off, Refused) else (end, Granted(start))
  }

  lemma WrapOnce(v: nat, a: nat)
    requires v < WORD && 1 <= a < WORD
    ensures (v + a + WORD - 1) % WORD == (v + a - 1) % WORD
    ensures (a + WORD - 1) % WORD == a - 1
  {
  }

  lemma PowerInRange(k: nat)
    requires k <= 63
    ensures Pow2(k) <= WORD / 2
  {
    Pow2At();
    Pow2Monotone(k, 63);
  }

  lemma AlignUpMasks(v: nat, a: nat, s: nat)
    requires v < WORD && 1 <= a < WORD && s == (v + a - 1) % WORD
    ensures AlignUp(v, a) == And(s, Not(a - 1))
  {
    WrapOnce(v, a);
  }

  lemma MaskRounds(s: nat, k: nat, a: nat)
    requires s < WORD && k <= 64 && a == Pow2(k)
    ensures a <= WORD && And(s, Not(a - 1)) == s - s % a
  {
    RoundDown(s, k);
  }

  /** Rounding `v + a - 1` down is rounding `v` up. */
  lemma RoundUp(v: nat, a: nat, r: nat)
    requires a >= 1 && r == (v + a - 1) - (v + a - 1) % a
    ensures v <= r < v + a && r % a == 0
    ensures forall w: nat :: w >= v && w % a == 0 ==> w >= r
  {
    Floor(v + a - 1, a);
    forall w: nat | w >= v && w % a == 0 ensures w >= r {
      if w < r {
        MultiplesApart(w, r, a);
      }
    }
  }

  /** The powers of two below 2^64. */
  predicate Power(a: nat) {
    exists k :: 0 <= k <= 63 && a == Pow2(k)
  }

  lemma PowerRounds(v: nat, a: nat)
    requires v < WORD && Power(a)
    ensures 1 <= a <= WORD / 2
    ensures var s := (v + a - 1) % WORD; AlignUp(v, a) == s - s % a
  {
    var k :| 0 <= k <= 63 && a == Pow2(k);
    PowerInRange(k);
    AlignUpMasks(v, a, (v + a - 1) % WORD);
    MaskRounds((v + a - 1) % WORD, k, a);
  }

  lemma NoWrapMod(s: nat)
    requires s < WORD
    ensures s % WORD == s
  {
  }

  /** Without wrap-around the result is the least multiple of `align` not below `value`. */
  lemma AlignUpLeast(v: nat, a: nat)
    requires Power(a) && v + a - 1 < WORD
    ensures 1 <= a <= WORD / 2
    ensures var r := AlignUp(v, a);
            && v <= r < v + a
            && r % a == 0
            && forall w: nat :: w >= v && w % a == 0 ==> w >= r
  {
    PowerRounds(v, a);
    NoWrapMod(v + a - 1);
    RoundUp(v, a, AlignUp(v, a));
  }

  lemma Floor(s: nat, a: nat)
    requires a >= 1
    ensures (s - s % a) % a == 0
  {
    assert s - s % a == (s / a) * a + 0;
    ModIs(s - s % a, a, s / a, 0);
  }

  lemma MultiplesApart(w: nat, r: nat, a: nat)
    requires a >= 1 && w % a == 0 && r % a == 0 && w < r
    ensures w + a <= r
  {
    var d := r / a - w / a;
    assert d * a == r - w;
    assert d <= 0 ==> d * a <= 0;
    assert d >= 1 ==> d * a >= a;
  }

  /** The result is not below `value` exactly when the addition does not wrap. */
  lemma AlignUpWrapsIff(v: nat, a: nat)
    requires 0 < v < WORD && Power(a)
    ensures 1 <= a <= WORD / 2
    ensures v <= AlignUp(v, a) <==> v + a - 1 < WORD
  {
    PowerRounds(v, a);
    if v + a - 1 < WORD {
      AlignUpLeast(v, a);
    } else {
      WrapsTo(v + a - 1);
    }
  }

  lemma WrapsTo(s: nat)
    requires WORD <= s < 2 * WORD
    ensures s % WORD == s - WORD
  {
  }

  // ----- one allocation -----

  /** What a caller can check: the end of the block is a 64-bit number. */
  predicate NoWrap(off: nat, r: Request)
    requires off <= HEAP_SIZE && Proper(r)
  {
    Small(r);
    AlignUp(off, r.align) + r.size < WORD
  }

  lemma Small(r: Request)
    requires Proper(r)
    ensures 1 <= r.align <= WORD / 2
  {
    PowerRounds(0, r.align);
  }

  lemma StartAligned(off: nat, r: Request)
    requires off <= HEAP_SIZE && Proper(r)
    ensures 1 <= r.align <= WORD / 2
    ensures var start := AlignUp(off, r.align); off <= start < off + r.align && start % r.align == 0
  {
    Small(r);
    AlignUpLeast(off, r.align);
  }

  /** A granted block starts aligned at or after the old offset; it ends inside the heap,
      at the new offset, exactly when its end does not wrap. */
  lemma AllocInsideIff(off: nat, r: Request)
    requires off <= HEAP_SIZE && Proper(r)
    ensures 1 <= r.align <= WORD / 2
    ensures var (off', g) := Alloc(off, r);
            g.Granted? ==>
              && off <= g.start && g.start % r.align == 0
              && (NoWrap(off, r) <==> g.start + r.size == off' && off' <= HEAP_SIZE)
              && (!NoWrap(off, r) ==> g.start + r.size > HEAP_SIZE)
  {
    StartAligned(off, r);
  }

  /** A block whose end does not wrap is granted exactly when some aligned place at or after
      the offset has room for it in the 256 KiB, and then at the first such place. */
  lemma AllocGrantsIff(off: nat, r: Request)
    requires off <= HEAP_SIZE && Proper(r) && NoWrap(off, r)
    ensures 1 <= r.align <= WORD / 2
    ensures var g := Alloc(off, r).1;
            && (g.Granted? <==> exists s: nat :: Fitting(off, r, s))
            && (g.Granted? ==> Fitting(off, r, g.start) && forall s: nat :: Fitting(off, r, s) ==> g.start <= s)
  {
    StartAligned(off, r);
    AlignUpLeast(off, r.align);
    NoWrapMod(AlignUp(off, r.align) + r.size);
    assert AlignUp(off, r.align) + r.size <= 262144 ==> Fitting(off, r, AlignUp(off, r.align));
  }

  ghost predicate Fitting(off: nat, r: Request, s: nat)
    requires r.align > 0
  {
    off <= s && s % r.align == 0 && s + r.size <= 262144
  }

  // ----- runs -----

  ghost function Grants(off: nat, rs: seq<Request>): (gs: seq<Grant>)
    requires off <= HEAP_SIZE && forall i :: 0 <= i < |rs| ==> Proper(rs[i])
    ensures |gs| == |rs|
    decreases |rs|
  {
    if rs == [] then []
    else
      Small(rs[0]);
      var (off', g) := Alloc(off, rs[0]);
      [g] + Grants(off', rs[1..])
  }

  /** No request of the run that is granted has an end that wraps. */
  ghost predicate NoneWraps(off: nat, rs: seq<Request>)
    requires off <= HEAP_SIZE && forall i :: 0 <= i < |rs| ==> Proper(rs[i])
    decreases |rs|
  {
    rs != [] ==>
      (Small(rs[0]);
       var (off', g) := Alloc(off, rs[0]);
       (g.Granted? ==> NoWrap(off, rs[0])) && NoneWraps(off', rs[1..]))
  }

  /** Every block granted over a run ends inside the heap exactly when no granted request
      wraps. */
  lemma {:induction false} RunInsideIff(off: nat, rs: seq<Request>)
    requires off <= HEAP_SIZE && forall i :: 0 <= i < |rs| ==> Proper(rs[i])
    ensures (forall i :: 0 <= i < |rs| && Grants(off, rs)[i].Granted? ==> Grants(off, rs)[i].start + rs[i].size <= HEAP_SIZE)
       <==> NoneWraps(off, rs)
    decreases |rs|
  {
    if rs != [] {
      AllocInsideIff(off, rs[0]);
      var (off', g) := Alloc(off, rs[0]);
      RunInsideIff(off', rs[1..]);
      var gs, hs := Grants(off, rs), Grants(off', rs[1..]);
      assert gs[0] == g && forall i :: 0 < i < |rs| ==> gs[i] == hs[i - 1] && rs[i] == rs[1..][i - 1];
      assert forall i :: 0 <= i < |rs| - 1 ==> hs[i] == gs[i + 1] && rs[1..][i] == rs[i + 1];
    }
  }

  /** Over any run in which no granted request wraps, granted blocks are aligned, inside the
      heap, and each lies past the ones granted before it: pairwise disjoint. */
  lemma {:induction false} RunDisjoint(off: nat, rs: seq<Request>)
    requires off <= HEAP_SIZE && (forall i :: 0 <= i < |rs| ==> Proper(rs[i])) && NoneWraps(off, rs)
    ensures var gs := Grants(off, rs);
            && (forall i :: 0 <= i < |rs| && gs[i].Granted? ==>
                 off <= gs[i].start && gs[i].start + rs[i].size <= HEAP_SIZE && rs[i].align > 0 && gs[i].start % rs[i].align == 0)
            && forall i, j :: 0 <= i < j < |rs| && gs[i].Granted? && gs[j].Granted? ==>
                 gs[i].start + rs[i].size <= gs[j].start
    decreases |rs|
  {
    if rs != [] {
      AllocInsideIff(off, rs[0]);
      var (off', g) := Alloc(off, rs[0]);
      RunDisjoint(off', rs[1..]);
      var gs := Grants(off, rs);
      forall i | 0 <= i < |rs| && gs[i].Granted?
        ensures off <= gs[i].start && gs[i].start + rs[i].size <= HEAP_SIZE && rs[i].align > 0 && gs[i].start % rs[i].align == 0
      {
        assert i > 0 ==> gs[i] == Grants(off', rs[1..])[i - 1] && rs[i] == rs[1..][i - 1];
      }
      forall i, j | 0 <= i < j < |rs| && gs[i].Granted? && gs[j].Granted?
        ensures gs[i].start + rs[i].size <= gs[j].start
      {
        assert gs[j] == Grants(off', rs[1..])[j - 1] && rs[j] == rs[1..][j - 1];
        assert i > 0 ==> gs[i] == Grants(off', rs[1..])[i - 1] && rs[i] == rs[1..][i - 1];
      }
    }
  }

  /** The most heap that requests can use, padding included. */
  function Budget(rs: seq<Request>): int {
    if rs == [] then 0 else rs[0].size + rs[0].align - 1 + Budget(rs[1..])
  }

  lemma {:induction false} BudgetNonneg(rs: seq<Request>)
    requires forall i :: 0 <= i < |rs| ==> Proper(rs[i])
    ensures Budget(rs) >= 0
  {
    if rs != [] {
      Small(rs[0]);
      BudgetNonneg(rs[1..]);
    }
  }

  lemma FitsGranted(off: nat, r: Request)
    requires off <= HEAP_SIZE && Proper(r) && off + r.size + r.align - 1 <= HEAP_SIZE
    ensures 1 <= r.align <= WORD / 2 && NoWrap(off, r)
    ensures Alloc(off, r).1.Granted? && Alloc(off, r).0 <= off + r.size + r.align - 1
  {
    StartAligned(off, r);
    NoWrapMod(AlignUp(off, r.align) + r.size);
  }

  /** Requests whose sizes and worst-case padding fit in what is left are all granted. */
  lemma {:induction false} BudgetSuffices(off: nat, rs: seq<Request>)
    requires off <= HEAP_SIZE && forall i :: 0 <= i < |rs| ==> Proper(rs[i])
    requires off + Budget(rs) <= HEAP_SIZE
    ensures NoneWraps(off, rs)
    ensures forall i :: 0 <= i < |rs| ==> Grants(off, rs)[i].Granted?
    decreases |rs|
  {
    if rs != [] {
      BudgetNonneg(rs[1..]);
      FitsGranted(off, rs[0]);
      var off' := Alloc(off, rs[0]).0;
      BudgetSuffices(off', rs[1..]);
      forall i | 0 < i < |rs| ensures Grants(off, rs)[i] == Grants(off', rs[1..])[i - 1] {
      }
    }
  }

  // ----- a grant whose end wraps -----

  lemma OneAligns(v: nat)
    requires v < WORD
    ensures Power(1) && AlignUp(v, 1) == v
  {
    assert Pow2(0) == 1;
    PowerRounds(v, 1);
    NoWrapMod(v);
  }

  /** Asking for all but one of the 64-bit sizes is granted, and moves the offset back by one. */
  lemma WrappedGrant()
    ensures Proper(Request(WORD - 1, 1)) && !NoWrap(8, Request(WORD - 1, 1))
    ensures Alloc(8, Request(WORD - 1, 1)) == (7, Granted(8))
  {
    OneAligns(8);
    WrapsTo(8 + (WORD - 1));
  }

  /** So with it the last of three grants is a byte of the first. */
  lemma WrapOverlaps()
    ensures var rs := [Request(8, 1), Request(WORD - 1, 1), Request(1, 1)];
            && (forall i :: 0 <= i < |rs| ==> Proper(rs[i])) && !NoneWraps(0, rs)
            && Grants(0, rs) == [Granted(0), Granted(8), Granted(7)]
  {
    var a, b, c := Request(8, 1), Request(WORD - 1, 1), Request(1, 1);
    OneAligns(0);
    OneAligns(7);
    WrappedGrant();
    assert Alloc(0, a) == (8, Granted(0)) && Alloc(7, c) == (8, Granted(7));
    assert [a, b, c][1..] == [b, c] && [b, c][1..] == [c] && [c][1..] == [];
    assert Grants(8, []) == [] && Grants(7, [c]) == [Granted(7)];
    assert Grants(8, [b, c]) == [Granted(8)] + Grants(7, [c]);
  }
}
