/** The bit operations of the kernel's 64-bit words, defined bit by bit on naturals,
    and what masks mean arithmetically. */
module Bits {
  import opened Words

  function And(x: nat, y: nat): nat
    decreases x
  {
    if x == 0 then 0 else 2 * And(x / 2, y / 2) + (if x % 2 == 1 && y % 2 == 1 then 1 else 0)
  }

  function Or(x: nat, y: nat): (r: nat)
    ensures r == 0 <==> x == 0 && y == 0
    decreases x + y
  {
    if x == 0 && y == 0 then 0 else 2 * Or(x / 2, y / 2) + (if x % 2 == 1 || y % 2 == 1 then 1 else 0)
  }

  /** The complement in 64 bits. */
  function Not(x: nat): nat
    requires x < WORD
  {
    WORD - 1 - x
  }

  function Pow2(k: nat): (r: nat)
    ensures r >= 1
    ensures k > 0 ==> r % 2 == 0
  {
    if k == 0 then 1 else 2 * Pow2(k - 1)
  }

  lemma {:induction false} Pow2Monotone(j: nat, k: nat)
    requires j <= k
    ensures Pow2(j) <= Pow2(k)
  {
    if j < k {
      Pow2Monotone(j, k - 1);
    }
  }

  lemma Twice(a: nat, b: nat)
    ensures a * (2 * b) == 2 * (a * b)
  {
  }

  lemma {:induction false} Pow2Add(j: nat, k: nat)
    ensures Pow2(j + k) == Pow2(j) * Pow2(k)
  {
    if k == 0 {
      assert Pow2(k) == 1;
    } else {
      Pow2Add(j, k - 1);
      Twice(Pow2(j), Pow2(k - 1));
      assert Pow2(j + k) == 2 * Pow2(j + (k - 1));
      assert Pow2(k) == 2 * Pow2(k - 1);
    }
  }

  lemma Pow2At()
    ensures Pow2(12) == 4096 && Pow2(63) == WORD / 2 && Pow2(64) == WORD
  {
    assert Pow2(4) == 16;
    Pow2Add(4, 4);
    Pow2Add(8, 4);
    Pow2Add(8, 8);
    assert Pow2(16) == 0x1_0000;
    Pow2Add(16, 16);
    assert Pow2(32) == 0x1_0000_0000;
    Pow2Add(32, 32);
    assert Pow2(64) == 2 * Pow2(63);
  }

  lemma HalfMod(x: nat, m: nat)
    requires m >= 1
    ensures x % (2 * m) == 2 * (x / 2 % m) + x % 2
  {
    var h := x / 2;
    var q, r := h / m, h % m;
    assert h == q * m + r;
    assert x == q * (2 * m) + (2 * r + x % 2);
    ModIs(x, 2 * m, q, 2 * r + x % 2);
  }

  lemma ModIs(x: nat, m: nat, q: nat, r: nat)
    requires m >= 1 && r < m && x == q * m + r
    ensures x % m == r && x / m == q
  {
    var d := x / m - q;
    assert x == (x / m) * m + x % m;
    assert d * m == r - x % m;
    assert d >= 1 ==> d * m >= m;
    assert d <= -1 ==> d * m <= 0 - m;
  }

  lemma Halves(y: nat, d: nat, b: nat)
    requires y == 2 * d + b && b < 2
    ensures y / 2 == d && y % 2 == b
  {
  }

  lemma AndDouble(x: nat, y: nat, d: nat, b: nat)
    requires y == 2 * d + b && b < 2
    ensures And(x, y) == 2 * And(x / 2, d) + b * (x % 2)
  {
    Halves(y, d, b);
  }

  lemma MaskEven(x: nat, p: nat, q: nat, m: nat)
    requires 1 <= q <= p && m == 2 * (p - q) && And(x / 2, p - q) == x / 2 % p - x / 2 % q
    ensures And(x, m) == x % (2 * p) - x % (2 * q)
  {
    calc {
      And(x, m);
      { AndDouble(x, m, p - q, 0); }
      2 * (x / 2 % p - x / 2 % q);
      { HalfMod(x, p); HalfMod(x, q); }
      x % (2 * p) - x % (2 * q);
    }
  }

  lemma MaskOdd(x: nat, p: nat, m: nat)
    requires 1 <= p && m == 2 * (p - 1) + 1 && And(x / 2, p - 1) == x / 2 % p
    ensures And(x, m) == x % (2 * p)
  {
    AndDouble(x, m, p - 1, 1);
    HalfMod(x, p);
  }

  /** Masking with bits k to n-1 set keeps exactly those bits. */
  lemma {:induction false} AndRange(x: nat, k: nat, n: nat)
    requires k <= n
    ensures Pow2(k) <= Pow2(n)
    ensures And(x, Pow2(n) - Pow2(k)) == x % Pow2(n) - x % Pow2(k)
    decreases n
  {
    Pow2Monotone(k, n);
    if k > 0 {
      AndRange(x / 2, k - 1, n - 1);
      MaskEven(x, Pow2(n - 1), Pow2(k - 1), Pow2(n) - Pow2(k));
    } else if n > 0 {
      AndRange(x / 2, 0, n - 1);
      MaskOdd(x, Pow2(n - 1), Pow2(n) - 1);
    } else {
      AndZero(x);
    }
  }

  lemma {:induction false} AndZero(x: nat)
    ensures And(x, 0) == 0
  {
    if x > 0 {
      AndZero(x / 2);
    }
  }

  /** `x & ~(2^k - 1)` rounds down to a multiple of 2^k. */
  lemma RoundDown(x: nat, k: nat)
    requires x < WORD && k <= 64
    ensures Pow2(k) <= WORD
    ensures And(x, Not(Pow2(k) - 1)) == x - x % Pow2(k)
  {
    Pow2At();
    AndRange(x, k, 64);
    assert x % Pow2(64) == x by { ModIs(x, Pow2(64), 0, x); }
  }

  /** `x | y` adds when `y` only has bits below those of `x`. */
  lemma {:induction false} OrAdds(x: nat, y: nat, k: nat)
    requires x % Pow2(k) == 0 && y < Pow2(k)
    ensures Or(x, y) == x + y
    decreases k
  {
    if k == 0 {
      OrZero(x);
    } else {
      HalfMod(x, Pow2(k - 1));
      OrAdds(x / 2, y / 2, k - 1);
    }
  }

  lemma {:induction false} OrZero(x: nat)
    ensures Or(x, 0) == x
  {
    if x > 0 {
      OrZero(x / 2);
    }
  }

  /** The lowest bit of an OR. */
  lemma OrOdd(x: nat, y: nat)
    ensures Or(x, y) % 2 == if x % 2 == 1 || y % 2 == 1 then 1 else 0
  {
  }

  lemma {:induction false} OrBound(x: nat, y: nat, k: nat)
    requires x < Pow2(k) && y < Pow2(k)
    ensures Or(x, y) < Pow2(k)
    decreases k
  {
    if k > 0 {
      OrBound(x / 2, y / 2, k - 1);
    }
  }

  // ----- single bits -----

  /** Bit `i`, 0 being the lowest. */
  predicate Bit(x: nat, i: nat) {
    x / Pow2(i) % 2 == 1
  }

  lemma HalfDiv(x: nat, m: nat)
    requires m >= 1
    ensures x / (2 * m) == x / 2 / m
  {
    var h := x / 2;
    var q, r := h / m, h % m;
    assert h == q * m + r;
    assert x == q * (2 * m) + (2 * r + x % 2);
    ModIs(x, 2 * m, q, 2 * r + x % 2);
  }

  lemma BitZero(x: nat)
    ensures Bit(x, 0) <==> x % 2 == 1
  {
    assert Pow2(0) == 1;
  }

  lemma BitHalf(x: nat, i: nat)
    requires i > 0
    ensures Bit(x, i) <==> Bit(x / 2, i - 1)
  {
    HalfDiv(x, Pow2(i - 1));
  }

  lemma OrHalf(x: nat, y: nat)
    ensures Or(x, y) / 2 == Or(x / 2, y / 2)
  {
    if x == 0 && y == 0 {
      assert Or(0, 0) == 0;
    }
  }

  /** A bit of `x | y` is set exactly when it is set in `x` or in `y`. */
  lemma {:induction false} OrBit(x: nat, y: nat, i: nat)
    ensures Bit(Or(x, y), i) <==> Bit(x, i) || Bit(y, i)
    decreases i
  {
    if i == 0 {
      BitZero(x);
      BitZero(y);
      BitZero(Or(x, y));
      OrOdd(x, y);
    } else {
      BitHalf(x, i);
      BitHalf(y, i);
      BitHalf(Or(x, y), i);
      OrHalf(x, y);
      OrBit(x / 2, y / 2, i - 1);
    }
  }

  lemma AndHalf(x: nat, y: nat)
    ensures And(x, y) / 2 == And(x / 2, y / 2) && And(x, y) % 2 == if x % 2 == 1 && y % 2 == 1 then 1 else 0
  {
    if x == 0 {
      assert And(0, y / 2) == 0;
    }
  }

  /** A bit of `x & y` is set exactly when it is set in both. */
  lemma {:induction false} AndBit(x: nat, y: nat, i: nat)
    ensures Bit(And(x, y), i) <==> Bit(x, i) && Bit(y, i)
    decreases i
  {
    AndHalf(x, y);
    if i == 0 {
      BitZero(x);
      BitZero(y);
      BitZero(And(x, y));
    } else {
      BitHalf(x, i);
      BitHalf(y, i);
      BitHalf(And(x, y), i);
      AndBit(x / 2, y / 2, i - 1);
    }
  }
}
