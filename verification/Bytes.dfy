/** Bytes and C strings. */
module Bytes {

  type Byte = b: int | 0 <= b < 256

  /** The C string at the start of a buffer: the bytes before the first NUL. */
  function CStr(s: seq<Byte>): (r: seq<Byte>)
    ensures |r| <= |s| && r == s[..|r|]
    ensures 0 !in r
    ensures |r| < |s| ==> s[|r|] == 0
  {
    if s == [] || s[0] == 0 then [] else [s[0]] + CStr(s[1..])
  }

  predicate Terminated(s: seq<Byte>) {
    |CStr(s)| < |s|
  }

  function Zeros(n: nat): (z: seq<Byte>)
    ensures |z| == n && forall i :: 0 <= i < n ==> z[i] == 0
  {
    seq(n, i => 0)
  }

  /** A buffer that starts with `p`, has no NUL in it, and then a NUL, holds the C string `p`. */
  lemma {:induction false} CStrOf(p: seq<Byte>, s: seq<Byte>)
    requires 0 !in p && p <= s && (|p| == |s| || s[|p|] == 0)
    ensures CStr(s) == p
  {
    if p != [] {
      assert p[0] in p;
      CStrOf(p[1..], s[1..]);
      assert p == [p[0]] + p[1..];
    }
  }

  lemma {:induction false} ZeroTerminates(s: seq<Byte>)
    ensures Terminated(s + [0])
  {
    if s != [] {
      ZeroTerminates(s[1..]);
      assert (s + [0])[1..] == s[1..] + [0];
    }
  }

  /** What strcmp compares: two buffers hold the same C string exactly when they agree
      up to and including a NUL. */
  lemma SameCStr(a: seq<Byte>, b: seq<Byte>, k: nat)
    requires k <= |a| && k <= |b| && a[..k] == b[..k] && 0 !in a[..k]
    ensures k < |a| && k < |b| && a[k] == b[k] == 0 ==> CStr(a) == CStr(b)
    ensures k < |a| && k < |b| && a[k] != b[k] ==> CStr(a) != CStr(b)
  {
    if k < |a| && k < |b| {
      if a[k] == b[k] == 0 {
        CStrOf(a[..k], a);
        CStrOf(a[..k], b);
      } else if a[k] != b[k] {
        CStrLonger(a, k);
        CStrLonger(b, k);
      }
    }
  }

  lemma {:induction false} CStrLonger(a: seq<Byte>, k: nat)
    requires k < |a| && 0 !in a[..k]
    ensures |CStr(a)| >= k
    ensures |CStr(a)| == k <==> a[k] == 0
  {
    if k > 0 {
      assert a[..k][0] == a[0];
      assert a[1..][..k - 1] == a[..k][1..];
      CStrLonger(a[1..], k - 1);
    }
  }
}
