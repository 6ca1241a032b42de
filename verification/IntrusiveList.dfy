/** Zero-terminated lists threaded through a table of `next` links, as the ready
    queues of the scheduler are: a head, a tail, and one link per slot.
    Slot 0 stands for "none". */
module IntrusiveList {

  /** The list that starts at `head`, follows `next` and stops at `tail` is exactly `q`. */
  ghost predicate IsList(next: seq<nat>, head: nat, tail: nat, q: seq<nat>) {
    && (forall i :: 0 <= i < |q| ==> 1 <= q[i] < |next|)
    && if q == [] then head == 0 && tail == 0
       else
         && head == q[0]
         && tail == q[|q| - 1]
         && next[tail] == 0
         && forall i :: 0 <= i < |q| - 1 ==> next[q[i]] == q[i + 1]
  }

  ghost predicate Distinct(q: seq<nat>) {
    forall i, j :: 0 <= i < j < |q| ==> q[i] != q[j]
  }

  /** The sequence with every occurrence of `s` taken out, the rest in the same order. */
  ghost function Without(q: seq<nat>, s: nat): (r: seq<nat>)
    ensures forall x :: x in r <==> x in q && x != s
  {
    if q == [] then []
    else if q[0] == s then Without(q[1..], s)
    else [q[0]] + Without(q[1..], s)
  }

  /** Changing links of slots outside the list does not change the list. */
  lemma ListFrame(next: seq<nat>, next': seq<nat>, head: nat, tail: nat, q: seq<nat>)
    requires IsList(next, head, tail, q)
    requires |next'| == |next|
    requires forall i :: 0 <= i < |q| ==> next'[q[i]] == next[q[i]]
    ensures IsList(next', head, tail, q)
  {
  }

  /** Appending a slot: the old tail is linked to it, and its own link is 0. */
  lemma ListAppend(next: seq<nat>, head: nat, tail: nat, q: seq<nat>, s: nat)
    requires IsList(next, head, tail, q) && Distinct(q)
    requires 1 <= s < |next| && s !in q
    ensures q == [] ==> IsList(next[s := 0], s, s, [s])
    ensures q != [] ==> IsList(next[tail := s][s := 0], head, s, q + [s])
    ensures q != [] ==> IsList(next[s := 0][tail := s], head, s, q + [s])
    ensures Distinct(q + [s])
  {
    if q != [] {
      var n' := next[tail := s][s := 0];
      var q' := q + [s];
      forall i | 0 <= i < |q'| - 1
        ensures n'[q'[i]] == q'[i + 1]
      {
        if i < |q| - 1 {
          assert q[i] != q[|q| - 1];
        }
      }
      assert next[s := 0][tail := s] == n';
    }
  }

  /** Taking the head off. */
  lemma ListPop(next: seq<nat>, head: nat, tail: nat, q: seq<nat>)
    requires IsList(next, head, tail, q) && q != []
    ensures next[head] == 0 <==> |q| == 1
    ensures IsList(next, next[head], if next[head] == 0 then 0 else tail, q[1..])
  {
    if |q| > 1 {
      assert next[q[0]] == q[1];
      forall i | 0 <= i < |q[1..]| - 1
        ensures next[q[1..][i]] == q[1..][i + 1]
      {
        assert next[q[i + 1]] == q[i + 2];
      }
    }
  }

  /** Unlinking the slot at position m > 0 by giving its predecessor its link. */
  lemma ListUnlink(next: seq<nat>, head: nat, tail: nat, q: seq<nat>, m: nat)
    requires IsList(next, head, tail, q) && Distinct(q)
    requires 0 < m < |q|
    ensures IsList(next[q[m - 1] := next[q[m]]], head, if tail == q[m] then q[m - 1] else tail, q[..m] + q[m + 1..])
  {
    var n' := next[q[m - 1] := next[q[m]]];
    var q' := q[..m] + q[m + 1..];
    forall x | x in q'
      ensures x in q
    {
    }
    assert q'[0] == q[0];
    assert m < |q| - 1 ==> q'[|q'| - 1] == q[|q| - 1];
    assert m == |q| - 1 ==> q'[|q'| - 1] == q[m - 1];
    assert tail == q[m] <==> m == |q| - 1;
    forall i | 0 <= i < |q'| - 1
      ensures n'[q'[i]] == q'[i + 1]
    {
      if i < m - 1 {
        assert q[i] != q[m - 1];
      } else if i == m - 1 {
        assert next[q[m]] == q[m + 1];
      } else {
        assert q'[i] == q[i + 1] && q'[i + 1] == q[i + 2];
        assert q[m - 1] != q[i + 1];
      }
    }
    if m < |q| - 1 {
      assert q[m - 1] != q[|q| - 1];
    }
  }

  /** The links determine the list: no head, tail and links describe two sequences. */
  lemma {:induction false} ListUnique(next: seq<nat>, head: nat, tail: nat, q: seq<nat>, r: seq<nat>)
    requires IsList(next, head, tail, q) && IsList(next, head, tail, r)
    ensures q == r
  {
    if q != [] {
      assert head in q;
      if |q| <= |r| {
        PrefixAgree(next, head, tail, q, r, |q| - 1);
      } else {
        PrefixAgree(next, head, tail, r, q, |r| - 1);
      }
    }
  }

  lemma {:induction false} PrefixAgree(next: seq<nat>, head: nat, tail: nat, q: seq<nat>, r: seq<nat>, i: nat)
    requires IsList(next, head, tail, q) && IsList(next, head, tail, r)
    requires i < |q| <= |r|
    ensures forall j :: 0 <= j <= i ==> q[j] == r[j]
    ensures i == |q| - 1 ==> |q| == |r|
  {
    if i > 0 {
      PrefixAgree(next, head, tail, q, r, i - 1);
      assert next[q[i - 1]] == q[i] && next[r[i - 1]] == r[i];
    }
    assert i < |r| - 1 ==> next[r[i]] == r[i + 1] && 1 <= r[i + 1];
  }

  lemma {:induction false} WithoutAt(q: seq<nat>, m: nat)
    requires Distinct(q) && m < |q|
    ensures Without(q, q[m]) == q[..m] + q[m + 1..]
  {
    if m == 0 {
      WithoutAbsent(q[1..], q[0]);
      assert q[..0] + q[1..] == q[1..];
    } else {
      WithoutAt(q[1..], m - 1);
      assert q[1..][..m - 1] == q[1..m];
      assert q[1..][m..] == q[m + 1..];
      assert [q[0]] + q[1..m] == q[..m];
    }
  }

  lemma {:induction false} WithoutAbsent(q: seq<nat>, s: nat)
    requires s !in q
    ensures Without(q, s) == q
  {
    if q != [] {
      WithoutAbsent(q[1..], s);
    }
  }

  lemma {:induction false} WithoutDistinct(q: seq<nat>, s: nat)
    requires Distinct(q)
    ensures Distinct(Without(q, s))
  {
    if q != [] {
      WithoutDistinct(q[1..], s);
      var r := Without(q[1..], s);
      forall j | 0 <= j < |r|
        ensures q[0] != r[j]
      {
        assert r[j] in r;
      }
    }
  }
}
