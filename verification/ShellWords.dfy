/** The words of a command line: its maximal runs of bytes that are not blank. */
module ShellWords {
  import opened Bytes

  const SPACE: Byte := 32
  const TAB: Byte := 9

  predicate Blank(c: Byte) {
    c == SPACE || c == TAB
  }

  /** Space and tab separate words, nothing else does. */
  lemma BlankIs(c: Byte)
    ensures Blank(c) <==> c as char == ' ' || c as char == '\t'
  {
  }

  function SkipBlanks(s: seq<Byte>, i: nat): (r: nat)
    requires i <= |s|
    ensures i <= r <= |s| && forall x :: i <= x < r ==> Blank(s[x])
    ensures r < |s| ==> !Blank(s[r])
    decreases |s| - i
  {
    if i == |s| || !Blank(s[i]) then i else SkipBlanks(s, i + 1)
  }

  function WordEnd(s: seq<Byte>, i: nat): (r: nat)
    requires i <= |s|
    ensures i <= r <= |s| && forall x :: i <= x < r ==> !Blank(s[x])
    ensures r < |s| ==> Blank(s[r])
    decreases |s| - i
  {
    if i == |s| || Blank(s[i]) then i else WordEnd(s, i + 1)
  }

  datatype Run = Run(start: nat, end: nat)

  /** The runs from position `i` on, in the order the tokenizer meets them. */
  function Runs(s: seq<Byte>, i: nat): (rs: seq<Run>)
    requires i <= |s|
    ensures forall k :: 0 <= k < |rs| ==> i <= rs[k].start < rs[k].end <= |s|
    decreases |s| - i
  {
    var a := SkipBlanks(s, i);
    if a == |s| then [] else
    var b := WordEnd(s, a);
    [Run(a, b)] + Runs(s, b)
  }

  function Word(s: seq<Byte>, r: Run): seq<Byte>
    requires r.start <= r.end <= |s|
  {
    s[r.start..r.end]
  }

  function WordsAt(s: seq<Byte>, rs: seq<Run>): (ws: seq<seq<Byte>>)
    requires forall k :: 0 <= k < |rs| ==> rs[k].start <= rs[k].end <= |s|
    ensures |ws| == |rs| && forall k :: 0 <= k < |rs| ==> ws[k] == Word(s, rs[k])
  {
    seq(|rs|, k requires 0 <= k < |rs| => Word(s, rs[k]))
  }

  function Words(s: seq<Byte>): (ws: seq<seq<Byte>>) {
    WordsAt(s, Runs(s, 0))
  }

  // ----- the runs are exactly the maximal ones -----

  predicate Maximal(s: seq<Byte>, r: Run) {
    && r.start < r.end <= |s|
    && (forall x :: r.start <= x < r.end ==> !Blank(s[x]))
    && (r.start == 0 || Blank(s[r.start - 1]))
    && (r.end == |s| || Blank(s[r.end]))
  }

  /** A position with no word across it. */
  predicate Between(s: seq<Byte>, i: nat) {
    i <= |s| && (i == 0 || i == |s| || Blank(s[i - 1]) || Blank(s[i]))
  }

  /** Every run is maximal, and they come in order without touching. */
  lemma {:induction false} RunsSound(s: seq<Byte>, i: nat)
    requires Between(s, i)
    ensures forall k :: 0 <= k < |Runs(s, i)| ==> Maximal(s, Runs(s, i)[k])
    ensures forall k :: 0 <= k < |Runs(s, i)| - 1 ==> Runs(s, i)[k].end < Runs(s, i)[k + 1].start
    decreases |s| - i
  {
    var a := SkipBlanks(s, i);
    if a < |s| {
      var b := WordEnd(s, a);
      RunsSound(s, b);
      assert Maximal(s, Run(a, b));
      assert b < |s| ==> SkipBlanks(s, b) > b;
      assert Runs(s, b) != [] ==> Runs(s, b)[0].start > b;
    }
  }

  /** No maximal run is missed. */
  lemma {:induction false} RunsComplete(s: seq<Byte>, i: nat, r: Run)
    requires i <= r.start && Maximal(s, r)
    ensures r in Runs(s, i)
    decreases |s| - i
  {
    var a := SkipBlanks(s, i);
    assert !Blank(s[r.start]);
    assert a <= r.start;
    var b := WordEnd(s, a);
    if r.start == a {
      assert b == r.end;
    } else {
      assert r.start >= b;
      RunsComplete(s, b, r);
    }
  }

  // ----- joining words with single spaces -----

  function Join(ts: seq<seq<Byte>>): seq<Byte> {
    if ts == [] then []
    else if |ts| == 1 then ts[0]
    else ts[0] + [SPACE] + Join(ts[1..])
  }

  ghost predicate Plain(t: seq<Byte>) {
    t != [] && forall x :: 0 <= x < |t| ==> !Blank(t[x])
  }

  ghost predicate AllPlain(ts: seq<seq<Byte>>) {
    forall k :: 0 <= k < |ts| ==> Plain(ts[k])
  }

  lemma {:induction false} WordEndIs(s: seq<Byte>, i: nat, e: nat)
    requires i <= e <= |s| && (forall x :: i <= x < e ==> !Blank(s[x])) && (e == |s| || Blank(s[e]))
    ensures WordEnd(s, i) == e
    decreases |s| - i
  {
    if i < e {
      WordEndIs(s, i + 1, e);
    }
  }

  lemma RunsAfterBlank(s: seq<Byte>, i: nat)
    requires i < |s| && Blank(s[i])
    ensures Runs(s, i) == Runs(s, i + 1)
  {
  }

  lemma FirstRun(s: seq<Byte>, i: nat, t: seq<Byte>, rest: seq<Byte>)
    requires i <= |s| && s[i..] == t + rest && Plain(t) && (rest == [] || Blank(rest[0]))
    ensures Runs(s, i) == [Run(i, i + |t|)] + Runs(s, i + |t|) && Word(s, Run(i, i + |t|)) == t
    ensures s[i + |t|..] == rest
  {
    TailParts(s, i, t, rest);
    WordEndIs(s, i, i + |t|);
  }

  lemma TailParts(s: seq<Byte>, i: nat, t: seq<Byte>, rest: seq<Byte>)
    requires i <= |s| && s[i..] == t + rest
    ensures i + |t| <= |s| && s[i..i + |t|] == t && s[i + |t|..] == rest
    ensures forall x :: i <= x < i + |t| ==> s[x] == t[x - i]
    ensures rest != [] ==> s[i + |t|] == rest[0]
  {
    assert forall x :: i <= x < |s| ==> s[x] == s[i..][x - i];
    assert s[i..][..|t|] == t;
    assert s[i..][|t|..] == rest;
  }

  lemma JoinStep(ts: seq<seq<Byte>>)
    requires |ts| > 1
    ensures Join(ts) == ts[0] + ([SPACE] + Join(ts[1..]))
  {
  }

  lemma WordAndSpace(s: seq<Byte>, i: nat, t: seq<Byte>, rest: seq<Byte>)
    requires i <= |s| && s[i..] == t + ([SPACE] + rest) && Plain(t)
    ensures i + |t| + 1 <= |s| && s[i + |t| + 1..] == rest
    ensures Runs(s, i) == [Run(i, i + |t|)] + Runs(s, i + |t| + 1) && Word(s, Run(i, i + |t|)) == t
  {
    FirstRun(s, i, t, [SPACE] + rest);
    TailParts(s, i + |t|, [SPACE], rest);
    RunsAfterBlank(s, i + |t|);
  }

  lemma FirstWord(s: seq<Byte>, r: Run, rs: seq<Run>)
    requires r.start <= r.end <= |s| && forall k :: 0 <= k < |rs| ==> rs[k].start <= rs[k].end <= |s|
    ensures WordsAt(s, [r] + rs) == [Word(s, r)] + WordsAt(s, rs)
  {
  }

  lemma AfterWord(s: seq<Byte>, i: nat, t: seq<Byte>, tail: seq<Byte>)
    requires i <= |s| && s[i..] == t + ([SPACE] + tail)
    ensures i + |t| + 1 <= |s| && s[i + |t| + 1..] == tail
  {
    TailParts(s, i, t, [SPACE] + tail);
    TailParts(s, i + |t|, [SPACE], tail);
  }

  lemma {:induction false} JoinedRuns(s: seq<Byte>, i: nat, ts: seq<seq<Byte>>) returns (rs: seq<Run>)
    requires i <= |s| && s[i..] == Join(ts) && AllPlain(ts)
    ensures rs == Runs(s, i) && WordsAt(s, rs) == ts
    decreases |ts|
  {
    if ts == [] {
      rs := [];
    } else if |ts| == 1 {
      var t := ts[0];
      assert t == t + [];
      FirstRun(s, i, t, []);
      rs := [Run(i, i + |t|)];
    } else {
      var t, rest := ts[0], ts[1..];
      JoinStep(ts);
      AfterWord(s, i, t, Join(rest));
      var tail := JoinedRuns(s, i + |t| + 1, rest);
      WordAndSpace(s, i, t, Join(rest));
      rs := [Run(i, i + |t|)] + tail;
      FirstWord(s, Run(i, i + |t|), tail);
      assert ts == [t] + rest;
    }
  }

  /** Splitting a joined list gives the list back. */
  lemma JoinSplits(ts: seq<seq<Byte>>)
    requires AllPlain(ts)
    ensures Words(Join(ts)) == ts
  {
    assert Join(ts)[0..] == Join(ts);
    var rs := JoinedRuns(Join(ts), 0, ts);
  }

  // ----- cutting the buffer into C strings -----

  /** The buffer with a NUL at the end of each run. */
  function Cut(b: seq<Byte>, rs: seq<Run>): (c: seq<Byte>)
    requires forall k :: 0 <= k < |rs| ==> rs[k].end < |b|
    ensures |c| == |b|
  {
    if rs == [] then b else Cut(b, rs[..|rs| - 1])[rs[|rs| - 1].end := 0]
  }

  lemma {:induction false} CutAt(b: seq<Byte>, rs: seq<Run>, x: nat)
    requires (forall k :: 0 <= k < |rs| ==> rs[k].end < |b|) && x < |b|
    ensures Cut(b, rs)[x] == if exists k :: 0 <= k < |rs| && rs[k].end == x then 0 else b[x]
  {
    if rs != [] {
      var n := |rs| - 1;
      CutAt(b, rs[..n], x);
      if exists k :: 0 <= k < n && rs[..n][k].end == x {
        var k :| 0 <= k < n && rs[..n][k].end == x;
        assert rs[k].end == x;
      }
      if exists k :: 0 <= k < |rs| && rs[k].end == x {
        var k :| 0 <= k < |rs| && rs[k].end == x;
        assert k < n ==> rs[..n][k].end == x;
      }
    }
  }

  lemma CutKeepsWords(b: seq<Byte>, rs: seq<Run>, k: nat, x: nat)
    requires Terminated(b) && rs <= Runs(CStr(b), 0) && k < |rs| && rs[k].start <= x < rs[k].end
    ensures Cut(b, rs)[x] == b[x]
  {
    var s := CStr(b);
    RunsSound(s, 0);
    forall j | 0 <= j < |rs| ensures rs[j].end != x {
      EndsOutside(s, rs[j], rs[k], x);
    }
    CutAt(b, rs, x);
  }

  lemma EndsOutside(s: seq<Byte>, r: Run, q: Run, x: nat)
    requires Maximal(s, r) && Maximal(s, q) && q.start <= x < q.end
    ensures r.end != x
  {
  }

  lemma CStrAt(c: seq<Byte>, lo: nat, w: seq<Byte>)
    requires lo + |w| < |c| && c[lo + |w|] == 0 && 0 !in w && forall x :: lo <= x < lo + |w| ==> c[x] == w[x - lo]
    ensures CStr(c[lo..]) == w
  {
    assert c[lo..][..|w|] == w;
    CStrOf(w, c[lo..]);
  }

  lemma CutWord(b: seq<Byte>, rs: seq<Run>, k: nat)
    requires Terminated(b) && rs <= Runs(CStr(b), 0) && k < |rs|
    ensures forall x :: rs[k].start <= x < rs[k].end ==> Cut(b, rs)[x] == CStr(b)[x]
    ensures Cut(b, rs)[rs[k].end] == 0
  {
    forall x | rs[k].start <= x < rs[k].end ensures Cut(b, rs)[x] == CStr(b)[x] {
      CutKeepsWords(b, rs, k, x);
    }
    CutAt(b, rs, rs[k].end);
  }

  lemma WordReads(c: seq<Byte>, s: seq<Byte>, r: Run)
    requires r.start <= r.end <= |s| && r.end < |c| && 0 !in s && c[r.end] == 0
    requires forall x :: r.start <= x < r.end ==> c[x] == s[x]
    ensures CStr(c[r.start..]) == Word(s, r)
  {
    CStrAt(c, r.start, Word(s, r));
  }

  /** In the cut buffer each word is a C string at its own start. */
  lemma CutReads(b: seq<Byte>, rs: seq<Run>, k: nat)
    requires Terminated(b) && rs <= Runs(CStr(b), 0) && k < |rs|
    ensures CStr(Cut(b, rs)[rs[k].start..]) == Word(CStr(b), rs[k])
  {
    CutWord(b, rs, k);
    WordReads(Cut(b, rs), CStr(b), rs[k]);
  }
}
