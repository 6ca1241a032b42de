/** handle_readdir: live names in slot order, a newline after each, as many as fit. */
module VfsListing {
  import opened Bytes
  import opened VfsTable
  import opened VfsFiles

  const NEWLINE: Byte := 10

  /** The names of the used slots from `i` on. */
  function LiveNames(t: Table, i: nat): seq<seq<Byte>>
    requires i <= |t|
    decreases |t| - i
  {
    if i == |t| then [] else (if t[i].used then [CStr(t[i].name)] else []) + LiveNames(t, i + 1)
  }

  /** What the loop writes for these names when `written` bytes are in the reply already. */
  function Emit(ns: seq<seq<Byte>>, written: nat): seq<Byte> {
    if ns == [] || written + |ns[0]| + 2 >= DATA_SIZE then []
    else ns[0] + [NEWLINE] + Emit(ns[1..], written + |ns[0]| + 1)
  }

  function Joined(ns: seq<seq<Byte>>): seq<Byte> {
    if ns == [] then [] else ns[0] + [NEWLINE] + Joined(ns[1..])
  }

  /** Splitting at newlines. */
  function Lines(s: seq<Byte>, line: seq<Byte>): seq<seq<Byte>> {
    if s == [] then []
    else if s[0] == NEWLINE then [line] + Lines(s[1..], [])
    else Lines(s[1..], line + [s[0]])
  }

  /** How many names are written. */
  function Count(ns: seq<seq<Byte>>, written: nat): (k: nat)
    ensures k <= |ns|
  {
    if ns == [] || written + |ns[0]| + 2 >= DATA_SIZE then 0
    else 1 + Count(ns[1..], written + |ns[0]| + 1)
  }

  /** The reply is the first names joined; it has at most 510 bytes; every name is in it
      exactly when all of them joined have at most 510 bytes, and otherwise the next
      name would not fit. */
  lemma {:induction false} EmitPrefix(ns: seq<seq<Byte>>, written: nat)
    requires written <= 510
    ensures var k := Count(ns, written);
            && Emit(ns, written) == Joined(ns[..k])
            && written + |Emit(ns, written)| <= 510
            && (k == |ns| <==> written + |Joined(ns)| <= 510)
            && (k < |ns| ==> written + |Emit(ns, written)| + |ns[k]| + 1 > 510)
  {
    if ns != [] && written + |ns[0]| + 2 < DATA_SIZE {
      EmitPrefix(ns[1..], written + |ns[0]| + 1);
      var k := Count(ns, written);
      assert ns[..k][1..] == ns[1..][..k - 1];
    }
  }

  lemma {:induction false} LinesPrefix(line: seq<Byte>, n: seq<Byte>, rest: seq<Byte>)
    requires NEWLINE !in n
    ensures Lines(n + [NEWLINE] + rest, line) == [line + n] + Lines(rest, [])
    decreases |n|
  {
    var s := n + [NEWLINE] + rest;
    if n == [] {
      assert s[1..] == rest && line + n == line;
    } else {
      assert s[1..] == n[1..] + [NEWLINE] + rest;
      LinesPrefix(line + [n[0]], n[1..], rest);
      assert line + [n[0]] + n[1..] == line + n;
    }
  }

  lemma {:induction false} LinesJoined(ns: seq<seq<Byte>>)
    requires forall i :: 0 <= i < |ns| ==> NEWLINE !in ns[i]
    ensures Lines(Joined(ns), []) == ns
  {
    if ns != [] {
      LinesPrefix([], ns[0], Joined(ns[1..]));
      LinesJoined(ns[1..]);
      assert [] + ns[0] == ns[0];
    }
  }

  /** Splitting the reply at newlines gives back the names it lists, if no name has one. */
  lemma ListingRoundTrip(t: Table)
    requires forall i :: 0 <= i < |LiveNames(t, 0)| ==> NEWLINE !in LiveNames(t, 0)[i]
    ensures Lines(Emit(LiveNames(t, 0), 0), []) == LiveNames(t, 0)[..Count(LiveNames(t, 0), 0)]
  {
    var ns := LiveNames(t, 0);
    EmitPrefix(ns, 0);
    LinesJoined(ns[..Count(ns, 0)]);
  }

  /** The listed names are the names of the map, each once. */
  lemma {:induction false} LiveNamesAre(t: Table, i: nat)
    requires i <= |t|
    ensures forall p :: p in LiveNames(t, i) <==> exists j :: i <= j < |t| && Live(t, j) && Name(t[j]) == p
    decreases |t| - i
  {
    if i < |t| {
      LiveNamesAre(t, i + 1);
      assert t[i].used <==> Live(t, i);
    }
  }

  lemma ListsContents(t: Table)
    requires Distinct(t)
    ensures forall p :: p in LiveNames(t, 0) <==> p in Contents(t)
  {
    LiveNamesAre(t, 0);
    ContentsAt(t);
  }
}
