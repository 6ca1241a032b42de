/** The file table refines a finite map from names to contents. */
module VfsFiles {
  import opened Bytes
  import opened VfsTable

  datatype Content = Content(bytes: seq<Byte>, flags: nat)

  type Files = map<seq<Byte>, Content>

  function Name(f: File): (n: seq<Byte>)
    ensures |n| <= |f.name|
  {
    CStr(f.name)
  }

  function ContentOf(f: File): Content {
    Content(if f.size <= |f.data| then f.data[..f.size] else [], f.flags)
  }

  /** Live names are distinct and terminated, and sizes within the data. */
  ghost predicate Distinct(t: Table) {
    forall i, j {:trigger Live(t, i), Live(t, j)} :: Live(t, i) && Live(t, j) && i != j ==> Name(t[i]) != Name(t[j])
  }

  ghost predicate Live(t: Table, i: int) {
    0 <= i < |t| && t[i].used
  }

  ghost predicate Inv(t: Table) {
    && Shape(t) && Distinct(t)
    && forall i :: 0 <= i < |t| ==> EntryOk(t[i])
  }

  ghost predicate EntryOk(f: File) {
    if f.used then Terminated(f.name) && f.size <= MAX_FILE_SIZE else f.size == 0
  }

  /** The map a table stands for. */
  ghost function Contents(t: Table): Files {
    if t == [] then map[]
    else
      var f, rest := t[|t| - 1], Contents(t[..|t| - 1]);
      if f.used then rest[Name(f) := ContentOf(f)] else rest
  }

  lemma {:induction false} ContentsAt(t: Table)
    requires Distinct(t)
    ensures forall i {:trigger Live(t, i)} :: Live(t, i) ==> Name(t[i]) in Contents(t) && Contents(t)[Name(t[i])] == ContentOf(t[i])
    ensures forall p :: p in Contents(t) ==> exists i :: Live(t, i) && Name(t[i]) == p
  {
    if t != [] {
      var n := |t| - 1;
      var s := t[..n];
      assert forall i :: Live(s, i) ==> Live(t, i) && s[i] == t[i];
      ContentsAt(s);
      forall i | Live(t, i) ensures Name(t[i]) in Contents(t) && Contents(t)[Name(t[i])] == ContentOf(t[i]) {
        if i < n {
          assert Live(s, i);
          assert Live(t, n) ==> Name(t[n]) != Name(t[i]);
        }
      }
      forall p | p in Contents(t) ensures exists i :: Live(t, i) && Name(t[i]) == p {
        if p in Contents(s) {
          var i :| Live(s, i) && Name(s[i]) == p;
          assert Live(t, i);
        } else {
          assert Live(t, n);
        }
      }
    }
  }

  /** A map with the entry of every live file, and no others, is the table's map. */
  lemma ContentsIs(t: Table, m: Files)
    requires Distinct(t)
    requires forall i {:trigger Live(t, i)} :: Live(t, i) ==> Name(t[i]) in m && m[Name(t[i])] == ContentOf(t[i])
    requires forall p :: p in m ==> exists i :: Live(t, i) && Name(t[i]) == p
    ensures Contents(t) == m
  {
    ContentsAt(t);
    var c := Contents(t);
    forall p | p in c ensures p in m && m[p] == c[p] {
      var i :| Live(t, i) && Name(t[i]) == p;
    }
    forall p | p in m ensures p in c {
      var i :| Live(t, i) && Name(t[i]) == p;
    }
  }

  /** file_find is a lookup in the map. */
  lemma FindIsLookup(t: Table, path: seq<Byte>)
    requires Distinct(t)
    ensures Find(t, path, 0) < |t| <==> path in Contents(t)
    ensures Find(t, path, 0) < |t| ==> Live(t, Find(t, path, 0)) && Contents(t)[path] == ContentOf(t[Find(t, path, 0)])
  {
    ContentsAt(t);
    var i := Find(t, path, 0);
    assert i < |t| ==> Live(t, i);
    if path in Contents(t) {
      var j :| Live(t, j) && Name(t[j]) == path;
    }
  }

  // ----- the table is full when the map has 64 names -----

  function Used(t: Table): (n: nat)
    ensures n <= |t|
  {
    if t == [] then 0 else Used(t[..|t| - 1]) + if t[|t| - 1].used then 1 else 0
  }

  lemma {:induction false} CountsFiles(t: Table)
    requires Distinct(t)
    ensures |Contents(t)| == Used(t)
  {
    if t != [] {
      var n := |t| - 1;
      var s := t[..n];
      assert forall i :: Live(s, i) ==> Live(t, i) && s[i] == t[i];
      CountsFiles(s);
      ContentsAt(s);
      if t[n].used {
        assert Live(t, n);
        assert Name(t[n]) !in Contents(s);
      }
    }
  }

  lemma {:induction false} UsedAll(t: Table)
    ensures Used(t) == |t| <==> forall i :: 0 <= i < |t| ==> t[i].used
  {
    if t != [] {
      var s := t[..|t| - 1];
      UsedAll(s);
      assert forall i :: 0 <= i < |s| ==> s[i] == t[i];
    }
  }

  lemma FullIff(t: Table)
    requires Distinct(t)
    ensures FindFree(t, 0) == |t| <==> |Contents(t)| == |t|
  {
    CountsFiles(t);
    UsedAll(t);
  }

  // ----- changing one entry -----

  /** A live entry changed in place, its name kept. */
  lemma ContentsUpdate(t: Table, i: nat, f: File)
    requires Distinct(t) && Live(t, i) && f.used && Name(f) == Name(t[i])
    ensures Distinct(t[i := f]) && Contents(t[i := f]) == Contents(t)[Name(f) := ContentOf(f)]
  {
    var u := t[i := f];
    assert forall j :: Live(u, j) <==> Live(t, j);
    ContentsAt(t);
    var m := Contents(t)[Name(f) := ContentOf(f)];
    forall p | p in m ensures exists j :: Live(u, j) && Name(u[j]) == p {
      if p == Name(f) {
        assert Live(u, i);
      } else {
        var j :| Live(t, j) && Name(t[j]) == p;
        assert Live(u, j);
      }
    }
    ContentsIs(u, m);
  }

  lemma ContentsInsert(t: Table, i: nat, f: File)
    requires Distinct(t) && i < |t| && !t[i].used && f.used && Name(f) !in Contents(t)
    ensures Distinct(t[i := f]) && Contents(t[i := f]) == Contents(t)[Name(f) := ContentOf(f)]
  {
    var u := t[i := f];
    ContentsAt(t);
    forall j | Live(u, j) && j != i ensures Live(t, j) && Name(t[j]) != Name(f) {
      assert Live(t, j);
    }
    var m := Contents(t)[Name(f) := ContentOf(f)];
    forall p | p in m ensures exists j :: Live(u, j) && Name(u[j]) == p {
      if p == Name(f) {
        assert Live(u, i);
      } else {
        var j :| Live(t, j) && Name(t[j]) == p;
        assert Live(u, j);
      }
    }
    ContentsIs(u, m);
  }

  lemma ContentsRemove(t: Table, i: nat, f: File)
    requires Distinct(t) && Live(t, i) && !f.used
    ensures Distinct(t[i := f]) && Contents(t[i := f]) == Contents(t) - {Name(t[i])}
  {
    var u := t[i := f];
    ContentsAt(t);
    forall j | Live(u, j) ensures Live(t, j) && j != i && Name(t[j]) != Name(t[i]) {
      assert Live(t, j);
    }
    var m := Contents(t) - {Name(t[i])};
    forall p | p in m ensures exists j :: Live(u, j) && Name(u[j]) == p {
      var j :| Live(t, j) && Name(t[j]) == p;
      assert Live(u, j);
    }
    ContentsIs(u, m);
  }
}
