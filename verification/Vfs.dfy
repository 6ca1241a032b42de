/** The filesystem server in the form of servers/vfs/vfs.c: static arrays updated in place
    by each request handler. The replies go back as values. */
module Vfs {
  import opened Bytes
  import opened VfsTable
  import opened VfsRuns
  import opened VfsListing
  import opened Words

  ghost function Row(a: array2<Byte>, i: nat): (r: seq<Byte>)
    requires i < a.Length0
    reads a
    ensures |r| == a.Length1 && forall j :: 0 <= j < |r| ==> r[j] == a[i, j]
  {
    seq(a.Length1, j requires 0 <= j < a.Length1 reads a => a[i, j])
  }

  /** Used slots have NUL-terminated names. */
  ghost predicate Named(t: Table) {
    forall i :: 0 <= i < |t| && t[i].used ==> Terminated(t[i].name)
  }

  class Vfs {
    const names: array2<Byte>
    const data: array2<Byte>
    const sizes: array<nat>
    const flags: array<nat>
    const used: array<bool>

    constructor ()
      ensures Valid() && fresh(names) && fresh(data) && fresh(sizes) && fresh(flags) && fresh(used)
      ensures View() == seq(MAX_FILES, i => EmptyFile)
    {
      names := new Byte[MAX_FILES, NAME_SIZE]((i, j) => 0);
      data := new Byte[MAX_FILES, MAX_FILE_SIZE]((i, j) => 0);
      sizes := new nat[MAX_FILES](_ => 0);
      flags := new nat[MAX_FILES](_ => 0);
      used := new bool[MAX_FILES](_ => false);
      new;
      AllEmpty();
    }

    lemma AllEmpty()
      requires Arrays()
      requires forall i, j :: 0 <= i < MAX_FILES && 0 <= j < NAME_SIZE ==> names[i, j] == 0
      requires forall i, j :: 0 <= i < MAX_FILES && 0 <= j < MAX_FILE_SIZE ==> data[i, j] == 0
      requires forall i :: 0 <= i < MAX_FILES ==> sizes[i] == 0 && flags[i] == 0 && !used[i]
      ensures Valid() && View() == seq(MAX_FILES, i => EmptyFile)
    {
      forall i | 0 <= i < MAX_FILES ensures FileAt(i) == EmptyFile {
        assert Row(names, i) == Zeros(NAME_SIZE) && Row(data, i) == Zeros(MAX_FILE_SIZE);
      }
    }

    ghost predicate Arrays() {
      && names.Length0 == data.Length0 == sizes.Length == flags.Length == used.Length == MAX_FILES
      && names.Length1 == NAME_SIZE && data.Length1 == MAX_FILE_SIZE
      && names != data && sizes != flags
    }

    ghost function FileAt(i: nat): File
      requires Arrays() && i < MAX_FILES
      reads names, data, sizes, flags, used
    {
      File(Row(names, i), Row(data, i), sizes[i], flags[i], used[i])
    }

    ghost function View(): (t: Table)
      requires Arrays()
      reads names, data, sizes, flags, used
    {
      seq(MAX_FILES, i requires 0 <= i < MAX_FILES reads names, data, sizes, flags, used => FileAt(i))
    }

    ghost predicate Valid()
      reads names, data, sizes, flags, used
    {
      Arrays() && Shape(View()) && Named(View())
    }

    /** strcmp of the name in slot `i` with the string at the start of a buffer. */
    method StrCmp(i: nat, s: array<Byte>) returns (r: int)
      requires Arrays() && i < MAX_FILES && Terminated(Row(names, i)) && s.Length >= NAME_SIZE
      ensures r == 0 <==> CStr(Row(names, i)) == CStr(s[..])
    {
      ghost var name := Row(names, i);
      var k := 0;
      while names[i, k] != 0 && names[i, k] == s[k]
        invariant 0 <= k <= |CStr(name)|
        invariant name[..k] == s[..k] && 0 !in name[..k]
        decreases NAME_SIZE - k
      {
        assert k < |CStr(name)| by { CStrLonger(name, k); }
        k := k + 1;
      }
      r := names[i, k] - s[k];
      SameCStr(name, s[..], k);
    }

    method FileFind(path: array<Byte>) returns (i: nat)
      requires Valid() && path.Length >= NAME_SIZE
      ensures i == Find(View(), CStr(path[..]), 0)
    {
      ghost var t, name := View(), CStr(path[..]);
      i := 0;
      while i < MAX_FILES
        invariant i <= MAX_FILES && Find(t, name, 0) == Find(t, name, i)
      {
        assert t[i] == FileAt(i);
        if used[i] {
          assert Terminated(t[i].name);
          var c := StrCmp(i, path);
          if c == 0 {
            return;
          }
        }
        i := i + 1;
      }
    }

    method FileFindFree() returns (i: nat)
      requires Valid()
      ensures i == FindFree(View(), 0)
    {
      i := 0;
      while i < MAX_FILES && used[i]
        invariant i <= MAX_FILES && FindFree(View(), 0) == FindFree(View(), i)
      {
        i := i + 1;
      }
    }

    /** strncpy into the name of slot `i`, as the file writes it. */
    method StrNCpyName(i: nat, src: seq<Byte>, n: nat)
      requires Arrays() && i < MAX_FILES && n < NAME_SIZE && (n <= |src| || Terminated(src))
      modifies names
      ensures Row(names, i) == StrNCpy(old(Row(names, i)), src, n)
      ensures forall j :: 0 <= j < MAX_FILES && j != i ==> Row(names, j) == old(Row(names, j))
    {
      ghost var dest, s := Row(names, i), src;
      ghost var k := |CStr(s)|;
      var d, left, more := 0, n, true;
      while left > 0 && more
        invariant 0 <= left <= n && d <= |s| && d <= NAME_SIZE
        invariant more ==> d == n - left && d <= k
        invariant !more ==> d == k + 1 && k < n && left == n - k
        invariant forall j :: 0 <= j < d ==> names[i, j] == s[j]
        invariant forall j :: d <= j < NAME_SIZE ==> names[i, j] == dest[j]
        invariant OthersKept(i, old(Rows()))
        decreases left + if more then 1 else 0
      {
        names[i, d] := src[d];
        more := src[d] != 0;
        CStrAt(s, d);
        d := d + 1;
        if more {
          left := left - 1;
        }
      }
      while left > 0
        invariant 0 <= left && d <= NAME_SIZE
        invariant more ==> left == 0 && d == n && n <= k
        invariant !more ==> k < n && d + left == n + 1 && d > k
        invariant forall j :: 0 <= j < d ==> names[i, j] == if j < k then s[j] else 0
        invariant forall j :: d <= j < NAME_SIZE ==> names[i, j] == dest[j]
        invariant OthersKept(i, old(Rows()))
      {
        names[i, d] := 0;
        d, left := d + 1, left - 1;
      }
      assert Row(names, i) == StrNCpy(dest, s, n);
    }

    ghost function Rows(): (r: seq<seq<Byte>>)
      requires Arrays()
      reads names
      ensures |r| == MAX_FILES && forall j :: 0 <= j < MAX_FILES ==> r[j] == Row(names, j)
    {
      seq(MAX_FILES, j requires 0 <= j < MAX_FILES reads names => Row(names, j))
    }

    ghost predicate OthersKept(i: nat, rows: seq<seq<Byte>>)
      requires Arrays() && |rows| == MAX_FILES
      reads names
    {
      forall j :: 0 <= j < MAX_FILES && j != i ==> Row(names, j) == rows[j]
    }

    /** memcpy into the data of slot `i`. */
    method MemCpyData(i: nat, off: nat, src: seq<Byte>, n: nat)
      requires Arrays() && i < MAX_FILES && off + n <= MAX_FILE_SIZE && n <= |src|
      modifies data
      ensures Row(data, i) == old(Row(data, i))[..off] + src[..n] + old(Row(data, i))[off + n..]
      ensures forall o :: 0 <= o < MAX_FILES && o != i ==> Row(data, o) == old(Row(data, o))
    {
      ghost var before := Row(data, i);
      var d := 0;
      while d < n
        invariant d <= n
        invariant forall j :: 0 <= j < MAX_FILE_SIZE ==> data[i, j] == if off <= j < off + d then src[j - off] else before[j]
        invariant forall o :: 0 <= o < MAX_FILES && o != i ==> Row(data, o) == old(Row(data, o))
      {
        data[i, off + d] := src[d];
        d := d + 1;
      }
      assert Row(data, i) == before[..off] + src[..n] + before[off + n..];
    }

    /** memset to zero in the data of slot `i`. */
    method ClearData(i: nat, off: nat, n: nat)
      requires Arrays() && i < MAX_FILES && off + n <= MAX_FILE_SIZE
      modifies data
      ensures Row(data, i) == old(Row(data, i))[..off] + Zeros(n) + old(Row(data, i))[off + n..]
      ensures forall o :: 0 <= o < MAX_FILES && o != i ==> Row(data, o) == old(Row(data, o))
    {
      ghost var before := Row(data, i);
      var d := 0;
      while d < n
        invariant d <= n
        invariant forall j :: 0 <= j < MAX_FILE_SIZE ==> data[i, j] == if off <= j < off + d then 0 else before[j]
        invariant forall o :: 0 <= o < MAX_FILES && o != i ==> Row(data, o) == old(Row(data, o))
      {
        data[i, off + d] := 0;
        d := d + 1;
      }
      assert Row(data, i) == before[..off] + Zeros(n) + before[off + n..];
    }

    /** memcpy from the data of slot `i` into a reply. */
    method MemCpyOut(i: nat, off: nat, n: nat) returns (out: seq<Byte>)
      requires Arrays() && i < MAX_FILES && off + n <= MAX_FILE_SIZE && n <= DATA_SIZE
      ensures out == Row(data, i)[off..off + n]
    {
      var buffer := new Byte[DATA_SIZE](_ => 0);
      var d := 0;
      while d < n
        invariant d <= n && buffer[..d] == Row(data, i)[off..off + d]
      {
        buffer[d] := data[i, off + d];
        d := d + 1;
      }
      out := buffer[..n];
    }

    ghost predicate IsRequest(arg0: nat, arg1: nat, buf: array<Byte>) {
      buf.Length == DATA_SIZE && arg0 < WORD && arg1 < WORD
    }

    /** The size of a transfer, cut off at `limit` in 64-bit arithmetic. */
    method Clip(limit: nat, arg0: nat, arg1: nat) returns (size: nat)
      requires limit < WORD && arg0 < WORD && arg1 < WORD
      ensures size == ReadCount(limit, arg0, arg1)
    {
      size := arg1;
      if (arg0 + size) % WORD > limit {
        size := (limit + WORD - arg0) % WORD;
      }
    }

    method HandleRead(arg0: nat, arg1: nat, buf: array<Byte>) returns (reply: Reply)
      requires Valid() && IsRequest(arg0, arg1, buf)
      ensures reply == VfsTable.HandleRead(View(), Message(arg0, arg1, buf[..]))
    {
      var i := FileFind(buf);
      if i == MAX_FILES {
        return Refusal;
      }
      var size := Clip(sizes[i], arg0, arg1);
      if size > DATA_SIZE || arg0 + size > MAX_FILE_SIZE {
        return OutOfBounds;
      }
      var out := MemCpyOut(i, arg0, size);
      reply := Reply(size, 0, out);
    }

    /** The copy of a write, and the new size if the file has grown. */
    method WriteTo(i: nat, off: nat, src: seq<Byte>, n: nat)
      requires Arrays() && i < MAX_FILES && n <= |src| && off + n <= MAX_FILE_SIZE
      modifies data, sizes
      ensures var f := old(FileAt(i));
              FileAt(i) == f.(data := f.data[..off] + src[..n] + f.data[off + n..],
                              size := if off + n > f.size then off + n else f.size)
      ensures forall j :: 0 <= j < MAX_FILES && j != i ==> FileAt(j) == old(FileAt(j))
    {
      MemCpyData(i, off, src, n);
      if off + n > sizes[i] {
        sizes[i] := off + n;
      }
    }

    method HandleWrite(arg0: nat, arg1: nat, buf: array<Byte>) returns (reply: Reply)
      requires Valid() && IsRequest(arg0, arg1, buf)
      modifies data, sizes
      ensures Valid() && (View(), reply) == VfsTable.HandleWrite(old(View()), Message(arg0, arg1, buf[..]))
    {
      var i := FileFind(buf);
      if i == MAX_FILES {
        return Refusal;
      }
      var size := Clip(MAX_FILE_SIZE, arg0, arg1);
      if size > DATA_SIZE || arg0 + size > MAX_FILE_SIZE {
        return OutOfBounds;
      }
      WriteTo(i, arg0, buf[..], size);
      reply := Reply(size, 0, []);
      Changed(i, old(View()), VfsTable.HandleWrite(old(View()), Message(arg0, arg1, buf[..])).0);
    }

    /** The new size, and zeros in what it cuts off. */
    method Resize(i: nat, size: nat)
      requires Arrays() && i < MAX_FILES && size <= MAX_FILE_SIZE && (size < sizes[i] ==> sizes[i] <= MAX_FILE_SIZE)
      modifies data, sizes
      ensures var f := old(FileAt(i));
              FileAt(i) == if size < f.size
                           then f.(data := f.data[..size] + Zeros(f.size - size) + f.data[f.size..], size := size)
                           else f.(size := size)
      ensures forall j :: 0 <= j < MAX_FILES && j != i ==> FileAt(j) == old(FileAt(j))
    {
      if size < sizes[i] {
        ClearData(i, size, sizes[i] - size);
      }
      sizes[i] := size;
    }

    method HandleTruncate(arg0: nat, arg1: nat, buf: array<Byte>) returns (reply: Reply)
      requires Valid() && IsRequest(arg0, arg1, buf)
      modifies data, sizes
      ensures Valid() && (View(), reply) == VfsTable.HandleTruncate(old(View()), Message(arg0, arg1, buf[..]))
    {
      var i := FileFind(buf);
      if i == MAX_FILES {
        return Refusal;
      }
      var size := arg0;
      if size > MAX_FILE_SIZE {
        size := MAX_FILE_SIZE;
      }
      if size < sizes[i] && sizes[i] > MAX_FILE_SIZE {
        return OutOfBounds;
      }
      Resize(i, size);
      reply := Reply(0, 0, []);
      Changed(i, old(View()), VfsTable.HandleTruncate(old(View()), Message(arg0, arg1, buf[..])).0);
    }

    method HandleDelete(arg0: nat, arg1: nat, buf: array<Byte>) returns (reply: Reply)
      requires Valid() && IsRequest(arg0, arg1, buf)
      modifies used, sizes
      ensures Valid() && (View(), reply) == VfsTable.HandleDelete(old(View()), Message(arg0, arg1, buf[..]))
    {
      var i := FileFind(buf);
      if i == MAX_FILES {
        return Refusal;
      }
      used[i] := false;
      sizes[i] := 0;
      reply := Reply(0, 0, []);
      Changed(i, old(View()), VfsTable.HandleDelete(old(View()), Message(arg0, arg1, buf[..])).0);
    }

    method StoreName(i: nat, src: seq<Byte>)
      requires Arrays() && i < MAX_FILES && |src| == DATA_SIZE
      modifies names
      ensures Row(names, i) == StrNCpy(old(Row(names, i)), src, 63)[63 := 0]
      ensures forall j :: 0 <= j < MAX_FILES && j != i ==> Row(names, j) == old(Row(names, j))
    {
      StrNCpyName(i, src, 63);
      ghost var copied := Row(names, i);
      names[i, 63] := 0;
      assert Row(names, i) == copied[63 := 0];
    }

    /** The statements that fill a free slot; its data stays as it is. */
    method FillEntry(i: nat, arg0: nat, buf: array<Byte>)
      requires Arrays() && i < MAX_FILES && buf.Length == DATA_SIZE
      modifies names, sizes, flags, used
      ensures FileAt(i) == File(StrNCpy(old(FileAt(i)).name, buf[..], 63)[63 := 0], old(FileAt(i)).data, 0, arg0 % 0x1_0000_0000, true)
      ensures forall j :: 0 <= j < MAX_FILES && j != i ==> FileAt(j) == old(FileAt(j))
    {
      StoreName(i, buf[..]);
      sizes[i], flags[i], used[i] := 0, arg0 % 0x1_0000_0000, true;
    }

    method HandleCreate(arg0: nat, arg1: nat, buf: array<Byte>) returns (reply: Reply)
      requires Valid() && IsRequest(arg0, arg1, buf)
      modifies names, sizes, flags, used
      ensures Valid() && (View(), reply) == VfsTable.HandleCreate(old(View()), Message(arg0, arg1, buf[..]))
    {
      var found := FileFind(buf);
      if found < MAX_FILES {
        return Refusal;
      }
      var i := FileFindFree();
      if i == MAX_FILES {
        return Refusal;
      }
      ghost var t, m := View(), Message(arg0, arg1, buf[..]);
      CreateResult(t, m, i);
      FillEntry(i, arg0, buf);
      Changed(i, t, VfsTable.HandleCreate(t, m).0);
      reply := Reply(0, 0, []);
    }

    method ListName(i: nat, out: seq<Byte>) returns (r: seq<Byte>, stop: bool)
      requires Valid() && i < MAX_FILES && used[i]
      ensures Listing(r, stop) == ListSlot(Listing(out, false), FileAt(i))
    {
      assert Terminated(View()[i].name);
      var len := StrLen(i);
      if |out| + len + 2 >= DATA_SIZE {
        return out, true;
      }
      r := AppendName(i, out, len);
      stop := false;
    }

    /** handle_readdir: the bytes of the (local) reply before the final NUL. */
    method HandleReaddir() returns (out: seq<Byte>)
      requires Valid()
      ensures out == Emit(LiveNames(View(), 0), 0)
    {
      ghost var t := View();
      out := [];
      var i, stop := 0, false;
      while i < MAX_FILES && !stop
        invariant 0 <= i <= MAX_FILES && Listing(out, stop) == Listed(t, i)
      {
        assert t[i] == FileAt(i);
        if used[i] {
          out, stop := ListName(i, out);
        }
        i := i + 1;
      }
      AllListed(t, i, out, stop);
    }

    method StrLen(i: nat) returns (len: nat)
      requires Arrays() && i < MAX_FILES && Terminated(Row(names, i))
      ensures len == |CStr(Row(names, i))| < NAME_SIZE
    {
      ghost var name := Row(names, i);
      len := 0;
      while names[i, len] != 0
        invariant len <= |CStr(name)|
        decreases NAME_SIZE - len
      {
        CStrAt(name, len);
        len := len + 1;
      }
      CStrAt(name, len);
    }

    /** The name of slot `i`, already measured, and a newline, put behind what is written. */
    method AppendName(i: nat, written: seq<Byte>, len: nat) returns (out: seq<Byte>)
      requires Arrays() && i < MAX_FILES && len <= NAME_SIZE
      ensures out == written + Row(names, i)[..len] + [NEWLINE]
    {
      out := written;
      var d := 0;
      while d < len
        invariant d <= len && out == written + Row(names, i)[..d]
      {
        out := out + [names[i, d]];
        d := d + 1;
      }
      out := out + [NEWLINE];
    }

    /** The statements of one block of vfs_init_ramfs, on a free slot. */
    method FillFile(i: nat, name: seq<Byte>, content: seq<Byte>)
      requires Arrays() && i < MAX_FILES && Terminated(name) && |content| <= MAX_FILE_SIZE
      modifies names, data, sizes, flags, used
      ensures FileAt(i) == File(StrNCpy(old(FileAt(i)).name, name, 63), content + old(FileAt(i)).data[|content|..], |content|, 0, true)
      ensures forall j :: 0 <= j < MAX_FILES && j != i ==> FileAt(j) == old(FileAt(j))
    {
      StrNCpyName(i, name, 63);
      MemCpyData(i, 0, content, |content|);
      sizes[i], flags[i], used[i] := |content|, 0, true;
      assert Row(data, i) == content + old(Row(data, i))[|content|..];
    }

    /** One block of vfs_init_ramfs. */
    method InstallFile(name: seq<Byte>, content: seq<Byte>)
      requires Valid() && |name| < 63 && |content| <= MAX_FILE_SIZE
      modifies names, data, sizes, flags, used
      ensures Valid() && View() == Install(old(View()), name, content)
    {
      ghost var t := View();
      ZeroTerminates(name);
      var i := FileFindFree();
      if i < MAX_FILES {
        InstallResult(t, name, content, i);
        FillFile(i, name + [0], content);
        Changed(i, t, Install(t, name, content));
      }
    }

    /** vfs_init_ramfs, on the table as static storage starts it. */
    method VfsInitRamfs()
      requires Valid() && View() == seq(MAX_FILES, i => EmptyFile)
      modifies names, data, sizes, flags, used
      ensures Valid() && View() == Boot()
    {
      InstallFile(Ascii("/hello.txt"), Ascii("Hello from Aegis RAM filesystem!\n"));
      InstallFile(Ascii("/readme.md"), Ascii("# Aegis OS\n\nA microkernel-based operating system.\n"));
      InstallFile(Ascii("/version"), Ascii("Aegis OS 0.1.0\n"));
    }

    lemma Changed(i: nat, t: Table, u: Table)
      requires Arrays() && i < MAX_FILES && Shape(t) && Named(t) && Shape(u)
      requires u == t[i := FileAt(i)] && (u[i].used ==> Terminated(u[i].name))
      requires forall j :: 0 <= j < MAX_FILES && j != i ==> FileAt(j) == t[j]
      ensures View() == u && Valid()
    {
    }
  }

  lemma InstalledName(dest: seq<Byte>, name: seq<Byte>)
    requires |dest| == NAME_SIZE && |name| < 63
    ensures Terminated(name + [0]) && Terminated(StrNCpy(dest, name + [0], 63))
  {
    ZeroTerminates(name);
    var c := CStr(name + [0]);
    var r := StrNCpy(dest, name + [0], 63);
    CStrOf(c, r);
  }

  lemma InstallResult(t: Table, name: seq<Byte>, content: seq<Byte>, i: nat)
    requires Shape(t) && FindFree(t, 0) == i < |t| && |name| < 63 && |content| <= MAX_FILE_SIZE
    ensures Terminated(name + [0])
    ensures var stored := StrNCpy(t[i].name, name + [0], 63);
            && Terminated(stored)
            && Install(t, name, content) ==
               t[i := File(stored, content + t[i].data[|content|..], |content|, 0, true)]
  {
    InstalledName(t[i].name, name);
  }

  lemma CreateResult(t: Table, m: Message, i: nat)
    requires Shape(t) && Request(m) && Find(t, Path(m), 0) == |t| && FindFree(t, 0) == i < |t|
    ensures var name := StrNCpy(t[i].name, m.data, 63)[63 := 0];
            && Terminated(name)
            && VfsTable.HandleCreate(t, m) ==
               (t[i := File(name, t[i].data, 0, m.arg0 % 0x1_0000_0000, true)], Reply(0, 0, []))
  {
    StoredName(t[i].name, m.data);
  }

  /** The bytes listed so far, and whether a name did not fit. */
  datatype Listing = Listing(out: seq<Byte>, stop: bool)

  function ListSlot(l: Listing, f: File): Listing {
    if l.stop || !f.used then l
    else if |l.out| + |CStr(f.name)| + 2 >= DATA_SIZE then Listing(l.out, true)
    else Listing(l.out + CStr(f.name) + [NEWLINE], false)
  }

  /** The listing after the first `i` slots. */
  function Listed(t: Table, i: nat): Listing
    requires i <= |t|
  {
    if i == 0 then Listing([], false) else ListSlot(Listed(t, i - 1), t[i - 1])
  }

  lemma {:induction false} ListedStops(t: Table, i: nat)
    requires i <= |t| && (i == |t| || Listed(t, i).stop)
    ensures Listed(t, |t|) == Listed(t, i)
    decreases |t| - i
  {
    if i < |t| {
      ListedStops(t, i + 1);
    }
  }

  /** What the names of the slots from `i` on still add. */
  function Rest(t: Table, i: nat, l: Listing): seq<Byte>
    requires i <= |t|
  {
    if l.stop then [] else Emit(LiveNames(t, i), |l.out|)
  }

  /** Slot by slot or name by name, the listing is the same. */
  lemma {:induction false} ListedEmits(t: Table, i: nat, all: seq<Byte>) returns (l: Listing)
    requires i <= |t| && all == Rest(t, 0, Listing([], false))
    ensures l == Listed(t, i) && all == l.out + Rest(t, i, l)
  {
    if i == 0 {
      l := Listing([], false);
      assert all == [] + all;
    } else {
      var was := ListedEmits(t, i - 1, all);
      ListedStep(t, i - 1, was);
      l := ListSlot(was, t[i - 1]);
    }
  }

  lemma AllListed(t: Table, i: nat, out: seq<Byte>, stop: bool)
    requires i <= |t| && Listing(out, stop) == Listed(t, i) && (i == |t| || stop)
    ensures out == Emit(LiveNames(t, 0), 0)
  {
    var all := Rest(t, 0, Listing([], false));
    ListedStops(t, i);
    var l := ListedEmits(t, |t|, all);
    assert Rest(t, |t|, l) == [];
  }

  /** One more slot moves what it adds from the rest to the listing. */
  lemma ListedStep(t: Table, i: nat, l: Listing)
    requires i < |t|
    ensures l.out + Rest(t, i, l) == ListSlot(l, t[i]).out + Rest(t, i + 1, ListSlot(l, t[i]))
  {
    if !l.stop {
      if t[i].used {
        EmitCons(CStr(t[i].name), LiveNames(t, i + 1), l.out);
      } else {
        assert LiveNames(t, i) == LiveNames(t, i + 1);
      }
    }
  }

  lemma EmitCons(n: seq<Byte>, ns: seq<seq<Byte>>, out: seq<Byte>)
    ensures out + Emit([n] + ns, |out|) ==
            if |out| + |n| + 2 >= DATA_SIZE then out + []
            else out + n + [NEWLINE] + Emit(ns, |out + n + [NEWLINE]|)
  {
    var all := [n] + ns;
    assert all[0] == n && all[1..] == ns;
    Assoc(out, n, [NEWLINE], Emit(ns, |out| + |n| + 1));
  }

  lemma Assoc(a: seq<Byte>, b: seq<Byte>, c: seq<Byte>, d: seq<Byte>)
    ensures a + (b + c + d) == a + b + c + d
  {
  }

  lemma {:induction false} CStrAt(s: seq<Byte>, d: nat)
    requires d < |s| && d <= |CStr(s)|
    ensures s[d] == 0 <==> d == |CStr(s)|
  {
    assert d < |CStr(s)| ==> CStr(s)[d] in CStr(s);
  }
}
