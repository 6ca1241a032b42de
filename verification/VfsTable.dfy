/** The file table of servers/vfs/vfs.c as a value, with each request handler as a step. */
module VfsTable {
  import opened Bytes
  import opened Words

  const MAX_FILES := 64
  const MAX_FILE_SIZE := 4096
  const NAME_SIZE := 64
  const DATA_SIZE := 512
  const MINUS_ONE := WORD - 1

  datatype File = File(name: seq<Byte>, data: seq<Byte>, size: nat, flags: nat, used: bool)

  type Table = seq<File>

  /** The sizes of the arrays. */
  ghost predicate Shape(t: Table) {
    |t| == MAX_FILES && forall i :: 0 <= i < |t| ==> |t[i].name| == NAME_SIZE && |t[i].data| == MAX_FILE_SIZE && t[i].size < WORD
  }

  /** A request: the path, and for a write also the payload, start at msg.data[0]. */
  datatype Message = Message(arg0: nat, arg1: nat, data: seq<Byte>)

  ghost predicate Request(m: Message) {
    m.arg0 < WORD && m.arg1 < WORD && |m.data| == DATA_SIZE
  }

  function Path(m: Message): seq<Byte> {
    CStr(m.data)
  }

  /** What comes back; OutOfBounds stands for a copy that would leave a buffer, which
      the handlers do not check for. */
  datatype Reply = Reply(arg0: nat, arg1: nat, data: seq<Byte>) | OutOfBounds

  const Refusal := Reply(MINUS_ONE, MINUS_ONE, [])

  function Find(t: Table, path: seq<Byte>, i: nat): (r: nat)
    requires i <= |t|
    ensures i <= r <= |t|
    ensures r < |t| ==> t[r].used && CStr(t[r].name) == path
    ensures forall j :: i <= j < r ==> !(t[j].used && CStr(t[j].name) == path)
    decreases |t| - i
  {
    if i == |t| || (t[i].used && CStr(t[i].name) == path) then i else Find(t, path, i + 1)
  }

  function FindFree(t: Table, i: nat): (r: nat)
    requires i <= |t|
    ensures i <= r <= |t|
    ensures r < |t| ==> !t[r].used
    ensures forall j :: i <= j < r ==> t[j].used
    decreases |t| - i
  {
    if i == |t| || !t[i].used then i else FindFree(t, i + 1)
  }

  /** strncpy as this file writes it: on a short source it pads one byte past `n`. */
  function StrNCpy(dest: seq<Byte>, src: seq<Byte>, n: nat): (r: seq<Byte>)
    requires n < |dest| && (n <= |src| || Terminated(src))
    ensures |r| == |dest|
  {
    var k := |CStr(src)|;
    if k < n then src[..k] + Zeros(n + 1 - k) + dest[n + 1..] else src[..n] + dest[n..]
  }

  // ----- requests -----

  function HandleCreate(t: Table, m: Message): (r: (Table, Reply))
    requires Shape(t) && Request(m)
    ensures Shape(r.0)
  {
    var i := FindFree(t, 0);
    if Find(t, Path(m), 0) < |t| || i == |t| then (t, Refusal)
    else
      var name := StrNCpy(t[i].name, m.data, 63)[63 := 0];
      (t[i := t[i].(name := name, size := 0, flags := m.arg0 % 0x1_0000_0000, used := true)], Reply(0, 0, []))
  }

  function HandleDelete(t: Table, m: Message): (r: (Table, Reply))
    requires Shape(t) && Request(m)
    ensures Shape(r.0)
  {
    var i := Find(t, Path(m), 0);
    if i == |t| then (t, Refusal)
    else (t[i := t[i].(used := false, size := 0)], Reply(0, 0, []))
  }

  /** The number of bytes a read copies, in 64-bit arithmetic. */
  function ReadCount(size: nat, offset: nat, count: nat): nat
    requires size < WORD && offset < WORD
  {
    if (offset + count) % WORD > size then (size + WORD - offset) % WORD else count
  }

  function HandleRead(t: Table, m: Message): Reply
    requires Shape(t) && Request(m)
  {
    var i := Find(t, Path(m), 0);
    if i == |t| then Refusal
    else
      var n := ReadCount(t[i].size, m.arg0, m.arg1);
      if n > DATA_SIZE || m.arg0 + n > MAX_FILE_SIZE then OutOfBounds
      else Reply(n, 0, t[i].data[m.arg0..m.arg0 + n])
  }

  function HandleWrite(t: Table, m: Message): (r: (Table, Reply))
    requires Shape(t) && Request(m)
    ensures Shape(r.0)
  {
    var i := Find(t, Path(m), 0);
    if i == |t| then (t, Refusal)
    else
      var n := ReadCount(MAX_FILE_SIZE, m.arg0, m.arg1);
      if n > DATA_SIZE || m.arg0 + n > MAX_FILE_SIZE then (t, OutOfBounds)
      else
        var data := t[i].data[..m.arg0] + m.data[..n] + t[i].data[m.arg0 + n..];
        var size := if m.arg0 + n > t[i].size then m.arg0 + n else t[i].size;
        (t[i := t[i].(data := data, size := size)], Reply(n, 0, []))
  }

  function HandleTruncate(t: Table, m: Message): (r: (Table, Reply))
    requires Shape(t) && Request(m)
    ensures Shape(r.0)
  {
    var i := Find(t, Path(m), 0);
    if i == |t| then (t, Refusal)
    else
      var n := if m.arg0 > MAX_FILE_SIZE then MAX_FILE_SIZE else m.arg0;
      if n >= t[i].size then (t[i := t[i].(size := n)], Reply(0, 0, []))
      else if t[i].size > MAX_FILE_SIZE then (t, OutOfBounds)
      else
        var data := t[i].data[..n] + Zeros(t[i].size - n) + t[i].data[t[i].size..];
        (t[i := t[i].(data := data, size := n)], Reply(0, 0, []))
  }

  datatype Event = ECreate(m: Message) | EDelete(m: Message) | ERead(m: Message) | EWrite(m: Message) | ETruncate(m: Message)

  function Step(t: Table, e: Event): (r: (Table, Reply))
    requires Shape(t) && Request(e.m)
    ensures Shape(r.0)
  {
    match e
    case ECreate(m) => HandleCreate(t, m)
    case EDelete(m) => HandleDelete(t, m)
    case ERead(m) => (t, HandleRead(t, m))
    case EWrite(m) => HandleWrite(t, m)
    case ETruncate(m) => HandleTruncate(t, m)
  }

  // ----- the files the server starts with -----

  function Ascii(s: string): (b: seq<Byte>)
    ensures |b| == |s|
  {
    seq(|s|, i requires 0 <= i < |s| => s[i] as int % 256)
  }

  const EmptyFile := File(Zeros(NAME_SIZE), Zeros(MAX_FILE_SIZE), 0, 0, false)

  /** One of the three blocks of vfs_init_ramfs. */
  function Install(t: Table, name: seq<Byte>, content: seq<Byte>): (t': Table)
    requires Shape(t) && |name| < 63 && |content| <= MAX_FILE_SIZE
    ensures Shape(t')
  {
    var i := FindFree(t, 0);
    if i == |t| then t
    else
      ZeroTerminates(name);
      t[i := File(StrNCpy(t[i].name, name + [0], 63), content + t[i].data[|content|..], |content|, 0, true)]
  }

  function Boot(): (t: Table)
    ensures Shape(t)
  {
    var t0 := seq(MAX_FILES, i => EmptyFile);
    var t1 := Install(t0, Ascii("/hello.txt"), Ascii("Hello from Aegis RAM filesystem!\n"));
    var t2 := Install(t1, Ascii("/readme.md"), Ascii("# Aegis OS\n\nA microkernel-based operating system.\n"));
    Install(t2, Ascii("/version"), Ascii("Aegis OS 0.1.0\n"))
  }
}
