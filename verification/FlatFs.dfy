/** The specification of the in-memory file system: byte sequences, no blocks in memory.

    A file is its content plus the number of blocks allocated to it.  A descriptor keeps
    the block it stands in, because truncation treats "end of block k" and "start of
    block k+1" differently although they are the same byte position. */
module FlatFs {
  import opened Basics

  const BLOCK_SIZE: nat := 512
  const MAX_FILE_SIZE: nat := 1024 * 1024 * 1024

  /** The flag argument of open, a C int whose bits are the open flags. */
  type Flags = bv32
  const CREATE: Flags := 1
  const READ_ONLY: Flags := 2
  const WRITE_ONLY: Flags := 4
  const READ_WRITE: Flags := 8

  datatype ErrorCode = NoErr | NoFile | NoMem | NoPermission

  datatype FlatFile = FlatFile(content: seq<Byte>, blocks: nat)

  datatype FlatFd = FlatFd(file: nat, block: nat, offset: nat, flags: Flags) {
    /** The byte position in the file; block 0 means that the descriptor was never used. */
    function Position(): nat {
      if block == 0 then 0 else (block - 1) * BLOCK_SIZE + offset
    }
  }

  /** names: the visible files; files: the visible ones and the deleted ones still open. */
  datatype State = State(
    names: map<string, nat>, files: map<nat, FlatFile>, fds: map<int, FlatFd>, nextId: nat, errno: ErrorCode)

  const EMPTY := State(map[], map[], map[], 0, NoErr)

  // ---------- sizes ----------

  /** How many bytes of a file of length len lie in block i (counted from 0). */
  function Occupied(len: nat, i: nat): nat {
    if len <= i * BLOCK_SIZE then 0
    else if len >= (i + 1) * BLOCK_SIZE then BLOCK_SIZE
    else len - i * BLOCK_SIZE
  }

  /** The block in which position e > 0 ends, counted from 1: the number of blocks e bytes need. */
  function BlocksFor(e: nat): (r: nat)
    ensures e <= r * BLOCK_SIZE < e + BLOCK_SIZE
  {
    (e + BLOCK_SIZE - 1) / BLOCK_SIZE
  }

  /** content with buf laid over it from position p on. */
  function Splice(content: seq<Byte>, p: nat, buf: seq<Byte>): (r: seq<Byte>)
    requires p <= |content|
    ensures |r| == Max(|content|, p + |buf|)
  {
    content[..p] + buf + (if p + |buf| <= |content| then content[p + |buf|..] else [])
  }

  /** The size that resize compares with: it counts from the start of the last allocated block. */
  function AllocatedSize(f: FlatFile): nat {
    if f.blocks == 0 then 0 else (f.blocks - 1) * BLOCK_SIZE + Occupied(|f.content|, f.blocks - 1)
  }

  // ---------- descriptors ----------

  predicate CanWrite(flags: Flags) {
    flags & (WRITE_ONLY | READ_WRITE) != 0
  }

  predicate CanRead(flags: Flags) {
    flags & (READ_ONLY | READ_WRITE) != 0
  }

  function AccessMode(flags: Flags): Flags {
    var mode := flags & (READ_ONLY | WRITE_ONLY | READ_WRITE);
    if mode == 0 then READ_WRITE else mode
  }

  /** The descriptors open on a file. */
  function Openers(fds: map<int, FlatFd>, id: nat): set<int> {
    set fd | fd in fds && fds[fd].file == id
  }

  lemma SameFilesSameOpeners(fds: map<int, FlatFd>, fds': map<int, FlatFd>)
    requires fds'.Keys == fds.Keys && forall fd | fd in fds :: fds'[fd].file == fds[fd].file
    ensures forall id: nat :: Openers(fds', id) == Openers(fds, id)
  {
    forall id: nat
      ensures Openers(fds', id) == Openers(fds, id)
    {
      assert forall fd :: fd in Openers(fds', id) <==> fd in Openers(fds, id);
    }
  }

  // ---------- operations ----------

  datatype Op =
    | Open(name: string, flags: Flags)
    | Write(fd: int, buf: seq<Byte>)
    | Read(fd: int, size: nat)
    | Close(fd: int)
    | Delete(name: string)
    | Resize(fd: int, newSize: nat)

  datatype Reply = Reply(ret: int, data: seq<Byte>)

  function Fail(s: State, e: ErrorCode): (State, Reply) {
    (s.(errno := e), Reply(-1, []))
  }

  function OpenFile(s: State, id: nat, flags: Flags): (State, Reply) {
    var fd := LowestFree(s.fds.Keys, 1);
    (s.(fds := s.fds[fd := FlatFd(id, 0, 0, AccessMode(flags))], errno := NoErr), Reply(fd, []))
  }

  lemma OneMoreOpener(fds: map<int, FlatFd>, fd: int, d: FlatFd)
    requires fd !in fds
    ensures |Openers(fds[fd := d], d.file)| == |Openers(fds, d.file)| + 1
    ensures forall id: nat | id != d.file :: Openers(fds[fd := d], id) == Openers(fds, id)
  {
    assert Openers(fds[fd := d], d.file) == Openers(fds, d.file) + {fd};
  }

  lemma OneLessOpener(fds: map<int, FlatFd>, fd: int)
    requires fd in fds
    ensures |Openers(fds - {fd}, fds[fd].file)| == |Openers(fds, fds[fd].file)| - 1
    ensures forall id: nat | id != fds[fd].file :: Openers(fds - {fd}, id) == Openers(fds, id)
  {
    assert Openers(fds - {fd}, fds[fd].file) == Openers(fds, fds[fd].file) - {fd};
  }

  /** A new empty file under a name not in use. */
  function CreateFile(s: State, name: string): State {
    s.(names := s.names[name := s.nextId], files := s.files[s.nextId := FlatFile([], 0)], nextId := s.nextId + 1)
  }

  function ApplyOpen(s: State, name: string, flags: Flags): (State, Reply) {
    if name in s.names then
      OpenFile(s, s.names[name], flags)
    else if flags & CREATE != 0 then
      OpenFile(CreateFile(s, name), s.nextId, flags)
    else
      Fail(s, NoFile)
  }

  /** Where a transfer that ends at position e > 0 leaves the descriptor: never at offset 0. */
  function EndingAt(d: FlatFd, e: nat): FlatFd
    requires e > 0
  {
    d.(block := BlocksFor(e), offset := e - (BlocksFor(e) - 1) * BLOCK_SIZE)
  }

  function WrittenFd(d: FlatFd, n: nat): FlatFd {
    if n == 0 then d.(block := Max(d.block, 1)) else EndingAt(d, d.Position() + n)
  }

  function WrittenFile(d: FlatFd, f: FlatFile, buf: seq<Byte>): FlatFile
    requires d.Position() <= |f.content|
  {
    FlatFile(Splice(f.content, d.Position(), buf), Max(f.blocks, WrittenFd(d, |buf|).block))
  }

  function ApplyWrite(s: State, fd: int, buf: seq<Byte>): (State, Reply)
    requires FdsWf(s.files, s.fds)
  {
    if fd !in s.fds then Fail(s, NoFile)
    else
      var d := s.fds[fd];
      if !CanWrite(d.flags) then Fail(s, NoPermission)
      else if d.Position() + |buf| > MAX_FILE_SIZE then Fail(s, NoMem)
      else
        var f' := WrittenFile(d, s.files[d.file], buf);
        (s.(files := s.files[d.file := f'], fds := s.fds[fd := WrittenFd(d, |buf|)], errno := NoErr), Reply(|buf|, []))
  }

  /** A read at the end of a partial or empty block returns without touching errno. */
  function ReadFd(d: FlatFd, f: FlatFile, size: nat, errno: ErrorCode): (FlatFd, ErrorCode)
    requires d.Position() <= |f.content|
  {
    var len := |f.content|;
    if size == 0 then (d.(block := Max(d.block, 1)), NoErr)
    else if d.Position() + size <= len then (EndingAt(d, d.Position() + size), NoErr)
    else if f.blocks > len / BLOCK_SIZE then (d.(block := len / BLOCK_SIZE + 1, offset := len % BLOCK_SIZE), errno)
    else (d.(block := f.blocks, offset := BLOCK_SIZE), NoErr)
  }

  function ApplyRead(s: State, fd: int, size: nat): (State, Reply)
    requires FdsWf(s.files, s.fds)
  {
    if fd !in s.fds then Fail(s, NoFile)
    else
      var d := s.fds[fd];
      if !CanRead(d.flags) then Fail(s, NoPermission)
      else
        var f := s.files[d.file];
        if d.block == 0 && f.blocks == 0 then (s.(errno := NoErr), Reply(0, []))
        else
          var p := d.Position();
          var data := if p + size <= |f.content| then f.content[p..p + size] else f.content[p..];
          var (d', errno) := ReadFd(d, f, size, s.errno);
          (s.(fds := s.fds[fd := d'], errno := errno), Reply(|data|, data))
  }

  /** The files that stay: a deleted file goes with its last descriptor. */
  function Collect(s: State, id: nat): State {
    if id !in s.names.Values && Openers(s.fds, id) == {} then s.(files := s.files - {id}) else s
  }

  function ApplyClose(s: State, fd: int): (State, Reply) {
    if fd !in s.fds then Fail(s, NoFile)
    else (Collect(s.(fds := s.fds - {fd}, errno := NoErr), s.fds[fd].file), Reply(0, []))
  }

  function ApplyDelete(s: State, name: string): (State, Reply) {
    if name !in s.names then Fail(s, NoFile)
    else (Collect(s.(names := s.names - {name}, errno := NoErr), s.names[name]), Reply(0, []))
  }

  /** Truncation sends every descriptor in or behind the last kept block to the new end. */
  function TruncatedFd(d: FlatFd, id: nat, newSize: nat): FlatFd
    requires newSize > 0
  {
    if d.file == id && d.block >= BlocksFor(newSize) then EndingAt(d, newSize) else d
  }

  lemma TruncatedSameOpeners(fds: map<int, FlatFd>, id: nat, newSize: nat)
    requires newSize > 0
    ensures var fds' := map n | n in fds :: TruncatedFd(fds[n], id, newSize);
            forall k: nat :: Openers(fds', k) == Openers(fds, k)
  {
  }

  function ApplyResize(s: State, fd: int, newSize: nat): (State, Reply)
    requires FdsWf(s.files, s.fds) && Safe(s, Resize(fd, newSize))
  {
    if fd !in s.fds then Fail(s, NoFile)
    else if newSize > MAX_FILE_SIZE then Fail(s, NoMem)
    else
      var id := s.fds[fd].file;
      var f := s.files[id];
      if newSize >= AllocatedSize(f) then
        (s.(files := s.files[id := f.(blocks := Max(f.blocks, BlocksFor(newSize)))], errno := NoErr), Reply(0, []))
      else
        (s.(files := s.files[id := FlatFile(f.content[..newSize], BlocksFor(newSize))],
            fds := map n | n in s.fds :: TruncatedFd(s.fds[n], id, newSize), errno := NoErr), Reply(0, []))
  }

  lemma ResizeRefused(s: State, fd: int, newSize: nat)
    requires FdsWf(s.files, s.fds)
    ensures fd !in s.fds ==> Safe(s, Resize(fd, newSize)) && ApplyResize(s, fd, newSize) == Fail(s, NoFile)
    ensures fd in s.fds && newSize > MAX_FILE_SIZE ==>
            Safe(s, Resize(fd, newSize)) && ApplyResize(s, fd, newSize) == Fail(s, NoMem)
  {
  }

  lemma ShrinkIs(s: State, fd: int, newSize: nat)
    requires FdsWf(s.files, s.fds) && fd in s.fds && newSize <= MAX_FILE_SIZE
    requires 0 < newSize <= |s.files[s.fds[fd].file].content| && newSize < AllocatedSize(s.files[s.fds[fd].file])
    ensures Safe(s, Resize(fd, newSize))
    ensures var id := s.fds[fd].file;
            ApplyResize(s, fd, newSize) ==
            (s.(files := s.files[id := FlatFile(s.files[id].content[..newSize], BlocksFor(newSize))],
                fds := map n | n in s.fds :: TruncatedFd(s.fds[n], id, newSize), errno := NoErr), Reply(0, []))
  {
  }

  // ---------- the calls that the program survives ----------

  /** The write loop makes progress: nothing to write, or not before the last full block's end. */
  predicate WriteProgresses(len: nat, p: nat, n: nat) {
    n == 0 || p >= len / BLOCK_SIZE * BLOCK_SIZE
  }

  /** Neither a null block is followed nor bytes are exposed that were never written. */
  predicate ResizeSound(f: FlatFile, newSize: nat) {
    newSize >= AllocatedSize(f) || 0 < newSize <= |f.content|
  }

  /** A shrink keeps at least one byte; else it follows a null pointer. */
  predicate KeepsBlock(s: State, fd: int, newSize: nat)
    requires FdsWf(s.files, s.fds)
  {
    fd in s.fds && newSize < AllocatedSize(s.files[s.fds[fd].file]) && newSize <= MAX_FILE_SIZE ==> newSize > 0
  }

  predicate Safe(s: State, op: Op)
    requires FdsWf(s.files, s.fds)
  {
    match op
    case Write(fd, buf) =>
      fd in s.fds && CanWrite(s.fds[fd].flags) && s.fds[fd].Position() + |buf| <= MAX_FILE_SIZE ==>
        WriteProgresses(|s.files[s.fds[fd].file].content|, s.fds[fd].Position(), |buf|)
    case Resize(fd, newSize) =>
      fd in s.fds && newSize <= MAX_FILE_SIZE ==> ResizeSound(s.files[s.fds[fd].file], newSize)
    case _ => true
  }

  function Apply(s: State, op: Op): (State, Reply)
    requires Wf(s) && Safe(s, op)
  {
    match op
    case Open(name, flags) => ApplyOpen(s, name, flags)
    case Write(fd, buf) => ApplyWrite(s, fd, buf)
    case Read(fd, size) => ApplyRead(s, fd, size)
    case Close(fd) => ApplyClose(s, fd)
    case Delete(name) => ApplyDelete(s, name)
    case Resize(fd, newSize) => ApplyResize(s, fd, newSize)
  }

  // ---------- the invariant of every history ----------

  predicate FileWf(f: FlatFile) {
    |f.content| <= f.blocks * BLOCK_SIZE <= MAX_FILE_SIZE
  }

  /** A descriptor stands in an allocated block and not behind the end of the file. */
  predicate Fits(d: FlatFd, f: FlatFile) {
    && (d.block == 0 ==> d.offset == 0)
    && d.block <= f.blocks
    && d.offset <= BLOCK_SIZE
    && d.Position() <= |f.content|
  }

  /** No garbage: a file is named or open. */
  predicate Reachable(names: map<string, nat>, files: map<nat, FlatFile>, fds: map<int, FlatFd>) {
    forall id | id in files :: id in names.Values || Openers(fds, id) != {}
  }

  predicate NamesWf(names: map<string, nat>, files: map<nat, FlatFile>) {
    && (forall name | name in names :: names[name] in files)
    && (forall a, b | a in names && b in names && names[a] == names[b] :: a == b)
  }

  predicate FilesWf(files: map<nat, FlatFile>, nextId: nat) {
    forall id | id in files :: id < nextId && FileWf(files[id])
  }

  predicate FdsWf(files: map<nat, FlatFile>, fds: map<int, FlatFd>) {
    forall fd | fd in fds :: fd >= 1 && fds[fd].file in files && Fits(fds[fd], files[fds[fd].file])
  }

  predicate PartsWf(names: map<string, nat>, files: map<nat, FlatFile>, fds: map<int, FlatFd>, nextId: nat) {
    FilesWf(files, nextId) && FdsWf(files, fds) && Reachable(names, files, fds) && NamesWf(names, files)
  }

  predicate Wf(s: State) {
    PartsWf(s.names, s.files, s.fds, s.nextId)
  }

  lemma SomeOpener(s: State, id: nat) returns (fd: int)
    requires Wf(s) && id in s.files && id !in s.names.Values
    ensures fd in s.fds && s.fds[fd].file == id
  {
    fd := Member(Openers(s.fds, id));
  }

  lemma SameLinksKeepReachable(s: State, s': State)
    requires Wf(s)
    requires s'.names == s.names && s'.files.Keys == s.files.Keys && s'.fds.Keys == s.fds.Keys
    requires forall fd | fd in s.fds :: s'.fds[fd].file == s.fds[fd].file
    ensures Reachable(s'.names, s'.files, s'.fds)
  {
    forall id | id in s'.files && id !in s'.names.Values
      ensures Openers(s'.fds, id) != {}
    {
      var k := SomeOpener(s, id);
      assert k in Openers(s'.fds, id);
    }
  }

  lemma OpenFileKeepsWf(s: State, id: nat, flags: Flags)
    requires Wf(s) && id in s.files
    ensures Wf(OpenFile(s, id, flags).0)
  {
    var s' := OpenFile(s, id, flags).0;
    forall k | k in s'.files && k !in s'.names.Values
      ensures Openers(s'.fds, k) != {}
    {
      var fd := SomeOpener(s, k);
      assert fd in Openers(s'.fds, k);
    }
  }

  lemma OneMoreName(names: map<string, nat>, name: string, id: nat)
    requires name !in names
    ensures names[name := id].Values == names.Values + {id}
  {
    var names' := names[name := id];
    assert names'[name] == id;
    forall k | k in names.Values
      ensures k in names'.Values
    {
      var n :| n in names && names[n] == k;
      assert names'[n] == k;
    }
  }

  lemma OneLessName(names: map<string, nat>, name: string)
    requires name in names && forall a, b | a in names && b in names && names[a] == names[b] :: a == b
    ensures (names - {name}).Values == names.Values - {names[name]}
  {
    var names' := names - {name};
    forall k | k in names.Values && k != names[name]
      ensures k in names'.Values
    {
      var n :| n in names && names[n] == k;
      assert names'[n] == k;
    }
  }

  lemma CreateKeepsWf(s: State, name: string)
    requires Wf(s) && name !in s.names
    ensures Wf(CreateFile(s, name))
  {
    var s' := CreateFile(s, name);
    forall k | k in s'.files && k !in s'.names.Values
      ensures Openers(s'.fds, k) != {}
    {
      OneMoreName(s.names, name, s.nextId);
      var fd := SomeOpener(s, k);
      assert fd in Openers(s'.fds, k);
    }
  }

  lemma OpenKeepsWf(s: State, name: string, flags: Flags)
    requires Wf(s)
    ensures Wf(ApplyOpen(s, name, flags).0)
  {
    if name in s.names {
      OpenFileKeepsWf(s, s.names[name], flags);
    } else if flags & CREATE != 0 {
      CreateKeepsWf(s, name);
      OpenFileKeepsWf(CreateFile(s, name), s.nextId, flags);
    }
  }

  lemma WriteFits(d: FlatFd, f: FlatFile, buf: seq<Byte>)
    requires FileWf(f) && Fits(d, f) && d.Position() + |buf| <= MAX_FILE_SIZE
    ensures FileWf(WrittenFile(d, f, buf)) && Fits(WrittenFd(d, |buf|), WrittenFile(d, f, buf))
    ensures |WrittenFile(d, f, buf).content| == Max(|f.content|, d.Position() + |buf|)
    ensures WrittenFile(d, f, buf).blocks >= f.blocks && WrittenFd(d, |buf|).file == d.file
  {
  }

  lemma LargerFits(d: FlatFd, f: FlatFile, f': FlatFile)
    requires Fits(d, f) && |f.content| <= |f'.content| && f.blocks <= f'.blocks
    ensures Fits(d, f')
  {
  }

  /** A change of one descriptor and of its file, both of which stay sound, and of nothing else. */
  lemma TransferKeepsWf(s: State, s': State, fd: int)
    requires Wf(s) && fd in s.fds
    requires var id := s.fds[fd].file;
             && s'.files.Keys == s.files.Keys && s'.fds.Keys == s.fds.Keys
             && (forall k | k in s.files && k != id :: s'.files[k] == s.files[k])
             && (forall k | k in s.fds && k != fd :: s'.fds[k] == s.fds[k])
             && s'.fds[fd].file == id && Fits(s'.fds[fd], s'.files[id]) && FileWf(s'.files[id])
             && |s'.files[id].content| >= |s.files[id].content| && s'.files[id].blocks >= s.files[id].blocks
    requires s'.names == s.names && s'.nextId == s.nextId
    ensures Wf(s')
  {
    hide Fits, FileWf, Reachable;
    SameLinksKeepReachable(s, s');
    forall k | k in s.fds && k != fd && s.fds[k].file == s.fds[fd].file
      ensures Fits(s'.fds[k], s'.files[s'.fds[k].file])
    {
      LargerFits(s.fds[k], s.files[s.fds[k].file], s'.files[s'.fds[k].file]);
    }
  }

  lemma WriteKeepsWf(s: State, fd: int, buf: seq<Byte>)
    requires Wf(s)
    ensures Wf(ApplyWrite(s, fd, buf).0)
  {
    assert fd in s.fds ==> Fits(s.fds[fd], s.files[s.fds[fd].file]) && FileWf(s.files[s.fds[fd].file]);
    hide Fits, FileWf, WrittenFile, WrittenFd, Reachable, NamesWf;
    if fd in s.fds && CanWrite(s.fds[fd].flags) && s.fds[fd].Position() + |buf| <= MAX_FILE_SIZE {
      WriteFits(s.fds[fd], s.files[s.fds[fd].file], buf);
      TransferKeepsWf(s, ApplyWrite(s, fd, buf).0, fd);
    }
  }

  lemma ReadFits(d: FlatFd, f: FlatFile, size: nat, errno: ErrorCode)
    requires FileWf(f) && Fits(d, f) && (d.block > 0 || f.blocks > 0)
    ensures Fits(ReadFd(d, f, size, errno).0, f) && ReadFd(d, f, size, errno).0.file == d.file
  {
  }

  lemma ReadKeepsWf(s: State, fd: int, size: nat)
    requires Wf(s)
    ensures Wf(ApplyRead(s, fd, size).0)
  {
    assert fd in s.fds ==> Fits(s.fds[fd], s.files[s.fds[fd].file]) && FileWf(s.files[s.fds[fd].file]);
    hide Fits, FileWf, ReadFd, Reachable, NamesWf;
    if fd in s.fds && (s.fds[fd].block > 0 || s.files[s.fds[fd].file].blocks > 0) {
      ReadFits(s.fds[fd], s.files[s.fds[fd].file], size, s.errno);
      TransferKeepsWf(s, ApplyRead(s, fd, size).0, fd);
    }
  }

  lemma CloseKeepsWf(s: State, fd: int)
    requires Wf(s)
    ensures Wf(ApplyClose(s, fd).0)
  {
    if fd in s.fds {
      var s' := ApplyClose(s, fd).0;
      forall id | id in s'.files
        ensures id in s'.names.Values || Openers(s'.fds, id) != {}
      {
        if id !in s.names.Values && id != s.fds[fd].file {
          var k := SomeOpener(s, id);
          assert k in Openers(s'.fds, id);
        }
      }
      forall k | k in s'.fds
        ensures s'.fds[k].file in s'.files
      {
        assert k in Openers(s'.fds, s'.fds[k].file);
      }
    }
  }

  lemma DeleteKeepsWf(s: State, name: string)
    requires Wf(s)
    ensures Wf(ApplyDelete(s, name).0)
  {
    if name in s.names {
      var s' := ApplyDelete(s, name).0;
      forall id | id in s'.files
        ensures id in s'.names.Values || Openers(s'.fds, id) != {}
      {
        if id != s.names[name] {
          if id in s.names.Values {
            var n :| n in s.names && s.names[n] == id;
            assert s'.names[n] == id;
          }
        }
      }
      forall k | k in s'.fds
        ensures s'.fds[k].file in s'.files
      {
        assert k in Openers(s'.fds, s'.fds[k].file);
      }
      forall n | n in s'.names
        ensures s'.names[n] in s'.files
      {
        assert s.names[n] != s.names[name];
      }
    }
  }

  lemma TruncationFits(d: FlatFd, f: FlatFile, id: nat, newSize: nat)
    requires FileWf(f) && 0 < newSize <= |f.content|
    requires d.file == id && Fits(d, f)
    ensures FileWf(FlatFile(f.content[..newSize], BlocksFor(newSize)))
    ensures Fits(TruncatedFd(d, id, newSize), FlatFile(f.content[..newSize], BlocksFor(newSize)))
  {
  }

  lemma GrowKeepsWf(s: State, fd: int, newSize: nat)
    requires Wf(s) && fd in s.fds && AllocatedSize(s.files[s.fds[fd].file]) <= newSize <= MAX_FILE_SIZE
    ensures Wf(ApplyResize(s, fd, newSize).0)
  {
    SameLinksKeepReachable(s, ApplyResize(s, fd, newSize).0);
  }

  lemma ShrinkKeepsWf(s: State, fd: int, newSize: nat)
    requires Wf(s) && Safe(s, Resize(fd, newSize))
    requires fd in s.fds && newSize <= MAX_FILE_SIZE && newSize < AllocatedSize(s.files[s.fds[fd].file])
    ensures Wf(ApplyResize(s, fd, newSize).0)
  {
    var s' := ApplyResize(s, fd, newSize).0;
    var id := s.fds[fd].file;
    SameLinksKeepReachable(s, s');
    TruncationFits(s.fds[fd], s.files[id], id, newSize);
    forall k | k in s.fds && s.fds[k].file == id
      ensures Fits(s'.fds[k], s'.files[id])
    {
      TruncationFits(s.fds[k], s.files[id], id, newSize);
    }
  }

  /** Each operation keeps the invariant, whatever its arguments. */
  lemma ApplyKeepsWf(s: State, op: Op)
    requires Wf(s) && Safe(s, op)
    ensures Wf(Apply(s, op).0)
  {
    match op
    case Open(name, flags) => OpenKeepsWf(s, name, flags);
    case Write(fd, buf) => WriteKeepsWf(s, fd, buf);
    case Read(fd, size) => ReadKeepsWf(s, fd, size);
    case Close(fd) => CloseKeepsWf(s, fd);
    case Delete(name) => DeleteKeepsWf(s, name);
    case Resize(fd, newSize) =>
      if fd in s.fds && newSize <= MAX_FILE_SIZE {
        if newSize < AllocatedSize(s.files[s.fds[fd].file]) {
          ShrinkKeepsWf(s, fd, newSize);
        } else {
          GrowKeepsWf(s, fd, newSize);
        }
      }
  }

  // ---------- histories ----------

  predicate AllSafe(s: State, ops: seq<Op>)
    requires Wf(s)
    decreases |ops|
  {
    ops == [] || (Safe(s, ops[0]) && (ApplyKeepsWf(s, ops[0]); AllSafe(Apply(s, ops[0]).0, ops[1..])))
  }

  /** The state and the replies after a history of calls; each keeps the invariant. */
  function Run(s: State, ops: seq<Op>): (r: (State, seq<Reply>))
    requires Wf(s) && AllSafe(s, ops)
    ensures Wf(r.0) && |r.1| == |ops|
    decreases |ops|
  {
    if ops == [] then (s, [])
    else
      ApplyKeepsWf(s, ops[0]);
      var (s', reply) := Apply(s, ops[0]);
      var (s'', replies) := Run(s', ops[1..]);
      (s'', [reply] + replies)
  }
}
