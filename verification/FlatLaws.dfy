/** What the specification of the file system promises its callers. */
module FlatLaws {
  import opened Basics
  import opened FlatFs
  import opened Staircase
  import opened WriteLoop

  // ---------- one call ----------

  lemma EndingAtIs(d: FlatFd, e: nat)
    requires e > 0
    ensures EndingAt(d, e).Position() == e
  {
  }

  lemma WrittenFdIs(d: FlatFd, n: nat)
    requires d.block == 0 ==> d.offset == 0
    ensures WrittenFd(d, n).Position() == d.Position() + n && WrittenFd(d, n).file == d.file
    ensures WrittenFd(d, n).flags == d.flags
    ensures WrittenFd(d, n).block == if n == 0 then Max(d.block, 1) else BlocksFor(d.Position() + n)
  {
    if n > 0 {
      EndingAtIs(d, d.Position() + n);
    }
  }

  lemma FitsIs(d: FlatFd, f: FlatFile)
    requires Fits(d, f)
    ensures d.Position() <= |f.content| && (d.block == 0 ==> d.offset == 0)
  {
  }

  lemma SpliceIs(content: seq<Byte>, p: nat, buf: seq<Byte>)
    requires p <= |content|
    ensures var r := Splice(content, p, buf);
            && |r| == Max(|content|, p + |buf|) && r[..p] == content[..p] && r[p..p + |buf|] == buf
            && forall i | p + |buf| <= i < |content| :: r[i] == content[i]
  {
  }

  /** A write that succeeds lays buf over the content at the descriptor's position and moves
      this descriptor behind it; no other descriptor and no other file changes. */
  lemma WriteOverlays(s: State, fd: int, buf: seq<Byte>)
    requires Wf(s) && fd in s.fds
    requires ApplyWrite(s, fd, buf).1.ret == |buf|
    ensures var s' := ApplyWrite(s, fd, buf).0;
            var (id, p) := (s.fds[fd].file, s.fds[fd].Position());
            && s'.names == s.names && s'.files.Keys == s.files.Keys && s'.fds.Keys == s.fds.Keys
            && |s'.files[id].content| == Max(|s.files[id].content|, p + |buf|)
            && s'.files[id].content[..p] == s.files[id].content[..p]
            && s'.files[id].content[p..p + |buf|] == buf
            && (forall i | p + |buf| <= i < |s.files[id].content| :: s'.files[id].content[i] == s.files[id].content[i])
            && s'.fds[fd].Position() == p + |buf| && s'.fds[fd].file == id && s'.fds[fd].flags == s.fds[fd].flags
            && s'.fds[fd].block == (if buf == [] then Max(s.fds[fd].block, 1) else BlocksFor(p + |buf|))
            && s'.files[id].blocks == Max(s.files[id].blocks, s'.fds[fd].block)
            && (forall k | k in s.files && k != id :: s'.files[k] == s.files[k])
            && (forall k | k in s.fds && k != fd :: s'.fds[k] == s.fds[k])
  {
    hide Splice, WrittenFd, Fits, FileWf;
    var d := s.fds[fd];
    FitsIs(d, s.files[d.file]);
    SpliceIs(s.files[d.file].content, d.Position(), buf);
    WrittenFdIs(d, |buf|);
  }

  /** What was written through one descriptor is read through another one of the file. */
  lemma WriteThenRead(s: State, fd: int, buf: seq<Byte>, reader: int)
    requires Wf(s) && fd in s.fds && reader in s.fds && reader != fd
    requires s.fds[reader].file == s.fds[fd].file && s.fds[reader].Position() == s.fds[fd].Position()
    requires CanRead(s.fds[reader].flags) && ApplyWrite(s, fd, buf).1.ret == |buf|
    ensures var s' := ApplyWrite(s, fd, buf).0;
            Wf(s') && ApplyRead(s', reader, |buf|).1 == Reply(|buf|, buf)
  {
    WriteKeepsWf(s, fd, buf);
    WriteOverlays(s, fd, buf);
  }

  lemma ReadMoves(d: FlatFd, f: FlatFile, size: nat, errno: ErrorCode)
    requires FileWf(f) && Fits(d, f) && (d.block > 0 || f.blocks > 0)
    ensures ReadFd(d, f, size, errno).0.Position() == Min(d.Position() + size, |f.content|)
    ensures ReadFd(d, f, size, errno).0.flags == d.flags && ReadFd(d, f, size, errno).0.file == d.file
  {
    if 0 < size && d.Position() + size <= |f.content| {
      EndingAtIs(d, d.Position() + size);
    }
  }

  /** Where a read of size bytes from p on ends: as far as asked for and as far as there is. */
  function ReadEnd(content: seq<Byte>, p: nat, size: nat): (end: nat)
    requires p <= |content|
    ensures p <= end <= |content|
  {
    Min(p + size, |content|)
  }

  function ReadData(content: seq<Byte>, p: nat, size: nat): seq<Byte>
    requires p <= |content|
  {
    content[p..ReadEnd(content, p, size)]
  }

  /** Where a read leaves a descriptor on a block boundary: behind the last byte read, but a read that
      is cut short looks for more in the next block, if there is one. */
  lemma ReadBlock(d: FlatFd, f: FlatFile, size: nat, errno: ErrorCode)
    requires FileWf(f) && Fits(d, f) && (d.block > 0 || f.blocks > 0)
    ensures var d' := ReadFd(d, f, size, errno).0;
            var end := d'.Position();
            && (size == 0 ==> d'.block == Max(d.block, 1))
            && (0 < size && d.Position() + size <= |f.content| ==>
                  d'.block * BLOCK_SIZE >= end > (d'.block - 1) * BLOCK_SIZE)
            && (d.Position() + size > |f.content| && f.blocks * BLOCK_SIZE > end ==>
                  d'.block * BLOCK_SIZE > end >= (d'.block - 1) * BLOCK_SIZE)
            && (d.Position() + size > |f.content| && f.blocks * BLOCK_SIZE <= end ==> d'.block == f.blocks)
  {
    ReadMoves(d, f, size, errno);
  }

  /** A read returns what lies behind the descriptor, and moves there. */
  lemma ReadIs(s: State, fd: int, size: nat)
    requires Wf(s) && fd in s.fds && CanRead(s.fds[fd].flags)
    ensures var (d, content) := (s.fds[fd], s.files[s.fds[fd].file].content);
            var (s', reply) := ApplyRead(s, fd, size);
            && d.Position() <= |content|
            && reply.data == ReadData(content, d.Position(), size) && reply.ret == |reply.data|
            && Wf(s') && FdsWf(s'.files, s'.fds) && s'.files == s.files && s'.names == s.names
            && s'.fds.Keys == s.fds.Keys
            && s'.fds[fd].Position() == ReadEnd(content, d.Position(), size)
            && s'.fds[fd].file == d.file && s'.fds[fd].flags == d.flags
            && forall k | k in s.fds && k != fd :: s'.fds[k] == s.fds[k]
  {
    hide ReadFd;
    var d := s.fds[fd];
    var f := s.files[d.file];
    ReadKeepsWf(s, fd, size);
    if d.block > 0 || f.blocks > 0 {
      ReadMoves(d, f, size, s.errno);
    }
  }

  lemma DataInTwo(content: seq<Byte>, p: nat, a: nat, b: nat)
    requires p <= |content|
    ensures var mid := ReadEnd(content, p, a);
            && ReadData(content, p, a) + ReadData(content, mid, b) == ReadData(content, p, a + b)
            && ReadEnd(content, mid, b) == ReadEnd(content, p, a + b)
  {
  }

  /** Two reads in a row return what one read of both sizes returns. */
  lemma ReadInTwo(s: State, fd: int, a: nat, b: nat)
    requires Wf(s) && fd in s.fds && CanRead(s.fds[fd].flags)
    ensures var (s', first) := ApplyRead(s, fd, a);
            && Wf(s') && fd in s'.fds
            && var (s'', second) := ApplyRead(s', fd, b);
            var (t, both) := ApplyRead(s, fd, a + b);
            && first.data + second.data == both.data && first.ret + second.ret == both.ret
            && s''.fds[fd].Position() == t.fds[fd].Position() && s''.files == t.files == s.files
  {
    assert FdsWf(s.files, s.fds);
    hide ApplyRead, FlatFd.Position, Wf, FdsWf, ReadEnd, ReadData;
    ReadIs(s, fd, a);
    ReadIs(s, fd, a + b);
    ReadIs(ApplyRead(s, fd, a).0, fd, b);
    DataInTwo(s.files[s.fds[fd].file].content, s.fds[fd].Position(), a, b);
  }

  /** A read reports an earlier error again exactly if it ends at a gap in the chain: behind
      the last byte of a block that is not full. */
  lemma StaleErrorIff(s: State, fd: int, size: nat)
    requires Wf(s) && fd in s.fds && CanRead(s.fds[fd].flags) && s.errno != NoErr
    ensures var (d, f) := (s.fds[fd], s.files[s.fds[fd].file]);
            ApplyRead(s, fd, size).0.errno != NoErr <==>
              size > 0 && d.Position() + size > |f.content| && |f.content| / BLOCK_SIZE < f.blocks
  {
  }

  /** The size that resize compares with, for a file that fits into its blocks. */
  lemma AllocatedIs(f: FlatFile)
    requires FileWf(f)
    ensures AllocatedSize(f) == if f.blocks == 0 then 0 else Max(|f.content|, (f.blocks - 1) * BLOCK_SIZE)
  {
  }

  /** Asking for as many bytes as there are, or for more, never is a shrink unless whole blocks are
      allocated behind them. Then it changes no byte and no descriptor, and allocates what lacks. */
  lemma GrowKeepsContent(s: State, fd: int, newSize: nat)
    requires Wf(s) && fd in s.fds && newSize <= MAX_FILE_SIZE
    requires var f := s.files[s.fds[fd].file]; |f.content| <= newSize && f.blocks * BLOCK_SIZE <= newSize + BLOCK_SIZE
    ensures Safe(s, Resize(fd, newSize)) && ApplyResize(s, fd, newSize).1.ret == 0
    ensures var (s', id) := (ApplyResize(s, fd, newSize).0, s.fds[fd].file);
            && s'.fds == s.fds && s'.names == s.names && s'.files.Keys == s.files.Keys
            && (forall k | k in s.files :: s'.files[k].content == s.files[k].content)
            && (forall k | k in s.files && k != id :: s'.files[k] == s.files[k])
            && newSize <= s'.files[id].blocks * BLOCK_SIZE
            && (s'.files[id].blocks * BLOCK_SIZE < newSize + BLOCK_SIZE || s'.files[id].blocks == s.files[id].blocks)
  {
    AllocatedIs(s.files[s.fds[fd].file]);
  }

  /** Asking for fewer bytes than there are, or for just them when whole blocks lie behind, keeps a
      prefix. Descriptors in or behind its last block go to the new end, even forwards; all others
      stay, and none of the file is behind the end. */
  lemma ShrinkKeepsPrefix(s: State, fd: int, newSize: nat, other: int)
    requires Wf(s) && fd in s.fds && newSize <= MAX_FILE_SIZE && other in s.fds
    requires var f := s.files[s.fds[fd].file];
             0 < newSize <= |f.content| && (newSize < |f.content| || newSize + BLOCK_SIZE < f.blocks * BLOCK_SIZE)
    ensures Safe(s, Resize(fd, newSize)) && ApplyResize(s, fd, newSize).1.ret == 0
    ensures var s' := ApplyResize(s, fd, newSize).0;
            var id := s.fds[fd].file;
            var (d, d') := (s.fds[other], s'.fds[other]);
            && s'.names == s.names && s'.files.Keys == s.files.Keys && s'.fds.Keys == s.fds.Keys
            && s'.files[id].content == s.files[id].content[..newSize]
            && newSize <= s'.files[id].blocks * BLOCK_SIZE < newSize + BLOCK_SIZE
            && (forall k | k in s.files && k != id :: s'.files[k] == s.files[k])
            && d'.file == d.file && d'.flags == d.flags
            && (d.file != id ==> d' == d)
            && (d.file == id ==> d'.Position() <= newSize)
            && (d.file == id && d.block * BLOCK_SIZE < newSize ==> d' == d)
            && (d.file == id && d.block * BLOCK_SIZE >= newSize ==>
                  d'.Position() == newSize && d'.block == s'.files[id].blocks)
            && (d'.Position() > d.Position() <==> d.file == id && d.block * BLOCK_SIZE >= newSize > d.Position())
  {
    AllocatedIs(s.files[s.fds[fd].file]);
    ShrinkIs(s, fd, newSize);
    EndingAtIs(s.fds[other], newSize);
  }

  /** The resizes that the program survives with a file that somebody wrote: those two kinds, and
      those that are refused. */
  lemma ResizeSafeIff(s: State, fd: int, newSize: nat)
    requires Wf(s) && fd in s.fds && newSize <= MAX_FILE_SIZE
    ensures var f := s.files[s.fds[fd].file];
            Safe(s, Resize(fd, newSize)) <==>
              || 0 < newSize <= |f.content|
              || (newSize >= |f.content| && f.blocks * BLOCK_SIZE <= newSize + BLOCK_SIZE)
    ensures var f := s.files[s.fds[fd].file];
            KeepsBlock(s, fd, newSize) <==> newSize > 0 || (|f.content| == 0 && f.blocks <= 1)
  {
    AllocatedIs(s.files[s.fds[fd].file]);
  }

  // ---------- opening, closing, deleting ----------

  /** Opening gives out the lowest number not in use, for a descriptor at the file's start that was
      never used; the file is the one of that name, or a new empty one. */
  lemma OpenIs(s: State, name: string, flags: Flags)
    requires Wf(s) && (name in s.names || flags & CREATE != 0)
    ensures var (s', reply) := ApplyOpen(s, name, flags);
            var fd := reply.ret;
            && fd >= 1 && fd !in s.fds && (forall k | 1 <= k < fd :: k in s.fds)
            && s'.fds.Keys == s.fds.Keys + {fd} && (forall k | k in s.fds :: s'.fds[k] == s.fds[k])
            && s'.fds[fd].block == 0 && s'.fds[fd].Position() == 0
            && name in s'.names && s'.names[name] == s'.fds[fd].file
            && (if name in s.names then s'.names == s.names && s'.files == s.files
                else
                  && s'.names == s.names[name := s.nextId] && s.nextId !in s.files
                  && s'.files == s.files[s.nextId := FlatFile([], 0)])
  {
  }

  /** Closing takes one descriptor, deleting one name, and neither changes a file that stays. */
  lemma EndIs(s: State, fd: int, name: string)
    requires Wf(s)
    ensures fd in s.fds ==>
              var s' := ApplyClose(s, fd).0;
              && s'.fds == s.fds - {fd} && s'.names == s.names
              && forall id | id in s'.files :: id in s.files && s'.files[id] == s.files[id]
    ensures name in s.names ==>
              var s' := ApplyDelete(s, name).0;
              && s'.names == s.names - {name} && s'.fds == s.fds
              && forall id | id in s'.files :: id in s.files && s'.files[id] == s.files[id]
  {
    hide Fits, FileWf, Reachable;
  }

  // ---------- what is refused ----------

  /** When a call fails, and with which error; a call that fails changes nothing else. */
  lemma RefusedIff(s: State, op: Op)
    requires Wf(s) && Safe(s, op)
    ensures var (s', reply) := Apply(s, op);
            var refused := match op
                           case Open(name, flags) => if name !in s.names && flags & CREATE == 0 then NoFile else NoErr
                           case Write(fd, buf) =>
                             if fd !in s.fds then NoFile
                             else if s.fds[fd].flags & (WRITE_ONLY | READ_WRITE) == 0 then NoPermission
                             else if s.fds[fd].Position() + |buf| > 0x4000_0000 then NoMem
                             else NoErr
                           case Read(fd, size) =>
                             if fd !in s.fds then NoFile
                             else if s.fds[fd].flags & (READ_ONLY | READ_WRITE) == 0 then NoPermission
                             else NoErr
                           case Close(fd) => if fd !in s.fds then NoFile else NoErr
                           case Delete(name) => if name !in s.names then NoFile else NoErr
                           case Resize(fd, newSize) =>
                             if fd !in s.fds then NoFile else if newSize > 0x4000_0000 then NoMem else NoErr;
            && (reply.ret == -1 <==> refused != NoErr)
            && (refused != NoErr ==> s' == s.(errno := refused) && reply.data == [])
            && (refused == NoErr && !op.Read? ==> s'.errno == NoErr && reply.data == [])
            && (refused == NoErr ==>
                  if op.Open? then reply.ret >= 1
                  else reply.ret == if op.Write? then |op.buf| else |reply.data|)
  {
    hide Fits, FileWf, Reachable, NamesWf, FilesWf, WrittenFile, WrittenFd, ReadFd, AllocatedSize;
  }

  /** What a file may be used for depends on the flags with which it was opened: without any of the
      three for both, and with one of them for that. */
  lemma AccessIs(s: State, name: string, flags: Flags, buf: seq<Byte>, size: nat)
    requires Wf(s) && (name in s.names || flags & CREATE != 0)
    ensures var (s', reply) := ApplyOpen(s, name, flags);
            && Wf(s') && reply.ret in s'.fds && |buf| <= MAX_FILE_SIZE ==>
                 && (ApplyWrite(s', reply.ret, buf).1.ret == -1 <==>
                       flags & READ_ONLY != 0 && flags & (WRITE_ONLY | READ_WRITE) == 0)
                 && (ApplyRead(s', reply.ret, size).1.ret == -1 <==>
                       flags & WRITE_ONLY != 0 && flags & (READ_ONLY | READ_WRITE) == 0)
                 && (ApplyWrite(s', reply.ret, buf).1.ret == -1 ==>
                       ApplyWrite(s', reply.ret, buf).0 == s'.(errno := NoPermission))
                 && (ApplyRead(s', reply.ret, size).1.ret == -1 ==>
                       ApplyRead(s', reply.ret, size).0 == s'.(errno := NoPermission))
  {
    hide Fits, FileWf, Reachable, NamesWf, FilesWf, WrittenFile, WrittenFd, ReadFd;
    AccessModeIs(flags);
  }

  lemma AccessModeIs(flags: Flags)
    ensures CanWrite(AccessMode(flags)) <==> !(flags & READ_ONLY != 0 && flags & (WRITE_ONLY | READ_WRITE) == 0)
    ensures CanRead(AccessMode(flags)) <==> !(flags & WRITE_ONLY != 0 && flags & (READ_ONLY | READ_WRITE) == 0)
  {
  }

  // ---------- when a file goes ----------

  /** A file goes exactly when it is neither named nor open any more, and its id is not used again. */
  lemma GoesIff(s: State, op: Op, id: nat)
    requires Wf(s) && Safe(s, op)
    ensures var s' := Apply(s, op).0;
            && (id in s.files ==> (id !in s'.files <==> id !in s'.names.Values && Openers(s'.fds, id) == {}))
            && (id !in s.files && id in s'.files ==> id == s.nextId < s'.nextId)
            && s.nextId <= s'.nextId
  {
    ApplyKeepsWf(s, op);
    var s' := Apply(s, op).0;
    if id !in s'.files && Openers(s'.fds, id) != {} {
      var fd := Member(Openers(s'.fds, id));
      assert false;
    }
  }

  // ---------- whole histories ----------

  /** The call goes to this file: through a name or a descriptor of it. */
  predicate Concerns(s: State, op: Op, id: nat) {
    match op
    case Open(name, flags) => name in s.names && s.names[name] == id
    case Delete(name) => name in s.names && s.names[name] == id
    case Write(fd, buf) => fd in s.fds && s.fds[fd].file == id
    case Read(fd, size) => fd in s.fds && s.fds[fd].file == id
    case Close(fd) => fd in s.fds && s.fds[fd].file == id
    case Resize(fd, newSize) => fd in s.fds && s.fds[fd].file == id
  }

  /** s' has this file and all its descriptors as s has them. */
  predicate SameFile(s: State, s': State, id: nat) {
    && id in s.files && id in s'.files && s'.files[id] == s.files[id]
    && (forall fd | fd in s.fds && s.fds[fd].file == id :: fd in s'.fds && s'.fds[fd] == s.fds[fd])
    && (forall fd | fd in s'.fds && s'.fds[fd].file == id :: fd in s.fds && s.fds[fd].file == id)
  }

  lemma OtherOpenKeeps(s: State, name: string, flags: Flags, id: nat)
    requires Wf(s) && id in s.files && !Concerns(s, Open(name, flags), id)
    ensures SameFile(s, ApplyOpen(s, name, flags).0, id)
  {
  }

  lemma OtherTransferKeeps(s: State, fd: int, buf: seq<Byte>, size: nat, id: nat)
    requires Wf(s) && id in s.files && !(fd in s.fds && s.fds[fd].file == id)
    ensures SameFile(s, ApplyWrite(s, fd, buf).0, id) && SameFile(s, ApplyRead(s, fd, size).0, id)
  {
    hide WrittenFile, WrittenFd, ReadFd, Fits, FileWf;
    if fd in s.fds {
      SameOwner(s, fd, buf, size);
    }
  }

  lemma SameOwner(s: State, fd: int, buf: seq<Byte>, size: nat)
    requires FdsWf(s.files, s.fds) && fd in s.fds
    ensures var (d, f) := (s.fds[fd], s.files[s.fds[fd].file]);
            && d.Position() <= |f.content| && WrittenFd(d, |buf|).file == d.file
            && ReadFd(d, f, size, s.errno).0.file == d.file
  {
  }

  lemma OtherEndKeeps(s: State, fd: int, name: string, id: nat)
    requires Wf(s) && id in s.files
    ensures !Concerns(s, Close(fd), id) ==> SameFile(s, ApplyClose(s, fd).0, id)
    ensures !Concerns(s, Delete(name), id) ==> SameFile(s, ApplyDelete(s, name).0, id)
  {
    hide Fits, FileWf;
  }

  lemma OtherResizeKeeps(s: State, fd: int, newSize: nat, id: nat)
    requires Wf(s) && Safe(s, Resize(fd, newSize)) && id in s.files && !Concerns(s, Resize(fd, newSize), id)
    ensures SameFile(s, ApplyResize(s, fd, newSize).0, id)
  {
  }

  lemma OtherCallKeeps(s: State, op: Op, id: nat)
    requires Wf(s) && Safe(s, op) && id in s.files && !Concerns(s, op, id)
    ensures SameFile(s, Apply(s, op).0, id)
  {
    hide ApplyOpen, ApplyWrite, ApplyRead, ApplyClose, ApplyDelete, ApplyResize, SameFile, Reachable, NamesWf, FilesWf;
    match op
    case Open(name, flags) => OtherOpenKeeps(s, name, flags, id);
    case Write(fd, buf) => OtherTransferKeeps(s, fd, buf, 0, id);
    case Read(fd, size) => OtherTransferKeeps(s, fd, [], size, id);
    case Close(fd) => OtherEndKeeps(s, fd, "", id);
    case Delete(name) => OtherEndKeeps(s, 0, name, id);
    case Resize(fd, newSize) => OtherResizeKeeps(s, fd, newSize, id);
  }

  /** A call for another file leads no name and no descriptor to this one. */
  lemma StaysUnconcerned(s: State, op: Op, later: Op, id: nat)
    requires Wf(s) && Safe(s, op) && id in s.files && !Concerns(s, op, id) && !Concerns(s, later, id)
    ensures !Concerns(Apply(s, op).0, later, id)
  {
    hide Apply, SameFile, Fits, FileWf;
    OtherCallKeeps(s, op, id);
    NamesOfOthers(s, op, id);
    SameDescs(s, Apply(s, op).0, id);
  }

  lemma SameDescs(s: State, s': State, id: nat)
    requires SameFile(s, s', id)
    ensures forall fd | fd in s'.fds && s'.fds[fd].file == id :: fd in s.fds && s.fds[fd].file == id
  {
  }

  /** A new name never belongs to a file that is there. */
  lemma NamesOfOthers(s: State, op: Op, id: nat)
    requires Wf(s) && Safe(s, op) && id in s.files
    ensures var s' := Apply(s, op).0;
            forall name | name in s'.names && s'.names[name] == id :: name in s.names && s.names[name] == id
  {
    hide Fits, FileWf, WrittenFd, WrittenFile, ReadFd;
  }

  /** Calls that are not for this file now never are for it later, and leave it as it is. */
  lemma {:induction false} OtherCallsKeep(s: State, ops: seq<Op>, id: nat)
    requires Wf(s) && AllSafe(s, ops) && id in s.files && forall op | op in ops :: !Concerns(s, op, id)
    ensures SameFile(s, Run(s, ops).0, id)
    decreases |ops|
  {
    hide Concerns, Safe, Apply;
    if ops == [] {
    } else {
      var s' := Apply(s, ops[0]).0;
      ApplyKeepsWf(s, ops[0]);
      OtherCallKeeps(s, ops[0], id);
      forall op | op in ops[1..]
        ensures !Concerns(s', op, id)
      {
        StaysUnconcerned(s, ops[0], op, id);
      }
      OtherCallsKeep(s', ops[1..], id);
    }
  }

  /** The call goes through one of these descriptors. */
  predicate Uses(op: Op, fds: set<int>) {
    match op
    case Open(name, flags) => false
    case Delete(name) => false
    case Write(fd, buf) => fd in fds
    case Read(fd, size) => fd in fds
    case Close(fd) => fd in fds
    case Resize(fd, newSize) => fd in fds
  }

  /** The call goes through this name. */
  predicate Names(op: Op, name: string) {
    (op.Open? || op.Delete?) && op.name == name
  }

  /** After the name of an open file was deleted and created again. */
  lemma CreatedAgain(s: State, fd: int, name: string, flags: Flags)
    requires Wf(s) && fd in s.fds && name in s.names && s.names[name] == s.fds[fd].file && flags & CREATE != 0
    ensures var ghostFile := s.fds[fd].file;
            var s1 := ApplyDelete(s, name).0;
            var (s2, reply) := ApplyOpen(s1, name, flags);
            && Wf(s1) && Wf(s2) && name in s2.names && s2.names[name] == s.nextId != ghostFile && s.nextId in s2.files
            && s2.files[s.nextId].content == [] && reply.ret !in s.fds && SameFile(s, s2, ghostFile)
            && (forall k | k in s2.fds && s2.fds[k].file == s.nextId :: k == reply.ret)
            && reply.ret in s2.fds && s2.fds[reply.ret].file == s.nextId
            && (forall other | other in s2.names && s2.names[other] == s.nextId :: other == name)
            && ghostFile !in s2.names.Values
  {
    var s1 := ApplyDelete(s, name).0;
    assert fd in Openers(s1.fds, s.fds[fd].file);
    DeleteKeepsWf(s, name);
    OpenKeepsWf(s1, name, flags);
  }

  /** A deleted file that is still open and a new file of the same name do not know of each
      other: whatever happens through names and other descriptors leaves the old one alone, and
      whatever happens through other names and other descriptors leaves the new one alone. */
  lemma GhostLivesOn(s: State, fd: int, name: string, flags: Flags, ops: seq<Op>)
    requires Wf(s) && fd in s.fds && name in s.names && s.names[name] == s.fds[fd].file && flags & CREATE != 0
    ensures var ghostFile := s.fds[fd].file;
            var s1 := ApplyDelete(s, name).0;
            var (s2, reply) := ApplyOpen(s1, name, flags);
            && Wf(s1) && Wf(s2) && name in s2.names && s2.names[name] == s.nextId != ghostFile && s.nextId in s2.files
            && s2.files[s.nextId].content == [] && reply.ret in s2.fds && s2.fds[reply.ret].file == s.nextId
            && reply.ret !in s.fds
            && SameFile(s, s2, ghostFile)
            && (AllSafe(s2, ops) && (forall op | op in ops :: !Uses(op, Openers(s.fds, ghostFile))) ==>
                  SameFile(s, Run(s2, ops).0, ghostFile))
            && (AllSafe(s2, ops) && (forall op | op in ops :: !Uses(op, {reply.ret}) && !Names(op, name)) ==>
                  SameFile(s2, Run(s2, ops).0, s.nextId))
  {
    hide Wf, ApplyDelete, ApplyOpen, Safe;
    CreatedAgain(s, fd, name, flags);
    var ghostFile := s.fds[fd].file;
    var (s2, reply) := ApplyOpen(ApplyDelete(s, name).0, name, flags);
    if AllSafe(s2, ops) && forall op | op in ops :: !Uses(op, Openers(s.fds, ghostFile)) {
      OtherCallsKeep(s2, ops, ghostFile);
    }
    if AllSafe(s2, ops) && forall op | op in ops :: !Uses(op, {reply.ret}) && !Names(op, name) {
      OtherCallsKeep(s2, ops, s.nextId);
    }
  }

  // ---------- why some calls are excluded ----------

  /** From any descriptor the write loop ends exactly if the write is one of the safe ones. */
  lemma WriteEndsIff(d: FlatFd, f: FlatFile, buf: seq<Byte>)
    requires FileWf(f) && Fits(d, f)
    ensures Started(Transfer(d, f, buf)).Standing()
    ensures (exists n: nat :: Iterate(Started(Transfer(d, f, buf)), n).rest == []) <==>
              |buf| == 0 || d.Position() >= |f.content| / BLOCK_SIZE * BLOCK_SIZE
  {
    StartedStands(Transfer(d, f, buf));
    TerminatesIff(Started(Transfer(d, f, buf)));
  }

  /** A shrink into preallocated blocks exposes bytes that were never written, or leaves a hole:
      what remains is the prefix of the content exactly if newSize is at most its length. */
  lemma ShrinkSoundIff(cells: seq<Cell>, content: seq<Byte>, newSize: nat)
    requires Stair(cells, content) && 0 < newSize && BlocksFor(newSize) <= |cells|
    ensures (exists kept: seq<Byte> :: Stair(Cut(cells, newSize), kept) && kept <= content) <==> newSize <= |content|
    ensures (exists kept: seq<Byte> :: Stair(Cut(cells, newSize), kept)) <==>
            (BlocksFor(newSize) - 1) * BLOCK_SIZE <= |content|
  {
    hide Stair, Cut, BlocksFor;
    if newSize <= |content| {
      CutIsPrefix(cells, content, newSize);
      assert content[..newSize] <= content;
    }
    forall kept: seq<Byte> | Stair(Cut(cells, newSize), kept)
      ensures |kept| == newSize && (BlocksFor(newSize) - 1) * BLOCK_SIZE <= |content|
    {
      CutHolds(cells, content, newSize, kept);
    }
    if (BlocksFor(newSize) - 1) * BLOCK_SIZE <= |content| {
      var kept := ExposedIsStair(cells, content, newSize);
    }
  }

  lemma CutHolds(cells: seq<Cell>, content: seq<Byte>, newSize: nat, kept: seq<Byte>)
    requires Stair(cells, content) && 0 < newSize && BlocksFor(newSize) <= |cells| && Stair(Cut(cells, newSize), kept)
    ensures |kept| == newSize && (BlocksFor(newSize) - 1) * BLOCK_SIZE <= |content|
  {
    var cut, n := Cut(cells, newSize), BlocksFor(newSize);
    assert Holds(cut[n - 1], kept, n - 1);
    if n > 1 {
      assert Holds(cut[n - 2], kept, n - 2) && Holds(cells[n - 2], content, n - 2);
    }
  }

  lemma ExposedIsStair(cells: seq<Cell>, content: seq<Byte>, newSize: nat) returns (kept: seq<Byte>)
    requires Stair(cells, content) && 0 < newSize && BlocksFor(newSize) <= |cells|
    requires (BlocksFor(newSize) - 1) * BLOCK_SIZE <= |content|
    ensures Stair(Cut(cells, newSize), kept)
  {
    var n := BlocksFor(newSize);
    assert Holds(cells[n - 1], content, n - 1);
    kept := content[..(n - 1) * BLOCK_SIZE] + cells[n - 1].memory[..newSize - (n - 1) * BLOCK_SIZE];
    forall k | 0 <= k < n
      ensures Holds(Cut(cells, newSize)[k], kept, k)
    {
      assert Holds(cells[k], content, k);
    }
  }
}
