/** The in-memory file system: the list of files, the table of descriptors and the six calls.

    Each call carries out the operation of the same name of the specification in FlatFs:
    the ghost field model is the specification's state, and View ties it to the heap. */
module UserFs {
  import opened Basics
  import opened FlatFs
  import opened FileBlocks
  import opened Descriptors
  import opened FileList
  import opened DescTable
  import Staircase
  import opened ReadLoop
  import opened WriteLoop

  /** Every file stands for its counterpart, is not freed, and counts its descriptors. */
  ghost predicate FilesOk(names: map<string, nat>, files: map<nat, FlatFile>, fds: map<int, FlatFd>,
                          byId: map<nat, File>, blocks: set<Block>)
    reads byId.Values`blockList, byId.Values`lastBlock, byId.Values`numBlocks, byId.Values`chain
    reads byId.Values`blocks, byId.Values`cells, byId.Values`content, byId.Values`refs
    reads byId.Values`deleted, byId.Values`freed, blocks
  {
    && byId.Keys == files.Keys
    && (forall id | id in byId :: byId[id].blocks <= blocks && byId[id].id == id)
    && (forall id, b | id in byId && b in byId[id].blocks :: b.owner == byId[id])
    && (forall id | id in byId :: byId[id].Stands(files[id], |Openers(fds, id)|, id in names.Values))
  }

  /** Every open descriptor stands for its counterpart, and its file and block are alive. */
  ghost predicate DescsOk(fds: map<int, FlatFd>, byId: map<nat, File>, open: map<int, FileDesc>)
    reads open.Values, byId.Values`chain
  {
    && open.Keys == fds.Keys
    && (forall fd | fd in open :: open[fd].file.id in byId && byId[open[fd].file.id] == open[fd].file)
    && (forall fd | fd in open :: open[fd].Stands(fd, fds[fd]))
  }

  /** The listed files are the ones that have a name. */
  ghost predicate NamesOk(names: map<string, nat>, byId: map<nat, File>, listed: seq<File>) {
    && (forall f | f in listed :: f.id in byId && byId[f.id] == f && f.name in names && names[f.name] == f.id)
    && (forall name | name in names ::
        names[name] in byId && byId[names[name]] in listed && byId[names[name]].name == name)
  }

  class FileSystem {
    const files: FileList
    const table: DescTable
    var errno: ErrorCode
    ghost var model: State
    ghost var byId: map<nat, File>  // the files that are not freed
    ghost var blocks: set<Block>    // their blocks, and freed ones

    /** The specification's state, if the heap represents it. */
    ghost function View(): Option<State>
      reads *
    {
      if model.errno == errno && PartsWf(model.names, model.files, model.fds, model.nextId)
         && FilesOk(model.names, model.files, model.fds, byId, blocks) && DescsOk(model.fds, byId, table.open)
         && table.Ok() && files.Ok() && NamesOk(model.names, byId, files.files)
      then Some(model)
      else None
    }

    constructor ()
      ensures View() == Some(EMPTY) && model == EMPTY && fresh(Repr())
    {
      files := new FileList();
      table := new DescTable();
      errno, model, byId, blocks := NoErr, EMPTY, map[], {};
    }

    /** The objects that the file system consists of. */
    ghost function Repr(): set<object>
      reads *
    {
      {this, files, table, table.descriptors} + byId.Values + blocks + table.open.Values
    }

    /** The files that went are freed, with all their blocks. */
    ghost predicate Gone(before: map<nat, File>)
      reads this`byId, before.Values, set f, b | f in before.Values && b in f.blocks :: b
    {
      forall id | id in before && id !in byId :: before[id].freed && forall b | b in before[id].blocks :: b.freed
    }

    /** What the representation says about one open descriptor and its file. */
    lemma OpenFacts(fd: int)
      requires View().Some? && fd in table.open
      ensures var d := table.open[fd];
              var id := d.file.id;
              && fd in model.fds && d.Stands(fd, model.fds[fd])
              && id in byId && byId[id] == d.file && model.fds[fd].file == id && id in model.files
              && d.file.Stands(model.files[id], |Openers(model.fds, id)|, id in model.names.Values)
              && d.FileFlat() == model.files[id] && d.file.blocks <= blocks
              && Fits(model.fds[fd], model.files[id]) && FileWf(model.files[id])
              && Wf(model) && FdsWf(model.files, model.fds) && model.errno == errno
              && d.Placed() && d.Flat() == model.fds[fd] && !d.freed && d.slot == fd && d.file.View().Some?
              && !d.file.freed
    {
    }

    lemma ClosedFacts(fd: int)
      requires View().Some?
      ensures fd in table.open <==> fd in model.fds
    {
    }

    /** No file but f changed, unless in its place in the list, and no block of another file. */
    twostate predicate OnlyFile(new f: File)
      reads *
    {
      && (forall g | g in old(byId.Values) && g != f :: g.SameButLinks())
      && (forall b | b in old(blocks) && b.owner != f :: unchanged(b))
    }

    /** No file but f changed at all, and no block of another file. */
    twostate predicate OthersUnchanged(new f: File)
      reads *
    {
      && (forall g | g in old(byId.Values) && g != f :: unchanged(g))
      && (forall b | b in old(blocks) && b.owner != f :: unchanged(b))
    }

    /** The listed files stand where they stood. */
    twostate predicate LinksKept()
      reads *
    {
      forall g | g in old(byId.Values) && g in old(files.files) :: g.next == old(g.next) && g.prev == old(g.prev)
    }

    /** No chain was cut. */
    twostate predicate ChainsKept()
      reads *
    {
      forall g | g in old(byId.Values) :: old(g.chain) <= g.chain
    }

    /** No descriptor but fd changed. */
    twostate predicate OnlyDesc(fd: int)
      reads *
    {
      forall k | k in old(table.open) && k != fd :: unchanged(old(table.open)[k])
    }

    twostate lemma OthersFacts(f: File)
      requires OthersUnchanged(f) && (f in old(files.files) ==> f.next == old(f.next) && f.prev == old(f.prev))
      ensures OnlyFile(f) && LinksKept()
      ensures old(f.chain) <= f.chain ==> ChainsKept()
    {
    }

    /** After a change of one file, which may be new or gone, and of none of the other files. */
    twostate lemma FilesAfter(new f: File)
      requires old(FilesOk(model.names, model.files, model.fds, byId, blocks)) && byId.Keys == model.files.Keys
      requires forall id | id in byId && id != f.id ::
                 && id in old(byId) && byId[id] == old(byId)[id] && model.files[id] == old(model.files)[id]
                 && Openers(model.fds, id) == old(Openers(model.fds, id))
                 && (id in model.names.Values <==> id in old(model.names.Values))
      requires f.id in byId ==>
               byId[f.id] == f && f.Stands(model.files[f.id], |Openers(model.fds, f.id)|, f.id in model.names.Values)
      requires f.id in byId ==> f.blocks <= blocks && forall b | b in f.blocks :: b.owner == f
      requires old(blocks) <= blocks && OnlyFile(f)
      ensures FilesOk(model.names, model.files, model.fds, byId, blocks)
    {
      hide File.Stands;
      forall id | id in byId && id != f.id
        ensures byId[id].Stands(model.files[id], |Openers(model.fds, id)|, id in model.names.Values)
        ensures byId[id].blocks == old(byId[id].blocks)
      {
        assert byId[id] in old(byId.Values) && byId[id].id == id;
        byId[id].Untouched((model.files[id], |Openers(model.fds, id)|, id in model.names.Values));
      }
    }

    /** After a change of one descriptor, which may be new or gone, when no other chain was cut. */
    twostate lemma DescsAfter(fd: int)
      requires old(DescsOk(model.fds, byId, table.open)) && table.open.Keys == model.fds.Keys
      requires forall k | k in table.open && k != fd ::
                 && k in old(table.open) && table.open[k] == old(table.open)[k] && model.fds[k] == old(model.fds)[k]
                 && table.open[k].file.id in byId && byId[table.open[k].file.id] == table.open[k].file
      requires OnlyDesc(fd) && ChainsKept()
      requires fd in table.open ==>
               table.open[fd].file.id in byId && byId[table.open[fd].file.id] == table.open[fd].file
      requires fd in table.open ==> table.open[fd].Stands(fd, model.fds[fd])
      ensures DescsOk(model.fds, byId, table.open)
    {
      forall k | k in table.open && k != fd
        ensures table.open[k].Stands(k, model.fds[k])
      {
        assert old(table.open[k].Stands(k, model.fds[k])) && table.open[k].file in old(byId.Values);
      }
    }

    /** After a change of one file's content, its blocks, and of none of the other files. */
    twostate lemma FilesAfterTransfer(f: File)
      requires old(FilesOk(model.names, model.files, model.fds, byId, blocks)) && byId == old(byId)
      requires f.id in byId && byId[f.id] == f && f.id in model.files
      requires model.names == old(model.names) && model.files == old(model.files)[f.id := model.files[f.id]]
      requires forall id | id in byId :: Openers(model.fds, id) == old(Openers(model.fds, id))
      requires f.Stands(model.files[f.id], |Openers(model.fds, f.id)|, f.id in model.names.Values)
      requires old(blocks) + f.blocks <= blocks && (forall b | b in f.blocks :: b.owner == f) && OnlyFile(f)
      ensures FilesOk(model.names, model.files, model.fds, byId, blocks)
    {
      hide File.Stands;
      forall id | id in byId && id != f.id
        ensures byId[id].Stands(model.files[id], |Openers(model.fds, id)|, id in model.names.Values)
        ensures byId[id].blocks == old(byId[id].blocks)
      {
        assert byId[id] in byId.Values && byId[id] != f;
        byId[id].Untouched((model.files[id], |Openers(model.fds, id)|, id in model.names.Values));
      }
    }

    /** After a change of one descriptor, when no chain was cut. */
    twostate lemma DescsAfterTransfer(fd: int)
      requires old(DescsOk(model.fds, byId, table.open)) && byId == old(byId) && table.open == old(table.open)
      requires fd in table.open && fd in model.fds && model.fds == old(model.fds)[fd := model.fds[fd]]
      requires table.open[fd].Stands(fd, model.fds[fd])
      requires OnlyDesc(fd) && ChainsKept()
      ensures DescsOk(model.fds, byId, table.open)
    {
      forall k | k in table.open && k != fd
        ensures table.open[k].Stands(k, model.fds[k])
      {
        assert old(table.open[k].Stands(k, model.fds[k])) && old(table.open[fd].Stands(fd, model.fds[fd]));
      }
    }

    /** After a transfer through descriptor fd: the heap changed in the descriptor, its file and
        the file's blocks, which grew at most; the model follows. */
    twostate lemma TransferKeepsView(fd: int)
      requires old(View().Some?) && byId == old(byId) && table.open == old(table.open) && fd in table.open
      requires unchanged(table) && unchanged(table.descriptors) && unchanged(files)
      requires var d := table.open[fd];
               var f := d.file;
               && d.Placed() && !d.freed && d.slot == fd
               && f.View().Some? && old(f.chain) <= f.chain && blocks == old(blocks) + f.blocks
               && f.refs == old(f.refs) && f.deleted == old(f.deleted) && !f.freed
               && f.next == old(f.next) && f.prev == old(f.prev)
               && OthersUnchanged(f) && OnlyDesc(fd)
               && model == old(model).(files := old(model.files)[f.id := d.FileFlat()],
                  fds := old(model.fds)[fd := d.Flat()], errno := errno)
      requires Wf(model)
      ensures View().Some?
    {
      hide PartsWf, FilesOk, DescsOk, NamesOk, FileList.Ok, DescTable.Ok, File.View, OthersUnchanged, OnlyFile,
           OnlyDesc, LinksKept, ChainsKept;
      var d := table.open[fd];
      OthersFacts(d.file);
      OpenFactsBefore(fd);
      d.file.Owns();
      d.file.ViewIs();
      SameFilesSameOpeners(old(model.fds), model.fds);
      assert table.Ok();
      ListKept();
      FilesAfterTransfer(d.file);
      DescsAfterTransfer(fd);
    }

    /** After a truncation: every descriptor of the file stands where the specification says. */
    twostate lemma DescsAfterTruncation(f: File)
      requires old(DescsOk(model.fds, byId, table.open)) && byId == old(byId) && table.open == old(table.open)
      requires f.id in byId && byId[f.id] == f && f.View().Some? && f.content != []
               && |f.chain| == BlocksFor(|f.content|)
      requires f.chain <= old(f.chain) && forall g | g in byId.Values && g != f :: g.chain == old(g.chain)
      requires model.fds == map n | n in old(model.fds) :: TruncatedFd(old(model.fds)[n], f.id, |f.content|)
      requires forall fd | fd in table.open :: table.open[fd].MovedToEnd(f)
      requires forall fd | fd in table.open ::
                 table.open[fd].slot == old(table.open[fd].slot) && table.open[fd].freed == old(table.open[fd].freed)
      ensures DescsOk(model.fds, byId, table.open)
    {
      hide File.View;
      f.LastBlockFacts();
      forall fd | fd in table.open
        ensures table.open[fd].Stands(fd, model.fds[fd])
      {
        assert old(table.open[fd].Stands(fd, model.fds[fd]));
      }
    }

    /** After a truncation of f, the heap changed in f, in its old blocks, and in its descriptors. */
    twostate lemma TruncationKeepsView(f: File)
      requires old(View().Some?) && byId == old(byId) && table.open == old(table.open) && f.id in byId
               && byId[f.id] == f
      requires unchanged(table) && unchanged(table.descriptors) && unchanged(files)
      requires f.View().Some? && f.content != [] && |f.chain| == BlocksFor(|f.content|) && f.chain <= old(f.chain)
      requires f.refs == old(f.refs) && f.deleted == old(f.deleted) && !f.freed && f.next == old(f.next)
               && f.prev == old(f.prev)
      requires blocks == old(blocks) && f.blocks <= blocks && OthersUnchanged(f)
      requires forall fd | fd in table.open :: table.open[fd].MovedToEnd(f)
      requires forall fd | fd in table.open ::
                 table.open[fd].slot == old(table.open[fd].slot) && table.open[fd].freed == old(table.open[fd].freed)
      requires model == old(model).(files := old(model.files)[f.id := FlatFile(f.content, |f.chain|)],
                                    fds := map n | n in old(model.fds) ::
                                        TruncatedFd(old(model.fds)[n], f.id, |f.content|), errno := errno)
      requires Wf(model)
      ensures View().Some?
    {
      hide PartsWf, FilesOk, DescsOk, NamesOk, FileList.Ok, DescTable.Ok, File.View, TruncatedFd, OnlyFile, LinksKept;
      OthersFacts(f);
      FileFactsBefore(f);
      f.Owns();
      f.ViewIs();
      TruncatedSameOpeners(old(model.fds), f.id, |f.content|);
      assert table.Ok();
      ListKept();
      FilesAfterTransfer(f);
      DescsAfterTruncation(f);
    }

    twostate lemma FileFactsBefore(f: File)
      requires old(View().Some?) && f.id in old(byId) && old(byId)[f.id] == f
      ensures old(f.id in model.files
              && f.Stands(model.files[f.id], |Openers(model.fds, f.id)|, f.id in model.names.Values))
      ensures old(FilesOk(model.names, model.files, model.fds, byId, blocks) && DescsOk(model.fds, byId, table.open))
      ensures old(NamesOk(model.names, byId, files.files) && table.Ok() && files.Ok())
    {
    }

    /** After opening f: a new descriptor sits in the first free slot, and f counts it. */
    twostate lemma OpenKeepsView(new d: FileDesc)
      requires old(View().Some?) && byId == old(byId) && blocks == old(blocks) && d.file.id in byId
               && byId[d.file.id] == d.file
      requires d.slot == LowestFree(old(table.open).Keys, 1) && table.open == old(table.open)[d.slot := d] && table.Ok()
      requires !d.freed && d.blockNum == 0 && d.blockPos == 0 && d.currBlock == null
      requires unchanged(files)
      requires var f := d.file;
               && f.refs == old(f.refs) + 1 && f.deleted == old(f.deleted) && f.freed == old(f.freed)
               && f.next == old(f.next) && f.prev == old(f.prev)
               && f.View() == old(f.View()) && f.chain == old(f.chain) && f.blocks == old(f.blocks)
               && OthersUnchanged(f) && OnlyDesc(d.slot)
               && model == old(model).(fds := old(model.fds)[d.slot := d.Flat()], errno := errno)
      requires Wf(model)
      ensures View().Some?
    {
      hide PartsWf, FilesOk, DescsOk, NamesOk, FileList.Ok, DescTable.Ok, File.View, OthersUnchanged, OnlyFile,
           OnlyDesc, LinksKept, ChainsKept;
      OthersFacts(d.file);
      FileFactsBefore(d.file);
      DescFilesBefore();
      assert d.slot !in old(table.open).Keys;
      assert d.slot !in old(model.fds);
      OneMoreOpener(old(model.fds), d.slot, d.Flat());
      ListKept();
      FilesAfter(d.file);
      DescsAfter(d.slot);
    }

    twostate lemma DescFilesBefore()
      requires old(View().Some?)
      ensures old(table.open).Keys == old(model.fds).Keys && old(byId).Keys == old(model.files).Keys
      ensures forall k | k in old(table.open) ::
                old(table.open)[k].file.id in old(byId)
                    && old(byId)[old(table.open)[k].file.id] == old(table.open)[k].file
      ensures forall k | k in old(table.open) :: old(model.fds)[k].file == old(table.open)[k].file.id
      ensures old(forall k | k in byId :: byId[k].id == k && forall b | b in byId[k].blocks :: b.owner == byId[k])
      ensures old(model.errno == errno) && old(Wf(model))
    {
    }

    twostate lemma TableFactsBefore()
      requires old(View().Some?)
      ensures old(FilesOk(model.names, model.files, model.fds, byId, blocks) && DescsOk(model.fds, byId, table.open))
      ensures old(NamesOk(model.names, byId, files.files) && table.Ok() && files.Ok() && FdsWf(model.files, model.fds))
      ensures old(0 !in table.open && model.nextId !in model.files)
    {
      hide FilesOk, NamesOk, FileList.Ok, DescTable.Ok;
    }

    /** The list only depends on the links of its files, and those are in use. */
    twostate lemma ListKept()
      requires old(View().Some?) && unchanged(files) && LinksKept()
      ensures files.Ok()
    {
      hide PartsWf, FilesOk, DescsOk, DescTable.Ok, File.View;
      assert forall f | f in files.files :: f in old(byId.Values);
    }

    twostate lemma OpenFactsBefore(fd: int)
      requires old(View().Some?) && fd in old(table.open)
      ensures old(table.open[fd].file.id in byId && byId[table.open[fd].file.id] == table.open[fd].file)
      ensures old(fd in model.fds && table.open[fd].Stands(fd, model.fds[fd]) && model.fds[fd].file in model.files)
      ensures old(var id := model.fds[fd].file;
                  table.open[fd].file.Stands(model.files[id], |Openers(model.fds, id)|, id in model.names.Values))
      ensures old(FilesOk(model.names, model.files, model.fds, byId, blocks) && DescsOk(model.fds, byId, table.open))
      ensures old(NamesOk(model.names, byId, files.files) && table.Ok() && files.Ok())
    {
    }

    method Fails(e: ErrorCode) returns (ret: int)
      requires View().Some?
      modifies this`errno, this`model
      ensures View().Some? && (model, Reply(ret, [])) == Fail(old(model), e)
    {
      hide PartsWf, FilesOk, DescsOk, NamesOk;
      errno, model := e, model.(errno := e);
      ret := -1;
    }

    /** ufs_write */
    method Write(fd: int, buf: seq<Byte>) returns (ret: int)
      requires View().Some? && Safe(model, Op.Write(fd, buf))
      modifies Repr()
      ensures View().Some? && (model, Reply(ret, [])) == ApplyWrite(old(model), fd, buf)
      ensures fresh(Repr() - old(Repr()))
    {
      hide PartsWf, FilesOk, DescsOk, NamesOk, FileList.Ok, DescTable.Ok, File.View, Fits, FileWf, WrittenFile,
           WrittenFd, Splice, FlatFd.Position;
      ClosedFacts(fd);
      var d := table.GetFd(fd);
      if d == null {
        ret := Fails(NoFile);
        return;
      }
      OpenFacts(fd);
      if !CanWrite(d.flags) {
        ret := Fails(NoPermission);
        return;
      }
      var currSize := d.CurrSize();
      if currSize + |buf| > MAX_FILE_SIZE {
        ret := Fails(NoMem);
        return;
      }
      ret := WriteThrough(d, fd, buf);
    }

    /** What the representation says about the descriptor fd and its file, for a transfer through it. */
    lemma TransferFacts(fd: int)
      requires View().Some? && fd in table.open
      ensures var d := table.open[fd];
              var f := d.file;
              && d.Placed() && !d.freed && d.slot == fd && (forall k | k in table.open && k != fd :: table.open[k] != d)
              && f.View().Some? && !f.freed && f.id in byId && byId[f.id] == f
              && f.blocks <= blocks && (forall b | b in f.blocks :: b.owner == f)
              && Fits(d.Flat(), d.FileFlat()) && FileWf(d.FileFlat())
              && fd in model.fds && model.fds[fd] == d.Flat() && f.id in model.files
                 && model.files[f.id] == d.FileFlat()
              && Wf(model) && FdsWf(model.files, model.fds) && model.errno == errno
    {
      hide View, File.View, Fits, FileWf, Wf, DescTable.Ok;
      OpenFacts(fd);
      AllOpenFacts();
      table.open[fd].file.Owns();
    }

    lemma WriteFacts(fd: int, buf: seq<Byte>)
      requires View().Some? && fd in table.open && CanWrite(table.open[fd].flags)
      requires table.open[fd].Flat().Position() + |buf| <= MAX_FILE_SIZE
      ensures FdsWf(model.files, model.fds)
      ensures var d := table.open[fd];
              && d.Flat().Position() <= |d.FileFlat().content| && Wf(ApplyWrite(model, fd, buf).0)
              && ApplyWrite(model, fd, buf) ==
                 (model.(files := model.files[d.file.id := WrittenFile(d.Flat(), d.FileFlat(), buf)],
                         fds := model.fds[fd := WrittenFd(d.Flat(), |buf|)], errno := NoErr), Reply(|buf|, []))
    {
      hide View, File.View, FileWf, Wf, WrittenFile, WrittenFd;
      TransferFacts(fd);
      WriteKeepsWf(model, fd, buf);
    }

    /** A write that passes the checks. */
    method WriteThrough(d: FileDesc, fd: int, buf: seq<Byte>) returns (ret: int)
      requires View().Some? && fd in table.open && table.open[fd] == d && CanWrite(d.flags)
      requires d.Flat().Position() + |buf| <= MAX_FILE_SIZE && d.Writing(buf).Progresses()
      modifies this`errno, this`model, this`blocks, d, d.file, d.file.blocks
      ensures View().Some? && (model, Reply(ret, [])) == ApplyWrite(old(model), fd, buf)
      ensures fresh(blocks - old(blocks)) && old(blocks) <= blocks
    {
      hide View, File.View, Fits, FileWf, Wf, FdsWf, ApplyWrite, WrittenFile, WrittenFd, FileDesc.Placed,
           Transfer.Progresses;
      TransferFacts(fd);
      WriteFacts(fd, buf);
      ghost var f, after := d.file, ApplyWrite(model, fd, buf).0;
      ret := d.Write(buf);
      errno, model, blocks := NoErr, after, blocks + f.blocks;
      TransferKeepsView(fd);
    }

    /** ufs_read */
    method Read(fd: int, size: nat) returns (ret: int, data: seq<Byte>)
      requires View().Some?
      modifies Repr()
      ensures View().Some? && (model, Reply(ret, data)) == ApplyRead(old(model), fd, size)
      ensures fresh(Repr() - old(Repr()))
    {
      hide PartsWf, FilesOk, DescsOk, NamesOk, FileList.Ok, DescTable.Ok, File.View, Fits, FileWf, ReadFd;
      ClosedFacts(fd);
      var d := table.GetFd(fd);
      data := [];
      if d == null {
        ret := Fails(NoFile);
        return;
      }
      OpenFacts(fd);
      if !CanRead(d.flags) {
        ret := Fails(NoPermission);
        return;
      }
      d.file.NoBlocksIff();
      if d.currBlock == null && d.file.blockList == null {
        errno, model := NoErr, model.(errno := NoErr);
        ret := 0;
        return;
      }
      data := ReadThrough(d, fd, size);
      ret := |data|;
    }

    lemma ReadFacts(fd: int, size: nat)
      requires View().Some? && fd in table.open && CanRead(table.open[fd].flags)
      requires table.open[fd].blockNum > 0 || table.open[fd].file.blockList != null
      ensures FdsWf(model.files, model.fds)
      ensures var d := table.open[fd];
              && Fits(d.Flat(), d.FileFlat()) && Wf(ApplyRead(model, fd, size).0)
              && var (d', errno') := ReadFd(d.Flat(), d.FileFlat(), size, errno);
              var data := Data(d.Flat(), d.FileFlat(), size);
              ApplyRead(model, fd, size) == (model.(fds := model.fds[fd := d'], errno := errno'), Reply(|data|, data))
    {
      hide View, File.View, FileWf, Wf, ReadFd;
      TransferFacts(fd);
      table.open[fd].file.NoBlocksIff();
      ReadKeepsWf(model, fd, size);
    }

    /** A read that passes the checks. */
    method ReadThrough(d: FileDesc, fd: int, size: nat) returns (data: seq<Byte>)
      requires View().Some? && fd in table.open && table.open[fd] == d && CanRead(d.flags)
      requires d.blockNum > 0 || d.file.blockList != null
      modifies this`errno, this`model, d
      ensures View().Some? && (model, Reply(|data|, data)) == ApplyRead(old(model), fd, size)
    {
      hide View, File.View, Fits, FileWf, Wf, FdsWf, ApplyRead, ReadFd, Data, FileDesc.Placed;
      TransferFacts(fd);
      ReadFacts(fd, size);
      ghost var f, after := d.file, ApplyRead(model, fd, size).0;
      assert blocks == blocks + f.blocks && model.files == model.files[f.id := d.FileFlat()];
      var clean;
      data, clean := d.Read(size, errno);
      if clean {
        errno := NoErr;
      }
      model := after;
      TransferKeepsView(fd);
    }

    /** The file has no more bytes than asked for, and no block lies behind them as a whole. */
    ghost predicate Covered(f: File, newSize: nat)
      reads f
    {
      |f.content| <= newSize && |f.chain| * BLOCK_SIZE <= newSize + BLOCK_SIZE
    }

    /** The file has the bytes it had, in the blocks it had and maybe in more, and no descriptor moved. */
    twostate predicate Stays(f: File)
      reads table, table.open.Values, f
    {
      && f.content == old(f.content) && old(f.chain) <= f.chain && table.open == old(table.open)
      && (forall k | k in table.open :: unchanged(table.open[k]))
    }

    /** ufs_resize */
    method Resize(fd: int, newSize: nat) returns (ret: int)
      requires View().Some? && KeepsBlock(model, fd, newSize)
      modifies Repr()
      ensures Safe(old(model), Op.Resize(fd, newSize)) ==>
                View().Some? && (model, Reply(ret, [])) == ApplyResize(old(model), fd, newSize)
      ensures !Safe(old(model), Op.Resize(fd, newSize)) ==>
                && ret == 0 && errno == NoErr && fd in old(table.open) && Overcut(old(table.open[fd].file), newSize)
      ensures fd in old(table.open) && newSize <= MAX_FILE_SIZE && old(Covered(table.open[fd].file, newSize)) ==>
                ret == 0 && Stays(old(table.open[fd].file))
      ensures fresh(Repr() - old(Repr()))
    {
      hide Covered, Stays, Overcut;
      hide View, Wf, FdsWf, Safe, ApplyResize, AllocatedSize, DescTable.Ok, File.View, Fits, FileWf;
      hide File.Linked, File.Mirrored, Staircase.Cut;
      ClosedFacts(fd);
      AllOpenFacts();
      FdsAreWf();
      ResizeRefused(model, fd, newSize);
      var d := table.GetFd(fd);
      if d == null {
        ret := Fails(NoFile);
        return;
      }
      if newSize > MAX_FILE_SIZE {
        ret := Fails(NoMem);
        return;
      }
      SafeIsSound(fd, newSize);
      ResizeThrough(d, fd, newSize);
      OnlyBlocksNew();
      hide Repr;
      ret := 0;
    }

    twostate lemma OnlyBlocksNew()
      requires byId == old(byId) && table.open == old(table.open) && table.descriptors == old(table.descriptors)
      requires fresh(blocks - old(blocks))
      ensures fresh(Repr() - old(Repr()))
    {
    }

    lemma FdsAreWf()
      requires View().Some?
      ensures FdsWf(model.files, model.fds)
    {
    }

    /** A resize that passes the checks. */
    method ResizeThrough(d: FileDesc, fd: int, newSize: nat)
      requires View().Some? && fd in table.open && table.open[fd] == d && newSize <= MAX_FILE_SIZE
      requires FdsWf(model.files, model.fds) && (newSize > 0 || AllocatedSize(d.FileFlat()) == 0)
      modifies this`errno, this`model, this`blocks, d.file, d.file.blocks, table.open.Values
      ensures ResizeSound(old(d.FileFlat()), newSize) ==>
                && Safe(old(model), Op.Resize(fd, newSize))
                && View().Some? && (model, Reply(0, [])) == ApplyResize(old(model), fd, newSize)
      ensures !ResizeSound(old(d.FileFlat()), newSize) ==> errno == NoErr && Overcut(d.file, newSize)
      ensures old(Covered(d.file, newSize)) ==> Stays(d.file)
      ensures fresh(blocks - old(blocks)) && old(blocks) <= blocks
    {
      hide View, File.View, Wf, TruncatedFd, ApplyResize, AllocatedSize, FdsWf, Safe, DescTable.Ok, File.Linked,
           File.Mirrored, Staircase.Cut;
      SafeIsSound(fd, newSize);
      var oldSize := d.file.OldSize();
      if newSize >= oldSize {
        Grow(d, fd, newSize);
      } else {
        Shrink(d, fd, newSize);
      }
    }

    lemma SafeIsSound(fd: int, newSize: nat)
      requires View().Some? && fd in table.open && newSize <= MAX_FILE_SIZE && FdsWf(model.files, model.fds)
      ensures Safe(model, Op.Resize(fd, newSize)) <==> ResizeSound(table.open[fd].FileFlat(), newSize)
      ensures table.open[fd].file.View().Some? && table.open[fd].file.blocks <= blocks
              && table.open[fd].file in byId.Values
      ensures fd in model.fds && model.fds[fd].file in model.files
              && model.files[model.fds[fd].file] == table.open[fd].FileFlat()
    {
      hide View, File.View, Fits, FileWf, AllocatedSize;
      OpenFacts(fd);
    }

    lemma GrowFacts(fd: int, newSize: nat)
      requires FdsWf(model.files, model.fds) && Safe(model, Op.Resize(fd, newSize))
      requires View().Some? && fd in table.open && AllocatedSize(table.open[fd].FileFlat()) <= newSize <= MAX_FILE_SIZE
      ensures var d := table.open[fd];
              && Wf(ApplyResize(model, fd, newSize).0)
              && ApplyResize(model, fd, newSize) ==
                 (model.(files := model.files[d.file.id :=
                                    FlatFile(d.file.content, Max(|d.file.chain|, BlocksFor(newSize)))],
                         fds := model.fds[fd := d.Flat()], errno := NoErr), Reply(0, []))
    {
      hide View, File.View, FileWf, Wf, AllocatedSize;
      TransferFacts(fd);
      GrowKeepsWf(model, fd, newSize);
      assert model.fds == model.fds[fd := table.open[fd].Flat()];
    }

    method Grow(d: FileDesc, fd: int, newSize: nat)
      requires FdsWf(model.files, model.fds) && Safe(model, Op.Resize(fd, newSize))
      requires View().Some? && fd in table.open && table.open[fd] == d
      requires AllocatedSize(d.FileFlat()) <= newSize <= MAX_FILE_SIZE
      modifies this`errno, this`model, this`blocks, d.file, d.file.blocks
      ensures View().Some? && (model, Reply(0, [])) == ApplyResize(old(model), fd, newSize)
      ensures Stays(d.file)
      ensures fresh(blocks - old(blocks)) && old(blocks) <= blocks
    {
      hide View, File.View, Fits, FileWf, Wf, FdsWf, Safe, ApplyResize, AllocatedSize;
      TransferFacts(fd);
      GrowFacts(fd, newSize);
      ghost var f, after := d.file, ApplyResize(model, fd, newSize).0;
      d.file.Grow(BlocksFor(newSize));
      errno, model, blocks := NoErr, after, blocks + f.blocks;
      TransferKeepsView(fd);
    }

    /** After a shrink to more bytes than the file has: its chain is cut and its last block said to
        be filled as if there were that many, and its descriptors are moved. */
    twostate predicate Overcut(f: File, newSize: nat)
      reads table, table.open.Values, f, f.blocks, f.lastBlock
    {
      && newSize > 0 && table.open == old(table.open)
      && BlocksFor(newSize) <= |old(f.cells)| && f.Linked() && f.Mirrored()
      && f.cells == Staircase.Cut(old(f.cells), newSize)
      && (forall k | k in table.open :: table.open[k].MovedToEnd(f))
    }

    /** What is needed to cut the file of descriptor fd. */
    lemma CutFacts(fd: int)
      requires View().Some? && fd in table.open
      ensures table.Ok() && forall k | k in table.open :: table.open[k].slot == k
      ensures var f := table.open[fd].file;
              && f.id in byId && byId[f.id] == f && f.View().Some? && !f.freed && f.blocks <= blocks
              && (forall b | b in f.blocks :: b.owner == f)
              && table.open[fd].FileFlat() == FlatFile(f.content, |f.chain|)
    {
      hide View, File.View, Wf;
      OpenFacts(fd);
      AllOpenFacts();
      table.open[fd].file.Owns();
    }

    lemma ShrinkFacts(fd: int, newSize: nat)
      requires FdsWf(model.files, model.fds)
      requires View().Some? && fd in table.open
      requires 0 < newSize <= |table.open[fd].file.content| && newSize <= MAX_FILE_SIZE
      requires newSize < AllocatedSize(table.open[fd].FileFlat())
      ensures Safe(model, Op.Resize(fd, newSize))
      ensures var f := table.open[fd].file;
              && Wf(ApplyResize(model, fd, newSize).0)
              && ApplyResize(model, fd, newSize) ==
                 (model.(files := model.files[f.id := FlatFile(f.content[..newSize], BlocksFor(newSize))],
                         fds := map n | n in model.fds :: TruncatedFd(model.fds[n], f.id, newSize), errno := NoErr),
                             Reply(0, []))
    {
      hide View, File.View, Wf, AllocatedSize, TruncatedFd, FdsWf, ApplyResize;
      OpenFacts(fd);
      ShrinkIs(model, fd, newSize);
      ShrinkKeepsWf(model, fd, newSize);
    }

    method Shrink(d: FileDesc, fd: int, newSize: nat)
      requires FdsWf(model.files, model.fds)
      requires View().Some? && fd in table.open && table.open[fd] == d
      requires 0 < newSize < AllocatedSize(d.FileFlat()) && newSize <= MAX_FILE_SIZE
      modifies this`errno, this`model, d.file, d.file.blocks, table.open.Values
      ensures newSize <= |old(d.file.content)| ==>
                && Safe(old(model), Op.Resize(fd, newSize))
                && View().Some? && (model, Reply(0, [])) == ApplyResize(old(model), fd, newSize)
      ensures newSize > |old(d.file.content)| ==> errno == NoErr && Overcut(d.file, newSize)
    {
      hide View, File.View, Wf, AllocatedSize, TruncatedFd, Safe, FdsWf, ApplyResize, DescTable.Ok;
      hide FileDesc.MovedToEnd, FileDesc.FileFlat, Overcut, OthersUnchanged, File.Linked, File.Mirrored;
      CutFacts(fd);
      ghost var after := model;
      if newSize <= |d.file.content| {
        ShrinkFacts(fd, newSize);
        after := ApplyResize(model, fd, newSize).0;
      }
      ShrinkTo(d.file, newSize, after);
    }

    /** Cuts the file; if it has the bytes asked for, the specification's state is then after. */
    method ShrinkTo(f: File, newSize: nat, ghost after: State)
      requires View().Some? && f.id in byId && byId[f.id] == f && f.View().Some? && !f.freed && f.blocks <= blocks
      requires forall b | b in f.blocks :: b.owner == f
      requires table.Ok() && forall fd | fd in table.open :: table.open[fd].slot == fd
      requires 0 < newSize < AllocatedSize(FlatFile(f.content, |f.chain|))
      requires newSize <= |f.content| ==>
                 && after == model.(files := model.files[f.id := FlatFile(f.content[..newSize], BlocksFor(newSize))],
                                    fds := map n | n in model.fds ::
                                        TruncatedFd(model.fds[n], f.id, newSize), errno := NoErr)
                 && Wf(after)
      modifies this`errno, this`model, f`lastBlock, f`numBlocks, f`chain, f`blocks, f`cells, f`content, f.blocks
      modifies table.open.Values`blockNum, table.open.Values`blockPos, table.open.Values`currBlock
      ensures Overcut(f, newSize) && errno == NoErr && model == after
      ensures newSize <= |old(f.content)| ==> View().Some?
    {
      hide View, File.View, Wf, AllocatedSize, TruncatedFd, DescTable.Ok;
      hide FileDesc.MovedToEnd, Overcut, OthersUnchanged, File.Linked, File.Mirrored;
      CutAndMove(f, newSize, after);
      if newSize <= |old(f.content)| {
        TruncationKeepsView(f);
      }
    }

    /** Truncates the file and moves its descriptors. */
    method CutAndMove(f: File, newSize: nat, ghost after: State)
      requires f.View().Some? && 0 < newSize < AllocatedSize(FlatFile(f.content, |f.chain|))
      requires table.Ok() && forall fd | fd in table.open :: table.open[fd].slot == fd
      requires forall b | b in f.blocks :: b.owner == f
      modifies this`errno, this`model
      modifies f`lastBlock, f`numBlocks, f`chain, f`blocks, f`cells, f`content, f.blocks
      modifies table.open.Values`blockNum, table.open.Values`blockPos, table.open.Values`currBlock
      ensures Overcut(f, newSize) && OthersUnchanged(f) && errno == NoErr && model == after
      ensures newSize <= |old(f.content)| ==> f.View().Some? && f.content == old(f.content)[..newSize]
      ensures f.chain <= old(f.chain) && |f.chain| == BlocksFor(newSize) && f.blocks <= old(f.blocks)
      ensures forall fd | fd in table.open :: table.open[fd].MovedToEnd(f)
    {
      hide DescTable.Ok, File.View, File.Linked, File.Mirrored, Staircase.Cut;
      f.Truncate(newSize);
      assert table.Ok();
      table.MoveToEnd(f);
      assert Overcut(f, newSize);
      errno, model := NoErr, after;
    }

    lemma AllOpenFacts()
      requires View().Some?
      ensures table.Ok() && forall fd | fd in table.open :: table.open[fd].slot == fd
    {
      hide FileList.Ok, DescTable.Ok, File.View, PartsWf, FilesOk, NamesOk;
    }

    /** new_fd and insert_fd on a file in use. */
    method OpenExisting(file: File, flags: Flags) returns (ret: int)
      requires View().Some? && file.id in byId && byId[file.id] == file
      modifies this`errno, this`model, file`refs, table, table.descriptors
      ensures View().Some? && (model, Reply(ret, [])) == OpenFile(old(model), file.id, flags)
      ensures fresh(table.open.Values - old(table.open.Values))
              && (table.descriptors == old(table.descriptors) || fresh(table.descriptors))
    {
      hide View, FilesOk, DescsOk, NamesOk, FileList.Ok, DescTable.Ok, File.View, Wf, AccessMode;
      TableFacts();
      OpenFileKeepsWf(model, file.id, flags);
      ghost var after := OpenFile(model, file.id, flags).0;
      var d;
      d, ret := Attach(file, AccessMode(flags));
      errno, model := NoErr, after;
      OpenKeepsView(d);
    }

    /** A new descriptor of the file in the first free slot. */
    method Attach(file: File, flags: Flags) returns (d: FileDesc, fd: int)
      requires table.Ok()
      modifies file`refs, table, table.descriptors
      ensures table.Ok() && fd == d.slot == LowestFree(old(table.open).Keys, 1)
              && table.open == old(table.open)[d.slot := d]
      ensures fresh(d) && d.file == file && d.flags == flags && file.refs == old(file.refs) + 1
      ensures !d.freed && d.blockNum == 0 && d.blockPos == 0 && d.currBlock == null
      ensures table.descriptors == old(table.descriptors) || fresh(table.descriptors)
    {
      hide DescTable.Ok;
      d := new FileDesc(file, flags);
      fd := table.InsertFd(d);
      d.slot := fd;
    }

    lemma TableFacts()
      requires View().Some?
      ensures table.Ok() && table.open.Keys == model.fds.Keys && byId.Keys == model.files.Keys && Wf(model)
    {
    }

    /** What the list says about a name. */
    lemma ListFacts(name: string)
      requires View().Some?
      ensures files.Ok() && forall f | f in files.files ::
              f.id in byId && byId[f.id] == f && f in byId.Values && f.blocks <= blocks
      ensures forall f | f in files.files && f.name == name :: name in model.names && model.names[name] == f.id
      ensures (forall f | f in files.files :: f.name != name) ==> name !in model.names
      ensures Wf(model) && model.nextId !in byId
    {
      hide FileList.Ok, DescTable.Ok, File.View, File.Stands, DescsOk;
    }

    /** After a new file was put in front of the list. */
    twostate lemma CreateKeepsView(new f: File)
      requires old(View().Some?) && f.name !in old(model.names) && f.id == old(model.nextId)
      requires f.View() == Some(FlatFile([], 0)) && f.blocks == {} && f.refs == 0 && !f.deleted && !f.freed
      requires byId == old(byId)[f.id := f] && blocks == old(blocks) && table.open == old(table.open)
      requires model == CreateFile(old(model), f.name) && errno == old(errno) && unchanged(table)
               && unchanged(table.descriptors)
      requires files.Ok() && files.files == [f] + old(files.files)
      requires OnlyFile(f) && ChainsKept() && OnlyDesc(0)
      requires Wf(model)
      ensures View().Some?
    {
      hide PartsWf, FilesOk, DescsOk, NamesOk, FileList.Ok, DescTable.Ok, File.View, OthersUnchanged, OnlyFile,
           OnlyDesc, LinksKept, ChainsKept;
      DescFilesBefore();
      TableFactsBefore();
      OneMoreName(old(model.names), f.name, f.id);
      assert table.Ok();
      NewFileUnopened(old(model.fds), old(model.files), f.id);
      FilesAfter(f);
      DescsAfter(0);
      NamesAfterCreate(old(model.names), old(byId), old(files.files), f);
    }

    method CreateNew(name: string) returns (file: File)
      requires View().Some? && name !in model.names
      modifies this`model, this`byId, files, byId.Values`next, byId.Values`prev
      ensures View().Some? && model == CreateFile(old(model), name)
      ensures fresh(file) && file.id == old(model.nextId) && byId == old(byId)[file.id := file]
    {
      hide View, FilesOk, DescsOk, NamesOk, FileList.Ok, DescTable.Ok, File.View, Wf;
      ListFacts(name);
      CreateKeepsWf(model, name);
      file := new File(name, model.nextId);
      file.ViewIs();
      files.InsertFile(file);
      byId, model := byId[file.id := file], CreateFile(model, name);
      CreateKeepsView(file);
    }

    /** ufs_open */
    method Open(name: string, flags: Flags) returns (ret: int)
      requires View().Some?
      modifies Repr()
      ensures View().Some? && (model, Reply(ret, [])) == ApplyOpen(old(model), name, flags)
      ensures fresh(Repr() - old(Repr()))
    {
      hide View, FilesOk, DescsOk, NamesOk, FileList.Ok, DescTable.Ok, File.View, Wf, AccessMode, OpenFile, CreateFile;
      ListFacts(name);
      var file, k := files.Search(name);
      if file != null {
        assert file in files.files;
        ret := OpenExisting(file, flags);
        return;
      }
      if flags & CREATE == 0 {
        ret := Fails(NoFile);
        return;
      }
      var created := CreateNew(name);
      ret := OpenExisting(created, flags);
    }

    /** No other descriptor belongs to a file that goes with its last one. */
    twostate lemma DescsAfterClose(fd: int)
      requires old(View().Some?) && fd in old(table.open) && table.open == old(table.open) - {fd}
               && model.fds == old(model.fds) - {fd}
      requires var f := old(table.open[fd].file);
               byId == if old(f.refs == 1 && f.deleted) then old(byId) - {f.id} else old(byId)
      requires ChainsKept() && OnlyDesc(fd)
      ensures DescsOk(model.fds, byId, table.open)
    {
      hide PartsWf, FilesOk, DescsOk, NamesOk, FileList.Ok, DescTable.Ok, File.View, OthersUnchanged, OnlyFile,
           OnlyDesc, LinksKept, ChainsKept;
      var f := old(table.open[fd].file);
      DescFilesBefore();
      TableFactsBefore();
      FileFactsBefore(f);
      OneLessOpener(old(model.fds), fd);
      NoOpeners(model.fds, f.id);
      forall k | k in table.open
        ensures table.open[k].file.id in byId && byId[table.open[k].file.id] == table.open[k].file
      {
        assert model.fds[k].file == table.open[k].file.id;
      }
      DescsAfter(fd);
    }

    /** After the descriptor fd was dropped, and its file too if nothing else held it. */
    twostate lemma CloseKeepsView(fd: int)
      requires old(View().Some?) && fd in old(table.open) && table.open == old(table.open) - {fd} && table.Ok()
               && unchanged(files)
      requires blocks == old(blocks) && errno == NoErr && Wf(model)
      requires var f := old(table.open[fd].file);
               && f.chain == old(f.chain) && f.blocks == old(f.blocks)
               && model.names == old(model.names) && model.fds == old(model.fds) - {fd} && model.errno == NoErr
               && OthersUnchanged(f) && OnlyDesc(fd)
               && (if old(f.refs == 1 && f.deleted)
                   then byId == old(byId) - {f.id} && model.files == old(model.files) - {f.id}
                   else && byId == old(byId) && model.files == old(model.files) && f.View() == old(f.View()) && !f.freed
                        && f.refs == old(f.refs) - 1 && unchanged(f`deleted, f`next, f`prev))
      ensures View().Some?
    {
      hide PartsWf, FilesOk, DescsOk, NamesOk, FileList.Ok, DescTable.Ok, File.View, OthersUnchanged, OnlyFile,
           OnlyDesc, LinksKept, ChainsKept;
      var f := old(table.open[fd].file);
      DescFilesBefore();
      TableFactsBefore();
      FileFactsBefore(f);
      OneLessOpener(old(model.fds), fd);
      if old(f.refs == 1 && f.deleted) {
        NamesAfterDrop(old(model.names), old(byId), files.files, f.id);
        Unlisted(old(model.names), old(byId), files.files, f);
      }
      OthersFacts(f);
      DescsAfterClose(fd);
      ListKept();
      FilesAfter(f);
    }

    lemma CloseFacts(d: FileDesc)
      requires View().Some? && d.slot in table.open && table.open[d.slot] == d
      ensures table.Ok() && !d.freed && forall k | k in table.open && k != d.slot :: table.open[k] != d
      ensures var f := d.file;
              && f.View().Some? && !f.freed && f.id in byId && byId[f.id] == f
              && f.refs > 0 && (forall b | b in f.blocks :: b.owner == f)
              && Wf(ApplyClose(model, d.slot).0)
              && ApplyClose(model, d.slot) == (model.(fds := model.fds - {d.slot}, errno := NoErr,
                                     files := if f.refs == 1 && f.deleted then model.files - {f.id} else model.files),
                                         Reply(0, []))
    {
      hide View, DescTable.Ok, File.View, Wf, ApplyClose;
      OpenFacts(d.slot);
      AllOpenFacts();
      d.file.Owns();
      CloseKeepsWf(model, d.slot);
      CloseIs(model, d.slot, d.file.refs, d.file.deleted);
    }

    /** Frees the descriptor, and the file if nothing else holds it. */
    method Drop(d: FileDesc, fd: int)
      requires table.Ok() && fd in table.open && table.open[fd] == d
      requires !d.freed && d.file.View().Some? && !d.file.freed && d.file.refs > 0
      modifies d`blockNum, d`blockPos, d`currBlock, d`freed, d.file, d.file.blocks
      modifies table`count, table`open, table.descriptors
      ensures table.Ok() && table.open == old(table.open) - {fd}
      ensures d.freed && d.file.blocks == old(d.file.blocks) && d.file.chain == old(d.file.chain)
      ensures if old(d.file.refs == 1 && d.file.deleted) then d.file.freed && forall b | b in d.file.blocks :: b.freed
              else d.file.View() == old(d.file.View()) && !d.file.freed && d.file.refs == old(d.file.refs) - 1
                   && unchanged(d.file`deleted, d.file`next, d.file`prev)
    {
      hide DescTable.Ok, File.View;
      d.Release();
      assert table.Ok();
      table.RemoveFd(fd);
    }

    /** delete_fd */
    method DeleteFd(d: FileDesc, fd: int)
      requires View().Some? && fd in table.open && table.open[fd] == d && d.slot == fd
      modifies this`errno, this`model, this`byId, d`blockNum, d`blockPos, d`currBlock, d`freed, d.file, d.file.blocks
      modifies table`count, table`open, table.descriptors
      ensures View().Some? && (model, Reply(0, [])) == ApplyClose(old(model), fd)
      ensures byId.Values <= old(byId.Values) && table.open.Values <= old(table.open.Values)
      ensures d.freed && Gone(old(byId))
    {
      hide View, FilesOk, DescsOk, NamesOk, FileList.Ok, DescTable.Ok, File.View, Wf, ApplyClose;
      CloseFacts(d);
      byId := if d.file.refs == 1 && d.file.deleted then byId - {d.file.id} else byId;
      errno, model := NoErr, ApplyClose(model, fd).0;
      Drop(d, fd);
      CloseKeepsView(fd);
    }

    /** ufs_close */
    method Close(fd: int) returns (ret: int)
      requires View().Some?
      modifies Repr()
      ensures View().Some? && (model, Reply(ret, [])) == ApplyClose(old(model), fd)
      ensures fresh(Repr() - old(Repr())) && Gone(old(byId)) && (fd in old(table.open) ==> old(table.open[fd]).freed)
    {
      hide PartsWf, FilesOk, DescsOk, NamesOk, FileList.Ok, DescTable.Ok, File.View, Collect;
      ClosedFacts(fd);
      var d := table.GetFd(fd);
      if d == null {
        ret := Fails(NoFile);
        return;
      }
      OpenFacts(fd);
      DeleteFd(d, fd);
      ret := 0;
    }

    /** No descriptor belongs to a file that goes with its name. */
    twostate lemma DescsAfterDelete(f: File)
      requires old(View().Some?) && f.id in old(byId) && old(byId)[f.id] == f
      requires table.open == old(table.open) && model.fds == old(model.fds)
      requires byId == if old(f.refs) == 0 then old(byId) - {f.id} else old(byId)
      requires ChainsKept() && OnlyDesc(0)
      ensures DescsOk(model.fds, byId, table.open)
    {
      hide PartsWf, FilesOk, DescsOk, NamesOk, FileList.Ok, DescTable.Ok, File.View, OthersUnchanged, OnlyFile,
           OnlyDesc, LinksKept, ChainsKept;
      DescFilesBefore();
      TableFactsBefore();
      FileFactsBefore(f);
      NoOpeners(model.fds, f.id);
      assert forall k | k in table.open :: model.fds[k].file == table.open[k].file.id;
      DescsAfter(0);
    }

    /** After the file f lost its name, and went if it was not open. */
    twostate lemma DeleteKeepsView(f: File)
      requires old(View().Some?) && f.id in old(byId) && old(byId)[f.id] == f && f.name in old(model.names)
               && old(model.names)[f.name] == f.id
      requires blocks == old(blocks) && table.open == old(table.open) && unchanged(table)
               && unchanged(table.descriptors)
      requires errno == NoErr && model.errno == NoErr && Wf(model)
      requires model.names == old(model.names) - {f.name} && model.fds == old(model.fds)
      requires files.Ok() && NamesOk(model.names, byId, files.files)
      requires f.chain == old(f.chain) && f.blocks == old(f.blocks)
      requires OnlyFile(f) && ChainsKept() && OnlyDesc(0)
      requires if old(f.refs) == 0
               then byId == old(byId) - {f.id} && model.files == old(model.files) - {f.id}
               else && byId == old(byId) && model.files == old(model.files) && f.View() == old(f.View()) && !f.freed
                    && f.refs == old(f.refs) && f.deleted
      ensures View().Some?
    {
      hide PartsWf, FilesOk, DescsOk, NamesOk, FileList.Ok, DescTable.Ok, File.View, OthersUnchanged, OnlyFile,
           OnlyDesc, LinksKept, ChainsKept;
      DescFilesBefore();
      TableFactsBefore();
      FileFactsBefore(f);
      assert table.Ok();
      DescsAfterDelete(f);
      OneLessName(old(model.names), f.name);
      FilesAfter(f);
    }

    /** What the list says about the file called name, at place k. */
    lemma DeleteFacts(k: nat)
      requires View().Some? && k < |files.files|
      ensures files.Ok() && forall f | f in files.files :: f.id in byId && byId[f.id] == f && f in byId.Values
      ensures var f, name := files.files[k], files.files[k].name;
              && name in model.names && model.names[name] == f.id
              && f.View().Some? && !f.freed && f in byId.Values && (forall b | b in f.blocks :: b.owner == f)
              && Wf(ApplyDelete(model, name).0)
              && ApplyDelete(model, name) == (model.(names := model.names - {name}, errno := NoErr,
                                     files := if f.refs == 0 then model.files - {f.id} else model.files), Reply(0, []))
              && NamesOk(model.names - {name}, if f.refs == 0 then byId - {f.id} else byId,
                 files.files[..k] + files.files[k + 1..])
    {
      hide View, FileList.Ok, DescTable.Ok, File.View, Wf, ApplyDelete, NamesOk, DescsOk;
      var f := files.files[k];
      ListFacts(f.name);
      FileFacts(f);
      files.Distinct();
      f.Owns();
      DeleteKeepsWf(model, f.name);
      DeleteIs(model, f.name, f.refs);
      NamesAfterDelete(model.names, byId, files.files, k);
      if f.refs == 0 {
        OneLessName(model.names, f.name);
        NamesAfterDrop(model.names - {f.name}, byId, files.files[..k] + files.files[k + 1..], f.id);
      }
    }

    lemma FileFacts(f: File)
      requires View().Some? && f.id in byId && byId[f.id] == f
      ensures f.id in model.files && f.Stands(model.files[f.id], |Openers(model.fds, f.id)|, f.id in model.names.Values)
      ensures NamesOk(model.names, byId, files.files) && NamesWf(model.names, model.files) && Wf(model)
    {
      hide FileList.Ok, DescTable.Ok, File.View, NamesOk, DescsOk;
    }

    /** ufs_delete */
    method Delete(name: string) returns (ret: int)
      requires View().Some?
      modifies Repr()
      ensures View().Some? && (model, Reply(ret, [])) == ApplyDelete(old(model), name)
      ensures fresh(Repr() - old(Repr())) && Gone(old(byId))
    {
      hide View, FilesOk, DescsOk, NamesOk, FileList.Ok, DescTable.Ok, File.View, Wf, Collect;
      ListFacts(name);
      var file, k := files.Search(name);
      if file == null {
        ret := Fails(NoFile);
        return;
      }
      DeleteFile(file, k);
      ret := 0;
    }

    /** Unlinks the file, and frees it if it is not open. */
    method Unlink(file: File, ghost k: nat)
      requires files.Ok() && k < |files.files| && files.files[k] == file && file.View().Some? && !file.freed
      modifies files, files.files`next, files.files`prev, file, file.blocks
      ensures files.Ok() && files.files == old(files.files[..k] + files.files[k + 1..])
      ensures file.blocks == old(file.blocks) && file.chain == old(file.chain)
      ensures if old(file.refs) == 0 then file.freed && forall b | b in file.blocks :: b.freed
              else file.View() == old(file.View()) && !file.freed && file.refs == old(file.refs) && file.deleted
    {
      hide FileList.Ok, File.View;
      files.UnlinkFile(file, k);
      file.deleted := true;
      if file.refs == 0 {
        file.Delete();
      }
    }

    /** Deletes the file at place k of the list. */
    method DeleteFile(file: File, ghost k: nat)
      requires View().Some? && k < |files.files| && files.files[k] == file
      modifies this`errno, this`model, this`byId, files, byId.Values`next, byId.Values`prev, file, file.blocks
      ensures View().Some? && (model, Reply(0, [])) == ApplyDelete(old(model), file.name)
      ensures byId.Values <= old(byId.Values) && Gone(old(byId))
    {
      hide View, FilesOk, DescsOk, NamesOk, FileList.Ok, DescTable.Ok, File.View, Wf, ApplyDelete;
      DeleteFacts(k);
      byId := if file.refs == 0 then byId - {file.id} else byId;
      errno, model := NoErr, ApplyDelete(model, file.name).0;
      Unlink(file, k);
      DeleteKeepsView(file);
    }

    /** One call. */
    method Call(op: Op) returns (reply: Reply)
      requires View().Some? && Wf(model) && Safe(model, op)
      modifies Repr()
      ensures View().Some? && Wf(model) && (model, reply) == Apply(old(model), op)
      ensures fresh(Repr() - old(Repr()))
    {
      hide View, Wf, ApplyOpen, ApplyWrite, ApplyRead, ApplyClose, ApplyDelete, ApplyResize;
      ApplyKeepsWf(model, op);
      var ret, data := 0, [];
      match op {
        case Open(name, flags) => ret := Open(name, flags);
        case Write(fd, buf) => ret := Write(fd, buf);
        case Read(fd, size) => ret, data := Read(fd, size);
        case Close(fd) => ret := Close(fd);
        case Delete(name) => ret := Delete(name);
        case Resize(fd, newSize) => ret := Resize(fd, newSize);
      }
      reply := Reply(ret, data);
    }

    /** Any history of calls that the program survives gives the replies of the specification. */
    method Replay(ops: seq<Op>) returns (replies: seq<Reply>)
      requires View().Some? && Wf(model) && AllSafe(model, ops)
      modifies Repr()
      ensures View().Some? && Wf(model) && (model, replies) == Run(old(model), ops)
      ensures fresh(Repr() - old(Repr()))
      decreases |ops|
    {
      hide View, Wf, Apply, Safe;
      if ops == [] {
        return [];
      }
      var reply := Call(ops[0]);
      var others := Replay(ops[1..]);
      replies := [reply] + others;
    }
  }

  /** A file that does not exist yet is not open. */
  lemma NewFileUnopened(fds: map<int, FlatFd>, files: map<nat, FlatFile>, id: nat)
    requires id !in files && FdsWf(files, fds)
    ensures Openers(fds, id) == {}
  {
    if Openers(fds, id) != {} {
      var fd := Member(Openers(fds, id));
      assert false;
    }
  }

  lemma NamesAfterCreate(names: map<string, nat>, byId: map<nat, File>, listed: seq<File>, f: File)
    requires NamesOk(names, byId, listed) && f.id !in byId && f.name !in names
    ensures NamesOk(names[f.name := f.id], byId[f.id := f], [f] + listed)
  {
  }

  lemma NoOpeners(fds: map<int, FlatFd>, id: nat)
    ensures |Openers(fds, id)| == 0 ==> forall fd | fd in fds :: fds[fd].file != id
  {
    forall fd | |Openers(fds, id)| == 0 && fd in fds
      ensures fds[fd].file != id
    {
      assert fd !in Openers(fds, id);
    }
  }

  /** A file goes exactly when it is deleted and this was its last descriptor. */
  lemma CloseIs(s: State, fd: int, refs: nat, deleted: bool)
    requires fd in s.fds && refs == |Openers(s.fds, s.fds[fd].file)| && deleted == (s.fds[fd].file !in s.names.Values)
    ensures refs > 0
    ensures var id := s.fds[fd].file;
            ApplyClose(s, fd) == (s.(fds := s.fds - {fd}, errno := NoErr,
                                     files := if refs == 1 && deleted then s.files - {id} else s.files), Reply(0, []))
  {
    assert fd in Openers(s.fds, s.fds[fd].file);
    OneLessOpener(s.fds, fd);
  }

  /** A file without a name is not in the list. */
  lemma Unlisted(names: map<string, nat>, byId: map<nat, File>, listed: seq<File>, f: File)
    requires NamesOk(names, byId, listed) && f.id !in names.Values
    ensures f !in listed
  {
  }

  lemma NamesAfterDrop(names: map<string, nat>, byId: map<nat, File>, listed: seq<File>, id: nat)
    requires NamesOk(names, byId, listed) && id !in names.Values
    ensures NamesOk(names, byId - {id}, listed)
  {
  }

  /** A file goes with its name if it is not open. */
  lemma DeleteIs(s: State, name: string, refs: nat)
    requires NamesWf(s.names, s.files) && name in s.names && refs == |Openers(s.fds, s.names[name])|
    ensures ApplyDelete(s, name) == (s.(names := s.names - {name}, errno := NoErr,
                                        files := if refs == 0 then s.files - {s.names[name]} else s.files),
                                            Reply(0, []))
  {
    OneLessName(s.names, name);
  }

  lemma NamesAfterDelete(names: map<string, nat>, byId: map<nat, File>, listed: seq<File>, k: nat)
    requires NamesOk(names, byId, listed) && k < |listed| && forall i, j | 0 <= i < j < |listed| ::
             listed[i] != listed[j]
    ensures NamesOk(names - {listed[k].name}, byId, listed[..k] + listed[k + 1..])
  {
    var left := listed[..k] + listed[k + 1..];
    forall f | f in listed && f != listed[k]
      ensures f in left
    {
      var i :| 0 <= i < |listed| && listed[i] == f;
      assert f == left[if i < k then i else i - 1];
    }
    forall i | 0 <= i < |left|
      ensures left[i] in listed && left[i] != listed[k]
    {
      assert left[i] == listed[if i < k then i else i + 1];
    }
  }

  /** From an empty file system on, any history that the program survives is the history of
      the specification. */
  method RunHistory(ops: seq<Op>) returns (replies: seq<Reply>)
    requires AllSafe(EMPTY, ops)
    ensures replies == Run(EMPTY, ops).1
  {
    assert Wf(EMPTY);
    hide FileSystem.View, Wf, AllSafe, Run;
    var fs := new FileSystem();
    replies := fs.Replay(ops);
  }
}
