/** Descriptors and the two loops that move bytes between a caller's buffer and the blocks. */
module Descriptors {
  import opened Basics
  import opened FlatFs
  import opened Staircase
  import opened FileBlocks
  import opened WriteLoop
  import opened ReadLoop

  class FileDesc {
    const file: File
    const flags: Flags
    var blockNum: nat
    var blockPos: nat
    var currBlock: Block?
    ghost var slot: nat  // the number it is known by
    ghost var freed: bool

    constructor (file: File, flags: Flags)
      modifies file`refs
      ensures this.file == file && this.flags == flags && !freed
      ensures blockNum == 0 && blockPos == 0 && currBlock == null
      ensures file.refs == old(file.refs) + 1
    {
      this.file, this.flags := file, flags;
      blockNum, blockPos, currBlock, slot, freed := 0, 0, null, 0, false;
      new;
      file.refs := file.refs + 1;
    }

    /** The descriptor of the specification that this one stands for. */
    ghost function Flat(): FlatFd
      reads this`blockNum, this`blockPos
    {
      FlatFd(file.id, blockNum, blockPos, flags)
    }

    ghost function FileFlat(): FlatFile
      reads file`chain, file`content
    {
      FlatFs.FlatFile(file.content, |file.chain|)
    }

    /** currBlock is the block that blockNum counts to. */
    ghost predicate Placed()
      reads this`blockNum, this`currBlock, file`chain
    {
      if blockNum == 0 then currBlock == null
      else blockNum <= |file.chain| && currBlock == file.chain[blockNum - 1]
    }

    /** If it stood in or behind the file's last block, the descriptor is now at the file's end. */
    twostate predicate MovedToEnd(f: File)
      reads this`blockNum, this`blockPos, this`currBlock, f`numBlocks, f`lastBlock, f.lastBlock
    {
      if file == f && old(blockNum) >= f.numBlocks
      then blockNum == f.numBlocks && currBlock == f.lastBlock
           && blockPos == if f.lastBlock == null then 0 else f.lastBlock.occupied
      else blockNum == old(blockNum) && currBlock == old(currBlock) && blockPos == old(blockPos)
    }

    /** This descriptor, not freed, is known as fd and stands for flat. */
    ghost predicate Stands(fd: int, flat: FlatFd)
      reads this, file`chain
    {
      slot == fd && !freed && Flat() == flat && Placed()
    }

    /** The state of the write loop when rest is still to be written. */
    ghost function Writing(rest: seq<Byte>): Transfer
      reads this`blockNum, this`blockPos, file`chain, file`content
    {
      Transfer(Flat(), FileFlat(), rest)
    }

    method CurrSize() returns (size: nat)
      ensures size == Flat().Position()
    {
      size := if blockNum == 0 then 0 else (blockNum - 1) * BLOCK_SIZE + blockPos;
    }

    method StandAt(num: nat, pos: nat, block: Block)
      modifies this`blockNum, this`blockPos, this`currBlock
      ensures blockNum == num && blockPos == pos && currBlock == block
    {
      blockNum, blockPos, currBlock := num, pos, block;
    }

    /** free(fd): at most once, and nothing is known of it afterwards. */
    method Free()
      requires !freed
      modifies this`blockNum, this`blockPos, this`currBlock, this`freed
      ensures freed
    {
      freed := true;
    }

    /** Gives up the reference to the file, and frees the descriptor. */
    method Release()
      requires !freed && file.View().Some? && !file.freed && file.refs > 0
      modifies this`blockNum, this`blockPos, this`currBlock, this`freed, file, file.blocks
      ensures freed && file.blocks == old(file.blocks) && file.chain == old(file.chain)
      ensures if old(file.refs == 1 && file.deleted) then file.freed && forall b | b in file.blocks :: b.freed
              else file.View() == old(file.View()) && !file.freed && file.refs == old(file.refs) - 1
                   && unchanged(file`deleted, file`next, file`prev)
    {
      hide File.View;
      file.Unref();
      Free();
    }

    /** Takes the first block, and makes one if there is none. */
    method Start()
      requires file.View().Some? && Placed()
      modifies this`blockNum, this`blockPos, this`currBlock
      modifies file`blockList, file`lastBlock, file`numBlocks, file`chain, file`blocks, file`cells, file.blocks`next
      ensures file.View().Some? && Placed() && old(file.chain) <= file.chain
      ensures Flat() == old(Flat()).(block := Max(old(blockNum), 1)) && |file.chain| == Max(|old(file.chain)|, blockNum)
      ensures fresh(file.blocks - old(file.blocks)) && old(file.blocks) <= file.blocks
    {
      if currBlock == null {
        var first := file.blockList;
        if first == null {
          first := file.IncreaseFile();
        }
        StandAt(1, blockPos, first);
      }
    }

    /** At the end of a full block, steps to the next one, and makes one if there is none. */
    method Advance(ghost rest: seq<Byte>)
      requires file.View().Some? && Placed() && blockNum > 0
      modifies this`blockNum, this`blockPos, this`currBlock
      modifies file`blockList, file`lastBlock, file`numBlocks, file`chain, file`blocks, file`cells, file.blocks`next
      ensures file.View().Some? && Placed() && old(file.chain) <= file.chain
      ensures Writing(rest) == old(Writing(rest)).Advanced()
      ensures fresh(file.blocks - old(file.blocks)) && old(file.blocks) <= file.blocks
    {
      if blockPos == BLOCK_SIZE {
        var next := file.Following(currBlock, blockNum - 1);
        StandAt(blockNum + 1, 0, next);
      }
    }

    /** Copies what fits behind the bytes already in the current block. */
    method StoreHere(rest: seq<Byte>) returns (n: nat)
      requires file.View().Some? && Placed() && Writing(rest).Standing() && blockPos < BLOCK_SIZE
      modifies this`blockPos, file`cells, file`content, currBlock`occupied, currBlock`memory
      ensures file.View().Some? && Placed()
      ensures n == old(Writing(rest)).Room() <= |rest| && Writing(rest[n..]) == old(Writing(rest)).Copied()
    {
      hide File.View, Holds;
      file.BlockHolds(blockNum - 1);
      OccupiedIs(Cell(currBlock.occupied, currBlock.memory), file.content, blockNum - 1);
      var free := BLOCK_SIZE - currBlock.occupied;
      n := if |rest| > free then free else |rest|;
      blockPos := blockPos + n;
      file.Put(currBlock, blockNum - 1, blockPos - n, rest[..n]);
    }

    /** One iteration of the write loop. */
    method StoreSome(rest: seq<Byte>) returns (n: nat)
      requires file.View().Some? && Placed() && Writing(rest).Standing()
      modifies this`blockNum, this`blockPos, this`currBlock
      modifies file`blockList, file`lastBlock, file`numBlocks, file`chain, file`blocks, file`cells, file`content,
               file.blocks
      ensures file.View().Some? && Placed() && old(file.chain) <= file.chain
      ensures n <= |rest| && Writing(rest[n..]) == old(Writing(rest)).Next()
      ensures fresh(file.blocks - old(file.blocks)) && old(file.blocks) <= file.blocks
    {
      WriteLoop.AdvancedStands(Writing(rest));
      Advance(rest);
      n := StoreHere(rest);
    }

    /** The write loop, from a started descriptor. */
    method Store(buf: seq<Byte>) returns (written: nat)
      requires file.View().Some? && Placed() && Writing(buf).Standing() && Writing(buf).Progresses()
      modifies this`blockNum, this`blockPos, this`currBlock
      modifies file`blockList, file`lastBlock, file`numBlocks, file`chain, file`blocks, file`cells, file`content,
               file.blocks
      ensures file.View().Some? && Placed() && old(file.chain) <= file.chain
      ensures written == |buf| && Writing([]) == old(Writing(buf)).Finished()
      ensures fresh(file.blocks - old(file.blocks)) && old(file.blocks) <= file.blocks
    {
      ghost var start, iterations := Writing(buf), 0;
      var rest := buf;
      written := 0;
      while rest != []
        invariant file.View().Some? && Placed() && old(file.chain) <= file.chain
        invariant written + |rest| == |buf| && Writing(rest) == Iterate(start, iterations)
        invariant fresh(file.blocks - old(file.blocks)) && old(file.blocks) <= file.blocks
        decreases |rest|
      {
        IterateMore(start, iterations);
        var n := StoreSome(rest);
        rest := rest[n..];
        written := written + n;
        iterations := iterations + 1;
      }
      IterateFinishes(start, iterations);
    }

    /** Steps to the next block if the descriptor stands at the end of this one. */
    method Skip(ghost t: Fetch)
      requires file.View().Some? && Placed() && t.fd == Flat() && t.Standing(FileFlat()) && !t.AtChainEnd(FileFlat())
      modifies this`blockNum, this`blockPos, this`currBlock
      ensures Placed() && Flat() == t.Advanced().fd
    {
      if blockPos == BLOCK_SIZE {
        StandAt(blockNum + 1, 0, currBlock.next);
      }
    }

    /** Copies what the block still offers, at most size bytes. */
    method FetchHere(size: nat, ghost t: Fetch) returns (data: seq<Byte>)
      requires file.View().Some? && Placed() && t.fd == Flat() && t.left == size && t.Standing(FileFlat())
      modifies this`blockPos
      ensures Placed() && |data| <= size
      ensures Fetch(Flat(), t.data + data, size - |data|) == t.Copied(FileFlat())
    {
      hide File.View, Fits, Holds, Occupied;
      OfferIs(t, FileFlat());
      file.BlockHolds(blockNum - 1);
      OccupiedIs(Cell(currBlock.occupied, currBlock.memory), file.content, blockNum - 1);
      var offer := currBlock.occupied - blockPos;
      var n := if size > offer then offer else size;
      HoldsSlice(Cell(currBlock.occupied, currBlock.memory), file.content, blockNum - 1, blockPos, n);
      data := currBlock.memory[blockPos..blockPos + n];
      blockPos := blockPos + n;
    }

    /** One round of the read loop: it stops behind the last block, stops behind the last
        byte, or copies something. */
    method LoadSome(left: nat, ghost t: Fetch) returns (data: seq<Byte>, stop: bool, clean: bool)
      requires file.View().Some? && Placed() && t.fd == Flat() && t.left == left > 0 && t.Standing(FileFlat())
      modifies this`blockNum, this`blockPos, this`currBlock
      ensures Placed() && (stop && clean <==> t.AtChainEnd(FileFlat()))
      ensures t.AtChainEnd(FileFlat()) ==> Flat() == t.fd
      ensures !t.AtChainEnd(FileFlat()) ==> (stop <==> t.Advanced().AtGap(FileFlat()))
      ensures stop && !clean ==> Flat() == t.Advanced().fd
      ensures !stop ==> |data| <= left && t.Advanced().Standing(FileFlat())
      ensures !stop ==> Fetch(Flat(), t.data + data, left - |data|) == t.Advanced().Copied(FileFlat())
    {
      if blockPos == BLOCK_SIZE && currBlock.next == null {
        return [], true, true;
      }
      ReadLoop.AdvancedStands(t, FileFlat());
      Skip(t);
      assert Holds(file.cells[blockNum - 1], file.content, blockNum - 1);
      if blockPos == currBlock.occupied {
        return [], true, false;
      }
      data := FetchHere(left, t.Advanced());
      stop, clean := false, false;
    }

    /** The read loop, from a started descriptor; clean says whether errno is cleared at the end. */
    method Load(size: nat, ghost errno: ErrorCode) returns (data: seq<Byte>, clean: bool)
      requires file.View().Some? && Placed() && blockNum > 0 && Fits(Flat(), FileFlat()) && FileWf(FileFlat())
      modifies this`blockNum, this`blockPos, this`currBlock
      ensures Placed() && data == Data(old(Flat()), FileFlat(), size)
      ensures (Flat(), if clean then NoErr else errno) == ReadFd(old(Flat()), FileFlat(), size, errno)
    {
      hide File.View, ReadFd, Data, Fetch.Advanced, Fetch.Copied, Fetch.AtGap;
      ghost var start, f := Flat(), FileFlat();
      var left: nat := size;
      data := [];
      while left > 0
        invariant Placed() && Fetch(Flat(), data, left).ReadFrom(start, f, size)
        invariant size == 0 ==> Flat() == start
      {
        ghost var t := Fetch(Flat(), data, left);
        var more, stop;
        more, stop, clean := LoadSome(left, t);
        if stop {
          if clean {
            ChainEndIsDone(t, start, f, size, errno);
          } else {
            GapIsDone(t, start, f, size, errno);
          }
          return;
        }
        RoundKeepsReadFrom(t, start, f, size);
        data, left := data + more, left - |more|;
      }
      ExhaustedIsDone(Fetch(Flat(), data, left), start, f, size, errno);
      clean := true;
    }

    /** The part of ufs_write behind its checks. */
    method Write(buf: seq<Byte>) returns (written: nat)
      requires file.View().Some? && Placed() && Fits(Flat(), FileFlat()) && Writing(buf).Progresses()
      modifies this`blockNum, this`blockPos, this`currBlock
      modifies file`blockList, file`lastBlock, file`numBlocks, file`chain, file`blocks, file`cells, file`content,
               file.blocks
      ensures file.View().Some? && Placed() && old(file.chain) <= file.chain
      ensures written == |buf|
      ensures Flat() == WrittenFd(old(Flat()), |buf|) && FileFlat() == WrittenFile(old(Flat()), old(FileFlat()), buf)
      ensures fresh(file.blocks - old(file.blocks)) && old(file.blocks) <= file.blocks
    {
      StartedStands(Writing(buf));
      Start();
      written := Store(buf);
    }

    /** The part of ufs_read behind its checks. */
    method Read(size: nat, ghost errno: ErrorCode) returns (data: seq<Byte>, clean: bool)
      requires file.View().Some? && Placed() && Fits(Flat(), FileFlat()) && FileWf(FileFlat())
      requires blockNum > 0 || file.blockList != null
      modifies this`blockNum, this`blockPos, this`currBlock
      ensures Placed() && data == Data(old(Flat()), FileFlat(), size)
      ensures (Flat(), if clean then NoErr else errno) == ReadFd(old(Flat()), FileFlat(), size, errno)
    {
      ReadFromStarted(Flat(), FileFlat(), size, errno);
      if currBlock == null {
        StandAt(1, blockPos, file.blockList);
      }
      data, clean := Load(size, errno);
    }
  }
}
