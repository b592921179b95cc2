/** Files as doubly linked chains of 512-byte blocks. */
module FileBlocks {
  import opened Basics
  import opened FlatFs
  import opened Staircase

  class Block {
    var memory: seq<Byte>
    var occupied: nat
    var next: Block?
    var prev: Block?
    /** Where the block was put; a block never changes its file or its place in it. */
    ghost const owner: File
    ghost const index: nat
    ghost var freed: bool

    /** The memory starts out arbitrary. */
    constructor (ghost owner: File, ghost index: nat)
      ensures |memory| == BLOCK_SIZE && occupied == 0 && next == null && prev == null && !freed
      ensures this.owner == owner && this.index == index
    {
      var uninitialised := new Byte[BLOCK_SIZE];
      memory := uninitialised[..];
      occupied, next, prev := 0, null, null;
      this.owner, this.index := owner, index;
      freed := false;
    }

    /** free(block->memory); free(block): at most once, and nothing is known of it afterwards. */
    method Free()
      requires !freed
      modifies this
      ensures freed
    {
      freed := true;
    }
  }

  class File {
    const name: string
    ghost const id: nat
    var blockList: Block?
    var lastBlock: Block?
    var numBlocks: nat
    var refs: nat
    var next: File?
    var prev: File?
    var deleted: bool
    ghost var chain: seq<Block>
    ghost var blocks: set<Block>  // those in the chain
    ghost var cells: seq<Cell>    // what the chain holds
    ghost var content: seq<Byte>
    ghost var freed: bool

    constructor (name: string, ghost id: nat)
      ensures this.name == name && this.id == id
      ensures refs == 0 && next == null && prev == null && !deleted && !freed
      ensures View().Some? && content == [] && |chain| == 0 && chain == [] && blocks == {} && content == []
    {
      this.name := name;
      this.id := id;
      blockList, lastBlock, numBlocks := null, null, 0;
      refs, next, prev, deleted := 0, null, null, false;
      chain, blocks, cells, content, freed := [], {}, [], [], false;
    }

    /** The chain is the doubly linked list from blockList to lastBlock, without repetition. */
    ghost predicate Linked()
      reads this`blockList, this`lastBlock, this`numBlocks, this`chain, this`blocks, blocks
    {
      && numBlocks == |chain|
      && blockList == (if chain == [] then null else chain[0])
      && (chain != [] ==> lastBlock == chain[|chain| - 1])
      && (forall i | 0 <= i < |chain| :: chain[i] in blocks && chain[i].index == i && !chain[i].freed)
      && (forall b | b in blocks :: b.owner == this && b.index < |chain| && chain[b.index] == b)
      && (forall i {:trigger chain[i].next} | 0 <= i < |chain| ::
          chain[i].next == if i + 1 < |chain| then chain[i + 1] else null)
      && (forall i {:trigger chain[i].prev} | 0 <= i < |chain| :: chain[i].prev == if i > 0 then chain[i - 1] else null)
    }

    ghost predicate MirroredTo(n: nat)
      reads this`chain, this`blocks, this`cells, blocks
    {
      && |cells| == n <= |chain|
      && (forall i | 0 <= i < n :: chain[i] in blocks && Cell(chain[i].occupied, chain[i].memory) == cells[i])
    }

    ghost predicate Mirrored()
      reads this`chain, this`blocks, this`cells, blocks
    {
      MirroredTo(|chain|)
    }

    /** The file of the specification that this one stands for, if its representation is sound. */
    ghost function View(): Option<FlatFile>
      reads this`blockList, this`lastBlock, this`numBlocks, this`chain, this`blocks, this`cells, this`content, blocks
    {
      if Linked() && Mirrored() && Stair(cells, content) then Some(FlatFile(content, |chain|)) else None
    }

    /** This file, not freed, stands for flat, is open n times, and has a name or is deleted. */
    ghost predicate Stands(flat: FlatFile, n: nat, named: bool)
      reads this`blockList, this`lastBlock, this`numBlocks, this`chain, this`blocks, this`cells, this`content, blocks
      reads this`refs, this`deleted, this`freed
    {
      View() == Some(flat) && !freed && refs == n && deleted == !named
    }

    /** Hanging one more block behind the last one keeps the links. */
    twostate lemma AppendKeepsLinked(block: Block)
      requires old(Linked()) && chain == old(chain) + [block] && blocks == old(blocks) + {block}
      requires block.owner == this && block.index == |old(chain)| && !block.freed
      requires block.next == null && block.prev == if old(chain) == [] then null else old(chain)[|old(chain)| - 1]
      requires lastBlock == block && numBlocks == |chain| && blockList == chain[0]
      requires forall b | b in old(blocks) :: b.prev == old(b.prev) && b.freed == old(b.freed)
      requires forall b | b in old(blocks) :: b.next == if b.index == |old(chain)| - 1 then block else old(b.next)
      ensures Linked()
    {
      var n := |old(chain)|;
      forall i | 0 <= i < n
        ensures chain[i].next == chain[i + 1]
        ensures chain[i].prev == if i > 0 then chain[i - 1] else null
      {
        var b := old(chain)[i];
        assert b.index == i;
      }
    }

    /** Hangs a new block behind the last one. */
    method Append(block: Block)
      requires Linked() && block.owner == this && block.index == |chain| && !block.freed
      requires block !in blocks && block.next == null && block.prev == null
      modifies this`blockList, this`lastBlock, this`numBlocks, this`chain, this`blocks, blocks`next, block`prev
      ensures Linked() && chain == old(chain) + [block] && blocks == old(blocks) + {block}
    {
      if blockList == null {
        blockList := block;
        lastBlock := block;
      } else {
        lastBlock.next := block;
        block.prev := lastBlock;
        lastBlock := block;
      }
      numBlocks := numBlocks + 1;
      chain, blocks := chain + [block], blocks + {block};
      AppendKeepsLinked(block);
    }

    method IncreaseFile() returns (block: Block)
      requires View().Some?
      modifies this`blockList, this`lastBlock, this`numBlocks, this`chain, this`blocks, this`cells, blocks`next
      ensures View().Some? && |chain| == |old(chain)| + 1
      ensures fresh(block) && chain == old(chain) + [block] && blocks == old(blocks) + {block}
    {
      block := new Block(this, |chain|);
      AppendEmpty(cells, content, block.memory);
      cells := cells + [Cell(0, block.memory)];
      Append(block);
    }

    /** The block after this one, made if there is none. */
    method Following(block: Block, ghost i: nat) returns (next: Block)
      requires View().Some? && i < |chain| && chain[i] == block
      modifies this`blockList, this`lastBlock, this`numBlocks, this`chain, this`blocks, this`cells, blocks`next
      ensures View().Some? && |chain| == Max(|old(chain)|, i + 2)
      ensures old(chain) <= chain && i + 1 < |chain| && next == chain[i + 1]
      ensures fresh(blocks - old(blocks)) && old(blocks) <= blocks
    {
      if block.next == null {
        next := IncreaseFile();
      } else {
        next := block.next;
      }
    }

    /** memcpy into one block, and the update of occupied that follows it. */
    method Put(block: Block, ghost i: nat, pos: nat, data: seq<Byte>)
      requires View().Some? && i < |chain| && chain[i] == block
      requires i * BLOCK_SIZE + pos <= |content| && pos + |data| <= BLOCK_SIZE
      modifies block`memory, block`occupied, this`cells, this`content
      ensures View().Some? && content == Splice(old(content), i * BLOCK_SIZE + pos, data)
    {
      assert Holds(cells[i], content, i);
      PutIsSplice(cells, content, i, pos, data);
      content := Splice(content, i * BLOCK_SIZE + pos, data);
      Fill(block, i, pos, data);
    }

    method Fill(block: Block, ghost i: nat, pos: nat, data: seq<Byte>)
      requires Mirrored() && i < |chain| && chain[i] == block && block.index == i && Linked()
      requires pos + |data| <= |block.memory|
      modifies block`memory, block`occupied, this`cells
      ensures Mirrored() && cells == old(cells)[i := PutInto(old(cells)[i], pos, data)]
    {
      cells := cells[i := PutInto(cells[i], pos, data)];
      block.memory := Overlay(block.memory, pos, data);
      if pos + |data| > block.occupied {
        block.occupied := pos + |data|;
      }
    }

    /** The block that stands at place n, found by walking the chain, or null for n = 0. */
    method FindBlock(n: nat) returns (block: Block?)
      requires Linked() && n <= |chain|
      ensures block == if n == 0 then null else chain[n - 1]
    {
      block := null;
      if n > 0 {
        block := blockList;
      }
      var i := 1;
      while i < n
        invariant 1 <= i <= Max(n, 1) && block == if n == 0 then null else chain[i - 1]
      {
        block, i := block.next, i + 1;
      }
    }

    /** The block that is going to be the last one: a shrink would follow a null pointer exactly
        if it is to keep no byte of a file that has some room. */
    method FindLastKept(newSize: nat) returns (last: Block?)
      requires View().Some? && newSize < AllocatedSize(FlatFile(content, |chain|))
      ensures last == null <==> newSize == 0
      ensures newSize > 0 ==> BlocksFor(newSize) <= |chain| && last == chain[BlocksFor(newSize) - 1]
    {
      KeptBlocks(FlatFile(content, |chain|), newSize);
      last := FindBlock(LastBlockAndFill(newSize).0);
    }

    /** The blocks from place k on are linked and not freed. */
    ghost predicate LinkedFrom(k: nat)
      reads this`chain, set i | k <= i < |chain| :: chain[i]
    {
      && (forall i, j | k <= i < j < |chain| :: chain[i] != chain[j])
      && (forall i | k <= i < |chain| :: !chain[i].freed)
      && (forall i {:trigger chain[i].next} | k <= i < |chain| ::
          chain[i].next == if i + 1 < |chain| then chain[i + 1] else null)
    }

    /** The blocks from place n on. */
    ghost function BlocksFrom(n: nat): set<Block>
      reads this`blocks
    {
      set b | b in blocks && n <= b.index
    }

    /** Frees the blocks from this one on; every block is freed once and not read afterwards,
        for nothing is known of a freed block. */
    method FreeFrom(first: Block?, ghost n: nat)
      requires Linked() && n <= |chain| && first == if n < |chain| then chain[n] else null
      modifies BlocksFrom(n)
      ensures forall b | b in BlocksFrom(n) :: b.freed
    {
      var block := first;
      ghost var k := n;
      while block != null
        invariant n <= k <= |chain| && block == if k < |chain| then chain[k] else null
        invariant LinkedFrom(k)
        invariant forall i | n <= i < k :: chain[i].freed
        decreases |chain| - k
      {
        var dead := block;
        block := block.next;
        dead.Free();
        k := k + 1;
      }
    }

    twostate lemma CutKeepsLinked(n: nat)
      requires old(Linked()) && 0 < n <= |old(chain)| && chain == old(chain)[..n]
      requires blockList == old(blockList) && lastBlock == chain[n - 1] && numBlocks == n
      requires blocks == set b | b in old(blocks) && b.index < n
      requires forall b | b in old(blocks) && b.index < n :: b.prev == old(b.prev) && !b.freed
      requires forall b | b in old(blocks) && b.index < n :: b.next == if b.index == n - 1 then null else old(b.next)
      ensures Linked()
    {
      forall i | 0 <= i < n
        ensures chain[i] in blocks
      {
        assert old(chain)[i].index == i;
      }
    }

    twostate lemma CutKeepsMirrored(n: nat)
      requires old(Linked()) && old(MirroredTo(n)) && chain == old(chain)[..n] && cells == old(cells)
      requires blocks == set b | b in old(blocks) && b.index < n
      requires forall b | b in old(blocks) && b.index < n :: b.occupied == old(b.occupied) && b.memory == old(b.memory)
      ensures Mirrored()
    {
      forall i | 0 <= i < n
        ensures chain[i] in blocks && Cell(chain[i].occupied, chain[i].memory) == cells[i]
      {
        assert old(chain)[i].index == i;
      }
    }

    /** Where the n-th block stands, and what follows it. */
    lemma PlaceIs(n: nat)
      requires Linked() && 0 < n <= |chain|
      ensures chain[n - 1] in blocks && chain[n - 1].index == n - 1
      ensures chain[n - 1].next == if n < |chain| then chain[n] else null
      ensures forall b | b in blocks && b.index == n - 1 :: b == chain[n - 1]
      ensures forall b | b in blocks :: !b.freed
    {
    }

    /** Cuts the chain behind its n-th block and frees the rest. */
    method CutChain(last: Block, n: nat)
      requires Linked() && 0 < n <= |chain| && last == chain[n - 1] && MirroredTo(n)
      modifies this`lastBlock, this`numBlocks, this`chain, this`blocks, last`next, BlocksFrom(n)
      ensures Linked() && Mirrored() && chain == old(chain)[..n] && |chain| == n && blocks <= old(blocks)
      ensures forall b | b in old(blocks) - blocks :: b.freed
    {
      hide Linked, MirroredTo;
      PlaceIs(n);
      FreeFrom(last.next, n);
      lastBlock := last;
      numBlocks := n;
      chain, blocks := chain[..n], set b | b in blocks && b.index < n;
      last.next := null;
      CutKeepsMirrored(n);
      CutKeepsLinked(n);
    }

    /** Sets the fill of the block that is going to be the last one. */
    method EndAt(last: Block, n: nat, pos: nat)
      requires Linked() && Mirrored() && 0 < n <= |chain| && last == chain[n - 1]
      modifies this`cells, last`occupied
      ensures cells == old(cells)[..n - 1] + [Cell(pos, old(cells)[n - 1].memory)] && MirroredTo(n) && Linked()
    {
      cells := cells[..n - 1] + [Cell(pos, last.memory)];
      last.occupied := pos;
    }

    /** Shrinks the file to newSize bytes, which preallocated blocks allow to be more than there
        are: the chain is cut and the last kept block is said to end where the file ends.  What
        is left is the prefix of the content if there are that many bytes. */
    method Truncate(newSize: nat)
      requires View().Some? && 0 < newSize < AllocatedSize(FlatFile(content, |chain|))
      modifies this`lastBlock, this`numBlocks, this`chain, this`blocks, this`cells, this`content
      modifies blocks
      ensures BlocksFor(newSize) <= |old(cells)| && Linked() && Mirrored() && cells == Cut(old(cells), newSize)
      ensures newSize <= |old(content)| ==> View().Some? && content == old(content)[..newSize]
      ensures chain <= old(chain) && |chain| == BlocksFor(newSize) && blocks <= old(blocks)
      ensures forall b | b in old(blocks) - blocks :: b.freed
    {
      hide Linked, MirroredTo, Mirrored, Stair, View;
      ViewParts();
      KeptBlocks(FlatFile(content, |chain|), newSize);
      var last := FindLastKept(newSize);
      if newSize <= |content| {
        CutIsPrefix(cells, content, newSize);
        content := content[..newSize];
      }
      var (n, pos) := LastBlockAndFill(newSize);
      EndAt(last, n, pos);
      CutChain(last, n);
      ViewParts();
    }

    /** Appends empty blocks until there are n. */
    method Grow(n: nat)
      requires View().Some?
      modifies this`blockList, this`lastBlock, this`numBlocks, this`chain, this`blocks, this`cells, blocks`next
      ensures View().Some? && old(chain) <= chain && |chain| == Max(|old(chain)|, n)
      ensures fresh(blocks - old(blocks)) && old(blocks) <= blocks
    {
      assert numBlocks == |chain|;
      while numBlocks < n
        invariant View().Some? && old(chain) <= chain && |old(chain)| <= |chain| <= Max(|old(chain)|, n)
        invariant numBlocks == |chain|
        invariant fresh(blocks - old(blocks)) && old(blocks) <= blocks
      {
        var block := IncreaseFile();
      }
    }

    /** free(file->name); free(file): at most once, behind its blocks, and nothing is known of it
        afterwards but which blocks it had. */
    method Free()
      requires !freed && forall b | b in blocks :: b.freed
      modifies this
      ensures freed && blocks == old(blocks) && chain == old(chain)
    {
      freed := true;
    }

    /** delete_file: all blocks are freed, then the file. */
    method Delete()
      requires View().Some? && !freed
      modifies this, blocks
      ensures freed && blocks == old(blocks) && chain == old(chain) && forall b | b in blocks :: b.freed
    {
      ghost var k := 0;
      while blockList != null
        invariant k <= |chain| && blockList == if k < |chain| then chain[k] else null
        invariant LinkedFrom(k) && forall i | 0 <= i < k :: chain[i].freed
        invariant unchanged(this`chain, this`blocks, this`freed)
        decreases |chain| - k
      {
        var tmp := blockList;
        blockList := tmp.next;
        tmp.Free();
        k := k + 1;
      }
      Free();
    }

    /** Gives up one reference: the file is freed if nothing else holds it. */
    method Unref()
      requires View().Some? && !freed && refs > 0
      modifies this, blocks
      ensures blocks == old(blocks) && chain == old(chain)
      ensures if old(refs == 1 && deleted) then freed && forall b | b in blocks :: b.freed
              else && View() == old(View()) && !freed && refs == old(refs) - 1
                   && unchanged(this`deleted, this`next, this`prev)
    {
      refs := refs - 1;
      if refs == 0 && deleted {
        Delete();
      }
    }

    lemma ViewIs()
      requires View().Some?
      ensures View() == Some(FlatFile(content, |chain|))
    {
    }

    lemma ViewParts()
      ensures View().Some? <==> Linked() && Mirrored() && Stair(cells, content)
      ensures View().Some? ==> |cells| == |chain| == numBlocks && |content| <= |chain| * BLOCK_SIZE
      ensures View().Some? ==> forall i | 0 <= i < |chain| :: chain[i] in blocks
    {
    }

    /** What a block of the chain holds. */
    lemma BlockHolds(i: nat)
      requires View().Some? && i < |chain|
      ensures Holds(Cell(chain[i].occupied, chain[i].memory), content, i)
    {
    }

    lemma NoBlocksIff()
      requires View().Some?
      ensures blockList == null <==> |chain| == 0
    {
    }

    /** The size that resize compares with. */
    method OldSize() returns (size: nat)
      requires View().Some?
      ensures size == AllocatedSize(FlatFile(content, |chain|))
      ensures size == if chain == [] then 0 else Max(|content|, (|chain| - 1) * BLOCK_SIZE)
    {
      if numBlocks == 0 {
        size := 0;
      } else {
        assert Holds(cells[numBlocks - 1], content, numBlocks - 1);
        size := (numBlocks - 1) * BLOCK_SIZE + lastBlock.occupied;
      }
    }

    lemma LastBlockFacts()
      requires View().Some? && chain != []
      ensures numBlocks == |chain| && lastBlock == chain[|chain| - 1]
      ensures lastBlock.occupied == Occupied(|content|, |chain| - 1)
    {
      assert Holds(cells[|chain| - 1], content, |chain| - 1);
    }

    /** Blocks know their file, so two files share none. */
    lemma Owns()
      requires View().Some?
      ensures forall b | b in blocks :: b.owner == this
    {
    }

    twostate predicate SameButLinks()
      reads this
    {
      unchanged(this`blockList, this`lastBlock, this`numBlocks, this`chain, this`blocks, this`cells, this`content,
                this`refs, this`deleted, this`freed)
    }

    /** A file that was not touched but in the list, nor any of its blocks, stands for the same. */
    twostate lemma Untouched(what: (FlatFile, nat, bool))
      requires old(Stands(what.0, what.1, what.2)) && SameButLinks() && forall b | b in old(blocks) :: unchanged(b)
      ensures Stands(what.0, what.1, what.2) && blocks == old(blocks)
    {
    }
  }
}
