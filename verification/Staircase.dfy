/** What the blocks of a file hold, as values: how bytes are spread over 512-byte cells. */
module Staircase {
  import opened Basics
  import opened FlatFs

  /** A block's number of occupied bytes and its 512 bytes of memory. */
  datatype Cell = Cell(occupied: nat, memory: seq<Byte>)

  /** c holds the share of content that belongs to block i, counted from 0. */
  predicate Holds(c: Cell, content: seq<Byte>, i: nat) {
    && |c.memory| == BLOCK_SIZE
    && c.occupied == Occupied(|content|, i)
    && (forall j | 0 <= j < c.occupied :: c.memory[j] == content[i * BLOCK_SIZE + j])
  }

  /** Full blocks, at most one partial block, then empty ones; together they hold content. */
  predicate Stair(cells: seq<Cell>, content: seq<Byte>) {
    && |content| <= |cells| * BLOCK_SIZE
    && (forall i | 0 <= i < |cells| :: Holds(cells[i], content, i))
  }

  /** memory after memcpy(&memory[pos], data, |data|) */
  function Overlay(memory: seq<Byte>, pos: nat, data: seq<Byte>): seq<Byte>
    requires pos + |data| <= |memory|
  {
    memory[..pos] + data + memory[pos + |data|..]
  }

  function PutInto(c: Cell, pos: nat, data: seq<Byte>): Cell
    requires pos + |data| <= |c.memory|
  {
    Cell(Max(c.occupied, pos + |data|), Overlay(c.memory, pos, data))
  }

  /** Writing into one block, behind no gap and not past its end, is a splice of the content. */
  lemma PutIsSplice(cells: seq<Cell>, content: seq<Byte>, i: nat, pos: nat, data: seq<Byte>)
    requires Stair(cells, content) && i < |cells| && i * BLOCK_SIZE + pos <= |content| && pos + |data| <= BLOCK_SIZE
    ensures Stair(cells[i := PutInto(cells[i], pos, data)], Splice(content, i * BLOCK_SIZE + pos, data))
  {
    var content' := Splice(content, i * BLOCK_SIZE + pos, data);
    var cells' := cells[i := PutInto(cells[i], pos, data)];
    forall k | 0 <= k < |cells|
      ensures Holds(cells'[k], content', k)
    {
      assert Holds(cells[k], content, k);
      SpliceElsewhere(content, i, pos, data, k);
    }
  }

  lemma SpliceElsewhere(content: seq<Byte>, i: nat, pos: nat, data: seq<Byte>, k: nat)
    requires i * BLOCK_SIZE + pos <= |content| && pos + |data| <= BLOCK_SIZE
    ensures k != i ==> Occupied(|Splice(content, i * BLOCK_SIZE + pos, data)|, k) == Occupied(|content|, k)
    ensures k == i ==>
              Occupied(|Splice(content, i * BLOCK_SIZE + pos, data)|, k) == Max(Occupied(|content|, k), pos + |data|)
  {
  }

  lemma OccupiedIs(c: Cell, content: seq<Byte>, i: nat)
    requires Holds(c, content, i)
    ensures c.occupied == Occupied(|content|, i) <= BLOCK_SIZE == |c.memory|
  {
  }

  /** Bytes within the occupied part of a block are bytes of the content. */
  lemma HoldsSlice(c: Cell, content: seq<Byte>, i: nat, pos: nat, n: nat)
    requires Holds(c, content, i) && pos + n <= c.occupied && i * BLOCK_SIZE + pos + n <= |content|
    ensures |c.memory| == BLOCK_SIZE && c.occupied <= BLOCK_SIZE
    ensures c.memory[pos..pos + n] == content[i * BLOCK_SIZE + pos..i * BLOCK_SIZE + pos + n]
  {
  }

  lemma AppendEmpty(cells: seq<Cell>, content: seq<Byte>, memory: seq<Byte>)
    requires Stair(cells, content) && |memory| == BLOCK_SIZE
    ensures Stair(cells + [Cell(0, memory)], content)
  {
  }

  /** How many blocks a file of newSize bytes keeps, and how far the last one is filled. */
  function LastBlockAndFill(newSize: nat): (r: (nat, nat))
    ensures r.0 == BlocksFor(newSize) && (newSize > 0 ==> r.1 == newSize - (r.0 - 1) * BLOCK_SIZE)
  {
    if newSize % BLOCK_SIZE == 0 then (newSize / BLOCK_SIZE, BLOCK_SIZE)
    else (newSize / BLOCK_SIZE + 1, newSize % BLOCK_SIZE)
  }

  /** The cells that a shrink leaves: newSize bytes are marked as occupied, as far as blocks go. */
  function Cut(cells: seq<Cell>, newSize: nat): seq<Cell>
    requires 0 < newSize && BlocksFor(newSize) <= |cells|
  {
    var (n, fill) := LastBlockAndFill(newSize);
    cells[..n - 1] + [Cell(fill, cells[n - 1].memory)]
  }

  /** How much of a chain a shrink keeps: nothing exactly if no byte is to be kept. */
  lemma KeptBlocks(f: FlatFile, newSize: nat)
    requires |f.content| <= f.blocks * BLOCK_SIZE && newSize < AllocatedSize(f)
    ensures LastBlockAndFill(newSize).0 <= f.blocks && (LastBlockAndFill(newSize).0 == 0 <==> newSize == 0)
  {
  }

  /** Cutting off whole blocks and setting the fill of the last kept one is a prefix of the content. */
  lemma CutIsPrefix(cells: seq<Cell>, content: seq<Byte>, newSize: nat)
    requires Stair(cells, content) && 0 < newSize <= |content|
    ensures BlocksFor(newSize) <= |cells| && Stair(Cut(cells, newSize), content[..newSize])
  {
    forall k | 0 <= k < BlocksFor(newSize)
      ensures Holds(Cut(cells, newSize)[k], content[..newSize], k)
    {
      assert Holds(cells[k], content, k);
    }
  }
}
