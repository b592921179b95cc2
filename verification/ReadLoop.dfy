/** The read loop on values. */
module ReadLoop {
  import opened Basics
  import opened FlatFs

  /** A descriptor, what it has read so far, and how many bytes are still wanted. */
  datatype Fetch = Fetch(fd: FlatFd, data: seq<Byte>, left: nat) {
    predicate Standing(f: FlatFile) {
      1 <= fd.block && Fits(fd, f)
    }

    /** Behind the last block: the loop returns and clears errno. */
    predicate AtChainEnd(f: FlatFile) {
      fd.offset == BLOCK_SIZE && fd.block == f.blocks
    }

    function Advanced(): Fetch {
      if fd.offset != BLOCK_SIZE then this else this.(fd := fd.(block := fd.block + 1, offset := 0))
    }

    /** Behind the last byte of a block that is not full: the loop returns and leaves errno. */
    predicate AtGap(f: FlatFile)
      requires 1 <= fd.block
    {
      fd.offset == Occupied(|f.content|, fd.block - 1)
    }

    /** How many bytes the block still offers. */
    function Offer(f: FlatFile): nat
      requires Standing(f)
    {
      Min(Occupied(|f.content|, fd.block - 1) - fd.offset, left)
    }

    function Copied(f: FlatFile): Fetch
      requires Standing(f)
    {
      var p := fd.Position();
      Fetch(fd.(offset := fd.offset + Offer(f)), data + f.content[p..p + Offer(f)], left - Offer(f))
    }

    /** The data read so far lie between the start of the read and the descriptor. */
    predicate ReadFrom(start: FlatFd, f: FlatFile, size: nat)
      requires Fits(start, f)
    {
      && Standing(f)
      && |data| + left == size
      && start.Position() + |data| == fd.Position()
      && data == f.content[start.Position()..start.Position() + |data|]
      && fd.(block := 0, offset := 0) == start.(block := 0, offset := 0)
      && (|data| > 0 ==> fd.offset > 0)
    }
  }

  lemma OfferIs(t: Fetch, f: FlatFile)
    requires t.Standing(f)
    ensures t.fd.offset <= Occupied(|f.content|, t.fd.block - 1)
    ensures t.fd.Position() == (t.fd.block - 1) * BLOCK_SIZE + t.fd.offset
            && t.fd.Position() + t.Offer(f) <= |f.content|
  {
  }

  lemma AdvancedStands(t: Fetch, f: FlatFile)
    requires t.Standing(f) && !t.AtChainEnd(f)
    ensures t.Advanced().Standing(f) && t.Advanced().fd.offset < BLOCK_SIZE
    ensures t.Advanced().fd.Position() == t.fd.Position()
  {
  }

  /** A round that does not return copies at least one byte and keeps the bytes in place. */
  lemma RoundKeepsReadFrom(t: Fetch, start: FlatFd, f: FlatFile, size: nat)
    requires Fits(start, f) && t.ReadFrom(start, f, size) && t.left > 0
    requires !t.AtChainEnd(f) && !t.Advanced().AtGap(f)
    ensures t.Advanced().Standing(f) && t.Advanced().Copied(f).ReadFrom(start, f, size)
    ensures t.Advanced().Copied(f).left < t.left
  {
    AdvancedStands(t, f);
  }

  /** What a read of size bytes from start returns. */
  function Data(start: FlatFd, f: FlatFile, size: nat): seq<Byte>
    requires Fits(start, f)
  {
    var p := start.Position();
    if p + size <= |f.content| then f.content[p..p + size] else f.content[p..]
  }

  lemma ChainEndIsDone(t: Fetch, start: FlatFd, f: FlatFile, size: nat, errno: ErrorCode)
    requires FileWf(f) && Fits(start, f) && t.ReadFrom(start, f, size) && t.left > 0 && t.AtChainEnd(f)
    ensures ReadFd(start, f, size, errno) == (t.fd, NoErr) && t.data == Data(start, f, size)
  {
  }

  /** Behind the last byte of a block that is not full is the end of the file. */
  lemma GapIsEnd(d: FlatFd, f: FlatFile)
    requires 1 <= d.block && Fits(d, f) && d.offset < BLOCK_SIZE && d.offset == Occupied(|f.content|, d.block - 1)
    ensures d.Position() == |f.content| && d.block == |f.content| / BLOCK_SIZE + 1
            && d.offset == |f.content| % BLOCK_SIZE
  {
  }

  lemma GapIsDone(t: Fetch, start: FlatFd, f: FlatFile, size: nat, errno: ErrorCode)
    requires FileWf(f) && Fits(start, f) && t.ReadFrom(start, f, size) && t.left > 0
    requires !t.AtChainEnd(f) && t.Advanced().AtGap(f)
    ensures ReadFd(start, f, size, errno) == (t.Advanced().fd, errno) && t.data == Data(start, f, size)
  {
    hide Occupied;
    AdvancedStands(t, f);
    GapIsEnd(t.Advanced().fd, f);
  }

  lemma ExhaustedIsDone(t: Fetch, start: FlatFd, f: FlatFile, size: nat, errno: ErrorCode)
    requires FileWf(f) && Fits(start, f) && t.ReadFrom(start, f, size) && t.left == 0
    requires size == 0 ==> t.fd == start
    ensures ReadFd(start, f, size, errno) == (t.fd, NoErr) && t.data == Data(start, f, size)
  {
  }

  /** Reading through a descriptor not used before is reading from the first block. */
  lemma ReadFromStarted(d: FlatFd, f: FlatFile, size: nat, errno: ErrorCode)
    requires FileWf(f) && Fits(d, f) && f.blocks > 0
    ensures var started := d.(block := Max(d.block, 1));
            Fits(started, f) && ReadFd(started, f, size, errno) == ReadFd(d, f, size, errno)
                && Data(started, f, size) == Data(d, f, size)
  {
  }
}
