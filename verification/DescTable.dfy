/** The growing table of descriptors. */
module DescTable {
  import opened Basics
  import opened FileBlocks
  import opened Descriptors

  class DescTable {
    var descriptors: array<FileDesc?>
    var count: nat
    var capacity: nat
    ghost var open: map<int, FileDesc>

    /** The array holds the open descriptors, numbered from 1, each in its slot, and nothing else. */
    ghost predicate Ok()
      reads this, descriptors
    {
      && capacity == descriptors.Length && count == |open|
      && (forall fd | fd in open :: 1 <= fd <= capacity)
      && (forall i | 0 <= i < capacity :: descriptors[i] == if i + 1 in open then open[i + 1] else null)
    }

    constructor ()
      ensures Ok() && open == map[] && fresh(descriptors)
    {
      descriptors := new FileDesc?[0];
      count, capacity, open := 0, 0, map[];
    }

    /** The descriptor known by the number fd, if any. */
    function GetFd(fd: int): (d: FileDesc?)
      requires Ok()
      reads this, descriptors
      ensures d == if fd in open then open[fd] else null
    {
      if fd - 1 >= capacity || fd - 1 < 0 || descriptors[fd - 1] == null then null else descriptors[fd - 1]
    }

    /** realloc to twice the capacity and two more; the new slots are emptied. */
    method Double()
      requires Ok() && count == capacity
      modifies this`descriptors, this`capacity
      ensures Ok() && fresh(descriptors) && capacity == 2 * (old(capacity) + 1)
    {
      var was, n := descriptors, (capacity + 1) * 2;
      var bigger := new FileDesc?[n];
      forall i | 0 <= i < was.Length {
        bigger[i] := was[i];
      }
      for i := count to n
        modifies bigger
        invariant forall k | 0 <= k < was.Length :: bigger[k] == was[k]
        invariant forall k | was.Length <= k < i :: bigger[k] == null
      {
        bigger[i] := null;
      }
      descriptors := bigger;
      capacity := n;
    }

    /** Puts the descriptor into the first free slot. */
    method InsertFd(d: FileDesc) returns (fd: int)
      requires Ok()
      modifies this, descriptors
      ensures Ok() && fd == LowestFree(old(open).Keys, 1) && open == old(open)[fd := d]
      ensures descriptors == old(descriptors) || fresh(descriptors)
    {
      if count == capacity {
        Double();
      }
      if forall k | 1 <= k <= capacity :: k in open {
        AllTakenCount(open.Keys, capacity);
      }
      var i := 0;
      while i < capacity && descriptors[i] != null
        invariant 0 <= i <= capacity
        invariant forall k | 1 <= k <= i :: k in open
      {
        i := i + 1;
      }
      assert LowestFree(open.Keys, 1) == i + 1;
      descriptors[i] := d;
      count := count + 1;
      fd := i + 1;
      open := open[fd := d];
    }

    /** After a truncation: every descriptor of the file in or behind its last block goes to its end. */
    method MoveToEnd(file: File)
      requires Ok() && forall fd | fd in open :: open[fd].slot == fd
      modifies open.Values`blockNum, open.Values`blockPos, open.Values`currBlock
      ensures forall fd | fd in open :: open[fd].MovedToEnd(file)
    {
      ghost var ds := open.Values;
      for i := 0 to capacity
        modifies ds`blockNum, ds`blockPos, ds`currBlock
        invariant forall fd | fd in open && fd <= i :: open[fd].MovedToEnd(file)
        invariant forall fd | fd in open && fd > i ::
                    open[fd].blockNum == old(open[fd].blockNum) && open[fd].blockPos == old(open[fd].blockPos)
                    && open[fd].currBlock == old(open[fd].currBlock)
      {
        var d := descriptors[i];
        if d != null && d.file == file {
          assert d == open[i + 1] && d in ds;
          if d.blockNum >= file.numBlocks {
            d.blockNum := file.numBlocks;
            d.currBlock := file.lastBlock;
            d.blockPos := if d.currBlock == null then 0 else file.lastBlock.occupied;
          }
        }
      }
    }

    method RemoveFd(fd: int)
      requires Ok() && fd in open
      modifies this`count, this`open, descriptors
      ensures Ok() && open == old(open) - {fd}
    {
      descriptors[fd - 1] := null;
      count := count - 1;
      open := open - {fd};
    }
  }

  /** Once all numbers are taken there are n of them. */
  lemma {:induction false} AllTakenCount(taken: set<int>, n: nat)
    requires forall fd | fd in taken :: 1 <= fd <= n
    requires forall fd | 1 <= fd <= n :: fd in taken
    ensures |taken| == n
  {
    if n > 0 {
      AllTakenCount(taken - {n}, n - 1);
    } else {
      if taken != {} {
        var fd := Member(taken);
      }
    }
  }
}
