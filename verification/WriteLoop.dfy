/** The write loop on values, what it computes, and exactly when it ends. */
module WriteLoop {
  import opened Basics
  import opened FlatFs

  /** A descriptor, its file, and the bytes still to be written. */
  datatype Transfer = Transfer(fd: FlatFd, file: FlatFile, rest: seq<Byte>) {
    predicate Standing() {
      1 <= fd.block && Fits(fd, file)
    }

    /** At the end of a full block the descriptor steps to the next one, made if there is none. */
    function Advanced(): Transfer {
      if fd.offset != BLOCK_SIZE then this
      else Transfer(fd.(block := fd.block + 1, offset := 0), file.(blocks := Max(file.blocks, fd.block + 1)), rest)
    }

    /** How many bytes fit behind those that the current block already holds. */
    function Room(): nat
      requires 1 <= fd.block
    {
      Min(BLOCK_SIZE - Occupied(|file.content|, fd.block - 1), |rest|)
    }

    /** That many bytes are copied to the descriptor's place. */
    function Copied(): Transfer
      requires Standing()
    {
      Transfer(fd.(offset := fd.offset + Room()),
          file.(content := Splice(file.content, fd.Position(), rest[..Room()])), rest[Room()..])
    }

    /** One iteration. */
    function Next(): (r: Transfer)
      requires Standing()
      ensures r.Standing()
    {
      AdvancedStands(this);
      CopiedStands(Advanced());
      Advanced().Copied()
    }

    predicate Progresses() {
      WriteProgresses(|file.content|, fd.Position(), |rest|)
    }

    /** What writing the whole rest makes of descriptor and file. */
    function Finished(): Transfer
      requires Standing()
    {
      Transfer(WrittenFd(fd, |rest|), WrittenFile(fd, file, rest), [])
    }
  }

  lemma AdvancedStands(t: Transfer)
    requires t.Standing()
    ensures t.Advanced().Standing() && t.Advanced().fd.offset < BLOCK_SIZE
    ensures t.Advanced().fd.Position() == t.fd.Position()
  {
  }

  lemma CopiedStands(t: Transfer)
    requires t.Standing() && t.fd.offset < BLOCK_SIZE
    ensures t.Copied().Standing()
    ensures t.Copied().fd.Position() == t.fd.Position() + t.Room()
    ensures |t.Copied().file.content| == Max(|t.file.content|, t.fd.Position() + t.Room())
  {
  }

  /** The state after n iterations; the loop stops by itself when nothing is left. */
  function Iterate(t: Transfer, n: nat): (r: Transfer)
    requires t.Standing()
    ensures r.Standing()
  {
    if n == 0 then t
    else
      var r := Iterate(t, n - 1);
      if r.rest == [] then r else r.Next()
  }

  /** In front of the last full block's end an iteration copies nothing, else it copies something. */
  lemma RoomIsZeroIff(t: Transfer)
    requires t.Standing() && t.rest != []
    ensures t.Advanced().Room() == 0 <==> !t.Progresses()
  {
    AdvancedStands(t);
  }

  lemma NextKeepsProgress(t: Transfer)
    requires t.Standing() && t.rest != []
    ensures t.Next().Progresses() <==> t.Progresses()
    ensures |t.Next().rest| == |t.rest| - t.Advanced().Room()
  {
    AdvancedStands(t);
    CopiedStands(t.Advanced());
    RoomIsZeroIff(t);
  }

  lemma {:induction false} StuckForever(t: Transfer, n: nat)
    requires t.Standing() && !t.Progresses()
    ensures Iterate(t, n).rest != [] && !Iterate(t, n).Progresses()
  {
    if n == 0 {
    } else {
      hide Transfer.Next, Transfer.Advanced, Transfer.Progresses;
      var r := Iterate(t, n - 1);
      StuckForever(t, n - 1);
      RoomIsZeroIff(r);
      NextKeepsProgress(r);
    }
  }

  lemma {:induction false} IterateShift(t: Transfer, n: nat)
    requires t.Standing() && t.rest != []
    ensures Iterate(t, n + 1) == Iterate(t.Next(), n)
  {
    hide Transfer.Next, Transfer.Standing;
    if n == 0 {
      assert Iterate(t, 0) == t;
    } else {
      IterateShift(t, n - 1);
    }
  }

  lemma {:induction false} Finishes(t: Transfer) returns (n: nat)
    requires t.Standing() && t.Progresses()
    ensures Iterate(t, n).rest == []
    decreases |t.rest|
  {
    hide Transfer.Next, Transfer.Standing, Transfer.Progresses;
    if t.rest == [] {
      n := 0;
    } else {
      RoomIsZeroIff(t);
      NextKeepsProgress(t);
      var m := Finishes(t.Next());
      IterateShift(t, m);
      n := m + 1;
    }
  }

  /** The loop ends, and then has written everything, exactly if there is nothing to write
      or the position is not before the end of the last full block. */
  lemma TerminatesIff(t: Transfer)
    requires t.Standing()
    ensures (exists n: nat :: Iterate(t, n).rest == []) <==>
            |t.rest| == 0 || t.fd.Position() >= |t.file.content| / BLOCK_SIZE * BLOCK_SIZE
  {
    if t.Progresses() {
      var n := Finishes(t);
      assert Iterate(t, n).rest == [];
    } else {
      forall n: nat
        ensures Iterate(t, n).rest != []
      {
        StuckForever(t, n);
      }
    }
  }

  /** Writing the first n bytes of rest and then the others is writing rest. */
  lemma SpliceInTwo(content: seq<Byte>, p: nat, rest: seq<Byte>, n: nat)
    requires p <= |content| && n <= |rest|
    ensures Splice(Splice(content, p, rest[..n]), p + n, rest[n..]) == Splice(content, p, rest)
  {
  }

  /** The block in which a position behind a block's start and not behind its end lies. */
  lemma BlocksForIs(k: nat, offset: nat)
    requires 1 <= k && 0 < offset <= BLOCK_SIZE
    ensures BlocksFor((k - 1) * BLOCK_SIZE + offset) == k
  {
  }

  lemma NextKeepsFinished(t: Transfer)
    requires t.Standing() && t.Progresses() && t.rest != []
    ensures t.Next().Finished() == t.Finished()
  {
    var a, r := t.Advanced(), t.Next();
    AdvancedStands(t);
    CopiedStands(a);
    RoomIsZeroIff(t);
    BlocksForIs(r.fd.block, r.fd.offset);
    SpliceInTwo(t.file.content, t.fd.Position(), t.rest, a.Room());
  }

  lemma NothingLeft(t: Transfer)
    requires t.Standing() && t.rest == []
    ensures t.Finished() == t
  {
  }

  lemma {:induction false} GoalIsKept(t: Transfer, n: nat)
    requires t.Standing() && t.Progresses()
    ensures Iterate(t, n).Progresses() && Iterate(t, n).Finished() == t.Finished()
  {
    hide Transfer.Next, Transfer.Finished, Transfer.Standing, Transfer.Progresses;
    if n == 0 {
    } else {
      var r := Iterate(t, n - 1);
      GoalIsKept(t, n - 1);
      if r.rest != [] {
        NextKeepsProgress(r);
        NextKeepsFinished(r);
      }
    }
  }

  /** One more iteration writes something. */
  lemma IterateMore(t: Transfer, n: nat)
    requires t.Standing() && t.Progresses() && Iterate(t, n).rest != []
    ensures Iterate(t, n + 1) == Iterate(t, n).Next()
    ensures |Iterate(t, n + 1).rest| < |Iterate(t, n).rest|
  {
    GoalIsKept(t, n);
    RoomIsZeroIff(Iterate(t, n));
    NextKeepsProgress(Iterate(t, n));
  }

  /** However often the loop runs, when it ends it has spliced the bytes into the file and
      left the descriptor behind them. */
  lemma IterateFinishes(t: Transfer, n: nat)
    requires t.Standing() && t.Progresses() && Iterate(t, n).rest == []
    ensures Iterate(t, n) == t.Finished()
  {
    GoalIsKept(t, n);
    NothingLeft(Iterate(t, n));
  }

  /** A descriptor used for the first time stands in block 1, made if there is none. */
  function Started(t: Transfer): Transfer {
    Transfer(t.fd.(block := Max(t.fd.block, 1)), t.file.(blocks := Max(t.file.blocks, Max(t.fd.block, 1))), t.rest)
  }

  lemma StartedStands(t: Transfer)
    requires Fits(t.fd, t.file)
    ensures Started(t).Standing() && (t.Progresses() ==> Started(t).Progresses())
    ensures Started(t).Finished() == Transfer(WrittenFd(t.fd, |t.rest|), WrittenFile(t.fd, t.file, t.rest), [])
  {
  }
}
