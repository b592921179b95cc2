/** Short histories that lead from the empty file system to the calls that FlatFs.Safe excludes,
    and to the behaviour that a reader of the header would not expect. */
module Witnesses {
  import opened Basics
  import opened FlatFs
  import opened FlatLaws
  import opened Staircase
  import opened WriteLoop

  function Bytes(n: nat): (b: seq<Byte>)
    ensures |b| == n
  {
    seq(n, _ => 0)
  }

  /** The state with one file, named f, and these descriptors. */
  function OneFile(f: FlatFile, fds: map<int, FlatFd>, errno: ErrorCode): State {
    State(map["f" := 0], map[0 := f], fds, 1, errno)
  }

  const CREATED := OneFile(FlatFile([], 0), map[1 := FlatFd(0, 0, 0, READ_WRITE)], NoErr)

  /** The history is safe from the empty file system on, and this is where it leads. */
  predicate LeadsTo(ops: seq<Op>, s: State) {
    Wf(EMPTY) && AllSafe(EMPTY, ops) && Run(EMPTY, ops).0 == s
  }

  lemma {:induction false} OneCallMore(s: State, ops: seq<Op>, op: Op)
    requires Wf(s) && AllSafe(s, ops) && Safe(Run(s, ops).0, op)
    ensures AllSafe(s, ops + [op]) && Run(s, ops + [op]).0 == Apply(Run(s, ops).0, op).0
    decreases |ops|
  {
    if ops == [] {
      ApplyKeepsWf(s, op);
    } else {
      ApplyKeepsWf(s, ops[0]);
      assert (ops + [op])[1..] == ops[1..] + [op];
      OneCallMore(Apply(s, ops[0]).0, ops[1..], op);
    }
  }

  lemma LeadsOn(ops: seq<Op>, s: State, op: Op)
    requires LeadsTo(ops, s) && Safe(s, op)
    ensures LeadsTo(ops + [op], Apply(s, op).0) && Wf(Apply(s, op).0)
  {
    OneCallMore(EMPTY, ops, op);
    ApplyKeepsWf(s, op);
  }

  lemma Lowest(used: set<int>, n: int)
    requires n !in used && forall k | 1 <= k < n :: k in used
    requires n >= 1
    ensures LowestFree(used, 1) == n
  {
  }

  lemma Created()
    ensures LeadsTo([Open("f", CREATE)], CREATED) && Wf(CREATED)
  {
    Lowest({}, 1);
    assert CREATE & (READ_ONLY | WRITE_ONLY | READ_WRITE) == 0;
    assert CREATE & CREATE != 0;
    assert EMPTY.fds.Keys == {};
    assert LeadsTo([], EMPTY);
    LeadsOn([], EMPTY, Open("f", CREATE));
    assert [] + [Open("f", CREATE)] == [Open("f", CREATE)];
  }

  /** The new file with n bytes in it, up to one block. */
  function WithBytes(n: nat): State {
    OneFile(FlatFile(Bytes(n), 1), map[1 := FlatFd(0, 1, n, READ_WRITE)], NoErr)
  }

  lemma Written(n: nat)
    requires 0 < n <= BLOCK_SIZE
    ensures LeadsTo([Open("f", CREATE), Write(1, Bytes(n))], WithBytes(n)) && Wf(WithBytes(n))
  {
    Created();
    var d := FlatFd(0, 0, 0, READ_WRITE);
    assert READ_WRITE & (WRITE_ONLY | READ_WRITE) != 0;
    assert BlocksFor(n) == 1;
    assert WrittenFd(d, n) == FlatFd(0, 1, n, READ_WRITE);
    assert Splice([], 0, Bytes(n)) == Bytes(n);
    assert WrittenFile(d, FlatFile([], 0), Bytes(n)) == FlatFile(Bytes(n), 1);
    assert Apply(CREATED, Write(1, Bytes(n))).0 == WithBytes(n);
    LeadsOn([Open("f", CREATE)], CREATED, Write(1, Bytes(n)));
    assert [Open("f", CREATE)] + [Write(1, Bytes(n))] == [Open("f", CREATE), Write(1, Bytes(n))];
  }

  /** The same with a second descriptor that was not used yet. */
  function WithReader(n: nat): State {
    var s := WithBytes(n);
    s.(fds := s.fds[2 := FlatFd(0, 0, 0, READ_WRITE)])
  }

  lemma OpenedAgain(n: nat)
    requires 0 < n <= BLOCK_SIZE
    ensures LeadsTo([Open("f", CREATE), Write(1, Bytes(n)), Open("f", READ_WRITE)], WithReader(n)) && Wf(WithReader(n))
  {
    var s := WithBytes(n);
    Written(n);
    assert s.fds.Keys == {1};
    Lowest({1}, 2);
    assert READ_WRITE & (READ_ONLY | WRITE_ONLY | READ_WRITE) == READ_WRITE;
    assert Apply(s, Open("f", READ_WRITE)).0 == WithReader(n);
    LeadsOn([Open("f", CREATE), Write(1, Bytes(n))], s, Open("f", READ_WRITE));
    assert [Open("f", CREATE), Write(1, Bytes(n))] + [Open("f", READ_WRITE)] ==
           [Open("f", CREATE), Write(1, Bytes(n)), Open("f", READ_WRITE)];
  }

  /** After 512 bytes were written, writing one through a second descriptor loops for ever. */
  lemma StuckWrite()
    ensures var s := WithReader(512);
            && LeadsTo([Open("f", CREATE), Write(1, Bytes(512)), Open("f", READ_WRITE)], s)
            && Wf(s) && !Safe(s, Write(2, [0]))
            && var t := Transfer(s.fds[2], s.files[0], [0]);
            Started(t).Standing() && forall n: nat :: Iterate(Started(t), n).rest != []
  {
    OpenedAgain(512);
    var s := WithReader(512);
    assert READ_WRITE & (WRITE_ONLY | READ_WRITE) != 0;
    WriteEndsIff(s.fds[2], s.files[0], [0]);
  }

  /** A file of one byte cannot be emptied: the shrink has no block to keep. */
  lemma NullShrink()
    ensures var s := WithBytes(1);
            && LeadsTo([Open("f", CREATE), Write(1, Bytes(1))], s)
            && Wf(s) && !Safe(s, Resize(1, 0))
            && 0 < AllocatedSize(s.files[0]) && LastBlockAndFill(0).0 == 0
  {
    Written(1);
  }

  const GROWN := OneFile(FlatFile([], 3), map[1 := FlatFd(0, 0, 0, READ_WRITE)], NoErr)

  /** A file grown to 1536 bytes without writing any: a shrink to 100 bytes exposes what the block
      happened to hold, one to 600 bytes leaves a hole in front. */
  lemma UnwrittenShrink(cells: seq<Cell>)
    requires |cells| == 3 && Stair(cells, [])
    ensures LeadsTo([Open("f", CREATE), Resize(1, 1536)], GROWN)
    ensures Wf(GROWN) && !Safe(GROWN, Resize(1, 100)) && !Safe(GROWN, Resize(1, 600))
    ensures 600 < AllocatedSize(GROWN.files[0])
    ensures exists kept: seq<Byte> :: Stair(Cut(cells, 100), kept) && !(kept <= [])
    ensures !exists kept: seq<Byte> :: Stair(Cut(cells, 600), kept)
  {
    Created();
    assert BlocksFor(1536) == 3 && BlocksFor(100) == 1 && BlocksFor(600) == 2;
    assert Apply(CREATED, Resize(1, 1536)).0 == GROWN;
    LeadsOn([Open("f", CREATE)], CREATED, Resize(1, 1536));
    assert [Open("f", CREATE)] + [Resize(1, 1536)] == [Open("f", CREATE), Resize(1, 1536)];
    ShrinkSoundIff(cells, [], 100);
    ShrinkSoundIff(cells, [], 600);
    var kept: seq<Byte> :| Stair(Cut(cells, 100), kept);
    CutHolds(cells, [], 100, kept);
  }

  function WithReaderAt(n: nat, p: nat): State {
    var s := WithBytes(n);
    s.(fds := s.fds[2 := FlatFd(0, 1, p, READ_WRITE)])
  }

  /** A descriptor at position 10 is at position 50 after the file was shrunk from 100 to 50 bytes. */
  lemma MovedForwards()
    ensures var s := WithReaderAt(100, 10);
            && LeadsTo([Open("f", CREATE), Write(1, Bytes(100)), Open("f", READ_WRITE), Read(2, 10)], s)
            && Wf(s) && s.fds[2].Position() == 10
            && Safe(s, Resize(1, 50)) && Apply(s, Resize(1, 50)).1.ret == 0
            && Apply(s, Resize(1, 50)).0.fds[2].Position() == 50
  {
    OpenedAgain(100);
    var s, before := WithReaderAt(100, 10), WithReader(100);
    var ops := [Open("f", CREATE), Write(1, Bytes(100)), Open("f", READ_WRITE)];
    assert READ_WRITE & (READ_ONLY | READ_WRITE) != 0;
    assert BlocksFor(10) == 1 && BlocksFor(50) == 1;
    assert Apply(before, Read(2, 10)).0 == s;
    LeadsOn(ops, before, Read(2, 10));
    assert ops + [Read(2, 10)] == [Open("f", CREATE), Write(1, Bytes(100)), Open("f", READ_WRITE), Read(2, 10)];
    ShrinkKeepsPrefix(s, 1, 50, 2);
  }

  /** A read that returns 0 at the end of the file leaves the error of the failed open before it. */
  lemma StaleError()
    ensures var s := WithBytes(1).(errno := NoFile);
            && LeadsTo([Open("f", CREATE), Write(1, Bytes(1)), Open("g", 0)], s)
            && Wf(s) && Apply(s, Read(1, 1)).1 == Reply(0, []) && Apply(s, Read(1, 1)).0.errno == NoFile
  {
    Written(1);
    var before, s := WithBytes(1), WithBytes(1).(errno := NoFile);
    var ops := [Open("f", CREATE), Write(1, Bytes(1))];
    assert "g" != "f";
    assert (0 as Flags) & CREATE == 0;
    assert READ_WRITE & (READ_ONLY | READ_WRITE) != 0;
    assert Apply(before, Open("g", 0)).0 == s;
    LeadsOn(ops, before, Open("g", 0));
    assert ops + [Open("g", 0)] == [Open("f", CREATE), Write(1, Bytes(1)), Open("g", 0)];
    StaleErrorIff(s, 1, 1);
  }
}
