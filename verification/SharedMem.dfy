/** Two processes hand messages over through 64 KiB of shared memory.

    The writer fills the memory and raises one flag, the reader empties it and raises the other
    one.  Nothing is atomic but a single load or store of a byte: memcpy moves one byte a step,
    and the two flags change in two steps.  Any interleaving is allowed. */
module SharedMem {
  import opened Basics

  /** The memory behind the two flag bytes. */
  const CHUNK: nat := 65536 - 2

  // ---------- the messages: a size, then that many ints ----------

  /** An int as its four bytes lie in memory, lowest first. */
  function Encode(n: nat): (b: seq<Byte>)
    requires n < 0x8000_0000
    ensures |b| == 4 && Decode(b) == n
  {
    var (high, higher) := (n / 256, n / 256 / 256);
    [(n % 256) as Byte, (high % 256) as Byte, (higher % 256) as Byte, (higher / 256) as Byte]
  }

  function Decode(b: seq<Byte>): nat {
    if |b| != 4 then 0 else b[0] as nat + 256 * b[1] as nat + 65536 * b[2] as nat + 16777216 * b[3] as nat
  }

  /** What a worker that sorted n ints sends; int is wide enough for the number of their bytes. */
  predicate Sends(msgs: seq<seq<Byte>>, n: nat) {
    4 * n < 0x8000_0000 && |msgs| == 2 && msgs[0] == Encode(n) && |msgs[1]| == 4 * n
  }

  // ---------- the steps ----------

  datatype Pc = Spin | Copy | Clear | Set | Done

  /** One of the two processes: off bytes of message msg went in earlier rounds, k in this memcpy. */
  datatype Side = Side(pc: Pc, msg: nat, off: nat, k: nat)

  /** got: the two destination buffers of the reader, as far as they are filled. */
  datatype State = State(mem: seq<Byte>, readable: bool, writable: bool, writer: Side, reader: Side,
      got: seq<seq<Byte>>)

  datatype Who = Writer | Reader

  /** How many bytes one round moves. */
  function Chunk(len: nat, off: nat): (c: nat)
    ensures off <= len ==> c <= CHUNK && off + c <= len && (c == 0 ==> off == len)
  {
    if len <= off then 0 else if CHUNK > len - off then len - off else CHUNK
  }

  /** The control flow of both loops: one waits for, clears and sets the flags that the other
      one sets, waits for and clears. */
  function Move(x: Side, len: nat, flag: bool): Side {
    match x.pc
    case Spin => if flag then x.(pc := Copy) else x
    case Copy => if x.k < Chunk(len, x.off) then x.(k := x.k + 1) else Side(Clear, x.msg, x.off + Chunk(len, x.off), 0)
    case Clear => x.(pc := Set)
    case Set => if x.off != len then x.(pc := Spin) else Side(if x.msg == 1 then Done else Spin, x.msg + 1, 0, 0)
    case Done => x
  }

  function WriterLen(msgs: seq<seq<Byte>>, s: State): nat {
    if s.writer.msg < |msgs| then |msgs[s.writer.msg]| else 0
  }

  /** The reader learns the length of the second message from the first one. */
  function ReaderLen(s: State): nat {
    if s.reader.msg == 0 || |s.got| == 0 then 4 else 4 * Decode(s.got[0])
  }

  function Step(msgs: seq<seq<Byte>>, s: State, who: Who): State
    requires Inv(msgs, s)
  {
    match who
    case Writer =>
      var (x, len) := (s.writer, WriterLen(msgs, s));
      var stores := x.pc == Copy && x.k < Chunk(len, x.off);
      s.(writer := Move(x, len, s.writable),
         mem := if stores then s.mem[x.k := msgs[x.msg][x.off + x.k]] else s.mem,
         writable := s.writable && x.pc != Clear,
         readable := s.readable || x.pc == Set)
    case Reader =>
      var (x, len) := (s.reader, ReaderLen(s));
      var loads := x.pc == Copy && x.k < Chunk(len, x.off);
      s.(reader := Move(x, len, s.readable),
         got := if loads then s.got[x.msg := s.got[x.msg] + [s.mem[x.k]]] else s.got,
         readable := s.readable && x.pc != Clear,
         writable := s.writable || x.pc == Set)
  }

  /** Before the fork: the memory is writable, nothing was copied. */
  predicate Init(s: State) {
    && |s.mem| == CHUNK && !s.readable && s.writable && s.got == [[], []]
    && s.writer == Side(Spin, 0, 0, 0) && s.reader == Side(Spin, 0, 0, 0)
  }

  predicate Finished(s: State) {
    s.writer.pc == Done && s.reader.pc == Done
  }

  // ---------- the invariant ----------

  predicate SideOk(msgs: seq<seq<Byte>>, x: Side) {
    && |msgs| == 2 && x.msg <= 2 && (x.pc == Done <==> x.msg == 2)
    && (x.msg == 2 ==> x.off == 0)
    && (x.msg < 2 ==> x.off <= |msgs[x.msg]|)
    && (x.msg < 2 && (x.pc == Spin || x.pc == Copy) && x.off == |msgs[x.msg]| ==> x.off == 0)
    && (if x.pc == Copy then x.k <= Chunk(|msgs[x.msg]|, x.off) else x.k == 0)
  }

  /** What the reader must have of message m. */
  function Received(msgs: seq<seq<Byte>>, x: Side, m: nat): seq<Byte>
    requires SideOk(msgs, x) && m < 2
  {
    if m < x.msg then msgs[m] else if m > x.msg then [] else msgs[m][..x.off + x.k]
  }

  /** The first k bytes of the memory are those of message m from off on. */
  predicate Loaded(msgs: seq<seq<Byte>>, mem: seq<Byte>, m: nat, off: nat, k: nat) {
    m < |msgs| && off + k <= |msgs[m]| && k <= |mem| && mem[..k] == msgs[m][off..off + k]
  }

  /** Where a process stands once it has moved the messages up to this place. */
  function Landed(msgs: seq<seq<Byte>>, m: nat, off: nat): (nat, nat)
    requires m < |msgs|
  {
    if off == |msgs[m]| then (m + 1, 0) else (m, off)
  }

  /** Whose turn it is follows from the flags and the steps between them. */
  predicate Turn(msgs: seq<seq<Byte>>, s: State)
    requires SideOk(msgs, s.writer) && SideOk(msgs, s.reader)
  {
    var (w, r) := (s.writer, s.reader);
    var c := if r.msg < 2 then Chunk(|msgs[r.msg]|, r.off) else 0;
    if s.writable then
      && !s.readable && (r.pc == Spin || r.pc == Done) && w.pc != Set && w.msg == r.msg
      && (if w.pc == Clear then w.off == r.off + c && Loaded(msgs, s.mem, r.msg, r.off, c)
          else w.off == r.off && (w.pc == Copy ==> Loaded(msgs, s.mem, w.msg, w.off, w.k)))
    else if s.readable then
      && (w.pc == Spin || w.pc == Done) && (r.pc == Spin || r.pc == Copy || r.pc == Clear)
      && (if r.pc == Clear then (w.msg, w.off) == Landed(msgs, r.msg, r.off)
          else (w.msg, w.off) == Landed(msgs, r.msg, r.off + c) && Loaded(msgs, s.mem, r.msg, r.off, c))
    else if w.pc == Set then
      r.pc == Spin && w.msg == r.msg && w.off == r.off + c && Loaded(msgs, s.mem, r.msg, r.off, c)
    else
      (w.pc == Spin || w.pc == Done) && r.pc == Set && (w.msg, w.off) == Landed(msgs, r.msg, r.off)
  }

  predicate Inv(msgs: seq<seq<Byte>>, s: State) {
    && SideOk(msgs, s.writer) && SideOk(msgs, s.reader)
    && |msgs[0]| == 4 && |msgs[1]| == 4 * Decode(msgs[0])
    && |s.mem| == CHUNK && |s.got| == 2
    && s.got[0] == Received(msgs, s.reader, 0) && s.got[1] == Received(msgs, s.reader, 1)
    && Turn(msgs, s)
  }

  lemma InitHolds(msgs: seq<seq<Byte>>, n: nat, s: State)
    requires Sends(msgs, n) && Init(s)
    ensures Inv(msgs, s)
  {
  }

  lemma ReaderLenIs(msgs: seq<seq<Byte>>, s: State)
    requires Inv(msgs, s) && s.reader.msg < 2
    ensures ReaderLen(s) == |msgs[s.reader.msg]|
  {
  }

  /** One more byte of the message in the memory. */
  lemma OneMoreLoaded(msg: seq<Byte>, mem: seq<Byte>, off: nat, k: nat)
    requires off + k < |msg| && k < |mem| && mem[..k] == msg[off..off + k]
    ensures mem[k := msg[off + k]][..k + 1] == msg[off..off + (k + 1)]
  {
    var next := mem[k := msg[off + k]];
    assert next[..k + 1] == mem[..k] + [msg[off + k]];
    assert msg[off..off + (k + 1)] == msg[off..off + k] + [msg[off + k]];
  }

  lemma WriterCopies(msgs: seq<seq<Byte>>, s: State)
    requires Inv(msgs, s) && s.writer.pc == Copy
    ensures Inv(msgs, Step(msgs, s, Writer))
  {
    hide Decode, Encode;
    var x := s.writer;
    if x.k < Chunk(|msgs[x.msg]|, x.off) {
      OneMoreLoaded(msgs[x.msg], s.mem, x.off, x.k);
    }
  }

  lemma WriterKeepsInv(msgs: seq<seq<Byte>>, s: State)
    requires Inv(msgs, s)
    ensures Inv(msgs, Step(msgs, s, Writer))
  {
    hide Decode, Encode;
    if s.writer.pc == Copy {
      WriterCopies(msgs, s);
    }
  }

  /** One more byte of the message behind what was received. */
  lemma OneMoreReceived(msg: seq<Byte>, mem: seq<Byte>, off: nat, k: nat, c: nat)
    requires k < c <= |mem| && off + c <= |msg| && mem[..c] == msg[off..off + c]
    ensures msg[..off + k] + [mem[k]] == msg[..off + (k + 1)]
  {
    assert mem[k] == mem[..c][k] == msg[off + k];
    assert msg[..off + (k + 1)] == msg[..off + k] + [msg[off + k]];
  }

  lemma ReaderLoads(msgs: seq<seq<Byte>>, s: State)
    requires Inv(msgs, s) && s.reader.pc == Copy && s.reader.k < Chunk(|msgs[s.reader.msg]|, s.reader.off)
    ensures Inv(msgs, Step(msgs, s, Reader))
  {
    hide Decode, Encode;
    var x := s.reader;
    ReaderLenIs(msgs, s);
    OneMoreReceived(msgs[x.msg], s.mem, x.off, x.k, Chunk(|msgs[x.msg]|, x.off));
  }

  lemma ReaderCopies(msgs: seq<seq<Byte>>, s: State)
    requires Inv(msgs, s) && s.reader.pc == Copy
    ensures Inv(msgs, Step(msgs, s, Reader))
  {
    hide Decode, Encode;
    ReaderLenIs(msgs, s);
    if s.reader.k < Chunk(|msgs[s.reader.msg]|, s.reader.off) {
      ReaderLoads(msgs, s);
    }
  }

  lemma ReaderKeepsInv(msgs: seq<seq<Byte>>, s: State)
    requires Inv(msgs, s)
    ensures Inv(msgs, Step(msgs, s, Reader))
  {
    hide Decode, Encode;
    if s.reader.pc == Copy {
      ReaderCopies(msgs, s);
    } else if s.reader.msg < 2 {
      ReaderLenIs(msgs, s);
    }
  }

  lemma StepKeepsInv(msgs: seq<seq<Byte>>, s: State, who: Who)
    requires Inv(msgs, s)
    ensures Inv(msgs, Step(msgs, s, who))
  {
    if who == Writer {
      WriterKeepsInv(msgs, s);
    } else {
      ReaderKeepsInv(msgs, s);
    }
  }

  // ---------- every run ----------

  function Run(msgs: seq<seq<Byte>>, s: State, schedule: seq<Who>): (r: State)
    requires Inv(msgs, s)
    ensures Inv(msgs, r)
    decreases |schedule|
  {
    if schedule == [] then s
    else
      StepKeepsInv(msgs, s, schedule[0]);
      Run(msgs, Step(msgs, s, schedule[0]), schedule[1..])
  }

  /** However the two processes interleave, they never are in memcpy at the same time; what has
      arrived is a prefix of what is sent; and once both are done everything has arrived and
      the flags are as in the beginning. */
  lemma TransferIsSafe(msgs: seq<seq<Byte>>, n: nat, s: State, schedule: seq<Who>)
    requires Sends(msgs, n) && Init(s)
    ensures Inv(msgs, s)
    ensures var r := Run(msgs, s, schedule);
            && !(r.writer.pc == Copy && r.reader.pc == Copy)
            && |r.got| == 2 && r.got[0] <= msgs[0] && r.got[1] <= msgs[1]
            && (r.reader.msg > 0 ==> Decode(r.got[0]) == n)
            && (Finished(r) ==> r.got == msgs && !r.readable && r.writable)
  {
    InitHolds(msgs, n, s);
  }

  /** A process that is not done can go on, or the other one can. */
  lemma NeverStuck(msgs: seq<seq<Byte>>, s: State)
    requires Inv(msgs, s) && !Finished(s)
    ensures Step(msgs, s, Writer) != s || Step(msgs, s, Reader) != s
  {
  }

  // ---------- how long it takes ----------

  /** The steps for the rest of one message: per round the bytes, and four steps for the flags. */
  function MessageSteps(len: nat, off: nat): (n: nat)
    ensures n >= 4
    decreases len - off
  {
    var c := Chunk(len, off);
    c + 4 + if off + c < len then MessageSteps(len, off + c) else 0
  }

  function LaterSteps(msgs: seq<seq<Byte>>, m: nat): nat {
    if m == 0 && |msgs| == 2 then MessageSteps(|msgs[1]|, 0) else 0
  }

  /** What is left when the bytes of message m in front of off have been handed over. */
  function StepsBehind(msgs: seq<seq<Byte>>, m: nat, off: nat): nat
    requires m < |msgs|
  {
    LaterSteps(msgs, m) + if off < |msgs[m]| then MessageSteps(|msgs[m]|, off) else 0
  }

  /** The number of steps that a process still has to make. */
  function StepsLeft(msgs: seq<seq<Byte>>, x: Side): nat
    requires SideOk(msgs, x)
  {
    match x.pc
    case Spin => MessageSteps(|msgs[x.msg]|, x.off) + LaterSteps(msgs, x.msg)
    case Copy => var c := Chunk(|msgs[x.msg]|, x.off); c - x.k + 3 + StepsBehind(msgs, x.msg, x.off + c)
    case Clear => 2 + StepsBehind(msgs, x.msg, x.off)
    case Set => 1 + StepsBehind(msgs, x.msg, x.off)
    case Done => 0
  }

  lemma MoveCounts(msgs: seq<seq<Byte>>, x: Side, flag: bool)
    requires SideOk(msgs, x) && x.msg < 2
    ensures var x' := Move(x, |msgs[x.msg]|, flag);
            SideOk(msgs, x') && (x' == x || StepsLeft(msgs, x') == StepsLeft(msgs, x) - 1)
    ensures StepsLeft(msgs, x) > 0
  {
  }

  function Total(msgs: seq<seq<Byte>>, s: State): nat
    requires Inv(msgs, s)
  {
    StepsLeft(msgs, s.writer) + StepsLeft(msgs, s.reader)
  }

  /** A step that is not spent waiting brings the end one step nearer. */
  lemma StepCounts(msgs: seq<seq<Byte>>, s: State, who: Who)
    requires Inv(msgs, s)
    ensures Inv(msgs, Step(msgs, s, who))
    ensures Step(msgs, s, who) == s || Total(msgs, Step(msgs, s, who)) == Total(msgs, s) - 1
  {
    StepKeepsInv(msgs, s, who);
    if who == Writer && s.writer.msg < 2 {
      MoveCounts(msgs, s.writer, s.writable);
    }
    if who == Reader && s.reader.msg < 2 {
      ReaderLenIs(msgs, s);
      MoveCounts(msgs, s.reader, s.readable);
    }
  }

  /** A stretch of the schedule in which both processes run is not all waiting. */
  lemma {:induction false} RoundCounts(msgs: seq<seq<Byte>>, s: State, round: seq<Who>)
    requires Inv(msgs, s)
    ensures Total(msgs, Run(msgs, s, round)) <= Total(msgs, s)
    ensures Writer in round && Reader in round && !Finished(s) ==> Total(msgs, Run(msgs, s, round)) < Total(msgs, s)
    ensures forall who | who in round :: Step(msgs, s, who) == s || Total(msgs, Run(msgs, s, round)) < Total(msgs, s)
    decreases |round|
  {
    hide Inv, Step, Total, Finished;
    if round == [] {
    } else {
      assert forall who :: who in round <==> who == round[0] || who in round[1..];
      StepCounts(msgs, s, round[0]);
      RoundCounts(msgs, Step(msgs, s, round[0]), round[1..]);
      if !Finished(s) {
        NeverStuck(msgs, s);
      }
    }
  }

  function RunRounds(msgs: seq<seq<Byte>>, s: State, rounds: seq<seq<Who>>): (r: State)
    requires Inv(msgs, s)
    ensures Inv(msgs, r)
    decreases |rounds|
  {
    if rounds == [] then s else RunRounds(msgs, Run(msgs, s, rounds[0]), rounds[1..])
  }

  /** If each process keeps getting its turn, both finish, and everything has arrived. */
  lemma {:induction false} FairRunFinishes(msgs: seq<seq<Byte>>, s: State, rounds: seq<seq<Who>>)
    requires Inv(msgs, s) && |rounds| >= Total(msgs, s)
    requires forall round | round in rounds :: Writer in round && Reader in round
    ensures var r := RunRounds(msgs, s, rounds);
            Finished(r) && r.got == msgs && !r.readable && r.writable
    decreases |rounds|
  {
    if rounds == [] {
      if !Finished(s) {
        NeverStuck(msgs, s);
        StepCounts(msgs, s, Writer);
        StepCounts(msgs, s, Reader);
      }
    } else {
      RoundCounts(msgs, s, rounds[0]);
      FairRunFinishes(msgs, Run(msgs, s, rounds[0]), rounds[1..]);
    }
  }
}
