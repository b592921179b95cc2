/** Pipelines: how the shell cuts a list at |, which descriptors each child ends up with, and
    whose exit status counts. */
module Pipelines {
  import opened Basics
  import opened Lexing
  import opened TokenLists

  // ---------- descriptors ----------

  /** What a descriptor refers to: something the shell had before, or an end of a pipe. */
  datatype End = Inherited(id: nat) | ReadEnd(pipe: nat) | WriteEnd(pipe: nat)

  type Table = map<int, End>

  /** The descriptor table of a process, and the number of pipes made so far. */
  class Process {
    var table: Table
    var pipes: nat

    constructor (table: Table, pipes: nat)
      ensures this.table == table && this.pipes == pipes
    {
      this.table, this.pipes := table, pipes;
    }

    /** pipe: two descriptors not in use. */
    method Pipe(fd: array<int>)
      requires fd.Length == 4
      modifies this, fd
      ensures fd[0] == old(fd[0]) && fd[1] == old(fd[1]) && pipes == old(pipes) + 1
      ensures fd[2] >= 0 && fd[3] >= 0 && fd[2] != fd[3] && fd[2] !in old(table) && fd[3] !in old(table)
      ensures table == old(table)[fd[2] := ReadEnd(old(pipes))][fd[3] := WriteEnd(old(pipes))]
    {
      fd[2] := LowestFree(table.Keys, 0);
      table := table[fd[2] := ReadEnd(pipes)];
      fd[3] := LowestFree(table.Keys, fd[2] + 1);
      table := table[fd[3] := WriteEnd(pipes)];
      pipes := pipes + 1;
    }

    method Dup2(from: int, to: int)
      requires from in table
      modifies this`table
      ensures table == old(table)[to := old(table)[from]]
    {
      table := table[to := table[from]];
    }

    method Close(fd: int)
      modifies this`table
      ensures table == old(table) - {fd}
    {
      table := table - {fd};
    }
  }

  /** What the four descriptors hold while a pipeline is set up: the previous pipe's ends in fd[0]
      and fd[1], the next one's in fd[2] and fd[3]; -1 where there is none. */
  predicate Holds(base: Table, t: Table, fd: seq<int>, prev: int, next: int) {
    && |fd| == 4 && 0 in base && 1 in base
    && (if prev < 0 then fd[0] == -1 && fd[1] == -1
        else fd[0] !in base && fd[1] !in base && fd[0] >= 0 && fd[1] >= 0 && fd[0] != fd[1])
    && (if next < 0 then fd[2] == -1 && fd[3] == -1
        else fd[2] !in base && fd[3] !in base && fd[2] >= 0 && fd[3] >= 0 && fd[2] != fd[3])
    && (prev >= 0 && next >= 0 ==> fd[0] != fd[2] && fd[0] != fd[3] && fd[1] != fd[2] && fd[1] != fd[3])
    && t == WithPipe(WithPipe(base, fd[0], fd[1], prev), fd[2], fd[3], next)
  }

  function WithPipe(t: Table, r: int, w: int, pipe: int): Table {
    if pipe < 0 then t else t[r := ReadEnd(pipe)][w := WriteEnd(pipe)]
  }

  /** What a child shall have: its input from the pipe before, its output to the pipe behind,
      and the rest as the shell had it. */
  function ChildTable(base: Table, prev: int, next: int): Table {
    var t := if prev < 0 then base else base[0 := ReadEnd(prev)];
    if next < 0 then t else t[1 := WriteEnd(next)]
  }

  /** dup_pipe */
  method DupPipe(p: Process, fd: array<int>)
    requires fd.Length == 4 && (fd[0] != -1 ==> fd[0] in p.table && fd[0] != 0)
    requires fd[3] != -1 ==> fd[3] in p.table && fd[3] != fd[0] && fd[3] != 0
    modifies p`table
    ensures p.table == Redirected(Redirected(old(p.table), fd[0], 0), fd[3], 1)
  {
    if fd[0] != -1 {
      p.Dup2(fd[0], 0);
      p.Close(fd[0]);
    }
    if fd[3] != -1 {
      p.Dup2(fd[3], 1);
      p.Close(fd[3]);
    }
  }

  function Redirected(t: Table, from: int, to: int): Table {
    if from == -1 || from !in t then t else t[to := t[from]] - {from}
  }

  function Closed(t: Table, fd: int): Table {
    if fd == -1 then t else t - {fd}
  }

  /** close_pipe_fork */
  method ClosePipeFork(p: Process, fd: array<int>)
    requires fd.Length == 4
    modifies p`table
    ensures p.table == Closed(Closed(old(p.table), fd[1]), fd[2])
  {
    if fd[1] != -1 {
      p.Close(fd[1]);
    }
    if fd[2] != -1 {
      p.Close(fd[2]);
    }
  }

  /** prepare_fd */
  method PrepareFd(p: Process, fd: array<int>)
    requires fd.Length == 4
    modifies p`table, fd
    ensures p.table == Closed(Closed(old(p.table), old(fd[0])), old(fd[1]))
    ensures fd[..] == [old(fd[2]), old(fd[3]), -1, -1]
  {
    if fd[0] != -1 {
      p.Close(fd[0]);
    }
    if fd[1] != -1 {
      p.Close(fd[1]);
    }
    fd[0] := fd[2];
    fd[1] := fd[3];
    fd[2] := -1;
    fd[3] := -1;
  }

  lemma ChildHas(base: Table, t: Table, fd: seq<int>, prev: int, next: int)
    requires Holds(base, t, fd, prev, next)
    ensures Closed(Closed(Redirected(Redirected(t, fd[0], 0), fd[3], 1), fd[1]), fd[2]) == ChildTable(base, prev, next)
  {
  }

  lemma ParentHas(base: Table, t: Table, fd: seq<int>, prev: int, next: int)
    requires Holds(base, t, fd, prev, next)
    ensures Holds(base, Closed(Closed(t, fd[0]), fd[1]), [fd[2], fd[3], -1, -1], next, -1)
  {
  }

  lemma PipeAdds(base: Table, t: Table, fd: seq<int>, prev: int, t': Table, fd': seq<int>, next: int)
    requires Holds(base, t, fd, prev, -1) && |fd'| == 4 && fd'[0] == fd[0] && fd'[1] == fd[1] && next >= 0
    requires fd'[2] >= 0 && fd'[3] >= 0 && fd'[2] != fd'[3] && fd'[2] !in t && fd'[3] !in t
    requires t' == t[fd'[2] := ReadEnd(next)][fd'[3] := WriteEnd(next)]
    ensures Holds(base, t', fd', prev, next)
  {
  }

  // ---------- the list of stages ----------

  predicate PipeAt(ts: seq<Token>, i: nat) {
    i < |ts| && ts[i] == Token("|", First)
  }

  function FirstPipe(ts: seq<Token>, i: nat): (k: nat)
    requires i <= |ts|
    ensures i <= k <= |ts| && (k < |ts| ==> PipeAt(ts, k))
    ensures forall j | i <= j < k :: !PipeAt(ts, j)
    decreases |ts| - i
  {
    if i == |ts| || PipeAt(ts, i) then i else FirstPipe(ts, i + 1)
  }

  /** A command, and whether a | follows. */
  datatype Stage = Stage(command: seq<Token>, piped: bool)

  function FirstStage(ts: seq<Token>): (Stage, seq<Token>)
    requires ts != []
  {
    var k := FirstPipe(ts, 1);
    if k == |ts| then (Stage(ts, false), []) else (Stage(ts[..k], true), ts[k + 1..])
  }

  function Stages(ts: seq<Token>): seq<Stage>
    decreases |ts|
  {
    if ts == [] then [] else [FirstStage(ts).0] + Stages(FirstStage(ts).1)
  }

  function Joined(stages: seq<Stage>): seq<Token> {
    if stages == [] then []
    else stages[0].command + (if stages[0].piped then [Token("|", First)] else []) + Joined(stages[1..])
  }

  lemma FirstStageKeeps(ts: seq<Token>)
    requires ts != []
    ensures var (stage, rest) := FirstStage(ts);
            && stage.command + (if stage.piped then [Token("|", First)] else []) + rest == ts && |rest| < |ts|
            && (!stage.piped ==> rest == [])
            && stage.command != [] && forall j | 1 <= j < |stage.command| :: stage.command[j] != Token("|", First)
  {
    var k := FirstPipe(ts, 1);
    forall j | 1 <= j < k
      ensures ts[..k][j] != Token("|", First)
    {
      assert !PipeAt(ts, j);
    }
    if k < |ts| {
      assert ts == ts[..k] + [ts[k]] + ts[k + 1..];
    }
  }

  /** Cutting loses no token and keeps their order; all stages but the last are followed by a |, and
      no command is empty or holds a | behind its first token. */
  lemma {:induction false} JoinedStages(ts: seq<Token>)
    ensures Joined(Stages(ts)) == ts
    ensures forall i | 0 <= i < |Stages(ts)| - 1 :: Stages(ts)[i].piped
    ensures forall i | 0 <= i < |Stages(ts)| ::
              && Stages(ts)[i].command != []
              && forall j | 1 <= j < |Stages(ts)[i].command| :: Stages(ts)[i].command[j] != Token("|", First)
    decreases |ts|
  {
    hide FirstStage, FirstPipe;
    if ts == [] {
    } else {
      var rest := FirstStage(ts).1;
      FirstStageKeeps(ts);
      JoinedStages(rest);
      assert Stages(ts)[1..] == Stages(rest);
      forall i | 0 <= i < |Stages(ts)|
        ensures Stages(ts)[i] == if i == 0 then FirstStage(ts).0 else Stages(rest)[i - 1]
      {
      }
    }
  }

  /** How many | stand directly in front of place n. */
  function PipesBefore(ts: seq<Token>, n: nat): (t: nat)
    requires n <= |ts|
    ensures t <= n && forall j | n - t <= j < n :: PipeAt(ts, j)
    ensures t < n ==> !PipeAt(ts, n - t - 1)
  {
    if n == 0 || !PipeAt(ts, n - 1) then 0 else 1 + PipesBefore(ts, n - 1)
  }

  /** How many | stand at the end of the list. */
  function Trailing(ts: seq<Token>): (t: nat)
    ensures t <= |ts| && forall j | |ts| - t <= j < |ts| :: PipeAt(ts, j)
    ensures t < |ts| ==> !PipeAt(ts, |ts| - t - 1)
  {
    PipesBefore(ts, |ts|)
  }

  /** A pipe is opened behind the last command.  Of the | that end the list every second one
      stands where a command begins and is one itself, beginning with the first of them if
      nothing is in front of it, and with the second otherwise. */
  predicate EndsPiped(ts: seq<Token>) {
    ts != [] && Trailing(ts) % 2 == if Trailing(ts) < |ts| then 1 else 0
  }

  lemma TrailingIs(ts: seq<Token>, t: nat)
    requires t <= |ts| && forall j | |ts| - t <= j < |ts| :: PipeAt(ts, j)
    requires t < |ts| ==> !PipeAt(ts, |ts| - t - 1)
    ensures Trailing(ts) == t
  {
  }

  /** What is behind the first | tells whether the list ends with one. */
  lemma EndsPipedBehind(ts: seq<Token>)
    requires ts != [] && FirstPipe(ts, 1) < |ts|
    ensures var rest := ts[FirstPipe(ts, 1) + 1..]; EndsPiped(ts) <==> rest == [] || EndsPiped(rest)
  {
    hide FirstPipe, Trailing, PipeAt;
    var k := FirstPipe(ts, 1);
    var rest := ts[k + 1..];
    var t := Trailing(rest);
    forall j | k < j < |ts|
      ensures PipeAt(ts, j) <==> PipeAt(rest, j - (k + 1))
    {
      SamePipe(ts, k + 1, j);
    }
    if t < |rest| {
      TrailingIs(ts, t);
    } else {
      TrailingIs(ts, if k == 1 && PipeAt(ts, 0) then t + 2 else t + 1);
    }
  }

  lemma SamePipe(ts: seq<Token>, k: nat, j: nat)
    requires k <= j < |ts|
    ensures PipeAt(ts, j) <==> PipeAt(ts[k..], j - k)
  {
  }

  /** The condition on the tokens under which the last stage has a pipe behind it. */
  lemma {:induction false} LastPipedIff(ts: seq<Token>)
    ensures EndsPiped(ts) <==> Stages(ts) != [] && Stages(ts)[|Stages(ts)| - 1].piped
    decreases |ts|
  {
    if ts == [] {
    } else if FirstPipe(ts, 1) == |ts| {
      TrailingIs(ts, if |ts| == 1 && PipeAt(ts, 0) then 1 else 0);
    } else {
      EndsPipedBehind(ts);
      LastPipedIff(ts[FirstPipe(ts, 1) + 1..]);
    }
  }

  /** Commands are not empty and hold no | behind their first token; a | stands between them. */
  predicate WellFormed(stages: seq<Stage>) {
    forall i | 0 <= i < |stages| ::
      && stages[i].command != [] && FirstPipe(stages[i].command, 1) == |stages[i].command|
      && (stages[i].piped <==> i < |stages| - 1)
  }

  lemma FirstStageIs(stage: Stage, rest: seq<Token>)
    requires stage.command != [] && FirstPipe(stage.command, 1) == |stage.command| && (stage.piped || rest == [])
    ensures FirstStage(stage.command + (if stage.piped then [Token("|", First)] else []) + rest) == (stage, rest)
  {
    var ts, n := stage.command + (if stage.piped then [Token("|", First)] else []) + rest, |stage.command|;
    forall j | 1 <= j < n
      ensures !PipeAt(ts, j)
    {
      assert !PipeAt(stage.command, j);
    }
    if stage.piped {
      assert ts[n + 1..] == rest && ts[..n] == stage.command && PipeAt(ts, n);
      assert FirstPipe(ts, 1) == n;
    } else {
      assert ts == stage.command;
    }
  }

  /** Of a well-formed pipeline, exactly the commands are found. */
  lemma {:induction false} StagesJoined(stages: seq<Stage>)
    requires WellFormed(stages)
    ensures Stages(Joined(stages)) == stages
  {
    if stages == [] {
    } else {
      assert forall i | 0 <= i < |stages[1..]| :: stages[1..][i] == stages[i + 1];
      StagesJoined(stages[1..]);
      FirstStageIs(stages[0], Joined(stages[1..]));
    }
  }

  datatype PipeStat = PipeEmpty | PipeLast | PipeDefault

  /** split_pipeline: the list ends in front of the first |, and tail is what follows it. */
  method SplitPipeline(start: Node?, ghost nodes: seq<Node>)
    returns (stat: PipeStat, tail: Node?, ghost segment: seq<Node>, ghost rest: seq<Node>)
    requires Chain(nodes) && start == Head(nodes)
    modifies (set n | n in nodes)`next
    ensures nodes == [] <==> stat == PipeEmpty
    ensures nodes != [] ==> FirstStage(Tokens(nodes)) == (Stage(Tokens(segment), stat == PipeDefault), Tokens(rest))
    ensures Chain(segment) && Chain(rest) && tail == Head(rest) && (nodes != [] ==> start == Head(segment))
    ensures forall n | n in rest :: n in nodes
  {
    tail, segment, rest := null, [], [];
    if start == null {
      return PipeEmpty, null, [], [];
    }
    var head := start;
    ghost var i := 0;
    while head.next != null
      invariant Chain(nodes) && i < |nodes| && nodes[i] == head
      invariant FirstPipe(Tokens(nodes), 1) == FirstPipe(Tokens(nodes), i + 1)
      decreases |nodes| - i
    {
      if head.next.word == "|" && head.next.spec == First {
        tail := head.next.next;
        segment, rest := nodes[..i + 1], nodes[i + 2..];
        TokensOfPart(nodes, i + 1);
        TokensOfPart(nodes, i + 2);
        assert FirstPipe(Tokens(nodes), 1) == i + 1;
        head.next := null;
        stat := PipeDefault;
        return;
      }
      head, i := head.next, i + 1;
    }
    assert FirstPipe(Tokens(nodes), 1) == |nodes| && Tokens(rest) == [];
    stat, segment := PipeLast, nodes;
  }

  // ---------- running a pipeline ----------

  /** How a child ended. */
  datatype Exit = Exited(code: int) | Killed(signal: int)

  /** The loop over wait: only what it says about the last child counts. */
  method WaitForAll(exits: seq<(int, Exit)>, lastPid: int) returns (code: int)
    requires forall i, j | 0 <= i < j < |exits| :: exits[i].0 != exits[j].0
    ensures forall i | 0 <= i < |exits| && exits[i].0 == lastPid ::
              code == if exits[i].1.Exited? then exits[i].1.code else 1
    ensures (forall i | 0 <= i < |exits| :: exits[i].0 != lastPid) ==> code == 1
  {
    code := 1;
    for i := 0 to |exits|
      invariant forall j | 0 <= j < i && exits[j].0 == lastPid ::
                  code == if exits[j].1.Exited? then exits[j].1.code else 1
      invariant (forall j | 0 <= j < i :: exits[j].0 != lastPid) ==> code == 1
    {
      if exits[i].0 == lastPid {
        code := if exits[i].1.Exited? then exits[i].1.code else 1;
      }
    }
  }

  /** fork, and what the child does to its descriptors. */
  method ForkChild(shell: Process, fd: array<int>, ghost base: Table, ghost prev: int, ghost next: int)
    returns (child: Process)
    requires fd.Length == 4 && Holds(base, shell.table, fd[..], prev, next)
    ensures fresh(child) && child.table == ChildTable(base, prev, next)
  {
    child := new Process(shell.table, shell.pipes);
    DupPipe(child, fd);
    ClosePipeFork(child, fd);
    ChildHas(base, shell.table, fd[..], prev, next);
  }

  /** The number of the pipe in front of stage k and of the one behind it, counted from first; -1 for none. */
  function PipeBefore(first: nat, k: nat): int {
    if k == 0 then -1 else first + k - 1
  }

  function PipeBehind(first: nat, k: nat, stages: seq<Stage>): int
    requires k < |stages|
  {
    if stages[k].piped then first + k else -1
  }

  /** One round of the loop: a child is started on the list at p, between the pipe before it and
      the one behind it; it goes down the list to collect the words of its command. */
  method StartStage(shell: Process, fd: array<int>, p: Node?, ghost nodes: seq<Node>, piped: bool, ghost base: Table,
                    ghost prev: int)
    returns (child: Process, command: seq<Token>)
    requires fd.Length == 4 && Holds(base, shell.table, fd[..], prev, -1) && Chain(nodes) && p == Head(nodes)
    modifies shell, fd
    ensures var next := if piped then old(shell.pipes) else -1;
            && Holds(base, shell.table, fd[..], next, -1) && child.table == ChildTable(base, prev, next)
    ensures shell.pipes == old(shell.pipes) + (if piped then 1 else 0) && command == Tokens(nodes)
  {
    hide Holds, ChildTable;
    ghost var next := if piped then shell.pipes else -1;
    ghost var t, f := shell.table, fd[..];
    if piped {
      shell.Pipe(fd);
      PipeAdds(base, t, f, prev, shell.table, fd[..], next);
    }
    child := ForkChild(shell, fd, base, prev, next);
    command := ReadTokens(p, nodes);
    ParentHas(base, shell.table, fd[..], prev, next);
    PrepareFd(shell, fd);
  }

  /** Child i runs the command of stage i, between the pipe before it and the one behind it. */
  predicate Connected(stages: seq<Stage>, children: seq<Table>, commands: seq<seq<Token>>, base: Table, first: nat) {
    |children| == |commands| <= |stages| &&
    forall i | 0 <= i < |children| ::
      && commands[i] == stages[i].command
      && children[i] == ChildTable(base, PipeBefore(first, i), PipeBehind(first, i, stages))
  }

  lemma OneMoreChild(stages: seq<Stage>, children: seq<Table>, commands: seq<seq<Token>>, base: Table, first: nat,
                     child: Table)
    requires Connected(stages, children, commands, base, first) && |children| < |stages|
    requires var k := |children|; child == ChildTable(base, PipeBefore(first, k), PipeBehind(first, k, stages))
    ensures Connected(stages, children + [child], commands + [stages[|children|].command], base, first)
  {
  }

  lemma NextStage(stages: seq<Stage>, k: nat, ts: seq<Token>)
    requires k <= |stages| && Stages(ts) == stages[k..]
    ensures ts == [] <==> k == |stages|
    ensures ts != [] ==> FirstStage(ts).0 == stages[k] && Stages(FirstStage(ts).1) == stages[k + 1..]
  {
    if ts != [] {
      assert Stages(ts)[0] == stages[k] && Stages(ts)[1..] == stages[k + 1..];
    }
  }

  /** The pipes made for the first k stages. */
  function PipesMade(stages: seq<Stage>, k: nat): nat
    requires k <= |stages|
  {
    if k == 0 then 0 else if stages[k - 1].piped then k else k - 1
  }

  /** The number of the pipe whose ends the shell still has after k stages, or -1. */
  function Open(stages: seq<Stage>, k: nat, first: nat): int
    requires k <= |stages|
  {
    if k == 0 || !stages[k - 1].piped then -1 else first + k - 1
  }

  /** The pipe that the shell holds is the one in front of the next stage. */
  lemma NextPipe(stages: seq<Stage>, k: nat, first: nat)
    requires k < |stages| && forall i | 0 <= i < |stages| - 1 :: stages[i].piped
    ensures Open(stages, k, first) == PipeBefore(first, k) && PipesMade(stages, k) == k
    ensures Open(stages, k + 1, first) == PipeBehind(first, k, stages) == (if stages[k].piped then first + k else -1)
    ensures PipesMade(stages, k + 1) == k + if stages[k].piped then 1 else 0
  {
  }

  lemma NothingHeld(stages: seq<Stage>, first: nat)
    ensures Open(stages, 0, first) == -1 && PipesMade(stages, 0) == 0
    ensures WellFormed(stages) ==> Open(stages, |stages|, first) == -1
    ensures Open(stages, |stages|, first) >= -1
  {
  }

  /** execute_pipeline: pids are those that fork returns, exits what wait reports, in any order.
      Child i runs the command of stage i, connected to its neighbours and to nothing else; the
      shell keeps a pipe exactly if no command follows the last | that is one; the status is the
      last child's. */
  method ExecutePipeline(shell: Process, start: Node?, ghost nodes: seq<Node>, pids: seq<int>, exits: seq<(int, Exit)>)
    returns (code: int, children: seq<Table>, commands: seq<seq<Token>>, ghost ends: seq<int>)
    requires Chain(nodes) && start == Head(nodes) && 0 in shell.table && 1 in shell.table
    requires |pids| == |exits| == |Stages(Tokens(nodes))|
    requires forall i, j | 0 <= i < j < |exits| :: exits[i].0 != exits[j].0
    modifies shell, (set n | n in nodes)`next
    ensures var (stages, n, first) := (Stages(Tokens(nodes)), |pids|, old(shell.pipes));
            && |children| == n && Connected(stages, children, commands, old(shell.table), first)
            && (shell.table == old(shell.table) <==> !EndsPiped(Tokens(nodes)))
            && (WellFormed(stages) ==> shell.table == old(shell.table))
            && |ends| == 4 && Holds(old(shell.table), shell.table, ends, Open(stages, n, first), -1)
            && (forall i | 0 <= i < |exits| && n > 0 && exits[i].0 == pids[n - 1] ::
                  code == if exits[i].1.Exited? then exits[i].1.code else 1)
            && (n == 0 ==> code == 1)
  {
    hide Holds, ChildTable, Chain, Stages, FirstStage, Connected, Open, EndsPiped, PipesMade, PipeBefore, PipeBehind,
         WellFormed;
    ghost var stages, base, first := Stages(Tokens(nodes)), shell.table, shell.pipes;
    JoinedStages(Tokens(nodes));
    var fd := new int[4](_ => -1);
    NothingOpen(base, fd[..]);
    var p, lastPid := start, -1;
    ghost var rest, k: nat := nodes, 0;
    assert stages[0..] == stages;
    children, commands := [], [];
    NoChildYet(stages, base, first);
    NothingHeld(stages, first);
    while true
      invariant k <= |stages| && |children| == k && Connected(stages, children, commands, base, first)
      invariant Chain(rest) && p == Head(rest) && Stages(Tokens(rest)) == stages[k..]
      invariant forall n | n in rest :: n in nodes
      invariant Holds(base, shell.table, fd[..], Open(stages, k, first), -1)
      invariant shell.pipes == first + PipesMade(stages, k) && fresh(fd)
      invariant k > 0 ==> lastPid == pids[k - 1]
      decreases |stages| - k
    {
      NextStage(stages, k, Tokens(rest));
      var stat, tail;
      ghost var segment;
      stat, tail, segment, rest := SplitPipeline(p, rest);
      if stat == PipeEmpty {
        break;
      }
      NextPipe(stages, k, first);
      var child, command := StartStage(shell, fd, p, segment, stat != PipeLast, base, Open(stages, k, first));
      OneMoreChild(stages, children, commands, base, first, child.table);
      children, commands := children + [child.table], commands + [command];
      lastPid := pids[|children| - 1];
      p, k := tail, k + 1;
    }
    code := WaitForAll(exits, lastPid);
    ends := fd[..];
    TableIsKeptIff(base, shell.table, ends, Tokens(nodes), first);
  }

  lemma TableIsKeptIff(base: Table, t: Table, ends: seq<int>, ts: seq<Token>, first: nat)
    requires Holds(base, t, ends, Open(Stages(ts), |Stages(ts)|, first), -1)
    ensures t == base <==> !EndsPiped(ts)
    ensures WellFormed(Stages(ts)) ==> t == base
  {
    hide EndsPiped, Holds;
    LastPipedIff(ts);
    KeptIff(base, t, ends, Open(Stages(ts), |Stages(ts)|, first));
  }

  lemma NoChildYet(stages: seq<Stage>, base: Table, first: nat)
    ensures Connected(stages, [], [], base, first)
  {
  }

  lemma NothingOpen(base: Table, fd: seq<int>)
    requires 0 in base && 1 in base && fd == [-1, -1, -1, -1]
    ensures Holds(base, base, fd, -1, -1)
  {
  }

  /** A shell has its descriptors as they were exactly if it holds no pipe any more. */
  lemma KeptIff(base: Table, t: Table, ends: seq<int>, prev: int)
    requires Holds(base, t, ends, prev, -1) && prev >= -1
    ensures t == base <==> prev == -1
  {
    if prev >= 0 {
      assert ends[0] in t;
    }
  }

  /** What a child inherits: all descriptors of the shell but 0 behind a pipe and 1 in front of one,
      and no other; the first child has the shell's input and the last one, if nothing is behind
      it, its output. */
  lemma ChildInherits(stages: seq<Stage>, children: seq<Table>, commands: seq<seq<Token>>, base: Table, first: nat,
                      i: nat)
    requires Connected(stages, children, commands, base, first) && i < |children| && 0 in base && 1 in base
    ensures children[i].Keys == base.Keys && forall fd | fd in base && fd != 0 && fd != 1 :: children[i][fd] == base[fd]
    ensures children[i][0] == if i == 0 then base[0] else ReadEnd(first + i - 1)
    ensures children[i][1] == if stages[i].piped then WriteEnd(first + i) else base[1]
    ensures commands[i] == stages[i].command
  {
  }

  /** In a well-formed pipeline each pipe has one reader, the child behind it, and one writer,
      the child in front of it. */
  lemma OneReaderOneWriter(stages: seq<Stage>, children: seq<Table>, commands: seq<seq<Token>>, base: Table, first: nat,
                           k: nat, i: nat, fd: int)
    requires WellFormed(stages) && |children| == |stages| && Connected(stages, children, commands, base, first)
    requires k + 1 < |stages| && i < |stages| && fd in children[i]
    requires forall e | e in base.Values :: e.Inherited?
    ensures 0 in children[k + 1] && children[k + 1][0] == ReadEnd(first + k)
    ensures 1 in children[k] && children[k][1] == WriteEnd(first + k)
    ensures children[i][fd] == ReadEnd(first + k) ==> i == k + 1 && fd == 0
    ensures children[i][fd] == WriteEnd(first + k) ==> i == k && fd == 1
  {
    if fd in base {
      assert base[fd] in base.Values;
    }
  }

  /** After the list  a |  the shell still holds both ends of the pipe; after  a | |  it does not,
      for the second | is a command. */
  lemma TrailingPipeIsKept(base: Table, t: Table, ends: seq<int>, first: nat)
    ensures EndsPiped([Token("a", Default), Token("|", First)])
    ensures !EndsPiped([Token("a", Default), Token("|", First), Token("|", First)])
    ensures var stages := Stages([Token("a", Default), Token("|", First)]);
            && stages == [Stage([Token("a", Default)], true)]
            && (Holds(base, t, ends, Open(stages, 1, first), -1) ==>
                  && ends[0] !in base && ends[0] in t && t[ends[0]] == ReadEnd(first)
                  && ends[1] !in base && ends[1] in t && t[ends[1]] == WriteEnd(first))
  {
    var ts := [Token("a", Default), Token("|", First)];
    assert PipeAt(ts, 1) && FirstPipe(ts, 1) == 1;
    assert ts[..1] == [ts[0]] && ts[2..] == [];
    TrailingIs(ts, 1);
    TrailingIs(ts + [Token("|", First)], 2);
  }
}
