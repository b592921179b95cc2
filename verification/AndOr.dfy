/** Lists of pipelines joined by && and ||: how the shell cuts them in place, and what it runs. */
module AndOr {
  import opened Lexing
  import opened TokenLists

  datatype LogicOp = And | Or | Last | Empty

  // ---------- tokens ----------

  predicate OpAt(ts: seq<Token>, i: nat, symbol: seq<char>) {
    i + 1 < |ts| && ts[i] == Token(symbol, First) && ts[i + 1] == Token(symbol, Second)
  }

  predicate SomeOpAt(ts: seq<Token>, i: nat) {
    OpAt(ts, i, "|") || OpAt(ts, i, "&")
  }

  /** The first place from i on where && or || stands, or the end. */
  function FirstOp(ts: seq<Token>, i: nat): (k: nat)
    requires i <= |ts|
    ensures i <= k <= |ts| && (k < |ts| ==> SomeOpAt(ts, k))
    ensures forall j | i <= j < k :: !SomeOpAt(ts, j)
    decreases |ts| - i
  {
    if i == |ts| || SomeOpAt(ts, i) then i else FirstOp(ts, i + 1)
  }

  /** A segment and the operator behind it; the first token is never taken for an operator. */
  datatype Part = Part(segment: seq<Token>, op: LogicOp)

  function FirstPart(ts: seq<Token>): (Part, seq<Token>)
    requires ts != []
  {
    var k := FirstOp(ts, 1);
    if k == |ts| then (Part(ts, Last), [])
    else (Part(ts[..k], if OpAt(ts, k, "|") then Or else And), ts[k + 2..])
  }

  function Parse(ts: seq<Token>): seq<Part>
    decreases |ts|
  {
    if ts == [] then [] else [FirstPart(ts).0] + Parse(FirstPart(ts).1)
  }

  function OpTokens(op: LogicOp): seq<Token> {
    match op
    case And => [Token("&", First), Token("&", Second)]
    case Or => [Token("|", First), Token("|", Second)]
    case _ => []
  }

  function Flatten(parts: seq<Part>): seq<Token> {
    if parts == [] then [] else parts[0].segment + OpTokens(parts[0].op) + Flatten(parts[1..])
  }

  /** && or || as the reader of the shell makes them: two tokens, the second without a gap. */
  predicate OperatorAt(ts: seq<Token>, i: nat) {
    && i + 1 < |ts| && ts[i].word == ts[i + 1].word && ts[i].spec == First && ts[i + 1].spec == Second
    && (ts[i].word == ['&'] || ts[i].word == ['|'])
  }

  lemma NoOperator(ts: seq<Token>, k: nat, j: nat)
    requires j < k <= |ts| && !SomeOpAt(ts, j)
    ensures !OperatorAt(ts[..k], j)
  {
    if j + 1 < k {
      var symbol := ts[j].word;
      assert ts[j].spec == First ==> ts[j] == Token(symbol, First);
      assert ts[j + 1].word == symbol && ts[j + 1].spec == Second ==> ts[j + 1] == Token(symbol, Second);
    }
  }

  lemma FirstPartKeeps(ts: seq<Token>)
    requires ts != []
    ensures var (part, rest) := FirstPart(ts);
            && part.segment + OpTokens(part.op) + rest == ts && |rest| < |ts|
            && part.op != Empty && (part.op == Last ==> rest == [])
            && part.segment != [] && forall j | 1 <= j :: !OperatorAt(part.segment, j)
  {
    var k := FirstOp(ts, 1);
    assert ts[..|ts|] == ts;
    forall j | 1 <= j
      ensures !OperatorAt(ts[..k], j)
    {
      if j < k {
        NoOperator(ts, k, j);
      }
    }
    if k < |ts| {
      var op := FirstPart(ts).0.op;
      assert OpTokens(op) == [ts[k], ts[k + 1]];
      assert ts == ts[..k] + [ts[k], ts[k + 1]] + ts[k + 2..];
    }
  }

  /** Cutting loses no token and keeps their order, whatever the tokens are; behind every part but
      the last stands an operator, and no part is empty or holds one behind its first token. */
  lemma {:induction false} FlattenParse(ts: seq<Token>)
    ensures Flatten(Parse(ts)) == ts
    ensures forall i | 0 <= i < |Parse(ts)| ::
              && Parse(ts)[i].segment != [] && (forall j | 1 <= j :: !OperatorAt(Parse(ts)[i].segment, j))
              && Parse(ts)[i].op != Empty && (i < |Parse(ts)| - 1 ==> Parse(ts)[i].op != Last)
    decreases |ts|
  {
    hide FirstPart, OpTokens, FirstOp;
    if ts == [] {
    } else {
      FirstPartKeeps(ts);
      FlattenParse(FirstPart(ts).1);
      assert Parse(ts)[1..] == Parse(FirstPart(ts).1);
      forall i | 0 <= i < |Parse(ts)|
        ensures Parse(ts)[i] == if i == 0 then FirstPart(ts).0 else Parse(FirstPart(ts).1)[i - 1]
      {
      }
    }
  }

  /** Segments are not empty and hold no && or || behind their first token; operators stand between them. */
  predicate WellFormed(parts: seq<Part>) {
    forall i | 0 <= i < |parts| ::
      && parts[i].segment != [] && FirstOp(parts[i].segment, 1) == |parts[i].segment|
      && (if i == |parts| - 1 then parts[i].op == Last else parts[i].op == And || parts[i].op == Or)
  }

  lemma FirstPartIs(part: Part, rest: seq<Token>)
    requires part.segment != [] && FirstOp(part.segment, 1) == |part.segment|
    requires part.op == And || part.op == Or || (part.op == Last && rest == [])
    ensures FirstPart(part.segment + OpTokens(part.op) + rest) == (part, rest)
  {
    var ts, n := part.segment + OpTokens(part.op) + rest, |part.segment|;
    forall j | 1 <= j < n
      ensures !SomeOpAt(ts, j)
    {
      assert !SomeOpAt(part.segment, j);
    }
    if part.op == Last {
      assert ts == part.segment;
    } else {
      assert ts[n..n + 2] == OpTokens(part.op);
      assert ts[n] == OpTokens(part.op)[0] && ts[n + 1] == OpTokens(part.op)[1];
      assert ts[n + 2..] == rest && ts[..n] == part.segment;
      assert SomeOpAt(ts, n);
      assert FirstOp(ts, 1) == n;
    }
  }

  /** Of well-formed lists of segments, exactly the segments and operators are found. */
  lemma {:induction false} ParseFlatten(parts: seq<Part>)
    requires WellFormed(parts)
    ensures Parse(Flatten(parts)) == parts
  {
    if parts == [] {
    } else {
      assert forall i | 0 <= i < |parts[1..]| :: parts[1..][i] == parts[i + 1];
      ParseFlatten(parts[1..]);
      FirstPartIs(parts[0], Flatten(parts[1..]));
    }
  }

  // ---------- meaning ----------

  /** Left-associative, both operators of the same precedence. */
  datatype Tree = Single(segment: seq<Token>) | Joined(left: Tree, op: LogicOp, right: seq<Token>)

  /** The status and the segments that were run, in order. */
  datatype Outcome = Outcome(status: int, ran: seq<seq<Token>>)

  /** The status of a segment may depend on everything that was run before. */
  type Oracle = seq<seq<Token>> -> int

  function Ran(o: Outcome, segment: seq<Token>, oracle: Oracle): Outcome {
    Outcome(oracle(o.ran + [segment]), o.ran + [segment])
  }

  /** && goes on after success, || after failure; else the status stays. */
  predicate GoesOn(op: LogicOp, status: int) {
    (op == And && status == 0) || (op == Or && status != 0)
  }

  function Evaluate(tree: Tree, oracle: Oracle): Outcome {
    match tree
    case Single(segment) => Ran(Outcome(0, []), segment, oracle)
    case Joined(left, op, right) =>
      var o := Evaluate(left, oracle);
      if GoesOn(op, o.status) then Ran(o, right, oracle) else o
  }

  function TreeOf(parts: seq<Part>): Tree
    requires parts != []
  {
    var n := |parts|;
    if n == 1 then Single(parts[0].segment) else Joined(TreeOf(parts[..n - 1]), parts[n - 2].op, parts[n - 1].segment)
  }

  function EvaluateList(parts: seq<Part>, oracle: Oracle): Outcome {
    if parts == [] then Outcome(0, []) else Evaluate(TreeOf(parts), oracle)
  }

  /** One more part: run or passed over. */
  lemma EvaluateOneMore(parts: seq<Part>, k: nat, oracle: Oracle)
    requires k < |parts|
    ensures var o := EvaluateList(parts[..k], oracle);
            EvaluateList(parts[..k + 1], oracle) ==
            if k == 0 || GoesOn(parts[k - 1].op, o.status) then Ran(o, parts[k].segment, oracle) else o
  {
    assert parts[..k + 1][..k] == parts[..k];
  }

  // ---------- which segments run ----------

  /** The segments of those parts that run, in order. */
  function Selected(parts: seq<Part>, runs: seq<bool>): seq<seq<Token>>
    requires |runs| <= |parts|
  {
    if runs == [] then []
    else
      var k := |runs| - 1;
      Selected(parts, runs[..k]) + if runs[k] then [parts[k].segment] else []
  }

  /** A part runs if it is the first one, or stands behind && and what was run last succeeded, or
      stands behind || and what was run last failed. */
  predicate RunsAt(parts: seq<Part>, runs: seq<bool>, k: nat, oracle: Oracle)
    requires k < |runs| <= |parts|
  {
    var status := oracle(Selected(parts, runs[..k]));
    runs[k] <==> k == 0 || (parts[k - 1].op == And && status == 0) || (parts[k - 1].op == Or && status != 0)
  }

  predicate Explains(parts: seq<Part>, runs: seq<bool>, oracle: Oracle) {
    |runs| == |parts| && forall k | 0 <= k < |parts| :: RunsAt(parts, runs, k, oracle)
  }

  lemma {:induction false} ExplainedTo(parts: seq<Part>, k: nat, oracle: Oracle) returns (runs: seq<bool>)
    requires k <= |parts|
    ensures |runs| == k && forall i | 0 <= i < k :: RunsAt(parts, runs, i, oracle)
    ensures EvaluateList(parts[..k], oracle).ran == Selected(parts, runs)
    ensures EvaluateList(parts[..k], oracle).status == if k == 0 then 0 else oracle(Selected(parts, runs))
    ensures k > 0 ==> runs[0]
  {
    if k == 0 {
      runs := [];
    } else {
      hide EvaluateList;
      var before := ExplainedTo(parts, k - 1, oracle);
      var o := EvaluateList(parts[..k - 1], oracle);
      EvaluateOneMore(parts, k - 1, oracle);
      runs := before + [k == 1 || GoesOn(parts[k - 2].op, o.status)];
      assert runs[..k - 1] == before;
      forall i | 0 <= i < k
        ensures RunsAt(parts, runs, i, oracle)
      {
        if i < k - 1 {
          assert runs[..i] == before[..i] && RunsAt(parts, before, i, oracle);
        }
      }
    }
  }

  /** What the evaluator runs is what these rules say, and the status is that of the last segment run. */
  lemma Explained(parts: seq<Part>, oracle: Oracle) returns (runs: seq<bool>)
    ensures Explains(parts, runs, oracle)
    ensures EvaluateList(parts, oracle).ran == Selected(parts, runs)
    ensures EvaluateList(parts, oracle).status == if parts == [] then 0 else oracle(Selected(parts, runs))
  {
    runs := ExplainedTo(parts, |parts|, oracle);
    assert parts[..|parts|] == parts;
  }

  /** A list with only && runs up to the first segment that fails, one with only || up to the first
      that succeeds, and its status is that of the last one run. */
  lemma {:induction false} OneKindOnly(parts: seq<Part>, op: LogicOp, oracle: Oracle)
    requires parts != [] && (op == And || op == Or) && forall i | 0 <= i < |parts| - 1 :: parts[i].op == op
    ensures var o := EvaluateList(parts, oracle);
            var m := |o.ran|;
            && 1 <= m <= |parts| && (forall i | 0 <= i < m :: o.ran[i] == parts[i].segment)
            && o.status == oracle(o.ran)
            && (forall j | 1 <= j < m :: if op == And then oracle(o.ran[..j]) == 0 else oracle(o.ran[..j]) != 0)
            && (m < |parts| ==> if op == And then o.status != 0 else o.status == 0)
    decreases |parts|
  {
    var n := |parts|;
    EvaluateOneMore(parts, n - 1, oracle);
    assert parts[..n] == parts;
    if n == 1 {
      NoPartsRun(oracle);
      assert parts[..0] == [];
    } else {
      hide Evaluate, TreeOf, EvaluateList;
      OneKindOnly(parts[..n - 1], op, oracle);
      var (before, o) := (EvaluateList(parts[..n - 1], oracle), EvaluateList(parts, oracle));
      assert forall j | 1 <= j < |before.ran| :: o.ran[..j] == before.ran[..j];
      assert o != before ==> o.ran[..n - 1] == before.ran;
    }
  }

  lemma NoPartsRun(oracle: Oracle)
    ensures EvaluateList([], oracle) == Outcome(0, [])
  {
  }

  // ---------- the list in memory ----------

  /** check_or and check_and */
  method CheckOp(p: Node, symbol: seq<char>, ghost nodes: seq<Node>, ghost i: nat) returns (found: bool)
    requires Chain(nodes) && i < |nodes| && nodes[i] == p
    ensures found <==> OpAt(Tokens(nodes), i, symbol)
  {
    found := p.word == symbol && p.spec == First && p.next != null && p.next.word == symbol && p.next.spec == Second;
  }

  /** The first part of a list whose first operator is at place k. */
  lemma FirstPartAt(nodes: seq<Node>, k: nat)
    requires 0 < k < |nodes| && SomeOpAt(Tokens(nodes), k) && FirstOp(Tokens(nodes), 1) == k
    ensures k + 2 <= |nodes|
    ensures FirstPart(Tokens(nodes)) ==
            (Part(Tokens(nodes[..k]), if OpAt(Tokens(nodes), k, "|") then Or else And), Tokens(nodes[k + 2..]))
  {
    TokensOfPart(nodes, k);
    TokensOfPart(nodes, k + 2);
  }

  /** split_logic: the list ends in front of the first operator, and tail is what follows it. */
  method SplitLogic(start: Node?, ghost nodes: seq<Node>)
    returns (op: LogicOp, tail: Node?, ghost segment: seq<Node>, ghost rest: seq<Node>)
    requires Chain(nodes) && start == Head(nodes)
    modifies (set n | n in nodes)`next
    ensures nodes == [] <==> op == Empty
    ensures nodes == [] ==> tail == null && segment == [] && rest == []
    ensures nodes != [] ==> FirstPart(Tokens(nodes)) == (Part(Tokens(segment), op), Tokens(rest))
    ensures Chain(segment) && Chain(rest) && tail == Head(rest) && (nodes != [] ==> start == Head(segment))
    ensures forall n | n in segment :: n in nodes && n !in rest
    ensures forall n | n in rest :: n in nodes
  {
    tail, segment, rest := null, [], [];
    if start == null {
      return Empty, null, [], [];
    }
    var head := start;
    ghost var i := 0;
    while head.next != null
      invariant Chain(nodes) && i < |nodes| && nodes[i] == head
      invariant FirstOp(Tokens(nodes), 1) == FirstOp(Tokens(nodes), i + 1)
      decreases |nodes| - i
    {
      var isOr := CheckOp(head.next, "|", nodes, i + 1);
      var isAnd := CheckOp(head.next, "&", nodes, i + 1);
      if isOr || isAnd {
        FirstPartAt(nodes, i + 1);
        hide Tokens, FirstPart, FirstOp, OpAt;
        tail := head.next.next.next;
        segment, rest := nodes[..i + 1], nodes[i + 3..];
        head.next := null;
        op := if isOr then Or else And;
        return;
      }
      head, i := head.next, i + 1;
    }
    assert FirstOp(Tokens(nodes), 1) == |nodes| && Tokens(rest) == [];
    op, segment := Last, nodes;
  }

  /** execute_pipeline, as far as the evaluator sees it: it may cut the segment further, and
      its status depends on what was run before. */
  method RunPipeline(p: Node?, ghost nodes: seq<Node>, ran: seq<seq<Token>>, oracle: Oracle)
    returns (status: int, ran': seq<seq<Token>>)
    requires Chain(nodes) && p == Head(nodes)
    modifies (set n | n in nodes)`next
    ensures Outcome(status, ran') == Ran(Outcome(0, ran), Tokens(nodes), oracle)
  {
    var tokens := ReadTokens(p, nodes);
    ran' := ran + [tokens];
    status := oracle(ran');
  }

  /** Where the evaluator is: k parts are behind it, the one before with operator op, and the
      rest of the list starts at tail. */
  ghost predicate At(parts: seq<Part>, k: nat, op: LogicOp, tail: Node?, rest: seq<Node>, o: Outcome, oracle: Oracle)
    reads rest`next
  {
    && k <= |parts| && Chain(rest) && tail == Head(rest)
    && Parse(Tokens(rest)) == parts[k..]
    && (k > 0 ==> op == parts[k - 1].op)
    && o == EvaluateList(parts[..k], oracle)
  }

  lemma NextPart(parts: seq<Part>, k: nat, ts: seq<Token>)
    requires k <= |parts| && Parse(ts) == parts[k..]
    ensures ts == [] <==> k == |parts|
    ensures ts != [] ==> FirstPart(ts).0 == parts[k] && Parse(FirstPart(ts).1) == parts[k + 1..]
  {
    if ts != [] {
      assert Parse(ts)[0] == parts[k] && Parse(ts)[1..] == parts[k + 1..];
    }
  }

  /** A part that is not run because of the operator in front of it. */
  method SkipParts(op0: LogicOp, until: LogicOp, tail0: Node?, ghost rest0: seq<Node>, ghost k0: nat,
                   ghost parts: seq<Part>, ghost o: Outcome, ghost oracle: Oracle)
    returns (tail: Node?, ghost rest: seq<Node>, ghost k: nat)
    requires At(parts, k0, op0, tail0, rest0, o, oracle) && 0 < k0
    requires op0 == And || op0 == Or
    requires until != op0 && (until == And || until == Or) && !GoesOn(op0, o.status) && GoesOn(until, o.status)
    modifies (set n | n in rest0)`next
    ensures k0 <= k <= |parts| && At(parts, k, parts[k - 1].op, tail, rest, o, oracle)
    ensures k < |parts| ==> parts[k - 1].op == until
    ensures forall n | n in rest :: n in rest0
  {
    hide FirstPart, Parse, Evaluate, TreeOf, EvaluateList, Chain;
    var op := op0;
    tail, rest, k := tail0, rest0, k0;
    while op != Empty && op != until
      invariant k0 <= k <= |parts| && (op == Empty ==> k == |parts|)
      invariant At(parts, k, parts[k - 1].op, tail, rest, o, oracle)
      invariant op != Empty ==> op == parts[k - 1].op
      invariant forall n | n in rest :: n in rest0
      decreases |parts| - k, op != Empty
    {
      var p := tail;
      ghost var nodes := rest;
      NextPart(parts, k, Tokens(nodes));
      ghost var segment;
      op, tail, segment, rest := SplitLogic(p, nodes);
      if op != Empty {
        EvaluateOneMore(parts, k, oracle);
        k := k + 1;
      }
    }
  }

  lemma LastEnds(ts: seq<Token>)
    requires ts != [] && FirstPart(ts).0.op == Last
    ensures FirstPart(ts).1 == [] && Parse(FirstPart(ts).1) == []
  {
  }

  lemma WholeList(parts: seq<Part>)
    ensures parts[..|parts|] == parts && parts[0..] == parts && parts[..0] == []
  {
  }

  /** execute_logic: whatever the tokens are, it runs what the left-associative evaluator runs
      of the parts they are cut into, in the same order, and returns the same status; which parts
      these are is said by runs. */
  method ExecuteLogic(start: Node?, ghost nodes: seq<Node>, oracle: Oracle)
    returns (exitCode: int, ran: seq<seq<Token>>, ghost runs: seq<bool>)
    requires Chain(nodes) && start == Head(nodes)
    modifies (set n | n in nodes)`next
    ensures Outcome(exitCode, ran) == EvaluateList(Parse(Tokens(nodes)), oracle)
    ensures var parts := Parse(Tokens(nodes));
            && Explains(parts, runs, oracle) && ran == Selected(parts, runs)
            && exitCode == if parts == [] then 0 else oracle(ran)
  {
    hide FirstPart, Parse, Evaluate, TreeOf, EvaluateList, Chain, Selected, Explains;
    ghost var parts := Parse(Tokens(nodes));
    WholeList(parts);
    NoPartsRun(oracle);
    runs := Explained(parts, oracle);
    var p := start;
    ghost var rest, k := nodes, 0;
    exitCode, ran := 0, [];
    while true
      invariant 0 <= k <= |parts|
                && At(parts, k, if k > 0 then parts[k - 1].op else Last, p, rest, Outcome(exitCode, ran), oracle)
      invariant 0 < k < |parts| ==> GoesOn(parts[k - 1].op, exitCode)
      invariant forall n | n in rest :: n in nodes
      decreases |parts| - k
    {
      ghost var segment, before := [], rest;
      NextPart(parts, k, Tokens(rest));
      var op, tail;
      op, tail, segment, rest := SplitLogic(p, rest);
      if op == Empty {
        break;
      }
      exitCode, ran := RunPipeline(p, segment, ran, oracle);
      EvaluateOneMore(parts, k, oracle);
      k := k + 1;
      if op == Last {
        LastEnds(Tokens(before));
        break;
      }
      if op == Or && exitCode == 0 {
        tail, rest, k := SkipParts(op, And, tail, rest, k, parts, Outcome(exitCode, ran), oracle);
      } else if op == And && exitCode != 0 {
        tail, rest, k := SkipParts(op, Or, tail, rest, k, parts, Outcome(exitCode, ran), oracle);
      }
      p := tail;
    }
  }
}
