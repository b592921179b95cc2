/** The shell's singly linked lists of tokens. */
module TokenLists {
  import opened Buffers
  import opened Lexing

  class Node {
    const word: seq<char>
    const spec: Spec
    var next: Node?

    constructor (word: seq<char>, spec: Spec)
      ensures this.word == word && this.spec == spec && next == null
    {
      this.word, this.spec, next := word, spec, null;
    }
  }

  /** The nodes are linked one to the next, and the last one to nothing; none occurs twice. */
  ghost predicate Chain(nodes: seq<Node>)
    reads nodes`next
  {
    && (forall i {:trigger nodes[i].next} | 0 <= i < |nodes| ::
        nodes[i].next == if i + 1 < |nodes| then nodes[i + 1] else null)
    && (forall i, j | 0 <= i < j < |nodes| :: nodes[i] != nodes[j])
  }

  function Head(nodes: seq<Node>): Node? {
    if nodes == [] then null else nodes[0]
  }

  function Tokens(nodes: seq<Node>): seq<Token> {
    seq(|nodes|, i requires 0 <= i < |nodes| => Token(nodes[i].word, nodes[i].spec))
  }

  lemma TokensOfPart(nodes: seq<Node>, i: nat)
    requires i <= |nodes|
    ensures Tokens(nodes[..i]) == Tokens(nodes)[..i] && Tokens(nodes[i..]) == Tokens(nodes)[i..]
  {
  }

  lemma StrippedIs(nodes: seq<Node>)
    ensures var k := FirstComment(Tokens(nodes), 0); Stripped(Tokens(nodes)) == Tokens(nodes[..k])
  {
    TokensOfPart(nodes, FirstComment(Tokens(nodes), 0));
  }

  /** Walks down a list, as create_argv does. */
  method ReadTokens(start: Node?, ghost nodes: seq<Node>) returns (tokens: seq<Token>)
    requires Chain(nodes) && start == Head(nodes)
    ensures tokens == Tokens(nodes)
  {
    var p := start;
    tokens := [];
    ghost var i := 0;
    while p != null
      invariant i <= |nodes| && p == (if i < |nodes| then nodes[i] else null) && tokens == Tokens(nodes)[..i]
      decreases |nodes| - i
    {
      tokens, p, i := tokens + [Token(p.word, p.spec)], p.next, i + 1;
    }
  }

  class HeadList {
    var first: Node?
    var last: Node?
    ghost var nodes: seq<Node>

    ghost predicate Ok()
      reads this, nodes`next
    {
      && Chain(nodes) && first == Head(nodes)
      && (nodes != [] ==> last == nodes[|nodes| - 1])
    }

    constructor ()
      ensures Ok() && nodes == []
    {
      first, last, nodes := null, null, [];
    }

    lemma FirstIs()
      requires Ok()
      ensures first == null <==> nodes == []
    {
    }

    /** insert_list */
    method Insert(buf: Buffer<char>, spec: Spec)
      requires Ok() && buf.Valid()
      modifies this, nodes`next, buf`pos
      ensures Ok() && buf.Valid() && buf.Contents() == []
      ensures if old(buf.Contents()) == [] then nodes == old(nodes)
              else |nodes| == |old(nodes)| + 1 && old(nodes) == nodes[..|old(nodes)|] && fresh(nodes[|old(nodes)|])
      ensures Tokens(nodes) == old(Tokens(nodes)) +
              if old(buf.Contents()) == [] then [] else [Token(old(buf.Contents()), spec)]
    {
      if buf.pos == 0 {
        return;
      }
      var p := new Node(buf.data[..buf.pos], spec);
      buf.Clear();
      if first != null {
        last.next := p;
        last := p;
      } else {
        first := p;
        last := p;
      }
      nodes := nodes + [p];
    }

    /** free_list, and an empty list in its place. */
    method Clear()
      modifies this
      ensures Ok() && nodes == []
    {
      first, last, nodes := null, null, [];
    }

    /** strip_comment */
    method StripComment()
      requires Ok()
      modifies this, (set n | n in nodes)`next
      ensures Ok() && nodes <= old(nodes) && Tokens(nodes) == Stripped(old(Tokens(nodes)))
    {
      var tmp := first;
      if tmp == null {
        return;
      }
      if tmp.word != [] && tmp.word[0] == '#' {
        Clear();
        return;
      }
      ghost var i := 0;
      while tmp.next != null
        invariant Ok() && i < |nodes| && nodes[i] == tmp && nodes == old(nodes)
        invariant FirstComment(Tokens(nodes), 0) == FirstComment(Tokens(nodes), i + 1)
        decreases |nodes| - i
      {
        if tmp.next.word != [] && tmp.next.word[0] == '#' {
          StrippedIs(nodes);
          assert FirstComment(Tokens(nodes), 0) == i + 1;
          hide Tokens, FirstComment, Stripped;
          tmp.next := null;
          last := tmp;
          nodes := nodes[..i + 1];
          return;
        }
        tmp, i := tmp.next, i + 1;
      }
      assert Stripped(Tokens(nodes)) == Tokens(nodes);
    }
  }
}
