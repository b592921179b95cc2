/** The shell's main loop: it reads characters, and has each line that is complete executed. */
module Tokenizer {
  import opened Buffers
  import opened Lexing
  import opened TokenLists

  class Reader {
    const list: HeadList
    var buf: Buffer<char>
    var isQuoteD: bool
    var isQuoteS: bool
    var isEscape: bool
    var isPrevSpec: bool
    ghost var lines: seq<seq<Token>>     // the lists at the line breaks, before comments are stripped
    ghost var executed: seq<seq<Token>>  // the lists that were executed

    ghost predicate Valid()
      reads this, list, list.nodes`next, buf
    {
      list.Ok() && buf.Valid() && executed == Executed(lines)
    }

    ghost function View(): Lexer
      requires Valid()
      reads this, list, list.nodes`next, buf, buf.data
    {
      Lexer(Tokens(list.nodes), buf.Contents(), isQuoteD, isQuoteS, isEscape, isPrevSpec, lines)
    }

    ghost function Repr(): set<object>
      reads this, list, buf
    {
      {this, list, buf, buf.data} + set n | n in list.nodes
    }

    constructor ()
      ensures Valid() && View() == CLEAN && fresh(Repr())
    {
      list := new HeadList();
      buf := new Buffer<char>(32);
      isQuoteD, isQuoteS, isEscape, isPrevSpec, lines, executed := false, false, false, false, [], [];
    }

    method Put(c: char)
      requires Valid()
      modifies this`buf, buf, buf.data
      ensures Valid() && View() == old(View()).(buf := old(View()).buf + [c])
      ensures fresh(Repr() - old(Repr()))
    {
      hide HeadList.Ok, Executed;
      buf := InsertBuffer(buf, c);
    }

    /** Completes a token, if there is one in the buffer. */
    method Flush(spec: Spec)
      requires Valid()
      modifies list, list.nodes`next, buf`pos
      ensures Valid() && View() == Flushed(old(View()), spec)
      ensures fresh(Repr() - old(Repr()))
    {
      hide HeadList.Ok, Executed;
      list.Insert(buf, spec);
    }

    /** An operator is a token of its own. */
    method Operator(c: char)
      requires Valid() && buf.pos == 0
      modifies list, list.nodes`next, buf, buf.data, this`isPrevSpec
      ensures Valid() && fresh(Repr() - old(Repr()))
      ensures View() == Flushed(old(View()).(buf := [c]), if old(isPrevSpec) then Second else First).(prevSpec := true)
    {
      hide HeadList.Ok, Executed;
      buf.pos := 1;
      buf.data[0] := c;
      assert buf.Contents() == [c];
      Flush(if isPrevSpec then Second else First);
      isPrevSpec := true;
    }

    /** At a line break: comments are stripped, and what is left is executed, if anything is. */
    method EndLine()
      requires Valid()
      modifies this`lines, this`executed, list, (set n | n in list.nodes)`next
      ensures Valid() && View() == old(View()).(tokens := [], lines := old(View()).lines + [old(View()).tokens])
      ensures fresh(Repr() - old(Repr()))
    {
      hide HeadList.Ok, Stripped, Executed;
      ExecutedOneMore(lines, Tokens(list.nodes));
      lines := lines + [Tokens(list.nodes)];
      list.StripComment();
      list.FirstIs();
      if list.first != null {
        executed := executed + [Tokens(list.nodes)];
      }
      list.Clear();
    }

    /** The body of the loop, for a character that is not escaped and separates tokens. */
    method Separate(c: char)
      requires Valid() && !isEscape && (c == ' ' || c == '\n' || SpecSymbol(c))
      modifies this, list, list.nodes`next, buf, buf.data
      ensures Valid() && View() == Feed(old(View()), c)
      ensures fresh(Repr() - old(Repr()))
    {
      hide HeadList.Ok, Executed, Feed, Flushed, SpecSymbol;
      FeedSeparates(View(), c);
      FlushedKeeps(View());
      if isQuoteS || isQuoteD {
        Put(c);
        return;
      }
      Flush(Default);
      if SpecSymbol(c) {
        Operator(c);
      } else {
        if c == '\n' {
          EndLine();
        }
        isPrevSpec := false;
      }
    }

    /** The body of the loop, for a character behind a backslash. */
    method TakeEscaped(c: char)
      requires Valid() && isEscape
      modifies this, buf, buf.data
      ensures Valid() && View() == Feed(old(View()), c)
      ensures fresh(Repr() - old(Repr()))
    {
      hide HeadList.Ok, Flushed, Executed;
      if !NeedEscape(c) {
        Put('\\');
      }
      if c != '\n' {
        Put(c);
      }
      isEscape := false;
    }

    /** The body of the loop, for a quote or a backslash. */
    method TakeQuote(c: char)
      requires Valid() && !isEscape && (c == '"' || c == '\'' || c == '\\')
      modifies this, buf, buf.data
      ensures Valid() && View() == Feed(old(View()), c)
      ensures fresh(Repr() - old(Repr()))
    {
      hide HeadList.Ok, Flushed, Executed;
      isPrevSpec := false;
      match c {
        case '"' =>
          if !isQuoteS {
            isQuoteD := !isQuoteD;
          } else {
            Put(c);
          }
        case '\'' =>
          if !isQuoteD {
            isQuoteS := !isQuoteS;
          } else {
            Put(c);
          }
        case _ =>
          if !isQuoteS {
            isEscape := true;
          } else {
            Put(c);
          }
      }
    }

    /** The body of the loop. */
    method Take(c: char)
      requires Valid()
      modifies this, list, list.nodes`next, buf, buf.data
      ensures Valid() && View() == Feed(old(View()), c)
      ensures fresh(Repr() - old(Repr()))
    {
      hide HeadList.Ok, Flushed, Executed;
      if isEscape {
        TakeEscaped(c);
        return;
      }
      if c == '"' || c == '\'' || c == '\\' {
        TakeQuote(c);
      } else if c == ' ' || c == '\n' || SpecSymbol(c) {
        Separate(c);
      } else {
        Put(c);
        isPrevSpec := false;
      }
    }

    /** The loop: at the end of the input it is where the state machine is. */
    method ReadAll(input: seq<char>)
      requires Valid()
      modifies Repr()
      ensures Valid() && View() == FeedAll(old(View()), input)
      ensures fresh(Repr() - old(Repr()))
    {
      hide HeadList.Ok, Feed, Executed;
      for i := 0 to |input|
        invariant Valid() && View() == FeedAll(old(View()), input[..i])
        invariant fresh(Repr() - old(Repr()))
      {
        assert input[..i + 1][..i] == input[..i];
        Take(input[i]);
      }
      assert input[..|input|] == input;
    }

    /** Tokens that are printed line by line are the lists at the line breaks, whatever the buffer's
        size; they are executed as they were if no line is empty or holds a word that begins with #. */
    method ReadPrinted(printed: seq<seq<Token>>)
      requires Valid() && View() == CLEAN
      requires forall i | 0 <= i < |printed| :: Printable(printed[i])
      modifies Repr()
      ensures lines == printed && executed == Executed(printed)
      ensures executed == printed <==> forall i | 0 <= i < |printed| :: Kept(printed[i])
    {
      hide HeadList.Ok, Executed;
      LinesAreReadBack(printed);
      ExecutedIff(printed);
      ReadAll(PrintLines(printed));
    }
  }
}
