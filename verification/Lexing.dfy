/** How the shell cuts its input into tokens, character by character, and how to print tokens
    so that it reads them back. */
module Lexing {

  /** An operator is FIRST, or SECOND if it follows another operator without a gap. */
  datatype Spec = Default | First | Second

  datatype Token = Token(word: seq<char>, spec: Spec)

  predicate NeedEscape(c: char) {
    c in "\n'\"\\ ><|&"
  }

  predicate SpecSymbol(c: char) {
    c in "<>|&"
  }

  /** The list so far, the word so far, the flags, and the lists at the line breaks so far, before
      comments are stripped. */
  datatype Lexer = Lexer(
    tokens: seq<Token>, buf: seq<char>, quoteD: bool, quoteS: bool, escape: bool, prevSpec: bool,
    lines: seq<seq<Token>>)

  /** insert_list: an empty buffer makes no token. */
  function Flushed(s: Lexer, spec: Spec): Lexer {
    if s.buf == [] then s else s.(tokens := s.tokens + [Token(s.buf, spec)], buf := [])
  }

  /** What one character does. */
  function Feed(s: Lexer, c: char): Lexer {
    if s.escape then
      s.(buf := s.buf + (if NeedEscape(c) then [] else ['\\']) + (if c == '\n' then [] else [c]), escape := false)
    else if c == '"' then
      if s.quoteS then s.(buf := s.buf + [c], prevSpec := false) else s.(quoteD := !s.quoteD, prevSpec := false)
    else if c == '\'' then
      if s.quoteD then s.(buf := s.buf + [c], prevSpec := false) else s.(quoteS := !s.quoteS, prevSpec := false)
    else if c == '\\' then
      if s.quoteS then s.(buf := s.buf + [c], prevSpec := false) else s.(escape := true, prevSpec := false)
    else if c == ' ' || c == '\n' || SpecSymbol(c) then
      if s.quoteS || s.quoteD then s.(buf := s.buf + [c])
      else
        var r := Flushed(s, Default);
        if SpecSymbol(c) then Flushed(r.(buf := [c]), if s.prevSpec then Second else First).(prevSpec := true)
        else if c == '\n' then r.(lines := r.lines + [r.tokens], tokens := [], prevSpec := false)
        else r.(prevSpec := false)
    else s.(buf := s.buf + [c], prevSpec := false)
  }

  function FeedAll(s: Lexer, input: seq<char>): Lexer {
    if input == [] then s else Feed(FeedAll(s, input[..|input| - 1]), input[|input| - 1])
  }

  lemma {:induction false} FeedTwo(s: Lexer, a: seq<char>, b: seq<char>)
    ensures FeedAll(s, a + b) == FeedAll(FeedAll(s, a), b)
    decreases |b|
  {
    if b == [] {
      assert a + b == a;
    } else {
      assert (a + b)[..|a + b| - 1] == a + b[..|b| - 1];
      FeedTwo(s, a, b[..|b| - 1]);
    }
  }

  lemma FlushedKeeps(s: Lexer)
    ensures var r := Flushed(s, Default);
            && r.buf == [] && r.lines == s.lines && r.prevSpec == s.prevSpec
            && r.quoteD == s.quoteD && r.quoteS == s.quoteS && r.escape == s.escape
  {
  }

  lemma FeedSeparates(s: Lexer, c: char)
    requires !s.escape && (c == ' ' || c == '\n' || SpecSymbol(c))
    ensures Feed(s, c) ==
            if s.quoteS || s.quoteD then s.(buf := s.buf + [c])
            else if SpecSymbol(c) then
              Flushed(Flushed(s, Default).(buf := [c]), if s.prevSpec then Second else First).(prevSpec := true)
            else if c == '\n' then
              Flushed(s, Default).(lines := s.lines + [Flushed(s, Default).tokens], tokens := [], prevSpec := false)
            else Flushed(s, Default).(prevSpec := false)
  {
  }

  // ---------- printing ----------

  /** A line break cannot be escaped, the escape would swallow it; in double quotes it stays. */
  function PrintChar(c: char): seq<char> {
    if c == '\n' then ['"', c, '"'] else if NeedEscape(c) then ['\\', c] else [c]
  }

  function PrintWord(word: seq<char>): seq<char> {
    if word == [] then [] else PrintWord(word[..|word| - 1]) + PrintChar(word[|word| - 1])
  }

  /** A gap makes an operator FIRST, no gap makes it SECOND. */
  function PrintToken(t: Token): seq<char> {
    match t.spec
    case Default => " " + PrintWord(t.word)
    case First => " " + t.word
    case Second => t.word
  }

  function Print(ts: seq<Token>): seq<char> {
    if ts == [] then [] else Print(ts[..|ts| - 1]) + PrintToken(ts[|ts| - 1])
  }

  function PrintLines(lines: seq<seq<Token>>): seq<char> {
    if lines == [] then [] else PrintLines(lines[..|lines| - 1]) + Print(lines[|lines| - 1]) + "\n"
  }

  /** What can be printed: words that are not empty, operators of one symbol, SECOND only
      behind an operator. */
  predicate Printable(ts: seq<Token>) {
    forall i | 0 <= i < |ts| :: PrintableAt(ts, i)
  }

  predicate PrintableAt(ts: seq<Token>, i: nat)
    requires i < |ts|
  {
    if ts[i].spec == Default then ts[i].word != []
    else |ts[i].word| == 1 && SpecSymbol(ts[i].word[0]) && (ts[i].spec == Second ==> i > 0 && ts[i - 1].spec != Default)
  }

  // ---------- reading back what was printed ----------

  predicate Plain(s: Lexer) {
    !s.quoteD && !s.quoteS && !s.escape
  }

  lemma BreakIsReadBack(s: Lexer)
    requires Plain(s)
    ensures FeedAll(s, ['"', '\n', '"']) == s.(buf := s.buf + ['\n'], prevSpec := false)
  {
    hide FeedAll;
    FeedThree(s, '"', '\n', '"');
    assert Feed(s, '"') == s.(quoteD := true, prevSpec := false);
  }

  lemma EscapedIsReadBack(s: Lexer, c: char)
    requires Plain(s) && NeedEscape(c) && c != '\n'
    ensures FeedAll(s, ['\\', c]) == s.(buf := s.buf + [c], prevSpec := false)
  {
    hide FeedAll, NeedEscape;
    FeedThree(s, '\\', c, ' ');
    assert Feed(s, '\\') == s.(escape := true, prevSpec := false);
  }

  lemma OrdinaryIsReadBack(s: Lexer, c: char)
    requires Plain(s) && !NeedEscape(c)
    ensures FeedAll(s, [c]) == s.(buf := s.buf + [c], prevSpec := false)
  {
    hide FeedAll;
    FeedThree(s, c, ' ', ' ');
  }

  lemma CharIsReadBack(s: Lexer, c: char)
    requires Plain(s)
    ensures FeedAll(s, PrintChar(c)) == s.(buf := s.buf + [c], prevSpec := false)
  {
    hide Feed, FeedAll, NeedEscape;
    if c == '\n' {
      BreakIsReadBack(s);
    } else if NeedEscape(c) {
      EscapedIsReadBack(s, c);
    } else {
      OrdinaryIsReadBack(s, c);
    }
  }

  lemma FeedThree(s: Lexer, a: char, b: char, c: char)
    ensures FeedAll(s, [a]) == Feed(s, a)
    ensures FeedAll(s, [a, b]) == Feed(Feed(s, a), b)
    ensures FeedAll(s, [a, b, c]) == Feed(Feed(Feed(s, a), b), c)
  {
    assert [a, b][..1] == [a] && [a, b, c][..2] == [a, b] && [a][..0] == [];
  }

  lemma FeedNothing(s: Lexer)
    ensures FeedAll(s, []) == s
  {
  }

  lemma {:induction false} WordIsReadBack(s: Lexer, word: seq<char>)
    requires Plain(s)
    ensures FeedAll(s, PrintWord(word)) == s.(buf := s.buf + word, prevSpec := s.prevSpec && word == [])
  {
    hide Feed, FeedAll, PrintChar;
    if word == [] {
      FeedNothing(s);
      assert s.buf + word == s.buf;
    } else {
      var front := word[..|word| - 1];
      WordIsReadBack(s, front);
      FeedTwo(s, PrintWord(front), PrintChar(word[|word| - 1]));
      CharIsReadBack(FeedAll(s, PrintWord(front)), word[|word| - 1]);
      assert s.buf + front + [word[|word| - 1]] == s.buf + word;
    }
  }

  /** The state after the tokens were printed: the last word is still in the buffer. */
  function Behind(s: Lexer, ts: seq<Token>): Lexer {
    if ts == [] then s
    else
      var (front, last) := (ts[..|ts| - 1], ts[|ts| - 1]);
      if last.spec == Default then s.(tokens := front, buf := last.word, prevSpec := false)
      else s.(tokens := ts, buf := [], prevSpec := true)
  }

  lemma FeedGap(s: Lexer)
    requires Plain(s)
    ensures FeedAll(s, " ") == Flushed(s, Default).(prevSpec := false)
    ensures FeedAll(s, "\n") ==
            Flushed(s, Default).(tokens := [], lines := s.lines + [Flushed(s, Default).tokens], prevSpec := false)
  {
    FeedThree(s, ' ', ' ', ' ');
    FeedThree(s, '\n', ' ', ' ');
  }

  lemma FeedOperator(s: Lexer, word: seq<char>)
    requires Plain(s) && |word| == 1 && SpecSymbol(word[0])
    ensures FeedAll(s, word) ==
            s.(tokens := Flushed(s, Default).tokens + [Token(word, if s.prevSpec then Second else First)], buf := [],
                prevSpec := true)
  {
    FeedThree(s, word[0], ' ', ' ');
    assert word == [word[0]];
  }

  lemma FrontAndLast<T>(xs: seq<T>)
    requires xs != []
    ensures xs[..|xs| - 1] + [xs[|xs| - 1]] == xs
  {
  }

  /** A gap behind printed tokens completes the last word. */
  lemma GapCompletes(s: Lexer, ts: seq<Token>)
    requires Plain(s) && s.tokens == [] && s.buf == [] && Printable(ts)
    ensures Flushed(Behind(s, ts), Default) ==
            s.(tokens := ts, prevSpec := if ts == [] then s.prevSpec else ts[|ts| - 1].spec != Default)
  {
    if ts != [] {
      FrontAndLast(ts);
      assert PrintableAt(ts, |ts| - 1);
    }
  }

  lemma TokenIsReadBack(s: Lexer, ts: seq<Token>)
    requires Plain(s) && s.tokens == [] && s.buf == [] && Printable(ts) && ts != []
    ensures FeedAll(Behind(s, ts[..|ts| - 1]), PrintToken(ts[|ts| - 1])) == Behind(s, ts)
  {
    hide Feed, FeedAll, PrintWord, SpecSymbol;
    var (front, t) := (ts[..|ts| - 1], ts[|ts| - 1]);
    var r := Behind(s, front);
    FrontAndLast(ts);
    assert PrintableAt(ts, |ts| - 1);
    PrefixIsPrintable(ts);
    GapCompletes(s, front);
    FeedGap(r);
    if t.spec == Default {
      FeedTwo(r, " ", PrintWord(t.word));
      WordIsReadBack(s.(tokens := front, prevSpec := false), t.word);
      assert [] + t.word == t.word;
    } else if t.spec == First {
      FeedTwo(r, " ", t.word);
      FeedOperator(s.(tokens := front, prevSpec := false), t.word);
    } else {
      FeedOperator(r, t.word);
    }
  }

  lemma PrefixIsPrintable(ts: seq<Token>)
    requires Printable(ts) && ts != []
    ensures Printable(ts[..|ts| - 1])
  {
    var front := ts[..|ts| - 1];
    forall i | 0 <= i < |front|
      ensures PrintableAt(front, i)
    {
      assert PrintableAt(ts, i);
    }
  }

  lemma {:induction false} TokensAreReadBack(s: Lexer, ts: seq<Token>)
    requires Plain(s) && s.tokens == [] && s.buf == [] && Printable(ts)
    ensures FeedAll(s, Print(ts)) == Behind(s, ts)
  {
    if ts == [] {
    } else {
      PrefixIsPrintable(ts);
      TokensAreReadBack(s, ts[..|ts| - 1]);
      FeedTwo(s, Print(ts[..|ts| - 1]), PrintToken(ts[|ts| - 1]));
      TokenIsReadBack(s, ts);
    }
  }

  /** Any printable line is read back as the list it was printed from. */
  lemma LineIsReadBack(s: Lexer, ts: seq<Token>)
    requires Plain(s) && s.tokens == [] && s.buf == [] && Printable(ts)
    ensures FeedAll(s, Print(ts) + "\n") == s.(lines := s.lines + [ts], prevSpec := false)
  {
    hide Feed, FeedAll, Print;
    TokensAreReadBack(s, ts);
    FeedTwo(s, Print(ts), "\n");
    FeedGap(Behind(s, ts));
    GapCompletes(s, ts);
  }

  const CLEAN := Lexer([], [], false, false, false, false, [])

  /** And so is any sequence of printable lines. */
  lemma {:induction false} LinesAreReadBack(lines: seq<seq<Token>>)
    requires forall i | 0 <= i < |lines| :: Printable(lines[i])
    ensures FeedAll(CLEAN, PrintLines(lines)) == CLEAN.(lines := lines)
  {
    hide Feed, FeedAll, Print;
    if lines == [] {
      FeedNothing(CLEAN);
    } else {
      var (front, last) := (lines[..|lines| - 1], lines[|lines| - 1]);
      LinesAreReadBack(front);
      assert PrintLines(lines) == PrintLines(front) + (Print(last) + "\n");
      FeedTwo(CLEAN, PrintLines(front), Print(last) + "\n");
      LineIsReadBack(CLEAN.(lines := front), last);
      assert front + [last] == lines;
    }
  }

  // ---------- what quotes and backslashes mean ----------

  /** A character as it stands, or behind a backslash. */
  datatype Letter = Itself(c: char) | Escaped(c: char)

  /** How a word can be spelled: letters outside quotes, or in single or double quotes. */
  datatype Piece = Outside(letter: Letter) | SingleQuoted(text: seq<char>) | DoubleQuoted(letters: seq<Letter>)

  function LetterText(l: Letter): seq<char> {
    match l
    case Itself(c) => [c]
    case Escaped(c) => ['\\', c]
  }

  /** A backslash in front of a line break swallows it, in front of what is special it is left out,
      and in front of anything else it stays. */
  function LetterMeans(l: Letter): seq<char> {
    match l
    case Itself(c) => [c]
    case Escaped(c) => if c == '\n' then [] else if c in "'\"\\ ><|&" then [c] else ['\\', c]
  }

  function LettersText(ls: seq<Letter>): seq<char> {
    if ls == [] then [] else LettersText(ls[..|ls| - 1]) + LetterText(ls[|ls| - 1])
  }

  function LettersMean(ls: seq<Letter>): seq<char> {
    if ls == [] then [] else LettersMean(ls[..|ls| - 1]) + LetterMeans(ls[|ls| - 1])
  }

  /** A special character stands for itself only in quotes, and a quote ends them. */
  predicate Legal(p: Piece) {
    match p
    case Outside(l) => l.Itself? ==> l.c !in "\n'\"\\ ><|&"
    case SingleQuoted(text) => '\'' !in text
    case DoubleQuoted(ls) => forall i | 0 <= i < |ls| && ls[i].Itself? :: ls[i].c != '"' && ls[i].c != '\\'
  }

  function PieceText(p: Piece): seq<char> {
    match p
    case Outside(l) => LetterText(l)
    case SingleQuoted(text) => ['\''] + text + ['\'']
    case DoubleQuoted(ls) => ['"'] + LettersText(ls) + ['"']
  }

  function PieceMeans(p: Piece): seq<char> {
    match p
    case Outside(l) => LetterMeans(l)
    case SingleQuoted(text) => text
    case DoubleQuoted(ls) => LettersMean(ls)
  }

  function PiecesText(ps: seq<Piece>): seq<char> {
    if ps == [] then [] else PiecesText(ps[..|ps| - 1]) + PieceText(ps[|ps| - 1])
  }

  function PiecesMean(ps: seq<Piece>): seq<char> {
    if ps == [] then [] else PiecesMean(ps[..|ps| - 1]) + PieceMeans(ps[|ps| - 1])
  }

  /** Outside single quotes a backslash means the same in double quotes and without. */
  lemma EscapeIs(s: Lexer, c: char)
    requires !s.quoteS && !s.escape
    ensures FeedAll(s, ['\\', c]) == s.(buf := s.buf + LetterMeans(Escaped(c)), prevSpec := false)
  {
    hide FeedAll;
    FeedThree(s, '\\', c, ' ');
    assert Feed(s, '\\') == s.(escape := true, prevSpec := false);
    EscapedIs(s.(escape := true, prevSpec := false), c);
  }

  lemma EscapedIs(s: Lexer, c: char)
    requires s.escape
    ensures Feed(s, c) == s.(buf := s.buf + LetterMeans(Escaped(c)), escape := false)
  {
    assert s.buf + [] + [] == s.buf;
  }

  lemma {:induction false} SingleQuotedIs(s: Lexer, text: seq<char>)
    requires s.quoteS && !s.quoteD && !s.escape && !s.prevSpec && '\'' !in text
    ensures FeedAll(s, text) == s.(buf := s.buf + text)
  {
    if text == [] {
      assert s.buf + text == s.buf;
    } else {
      var front := text[..|text| - 1];
      SingleQuotedIs(s, front);
      assert s.buf + front + [text[|text| - 1]] == s.buf + text;
    }
  }

  lemma {:induction false} DoubleQuotedIs(s: Lexer, ls: seq<Letter>)
    requires s.quoteD && !s.quoteS && !s.escape && !s.prevSpec && Legal(DoubleQuoted(ls))
    ensures FeedAll(s, LettersText(ls)) == s.(buf := s.buf + LettersMean(ls))
  {
    hide Feed, FeedAll, LetterMeans;
    if ls == [] {
      FeedNothing(s);
      assert s.buf + [] == s.buf;
    } else {
      var (front, l) := (ls[..|ls| - 1], ls[|ls| - 1]);
      var r := s.(buf := s.buf + LettersMean(front));
      DoubleQuotedIs(s, front);
      FeedTwo(s, LettersText(front), LetterText(l));
      LetterInQuotes(r, l);
      assert s.buf + LettersMean(front) + LetterMeans(l) == s.buf + LettersMean(ls);
    }
  }

  lemma LetterInQuotes(s: Lexer, l: Letter)
    requires s.quoteD && !s.quoteS && !s.escape && !s.prevSpec
    requires l.Itself? ==> l.c != '"' && l.c != '\\'
    ensures FeedAll(s, LetterText(l)) == s.(buf := s.buf + LetterMeans(l))
  {
    hide FeedAll;
    match l
    case Itself(c) => FeedThree(s, c, ' ', ' ');
    case Escaped(c) => EscapeIs(s, c);
  }

  lemma QuoteIs(s: Lexer)
    requires !s.escape
    ensures !s.quoteD ==> Feed(s, '\'') == s.(quoteS := !s.quoteS, prevSpec := false)
    ensures !s.quoteS ==> Feed(s, '"') == s.(quoteD := !s.quoteD, prevSpec := false)
  {
  }

  lemma FeedAround(s: Lexer, c: char, text: seq<char>)
    ensures FeedAll(s, [c] + text + [c]) == Feed(FeedAll(Feed(s, c), text), c)
  {
    hide Feed, FeedAll;
    FeedTwo(s, [c] + text, [c]);
    FeedTwo(s, [c], text);
    FeedThree(s, c, ' ', ' ');
    FeedThree(FeedAll(s, [c] + text), c, ' ', ' ');
  }

  lemma PieceIs(s: Lexer, p: Piece)
    requires Plain(s) && Legal(p)
    ensures FeedAll(s, PieceText(p)) == s.(buf := s.buf + PieceMeans(p), prevSpec := false)
  {
    hide Feed, FeedAll;
    match p
    case Outside(Itself(c)) =>
      BareIs(s, c);
      FeedThree(s, c, ' ', ' ');
    case Outside(Escaped(c)) =>
      EscapeIs(s, c);
    case SingleQuoted(text) =>
      FeedAround(s, '\'', text);
      QuoteIs(s);
      SingleQuotedIs(s.(quoteS := true, prevSpec := false), text);
      QuoteIs(s.(quoteS := true, prevSpec := false, buf := s.buf + text));
    case DoubleQuoted(ls) =>
      FeedAround(s, '"', LettersText(ls));
      QuoteIs(s);
      DoubleQuotedIs(s.(quoteD := true, prevSpec := false), ls);
      QuoteIs(s.(quoteD := true, prevSpec := false, buf := s.buf + LettersMean(ls)));
  }

  lemma BareIs(s: Lexer, c: char)
    requires Plain(s) && c !in "\n'\"\\ ><|&"
    ensures Feed(s, c) == s.(buf := s.buf + [c], prevSpec := false)
  {
    assert forall k | 0 <= k < |"\n'\"\\ ><|&"| :: c != "\n'\"\\ ><|&"[k];
  }

  /** A word is read as what its spelling means, whichever quotes and backslashes it is spelled with. */
  lemma {:induction false} SpellingIsRead(s: Lexer, ps: seq<Piece>)
    requires Plain(s) && forall i | 0 <= i < |ps| :: Legal(ps[i])
    ensures FeedAll(s, PiecesText(ps)) == s.(buf := s.buf + PiecesMean(ps), prevSpec := s.prevSpec && ps == [])
  {
    hide Feed, FeedAll, PieceText, PieceMeans, Legal;
    if ps == [] {
      FeedNothing(s);
      assert s.buf + [] == s.buf;
    } else {
      var (front, p) := (ps[..|ps| - 1], ps[|ps| - 1]);
      SpellingIsRead(s, front);
      FeedTwo(s, PiecesText(front), PieceText(p));
      PieceIs(FeedAll(s, PiecesText(front)), p);
      assert s.buf + PiecesMean(front) + PieceMeans(p) == s.buf + PiecesMean(ps);
    }
  }

  /** Outside quotes a space or a line break ends the word, if there is one, a line break the line too,
      and each of the four symbols is a token of its own: SECOND directly behind another one. */
  lemma SeparatorIs(s: Lexer, c: char)
    requires Plain(s)
    ensures var tokens := if s.buf == [] then s.tokens else s.tokens + [Token(s.buf, Default)];
            && (c == ' ' ==> Feed(s, c) == s.(tokens := tokens, buf := [], prevSpec := false))
            && (c == '\n' ==>
                  Feed(s, c) == s.(tokens := [], lines := s.lines + [tokens], buf := [], prevSpec := false))
            && (c == '<' || c == '>' || c == '|' || c == '&' ==>
                  Feed(s, c) == s.(tokens := tokens + [Token([c], if s.prevSpec then Second else First)], buf := [],
                                   prevSpec := true))
  {
  }

  // ---------- what is executed ----------

  predicate Comment(t: Token) {
    t.word != [] && t.word[0] == '#'
  }

  /** The first place from i on where a word begins with #, or the end. */
  function FirstComment(ts: seq<Token>, i: nat): (k: nat)
    requires i <= |ts|
    ensures i <= k <= |ts| && (k < |ts| ==> Comment(ts[k]))
    ensures forall j | i <= j < k :: !Comment(ts[j])
    decreases |ts| - i
  {
    if i == |ts| || Comment(ts[i]) then i else FirstComment(ts, i + 1)
  }

  /** strip_comment */
  function Stripped(ts: seq<Token>): seq<Token> {
    ts[..FirstComment(ts, 0)]
  }

  /** What is executed of the lists at the line breaks: those of which something is left. */
  function Executed(lines: seq<seq<Token>>): seq<seq<Token>> {
    if lines == [] then []
    else
      var ts := Stripped(lines[|lines| - 1]);
      Executed(lines[..|lines| - 1]) + if ts == [] then [] else [ts]
  }

  /** What is left of a line are the words in front of the first one that begins with #. */
  lemma StrippedWords(ts: seq<Token>)
    ensures Stripped(ts) <= ts
    ensures forall t | t in Stripped(ts) :: t.word == [] || t.word[0] != '#'
    ensures var k := |Stripped(ts)|; k < |ts| ==> ts[k].word != [] && ts[k].word[0] == '#'
  {
  }

  lemma StrippedIff(ts: seq<Token>)
    ensures Stripped(ts) == ts <==> forall t | t in ts :: !Comment(t)
  {
    var k := FirstComment(ts, 0);
    if k < |ts| {
      assert ts[k] in ts;
    }
  }

  lemma ExecutedOneMore(lines: seq<seq<Token>>, ts: seq<Token>)
    ensures Executed(lines + [ts]) == Executed(lines) + if Stripped(ts) == [] then [] else [Stripped(ts)]
    ensures Executed(lines) + [] == Executed(lines)
  {
    hide Stripped;
    assert (lines + [ts])[..|lines|] == lines;
  }

  /** A line is executed as it stands: it is not empty, and no word begins with #. */
  predicate Kept(ts: seq<Token>) {
    ts != [] && forall t | t in ts :: !Comment(t)
  }

  lemma {:induction false} ExecutedAtMost(lines: seq<seq<Token>>)
    ensures |Executed(lines)| <= |lines|
  {
    if lines == [] {
    } else {
      ExecutedAtMost(lines[..|lines| - 1]);
    }
  }

  lemma KeptIs(ts: seq<Token>)
    ensures Kept(ts) <==> ts != [] && Stripped(ts) == ts
  {
    StrippedIff(ts);
  }

  lemma {:induction false} AllKept(lines: seq<seq<Token>>)
    requires forall i | 0 <= i < |lines| :: Kept(lines[i])
    ensures Executed(lines) == lines
  {
    hide Stripped, Kept;
    if lines == [] {
    } else {
      AllKept(lines[..|lines| - 1]);
      KeptIs(lines[|lines| - 1]);
      FrontAndLast(lines);
    }
  }

  lemma {:induction false} NoneLost(lines: seq<seq<Token>>, i: nat)
    requires Executed(lines) == lines && i < |lines|
    ensures Kept(lines[i])
  {
    hide Stripped, Kept;
    var (front, last) := (lines[..|lines| - 1], lines[|lines| - 1]);
    FrontAndLast(lines);
    ExecutedAtMost(front);
    assert Executed(front) == front && Stripped(last) == last != [] by {
      assert Executed(lines)[..|front|] == front && Executed(lines)[|front|..] == [last];
    }
    if i == |front| {
      KeptIs(last);
    } else {
      NoneLost(front, i);
    }
  }

  /** All lines are executed as they stand exactly if each of them is. */
  lemma ExecutedIff(lines: seq<seq<Token>>)
    ensures Executed(lines) == lines <==> forall i | 0 <= i < |lines| :: Kept(lines[i])
  {
    hide Executed, Kept;
    if Executed(lines) == lines {
      forall i | 0 <= i < |lines|
        ensures Kept(lines[i])
      {
        NoneLost(lines, i);
      }
    } else if forall i | 0 <= i < |lines| :: Kept(lines[i]) {
      AllKept(lines);
    }
  }
}
