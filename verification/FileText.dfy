/** What a file holds after its sorted numbers were printed over its old text.

    The file is opened for update, rewound and printed over from its start; nothing cuts off
    what the new text does not reach. */
module FileText {
  import opened Basics
  import opened QuickSort
  import opened SortProgram

  /** A number as the format %d prints it. */
  function Decimal(n: int): (text: string)
    ensures text != []
    decreases if n < 0 then 1 - n else n
  {
    if n < 0 then "-" + Decimal(-n)
    else if n < 10 then [Digit(n)]
    else Decimal(n / 10) + [Digit(n % 10)]
  }

  function Digit(n: int): char
    requires 0 <= n < 10
  {
    "0123456789"[n]
  }

  /** All numbers, each with a space behind it. */
  function Printed(a: seq<int>): string {
    if a == [] then "" else Decimal(a[0]) + " " + Printed(a[1..])
  }

  /** text printed from the start of a file that holds before. */
  function Overwritten(before: string, text: string): string {
    text + if |text| < |before| then before[|text|..] else ""
  }

  lemma {:induction false} PrintedWithout(a: seq<int>, i: nat)
    requires i < |a|
    ensures |Printed(a)| == |Decimal(a[i])| + 1 + |Printed(a[..i] + a[i + 1..])|
  {
    if i == 0 {
      assert a[..0] + a[1..] == a[1..];
    } else {
      PrintedWithout(a[1..], i - 1);
      assert (a[..i] + a[i + 1..])[1..] == a[1..][..i - 1] + a[1..][i..];
    }
  }

  lemma OneOut(a: seq<int>, i: nat)
    requires i < |a|
    ensures multiset(a) == multiset{a[i]} + multiset(a[..i] + a[i + 1..]) + multiset{}
  {
    assert a == a[..i] + [a[i]] + a[i + 1..];
  }

  /** The length of the text does not depend on the order of the numbers. */
  lemma {:induction false} SameLength(a: seq<int>, b: seq<int>)
    requires multiset(a) == multiset(b)
    ensures |Printed(a)| == |Printed(b)|
    decreases |a|
  {
    if a == [] {
      assert b == [];
    } else {
      assert a[0] in multiset(b);
      var i :| 0 <= i < |b| && b[i] == a[0];
      var b' := b[..i] + b[i + 1..];
      OneOut(a, 0);
      OneOut(b, i);
      assert a[..0] + a[1..] == a[1..];
      Cancel(multiset{a[0]}, multiset(a[1..]), multiset(b'), multiset{});
      PrintedWithout(b, i);
      SameLength(a[1..], b');
    }
  }

  /** Whatever text the file held: after any run it holds the sorted numbers and nothing else
      exactly if the old text was no longer than its numbers take, printed with single spaces. */
  lemma FileIsSortedIff(run: seq<State>, inputs: seq<seq<int>>, i: nat, before: string)
    requires IsRun(run, inputs) && run[|run| - 1].running == -1 && i < |inputs|
    ensures |run[|run| - 1].workers| == |inputs|
    ensures var written := run[|run| - 1].workers[i].written;
            && Sorted(written) && multiset(written) == multiset(inputs[i])
            && Printed(written) <= Overwritten(before, Printed(written))
            && (Overwritten(before, Printed(written)) == Printed(written) <==> |before| <= |Printed(inputs[i])|)
  {
    MainFindsSorted(run, inputs, i);
    var written := run[|run| - 1].workers[i].written;
    SameLength(written, inputs[i]);
  }

  // ---------- reading numbers ----------

  predicate Space(c: char) {
    c == ' ' || '\t' <= c <= '\r'
  }

  predicate IsDigit(c: char) {
    '0' <= c <= '9'
  }

  function SkipSpaces(text: string): (rest: string)
    ensures |rest| <= |text| && (rest != [] ==> !Space(rest[0]))
  {
    if text == [] || !Space(text[0]) then text else SkipSpaces(text[1..])
  }

  /** How many digits the text begins with. */
  function Digits(text: string): (n: nat)
    ensures n <= |text| && forall k | 0 <= k < n :: IsDigit(text[k])
    ensures n < |text| ==> !IsDigit(text[n])
  {
    if text == [] || !IsDigit(text[0]) then 0 else 1 + Digits(text[1..])
  }

  function DigitValue(c: char): nat
    requires IsDigit(c)
  {
    c as int - '0' as int
  }

  function Value(digits: string): int
    requires forall k | 0 <= k < |digits| :: IsDigit(digits[k])
  {
    if digits == [] then 0 else 10 * Value(digits[..|digits| - 1]) + DigitValue(digits[|digits| - 1])
  }

  predicate Signed(text: string) {
    text != [] && (text[0] == '-' || text[0] == '+')
  }

  /** Behind its spaces, the text goes on with a number. */
  predicate NumberAhead(text: string) {
    var rest := SkipSpaces(text);
    Digits(if Signed(rest) then rest[1..] else rest) > 0
  }

  /** What the format %d reads: a number, and what is left. */
  function ScanOne(text: string): (r: Option<(int, string)>)
    ensures r.Some? ==> |r.value.1| < |text|
    ensures r.Some? <==> NumberAhead(text)
  {
    var rest := SkipSpaces(text);
    var digits := if Signed(rest) then rest[1..] else rest;
    var n := Digits(digits);
    if n == 0 then None
    else
      var size := Value(digits[..n]);
      Some((if rest[0] == '-' then -size else size, digits[n..]))
  }

  /** The numbers that the reading loop gets, up to where no number follows. */
  function Scan(text: string): seq<int>
    decreases |text|
  {
    match ScanOne(text)
    case None => []
    case Some((n, rest)) => [n] + Scan(rest)
  }

  function Numbers(texts: seq<string>): seq<seq<int>> {
    seq(|texts|, i requires 0 <= i < |texts| => Scan(texts[i]))
  }

  lemma {:induction false} DecimalIs(n: nat)
    ensures forall k | 0 <= k < |Decimal(n)| :: IsDigit(Decimal(n)[k])
    ensures Value(Decimal(n)) == n
    decreases n
  {
    DigitIs(n % 10);
    if n < 10 {
      assert Decimal(n) == [Digit(n)];
      assert Decimal(n)[..0] == "";
    } else {
      DecimalIs(n / 10);
      assert Decimal(n) == Decimal(n / 10) + [Digit(n % 10)];
      assert Decimal(n)[..|Decimal(n)| - 1] == Decimal(n / 10);
    }
  }

  lemma DigitIs(n: nat)
    requires n < 10
    ensures IsDigit(Digit(n)) && DigitValue(Digit(n)) == n
  {
  }

  lemma {:induction false} DigitsAre(digits: string, rest: string)
    requires forall k | 0 <= k < |digits| :: IsDigit(digits[k])
    requires rest == [] || !IsDigit(rest[0])
    ensures Digits(digits + rest) == |digits|
  {
    if digits == [] {
      assert digits + rest == rest;
    } else {
      DigitsAre(digits[1..], rest);
      assert (digits + rest)[1..] == digits[1..] + rest;
    }
  }

  lemma ScanDigits(text: string)
    requires text != [] && IsDigit(text[0])
    ensures var n := Digits(text); ScanOne(text) == Some((Value(text[..n]), text[n..]))
  {
    hide Value;
  }

  lemma ScanMinus(text: string)
    requires |text| > 1 && text[0] == '-' && IsDigit(text[1])
    ensures var n := Digits(text[1..]); ScanOne(text) == Some((-Value(text[1..][..n]), text[1..][n..]))
  {
    hide Value;
    assert text[1..][0] == text[1];
  }

  lemma Parts(a: string, b: string)
    ensures (a + b)[..|a|] == a && (a + b)[|a|..] == b
  {
  }

  /** A printed number is read back. */
  lemma NumberIsReadBack(n: int, rest: string)
    requires rest == [] || !IsDigit(rest[0])
    ensures ScanOne(Decimal(n) + rest) == Some((n, rest))
  {
    hide ScanOne, Value, Digits;
    var text := Decimal(n) + rest;
    if n < 0 {
      var digits := Decimal(-n);
      DecimalIs(-n);
      hide Decimal, Digit;
      DigitsAre(digits, rest);
      Parts(digits, rest);
      MinusFirst(n, rest);
      ScanMinus(text);
    } else {
      DecimalIs(n);
      hide Decimal, Digit;
      DigitsAre(Decimal(n), rest);
      Parts(Decimal(n), rest);
      ScanDigits(text);
    }
  }

  lemma MinusFirst(n: int, rest: string)
    requires n < 0
    ensures var text := Decimal(n) + rest;
            text[0] == '-' && text[1..] == Decimal(-n) + rest && text[1] == Decimal(-n)[0]
  {
  }

  lemma SpaceIsSkipped(text: string)
    ensures Scan(" " + text) == Scan(text)
  {
    Parts(" ", text);
    hide Value, Digits, SkipSpaces, ScanOne;
    OneSpaceSkipped(" " + text);
  }

  /** The six white-space characters of C in front of a number are skipped. */
  lemma OneSpaceSkipped(text: string)
    requires text != [] && text[0] in [' ', '\t', '\n', '\U{0B}', '\U{0C}', '\r']
    ensures ScanOne(text) == ScanOne(text[1..])
  {
    hide Value, Digits;
    assert SkipSpaces(text) == SkipSpaces(text[1..]);
  }

  lemma ScanIs(text: string, n: int, rest: string)
    requires ScanOne(text) == Some((n, rest))
    ensures Scan(text) == [n] + Scan(rest)
  {
  }

  lemma PrintedIs(a: seq<int>)
    requires a != []
    ensures Printed(a) == Decimal(a[0]) + " " + Printed(a[1..])
  {
  }

  lemma Regrouped(a: string, b: string, c: string, d: string)
    ensures a + b + c + d == a + (b + (c + d))
  {
  }

  lemma PrintedFirst(a: seq<int>, rest: string)
    requires a != []
    ensures Scan(Printed(a) + rest) == [a[0]] + Scan(Printed(a[1..]) + rest)
  {
    hide ScanOne, Scan, Decimal, Printed;
    var behind := Printed(a[1..]) + rest;
    PrintedIs(a);
    Regrouped(Decimal(a[0]), " ", Printed(a[1..]), rest);
    NumberIsReadBack(a[0], " " + behind);
    ScanIs(Printed(a) + rest, a[0], " " + behind);
    SpaceIsSkipped(behind);
  }

  /** Printed numbers are read back, whatever text stands behind them. */
  lemma {:induction false} PrintedIsReadBack(a: seq<int>, rest: string)
    ensures Scan(Printed(a) + rest) == a + Scan(rest)
    decreases |a|
  {
    hide Scan, Decimal;
    if a == [] {
      assert Printed(a) + rest == rest;
    } else {
      PrintedFirst(a, rest);
      PrintedIsReadBack(a[1..], rest);
    }
  }

  // ---------- what is read from the file afterwards ----------

  /** The part of the old text that the new one does not reach. */
  function Unreached(before: string): string {
    var n := |Printed(Scan(before))|;
    if n < |before| then before[n..] else ""
  }

  /** After any run the file, read again, holds its numbers sorted and then those that can be read
      from the old text behind them; so it holds exactly the sorted numbers if and only if no
      number follows there. */
  lemma ReadAgainIff(run: seq<State>, texts: seq<string>, i: nat)
    requires IsRun(run, Numbers(texts)) && run[|run| - 1].running == -1 && i < |texts|
    ensures |run[|run| - 1].workers| == |texts|
    ensures var written := run[|run| - 1].workers[i].written;
            var file := Overwritten(texts[i], Printed(written));
            && Sorted(written) && multiset(written) == multiset(Scan(texts[i]))
            && Scan(file) == written + Scan(Unreached(texts[i]))
            && (Scan(file) == written <==> !NumberAhead(Unreached(texts[i])))
  {
    var before := texts[i];
    FileIsSortedIff(run, Numbers(texts), i, before);
    var written := run[|run| - 1].workers[i].written;
    SameLength(written, Scan(before));
    assert Overwritten(before, Printed(written)) == Printed(written) + Unreached(before);
    PrintedIsReadBack(written, Unreached(before));
  }

  /** A zero in front and no space behind: a file of two numbers ends up with three. */
  lemma OldTextStays(run: seq<State>, texts: seq<string>, i: nat)
    requires IsRun(run, Numbers(texts)) && run[|run| - 1].running == -1 && i < |texts| && texts[i] == "007 3"
    ensures Scan(texts[i]) == [7, 3] && |run[|run| - 1].workers| == |texts|
    ensures var file := Overwritten(texts[i], Printed(run[|run| - 1].workers[i].written));
            file == "3 7 3" && Scan(file) == [3, 7, 3]
  {
    hide ScanOne, Scan, Sorted, Value, Digits, SkipSpaces;
    ReadAgainIff(run, texts, i);
    ScanOfOldText();
    TwoInOrder(run[|run| - 1].workers[i].written, 7, 3);
    TwoPrinted();
  }

  lemma TwoPrinted()
    ensures Overwritten("007 3", Printed([3, 7])) == "3 7 3" && Scan("3 7 3") == [3, 7, 3]
  {
    hide ScanOne, Value, Digits, SkipSpaces;
    assert Printed([7]) == Decimal(7) + " " + Printed([]);
    assert Printed([3, 7]) == Decimal(3) + " " + Printed([7]);
    assert Decimal(3) == "3" && Decimal(7) == "7";
    assert "007 3"[4..] == "3";
    ScanOfThree();
    PrintedIsReadBack([3, 7], "3");
  }

  lemma ScanOfThree()
    ensures Scan("3") == [3]
  {
    NumberIsReadBack(3, "");
    assert Decimal(3) + "" == "3";
    ScanIs("3", 3, "");
  }

  lemma ScanOfOldText()
    ensures Scan("007 3") == [7, 3]
  {
    hide ScanOne, Digits, Value;
    ValueOfSeven();
    DigitsAre("007", " 3");
    Parts("007", " 3");
    assert "007" + " 3" == "007 3" && " " + "3" == " 3";
    ScanDigits("007 3");
    ScanIs("007 3", 7, " 3");
    ScanOfThree();
    SpaceIsSkipped("3");
  }

  /** Numbers are decimal, and may have a sign. */
  lemma SignedNumber()
    ensures ScanOne("-42") == Some((-42, "")) && ScanOne("+42 ") == Some((42, " "))
  {
    hide Digits;
    assert "42"[..1] == "4" && "4"[..0] == "" && "-42"[1..] == "42" && "+42 "[1..] == "42 ";
    assert Value("4") == 4 && Value("42") == 42;
    DigitsAre("42", "");
    DigitsAre("42", " ");
    assert "42" + "" == "42" && "42" + " " == "42 ";
    assert "42 "[..2] == "42" && "42 "[2..] == " " && "42"[..2] == "42" && "42"[2..] == "";
  }

  lemma ValueOfSeven()
    ensures Value("007") == 7
  {
    assert "007"[..2] == "00" && "00"[..1] == "0" && "0"[..0] == "";
    assert Value("0") == 0 && Value("00") == 0;
  }

  lemma TwoInOrder(a: seq<int>, x: int, y: int)
    requires Sorted(a) && multiset(a) == multiset([x, y]) && y <= x
    ensures a == [y, x]
  {
    assert |a| == |multiset(a)| == 2;
    assert a == [a[0], a[1]];
    assert a[0] in multiset([x, y]) && a[1] in multiset([x, y]);
    assert x in multiset(a) && y in multiset(a);
  }
}
