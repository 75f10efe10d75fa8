/**
 * Numbers, words, lines and tokens of a text: what the stream reads and strtok of the graph readers do
 * (xlib/src/Graph/GraphBase.cpp, lines 267-292, and xlib/src/Graph/GraphStdRead.cpp, lines 156-177).
 */
module DimacsText {
  import opened Wrappers

  // ---------------------------------------------------------------------------------------------
  // Decimal numbers

  predicate IsDigit(c: char) {
    '0' <= c <= '9'
  }

  function DigitValue(c: char): nat
    requires IsDigit(c)
  {
    c as int - '0' as int
  }

  function DigitChar(d: nat): (c: char)
    requires d < 10
    ensures IsDigit(c) && DigitValue(c) == d
  {
    ['0', '1', '2', '3', '4', '5', '6', '7', '8', '9'][d]
  }

  predicate AllDigits(s: string) {
    forall k :: 0 <= k < |s| ==> IsDigit(s[k])
  }

  /** How a number is printed. */
  function Decimal(n: nat): (s: string)
    ensures s != [] && AllDigits(s)
  {
    if n < 10 then [DigitChar(n)] else Decimal(n / 10) + [DigitChar(n % 10)]
  }

  /** How digits are read. */
  function Value(s: string): nat
    requires AllDigits(s)
  {
    if s == [] then 0 else 10 * Value(s[..|s| - 1]) + DigitValue(s[|s| - 1])
  }

  lemma {:induction false} ValueOfDecimal(n: nat)
    ensures Value(Decimal(n)) == n
  {
    if n >= 10 {
      ValueOfDecimal(n / 10);
      var s := Decimal(n);
      assert s[..|s| - 1] == Decimal(n / 10);
    } else {
      assert Decimal(n)[..0] == [];
    }
  }

  // ---------------------------------------------------------------------------------------------
  // Reading from the front of the remaining text

  predicate IsSpace(c: char) {
    c == ' ' || c == '\n' || c == '\t' || c == '\r' || c == 11 as char || c == 12 as char
  }

  function SkipSpace(s: string): (r: string)
    ensures |r| <= |s|
  {
    if s != [] && IsSpace(s[0]) then SkipSpace(s[1..]) else s
  }

  /** The digits in front. */
  function Digits(s: string): (r: string)
    ensures |r| <= |s| && r == s[..|r|] && AllDigits(r)
  {
    if s != [] && IsDigit(s[0]) then [s[0]] + Digits(s[1..]) else []
  }

  /** The characters before the next white space. */
  function Word(s: string): (r: string)
    ensures |r| <= |s| && r == s[..|r|]
  {
    if s != [] && !IsSpace(s[0]) then [s[0]] + Word(s[1..]) else []
  }

  /** The line in front, without its end. */
  function Line(s: string): (r: string)
    ensures |r| <= |s| && r == s[..|r|]
  {
    if s != [] && s[0] != '\n' then [s[0]] + Line(s[1..]) else []
  }

  /** What follows the line in front. */
  function AfterLine(s: string): (r: string)
    ensures |r| <= |s| && (s != [] ==> |r| < |s|)
  {
    var n := |Line(s)|;
    if n < |s| then s[n + 1..] else []
  }

  /** A formatted read of an unsigned number: white space, then at least one digit. */
  function Number(s: string): Option<(nat, string)> {
    var t := SkipSpace(s);
    var d := Digits(t);
    if d == [] then None else Some((Value(d), t[|d|..]))
  }

  lemma {:induction false} DigitsBefore(d: string, rest: string)
    requires AllDigits(d) && (rest == [] || !IsDigit(rest[0]))
    ensures Digits(d + rest) == d
  {
    if d == [] {
      assert d + rest == rest;
    } else {
      assert (d + rest)[1..] == d[1..] + rest;
      DigitsBefore(d[1..], rest);
    }
  }

  lemma {:induction false} LineBefore(l: string, rest: string)
    requires forall k :: 0 <= k < |l| ==> l[k] != '\n'
    ensures Line(l + ['\n'] + rest) == l
    ensures AfterLine(l + ['\n'] + rest) == rest
  {
    var s := l + ['\n'] + rest;
    if l != [] {
      assert s[1..] == l[1..] + ['\n'] + rest;
      LineBefore(l[1..], rest);
    }
    assert s[|l| + 1..] == rest;
  }

  /** A printed number is read back, with the rest untouched. */
  lemma {:induction false} NumberIsReadBack(n: nat, rest: string)
    requires rest == [] || !IsDigit(rest[0])
    ensures Number(Decimal(n) + rest) == Some((n, rest))
  {
    var s := Decimal(n) + rest;
    assert IsDigit(s[0]);
    DigitsBefore(Decimal(n), rest);
    ValueOfDecimal(n);
    assert s[|Decimal(n)|..] == rest;
  }

  lemma {:induction false} NumberAfterSpace(n: nat, rest: string)
    requires rest == [] || !IsDigit(rest[0])
    ensures Number([' '] + Decimal(n) + rest) == Some((n, rest))
  {
    var s := Decimal(n) + rest;
    assert ([' '] + Decimal(n) + rest)[1..] == s;
    assert IsDigit(s[0]) && !IsSpace(s[0]);
    assert SkipSpace([' '] + Decimal(n) + rest) == s;
    NumberIsReadBack(n, rest);
    assert SkipSpace(s) == s;
  }

  // ---------------------------------------------------------------------------------------------
  // Tokens of a line

  function SkipBlanks(s: string): (r: string)
    ensures |r| <= |s|
    ensures r != [] ==> r[0] != ' '
  {
    if s != [] && s[0] == ' ' then SkipBlanks(s[1..]) else s
  }

  function UntilBlank(s: string): (r: string)
    ensures |r| <= |s| && r == s[..|r|]
    ensures s != [] && s[0] != ' ' ==> r != []
  {
    if s != [] && s[0] != ' ' then [s[0]] + UntilBlank(s[1..]) else []
  }

  /** strtok with the blank as delimiter: runs of blanks separate, and there are no empty tokens. */
  function Tokens(s: string): seq<string>
    decreases |s|
  {
    var t := SkipBlanks(s);
    if t == [] then [] else
      var w := UntilBlank(t);
      [w] + Tokens(t[|w|..])
  }

  lemma {:induction false} UntilBlankBefore(d: string, rest: string)
    requires AllDigits(d) && (rest == [] || rest[0] == ' ')
    ensures UntilBlank(d + rest) == d
  {
    if d == [] {
      assert d + rest == rest;
    } else {
      assert (d + rest)[1..] == d[1..] + rest;
      UntilBlankBefore(d[1..], rest);
    }
  }

  lemma {:induction false} FirstToken(d: string, rest: string)
    requires d != [] && AllDigits(d) && (rest == [] || rest[0] == ' ')
    ensures Tokens(d + rest) == [d] + Tokens(rest)
  {
    var s := d + rest;
    assert s[0] == d[0] && s[0] != ' ';
    assert SkipBlanks(s) == s;
    UntilBlankBefore(d, rest);
    assert s[|d|..] == rest;
  }

  /** std::stoi: white space, an optional sign, and at least one digit; what follows is ignored. */
  function Stoi(s: string): Option<int> {
    var t := SkipSpace(s);
    var signed := t != [] && (t[0] == '-' || t[0] == '+');
    var d := Digits(if signed then t[1..] else t);
    var v: int := Value(d);
    if d == [] then None else Some(if signed && t[0] == '-' then -v else v)
  }

  lemma {:induction false} StoiOfDecimal(n: nat)
    ensures Stoi(Decimal(n)) == Some(n)
  {
    var d := Decimal(n);
    assert IsDigit(d[0]);
    DigitsBefore(d, []);
    assert d + [] == d;
    ValueOfDecimal(n);
  }
}
