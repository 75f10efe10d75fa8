/**
 * What the DIMACS10 reader takes a text for, character by character (xlib/src/Graph/GraphBase.cpp, lines 267-292, and
 * xlib/src/Graph/GraphStdRead.cpp, lines 156-177): comments, white space, signs, flags, and the errors of a line.
 */
module DimacsWords {
  import opened Dimacs
  import opened DimacsText
  import opened EdgeList
  import opened Wrappers

  predicate White(c: char) {
    c == ' ' || c == '\t' || c == '\n' || c == '\r' || c == 11 as char || c == 12 as char
  }

  // ---------------------------------------------------------------------------------------------
  // In front of the header

  lemma {:induction false} SameCounts(s: string, t: string)
    requires Number(SkipComments(s)) == Number(SkipComments(t))
    ensures ReadHeader(s) == ReadHeader(t)
  {
  }

  lemma {:induction false} SameHeader(s: string, t: string)
    requires ReadHeader(s) == ReadHeader(t)
    ensures Parse(s) == Parse(t)
  {
  }

  /** A line that begins with a percent sign says nothing. */
  lemma {:induction false} CommentIsSkipped(line: string, s: string)
    requires forall k :: 0 <= k < |line| ==> line[k] != '\n'
    ensures Parse("%" + line + "\n" + s) == Parse(s)
  {
    var t := "%" + line + "\n" + s;
    LineBefore("%" + line, s);
    assert "%" + line + ['\n'] + s == t;
    SameCounts(t, s);
    SameHeader(t, s);
  }

  /** Only a comment, white space or a digit can begin a text. */
  lemma {:induction false} OtherStartIsMalformed(s: string)
    requires s != [] && s[0] != '%' && !('0' <= s[0] <= '9') && !White(s[0])
    ensures Parse(s) == Err(Malformed)
  {
  }

  /** White space in front of the counts says nothing; behind it there are no comments any more. */
  lemma {:induction false} SpaceIsSkipped(c: char, s: string)
    requires White(c) && (s == [] || s[0] != '%')
    ensures Parse([c] + s) == Parse(s)
  {
    assert SkipComments(s) == s && SkipComments([c] + s) == [c] + s;
    NumberSkipsSpace(c, s);
    SameCounts([c] + s, s);
    SameHeader([c] + s, s);
  }

  /** Behind the first count there has to be a second one. */
  lemma {:induction false} SecondCountIsNeeded(nV: nat, rest: string)
    requires rest == [] || (!White(rest[0]) && !('0' <= rest[0] <= '9'))
    ensures Parse(Decimal(nV) + rest) == Parse(Decimal(nV) + (" " + rest)) == Err(Malformed)
  {
    var d := Decimal(nV);
    assert IsDigit(d[0]) && (d + rest)[0] == d[0] && (d + (" " + rest))[0] == d[0];
    NumberIsReadBack(nV, rest);
    NumberIsReadBack(nV, " " + rest);
    NumberSkipsSpace(' ', rest);
    assert [' '] + rest == " " + rest;
  }

  lemma {:induction false} NumberSkipsSpace(c: char, s: string)
    requires White(c)
    ensures Number([c] + s) == Number(s)
  {
    assert ([c] + s)[1..] == s;
  }

  // ---------------------------------------------------------------------------------------------
  // The flag

  lemma {:induction false} WordBefore(w: string, rest: string)
    requires (forall k :: 0 <= k < |w| ==> !White(w[k])) && (rest == [] || White(rest[0]))
    ensures Word(w + rest) == w
  {
    if w == [] {
      assert w + rest == rest;
    } else {
      assert (w + rest)[1..] == w[1..] + rest;
      WordBefore(w[1..], rest);
    }
  }

  /** A header with a third word: what the word means, for every word. */
  lemma {:induction false} FlagMeans(nV: nat, nE: nat, flag: string, rest: string)
    requires flag != [] && forall k :: 0 <= k < |flag| ==> !White(flag[k])
    ensures var h := ReadHeader(Decimal(nV) + " " + Decimal(nE) + " " + flag + "\n" + rest);
      if flag == "1" then h == Err(Weighted)
      else if flag == "0" then h == Ok((Header(nV, 2 * nE, Directed), rest))
      else if flag == "100" then h == Ok((Header(nV, nE, Directed), rest))
      else h == Ok((Header(nV, nE, Undirected), rest))
  {
    var t := flag + "\n" + rest;
    var behind := " " + t;
    var s := Decimal(nV) + " " + Decimal(nE) + behind;
    assert Decimal(nV) + " " + Decimal(nE) + " " + flag + "\n" + rest == s;
    CountsAreReadBack(nV, nE, behind);
    FlagIsFound(flag, rest);
  }

  lemma {:induction false} FlagIsFound(flag: string, rest: string)
    requires flag != [] && forall k :: 0 <= k < |flag| ==> !White(flag[k])
    ensures var behind := " " + (flag + "\n" + rest);
      && behind[0] != '\n' && Word(SkipSpace(behind)) == flag
      && AfterLine(SkipSpace(behind)[|flag|..]) == rest
  {
    var t := flag + "\n" + rest;
    var behind := " " + t;
    assert behind[1..] == t && t[0] == flag[0];
    assert SkipSpace(behind) == t;
    WordBefore(flag, "\n" + rest);
    assert flag + ("\n" + rest) == t;
    assert t[|flag|..] == "\n" + rest;
    LineBefore([], rest);
    assert [] + ['\n'] + rest == "\n" + rest;
  }

  // ---------------------------------------------------------------------------------------------
  // The words of a line

  /** Blanks separate words and make none; everything else, tabs too, belongs to a word. */
  lemma {:induction false} BlankMakesNoWord(s: string)
    ensures Tokens([]) == [] && Tokens(" " + s) == Tokens(s)
  {
    assert (" " + s)[1..] == s;
  }

  lemma {:induction false} UntilBlankIs(w: string, rest: string)
    requires (forall k :: 0 <= k < |w| ==> w[k] != ' ') && (rest == [] || rest[0] == ' ')
    ensures UntilBlank(w + rest) == w
  {
    if w == [] {
      assert w + rest == rest;
    } else {
      assert (w + rest)[1..] == w[1..] + rest;
      UntilBlankIs(w[1..], rest);
    }
  }

  lemma {:induction false} WordIsToken(w: string, rest: string)
    requires w != [] && (forall k :: 0 <= k < |w| ==> w[k] != ' ') && (rest == [] || rest[0] == ' ')
    ensures Tokens(w + rest) == [w] + Tokens(rest)
  {
    var s := w + rest;
    assert s[0] == w[0];
    UntilBlankIs(w, rest);
    assert s[|w|..] == rest;
  }

  /** A written row is the neighbours counted from one, as words. */
  lemma {:induction false} RowIsWritten(row: seq<int>)
    requires forall k :: 0 <= k < |row| ==> 0 <= row[k]
    ensures |Tokens(RowText(row))| == |row|
    ensures forall k :: 0 <= k < |row| ==> Tokens(RowText(row))[k] == Decimal(row[k] + 1)
  {
    TokensOfRow(row);
  }

  /** Nothing but digits and blanks, and every blank between two digits. */
  predicate SingleBlanks(s: string) {
    forall k :: 0 <= k < |s| ==>
      '0' <= s[k] <= '9' || (s[k] == ' ' && 0 < k < |s| - 1 && '0' <= s[k - 1] <= '9' && '0' <= s[k + 1] <= '9')
  }

  lemma {:induction false} OneBlankMore(d: string, rest: string)
    requires d != [] && AllDigits(d) && SingleBlanks(rest) && rest != [] && '0' <= rest[0] <= '9'
    ensures SingleBlanks(d + (" " + rest))
  {
    var s := d + (" " + rest);
    forall k | |d| < k < |s|
      ensures s[k] == rest[k - |d| - 1]
    {
    }
    forall k | 0 <= k < |s|
      ensures '0' <= s[k] <= '9' || (s[k] == ' ' && 0 < k < |s| - 1 && IsDigit(s[k - 1]) && IsDigit(s[k + 1]))
    {
      if k < |d| {
        assert IsDigit(d[k]);
      } else if k == |d| {
        assert IsDigit(d[k - 1]) && s[k + 1] == rest[0];
      } else {
        var j := k - |d| - 1;
        assert s[k] == rest[j];
        assert j > 0 ==> s[k - 1] == rest[j - 1];
        assert j < |rest| - 1 ==> s[k + 1] == rest[j + 1];
      }
    }
  }

  /** The blanks of a written row stand between two numbers, one each. */
  lemma {:induction false} RowHasSingleBlanks(row: seq<int>)
    requires forall k :: 0 <= k < |row| ==> 0 <= row[k]
    ensures SingleBlanks(RowText(row))
    ensures row != [] ==> RowText(row) != [] && '0' <= RowText(row)[0] <= '9'
  {
    if row != [] {
      var d := Decimal(row[0] + 1);
      if |row| == 1 {
        assert d + "" == d;
      } else {
        RowHasSingleBlanks(row[1..]);
        OneBlankMore(d, RowText(row[1..]));
      }
    }
  }

  /** Numbers are written without leading zeros. */
  lemma {:induction false} NoLeadingZero(n: nat)
    ensures Decimal(n)[0] == '0' <==> n == 0
  {
    if n >= 10 {
      NoLeadingZero(n / 10);
    }
  }

  // ---------------------------------------------------------------------------------------------
  // Signed numbers

  lemma {:induction false} NumberWithoutSign(s: string, d: string)
    requires d != [] && AllDigits(d) && Digits(s) == d && IsDigit(s[0])
    ensures Stoi(s) == Some(Value(d))
  {
  }

  lemma {:induction false} NumberWithSign(s: string, d: string)
    requires d != [] && AllDigits(d) && s != [] && (s[0] == '+' || s[0] == '-') && Digits(s[1..]) == d
    ensures var v: int := Value(d); Stoi(s) == Some(if s[0] == '-' then -v else v)
  {
  }

  /** A number may have a sign in front and anything but a digit behind it. */
  lemma {:induction false} SignedNumber(n: int, rest: string)
    requires n >= 0 && (rest == [] || !('0' <= rest[0] <= '9'))
    ensures Stoi(Decimal(n) + rest) == Some(n)
    ensures Stoi("+" + (Decimal(n) + rest)) == Some(n)
    ensures Stoi("-" + (Decimal(n) + rest)) == Some(-n)
  {
    var d := Decimal(n);
    DigitsBefore(d, rest);
    ValueOfDecimal(n);
    assert IsDigit(d[0]) && (d + rest)[0] == d[0];
    NumberWithoutSign(d + rest, d);
    assert ("+" + (d + rest))[1..] == d + rest && ("-" + (d + rest))[1..] == d + rest;
    NumberWithSign("+" + (d + rest), d);
    NumberWithSign("-" + (d + rest), d);
  }

  lemma {:induction false} SpaceBeforeNumber(c: char, s: string)
    requires White(c)
    ensures Stoi([c] + s) == Stoi(s)
  {
    assert ([c] + s)[1..] == s;
  }

  predicate NoDigit(s: string) {
    s == [] || !('0' <= s[0] <= '9')
  }

  /** Without a digit behind the sign, or in its place, there is no number. */
  lemma {:induction false} NotANumberAtAll(s: string)
    requires s == [] || !White(s[0])
    requires NoDigit(if s != [] && (s[0] == '+' || s[0] == '-') then s[1..] else s)
    ensures Stoi(s) == None
  {
  }

  // ---------------------------------------------------------------------------------------------
  // One line

  /** The words before place i are the numbers d. */
  predicate AreNumbers(tokens: seq<string>, d: seq<int>) {
    |d| <= |tokens| && forall k :: 0 <= k < |d| ==> Stoi(tokens[k]) == Some(d[k])
  }

  lemma {:induction false} NumbersBehind(tokens: seq<string>, d: seq<int>)
    requires AreNumbers(tokens, d) && d != []
    ensures AreNumbers(tokens[1..], d[1..])
  {
  }

  /** The edges of a line: from its vertex to every number on it, less one. */
  function LineEdges(line: nat, d: seq<int>): seq<Edge> {
    seq(|d|, k requires 0 <= k < |d| => Edge(line, d[k] - 1))
  }

  /** Reading goes on behind the words that are numbers, as long as the buffer has room. */
  lemma {:induction false} NumbersAreRead(tokens: seq<string>, d: seq<int>, line: nat, nE: nat, read: seq<Edge>)
    requires AreNumbers(tokens, d) && |read| + |d| <= nE
    ensures ReadTokens(tokens, line, nE, read) == ReadTokens(tokens[|d|..], line, nE, read + LineEdges(line, d))
  {
    if d == [] {
      assert tokens[0..] == tokens && read + LineEdges(line, d) == read;
    } else {
      NumbersBehind(tokens, d);
      var next := read + [Edge(line, d[0] - 1)];
      NumbersAreRead(tokens[1..], d[1..], line, nE, next);
      assert tokens[1..][|d| - 1..] == tokens[|d|..];
      assert next + LineEdges(line, d[1..]) == read + LineEdges(line, d);
    }
  }

  /**
   * What becomes of a line, in all cases: if its first words are the numbers d and either the line ends there, or the
   * next word is no number, or it is one but the buffer is full.
   */
  lemma {:induction false} LineMeans(tokens: seq<string>, d: seq<int>, line: nat, nE: nat, read: seq<Edge>)
    requires AreNumbers(tokens, d) && |read| + |d| <= nE
    ensures |tokens| == |d| ==> ReadTokens(tokens, line, nE, read) == Ok(read + LineEdges(line, d))
    ensures |tokens| > |d| && Stoi(tokens[|d|]).None? ==> ReadTokens(tokens, line, nE, read) == Err(NotANumber)
    ensures |tokens| > |d| && Stoi(tokens[|d|]).Some? && |read| + |d| == nE ==>
      ReadTokens(tokens, line, nE, read) == Err(TooManyEdges)
  {
    NumbersAreRead(tokens, d, line, nE, read);
  }

  /** Lines that the text does not have name no edges. */
  lemma {:induction false} MissingLinesAreEmpty(line: nat, h: Header, read: seq<Edge>)
    requires |read| <= h.nE
    ensures ReadLines([], line, h, read) == Ok(read)
    decreases h.nV - line
  {
    if line < h.nV {
      MissingLinesAreEmpty(line + 1, h, read);
    }
  }
}
