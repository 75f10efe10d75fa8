/**
 * The DIMACS10 writer and reader (xlib/src/Graph/GraphStd.cpp, lines 439-456; xlib/src/Graph/GraphBase.cpp,
 * lines 267-292; xlib/src/Graph/GraphStdRead.cpp, lines 156-177): what is written is read back.
 */
module Dimacs {
  import opened DimacsText
  import opened EdgeList
  import opened MatrixLayout
  import opened Wrappers

  datatype Direction = Directed | Undirected

  datatype Error = Malformed | Weighted | TooManyEdges | NotANumber

  datatype Result<T> = Ok(value: T) | Err(error: Error)

  datatype Header = Header(nV: nat, nE: nat, direction: Direction)

  datatype Graph = Graph(header: Header, edges: seq<Edge>)

  // ---------------------------------------------------------------------------------------------
  // The written text

  /** One line: the neighbours, counted from one, with single blanks between them. */
  function RowText(row: seq<int>): string
    requires forall k :: 0 <= k < |row| ==> 0 <= row[k]
  {
    if row == [] then ""
    else Decimal(row[0] + 1) + if |row| == 1 then "" else " " + RowText(row[1..])
  }

  /** The lines from vertex v on. */
  function RowsText(off: seq<nat>, cols: seq<int>, numCols: nat, v: nat): string
    requires WellFormed(off, cols, numCols) && v < |off|
    decreases |off| - v
  {
    if v == |off| - 1 then "" else RowText(Slice(off, cols, v)) + "\n" + RowsText(off, cols, numCols, v + 1)
  }

  function Written(off: seq<nat>, cols: seq<int>, numCols: nat): string
    requires WellFormed(off, cols, numCols)
  {
    Decimal(|off| - 1) + " " + Decimal(|cols|) + " 100\n" + RowsText(off, cols, numCols, 0)
  }

  /** The text of place i of a row: one number, and a blank unless it is the last. */
  function Piece(row: seq<int>, i: nat): string
    requires i < |row| && 0 <= row[i]
  {
    Decimal(row[i] + 1) + if i < |row| - 1 then " " else ""
  }

  /** The text of a row from place i on. */
  function RowRest(row: seq<int>, i: nat): string
    requires i <= |row| && forall k :: 0 <= k < |row| ==> 0 <= row[k]
  {
    RowText(row[i..])
  }

  lemma {:induction false} RowRestSteps(row: seq<int>, i: nat)
    requires i < |row| && forall k :: 0 <= k < |row| ==> 0 <= row[k]
    ensures RowRest(row, i) == Piece(row, i) + RowRest(row, i + 1)
  {
    assert row[i..][1..] == row[i + 1..];
  }

  /** The number, and the blank behind it. */
  method WritePiece(value: int, last: bool, fout: string) returns (r: string)
    requires value >= 0
    ensures r == fout + (Decimal(value + 1) + if last then "" else " ")
  {
    r := fout + Decimal(value + 1);
    if !last {
      r := r + " ";
    }
  }

  lemma {:induction false} Associate(a: string, b: string, c: string)
    ensures (a + b) + c == a + (b + c)
  {
  }

  /** One row, from position `begin` to position `end` of the edge array. */
  method WriteRow(outEdges: array<int>, begin: nat, end: nat, fout: string) returns (r: string)
    requires begin <= end <= outEdges.Length && forall k :: begin <= k < end ==> 0 <= outEdges[k]
    ensures r == fout + RowText(outEdges[begin..end])
  {
    r := fout;
    ghost var row := outEdges[begin..end];
    ghost var i := 0;
    assert row[0..] == row;
    for j := begin to end
      invariant i == j - begin
      invariant r + RowRest(row, i) == fout + RowText(row)
    {
      RowRestSteps(row, i);
      Associate(r, Piece(row, i), RowRest(row, i + 1));
      r := WritePiece(outEdges[j], j == end - 1, r);
      i := i + 1;
    }
    assert r + [] == r;
  }

  method WriteDimacs10(nV: nat, nE: nat, outOffsets: array<nat>, outEdges: array<int>) returns (fout: string)
    requires outOffsets.Length == nV + 1 && nE <= outEdges.Length && WellFormed(outOffsets[..], outEdges[..nE], nV)
    ensures fout == Written(outOffsets[..], outEdges[..nE], nV)
  {
    ghost var off, cols := outOffsets[..], outEdges[..nE];
    fout := Decimal(nV) + " " + Decimal(nE) + " 100\n";
    for i := 0 to nV
      invariant fout + RowsText(off, cols, nV, i) == Written(off, cols, nV)
    {
      SliceIsNatural(off, cols, nV, i);
      ghost var row, rest := Slice(off, cols, i), RowsText(off, cols, nV, i + 1);
      assert outEdges[outOffsets[i]..outOffsets[i + 1]] == row;
      forall k | outOffsets[i] <= k < outOffsets[i + 1] ensures 0 <= outEdges[k] {
        assert cols[k] == outEdges[k];
      }
      ghost var before := fout;
      fout := WriteRow(outEdges, outOffsets[i], outOffsets[i + 1], fout);
      fout := fout + "\n";
      assert fout + rest == before + (RowText(row) + "\n" + rest);
    }
  }

  // ---------------------------------------------------------------------------------------------
  // What the reader makes of a text

  function SkipComments(s: string): string
    decreases |s|
  {
    if s != [] && s[0] == '%' then SkipComments(AfterLine(s)) else s
  }

  /** The header and the text behind it. Without a third word the line end stays in the stream. */
  function ReadHeader(s: string): Result<(Header, string)> {
    var first := Number(SkipComments(s));
    if first.None? then Err(Malformed) else
    var second := Number(first.value.1);
    if second.None? then Err(Malformed) else
    var nV, nE, rest := first.value.0, second.value.0, second.value.1;
    if rest != [] && rest[0] == '\n' then Ok((Header(nV, 2 * nE, Undirected), rest))
    else
      var t := SkipSpace(rest);
      var flag := Word(t);
      if flag == "1" then Err(Weighted)
      else
        Ok((Header(nV, if flag == "0" then 2 * nE else nE,
                   if flag == "100" || flag == "0" then Directed else Undirected),
            AfterLine(t[|flag|..])))
  }

  /** The edges that the words of one line add to those read before. */
  function ReadTokens(tokens: seq<string>, line: nat, nE: nat, read: seq<Edge>): (r: Result<seq<Edge>>)
    requires |read| <= nE
    ensures r.Ok? ==> read <= r.value && |r.value| <= nE
  {
    if tokens == [] then Ok(read)
    else
      var dest := Stoi(tokens[0]);
      if dest.None? then Err(NotANumber)
      else if |read| >= nE then Err(TooManyEdges)
      else ReadTokens(tokens[1..], line, nE, read + [Edge(line, dest.value - 1)])
  }

  /** One line for every vertex, from vertex `line` on. */
  function ReadLines(s: string, line: nat, h: Header, read: seq<Edge>): (r: Result<seq<Edge>>)
    requires |read| <= h.nE
    ensures r.Ok? ==> |r.value| <= h.nE
    decreases h.nV - line
  {
    if line >= h.nV then Ok(read)
    else
      var r := ReadTokens(Tokens(Line(s)), line, h.nE, read);
      if r.Err? then r else ReadLines(AfterLine(s), line + 1, h, r.value)
  }

  /** The buffer is filled from the front; pairs that are not read stay zero. */
  function Padded(read: seq<Edge>, nE: nat): (r: seq<Edge>)
    requires |read| <= nE
    ensures |r| == nE && read <= r
  {
    read + seq(nE - |read|, _ => Edge(0, 0))
  }

  function Parse(s: string): Result<Graph> {
    var h := ReadHeader(s);
    if h.Err? then Err(h.error)
    else
      var edges := ReadLines(h.value.1, 0, h.value.0, []);
      if edges.Err? then Err(edges.error) else Ok(Graph(h.value.0, Padded(edges.value, h.value.0.nE)))
  }

  /** The two counts that a header begins with, and the text behind them. */
  function Announced(s: string): Option<(nat, nat, string)> {
    match Number(SkipComments(s))
    case None => None
    case Some(v) =>
      match Number(v.1)
      case None => None
      case Some(e) => Some((v.0, e.0, e.1))
  }

  predicate EndsLine(rest: string) {
    rest != [] && rest[0] == '\n'
  }

  /**
   * The header, flag by flag: no third word means undirected, twice the announced edges, and an unread line end;
   * "100" directed; "0" directed, twice the edges; "1" an error; any other word undirected.
   */
  method GetDimacs10Header(s: string) returns (r: Result<(Header, string)>)
    ensures r == ReadHeader(s)
    ensures Announced(s).None? ==> r == Err(Malformed)
    ensures Announced(s).Some? ==>
      var (nV, nE, rest) := Announced(s).value;
      var flag := Word(SkipSpace(rest));
      if EndsLine(rest) then r == Ok((Header(nV, 2 * nE, Undirected), rest))
      else if flag == "1" then r == Err(Weighted)
      else
        && r.Ok? && r.value.0.nV == nV && r.value.0.nE == (if flag == "0" then 2 * nE else nE)
        && (r.value.0.direction == Directed <==> flag == "100" || flag == "0")
        && r.value.1 == AfterLine(SkipSpace(rest)[|flag|..])
  {
    var fin := s;
    while fin != [] && fin[0] == '%'
      invariant SkipComments(fin) == SkipComments(s)
      decreases |fin|
    {
      fin := AfterLine(fin);
    }
    var vertices := Number(fin);
    if vertices.None? {
      return Err(Malformed);
    }
    var edges := Number(vertices.value.1);
    if edges.None? {
      return Err(Malformed);
    }
    fin := edges.value.1;
    var nE := edges.value.0;
    var direction;
    if fin != [] && fin[0] == '\n' {
      direction := Undirected;
      nE := nE * 2;
    } else {
      fin := SkipSpace(fin);
      var flag := Word(fin);
      fin := fin[|flag|..];
      direction := if flag == "100" || flag == "0" then Directed else Undirected;
      if flag == "0" {
        nE := nE * 2;
      } else if flag == "1" {
        return Err(Weighted);
      }
      fin := AfterLine(fin);
    }
    r := Ok((Header(vertices.value.0, nE, direction), fin));
  }

  /** What the reader has put into the buffer so far. */
  ghost predicate Holds(cooEdges: array<Edge>, read: seq<Edge>)
    reads cooEdges
  {
    |read| <= cooEdges.Length && cooEdges[..] == Padded(read, cooEdges.Length)
  }

  method Put(cooEdges: array<Edge>, count: nat, e: Edge, ghost read: seq<Edge>)
    requires Holds(cooEdges, read) && count == |read| < cooEdges.Length
    modifies cooEdges
    ensures Holds(cooEdges, read + [e])
  {
    ghost var before := cooEdges[..];
    cooEdges[count] := e;
    assert cooEdges[..] == before[|read| := e];
    assert before[|read| := e] == Padded(read + [e], cooEdges.Length);
  }

  /** The words of one line, as strtok hands them out. */
  method ReadLine(str: string, line: nat, cooEdges: array<Edge>, count: nat, ghost before: seq<Edge>)
    returns (r: Result<nat>, ghost after: seq<Edge>)
    requires Holds(cooEdges, before) && count == |before|
    modifies cooEdges
    ensures match ReadTokens(Tokens(str), line, cooEdges.Length, before)
            case Ok(read) => r == Ok(|read|) && after == read && Holds(cooEdges, read)
            case Err(e) => r == Err(e)
  {
    var countEdges := count;
    after := before;
    var s := SkipBlanks(str);
    while s != []
      invariant s == SkipBlanks(s)
      invariant Holds(cooEdges, after) && countEdges == |after|
      invariant ReadTokens(Tokens(str), line, cooEdges.Length, before)
             == ReadTokens(Tokens(s), line, cooEdges.Length, after)
      decreases |s|
    {
      var token := UntilBlank(s);
      var dest := Stoi(token);
      assert Tokens(s)[1..] == Tokens(s[|token|..]);
      if dest.None? {
        return Err(NotANumber), after;
      }
      if countEdges >= cooEdges.Length {
        return Err(TooManyEdges), after;
      }
      Put(cooEdges, countEdges, Edge(line, dest.value - 1), after);
      after := after + [Edge(line, dest.value - 1)];
      countEdges := countEdges + 1;
      TokensSkipBlanks(s[|token|..]);
      s := SkipBlanks(s[|token|..]);
    }
    r := Ok(countEdges);
  }

  /** The lines behind the header, into a buffer of the announced size. */
  method ReadBody(text: string, ginfo: Header) returns (r: Result<seq<Edge>>)
    ensures match ReadLines(text, 0, ginfo, [])
            case Ok(read) => r == Ok(Padded(read, ginfo.nE))
            case Err(e) => r == Err(e)
  {
    var fin := text;
    var cooEdges := new Edge[ginfo.nE](_ => Edge(0, 0));
    var countEdges := 0;
    ghost var read: seq<Edge> := [];
    for line := 0 to ginfo.nV
      invariant Holds(cooEdges, read) && countEdges == |read|
      invariant ReadLines(text, 0, ginfo, []) == ReadLines(fin, line, ginfo, read)
    {
      var result;
      result, read := ReadLine(Line(fin), line, cooEdges, countEdges, read);
      if result.Err? {
        return Err(result.error);
      }
      countEdges := result.value;
      fin := AfterLine(fin);
    }
    r := Ok(cooEdges[..]);
  }

  method ReadDimacs10(text: string) returns (r: Result<Graph>)
    ensures r == Parse(text)
  {
    var header := GetDimacs10Header(text);
    if header.Err? {
      return Err(header.error);
    }
    var edges := ReadBody(header.value.1, header.value.0);
    r := if edges.Err? then Err(edges.error) else Ok(Graph(header.value.0, edges.value));
  }

  // ---------------------------------------------------------------------------------------------
  // Reading one written line

  lemma {:induction false} SkipBlanksTwice(s: string)
    ensures SkipBlanks(SkipBlanks(s)) == SkipBlanks(s)
  {
    if s != [] && s[0] == ' ' {
      SkipBlanksTwice(s[1..]);
    }
  }

  lemma {:induction false} TokensSkipBlanks(s: string)
    ensures Tokens(SkipBlanks(s)) == Tokens(s) && SkipBlanks(SkipBlanks(s)) == SkipBlanks(s)
  {
    SkipBlanksTwice(s);
  }

  /** The printed neighbours as words. */
  function Words(row: seq<int>): seq<string>
    requires forall k :: 0 <= k < |row| ==> 0 <= row[k]
  {
    seq(|row|, k requires 0 <= k < |row| => Decimal(row[k] + 1))
  }

  lemma {:induction false} WordsOfRow(row: seq<int>)
    requires row != [] && forall k :: 0 <= k < |row| ==> 0 <= row[k]
    ensures Words(row) == [Decimal(row[0] + 1)] + Words(row[1..])
  {
  }

  lemma {:induction false} TokensOfRow(row: seq<int>)
    requires forall k :: 0 <= k < |row| ==> 0 <= row[k]
    ensures Tokens(RowText(row)) == Words(row)
  {
    if row != [] {
      var d := Decimal(row[0] + 1);
      var tail := if |row| == 1 then "" else " " + RowText(row[1..]);
      FirstToken(d, tail);
      TokensOfRow(row[1..]);
      if |row| > 1 {
        assert tail[1..] == RowText(row[1..]);
        assert SkipBlanks(tail) == SkipBlanks(RowText(row[1..]));
        TokensSkipBlanks(tail);
        TokensSkipBlanks(RowText(row[1..]));
      }
      WordsOfRow(row);
    }
  }

  lemma {:induction false} RowTextHasNoLineEnd(row: seq<int>)
    requires forall k :: 0 <= k < |row| ==> 0 <= row[k]
    ensures forall k :: 0 <= k < |RowText(row)| ==> RowText(row)[k] != '\n'
  {
    if row != [] {
      RowTextHasNoLineEnd(row[1..]);
    }
  }

  lemma {:induction false} EntriesOfCons(read: seq<Edge>, line: nat, row: seq<int>)
    requires row != []
    ensures read + [Edge(line, row[0])] + RowEntries(line, row[1..]) == read + RowEntries(line, row)
  {
  }

  lemma {:induction false} WordsAreReadBack(row: seq<int>, line: nat, nE: nat, read: seq<Edge>)
    requires forall k :: 0 <= k < |row| ==> 0 <= row[k]
    requires |read| + |row| <= nE
    ensures ReadTokens(Words(row), line, nE, read) == Ok(read + RowEntries(line, row))
  {
    if row == [] {
      assert read + RowEntries(line, row) == read;
    } else {
      StoiOfDecimal(row[0] + 1);
      var next := read + [Edge(line, row[0])];
      WordsAreReadBack(row[1..], line, nE, next);
      WordsOfRow(row);
      EntriesOfCons(read, line, row);
    }
  }

  lemma {:induction false} SliceIsNatural(off: seq<nat>, cols: seq<int>, numCols: nat, v: nat)
    requires WellFormed(off, cols, numCols) && v < |off| - 1
    ensures off[v] <= off[v + 1] <= |cols|
    ensures forall k :: 0 <= k < |Slice(off, cols, v)| ==> 0 <= Slice(off, cols, v)[k]
  {
    assert off[v + 1] <= off[|off| - 1];
  }

  /** One written line, read as the line of vertex `line`. */
  lemma {:induction false} LineIsReadBack(off: seq<nat>, cols: seq<int>, numCols: nat, v: nat, line: nat, nE: nat,
          read: seq<Edge>)
    requires WellFormed(off, cols, numCols) && v < |off| - 1
    requires off[v] <= off[v + 1] <= |cols| && |read| + off[v + 1] - off[v] <= nE
    ensures var s := RowsText(off, cols, numCols, v);
      && ReadTokens(Tokens(Line(s)), line, nE, read) == Ok(read + RowEntries(line, Slice(off, cols, v)))
      && AfterLine(s) == RowsText(off, cols, numCols, v + 1)
  {
    var row := Slice(off, cols, v);
    SliceIsNatural(off, cols, numCols, v);
    RowTextHasNoLineEnd(row);
    LineBefore(RowText(row), RowsText(off, cols, numCols, v + 1));
    TokensOfRow(row);
    WordsAreReadBack(row, line, nE, read);
  }

  // ---------------------------------------------------------------------------------------------
  // The round trip

  lemma {:induction false} LinesAreReadBack(off: seq<nat>, cols: seq<int>, v: nat, h: Header)
    requires v <= h.nV && |off| == h.nV + 1 && h.nE == |cols| && WellFormed(off, cols, h.nV)
    ensures off[v] <= |cols|
    ensures ReadLines(RowsText(off, cols, h.nV, v), v, h, Entries(off, cols)[..off[v]]) == Ok(Entries(off, cols))
    decreases h.nV - v
  {
    assert off[v] <= off[h.nV];
    if v < h.nV {
      EntriesOfRow(off, cols, h.nV, v);
      LineIsReadBack(off, cols, h.nV, v, v, h.nE, Entries(off, cols)[..off[v]]);
      LinesAreReadBack(off, cols, v + 1, h);
    } else {
      assert Entries(off, cols)[..|cols|] == Entries(off, cols);
    }
  }

  lemma {:induction false} CountsAreReadBack(nV: nat, nE: nat, rest: string)
    requires rest != [] && !IsDigit(rest[0])
    ensures var s := Decimal(nV) + " " + Decimal(nE) + rest;
      && SkipComments(s) == s
      && Number(s) == Some((nV, " " + Decimal(nE) + rest))
      && Number(" " + Decimal(nE) + rest) == Some((nE, rest))
  {
    var s := Decimal(nV) + " " + Decimal(nE) + rest;
    var tail := " " + Decimal(nE) + rest;
    assert s == Decimal(nV) + tail;
    assert IsDigit(s[0]);
    NumberIsReadBack(nV, tail);
    NumberAfterSpace(nE, rest);
  }

  /** The header of a text with a third word. */
  lemma {:induction false} FlaggedHeader(s: string, nV: nat, nE: nat, first: string, rest: string)
    requires SkipComments(s) == s && Number(s) == Some((nV, first)) && Number(first) == Some((nE, rest))
    requires rest != [] && rest[0] != '\n' && Word(SkipSpace(rest)) == "100"
    ensures ReadHeader(s) == Ok((Header(nV, nE, Directed), AfterLine(SkipSpace(rest)[3..])))
  {
  }

  lemma {:induction false} HeaderIsReadBack(nV: nat, nE: nat, rows: string)
    ensures ReadHeader(Decimal(nV) + " " + Decimal(nE) + " 100\n" + rows) == Ok((Header(nV, nE, Directed), rows))
  {
    var t := "100\n" + rows;
    var rest := " " + t;
    var s := Decimal(nV) + " " + Decimal(nE) + rest;
    assert Decimal(nV) + " " + Decimal(nE) + " 100\n" + rows == s;
    CountsAreReadBack(nV, nE, rest);
    FlagIsReadBack(rows);
    assert rest[1..] == t;
    assert SkipSpace(rest) == t;
    FlaggedHeader(s, nV, nE, " " + Decimal(nE) + rest, rest);
  }

  lemma {:induction false} FlagIsReadBack(rows: string)
    ensures Word("100\n" + rows) == "100"
    ensures AfterLine(("100\n" + rows)[3..]) == rows
  {
    var t := "100\n" + rows;
    assert t[1..][1..][1..] == t[3..] == "\n" + rows;
    assert Word(t[3..]) == [];
    assert Word(t[1..][1..]) == "0";
    assert Word(t[1..]) == "00";
    LineBefore([], rows);
    assert [] + ['\n'] + rows == t[3..];
  }

  lemma {:induction false} FullBufferIsNotPadded(read: seq<Edge>)
    ensures Padded(read, |read|) == read
  {
  }

  /** Any well-formed compressed rows, empty rows included, are read back as they were written. */
  lemma {:induction false} WrittenIsReadBack(off: seq<nat>, cols: seq<int>, nV: nat)
    requires |off| == nV + 1 && WellFormed(off, cols, nV)
    ensures Parse(Written(off, cols, nV)) == Ok(Graph(Header(nV, |cols|, Directed), Entries(off, cols)))
  {
    HeaderIsReadBack(nV, |cols|, RowsText(off, cols, nV, 0));
    LinesAreReadBack(off, cols, 0, Header(nV, |cols|, Directed));
    assert Entries(off, cols)[..0] == [];
    FullBufferIsNotPadded(Entries(off, cols));
  }

  // ---------------------------------------------------------------------------------------------
  // Without the third word

  function UndirectedText(off: seq<nat>, cols: seq<int>, nV: nat, lines: nat): string
    requires WellFormed(off, cols, nV)
  {
    Decimal(nV) + " " + Decimal(lines) + "\n" + RowsText(off, cols, nV, 0)
  }

  /** The edges, each moved to the next vertex. */
  function Later(s: seq<Edge>): seq<Edge> {
    seq(|s|, k requires 0 <= k < |s| => Edge(s[k].src + 1, s[k].dst))
  }

  lemma {:induction false} LaterAppends(read: seq<Edge>, v: nat, row: seq<int>)
    ensures Later(read) + RowEntries(v + 1, row) == Later(read + RowEntries(v, row))
  {
  }

  lemma {:induction false} LaterLines(off: seq<nat>, cols: seq<int>, v: nat, h: Header)
    requires v < h.nV && |off| == h.nV + 1 && h.nE == |cols| && WellFormed(off, cols, h.nV)
    ensures off[v] <= off[h.nV - 1] <= |cols|
    ensures ReadLines(RowsText(off, cols, h.nV, v), v + 1, h, Later(Entries(off, cols)[..off[v]]))
         == Ok(Later(Entries(off, cols)[..off[h.nV - 1]]))
    decreases h.nV - v
  {
    assert off[v] <= off[h.nV - 1] <= off[h.nV];
    if v < h.nV - 1 {
      LaterLines(off, cols, v + 1, h);
      LaterStep(off, cols, v, h);
    }
  }

  lemma {:induction false} LaterStep(off: seq<nat>, cols: seq<int>, v: nat, h: Header)
    requires v < h.nV - 1 && |off| == h.nV + 1 && h.nE == |cols| && WellFormed(off, cols, h.nV)
    ensures off[v] <= off[v + 1] <= |cols|
    ensures ReadLines(RowsText(off, cols, h.nV, v), v + 1, h, Later(Entries(off, cols)[..off[v]]))
         == ReadLines(RowsText(off, cols, h.nV, v + 1), v + 2, h, Later(Entries(off, cols)[..off[v + 1]]))
  {
    EntriesOfRow(off, cols, h.nV, v);
    var read, row := Entries(off, cols)[..off[v]], Slice(off, cols, v);
    LineIsReadBack(off, cols, h.nV, v, v + 1, h.nE, Later(read));
    LaterAppends(read, v, row);
  }

  lemma {:induction false} UnflaggedHeader(nV: nat, lines: nat, rows: string)
    ensures ReadHeader(Decimal(nV) + " " + Decimal(lines) + "\n" + rows)
         == Ok((Header(nV, 2 * lines, Undirected), "\n" + rows))
  {
    var rest := "\n" + rows;
    assert Decimal(nV) + " " + Decimal(lines) + "\n" + rows == Decimal(nV) + " " + Decimal(lines) + rest;
    CountsAreReadBack(nV, lines, rest);
  }

  lemma {:induction false} FirstLineIsEmpty(rows: string, h: Header)
    requires h.nV > 0
    ensures ReadLines("\n" + rows, 0, h, []) == ReadLines(rows, 1, h, [])
  {
    LineBefore([], rows);
    assert [] + ['\n'] + rows == "\n" + rows;
    assert Tokens([]) == [];
  }

  /** What an unflagged text leaves of the entries. */
  function LateEntries(off: seq<nat>, cols: seq<int>, nV: nat): seq<Edge>
    requires |off| == nV + 1 && WellFormed(off, cols, nV)
  {
    assert nV > 0 ==> off[nV - 1] <= off[nV];
    if nV == 0 then [] else Later(Entries(off, cols)[..off[nV - 1]])
  }

  lemma {:induction false} UnflaggedLines(off: seq<nat>, cols: seq<int>, h: Header)
    requires |off| == h.nV + 1 && h.nE == |cols| && WellFormed(off, cols, h.nV)
    ensures ReadLines("\n" + RowsText(off, cols, h.nV, 0), 0, h, []) == Ok(LateEntries(off, cols, h.nV))
  {
    if h.nV > 0 {
      assert Entries(off, cols)[..0] == [] && Later([]) == [];
      LaterLines(off, cols, 0, h);
      FirstLineIsEmpty(RowsText(off, cols, h.nV, 0), h);
    }
  }

  /**
   * The end of an unflagged header is read as the line of vertex 0: every list moves to the next vertex, the last
   * one is lost, and the end of the buffer stays zero.  Such a text is read back exactly when it has no edges, or
   * only one vertex.
   */
  lemma {:induction false} UnflaggedTextIsReadOneLineLate(off: seq<nat>, cols: seq<int>, nV: nat, lines: nat)
    requires |off| == nV + 1 && WellFormed(off, cols, nV) && |cols| == 2 * lines
    ensures |LateEntries(off, cols, nV)| <= 2 * lines
    ensures Parse(UndirectedText(off, cols, nV, lines))
         == Ok(Graph(Header(nV, 2 * lines, Undirected), Padded(LateEntries(off, cols, nV), 2 * lines)))
    ensures Padded(LateEntries(off, cols, nV), 2 * lines) == Entries(off, cols) <==> cols == [] || nV == 1
  {
    UnflaggedHeader(nV, lines, RowsText(off, cols, nV, 0));
    UnflaggedLines(off, cols, Header(nV, 2 * lines, Undirected));
    LateEntriesDiffer(off, cols, nV);
  }

  lemma {:induction false} LateEntriesDiffer(off: seq<nat>, cols: seq<int>, nV: nat)
    requires |off| == nV + 1 && WellFormed(off, cols, nV)
    ensures |LateEntries(off, cols, nV)| <= |cols|
    ensures Padded(LateEntries(off, cols, nV), |cols|) == Entries(off, cols) <==> cols == [] || nV == 1
  {
    if nV == 1 {
      OneVertexIsZeros(off, cols);
    } else if cols != [] {
      FirstEntryDiffers(off, cols, nV);
    }
  }

  /** With one vertex every entry is a self loop of vertex 0, which is what the untouched buffer holds. */
  lemma {:induction false} OneVertexIsZeros(off: seq<nat>, cols: seq<int>)
    requires |off| == 2 && WellFormed(off, cols, 1)
    ensures LateEntries(off, cols, 1) == [] && Padded([], |cols|) == Entries(off, cols)
  {
    forall k | 0 <= k < |cols| ensures Entries(off, cols)[k] == Edge(0, 0) {
      var v := PositionInRow(off, cols, 1, k);
    }
  }

  lemma {:induction false} LaterIsDifferent(all: seq<Edge>, n: nat)
    requires 0 < n <= |all|
    ensures |Later(all[..n])| == n && Later(all[..n])[0] != all[0]
  {
  }

  lemma {:induction false} FirstEntryDiffers(off: seq<nat>, cols: seq<int>, nV: nat)
    requires |off| == nV + 1 && WellFormed(off, cols, nV) && nV > 1 && cols != []
    ensures |LateEntries(off, cols, nV)| <= |cols|
    ensures Padded(LateEntries(off, cols, nV), |cols|) != Entries(off, cols)
  {
    assert off[nV - 1] <= off[nV];
    if off[nV - 1] == 0 {
      assert RowOf(off, nV, 0) == nV - 1;
      assert Padded(LateEntries(off, cols, nV), |cols|)[0] == Edge(0, 0);
    } else {
      LaterIsDifferent(Entries(off, cols), off[nV - 1]);
    }
  }
}
