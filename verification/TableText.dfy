/** Rows of twelve columns separated by commas, as text and read back. */
module TableText {
  import opened Text
  import opened Attributes

  const WIDTH: nat := 12

  type Row = r: seq<string> | |r| == WIDTH witness ["", "", "", "", "", "", "", "", "", "", "", ""]

  function Quoted(v: string): string {
    "\"" + (v + "\"")
  }

  /** Five columns are always quoted, the threshold count never, the others unless they are empty. */
  function Cell(i: nat, v: string): string {
    if i < 5 then Quoted(v)
    else if i == 9 then v
    else if v == "" then ""
    else Quoted(v)
  }

  function Separator(i: nat): char {
    if i == WIDTH - 1 then '\n' else ','
  }

  /** The first n cells of a row, each with its separator. */
  function Cells(row: Row, n: nat): string
    requires n <= WIDTH
    decreases n, row
  {
    if n == 0 then "" else Cells(row, n - 1) + (Cell(n - 1, row[n - 1]) + [Separator(n - 1)])
  }

  function RowText(row: Row): string {
    Cells(row, WIDTH)
  }

  function TextOfRows(rows: seq<Row>): string {
    if rows == [] then "" else RowText(rows[0]) + TextOfRows(rows[1..])
  }

  // ----- a reader -----

  datatype CellRead = CellRead(value: string, sep: char, rest: string) | BadCell
  datatype RowRead = RowRead(cells: seq<string>, rest: string) | BadRow
  datatype TableRead = Table(rows: seq<seq<string>>) | BadTable

  predicate Ends(c: char) {
    c == ',' || c == '\n'
  }

  /** The length of an unquoted cell. */
  function Bare(s: string): (n: nat)
    ensures n <= |s| && (forall i | 0 <= i < n :: !Ends(s[i])) && (n < |s| ==> Ends(s[n]))
  {
    if s == "" || Ends(s[0]) then 0 else 1 + Bare(s[1..])
  }

  /** A cell, in quotes or not, and the separator behind it. */
  function ReadCell(s: string): (c: CellRead)
    ensures c.CellRead? ==> |c.rest| < |s|
  {
    if s != "" && s[0] == '"' then
      var q := Find(s[1..], "\"");
      if q < 0 || |s| <= q + 2 || !Ends(s[q + 2]) then BadCell
      else CellRead(s[1..q + 1], s[q + 2], s[q + 3..])
    else
      var n := Bare(s);
      if n == |s| then BadCell else CellRead(s[..n], s[n], s[n + 1..])
  }

  /** Columns i to the last: commas between them and a line end behind them. */
  function ReadRow(s: string, i: nat): (r: RowRead)
    requires i < WIDTH
    ensures r.RowRead? ==> |r.rest| < |s|
    decreases |s|
  {
    var c := ReadCell(s);
    if c.BadCell? || c.sep != Separator(i) then BadRow
    else if i == WIDTH - 1 then RowRead([c.value], c.rest)
    else
      var r := ReadRow(c.rest, i + 1);
      if r.BadRow? then BadRow else RowRead([c.value] + r.cells, r.rest)
  }

  function ReadTable(s: string): TableRead
    decreases |s|
  {
    if s == "" then Table([])
    else
      var r := ReadRow(s, 0);
      if r.BadRow? then BadTable
      else
        var t := ReadTable(r.rest);
        if t.BadTable? then BadTable else Table([r.cells] + t.rows)
  }

  // ----- reading back what was written -----

  /** No quote and no line end, and no comma in the column written without quotes. */
  ghost predicate Readable(row: Row) {
    && (forall i, j | 0 <= i < WIDTH && 0 <= j < |row[i]| :: row[i][j] != '"' && row[i][j] != '\n')
    && forall j | 0 <= j < |row[9]| :: row[9][j] != ','
  }

  lemma QuotedBack(v: string, sep: char, rest: string)
    requires (forall j | 0 <= j < |v| :: v[j] != '"') && Ends(sep)
    ensures ReadCell(Quoted(v) + ([sep] + rest)) == CellRead(v, sep, rest)
  {
    var tail := "\"" + ([sep] + rest);
    var s := Quoted(v) + ([sep] + rest);
    assert s[0] == '"' && s[1..] == v + tail;
    ValueEnds(v, tail);
    assert s[1..|v| + 1] == v && s[|v| + 2] == sep && s[|v| + 3..] == rest;
  }

  lemma {:induction false} BareEnds(v: string, u: string)
    requires u != "" && Ends(u[0]) && forall j | 0 <= j < |v| :: !Ends(v[j])
    ensures Bare(v + u) == |v|
  {
    if v == "" {
      assert v + u == u;
    } else {
      assert (v + u)[0] == v[0] && (v + u)[1..] == v[1..] + u;
      BareEnds(v[1..], u);
    }
  }

  lemma BareBack(v: string, sep: char, rest: string)
    requires (forall j | 0 <= j < |v| :: v[j] != '"' && !Ends(v[j])) && Ends(sep)
    ensures ReadCell(v + ([sep] + rest)) == CellRead(v, sep, rest)
  {
    var u := [sep] + rest;
    var s := v + u;
    BareEnds(v, u);
    assert s[0] == if v == "" then sep else v[0];
    assert s[..|v|] == v && s[|v|] == sep && s[|v| + 1..] == rest;
  }

  lemma CellBack(row: Row, i: nat, rest: string)
    requires Readable(row) && i < WIDTH
    ensures ReadCell(Cell(i, row[i]) + ([Separator(i)] + rest)) == CellRead(row[i], Separator(i), rest)
  {
    if i == 9 || (i >= 5 && row[i] == "") {
      BareBack(row[i], Separator(i), rest);
    } else {
      QuotedBack(row[i], Separator(i), rest);
    }
  }

  /** Columns i to the last, from the front. */
  function CellsFrom(row: Row, i: nat): string
    requires i <= WIDTH
    decreases WIDTH - i, row
  {
    if i == WIDTH then "" else Cell(i, row[i]) + ([Separator(i)] + CellsFrom(row, i + 1))
  }

  lemma {:induction false} BothWays(row: Row, i: nat)
    requires i <= WIDTH
    ensures Cells(row, i) + CellsFrom(row, i) == RowText(row)
    decreases WIDTH - i
  {
    if i == WIDTH {
      assert Cells(row, i) + "" == Cells(row, i);
    } else {
      BothWays(row, i + 1);
      Regroup(Cells(row, i), Cell(i, row[i]), [Separator(i)], CellsFrom(row, i + 1));
    }
  }

  lemma Regroup(a: string, b: string, c: string, d: string)
    ensures (a + (b + c)) + d == a + (b + (c + d))
  {
  }

  lemma CellsStep(row: Row, i: nat, rest: string)
    requires i < WIDTH
    ensures CellsFrom(row, i) + rest == Cell(i, row[i]) + ([Separator(i)] + (CellsFrom(row, i + 1) + rest))
  {
    hide Cell, Separator;
    Regroup("", Cell(i, row[i]), [Separator(i)] + CellsFrom(row, i + 1), rest);
    Regroup("", [Separator(i)], CellsFrom(row, i + 1), rest);
  }

  lemma ReadsOn(s: string, i: nat, v: string, tail: string, cells: seq<string>, rest: string)
    requires i < WIDTH - 1 && ReadCell(s) == CellRead(v, Separator(i), tail)
    requires ReadRow(tail, i + 1) == RowRead(cells, rest)
    ensures ReadRow(s, i) == RowRead([v] + cells, rest)
  {
    hide ReadCell, Separator;
  }

  lemma ReadsLast(s: string, v: string, rest: string)
    requires ReadCell(s) == CellRead(v, Separator(WIDTH - 1), rest)
    ensures ReadRow(s, WIDTH - 1) == RowRead([v], rest)
  {
    hide ReadCell, Separator;
  }

  lemma RowTail(row: Row, i: nat)
    requires i < WIDTH
    ensures row[i..] == [row[i]] + row[i + 1..]
  {
  }

  lemma CellsEnd(row: Row, rest: string)
    ensures CellsFrom(row, WIDTH) + rest == rest
  {
  }

  lemma {:induction false} RowBack(row: Row, i: nat, rest: string)
    requires Readable(row) && i < WIDTH
    ensures ReadRow(CellsFrom(row, i) + rest, i) == RowRead(row[i..], rest)
    decreases WIDTH - i
  {
    hide *;
    RowTail(row, i);
    CellsStep(row, i, rest);
    if i < WIDTH - 1 {
      CellBack(row, i, CellsFrom(row, i + 1) + rest);
      RowBack(row, i + 1, rest);
      ReadsOn(CellsFrom(row, i) + rest, i, row[i], CellsFrom(row, i + 1) + rest, row[i + 1..], rest);
    } else {
      CellsEnd(row, rest);
      CellBack(row, i, rest);
      ReadsLast(CellsFrom(row, i) + rest, row[i], rest);
      assert row[WIDTH..] == [];
    }
  }

  lemma FirstRow(row: Row, rest: string)
    requires Readable(row)
    ensures ReadRow(RowText(row) + rest, 0) == RowRead(row, rest) && RowText(row) != ""
  {
    BothWays(row, 0);
    assert "" + CellsFrom(row, 0) == CellsFrom(row, 0);
    RowBack(row, 0, rest);
    assert row[0..] == row;
  }

  /** Reading a table back yields its rows. */
  lemma {:induction false} TableRoundTrip(rows: seq<Row>)
    requires forall i | 0 <= i < |rows| :: Readable(rows[i])
    ensures ReadTable(TextOfRows(rows)) == Table(rows)
  {
    if rows != [] {
      var row, rest := rows[0], TextOfRows(rows[1..]);
      FirstRow(row, rest);
      TableRoundTrip(rows[1..]);
      assert rows == [row] + rows[1..];
    }
  }
}
