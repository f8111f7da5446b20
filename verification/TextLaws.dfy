/**
  What printed text looks like: every line starts at the left edge and goes on in the
  next row when a row is full, whatever was printed before.
*/
module TextLaws {
  import opened Bytes
  import opened Console
  import opened LineDisplay

  /** A line cut into rows; one that ends at the right edge is followed by an empty row. */
  function WrappedRows(s: seq<byte>, cols: nat): (rows: seq<Row>)
    requires 1 <= cols <= MAX_COLUMNS
    ensures |rows| > 0
  {
    if |s| < cols then [RowOf(s)] else [RowOf(s[..cols])] + WrappedRows(s[cols..], cols)
  }

  /** What stands in the last of these rows. */
  function LastPart(s: seq<byte>, cols: nat): (r: seq<byte>)
    requires 1 <= cols
    ensures |r| < cols
  {
    if |s| < cols then s else LastPart(s[cols..], cols)
  }

  function Above(t: Text): seq<Row>
    requires |t.rows| > 0
  {
    t.rows[..|t.rows| - 1]
  }

  lemma ShowingRows(t: Text, s: seq<byte>)
    requires |t.rows| > 0 && |s| <= MAX_COLUMNS
    ensures Showing(t, s) == Text(Above(t) + [RowOf(s)], |s|)
  {
  }

  /** A full row: the cursor moves on to an empty one. */
  lemma FullRow(t: Text, s: seq<byte>, cols: nat)
    requires |t.rows| > 0 && 1 <= cols <= MAX_COLUMNS && |s| == cols && AllPrinting(s)
    ensures ApplyAll(Showing(t, []), Chars(s), cols) == Text(Above(t) + [RowOf(s)] + [BlankRow()], 0)
  {
    var front, c := s[..cols - 1], s[cols - 1];
    assert Chars(s)[..cols - 1] == Chars(front);
    TypeAll(t, front, cols);
    ShowingRows(t, front);
    assert RowOf(front)[cols - 1 := c] == RowOf(s);
    var before := Showing(t, front);
    assert SetCell(before, cols - 1, c) == Above(t) + [RowOf(s)];
  }

  function AfterRow(t: Text, row: Row): (next: Text)
    requires |t.rows| > 0
    ensures |next.rows| > 0
  {
    Text(Above(t) + [row] + [BlankRow()], 0)
  }

  lemma RowsJoin(t: Text, row: Row, rows: seq<Row>)
    requires |t.rows| > 0
    ensures Above(AfterRow(t, row)) + rows == Above(t) + ([row] + rows)
  {
  }

  lemma CharsSplit(s: seq<byte>, n: nat)
    requires n <= |s|
    ensures Chars(s) == Chars(s[..n]) + Chars(s[n..])
  {
  }

  lemma WrapStep(t: Text, s: seq<byte>, cols: nat)
    requires |t.rows| > 0 && 1 <= cols <= MAX_COLUMNS && cols <= |s| && AllPrinting(s)
    ensures ApplyAll(Showing(t, []), Chars(s), cols)
         == ApplyAll(Showing(AfterRow(t, RowOf(s[..cols])), []), Chars(s[cols..]), cols)
  {
    CharsSplit(s, cols);
    ApplyAppend(Showing(t, []), Chars(s[..cols]), Chars(s[cols..]), cols);
    FullRow(t, s[..cols], cols);
    EmptyRow(AfterRow(t, RowOf(s[..cols])));
  }

  /** Printing a line without control characters on an empty row. */
  lemma {:induction false} TypeWrapped(t: Text, s: seq<byte>, cols: nat)
    requires |t.rows| > 0 && 1 <= cols <= MAX_COLUMNS && AllPrinting(s)
    ensures ApplyAll(Showing(t, []), Chars(s), cols) == Text(Above(t) + WrappedRows(s, cols), |LastPart(s, cols)|)
    decreases |s|
  {
    if |s| < cols {
      TypeAll(t, s, cols);
      ShowingRows(t, s);
    } else {
      WrapStep(t, s, cols);
      TypeWrapped(AfterRow(t, RowOf(s[..cols])), s[cols..], cols);
      RowsJoin(t, RowOf(s[..cols]), WrappedRows(s[cols..], cols));
    }
  }

  lemma EmptyRow(t: Text)
    requires |t.rows| > 0 && t.rows[|t.rows| - 1] == BlankRow() && t.x == 0
    ensures Showing(t, []) == t
  {
    assert RowOf([]) == BlankRow();
  }

  // ---------------------------------------------------------------- several lines

  /** Lines with a line feed between them. */
  function LineOps(lines: seq<seq<byte>>): seq<Op>
    requires lines != []
  {
    if |lines| == 1 then Chars(lines[0]) else Chars(lines[0]) + ([Char(10)] + LineOps(lines[1..]))
  }

  function LineRows(lines: seq<seq<byte>>, cols: nat): seq<Row>
    requires 1 <= cols <= MAX_COLUMNS
  {
    if lines == [] then [] else WrappedRows(lines[0], cols) + LineRows(lines[1..], cols)
  }

  lemma LineFeed(t: Text, cols: nat)
    requires GoodText(t, cols)
    ensures ApplyAll(t, [Char(10)], cols) == Text(t.rows + [BlankRow()], 0)
  {
    assert [Char(10)][..0] == [] && ApplyAll(t, [], cols) == t;
  }

  function AfterLine(t: Text, line: seq<byte>, cols: nat): (next: Text)
    requires |t.rows| > 0 && 1 <= cols <= MAX_COLUMNS
    ensures |next.rows| > 0
  {
    Text(Above(t) + WrappedRows(line, cols) + [BlankRow()], 0)
  }

  lemma {:induction false} LinesJoin(t: Text, line: seq<byte>, cols: nat, rows: seq<Row>)
    requires |t.rows| > 0 && 1 <= cols <= MAX_COLUMNS
    ensures Above(AfterLine(t, line, cols)) + rows == Above(t) + (WrappedRows(line, cols) + rows)
  {
  }

  lemma {:induction false} LineStep(t: Text, line: seq<byte>, ops: seq<Op>, cols: nat)
    requires |t.rows| > 0 && 1 <= cols <= MAX_COLUMNS && AllPrinting(line)
    ensures ApplyAll(Showing(t, []), Chars(line) + ([Char(10)] + ops), cols)
         == ApplyAll(Showing(AfterLine(t, line, cols), []), ops, cols)
  {
    var typed := Text(Above(t) + WrappedRows(line, cols), |LastPart(line, cols)|);
    TypeWrapped(t, line, cols);
    ApplyAppend(Showing(t, []), Chars(line), [Char(10)] + ops, cols);
    ApplyAppend(typed, [Char(10)], ops, cols);
    LineFeed(typed, cols);
    EmptyRow(AfterLine(t, line, cols));
  }

  ghost predicate Prints(t: Text, ops: seq<Op>, cols: nat, rows: seq<Row>, column: nat)
    requires |t.rows| > 0 && 1 <= cols <= MAX_COLUMNS
  {
    ApplyAll(Showing(t, []), ops, cols) == Text(Above(t) + rows, column)
  }

  lemma {:induction false} PrintsMore(t: Text, line: seq<byte>, ops: seq<Op>, cols: nat, rows: seq<Row>, column: nat)
    requires |t.rows| > 0 && 1 <= cols <= MAX_COLUMNS && AllPrinting(line)
    requires Prints(AfterLine(t, line, cols), ops, cols, rows, column)
    ensures Prints(t, Chars(line) + ([Char(10)] + ops), cols, WrappedRows(line, cols) + rows, column)
  {
    LineStep(t, line, ops, cols);
    LinesJoin(t, line, cols, rows);
  }

  /** Printing lines on an empty row: each from the left edge and wrapped, the cursor after the last. */
  lemma {:induction false} PrintLines(t: Text, lines: seq<seq<byte>>, cols: nat)
    requires |t.rows| > 0 && 1 <= cols <= MAX_COLUMNS && lines != []
    requires forall i :: 0 <= i < |lines| ==> AllPrinting(lines[i])
    ensures Prints(t, LineOps(lines), cols, LineRows(lines, cols), |LastPart(lines[|lines| - 1], cols)|)
    decreases |lines|
  {
    var line, rest := lines[0], lines[1..];
    if rest == [] {
      TypeWrapped(t, line, cols);
      assert WrappedRows(line, cols) + LineRows(rest, cols) == WrappedRows(line, cols);
    } else {
      PrintLines(AfterLine(t, line, cols), rest, cols);
      PrintsMore(t, line, LineOps(rest), cols, LineRows(rest, cols), |LastPart(lines[|lines| - 1], cols)|);
    }
  }
}
