/**
  The framebuffer console: a ring of text rows, a viewport into it and a screen that
  is mostly drawn incrementally.  Pixels are abstracted to one glyph per screen cell.
*/
module Console {
  import opened Bytes

  const SCROLLBACK_ROWS := 512
  const MAX_COLUMNS := 160

  const BLANK: byte := 32
  const BACKSPACE: byte := 8
  const NEWLINE: byte := 10
  const FORM_FEED: byte := 12
  const RETURN: byte := 13

  /** The glyph drawn for a character; codes above 127 are negative as signed chars. */
  function Glyph(c: byte): byte {
    if 32 <= c <= 127 then c else 63
  }

  /** What a full repaint shows for a stored character. */
  function Show(c: byte): byte {
    if c == 0 || c == BLANK then BLANK else Glyph(c)
  }

  // ---------------------------------------------------------------- the text an unbounded terminal would hold

  type Row = r: seq<byte> | |r| == MAX_COLUMNS witness seq(MAX_COLUMNS, _ => 32)

  function BlankRow(): (r: Row)
    ensures forall x :: 0 <= x < MAX_COLUMNS ==> r[x] == BLANK
  {
    seq(MAX_COLUMNS, _ => 32)
  }

  /** All rows ever started since the last clear, and the column of the cursor in the last one. */
  datatype Text = Text(rows: seq<Row>, x: nat)

  predicate GoodText(t: Text, cols: nat) {
    |t.rows| > 0 && t.x < cols <= MAX_COLUMNS
  }

  function Cleared(): Text {
    Text([BlankRow()], 0)
  }

  function StartRow(t: Text): Text {
    Text(t.rows + [BlankRow()], 0)
  }

  function SetCell(t: Text, x: nat, c: byte): (rows: seq<Row>)
    requires |t.rows| > 0 && x < MAX_COLUMNS
    ensures |rows| == |t.rows|
  {
    t.rows[|t.rows| - 1 := t.rows[|t.rows| - 1][x := c]]
  }

  predicate RowStart(t: Text) {
    t.x == 0 && |t.rows| > 1
  }

  /** Erasing at the start of a row drops it and goes on at the end of the one before, blanking its last cell or not. */
  function CrossBack(t: Text, cols: nat, blanked: bool): (r: Text)
    requires GoodText(t, cols) && RowStart(t)
    ensures GoodText(r, cols) && |r.rows| == |t.rows| - 1
  {
    var up := Text(t.rows[..|t.rows| - 1], cols - 1);
    if blanked then Text(SetCell(up, cols - 1, BLANK), cols - 1) else up
  }

  function EraseBack(t: Text, cols: nat): (r: Text)
    requires GoodText(t, cols)
    ensures GoodText(r, cols)
  {
    if t.x > 0 then Text(SetCell(t, t.x - 1, BLANK), t.x - 1)
    else if RowStart(t) then CrossBack(t, cols, true)
    else t
  }

  /** The effect of one character. */
  function Type(t: Text, c: byte, cols: nat): (r: Text)
    requires GoodText(t, cols)
    ensures GoodText(r, cols)
  {
    if c == NEWLINE then StartRow(t)
    else if c == RETURN then t
    else if c == FORM_FEED then Cleared()
    else if c == BACKSPACE then EraseBack(t, cols)
    else
      var written := Text(SetCell(t, t.x, c), t.x + 1);
      if t.x + 1 >= cols then StartRow(written) else written
  }

  // ---------------------------------------------------------------- what a repaint shows

  /** The ring holds the last 512 rows. */
  function OldestRow(last: nat): (oldest: nat)
    ensures oldest <= last && last - oldest + 1 == Min(last + 1, 512)
  {
    if last >= SCROLLBACK_ROWS then last - SCROLLBACK_ROWS + 1 else 0
  }

  function TopRow(bottom: nat, rows: nat): nat
    requires rows >= 1
  {
    if bottom >= rows - 1 then bottom - (rows - 1) else 0
  }

  /** The glyph a repaint puts at a screen cell. */
  function Painted(text: seq<Row>, top: nat, y: nat, x: nat): byte
    requires |text| > 0 && x < MAX_COLUMNS
  {
    if OldestRow(|text| - 1) <= top + y < |text| then Show(text[top + y][x]) else BLANK
  }

  // ---------------------------------------------------------------- the console

  /** One call on the console. */
  datatype Op = Char(c: byte) | Scroll(amount: int) | Bottom | ResetLine

  function Apply(t: Text, op: Op, cols: nat): (r: Text)
    requires GoodText(t, cols)
    ensures GoodText(r, cols)
  {
    match op
    case Char(c) => Type(t, c, cols)
    case ResetLine => Text(t.rows[|t.rows| - 1 := BlankRow()], 0)
    case _ => t
  }

  function ApplyAll(t: Text, ops: seq<Op>, cols: nat): (r: Text)
    requires GoodText(t, cols)
    ensures GoodText(r, cols)
  {
    if ops == [] then t else Apply(ApplyAll(t, ops[..|ops| - 1], cols), ops[|ops| - 1], cols)
  }

  /** Characters are not NUL and no erase happens at the start of a row below the first. */
  ghost predicate Regular(t: Text, ops: seq<Op>, cols: nat)
    requires GoodText(t, cols)
  {
    forall i :: 0 <= i < |ops| && ops[i].Char? ==>
      ops[i].c != 0 && (ops[i].c == BACKSPACE ==> !RowStart(ApplyAll(t, ops[..i], cols)))
  }

  predicate NoScroll(ops: seq<Op>) {
    forall i :: 0 <= i < |ops| ==> !ops[i].Scroll?
  }

  // ---------------------------------------------------------------- typing and erasing

  predicate BlankFrom(row: Row, x: nat) {
    forall i :: x <= i < MAX_COLUMNS ==> row[i] == BLANK
  }

  /** Nothing is written from the cursor on, and no row is written beyond the last column. */
  predicate BlankAhead(t: Text, cols: nat) {
    && |t.rows| > 0 && BlankFrom(t.rows[|t.rows| - 1], t.x)
    && forall r :: 0 <= r < |t.rows| ==> BlankFrom(t.rows[r], cols)
  }

  lemma SetCellBlank(t: Text, x: nat, c: byte, cols: nat)
    requires |t.rows| > 0 && x < cols <= MAX_COLUMNS && forall r :: 0 <= r < |t.rows| ==> BlankFrom(t.rows[r], cols)
    ensures forall r :: 0 <= r < |t.rows| ==> BlankFrom(SetCell(t, x, c)[r], cols)
  {
    forall r | 0 <= r < |t.rows| ensures BlankFrom(SetCell(t, x, c)[r], cols) {
      assert BlankFrom(t.rows[r], cols);
    }
  }

  lemma EraseKeepsBlankAhead(t: Text, cols: nat)
    requires GoodText(t, cols) && BlankAhead(t, cols)
    ensures BlankAhead(EraseBack(t, cols), cols)
  {
    if t.x > 0 {
      SetCellBlank(t, t.x - 1, BLANK, cols);
    } else if RowStart(t) {
      assert BlankFrom(t.rows[|t.rows| - 2], cols);
      SetCellBlank(Text(t.rows[..|t.rows| - 1], cols - 1), cols - 1, BLANK, cols);
    }
  }

  lemma WriteKeepsBlankAhead(t: Text, c: byte, cols: nat)
    requires GoodText(t, cols) && BlankAhead(t, cols)
    ensures BlankAhead(Text(SetCell(t, t.x, c), t.x + 1), cols)
  {
    SetCellBlank(t, t.x, c, cols);
  }

  lemma TypeKeepsBlankAhead(t: Text, c: byte, cols: nat)
    requires GoodText(t, cols) && BlankAhead(t, cols)
    ensures BlankAhead(Type(t, c, cols), cols)
  {
    if c == BACKSPACE {
      EraseKeepsBlankAhead(t, cols);
    } else if Printing(c) {
      WriteKeepsBlankAhead(t, c, cols);
    }
  }

  lemma {:induction false} BlankAheadAlways(t: Text, ops: seq<Op>, cols: nat)
    requires GoodText(t, cols) && BlankAhead(t, cols)
    ensures BlankAhead(ApplyAll(t, ops, cols), cols)
  {
    if ops != [] {
      var before, op := ApplyAll(t, ops[..|ops| - 1], cols), ops[|ops| - 1];
      BlankAheadAlways(t, ops[..|ops| - 1], cols);
      if op.Char? {
        TypeKeepsBlankAhead(before, op.c, cols);
      }
    }
  }

  predicate Printing(c: byte) {
    c !in {NEWLINE, RETURN, FORM_FEED, BACKSPACE}
  }

  /** After any calls on a cleared console, a character typed and erased leaves no trace, unless it wraps the row. */
  lemma TypeThenErase(ops: seq<Op>, c: byte, cols: nat)
    requires 1 <= cols <= MAX_COLUMNS && Printing(c)
    ensures var t := ApplyAll(Cleared(), ops, cols);
      t.x + 1 < cols ==> Type(Type(t, c, cols), BACKSPACE, cols) == t
  {
    var t := ApplyAll(Cleared(), ops, cols);
    BlankAheadAlways(Cleared(), ops, cols);
    assert BlankFrom(t.rows[|t.rows| - 1], t.x);
    var last := t.rows[|t.rows| - 1];
    if t.x + 1 < cols {
      assert last[t.x := c][t.x := BLANK] == last;
      assert Type(Type(t, c, cols), BACKSPACE, cols).rows == t.rows;
    }
  }

  class Display {
    const rows: nat
    const cols: nat
    const cells: array2<byte>
    const screen: array2<byte>
    var cursorX: nat
    var cursorRow: nat
    var viewportBottom: nat
    var followTail: bool
    ghost var text: Text

    /** The scrollback ring holds the rows that are young enough. */
    ghost predicate Ring()
      reads this, cells
    {
      RingFrom(OldestRow(cursorRow))
    }

    ghost predicate RingFrom(oldest: nat)
      reads this, cells
    {
      && cells.Length0 == SCROLLBACK_ROWS && cells.Length1 == MAX_COLUMNS
      && |text.rows| == cursorRow + 1
      && forall r, x :: oldest <= r <= cursorRow && 0 <= x < MAX_COLUMNS ==>
           cells[r % SCROLLBACK_ROWS, x] == text.rows[r][x]
    }

    ghost predicate CursorInRow()
      reads this
    {
      GoodText(text, cols) && text.x == cursorX
    }

    ghost predicate Sized()
      reads this
    {
      && 1 <= rows <= SCROLLBACK_ROWS && 1 <= cols <= MAX_COLUMNS
      && screen.Length0 == rows && screen.Length1 == cols && screen != cells
    }

    /** The view is at the tail exactly when following it; a view scrolled back is a full screen. */
    ghost predicate View()
      reads this
      requires rows >= 1
    {
      && viewportBottom <= cursorRow && (followTail <==> viewportBottom == cursorRow)
      && (!followTail ==> viewportBottom >= rows - 1)
    }

    /** The screen shows what a repaint would show. */
    ghost predicate Drawn()
      reads this, screen
      requires rows >= 1 && |text.rows| > 0 && screen.Length0 == rows && screen.Length1 == cols <= MAX_COLUMNS
    {
      forall y, x :: 0 <= y < rows && 0 <= x < cols ==>
        screen[y, x] == Painted(text.rows, TopRow(viewportBottom, rows), y, x)
    }

    /** No visible row has been recycled by the ring. */
    ghost predicate ViewIntact()
      reads this
      requires rows >= 1
    {
      TopRow(viewportBottom, rows) >= OldestRow(cursorRow)
    }

    ghost predicate Inv()
      reads this, cells, screen
    {
      Sized() && Ring() && CursorInRow() && View() && (ViewIntact() ==> Drawn())
    }

    /** Following the tail, nothing visible is ever recycled, so the screen is always up to date. */
    lemma FollowingIsDrawn()
      requires Inv() && followTail
      ensures Drawn()
    {
    }

    /**
      What a viewer sees: the last rows of the text from the top of the screen on, every character
      from 32 to 127 as itself, a NUL as a blank, any other as a question mark, and blanks below.
    */
    ghost predicate Legible()
      reads this, screen
      requires screen.Length0 == rows && screen.Length1 == cols <= MAX_COLUMNS
    {
      var first := if |text.rows| > rows then |text.rows| - rows else 0;
      forall y, x :: 0 <= y < rows && 0 <= x < cols ==>
        screen[y, x] ==
          if first + y >= |text.rows| then 32
          else
            var c := text.rows[first + y][x];
            if 32 <= c <= 127 then c else if c == 0 then 32 else 63
    }

    /** While following the tail the text can be read off the screen. */
    lemma FollowingIsLegible()
      requires Inv() && followTail
      ensures Legible()
    {
      FollowingIsDrawn();
    }

    /** What the ring holds for a screen cell. */
    function Stored(top: nat, y: nat, x: nat): byte
      requires cells.Length0 == SCROLLBACK_ROWS && cells.Length1 == MAX_COLUMNS && x < MAX_COLUMNS
      reads this, cells
    {
      if OldestRow(cursorRow) <= top + y <= cursorRow then Show(cells[(top + y) % SCROLLBACK_ROWS, x]) else BLANK
    }

    /** Repaints the whole screen from the ring. */
    method Render()
      requires Sized() && cells.Length0 == SCROLLBACK_ROWS && cells.Length1 == MAX_COLUMNS
      modifies screen
      ensures forall y, x :: 0 <= y < rows && 0 <= x < cols ==>
        screen[y, x] == Stored(TopRow(viewportBottom, rows), y, x)
      ensures Ring() ==> Drawn()
    {
      var top := TopRow(viewportBottom, rows);
      var oldest := OldestRow(cursorRow);
      ClearPixels();
      for y := 0 to rows
        invariant forall j, x :: 0 <= j < rows && 0 <= x < cols ==>
          screen[j, x] == if j < y then Stored(top, j, x) else BLANK
      {
        var row := top + y;
        if oldest <= row <= cursorRow {
          for x := 0 to cols
            invariant forall j, i :: 0 <= j < rows && 0 <= i < cols ==>
              screen[j, i] == if j < y || (j == y && i < x) then Stored(top, j, i) else BLANK
          {
            var c := cells[row % SCROLLBACK_ROWS, x];
            if c != 0 && c != BLANK {
              screen[y, x] := Glyph(c);
            }
          }
        }
      }
    }

    method ClearPixels()
      requires screen.Length0 == rows && screen.Length1 == cols
      modifies screen
      ensures forall y, x :: 0 <= y < rows && 0 <= x < cols ==> screen[y, x] == BLANK
    {
      for y := 0 to rows
        invariant forall j, x :: 0 <= j < y && 0 <= x < cols ==> screen[j, x] == BLANK
      {
        for x := 0 to cols
          invariant forall j, i :: 0 <= j < rows && 0 <= i < cols && (j < y || (j == y && i < x)) ==>
            screen[j, i] == BLANK
        {
          screen[y, x] := BLANK;
        }
      }
    }

    /** Starts a console for a screen of the given size in cells. */
    constructor (rows: nat, cols: nat)
      requires 1 <= rows <= SCROLLBACK_ROWS && 1 <= cols <= MAX_COLUMNS
      ensures Inv() && this.rows == rows && this.cols == cols && text == Cleared() && followTail
      ensures fresh(cells) && fresh(screen)
    {
      this.rows, this.cols := rows, cols;
      cells := new byte[SCROLLBACK_ROWS, MAX_COLUMNS]((_, _) => 32);
      screen := new byte[rows, cols]((_, _) => 32);
      cursorX, cursorRow, viewportBottom, followTail := 0, 0, 0, true;
      text := Cleared();
    }

    /** Forgets all text. */
    method Clear()
      requires Inv()
      modifies this`cursorX, this`cursorRow, this`viewportBottom, this`followTail, this`text, cells, screen
      ensures Inv() && text == Cleared() && followTail
      ensures forall y, x :: 0 <= y < rows && 0 <= x < cols ==> screen[y, x] == 32
    {
      for r := 0 to SCROLLBACK_ROWS
        invariant forall j, i :: 0 <= j < r && 0 <= i < MAX_COLUMNS ==> cells[j, i] == BLANK
      {
        ClearSlot(r);
      }
      cursorX, cursorRow, viewportBottom, followTail := 0, 0, 0, true;
      text := Cleared();
      ClearPixels();
    }

    method ClearSlot(slot: nat)
      requires cells.Length0 == SCROLLBACK_ROWS && cells.Length1 == MAX_COLUMNS && slot < SCROLLBACK_ROWS
      modifies cells
      ensures forall r, x :: 0 <= r < SCROLLBACK_ROWS && 0 <= x < MAX_COLUMNS ==>
        cells[r, x] == if r == slot then BLANK else old(cells[r, x])
    {
      for col := 0 to MAX_COLUMNS
        invariant forall r, x :: 0 <= r < SCROLLBACK_ROWS && 0 <= x < MAX_COLUMNS ==>
          cells[r, x] == if r == slot && x < col then BLANK else old(cells[r, x])
      {
        cells[slot, col] := BLANK;
      }
    }

    /** Ends the row; a full screen is repainted one row further down. */
    method NewLine()
      requires Sized() && Ring() && View() && (ViewIntact() ==> Drawn())
      modifies this`cursorX, this`cursorRow, this`viewportBottom, this`text, cells, screen
      ensures Inv() && text == StartRow(old(text)) && followTail == old(followTail)
    {
      cursorX := 0;
      cursorRow := cursorRow + 1;
      SlotsDistinct(cursorRow);
      ClearSlot(cursorRow % SCROLLBACK_ROWS);
      text := StartRow(text);
      if followTail {
        viewportBottom := cursorRow;
        if cursorRow >= rows {
          Render();
        }
      }
    }

    /** Draws at a screen cell. */
    method Draw(x: nat, y: nat, glyph: byte)
      requires Sized() && x < cols && y < rows
      modifies screen
      ensures forall j, i :: 0 <= j < rows && 0 <= i < cols ==>
        screen[j, i] == if j == y && i == x then glyph else old(screen[j, i])
    {
      screen[y, x] := glyph;
    }

    /** Stores a character at the cursor and, if the cursor row is visible, draws it. */
    method StoreChar(c: byte)
      requires Inv() && c != 0
      modifies this`cursorX, this`text, cells, screen
      ensures Ring() && (ViewIntact() ==> Drawn())
      ensures text == Text(SetCell(old(text), old(cursorX), c), old(cursorX) + 1) && cursorX == old(cursorX) + 1
    {
      SlotsDistinct(cursorRow);
      cells[cursorRow % SCROLLBACK_ROWS, cursorX] := c;
      text := Text(SetCell(text, cursorX, c), cursorX + 1);
      if followTail {
        var top := TopRow(viewportBottom, rows);
        if cursorRow >= top && cursorRow < top + rows {
          Draw(cursorX, cursorRow - top, Glyph(c));
        }
      }
      cursorX := cursorX + 1;
    }

    method PutChar(c: byte)
      requires Inv() && c !in {0, NEWLINE, RETURN, FORM_FEED, BACKSPACE}
      modifies this`cursorX, this`cursorRow, this`viewportBottom, this`text, cells, screen
      ensures Inv() && text == Type(old(text), c, cols) && followTail == old(followTail)
    {
      StoreChar(c);
      if cursorX >= cols {
        NewLine();
      }
    }

    /** Blanks a cell of the ring and of the screen, where there is one. */
    method ClearCell(cellX: nat, cellY: nat)
      requires Sized() && cells.Length0 == SCROLLBACK_ROWS && cells.Length1 == MAX_COLUMNS
      modifies cells, screen
      ensures var row := TopRow(viewportBottom, rows) + cellY;
        forall r, x :: 0 <= r < SCROLLBACK_ROWS && 0 <= x < MAX_COLUMNS ==>
          cells[r, x] ==
            if OldestRow(cursorRow) <= row <= cursorRow && r == row % SCROLLBACK_ROWS && x == cellX < cols then BLANK
            else old(cells[r, x])
      ensures forall j, i :: 0 <= j < rows && 0 <= i < cols ==>
        screen[j, i] == if j == cellY && i == cellX then BLANK else old(screen[j, i])
    {
      var row := TopRow(viewportBottom, rows) + cellY;
      if cellX < cols && OldestRow(cursorRow) <= row <= cursorRow {
        cells[row % SCROLLBACK_ROWS, cellX] := BLANK;
      }
      if cellX < cols && cellY < rows {
        Draw(cellX, cellY, BLANK);
      }
    }

    /**
      Erases the character before the cursor.  At the start of a row the cursor moves up a row;
      the cell it then blanks is found on the screen, so a screen of one row that follows the
      tail leaves it alone.
    */
    method EraseChar()
      requires Inv()
      modifies this`cursorX, this`cursorRow, this`text, cells, screen
      ensures !old(AtRowStart()) ==> Inv() && text == Type(old(text), BACKSPACE, cols)
      ensures old(AtRowStart()) ==> text == CrossBack(old(text), cols, rows > 1 || !followTail)
      ensures old(AtRowStart()) ==> RingFrom(old(OldestRow(cursorRow))) && CursorInRow()
      ensures old(AtRowStart() && ViewIntact() && BlankAhead(text, cols)) ==> Drawn()
      ensures View() <==> !old(LeavesViewBehind())
    {
      if cursorX == 0 && cursorRow == 0 {
        return;
      }
      if cursorX == 0 {
        EraseAcross();
      } else {
        EraseInside();
      }
    }

    method EraseInside()
      requires Inv() && cursorX > 0
      modifies this`cursorX, this`text, cells, screen
      ensures Inv() && text == EraseBack(old(text), cols)
    {
      cursorX := cursorX - 1;
      EraseAtCursor();
      text := Text(SetCell(text, cursorX, BLANK), cursorX);
      SlotsDistinct(cursorRow);
    }

    method EraseAcross()
      requires Inv() && AtRowStart()
      modifies this`cursorX, this`cursorRow, this`text, cells, screen
      ensures text == CrossBack(old(text), cols, rows > 1 || !followTail)
      ensures cursorRow == old(cursorRow) - 1 && RingFrom(old(OldestRow(cursorRow))) && CursorInRow()
      ensures old(ViewIntact() && BlankAhead(text, cols)) ==> Drawn()
    {
      ghost var oldest, before := OldestRow(cursorRow), text;
      ghost var top, blanked := TopRow(viewportBottom, rows), rows > 1 || !followTail;
      cursorRow := cursorRow - 1;
      cursorX := cols - 1;
      EraseAtCursor();
      text := CrossBack(text, cols, blanked);
      RecentSlots(oldest, cursorRow);
      assert RingFrom(oldest);
      if top >= oldest && BlankAhead(before, cols) {
        forall y, x | 0 <= y < rows && 0 <= x < cols ensures screen[y, x] == Painted(text.rows, top, y, x) {
          PaintedAcross(before, cols, blanked, top, y, x);
        }
      }
    }

    /** Blanks the cell under the cursor: through the screen when following the tail, in the ring otherwise. */
    method EraseAtCursor()
      requires Sized() && cells.Length0 == SCROLLBACK_ROWS && cells.Length1 == MAX_COLUMNS && cursorX < cols
      modifies cells, screen
      ensures var hit := !followTail || cursorRow >= TopRow(viewportBottom, rows);
        forall r, x :: 0 <= r < SCROLLBACK_ROWS && 0 <= x < MAX_COLUMNS ==>
          cells[r, x] == if hit && r == cursorRow % SCROLLBACK_ROWS && x == cursorX then BLANK else old(cells[r, x])
      ensures followTail ==> forall j, i :: 0 <= j < rows && 0 <= i < cols ==>
        screen[j, i] ==
          if j == cursorRow - TopRow(viewportBottom, rows) && i == cursorX then BLANK else old(screen[j, i])
      ensures !followTail ==> forall y, x :: 0 <= y < rows && 0 <= x < cols ==>
        screen[y, x] == Stored(TopRow(viewportBottom, rows), y, x)
    {
      if followTail {
        var top := TopRow(viewportBottom, rows);
        if cursorRow >= top {
          ClearCell(cursorX, cursorRow - top);
        }
      } else {
        cells[cursorRow % SCROLLBACK_ROWS, cursorX] := BLANK;
        Render();
      }
    }

    ghost predicate AtRowStart()
      reads this
    {
      cursorX == 0 && cursorRow > 0
    }

    /** Erasing now would move the cursor off the row the view is anchored to, or onto the row it was scrolled to. */
    ghost predicate LeavesViewBehind()
      reads this
    {
      AtRowStart() && (followTail || viewportBottom == cursorRow - 1)
    }

    /** Moves the view by a number of rows, back for negative amounts, within what the ring still holds. */
    method ScrollView(amount: int)
      requires Inv()
      modifies this`viewportBottom, this`followTail, screen
      ensures Inv() && Drawn() && text == old(text)
      ensures amount < 0 ==>
        viewportBottom == Min(cursorRow, Max(OldestRow(cursorRow) + rows - 1, old(viewportBottom) + amount))
      ensures amount > 0 ==> viewportBottom == Min(cursorRow, old(viewportBottom) + amount)
      ensures amount == 0 ==> viewportBottom == old(viewportBottom)
    {
      var minimumBottom := OldestRow(cursorRow) + rows - 1;
      if minimumBottom > cursorRow {
        minimumBottom := cursorRow;
      }
      if amount < 0 {
        var delta := -amount;
        viewportBottom := if viewportBottom <= minimumBottom || delta > viewportBottom - minimumBottom
          then minimumBottom else viewportBottom - delta;
      } else if amount > 0 {
        viewportBottom := if viewportBottom >= cursorRow || cursorRow - viewportBottom < amount
          then cursorRow else viewportBottom + amount;
      }
      followTail := viewportBottom == cursorRow;
      Render();
    }

    method ScrollToBottom()
      requires Inv()
      modifies this`viewportBottom, this`followTail, screen
      ensures Inv() && Drawn() && followTail && text == old(text)
    {
      viewportBottom := cursorRow;
      followTail := true;
      Render();
    }

    /** Blanks the row of the cursor, on the screen without a repaint. */
    method ResetInputLine()
      requires Inv()
      modifies this`cursorX, this`viewportBottom, this`followTail, this`text, cells, screen
      ensures Inv() && Drawn() && followTail
      ensures text == Text(old(text).rows[cursorRow := BlankRow()], 0)
    {
      ScrollToBottom();
      var screenRow := cursorRow - TopRow(viewportBottom, rows);
      SlotsDistinct(cursorRow);
      ClearSlot(cursorRow % SCROLLBACK_ROWS);
      text := Text(text.rows[cursorRow := BlankRow()], 0);
      cursorX := 0;
      if screenRow < rows {
        ClearPixelRow(screenRow);
      }
    }

    method ClearPixelRow(y: nat)
      requires Sized() && y < rows
      modifies screen
      ensures forall j, i :: 0 <= j < rows && 0 <= i < cols ==>
        screen[j, i] == if j == y then BLANK else old(screen[j, i])
    {
      for x := 0 to cols
        invariant forall j, i :: 0 <= j < rows && 0 <= i < cols ==>
          screen[j, i] == if j == y && i < x then BLANK else old(screen[j, i])
      {
        Draw(x, y, BLANK);
      }
    }

    /** One character of output. */
    method Put(c: byte)
      requires Inv() && c != 0
      modifies this`cursorX, this`cursorRow, this`viewportBottom, this`followTail, this`text, cells, screen
      ensures followTail == (old(followTail) || c == FORM_FEED)
      ensures !(c == BACKSPACE && old(AtRowStart())) ==> Inv() && text == Type(old(text), c, cols)
      ensures c == BACKSPACE && old(AtRowStart()) ==> text == CrossBack(old(text), cols, rows > 1 || !followTail)
      ensures View() <==> !(c == BACKSPACE && old(LeavesViewBehind()))
      ensures c == 12 ==> text == Cleared() && forall y, x :: 0 <= y < rows && 0 <= x < cols ==> screen[y, x] == 32
    {
      if c == 10 {
        NewLine();
      } else if c == 13 {
      } else if c == 12 {
        Clear();
      } else if c == 8 {
        EraseChar();
      } else {
        PutChar(c);
      }
    }

    /** Any run of calls: the text is the one an unbounded terminal would hold, and the view is right throughout. */
    method Run(ops: seq<Op>)
      requires Inv() && Regular(text, ops, cols)
      modifies this`cursorX, this`cursorRow, this`viewportBottom, this`followTail, this`text, cells, screen
      ensures Inv() && text == ApplyAll(old(text), ops, cols)
      ensures followTail ==> Legible()
      ensures NoScroll(ops) && (old(followTail) || (ops != [] && ops[0].ResetLine?)) ==> followTail
    {
      for i := 0 to |ops|
        invariant Inv() && text == ApplyAll(old(text), ops[..i], cols)
        invariant NoScroll(ops) && (old(followTail) || (i > 0 && ops[0].ResetLine?)) ==> followTail
      {
        assert ops[..i + 1][..i] == ops[..i];
        match ops[i] {
          case Char(c) => Put(c);
          case Scroll(amount) => ScrollView(amount);
          case Bottom => ScrollToBottom();
          case ResetLine => ResetInputLine();
        }
      }
      assert ops[..|ops|] == ops;
      if followTail {
        FollowingIsLegible();
      }
    }
  }

  /** Rows young enough to be in the ring occupy different slots. */
  lemma SlotsDistinct(last: nat)
    ensures forall r :: OldestRow(last) <= r < last ==> r % SCROLLBACK_ROWS != last % SCROLLBACK_ROWS
  {
    forall r | OldestRow(last) <= r < last ensures r % SCROLLBACK_ROWS != last % SCROLLBACK_ROWS {
      var d := last - r;
      assert 0 < d < SCROLLBACK_ROWS;
    }
  }

  /** Crossing back to the row before changes one cell of a repaint that shows no recycled row. */
  lemma PaintedAcross(t: Text, cols: nat, blanked: bool, top: nat, y: nat, x: nat)
    requires GoodText(t, cols) && RowStart(t) && BlankAhead(t, cols) && top >= OldestRow(|t.rows| - 1) && x < cols
    ensures Painted(CrossBack(t, cols, blanked).rows, top, y, x) ==
      if blanked && top + y == |t.rows| - 2 && x == cols - 1 then BLANK else Painted(t.rows, top, y, x)
  {
    assert BlankFrom(t.rows[|t.rows| - 1], 0);
  }

  lemma RecentSlots(oldest: nat, last: nat)
    requires oldest >= OldestRow(last)
    ensures forall r :: oldest <= r < last ==> r % SCROLLBACK_ROWS != last % SCROLLBACK_ROWS
  {
    SlotsDistinct(last);
  }

  /** On any fresh console, a line break and an erase leave the viewport behind. */
  method EraseAfterBreak(rows: nat, cols: nat) returns (d: Display)
    requires 1 <= rows <= SCROLLBACK_ROWS && 1 <= cols <= MAX_COLUMNS
    ensures fresh(d) && d.rows == rows && d.cols == cols && !d.View()
  {
    d := new Display(rows, cols);
    d.Put(NEWLINE);
    d.Put(BACKSPACE);
  }
}
