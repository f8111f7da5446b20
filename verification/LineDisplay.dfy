/**
  What the shell's line editor puts on the console: the input row is blanked, prompt and
  line are written, and backspaces step back to the cursor.  On this console a backspace
  blanks the cell it steps onto.
*/
module LineDisplay {
  import opened Bytes
  import opened Console

  function RowOf(s: seq<byte>): (r: Row)
    requires |s| <= MAX_COLUMNS
    ensures forall x :: 0 <= x < MAX_COLUMNS ==> r[x] == if x < |s| then s[x] else BLANK
  {
    seq<byte>(MAX_COLUMNS, (x: nat) requires x < MAX_COLUMNS => if x < |s| then s[x] else BLANK)
  }

  /** The text with its last row replaced, and the cursor behind it. */
  function Showing(t: Text, s: seq<byte>): Text
    requires |t.rows| > 0 && |s| <= MAX_COLUMNS
  {
    Text(t.rows[|t.rows| - 1 := RowOf(s)], |s|)
  }

  function Chars(s: seq<byte>): (ops: seq<Op>)
    ensures |ops| == |s| && forall i :: 0 <= i < |s| ==> ops[i] == Char(s[i])
  {
    seq<Op>(|s|, (i: nat) requires i < |s| => Char(s[i]))
  }

  function Steps(n: nat): (ops: seq<Op>)
    ensures |ops| == n && forall i :: 0 <= i < n ==> ops[i] == Char(BACKSPACE)
  {
    seq<Op>(n, (i: nat) => Char(BACKSPACE))
  }

  /** Text as the kernel gets it. */
  function Codes(s: string): (r: seq<byte>)
    ensures |r| == |s|
  {
    seq<byte>(|s|, (i: nat) requires i < |s| => s[i] as int % 256)
  }

  /** The calls that draw a line with the cursor at k. */
  function Drawing(prompt: seq<byte>, line: seq<byte>, k: nat): seq<Op>
    requires k <= |line|
  {
    [ResetLine] + Chars(prompt + line) + Steps(|line| - k)
  }

  predicate AllPrinting(s: seq<byte>) {
    forall i :: 0 <= i < |s| ==> Printing(s[i])
  }

  lemma {:induction false} ApplyAppend(t: Text, a: seq<Op>, b: seq<Op>, cols: nat)
    requires GoodText(t, cols)
    ensures ApplyAll(t, a + b, cols) == ApplyAll(ApplyAll(t, a, cols), b, cols)
    decreases |b|
  {
    if b == [] {
      assert a + b == a;
    } else {
      assert (a + b)[..|a + b| - 1] == a + b[..|b| - 1];
      ApplyAppend(t, a, b[..|b| - 1], cols);
    }
  }

  lemma TypeNext(t: Text, s: seq<byte>, c: byte, cols: nat)
    requires |t.rows| > 0 && |s| + 1 < cols <= MAX_COLUMNS && Printing(c)
    ensures Type(Showing(t, s), c, cols) == Showing(t, s + [c])
  {
    assert RowOf(s)[|s| := c] == RowOf(s + [c]);
  }

  lemma EraseLast(t: Text, s: seq<byte>, c: byte, cols: nat)
    requires |t.rows| > 0 && |s| + 1 < cols <= MAX_COLUMNS
    ensures Type(Showing(t, s + [c]), BACKSPACE, cols) == Showing(t, s)
  {
    assert RowOf(s + [c])[|s| := BLANK] == RowOf(s);
  }

  lemma {:induction false} TypeAll(t: Text, s: seq<byte>, cols: nat)
    requires |t.rows| > 0 && |s| < cols <= MAX_COLUMNS && AllPrinting(s)
    ensures ApplyAll(Showing(t, []), Chars(s), cols) == Showing(t, s)
  {
    if s != [] {
      var front, last := s[..|s| - 1], s[|s| - 1];
      assert Chars(s)[..|s| - 1] == Chars(front) && front + [last] == s;
      TypeAll(t, front, cols);
      TypeNext(t, front, last, cols);
    }
  }

  lemma {:induction false} StepBack(t: Text, s: seq<byte>, n: nat, cols: nat)
    requires |t.rows| > 0 && n <= |s| < cols <= MAX_COLUMNS
    ensures ApplyAll(Showing(t, s), Steps(n), cols) == Showing(t, s[..|s| - n])
  {
    if n == 0 {
      assert s[..|s|] == s;
    } else {
      var rest := s[..|s| - n + 1];
      assert Steps(n)[..n - 1] == Steps(n - 1);
      StepBack(t, s, n - 1, cols);
      assert rest == s[..|s| - n] + [s[|s| - n]];
      EraseLast(t, s[..|s| - n], s[|s| - n], cols);
    }
  }

  lemma ResetShows(t: Text, cols: nat)
    requires GoodText(t, cols)
    ensures ApplyAll(t, [ResetLine], cols) == Showing(t, [])
  {
    assert [ResetLine][..0] == [] && ApplyAll(t, [], cols) == t;
    assert RowOf([]) == BlankRow();
  }

  lemma TypedRow(t: Text, s: seq<byte>, cols: nat)
    requires GoodText(t, cols) && |s| < cols && AllPrinting(s)
    ensures ApplyAll(t, [ResetLine] + Chars(s), cols) == Showing(t, s)
  {
    ResetShows(t, cols);
    ApplyAppend(t, [ResetLine], Chars(s), cols);
    TypeAll(t, s, cols);
  }

  /** Drawing shows the prompt and the line up to the cursor, which ends there; the rest is blank. */
  lemma DrawingShows(t: Text, prompt: seq<byte>, line: seq<byte>, k: nat, cols: nat)
    requires GoodText(t, cols) && k <= |line| && |prompt + line| < cols && AllPrinting(prompt + line)
    ensures ApplyAll(t, Drawing(prompt, line, k), cols) == Showing(t, prompt + line[..k])
  {
    var s, n := prompt + line, |line| - k;
    TypedRow(t, s, cols);
    ApplyAppend(t, [ResetLine] + Chars(s), Steps(n), cols);
    StepBack(t, s, n, cols);
    assert s[..|s| - n] == prompt + line[..k];
  }

  /** So the whole line is on the screen exactly when nothing but blanks follows the cursor. */
  lemma WholeLineShown(t: Text, prompt: seq<byte>, line: seq<byte>, k: nat, cols: nat)
    requires GoodText(t, cols) && k <= |line| && |prompt + line| < cols && AllPrinting(prompt + line)
    ensures ApplyAll(t, Drawing(prompt, line, k), cols).rows == Showing(t, prompt + line).rows
            <==> forall i :: k <= i < |line| ==> line[i] == BLANK
  {
    DrawingShows(t, prompt, line, k, cols);
    var a, b := RowOf(prompt + line[..k]), RowOf(prompt + line);
    if a == b {
      forall i | k <= i < |line| ensures line[i] == BLANK {
        assert a[|prompt| + i] == b[|prompt| + i];
      }
    }
    var last := |t.rows| - 1;
    assert t.rows[last := a][last] == a && t.rows[last := b][last] == b;
  }

  lemma StepsRegular(t: Text, s: seq<byte>, n: nat, m: nat, cols: nat)
    requires GoodText(t, cols) && m < n <= |s| < cols && AllPrinting(s)
    ensures var before := ([ResetLine] + Chars(s) + Steps(n))[..1 + |s| + m];
      !RowStart(ApplyAll(t, before, cols))
  {
    assert ([ResetLine] + Chars(s) + Steps(n))[..1 + |s| + m] == [ResetLine] + Chars(s) + Steps(m);
    TypedRow(t, s, cols);
    ApplyAppend(t, [ResetLine] + Chars(s), Steps(m), cols);
    StepBack(t, s, m, cols);
  }

  /** Drawing never erases across a row, so the console follows it. */
  lemma DrawingRegular(t: Text, prompt: seq<byte>, line: seq<byte>, k: nat, cols: nat)
    requires GoodText(t, cols) && k <= |line| && |prompt + line| < cols && AllPrinting(prompt + line)
    requires 0 !in prompt + line
    ensures Regular(t, Drawing(prompt, line, k), cols)
  {
    var s, n, ops := prompt + line, |line| - k, Drawing(prompt, line, k);
    forall i | 0 <= i < |ops| && ops[i].Char?
      ensures ops[i].c != 0 && (ops[i].c == BACKSPACE ==> !RowStart(ApplyAll(t, ops[..i], cols)))
    {
      if i <= |s| {
        assert ops[i] == Char(s[i - 1]) && s[i - 1] in s;
      } else {
        StepsRegular(t, s, n, i - 1 - |s|, cols);
      }
    }
  }

  /** A screen row shows a text from its left edge on: characters from 32 to 127 as themselves, then blanks. */
  ghost predicate RowShows(d: Display, y: int, s: seq<byte>)
    reads d, d.screen
  {
    && 0 <= y < d.rows == d.screen.Length0 && d.cols == d.screen.Length1
    && forall x :: 0 <= x < d.cols ==>
         d.screen[y, x] == if x >= |s| then 32 else if 32 <= s[x] <= 127 then s[x] else if s[x] == 0 then 32 else 63
  }

  lemma RowShown(d: Display, t: Text, s: seq<byte>)
    requires d.Inv() && d.followTail && |t.rows| > 0 && |s| <= MAX_COLUMNS && d.text == Showing(t, s)
    ensures RowShows(d, Min(|t.rows|, d.rows) - 1, s)
  {
    d.FollowingIsLegible();
    var y := Min(|t.rows|, d.rows) - 1;
    var first := if |t.rows| > d.rows then |t.rows| - d.rows else 0;
    assert first + y == |t.rows| - 1 && d.text.rows[first + y] == RowOf(s);
  }

  /** On the console itself: the last row in use shows the prompt and the line up to the cursor. */
  method ShowLine(d: Display, prompt: seq<byte>, line: seq<byte>, k: nat)
    requires d.Inv() && k <= |line| && |prompt + line| < d.cols && AllPrinting(prompt + line) && 0 !in prompt + line
    modifies d, d.cells, d.screen
    ensures d.Inv() && d.followTail && d.text == Showing(old(d.text), prompt + line[..k])
    ensures RowShows(d, Min(|d.text.rows|, d.rows) - 1, prompt + line[..k])
  {
    DrawingRegular(d.text, prompt, line, k, d.cols);
    DrawingShows(d.text, prompt, line, k, d.cols);
    ghost var t, shown := d.text, prompt + line[..k];
    d.Run(Drawing(prompt, line, k));
    RowShown(d, t, shown);
  }

  /** The shell's prompt, `ianos> `. */
  const PROMPT: seq<byte> := [105, 97, 110, 111, 115, 62, 32]

  /** A line of up to 63 characters and the prompt fit a row of 71 columns. */
  lemma PromptFits(line: seq<byte>, cols: nat)
    requires |line| < 64 && 71 <= cols && AllPrinting(line) && 0 !in line
    ensures |PROMPT + line| < cols && AllPrinting(PROMPT + line) && 0 !in PROMPT + line
  {
    forall i | 0 <= i < |PROMPT + line| ensures Printing((PROMPT + line)[i]) && (PROMPT + line)[i] != 0 {
      if i >= |PROMPT| {
        assert (PROMPT + line)[i] == line[i - |PROMPT|];
      }
    }
  }

  /** With the cursor in front of it, a line `ls` behind the prompt is not shown. */
  lemma CursorHidesLine(cols: nat)
    requires 71 <= cols <= MAX_COLUMNS
    ensures ApplyAll(Cleared(), Drawing(PROMPT, [108, 115], 0), cols).rows
      != Showing(Cleared(), PROMPT + [108, 115]).rows
  {
    var line: seq<byte> := [108, 115];
    PromptFits(line, cols);
    WholeLineShown(Cleared(), PROMPT, line, 0, cols);
    assert line[0] != BLANK;
  }
}
