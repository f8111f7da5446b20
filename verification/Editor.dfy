/**
  The interactive line editor: a 64-byte buffer edited in place, a history to walk
  through, and a draft that survives the walk.
*/
module Editor {
  import opened History
  import opened ShellLine
  import opened LineDisplay
  import Console

  const HOME := 0x01 as char
  const LEFT := 0x02 as char
  const END_OF_INPUT := 0x04 as char
  const END := 0x05 as char
  const RIGHT := 0x06 as char
  const ERASE := 0x08 as char
  const TAB := 0x09 as char
  const NEWLINE := 0x0A as char
  const RETURN := 0x0D as char
  const DOWN := 0x0E as char
  const UP := 0x10 as char
  const DELETE := 0x7F as char

  predicate Printable(c: char) {
    ' ' <= c < DELETE
  }

  // ---------------------------------------------------------------- a line with a cursor

  /** The text before and after the cursor. */
  datatype Line = Line(before: string, after: string) {
    function Text(): string {
      before + after
    }
  }

  function Move(l: Line, key: char): Line {
    var b, a := l.before, l.after;
    if key == HOME then Line("", b + a)
    else if key == END then Line(b + a, "")
    else if key == LEFT && b != [] then Line(b[..|b| - 1], [b[|b| - 1]] + a)
    else if key == RIGHT && a != [] then Line(b + [a[0]], a[1..])
    else if (key == DELETE || key == END_OF_INPUT) && a != [] then Line(b, a[1..])
    else if key == ERASE && b != [] then Line(b[..|b| - 1], a)
    else l
  }

  /** The line, what it was before walking the history, the place in the history, and the session. */
  datatype State = State(line: Line, draft: string, view: nat, history: seq<string>, session: Session, running: bool)

  predicate Proper(m: State) {
    && |m.line.Text()| < LINE_CAPACITY && NUL !in m.line.Text() && NUL !in m.draft
    && m.view <= |m.history| && CleanAll(m.history)
  }

  predicate CleanAll(lines: seq<string>) {
    forall i :: 0 <= i < |lines| ==> NUL !in lines[i]
  }

  function Show(m: State, text: string, view: nat): State {
    m.(line := Line(Cut(text), ""), view := view)
  }

  /** Leaving the newest place saves the line. */
  function Saved(m: State): State {
    if m.view == |m.history| then m.(draft := m.line.Text()) else m
  }

  function GoUp(m: State): State
    requires Proper(m)
  {
    if m.view == 0 then m else Show(Saved(m), m.history[m.view - 1], m.view - 1)
  }

  /** The entry after the one in view: the draft if there is none. */
  function Following(m: State): string
    requires m.view < |m.history|
  {
    if m.view + 1 == |m.history| then m.draft else m.history[m.view + 1]
  }

  function GoDown(m: State): State
    requires Proper(m)
  {
    if m.view >= |m.history| then m else Show(m, Following(m), m.view + 1)
  }

  /** The line enters the history and runs; the next one starts empty. */
  function Submit(o: Oracle, m: State): State {
    var text := m.line.Text();
    var history := Offered(m.history, text);
    State(Line("", ""), "", |history|, history, Evaluate(o, Parse(Always, text), m.session), true)
  }

  function Type(m: State, key: char): State {
    if |m.line.Text()| + 1 < LINE_CAPACITY then
      var l := Line(m.line.before + [key], m.line.after);
      m.(line := l, view := |m.history|, draft := l.Text())
    else m
  }

  function Press(o: Oracle, m: State, key: char): State
    requires Proper(m)
  {
    if !m.running then m
    else if key == NEWLINE || key == RETURN then Submit(o, m)
    else if key == UP then GoUp(m)
    else if key == DOWN then GoDown(m)
    else if key == END_OF_INPUT && m.line.Text() == "" then m.(running := false)
    else if Printable(key) then Type(m, key)
    else m.(line := Move(m.line, key))
  }

  lemma MoveKeeps(l: Line, key: char)
    ensures |Move(l, key).Text()| <= |l.Text()|
    ensures forall c :: c in Move(l, key).Text() ==> c in l.Text()
  {
    var t, m := l.Text(), Move(l, key).Text();
    forall i | 0 <= i < |m| ensures m[i] in t {
    }
  }

  lemma OfferedClean(history: seq<string>, line: string)
    requires CleanAll(history) && NUL !in line
    ensures CleanAll(Offered(history, line))
  {
    var more := history + [Cut(line)];
    assert CleanAll(more);
    forall i | 0 <= i < |LastEight(more)| ensures NUL !in LastEight(more)[i] {
    }
  }

  lemma ShowKeeps(m: State, text: string, view: nat)
    requires Proper(m) && NUL !in text && view <= |m.history|
    ensures Proper(Show(m, text, view))
  {
    assert Show(m, text, view).line.Text() == Cut(text);
  }

  lemma UpKeeps(m: State)
    requires Proper(m)
    ensures Proper(GoUp(m))
  {
    if m.view > 0 {
      ShowKeeps(Saved(m), m.history[m.view - 1], m.view - 1);
    }
  }

  lemma DownKeeps(m: State)
    requires Proper(m)
    ensures Proper(GoDown(m))
  {
    if m.view < |m.history| {
      ShowKeeps(m, if m.view + 1 == |m.history| then m.draft else m.history[m.view + 1], m.view + 1);
    }
  }

  lemma TypeKeeps(m: State, key: char)
    requires Proper(m) && Printable(key)
    ensures Proper(Type(m, key))
  {
    var t := m.line.before + [key] + m.line.after;
    forall i | 0 <= i < |t| ensures t[i] != NUL {
      assert i != |m.line.before| ==> t[i] in m.line.Text();
    }
  }

  lemma PressKeeps(o: Oracle, m: State, key: char)
    requires Proper(m)
    ensures Proper(Press(o, m, key))
  {
    if key == NEWLINE || key == RETURN {
      OfferedClean(m.history, m.line.Text());
    } else if key == UP {
      UpKeeps(m);
    } else if key == DOWN {
      DownKeeps(m);
    } else if Printable(key) {
      TypeKeeps(m, key);
    } else {
      MoveKeeps(m.line, key);
    }
  }

  // ---------------------------------------------------------------- runs of keys

  function PressAll(o: Oracle, m: State, keys: string): (r: State)
    requires Proper(m)
    ensures Proper(r)
    decreases |keys|
  {
    if keys == [] then m
    else
      PressKeeps(o, m, keys[0]);
      PressAll(o, Press(o, m, keys[0]), keys[1..])
  }

  /** No empty entry, no two equal neighbours, and every entry as it was entered. */
  predicate Tidy(history: seq<string>) {
    forall i :: 0 <= i < |history| ==> TidyAt(history, i)
  }

  predicate TidyAt(history: seq<string>, i: nat)
    requires i < |history|
  {
    history[i] != "" && |history[i]| < LINE_CAPACITY && (i > 0 ==> history[i - 1] != history[i])
  }

  lemma TidyMore(history: seq<string>, line: string)
    requires Tidy(history) && |line| < LINE_CAPACITY && !Ignored(history, line)
    ensures Tidy(history + [line])
  {
    var more := history + [line];
    forall i | 0 <= i < |more| ensures TidyAt(more, i) {
      assert i < |history| ==> TidyAt(history, i);
    }
  }

  lemma TidyLast(more: seq<string>)
    requires Tidy(more)
    ensures Tidy(LastEight(more))
  {
    var kept := LastEight(more);
    var dropped := |more| - |kept|;
    forall i | 0 <= i < |kept| ensures TidyAt(kept, i) {
      assert TidyAt(more, dropped + i);
    }
  }

  /** Lines of the editor fit an entry, so none is cut and a repeat is always noticed. */
  lemma OfferedTidy(history: seq<string>, line: string)
    requires Tidy(history) && |line| < LINE_CAPACITY
    ensures Cut(line) == line && Tidy(Offered(history, line))
  {
    if !Ignored(history, line) {
      TidyMore(history, line);
      TidyLast(history + [line]);
    }
  }

  /** Over every run of keys the history stays tidy. */
  lemma {:induction false} TidyAlways(o: Oracle, m: State, keys: string)
    requires Proper(m) && Tidy(m.history)
    ensures Tidy(PressAll(o, m, keys).history)
    decreases |keys|
  {
    if keys != [] {
      PressKeeps(o, m, keys[0]);
      OfferedTidy(m.history, m.line.Text());
      TidyAlways(o, Press(o, m, keys[0]), keys[1..]);
    }
  }

  function Again(key: char, k: nat): string {
    seq<char>(k, (i: nat) => key)
  }

  lemma PressAgain(o: Oracle, m: State, key: char, k: nat)
    requires Proper(m) && k > 0
    ensures Proper(Press(o, m, key)) && PressAll(o, m, Again(key, k))
      == PressAll(o, Press(o, m, key), Again(key, k - 1))
  {
    PressKeeps(o, m, key);
    assert Again(key, k)[1..] == Again(key, k - 1);
  }

  /** After any walk up that left the newest place, the draft is the line the walk began with. */
  lemma {:induction false} WalkUp(o: Oracle, m: State, k: nat)
    requires Proper(m) && m.running
    ensures var r := PressAll(o, m, Again(UP, k));
            && r.running && r.history == m.history && r.view == (if k <= m.view then m.view - k else 0)
            && (m.view < |m.history| ==> r.draft == m.draft)
            && (m.view == |m.history| && 0 < k && 0 < m.view ==> r.draft == m.line.Text())
            && (k == 0 || m.view == 0 ==> r == m)
    decreases k
  {
    if k > 0 {
      PressAgain(o, m, UP, k);
      WalkUp(o, Press(o, m, UP), k - 1);
    }
  }

  lemma {:induction false} WalkDown(o: Oracle, m: State, k: nat)
    requires Proper(m) && m.running && |m.history| - m.view <= k
    ensures var r := PressAll(o, m, Again(DOWN, k));
            && r.history == m.history && r.view == |m.history|
            && (if m.view == |m.history| then r == m else r.line == Line(Cut(m.draft), ""))
    decreases k
  {
    if k > 0 {
      PressAgain(o, m, DOWN, k);
      WalkDown(o, Press(o, m, DOWN), k - 1);
    }
  }

  /** Any number of steps up the history and as many down bring the line back. */
  lemma UpsAndDowns(o: Oracle, m: State, k: nat)
    requires Proper(m) && m.running && m.view == |m.history|
    ensures var r := PressAll(o, PressAll(o, m, Again(UP, k)), Again(DOWN, k));
            r.line.Text() == m.line.Text() && r.view == m.view && r.history == m.history
  {
    WalkUp(o, m, k);
    WalkDown(o, PressAll(o, m, Again(UP, k)), k);
  }

  predicate AllPrintable(text: string) {
    forall i :: 0 <= i < |text| ==> Printable(text[i])
  }

  lemma {:induction false} TypeText(o: Oracle, m: State, text: string)
    requires Proper(m) && m.running && AllPrintable(text) && |m.line.Text()| + |text| < LINE_CAPACITY
    ensures var r := PressAll(o, m, text);
            && r.running && r.history == m.history && r.session == m.session
            && r.line == Line(m.line.before + text, m.line.after)
    decreases |text|
  {
    if text == [] {
      assert m.line.before + text == m.line.before;
    } else {
      var next := Press(o, m, text[0]);
      PressKeeps(o, m, text[0]);
      TypeText(o, next, text[1..]);
      assert next.line.before + text[1..] == m.line.before + text;
    }
  }

  lemma {:induction false} PressAllAppend(o: Oracle, m: State, a: string, b: string)
    requires Proper(m)
    ensures PressAll(o, m, a + b) == PressAll(o, PressAll(o, m, a), b)
    decreases |a|
  {
    if a == [] {
      assert a + b == b;
    } else {
      PressKeeps(o, m, a[0]);
      assert (a + b)[1..] == a[1..] + b;
      PressAllAppend(o, Press(o, m, a[0]), a[1..], b);
    }
  }

  /** A command list typed on an empty line and entered runs as its AND-OR lists. */
  lemma TypedListRuns(o: Oracle, m: State, list: seq<AndOr>)
    requires Proper(m) && m.running && m.line == Line("", "") && WellFormedList(list)
    requires AllPrintable(PrintList(list)) && |PrintList(list)| < LINE_CAPACITY
    ensures var r := PressAll(o, m, PrintList(list) + [RETURN]);
            r.session == EvalList(o, list, m.session) && r.history == Offered(m.history, PrintList(list))
  {
    var text := PrintList(list);
    var typed := PressAll(o, m, text);
    PressAllAppend(o, m, text, [RETURN]);
    TypeText(o, m, text);
    assert typed.line.Text() == text;
    assert PressAll(o, typed, [RETURN]) == Submit(o, typed) by {
      PressKeeps(o, typed, RETURN);
    }
    PrintedListRuns(o, list, m.session);
  }

  /** Where a cursor key puts the cursor in a line of the given length. */
  function CursorAfter(cursor: nat, length: nat, key: char): (at: nat)
    requires cursor <= length
    ensures at <= length
  {
    if key == HOME then 0
    else if key == END then length
    else if key == LEFT then (if cursor == 0 then 0 else cursor - 1)
    else if cursor < length then cursor + 1 else cursor
  }

  lemma MoveCursor(text: string, cursor: nat, key: char)
    requires cursor <= |text| && (key == HOME || key == END || key == LEFT || key == RIGHT)
    ensures var at := CursorAfter(cursor, |text|, key);
      Move(Line(text[..cursor], text[cursor..]), key) == Line(text[..at], text[at..])
  {
    var b, a := text[..cursor], text[cursor..];
    assert b + a == text && text[..0] == "" && text[0..] == text && text[..|text|] == text && text[|text|..] == "";
    if key == LEFT && cursor != 0 {
      assert b[..|b| - 1] == text[..cursor - 1] && [b[|b| - 1]] + a == text[cursor - 1..];
    } else if key == RIGHT && cursor < |text| {
      assert b + [a[0]] == text[..cursor + 1] && a[1..] == text[cursor + 1..];
    }
  }

  /** A character typed and erased leaves the line as it was, exactly when it was not full or had nothing to erase. */
  lemma TypedAndErased(o: Oracle, m: State, key: char)
    requires Proper(m) && m.running && Printable(key)
    ensures Proper(Press(o, m, key))
    ensures Press(o, Press(o, m, key), ERASE).line == m.line <==>
            |m.line.Text()| + 1 < LINE_CAPACITY || m.line.before == ""
  {
    PressKeeps(o, m, key);
    var b := m.line.before;
    assert (b + [key])[..|b|] == b;
    assert b != "" ==> |b[..|b| - 1]| != |b|;
  }

  /** Only the end of input on an empty line ends the run; off the history, only printable keys lengthen a line. */
  lemma KeysSorted(o: Oracle, m: State, key: char)
    requires Proper(m) && m.running
    ensures !Press(o, m, key).running <==> key as int == 4 && m.line.Text() == ""
    ensures key as int !in {10, 13, 14, 16} ==>
      (|Press(o, m, key).line.Text()| > |m.line.Text()| <==> 32 <= key as int < 127 && |m.line.Text()| < 63)
  {
    MoveKeeps(m.line, key);
  }

  /** Stepping left and deleting is erasing, exactly when there is something to erase or nothing to delete. */
  lemma LeftAndDelete(l: Line)
    ensures Move(Move(l, LEFT), DELETE) == Move(l, ERASE) <==> l.before != "" || l.after == ""
    ensures Move(Move(l, LEFT), RIGHT) == l <==> l.before != "" || l.after == ""
  {
    var b, a := l.before, l.after;
    if b != "" {
      var c := b[|b| - 1];
      assert ([c] + a)[1..] == a && b[..|b| - 1] + [c] == b;
    }
  }

  // ---------------------------------------------------------------- the editor

  class LineEditor {
    const line: array<char>
    const history: Ring
    const shell: Shell
    const prompt: string
    var length: nat
    var cursor: nat
    var draft: string
    var view: nat
    var running: bool

    /** The cursor is in the line, the line ends in its only NUL. */
    ghost predicate Edited()
      reads this, line
    {
      cursor <= length && Ended()
    }

    ghost predicate Ended()
      reads this, line
    {
      length < line.Length == LINE_CAPACITY && line[length] == NUL && NUL !in line[..length]
    }

    ghost function TheLine(): Line
      requires cursor <= length <= line.Length
      reads this, line
    {
      Line(line[..cursor], line[cursor..length])
    }

    ghost predicate Valid()
      reads this, line, history, history.slots, shell
    {
      Edited() && history.Valid() && Proper(Abstract())
    }

    ghost function Abstract(): State
      requires cursor <= length <= line.Length && history.Shaped()
      reads this, line, history, history.slots, shell
    {
      State(TheLine(), draft, view, history.Contents(), shell.session, running)
    }

    constructor (h: Ring, s: Shell, p: string)
      requires h.Valid() && CleanAll(h.Contents())
      ensures Valid() && history == h && shell == s && prompt == p && fresh(line)
      ensures Abstract() == State(Line("", ""), "", h.count, h.Contents(), s.session, true)
    {
      line := new char[LINE_CAPACITY](_ => NUL);
      history, shell, prompt := h, s, p;
      length, cursor, draft, view, running := 0, 0, "", h.count, true;
    }

    /** Draws the prompt and the line, and steps back to the target. */
    method Redraw(target: nat) returns (written: seq<Console.Op>)
      requires Ended()
      modifies this`cursor
      ensures Edited() && cursor <= target && (target <= length ==> cursor == target) &&
        (target > length ==> cursor == length)
      ensures written == Drawing(Codes(prompt), Codes(line[..length]), cursor)
    {
      var goal := if target > length then length else target;
      ghost var codes := Codes(prompt) + Codes(line[..length]);
      written := [Console.ResetLine] + Chars(Codes(prompt)) + Chars(Codes(line[..length]));
      assert written == [Console.ResetLine] + Chars(codes);
      cursor := length;
      while cursor > goal
        invariant goal <= cursor <= length && written == [Console.ResetLine] + Chars(codes) + Steps(length - cursor)
      {
        assert Steps(length - cursor) + [Console.Char(Console.BACKSPACE)] == Steps(length - cursor + 1);
        written := written + [Console.Char(Console.BACKSPACE)];
        cursor := cursor - 1;
      }
    }

    method ReplaceInput(text: string) returns (written: seq<Console.Op>)
      requires line.Length == LINE_CAPACITY && NUL !in text
      modifies this`length, this`cursor, line
      ensures Edited() && TheLine() == Line(Cut(text), "")
      ensures written == Drawing(Codes(prompt), Codes(Cut(text)), |Cut(text)|)
    {
      CopyText(text);
      assert line[..length] == Cut(text);
      written := Redraw(length);
    }

    /** Copies what fits and fills the rest of the buffer with NULs. */
    method CopyText(text: string)
      requires line.Length == LINE_CAPACITY && NUL !in text
      modifies this`length, line
      ensures Ended() && line[..length] == Cut(text)
    {
      var i := 0;
      while i + 1 < LINE_CAPACITY && i < |text|
        invariant i < LINE_CAPACITY && i <= |text| && line[..i] == text[..i]
      {
        line[i] := text[i];
        i := i + 1;
      }
      ghost var kept := line[..i];
      assert kept == Cut(text);
      length := i;
      while i < LINE_CAPACITY
        invariant length <= i <= LINE_CAPACITY && line[..length] == kept && (length < i ==> line[length] == NUL)
        modifies line
      {
        line[i] := NUL;
        i := i + 1;
      }
    }

    /** Removes the character at `at` by moving the rest of the line, NUL included, one place down. */
    method CloseGap(at: nat)
      requires Edited() && at < length
      modifies this`length, line
      ensures length == old(length) - 1 && line[length] == NUL
      ensures line[..at] == old(line[..at]) && line[at..length] == old(line[at + 1..length])
    {
      for i := at to length
        invariant line[length] == NUL
        invariant forall j :: 0 <= j < at ==> line[j] == old(line[j])
        invariant forall j :: at <= j < i ==> line[j] == old(line[j + 1])
        invariant forall j :: i <= j < line.Length ==> line[j] == old(line[j])
        modifies line
      {
        line[i] := line[i + 1];
      }
      length := length - 1;
    }

    /** Moves the rest of the line, NUL included, one place up and puts a character before it. */
    method OpenGap(c: char)
      requires Edited() && length + 1 < LINE_CAPACITY
      modifies this`length, line
      ensures length == old(length) + 1 && line[length] == NUL
      ensures line[..cursor] == old(line[..cursor]) && line[cursor] == c
      ensures line[cursor + 1..length] == old(line[cursor..length])
    {
      ghost var rest := line[cursor..length];
      var i := length + 1;
      while i > cursor
        invariant cursor <= i <= length + 1
        invariant forall j :: 0 <= j < i ==> line[j] == old(line[j])
        invariant forall j :: i < j <= length + 1 ==> line[j] == old(line[j - 1])
        modifies line
      {
        line[i] := line[i - 1];
        i := i - 1;
      }
      line[cursor] := c;
      length := length + 1;
      line[length] := NUL;
      forall k | 0 <= k < |rest| ensures line[cursor + 1 + k] == rest[k] {
        assert line[cursor + 1 + k] == old(line[cursor + k]);
      }
    }

    method RemoveAt(at: nat)
      requires Edited() && at < length && (at == cursor || at + 1 == cursor)
      modifies this`length, this`cursor, line
      ensures Edited() && TheLine() == Line(old(line[..at]), old(line[at + 1..length]))
    {
      ghost var before, after := line[..at], line[at + 1..length];
      assert forall c :: c in before + after ==> c in line[..length];
      CloseGap(at);
      cursor := at;
      assert line[..length] == before + after;
    }

    method CursorKey(key: char)
      requires Edited() && (key == HOME || key == END || key == LEFT || key == RIGHT)
      modifies this`cursor
      ensures Edited() && TheLine() == Move(old(TheLine()), key)
    {
      ghost var text := line[..length];
      MoveCursor(text, cursor, key);
      assert line[..cursor] == text[..cursor] && line[cursor..length] == text[cursor..];
      var code := key as int;
      if code == 0x01 {
        var _ := Redraw(0);
      } else if code == 0x05 {
        var _ := Redraw(length);
      } else if code == 0x02 {
        if cursor != 0 {
          var _ := Redraw(cursor - 1);
        }
      } else if cursor < length {
        var _ := Redraw(cursor + 1);
      }
      assert line[..cursor] == text[..cursor] && line[cursor..length] == text[cursor..];
    }

    method RemovalKey(key: char)
      requires Edited() && (key == DELETE || key == END_OF_INPUT || key == ERASE)
      modifies this`length, this`cursor, line
      ensures Edited() && TheLine() == Move(old(TheLine()), key)
    {
      ghost var b, a := line[..cursor], line[cursor..length];
      if key as int == 0x08 {
        if cursor != 0 {
          assert line[..cursor - 1] == b[..|b| - 1];
          RemoveAt(cursor - 1);
        }
      } else if cursor < length {
        assert line[cursor + 1..length] == a[1..];
        RemoveAt(cursor);
      }
    }

    method MoveKey(key: char)
      requires Edited()
      modifies this`length, this`cursor, line
      ensures Edited() && TheLine() == Move(old(TheLine()), key)
    {
      var code := key as int;
      if code == 0x01 || code == 0x05 || code == 0x02 || code == 0x06 {
        CursorKey(key);
      } else if code == 0x7F || code == 0x04 || code == 0x08 {
        RemovalKey(key);
      }
    }

    method TypeKey(c: char)
      requires Edited() && Printable(c) && length + 1 < LINE_CAPACITY
      modifies this`length, this`cursor, line
      ensures Edited() && TheLine() == Line(old(TheLine()).before + [c], old(TheLine()).after)
    {
      ghost var before, after := line[..cursor], line[cursor..length];
      OpenGap(c);
      assert line[..length] == before + [c] + after;
      assert NUL !in before + [c] + after;
      var _ := Redraw(cursor + 1);
    }

    method PrintableKey(c: char)
      requires Valid() && Printable(c)
      modifies this`length, this`cursor, this`draft, this`view, line
      ensures Valid() && Abstract() == Type(old(Abstract()), c)
    {
      TypeKeeps(Abstract(), c);
      if length + 1 < LINE_CAPACITY {
        TypeKey(c);
        view := history.count;
        draft := line[..length];
        assert draft == TheLine().Text();
      }
    }

    method ShowText(text: string, v: nat)
      requires Valid() && NUL !in text && v <= history.count
      modifies this`length, this`cursor, this`view, line
      ensures Valid() && Abstract() == Show(old(Abstract()), text, v)
    {
      ShowKeeps(Abstract(), text, v);
      view := v;
      var _ := ReplaceInput(text);
    }

    method SaveDraft()
      requires Valid()
      modifies this`draft
      ensures Valid() && Abstract() == Saved(old(Abstract()))
    {
      assert line[..length] == TheLine().Text();
      if view == history.count {
        draft := line[..length];
      }
    }

    method UpKey()
      requires Valid()
      modifies this`length, this`cursor, this`draft, this`view, line
      ensures Valid() && Abstract() == GoUp(old(Abstract()))
    {
      if view == 0 {
        return;
      }
      SaveDraft();
      StepUp();
    }

    method StepUp()
      requires Valid() && view > 0
      modifies this`length, this`cursor, this`view, line
      ensures Valid() && Abstract() == old(Show(Abstract(), Abstract().history[view - 1], view - 1))
    {
      var text := PreviousText();
      ShowText(text, view - 1);
    }

    method PreviousText() returns (text: string)
      requires Valid() && view > 0
      ensures NUL !in text && text == Abstract().history[view - 1]
    {
      text := history.At(view - 1);
    }

    method NextText() returns (text: string)
      requires Valid() && view < history.count
      ensures NUL !in text && text == Following(Abstract())
    {
      text := draft;
      if view + 1 != history.count {
        text := history.At(view + 1);
      }
    }

    method DownKey()
      requires Valid()
      modifies this`length, this`cursor, this`view, line
      ensures Valid() && Abstract() == GoDown(old(Abstract()))
    {
      if view < history.count {
        var text := NextText();
        ShowText(text, view + 1);
      }
    }

    method EnterKey()
      requires Valid() && running
      modifies this`length, this`cursor, this`draft, this`view, line, history, history.slots, shell`session
      ensures Valid() && Abstract() == Submit(shell.oracle, old(Abstract()))
    {
      ghost var m := Abstract();
      var text := line[..length];
      assert text == m.line.Text();
      OfferedClean(m.history, text);
      history.Push(text);
      shell.RunShellLine(line, text);
      StartLine();
    }

    method StartLine()
      requires line.Length == LINE_CAPACITY
      modifies this`length, this`cursor, this`draft, this`view, line
      ensures Edited() && TheLine() == Line("", "") && draft == "" && view == history.count
    {
      length, cursor, draft, view := 0, 0, "", history.count;
      line[0] := NUL;
    }

    /** A key that stays on the line. */
    method EditKey(key: char)
      requires Valid() && running && key !in {NEWLINE, RETURN, UP, DOWN}
      modifies this`length, this`cursor, this`draft, this`view, this`running, line
      ensures Valid() && Abstract() == Press(shell.oracle, old(Abstract()), key)
    {
      ghost var m := Abstract();
      PressKeeps(shell.oracle, m, key);
      assert line[..length] == m.line.Text();
      var code := key as int;
      if code == 0x04 && length == 0 {
        running := false;
      } else if 32 <= code < 127 {
        PrintableKey(key);
      } else {
        MoveKey(key);
      }
    }

    /** One key, other than a tab. */
    method PressKey(key: char)
      requires Valid() && running && key != TAB
      modifies this, line, history, history.slots, shell`session
      ensures Valid() && Abstract() == Press(shell.oracle, old(Abstract()), key)
    {
      var code := key as int;
      if code == 0x0D || code == 0x0A {
        EnterKey();
      } else if code == 0x10 {
        UpKey();
      } else if code == 0x0E {
        DownKey();
      } else {
        EditKey(key);
      }
    }
  }
}
