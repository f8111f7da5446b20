/**
  The shell's command lists: a line is cut in place at `;`, `&&` and `||`, and each
  segment runs or is skipped depending on the status so far.  Running a segment is an
  oracle from the session so far and the text to the new status.
*/
module ShellLine {
  datatype Connector = Always | And | Or

  datatype Item = Item(connector: Connector, text: string)

  /** The last status and everything that was run. */
  datatype Session = Session(status: nat, ran: seq<string>)

  type Oracle = (Session, string) -> nat

  function Run(o: Oracle, s: Session, text: string): Session {
    Session(o(s, text), s.ran + [text])
  }

  predicate Admits(c: Connector, status: nat) {
    match c
    case Always => true
    case And => status == 0
    case Or => status != 0
  }

  // ---------------------------------------------------------------- cutting a line

  predicate IsGap(c: char) {
    c == ' ' || c == '\t' || c == ';'
  }

  function SkipGaps(t: string): (u: string)
    ensures |u| <= |t| && (u != [] ==> !IsGap(u[0]))
  {
    if t != [] && IsGap(t[0]) then SkipGaps(t[1..]) else t
  }

  /** Whether a separator starts the text, and how long it is. */
  function Separator(t: string): (width: nat)
    ensures width <= 2 && width <= |t|
  {
    if t == [] then 0
    else if t[0] == ';' then 1
    else if |t| > 1 && t[0] == t[1] && (t[0] == '&' || t[0] == '|') then 2
    else 0
  }

  function Next(t: string): Connector {
    if Separator(t) != 2 then Always else if t[0] == '&' then And else Or
  }

  /** The length of the text before the first separator. */
  function SegmentLength(t: string): (n: nat)
    ensures n <= |t|
  {
    if t == [] || Separator(t) != 0 then 0 else 1 + SegmentLength(t[1..])
  }

  /** The first segment of a text, the text from its separator on, and the text beyond that. */
  function Segment(t: string): string {
    t[..SegmentLength(t)]
  }

  function Rest(t: string): string {
    t[SegmentLength(t)..]
  }

  function Beyond(t: string): string {
    Rest(t)[Separator(Rest(t))..]
  }

  lemma {:induction false} StopsAt(t: string)
    ensures Rest(t) == [] || Separator(Rest(t)) != 0
    decreases |t|
  {
    if t != [] && Separator(t) == 0 {
      assert Rest(t) == Rest(t[1..]);
      StopsAt(t[1..]);
    }
  }

  lemma {:induction false} BeyondShrinks(t: string)
    requires t != [] && !IsGap(t[0])
    ensures |Beyond(t)| < |t|
  {
    if Separator(t) == 0 {
      assert |Beyond(t)| <= |Rest(t)| < |t|;
    } else {
      assert Rest(t) == t;
    }
  }

  /** The segments of a line, each with the connector in front of it. */
  function Parse(c: Connector, t: string): seq<Item>
    decreases |t|
  {
    var u := SkipGaps(t);
    if u == [] then []
    else
      BeyondShrinks(u);
      [Item(c, Segment(u))] + Parse(Next(Rest(u)), Beyond(u))
  }

  /** Runs or skips segment after segment; a skipped one leaves the session as it is. */
  function Evaluate(o: Oracle, items: seq<Item>, s: Session): Session
    decreases |items|
  {
    if items == [] then s
    else Evaluate(o, items[1..], if Admits(items[0].connector, s.status) then Run(o, s, items[0].text) else s)
  }

  // ---------------------------------------------------------------- command lists as trees

  /** A left-associative AND-OR list; each command comes with the blanks written before it. */
  datatype AndOr = Command(pad: string, text: string)
                 | AndThen(left: AndOr, pad: string, text: string)
                 | OrElse(left: AndOr, pad: string, text: string)

  function EvalAndOr(o: Oracle, a: AndOr, s: Session): Session {
    match a
    case Command(_, text) => Run(o, s, text)
    case AndThen(left, _, text) =>
      var m := EvalAndOr(o, left, s);
      if m.status == 0 then Run(o, m, text) else m
    case OrElse(left, _, text) =>
      var m := EvalAndOr(o, left, s);
      if m.status == 0 then m else Run(o, m, text)
  }

  function EvalList(o: Oracle, list: seq<AndOr>, s: Session): Session
    decreases |list|
  {
    if list == [] then s else EvalList(o, list[1..], EvalAndOr(o, list[0], s))
  }

  function Print(a: AndOr): string {
    match a
    case Command(pad, text) => pad + text
    case AndThen(left, pad, text) => Print(left) + ("&&" + (pad + text))
    case OrElse(left, pad, text) => Print(left) + ("||" + (pad + text))
  }

  function PrintList(list: seq<AndOr>): string {
    if list == [] then "" else if |list| == 1 then Print(list[0]) else Print(list[0]) + (";" + PrintList(list[1..]))
  }

  /** A pad is blank; a command starts with something else and has no `;`, `&&` or `||` in it. */
  predicate Word(pad: string, text: string) {
    && (forall i :: 0 <= i < |pad| ==> pad[i] == ' ' || pad[i] == '\t' || pad[i] == ';')
    && text != [] && text[0] != ' ' && text[0] != '\t' && Unseparated(text)
  }

  predicate Unseparated(text: string) {
    forall i :: 0 <= i < |text| ==> !CutAt(text, i)
  }

  /** One of `;`, `&&` and `||` stands at a place. */
  predicate CutAt(text: string, i: nat)
    requires i < |text|
  {
    text[i] == ';' || (i + 1 < |text| && text[i] == text[i + 1] && (text[i] == '&' || text[i] == '|'))
  }

  /** No separator would start in the last character of the command when `rest` follows it. */
  predicate Meets(text: string, rest: string) {
    text != [] && rest != [] ==> rest[0] == ';' || text[|text| - 1] != rest[0]
  }

  predicate WellFormed(a: AndOr) {
    match a
    case Command(pad, text) => Word(pad, text)
    case AndThen(left, pad, text) => WellFormed(left) && Word(pad, text) && Meets(Last(left), "&&")
    case OrElse(left, pad, text) => WellFormed(left) && Word(pad, text) && Meets(Last(left), "||")
  }

  function Last(a: AndOr): string {
    a.text
  }

  /** The commands of a list in order, with connectors. */
  function Flatten(c: Connector, a: AndOr): seq<Item> {
    match a
    case Command(_, text) => [Item(c, text)]
    case AndThen(left, _, text) => Flatten(c, left) + [Item(And, text)]
    case OrElse(left, _, text) => Flatten(c, left) + [Item(Or, text)]
  }

  function FlattenList(list: seq<AndOr>): seq<Item> {
    if list == [] then [] else Flatten(Always, list[0]) + FlattenList(list[1..])
  }

  // ---------------------------------------------------------------- where a line is cut

  lemma CutAtSuffix(t: string, i: nat, k: nat)
    requires i + k < |t|
    ensures CutAt(t[k..], i) == CutAt(t, i + k)
  {
  }

  lemma CutAtStart(t: string)
    requires t != []
    ensures CutAt(t, 0) <==> Separator(t) != 0
  {
  }

  /** A segment ends at the first `;`, `&&` or `||`, and nowhere else. */
  lemma {:induction false} SegmentEnds(t: string)
    ensures SegmentLength(t) < |t| ==> CutAt(t, SegmentLength(t))
    ensures forall i :: 0 <= i < SegmentLength(t) ==> !CutAt(t, i)
    decreases |t|
  {
    if t != [] {
      CutAtStart(t);
      if Separator(t) == 0 {
        SegmentEnds(t[1..]);
        if SegmentLength(t) < |t| {
          CutAtSuffix(t, SegmentLength(t) - 1, 1);
        }
        forall i | 0 <= i < SegmentLength(t) ensures !CutAt(t, i) {
          if i > 0 {
            CutAtSuffix(t, i - 1, 1);
          }
        }
      }
    }
  }

  lemma UnseparatedIsWhole(text: string)
    requires Unseparated(text)
    ensures SegmentLength(text) == |text|
  {
    SegmentEnds(text);
  }

  // ---------------------------------------------------------------- parsing what was printed

  lemma {:induction false} SkipPad(pad: string, t: string)
    requires (forall i :: 0 <= i < |pad| ==> IsGap(pad[i])) && t != [] && !IsGap(t[0])
    ensures SkipGaps(pad + t) == t
  {
    if pad == [] {
      assert pad + t == t;
    } else {
      assert (pad + t)[1..] == pad[1..] + t;
      SkipPad(pad[1..], t);
    }
  }

  lemma {:induction false} SegmentIs(text: string, rest: string)
    requires SegmentLength(text) == |text| && Meets(text, rest) && (rest == [] || Separator(rest) != 0)
    ensures SegmentLength(text + rest) == |text|
  {
    if text == [] {
      assert text + rest == rest;
    } else {
      assert (text + rest)[1..] == text[1..] + rest;
      SegmentIs(text[1..], rest);
    }
  }

  /** What is parsed after a separator. */
  function After(rest: string): seq<Item> {
    if rest == [] then [] else Parse(Next(rest), rest[Separator(rest)..])
  }

  lemma NoGapAhead(text: string)
    requires text != [] && Unseparated(text) && text[0] != ' ' && text[0] != '\t'
    ensures !IsGap(text[0])
  {
    assert !CutAt(text, 0);
  }

  lemma ParseWord(c: Connector, pad: string, text: string, rest: string)
    requires Word(pad, text) && Meets(text, rest) && (rest == [] || Separator(rest) != 0)
    ensures Parse(c, pad + text + rest) == [Item(c, text)] + After(rest)
  {
    var t := text + rest;
    assert pad + text + rest == pad + t;
    NoGapAhead(text);
    SkipPad(pad, t);
    UnseparatedIsWhole(text);
    SegmentIs(text, rest);
    assert t[..|text|] == text && t[|text|..] == rest;
  }

  lemma {:induction false} ParseAndOr(c: Connector, a: AndOr, rest: string)
    requires WellFormed(a) && Meets(Last(a), rest) && (rest == [] || Separator(rest) != 0)
    ensures Parse(c, Print(a) + rest) == Flatten(c, a) + After(rest)
    decreases a, 0
  {
    match a
    case Command(pad, text) => ParseWord(c, pad, text, rest);
    case AndThen(left, pad, text) => ParseJoined(c, left, "&&", pad, text, rest);
    case OrElse(left, pad, text) => ParseJoined(c, left, "||", pad, text, rest);
  }

  lemma {:induction false} ParseJoined(c: Connector, left: AndOr, op: string, pad: string, text: string, rest: string)
    requires WellFormed(left) && (op == "&&" || op == "||") && Meets(Last(left), op)
    requires Word(pad, text) && Meets(text, rest) && (rest == [] || Separator(rest) != 0)
    ensures Parse(c, Print(left) + (op + (pad + text)) + rest)
            == Flatten(c, left) + [Item(Next(op), text)] + After(rest)
    decreases left, 1
  {
    var tail := op + (pad + text + rest);
    assert Print(left) + (op + (pad + text)) + rest == Print(left) + tail;
    assert tail[2..] == pad + text + rest;
    ParseAndOr(c, left, tail);
    assert After(tail) == Parse(Next(op), pad + text + rest);
    ParseWord(Next(op), pad, text, rest);
    Regroup(Flatten(c, left), [Item(Next(op), text)], After(rest));
  }

  lemma Regroup(a: seq<Item>, b: seq<Item>, c: seq<Item>)
    ensures a + (b + c) == a + b + c
  {
  }

  predicate WellFormedList(list: seq<AndOr>) {
    forall i :: 0 <= i < |list| ==> WellFormed(list[i])
  }

  lemma {:induction false} ParseList(list: seq<AndOr>)
    requires WellFormedList(list)
    ensures Parse(Always, PrintList(list)) == FlattenList(list)
  {
    if |list| == 1 {
      assert Print(list[0]) + "" == Print(list[0]);
      ParseAndOr(Always, list[0], "");
    } else if |list| > 1 {
      var rest := PrintList(list[1..]);
      assert (";" + rest)[1..] == rest;
      ParseAndOr(Always, list[0], ";" + rest);
      ParseList(list[1..]);
    }
  }

  lemma {:induction false} EvaluateAppend(o: Oracle, a: seq<Item>, b: seq<Item>, s: Session)
    ensures Evaluate(o, a + b, s) == Evaluate(o, b, Evaluate(o, a, s))
    decreases |a|
  {
    if a == [] {
      assert a + b == b;
    } else {
      var next := if Admits(a[0].connector, s.status) then Run(o, s, a[0].text) else s;
      assert (a + b)[1..] == a[1..] + b;
      EvaluateAppend(o, a[1..], b, next);
    }
  }

  lemma {:induction false} EvaluateAndOr(o: Oracle, a: AndOr, s: Session)
    ensures Evaluate(o, Flatten(Always, a), s) == EvalAndOr(o, a, s)
  {
    match a
    case Command(_, _) =>
    case AndThen(left, _, text) =>
      EvaluateAndOr(o, left, s);
      EvaluateAppend(o, Flatten(Always, left), [Item(And, text)], s);
    case OrElse(left, _, text) =>
      EvaluateAndOr(o, left, s);
      EvaluateAppend(o, Flatten(Always, left), [Item(Or, text)], s);
  }

  lemma {:induction false} EvaluateList(o: Oracle, list: seq<AndOr>, s: Session)
    ensures Evaluate(o, FlattenList(list), s) == EvalList(o, list, s)
    decreases |list|
  {
    if list != [] {
      EvaluateAndOr(o, list[0], s);
      EvaluateAppend(o, Flatten(Always, list[0]), FlattenList(list[1..]), s);
      EvaluateList(o, list[1..], EvalAndOr(o, list[0], s));
    }
  }

  /** A printed command list runs as its left-associative AND-OR lists, one after the other. */
  lemma PrintedListRuns(o: Oracle, list: seq<AndOr>, s: Session)
    requires WellFormedList(list)
    ensures Evaluate(o, Parse(Always, PrintList(list)), s) == EvalList(o, list, s)
  {
    ParseList(list);
    EvaluateList(o, list, s);
  }

  lemma {:induction false} GapsPassed(pad: string, t: string)
    requires forall i :: 0 <= i < |pad| ==> IsGap(pad[i])
    ensures SkipGaps(pad + t) == SkipGaps(t)
  {
    if pad == [] {
      assert pad + t == t;
    } else {
      assert (pad + t)[1..] == pad[1..] + t;
      GapsPassed(pad[1..], t);
    }
  }

  /** Semicolons in front of a segment do not end the connector before it. */
  lemma GapsKeepConnector(c: Connector, pad: string, t: string)
    requires forall i :: 0 <= i < |pad| ==> IsGap(pad[i])
    ensures Parse(c, pad + t) == Parse(c, t)
  {
    GapsPassed(pad, t);
  }

  lemma ParseOne(c: Connector, text: string)
    requires Word("", text)
    ensures Parse(c, text) == [Item(c, text)]
  {
    assert "" + text + "" == text;
    ParseWord(c, "", text, "");
  }

  lemma ParseBeforeAnd(c: Connector, text: string, t: string)
    requires Word("", text) && text[|text| - 1] != '&'
    ensures Parse(c, text + ("&&" + t)) == [Item(c, text)] + Parse(And, t)
  {
    var rest := "&&" + t;
    assert rest[2..] == t && "" + text + rest == text + rest;
    ParseWord(c, "", text, rest);
  }

  /** A command after `&& ;` is still conditional. */
  lemma ConditionalAcrossGap(a: string, b: string)
    requires Word("", a) && Word("", b) && a[|a| - 1] != '&'
    ensures Parse(Always, a + ("&&" + (";" + b))) == [Item(Always, a), Item(And, b)]
  {
    ParseBeforeAnd(Always, a, ";" + b);
    GapsKeepConnector(And, ";", b);
    ParseOne(And, b);
  }

  lemma StillConditional()
    ensures Parse(Always, "a&&;b") == [Item(Always, "a"), Item(And, "b")]
  {
    assert "a&&;b" == "a" + ("&&" + (";" + "b"));
    assert "a"[1..] == "" && "b"[1..] == "";
    ConditionalAcrossGap("a", "b");
  }

  // ---------------------------------------------------------------- the shell

  const NUL := '\0'

  /** A buffer holds a text: the text, a NUL after it and none inside. */
  ghost predicate Holds(line: array<char>, text: string)
    reads line
  {
    |text| < line.Length && line[..|text|] == text && line[|text|] == NUL && NUL !in text
  }

  /** The text is still in the buffer from `at` on. */
  ghost predicate Left(line: array<char>, text: string, at: nat)
    reads line
  {
    && at <= |text| < line.Length && line[|text|] == NUL && NUL !in text
    && forall i :: at <= i < |text| ==> line[i] == text[i]
  }

  ghost predicate Terminated(line: array<char>, start: nat, text: string)
    reads line
  {
    start + |text| < line.Length && line[start..start + |text|] == text && line[start + |text|] == NUL && NUL !in text
  }

  method PassGaps(line: array<char>, start: nat, ghost text: string) returns (cursor: nat)
    requires Left(line, text, start)
    ensures start <= cursor <= |text| && text[cursor..] == SkipGaps(text[start..])
  {
    cursor := start;
    while IsGap(line[cursor])
      invariant start <= cursor <= |text| && SkipGaps(text[cursor..]) == SkipGaps(text[start..])
      decreases |text| - cursor
    {
      assert cursor < |text| && text[cursor..][0] == line[cursor];
      assert text[cursor..][1..] == text[cursor + 1..];
      cursor := cursor + 1;
    }
    assert cursor < |text| ==> text[cursor..][0] == line[cursor];
  }

  /** Finds the separator that ends the segment at `start`, or the NUL. */
  method FindEnd(line: array<char>, start: nat, ghost text: string) returns (end: nat)
    requires Left(line, text, start)
    ensures start <= end <= |text| && end - start == SegmentLength(text[start..])
  {
    end := start;
    while line[end] != NUL
      invariant start <= end <= |text| && SegmentLength(text[start..]) == end - start + SegmentLength(text[end..])
      decreases |text| - end
    {
      ghost var rest := text[end..];
      assert line[end] == rest[0] && rest[1..] == text[end + 1..];
      assert |rest| > 1 ==> line[end + 1] == rest[1];
      if line[end] == ';' || (line[end] == line[end + 1] && (line[end] == '&' || line[end] == '|')) {
        return;
      }
      end := end + 1;
    }
  }

  /** Ends the segment at `start` with a NUL over its separator, and steps over that. */
  method CutSegment(line: array<char>, start: nat, ghost text: string) returns (cursor: nat, next: Connector)
    requires Left(line, text, start)
    modifies line
    ensures cursor <= |text| && text[cursor..] == Beyond(text[start..]) && next == Next(Rest(text[start..]))
    ensures Terminated(line, start, Segment(text[start..])) && Left(line, text, cursor)
  {
    var end := FindEnd(line, start, text);
    CutParts(text, start, end);
    cursor, next := end, Always;
    if line[end] != NUL {
      AtSeparator(line, text, end);
      if line[end] == ';' {
        cursor := end + 1;
      } else {
        next := if line[end] == '&' then And else Or;
        cursor := end + 2;
      }
      line[end] := NUL;
    }
  }

  /** What the place of the first separator says about the parts of a text. */
  lemma CutParts(text: string, start: nat, end: nat)
    requires start <= end <= |text| && end - start == SegmentLength(text[start..])
    ensures Segment(text[start..]) == text[start..end] && Next(Rest(text[start..])) == Next(text[end..])
    ensures end == |text| || Separator(text[end..]) != 0
    ensures Beyond(text[start..]) == text[end + Separator(text[end..])..]
  {
    StopsAt(text[start..]);
    assert Rest(text[start..]) == text[end..];
  }

  /** The buffer shows which separator it is. */
  lemma AtSeparator(line: array<char>, text: string, end: nat)
    requires Left(line, text, end) && end < |text| && Separator(text[end..]) != 0
    ensures line[end] == text[end] && Separator(text[end..]) == if line[end] == ';' then 1 else 2
    ensures line[end] != ';' ==> Next(text[end..]) == if line[end] == '&' then And else Or
  {
    assert text[end..][0] == text[end];
  }

  class Shell {
    const oracle: Oracle
    var session: Session

    constructor (o: Oracle, s: Session)
      ensures oracle == o && session == s
    {
      oracle, session := o, s;
    }

    /** Runs the text from `start` up to the next NUL. */
    method RunSegment(line: array<char>, start: nat, ghost text: string)
      requires Terminated(line, start, text)
      modifies this`session
      ensures session == Run(oracle, old(session), text)
    {
      var end := start;
      while line[end] != NUL
        invariant start <= end <= start + |text|
        decreases start + |text| - end
      {
        assert text[end - start] == line[end];
        end := end + 1;
      }
      session := Session(oracle(session, line[start..end]), session.ran + [line[start..end]]);
    }

    /** Every line runs as its parsed segments do, whatever it holds. */
    method RunShellLine(line: array<char>, ghost text: string)
      requires Holds(line, text)
      modifies this`session, line
      ensures session == Evaluate(oracle, Parse(Always, text), old(session))
    {
      var cursor, connector := 0, Always;
      assert text[0..] == text;
      while true
        invariant Left(line, text, cursor)
        invariant Evaluate(oracle, Parse(connector, text[cursor..]), session)
                  == Evaluate(oracle, Parse(Always, text), old(session))
        decreases |text| - cursor
      {
        var segment := PassGaps(line, cursor, text);
        if line[segment] == NUL {
          assert segment == |text|;
          return;
        }
        ghost var u := text[segment..];
        StepLine(oracle, connector, session, text[cursor..], u);
        BeyondShrinks(u);
        var next;
        cursor, next := CutSegment(line, segment, text);
        if Admits(connector, session.status) {
          RunSegment(line, segment, Segment(u));
        }
        connector := next;
      }
    }
  }

  lemma StepLine(o: Oracle, c: Connector, s: Session, t: string, u: string)
    requires u == SkipGaps(t) && u != []
    ensures Evaluate(o, Parse(c, t), s)
            == Evaluate(o, Parse(Next(Rest(u)), Beyond(u)), if Admits(c, s.status) then Run(o, s, Segment(u)) else s)
  {
    var rest := Parse(Next(Rest(u)), Beyond(u));
    assert Parse(c, t) == [Item(c, Segment(u))] + rest;
    assert Parse(c, t)[1..] == rest;
  }
}
