/**
  The calendar of `cal`: Zeller's congruence against a count of days, and the grid of a
  month.  Sunday is column 0, and 1 January of year 1 is a Monday.
*/
module Cal {
  // ---------------------------------------------------------------- counting days

  predicate LeapYear(year: nat) {
    (year % 4 == 0 && year % 100 != 0) || year % 400 == 0
  }

  function DaysInMonth(month: nat, year: nat): (days: nat)
    ensures 28 <= days <= 31
  {
    if month == 2 then (if LeapYear(year) then 29 else 28)
    else if month == 4 || month == 6 || month == 9 || month == 11 then 30
    else 31
  }

  function DaysBeforeMonth(month: nat, year: nat): nat
    requires 1 <= month <= 12
  {
    if month == 1 then 0 else DaysBeforeMonth(month - 1, year) + DaysInMonth(month - 1, year)
  }

  function DaysInYear(year: nat): nat {
    if LeapYear(year) then 366 else 365
  }

  function DaysBeforeYear(year: nat): nat
    requires year >= 1
  {
    if year == 1 then 0 else DaysBeforeYear(year - 1) + DaysInYear(year - 1)
  }

  predicate Date(year: nat, month: nat, day: nat) {
    year >= 1 && 1 <= month <= 12 && 1 <= day <= DaysInMonth(month, year)
  }

  /** Days since 1 January of year 1. */
  function DayNumber(year: nat, month: nat, day: nat): nat
    requires Date(year, month, day)
  {
    DaysBeforeYear(year) + DaysBeforeMonth(month, year) + day - 1
  }

  function ZellerSum(y: nat, m: nat, day: nat): nat {
    var k, j := y % 100, y / 100;
    day + 13 * (m + 1) / 5 + k + k / 4 + j / 4 + 5 * j
  }

  /** Zeller's congruence, counted from Sunday. */
  function Weekday(year: nat, month: nat, day: nat): (w: nat)
    requires Date(year, month, day)
    ensures w < 7
  {
    var h := (if month < 3 then ZellerSum(year - 1, month + 12, day) else ZellerSum(year, month, day)) % 7;
    (h + 6) % 7
  }

  // ---------------------------------------------------------------- the congruence is right

  /** Leap days in the years 1 to y. */
  function Leaps(y: nat): nat {
    y / 4 - y / 100 + y / 400
  }

  lemma LeapStep(y: nat)
    requires y >= 1
    ensures Leaps(y) == Leaps(y - 1) + if LeapYear(y) then 1 else 0
  {
    Tick(y, 4);
    Tick(y, 100);
    Tick(y, 400);
    Centuries(y);
  }

  lemma Centuries(y: nat)
    ensures (y % 400 == 0 ==> y % 100 == 0) && (y % 100 == 0 ==> y % 4 == 0)
  {
    if y % 100 == 0 {
      assert y == 4 * (25 * (y / 100));
    }
    if y % 400 == 0 {
      assert y == 100 * (4 * (y / 400));
    }
  }

  lemma Tick(y: nat, n: nat)
    requires y >= 1 && n >= 1 && (n == 4 || n == 100 || n == 400)
    ensures y / n == (y - 1) / n + if y % n == 0 then 1 else 0
  {
  }

  function BeforeMonth(month: nat): nat
    requires 1 <= month <= 12
  {
    [0, 31, 59, 90, 120, 151, 181, 212, 243, 273, 304, 334][month - 1]
  }

  lemma {:induction false} MonthTable(month: nat, year: nat)
    requires 1 <= month <= 12
    ensures DaysBeforeMonth(month, year) == BeforeMonth(month) + if month > 2 && LeapYear(year) then 1 else 0
  {
    if month > 1 {
      MonthTable(month - 1, year);
    }
  }

  /** The months of a year add up to it. */
  lemma YearLength(year: nat)
    ensures DaysBeforeMonth(12, year) + DaysInMonth(12, year) == DaysInYear(year)
  {
    MonthTable(12, year);
  }

  /** The date after a date. */
  function Tomorrow(year: nat, month: nat, day: nat): (nat, nat, nat) {
    if day < DaysInMonth(month, year) then (year, month, day + 1)
    else if month < 12 then (year, month + 1, 1)
    else (year + 1, 1, 1)
  }

  /** The number of a day is a count: it goes up by one from date to date, across months and years. */
  lemma DaysCounted(year: nat, month: nat, day: nat)
    requires Date(year, month, day)
    ensures var t := Tomorrow(year, month, day);
      Date(t.0, t.1, t.2) && DayNumber(t.0, t.1, t.2) == DayNumber(year, month, day) + 1
  {
    YearLength(year);
  }

  lemma {:induction false} YearCount(year: nat)
    requires year >= 1
    ensures DaysBeforeYear(year) == 365 * (year - 1) + Leaps(year - 1)
  {
    if year > 1 {
      YearCount(year - 1);
      LeapStep(year - 1);
    }
  }

  /** The century terms count years and leap days, up to multiples of seven. */
  lemma CenturyTerms(y: nat)
    ensures var k, j := y % 100, y / 100; y + Leaps(y) == k + k / 4 + j / 4 + 5 * j + 7 * (17 * j)
  {
    var k, j := y % 100, y / 100;
    assert y == 100 * j + k;
    assert y / 4 == 25 * j + k / 4;
    assert y / 400 == j / 4;
  }

  /** The month term counts the days before the month, up to multiples of seven. */
  lemma MonthTerm(month: nat)
    requires 1 <= month <= 12
    ensures if month < 3 then (BeforeMonth(month) - 13 * (month + 13) / 5 - 6) % 7 == 0
            else (BeforeMonth(month) - 13 * (month + 1) / 5) % 7 == 0
  {
  }

  lemma ZellerTerms(y: nat, m: nat, day: nat)
    ensures ZellerSum(y, m, day) == day + 13 * (m + 1) / 5 + y + Leaps(y) - 119 * (y / 100)
  {
    CenturyTerms(y);
  }

  /** Counted from March, the leap day of a year comes last. */
  lemma DayCount(year: nat, month: nat, day: nat)
    requires Date(year, month, day)
    ensures 1 + DayNumber(year, month, day)
            == BeforeMonth(month) + day + 365 * (year - 1) + Leaps(if month < 3 then year - 1 else year)
  {
    YearCount(year);
    MonthTable(month, year);
    LeapStep(year);
  }

  lemma SameColumn(x: int, y: int, q: int)
    requires x == y + 7 * q
    ensures x % 7 == y % 7
  {
  }

  lemma Late(y: int, leaps: int, before: int, term: int, day: int, century: int)
    requires (before - term) % 7 == 0
    ensures (before + day + 365 * (y - 1) + leaps) % 7 == (day + term + y + leaps - 119 * century + 6) % 7
  {
    var q := (before - term) / 7;
    SameColumn(before + day + 365 * (y - 1) + leaps, day + term + y + leaps - 119 * century + 6,
      52 * y - 53 + 17 * century + q);
  }

  lemma Early(y: int, leaps: int, before: int, term: int, day: int, century: int)
    requires (before - term - 6) % 7 == 0
    ensures (before + day + 365 * y + leaps) % 7 == (day + term + y + leaps - 119 * century + 6) % 7
  {
    var q := (before - term - 6) / 7;
    SameColumn(before + day + 365 * y + leaps, day + term + y + leaps - 119 * century + 6, 52 * y + 17 * century + q);
  }

  lemma ModAdd(a: int, b: int)
    ensures (a % 7 + b) % 7 == (a + b) % 7
  {
    SameColumn(a + b, a % 7 + b, a / 7);
  }

  /** The weekday of every date is its day count modulo seven. */
  lemma WeekdayCounts(year: nat, month: nat, day: nat)
    requires Date(year, month, day)
    ensures Weekday(year, month, day) == (1 + DayNumber(year, month, day)) % 7
  {
    if month < 3 {
      EarlyMonth(year, month, day);
    } else {
      LateMonth(year, month, day);
    }
  }

  lemma EarlyMonth(year: nat, month: nat, day: nat)
    requires Date(year, month, day) && month < 3
    ensures Weekday(year, month, day) == (1 + DayNumber(year, month, day)) % 7
  {
    var y := year - 1;
    DayCount(year, month, day);
    MonthTerm(month);
    ZellerTerms(y, month + 12, day);
    Early(y, Leaps(y), BeforeMonth(month), 13 * (month + 13) / 5, day, y / 100);
    ModAdd(ZellerSum(y, month + 12, day), 6);
  }

  lemma LateMonth(year: nat, month: nat, day: nat)
    requires Date(year, month, day) && month >= 3
    ensures Weekday(year, month, day) == (1 + DayNumber(year, month, day)) % 7
  {
    DayCount(year, month, day);
    MonthTerm(month);
    ZellerTerms(year, month, day);
    Late(year, Leaps(year), BeforeMonth(month), 13 * (month + 1) / 5, day, year / 100);
    ModAdd(ZellerSum(year, month, day), 6);
  }

  lemma NextDay(year: nat, month: nat, day: nat)
    requires Date(year, month, day)
    ensures Date(year, month, 1) && (Weekday(year, month, 1) + day - 1) % 7 == Weekday(year, month, day)
  {
    var n := 1 + DayNumber(year, month, 1);
    WeekdayCounts(year, month, 1);
    WeekdayCounts(year, month, day);
    ModAdd(n, day - 1);
  }

  // ---------------------------------------------------------------- the grid

  const TITLE := "[cal] "

  function Digit(n: nat): char
    requires n < 10
  {
    (n + '0' as int) as char
  }

  /** A day in two columns, right aligned. */
  function DayText(day: nat): (s: string)
    requires 1 <= day < 100
    ensures |s| == 2 && s != "  "
  {
    if day < 10 then [' ', Digit(day)] else [Digit(day / 10), Digit(day % 10)]
  }

  function CellText(cell: nat, days: nat, first: nat): (s: string)
    requires days < 99
    ensures |s| == 2
  {
    if first <= cell < first + days then DayText(cell - first + 1) else "  "
  }

  /** Two different days look different. */
  lemma DayTextInjective(a: nat, b: nat)
    requires 1 <= a < 100 && 1 <= b < 100 && DayText(a) == DayText(b)
    ensures a == b
  {
  }

  /** Read as a number, with a blank for a zero, it is the day. */
  lemma DayTextReads(day: nat)
    requires 1 <= day < 100
    ensures var s := DayText(day); var tens := if s[0] == ' ' then 0 else s[0] as int - 48;
            0 <= tens < 10 && 48 <= s[1] as int < 58 && 10 * tens + (s[1] as int - 48) == day
  {
  }

  function Column(line: string, c: nat): string
    requires 8 + 3 * c <= |line|
  {
    line[6 + 3 * c..8 + 3 * c]
  }

  /** A printed row shows a cell in each of its seven columns. */
  predicate ShowsRow(line: string, start: nat, days: nat, first: nat)
    requires days < 99
  {
    |line| == 26 && forall c :: 0 <= c < 7 ==> Column(line, c) == CellText(start + c, days, first)
  }

  lemma AppendCell(line: string, text: string, column: nat)
    requires |line| == 6 + 3 * column && |text| == 2
    ensures Column(line + text, column) == text
    ensures forall c :: 0 <= c < column ==> Column(line + text, c) == Column(line, c)
  {
  }

  method EmitRow(start: nat, days: nat, first: nat) returns (line: string)
    requires days < 99
    ensures ShowsRow(line, start, days, first)
  {
    line := TITLE;
    for column := 0 to 7
      invariant |line| == if column == 0 then 6 else 5 + 3 * column
      invariant forall c :: 0 <= c < column ==> Column(line, c) == CellText(start + c, days, first)
    {
      if column != 0 {
        assert forall c :: 0 <= c < column ==> Column(line + " ", c) == Column(line, c);
        line := line + " ";
      }
      var cell := start + column;
      var text := "  ";
      if !(cell < first || cell >= first + days) {
        text := DayText(cell - first + 1);
      }
      AppendCell(line, text, column);
      line := line + text;
    }
  }

  /** Just enough rows, seven cells each. */
  ghost predicate Grid(rows: seq<string>, year: nat, month: nat)
    requires year >= 1 && 1 <= month <= 12
  {
    var days, first := DaysInMonth(month, year), Weekday(year, month, 1);
    && 7 * (|rows| - 1) < days + first <= 7 * |rows|
    && forall r :: 0 <= r < |rows| ==> ShowsRow(rows[r], 7 * r, days, first)
  }

  method PrintMonth(year: nat, month: nat) returns (rows: seq<string>)
    requires year >= 1 && 1 <= month <= 12
    ensures Grid(rows, year, month)
  {
    var first, days := Weekday(year, month, 1), DaysInMonth(month, year);
    var start := 0;
    rows := [];
    while start < days + first
      invariant start == 7 * |rows| && start < days + first + 7
      invariant forall r :: 0 <= r < |rows| ==> ShowsRow(rows[r], 7 * r, days, first)
    {
      var row := EmitRow(start, days, first);
      rows := rows + [row];
      start := start + 7;
    }
  }

  /** The grid shows each day of the month in one place only: the column of its weekday. */
  lemma EachDayOnce(rows: seq<string>, year: nat, month: nat, day: nat, r: nat, c: nat)
    requires year >= 1 && 1 <= month <= 12 && Grid(rows, year, month) && Date(year, month, day) && r < |rows| && c < 7
    ensures Column(rows[r], c) == DayText(day) <==>
            c == Weekday(year, month, day) && r == (Weekday(year, month, 1) + day - 1) / 7
  {
    var days, first := DaysInMonth(month, year), Weekday(year, month, 1);
    NextDay(year, month, day);
    assert ShowsRow(rows[r], 7 * r, days, first);
    ShowsDay(7 * r + c, days, first, day);
    Place(first + day - 1, r, c);
  }

  lemma ShowsDay(cell: nat, days: nat, first: nat, day: nat)
    requires 1 <= day <= days < 99
    ensures CellText(cell, days, first) == DayText(day) <==> cell == first + day - 1
  {
    if first <= cell < first + days && DayText(cell - first + 1) == DayText(day) {
      DayTextInjective(cell - first + 1, day);
    }
  }

  lemma Place(cell: nat, r: nat, c: nat)
    requires c < 7
    ensures 7 * r + c == cell <==> c == cell % 7 && r == cell / 7
  {
  }

  /** The place of a day is on the grid. */
  lemma EachDayShown(rows: seq<string>, year: nat, month: nat, day: nat)
    requires year >= 1 && 1 <= month <= 12 && Grid(rows, year, month) && Date(year, month, day)
    ensures var r := (Weekday(year, month, 1) + day - 1) / 7;
            r < |rows| && |rows[r]| == 26 && Column(rows[r], Weekday(year, month, day)) == DayText(day)
  {
    var r := (Weekday(year, month, 1) + day - 1) / 7;
    assert r < |rows|;
    EachDayOnce(rows, year, month, day, r, Weekday(year, month, day));
  }
}
