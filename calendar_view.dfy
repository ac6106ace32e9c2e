/**
 * The month view of the diary: a 7-column grid whose row 0 holds the weekday
 * headers and whose later rows hold one button per day of the chosen month.
 * Clicking a day button opens the diary editor for that date.
 */
module Calendar {
  import opened Wrappers
  import opened JavaText
  import opened Gregorian

  /** Column headers, left to right: Monday ... Sunday. */
  const WeekdayHeaders: seq<string> := ["一", "二", "三", "四", "五", "六", "日"]

  /** What the grid holds: a bold header label, or a day button whose click handler remembers the year and month. */
  datatype Node = Label(text: string) | DayButton(text: string, year: int, month: int)

  /** A node added to the grid at a column and a row. */
  datatype Placement = Placement(node: Node, col: int, row: int)

  /** The grid pane, as the list of its children in the order they were added. */
  class GridPane {
    var children: seq<Placement>

    constructor ()
      ensures children == []
    {
      children := [];
    }

    method Clear()
      modifies this
      ensures children == []
    {
      children := [];
    }

    method Add(node: Node, col: int, row: int)
      modifies this
      ensures children == old(children) + [Placement(node, col, row)]
    {
      children := children + [Placement(node, col, row)];
    }
  }

  /** The column of the 1st: the ISO weekday number modulo 7, so Sunday is 0 and Monday is 1. */
  function StartColumn(isoDay: int): (c: int)
    requires 1 <= isoDay <= 7
    ensures 0 <= c <= 6
    ensures c == 0 <==> isoDay == 7
    ensures isoDay < 7 ==> c == isoDay
  {
    isoDay % 7
  }

  /** Where day `d` goes when the 1st goes in column `dow` of row 1. */
  function DayColumn(dow: int, d: int): int {
    (dow + d - 1) % 7
  }

  function DayRow(dow: int, d: int): int {
    1 + (dow + d - 1) / 7
  }

  /** The header row as it is added: label `i` at column `i` of row 0. */
  function HeaderCells(): (cells: seq<Placement>)
    ensures |cells| == 7
    ensures forall i :: 0 <= i < 7 ==> cells[i].node.Label? && cells[i].col == i && cells[i].row == 0
  {
    seq(7, i requires 0 <= i < 7 => Placement(Label(WeekdayHeaders[i]), i, 0))
  }

  /** The day buttons as they are added: day `i + 1` at index `i`. */
  function DayCells(year: int, month: int, dow: int, total: nat): (cells: seq<Placement>)
    ensures |cells| == total
    ensures forall i :: 0 <= i < total ==> cells[i].node == DayButton(IntToString(i + 1), year, month)
    ensures forall i :: 0 <= i < total ==> 0 <= cells[i].col <= 6 && (0 <= dow ==> 1 <= cells[i].row)
  {
    seq(total, i => Placement(DayButton(IntToString(i + 1), year, month), DayColumn(dow, i + 1), DayRow(dow, i + 1)))
  }

  /** The grid's children after the month `year-month` has been laid out. */
  function Layout(year: int, month: int): (cells: seq<Placement>)
    requires 1 <= month <= 12
    ensures |cells| == 7 + LengthOfMonth(year, month)
    ensures forall k :: 7 <= k < |cells| ==> cells[k].node == DayButton(IntToString(k - 6), year, month)
  {
    HeaderCells() + DayCells(year, month, StartColumn(IsoDayOfWeek(year, month, 1)), LengthOfMonth(year, month))
  }

  /** `String.format("%04d-%02d-%02d", year, month, day)`. */
  function FormatDate(year: int, month: int, day: int): (s: string)
    ensures |s| >= 10
    ensures 0 <= year && 0 <= month && 0 <= day ==> forall i :: 0 <= i < |s| ==> IsDigit(s[i]) || s[i] == '-'
  {
    var y, m, d := FormatZeroPadded(year, 4), FormatZeroPadded(month, 2), FormatZeroPadded(day, 2);
    JoinedByDashes(y, m, d);
    y + "-" + m + "-" + d
  }

  /** Digit strings joined by dashes hold only digits and dashes. */
  lemma JoinedByDashes(y: string, m: string, d: string)
    ensures AllDigits(y) && AllDigits(m) && AllDigits(d) ==>
      forall i :: 0 <= i < |y + "-" + m + "-" + d| ==> IsDigit((y + "-" + m + "-" + d)[i]) || (y + "-" + m + "-" + d)[i] == '-'
  {
    var s := y + "-" + m + "-" + d;
    forall i | 0 <= i < |s|
      ensures s[i] == if i < |y| then y[i] else if i == |y| then '-'
        else if i < |y| + 1 + |m| then m[i - |y| - 1] else if i == |y| + 1 + |m| then '-' else d[i - |y| - |m| - 2]
    {
    }
  }

  /**
   * The date a click on `node` opens: the handler parses the button's own text
   * with `Integer.parseInt` (`None`: it throws) and formats the date. Labels have no handler.
   */
  function ClickedDate(node: Node): (r: Option<string>)
    ensures r.Some? <==> node.DayButton? && ParseInt(node.text).Some?
    ensures r.Some? ==> r.value == FormatDate(node.year, node.month, ParseInt(node.text).value)
  {
    match node
    case Label(_) => None
    case DayButton(text, year, month) =>
      match ParseInt(text)
      case None => None
      case Some(day) => Some(FormatDate(year, month, day))
  }

  /** Clears the grid, adds the seven headers, then places the days of the month. */
  method BuildCalendar(year: int, month: int, grid: GridPane)
    requires MinYear <= year <= MaxYear && 1 <= month <= 12
    modifies grid
    ensures grid.children == Layout(year, month)
  {
    grid.Clear();
    for i := 0 to 7
      invariant grid.children == HeaderCells()[..i]
    {
      grid.Add(Label(WeekdayHeaders[i]), i, 0);
      assert HeaderCells()[..i + 1] == HeaderCells()[..i] + [HeaderCells()[i]];
    }
    assert HeaderCells()[..7] == HeaderCells();

    var dow := StartColumn(IsoDayOfWeek(year, month, 1));
    var total := LengthOfMonth(year, month);
    var col, row := dow, 1;
    for d := 1 to total + 1
      invariant col == DayColumn(dow, d) && row == DayRow(dow, d)
      invariant grid.children == HeaderCells() + DayCells(year, month, dow, total)[..d - 1]
    {
      grid.Add(DayButton(IntToString(d), year, month), col, row);
      DayCellsPrefix(year, month, dow, total, d);
      NextCell(dow, d);
      col := col + 1;
      if col > 6 {
        col := 0;
        row := row + 1;
      }
    }
    assert DayCells(year, month, dow, total)[..total] == DayCells(year, month, dow, total);
  }

  /** The year choices: the current year and two on either side, in increasing order. */
  method YearOptions(currentYear: int) returns (years: seq<int>)
    ensures |years| == 5
    ensures forall i :: 0 <= i < |years| ==> years[i] == currentYear - 2 + i
    ensures forall y :: y in years <==> currentYear - 2 <= y <= currentYear + 2
  {
    years := [];
    for y := currentYear - 2 to currentYear + 3
      invariant |years| == y - (currentYear - 2)
      invariant forall i :: 0 <= i < |years| ==> years[i] == currentYear - 2 + i
    {
      years := years + [y];
    }
    forall y | currentYear - 2 <= y <= currentYear + 2 ensures y in years {
      assert years[y - (currentYear - 2)] == y;
    }
  }

  /** The month choices: 1 to 12 in order. */
  method MonthOptions() returns (months: seq<int>)
    ensures |months| == 12
    ensures forall i :: 0 <= i < |months| ==> months[i] == i + 1
    ensures forall m :: m in months <==> 1 <= m <= 12
  {
    months := [];
    for m := 1 to 13
      invariant |months| == m - 1
      invariant forall i :: 0 <= i < |months| ==> months[i] == i + 1
    {
      months := months + [m];
    }
    forall m | 1 <= m <= 12 ensures m in months {
      assert months[m - 1] == m;
    }
  }

  /**
   * Opening the calendar. The clock is read three times: the year once, and the
   * month once for the preselected choice and once more for the grid. The three
   * readings are parameters, so a month or year boundary passing between them is
   * visible: the grid shows `clockYear-gridMonth`, which need not be the
   * preselected `clockYear-selectedMonth`.
   */
  method Show(clockYear: int, selectedMonth: int, gridMonth: int, grid: GridPane)
    returns (years: seq<int>, months: seq<int>, year: int, month: int)
    requires MinYear <= clockYear <= MaxYear && 1 <= selectedMonth <= 12 && 1 <= gridMonth <= 12
    modifies grid
    ensures |years| == 5 && forall i :: 0 <= i < 5 ==> years[i] == clockYear - 2 + i
    ensures |months| == 12 && forall i :: 0 <= i < 12 ==> months[i] == i + 1
    ensures year == clockYear && year in years
    ensures month == selectedMonth && month in months
    ensures grid.children == Layout(clockYear, gridMonth)
  {
    years := YearOptions(clockYear);
    year := clockYear;
    months := MonthOptions();
    month := selectedMonth;
    BuildCalendar(clockYear, gridMonth, grid);
  }

  lemma DayCellsPrefix(year: int, month: int, dow: int, total: nat, d: int)
    requires 1 <= d <= total
    ensures DayCells(year, month, dow, total)[..d]
         == DayCells(year, month, dow, total)[..d - 1] + [Placement(DayButton(IntToString(d), year, month), DayColumn(dow, d), DayRow(dow, d))]
  {
  }

  /** After day `d`, the next cell is one column to the right, or column 0 of the next row after column 6. */
  lemma NextCell(dow: int, d: int)
    requires 0 <= dow <= 6 && d >= 1
    ensures DayColumn(dow, d) < 6 ==> DayColumn(dow, d + 1) == DayColumn(dow, d) + 1 && DayRow(dow, d + 1) == DayRow(dow, d)
    ensures DayColumn(dow, d) == 6 ==> DayColumn(dow, d + 1) == 0 && DayRow(dow, d + 1) == DayRow(dow, d) + 1
  {
    var k := dow + d - 1;
    var q, r := k / 7, k % 7;
    assert k == 7 * q + r && 0 <= r < 7;
    if r < 6 {
      assert k + 1 == 7 * q + (r + 1);
    } else {
      assert k + 1 == 7 * (q + 1);
    }
  }

  /**
   * Every day 1..total is placed, once, in increasing order: the button at index
   * `i` reads back as day `i + 1`, so no two buttons carry the same day.
   */
  lemma DaysPlacedInOrder(year: int, month: int, dow: int, total: nat)
    requires total <= 31
    ensures var cells := DayCells(year, month, dow, total);
      && |cells| == total
      && (forall i :: 0 <= i < |cells| ==> cells[i].node.DayButton? && ParseInt(cells[i].node.text) == Some(i + 1))
      && (forall i, j :: 0 <= i < |cells| && 0 <= j < |cells| && cells[i].node.text == cells[j].node.text ==> i == j)
  {
    var cells := DayCells(year, month, dow, total);
    forall i | 0 <= i < |cells| ensures ParseInt(cells[i].node.text) == Some(i + 1) {
      ParseIntOfIntToString(i + 1);
    }
  }

  /** Clicking the button of day `i + 1` opens the editor on the date `year-month-(i + 1)`. */
  lemma ClickOpensItsDate(year: int, month: int, dow: int, total: nat)
    requires total <= 31
    ensures var cells := DayCells(year, month, dow, total);
      forall i :: 0 <= i < |cells| ==> ClickedDate(cells[i].node) == Some(FormatDate(year, month, i + 1))
  {
    DaysPlacedInOrder(year, month, dow, total);
  }

  /**
   * The date string for a day of a year 0..9999 is `yyyy-MM-dd`: ten characters, dashes
   * at 4 and 7, and the three fields read back as the year, the month and the day.
   */
  lemma DateStringShape(year: int, month: int, day: int)
    requires 0 <= year <= 9999 && 1 <= month <= 12 && 1 <= day <= 31
    ensures var s := FormatDate(year, month, day);
      && |s| == 10 && s[4] == '-' && s[7] == '-'
      && AllDigits(s[..4]) && AllDigits(s[5..7]) && AllDigits(s[8..])
      && ParseInt(s[..4]) == Some(year) && ParseInt(s[5..7]) == Some(month) && ParseInt(s[8..]) == Some(day)
  {
    DigitsLength(year, 4);
    DigitsLength(month, 2);
    DigitsLength(day, 2);
    ParseIntOfZeroPadded(year, 4);
    ParseIntOfZeroPadded(month, 2);
    ParseIntOfZeroPadded(day, 2);
    var y, m, d := FormatZeroPadded(year, 4), FormatZeroPadded(month, 2), FormatZeroPadded(day, 2);
    var s := y + "-" + m + "-" + d;
    assert s[..4] == y && s[5..7] == m && s[8..] == d;
  }

  /** A year past 9999 makes the date string longer than ten characters. */
  lemma LongYearDateString(year: int, month: int, day: int)
    requires 10000 <= year && 1 <= month <= 12 && 1 <= day <= 31
    ensures |FormatDate(year, month, day)| > 10
  {
    assert Pow10(4) == 10000;
    DigitsLengthAtLeast(year, 5);
  }

  /** Every day button lies in columns 0..6 and rows 1..6. */
  lemma CellsInsideGrid(year: int, month: int, dow: int, total: nat)
    requires 0 <= dow <= 6 && 28 <= total <= 31
    ensures var cells := DayCells(year, month, dow, total);
      forall i :: 0 <= i < |cells| ==> 0 <= cells[i].col <= 6 && 1 <= cells[i].row <= 6
  {
    var cells := DayCells(year, month, dow, total);
    forall i | 0 <= i < |cells| ensures 0 <= cells[i].col <= 6 && 1 <= cells[i].row <= 6 {
      assert 0 <= dow + i <= 36;
    }
  }

  /** A cell's position gives back its day: the button at index `i` sits `dow + i` cells after the top-left of row 1. */
  lemma CellPositionGivesDay(year: int, month: int, dow: int, total: nat)
    requires 0 <= dow <= 6
    ensures var cells := DayCells(year, month, dow, total);
      forall i :: 0 <= i < |cells| ==> 7 * (cells[i].row - 1) + cells[i].col == dow + i
  {
    var cells := DayCells(year, month, dow, total);
    forall i | 0 <= i < |cells| ensures 7 * (cells[i].row - 1) + cells[i].col == dow + i {
      var k := dow + i;
      assert k == 7 * (k / 7) + k % 7;
    }
  }

  /** Distinct days occupy distinct cells. */
  lemma CellsDistinct(year: int, month: int, dow: int, total: nat)
    requires 0 <= dow <= 6
    ensures var cells := DayCells(year, month, dow, total);
      forall i, j :: 0 <= i < j < |cells| ==> (cells[i].col, cells[i].row) != (cells[j].col, cells[j].row)
  {
    CellPositionGivesDay(year, month, dow, total);
  }

  /**
   * Row 0 holds exactly the seven headers, in columns 0..6 in order, and no day
   * button is placed in row 0.
   */
  lemma HeaderRowOnly(year: int, month: int)
    requires 1 <= month <= 12
    ensures var cells := Layout(year, month);
      && |cells| == 7 + LengthOfMonth(year, month)
      && (forall k :: 0 <= k < 7 ==> cells[k] == Placement(Label(WeekdayHeaders[k]), k, 0))
      && (forall k :: 0 <= k < |cells| ==> (cells[k].row == 0 <==> k < 7) && (cells[k].node.Label? <==> k < 7))
  {
    var dow := StartColumn(IsoDayOfWeek(year, month, 1));
    var days := DayCells(year, month, dow, LengthOfMonth(year, month));
    CellsInsideGrid(year, month, dow, LengthOfMonth(year, month));
    var cells := Layout(year, month);
    forall k | 7 <= k < |cells| ensures cells[k] == days[k - 7] {
    }
  }

  /** Child `6 + d` of the layout is the button of day `d`. */
  lemma LayoutDay(year: int, month: int, d: int)
    requires 1 <= month <= 12 && 1 <= d <= LengthOfMonth(year, month)
    ensures Layout(year, month)[6 + d].col == DayColumn(StartColumn(IsoDayOfWeek(year, month, 1)), d)
  {
    var days := DayCells(year, month, StartColumn(IsoDayOfWeek(year, month, 1)), LengthOfMonth(year, month));
    assert |HeaderCells()| == 7;
    assert Layout(year, month)[6 + d] == days[d - 1];
  }

  /** The header in column `w % 7` is that of the weekday after `w`, never that of `w` itself. */
  lemma HeaderOfNextWeekday(w: int)
    requires 1 <= w <= 7
    ensures WeekdayHeaders[w % 7] == WeekdayHeaders[if w == 7 then 0 else w]
    ensures WeekdayHeaders[w % 7] != WeekdayHeaders[w - 1]
  {
  }

  /**
   * Day `d` goes in the column of its ISO weekday modulo 7, so the header above it
   * names the weekday after its own (a Sunday sits under 一, Monday).
   */
  lemma HeaderAboveDay(year: int, month: int, d: int)
    requires 1 <= month <= 12 && 1 <= d <= LengthOfMonth(year, month)
    ensures var w := IsoDayOfWeek(year, month, d);
      var c := Layout(year, month)[6 + d].col;
      && c == w % 7
      && WeekdayHeaders[c] == WeekdayHeaders[if w == 7 then 0 else w]
      && WeekdayHeaders[c] != WeekdayHeaders[w - 1]
  {
    var first := IsoDayOfWeek(year, month, 1);
    var w := IsoDayOfWeek(year, month, d);
    LayoutDay(year, month, d);
    WeekdayOfDay(year, month, d);
    ColumnOfWeekday(first, d);
    assert Layout(year, month)[6 + d].col == w % 7;
    HeaderOfNextWeekday(w);
  }

  /** Counting `d - 1` cells on from the column of the 1st lands on the column of day `d`'s weekday. */
  lemma ColumnOfWeekday(first: int, d: int)
    requires 1 <= first <= 7 && d >= 1
    ensures DayColumn(StartColumn(first), d) == ((first - 1 + (d - 1)) % 7 + 1) % 7
  {
    var k := first - 1 + (d - 1);
    var q, r := k / 7, k % 7;
    ModOf(k, q, r);
    var x := StartColumn(first) + d - 1;
    if r == 6 {
      ModOf(r + 1, 1, 0);
      if first == 7 { ModOf(x, q, 0); } else { ModOf(x, q + 1, 0); }
    } else {
      ModOf(r + 1, 0, r + 1);
      if first == 7 { ModOf(x, q - 1, r + 1); } else { ModOf(x, q, r + 1); }
    }
  }

  /** Division by 7 is unique: `x == 7 * q + r` with `0 <= r < 7` fixes `x % 7` and `x / 7`. */
  lemma ModOf(x: int, q: int, r: int)
    requires x == 7 * q + r && 0 <= r < 7
    ensures x % 7 == r && x / 7 == q
  {
  }

  /** The next month's 1st goes in the column right after this month's last day. */
  lemma NextMonthContinues(year: int, month: int)
    requires 1 <= month <= 12
    ensures var dow := StartColumn(IsoDayOfWeek(year, month, 1));
      var (ny, nm) := NextMonth(year, month);
      StartColumn(IsoDayOfWeek(ny, nm, 1)) == DayColumn(dow, LengthOfMonth(year, month) + 1)
  {
    NextMonthWeekday(year, month);
    ColumnOfWeekday(IsoDayOfWeek(year, month, 1), LengthOfMonth(year, month) + 1);
  }
}
