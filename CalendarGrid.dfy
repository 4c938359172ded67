/** The month grid the screen shows: a sequence of cells read row by row, seven
    to a row, Sunday first. A day of the month is shown as its number; a cell
    of a week that lies outside the month is blank. */
module CalendarGrid {
  import opened Gregorian

  /** A grid cell. The screen stores `String(day)` or `""`; since distinct
      days have distinct numerals, a cell is modelled by the day it shows. */
  datatype Cell = Empty | Day(n: nat)

  function Blanks(k: nat): (r: seq<Cell>)
    ensures |r| == k && forall i :: 0 <= i < k ==> r[i] == Empty
  {
    seq(k, _ => Empty)
  }

  /** The days `first`, `first` + 1, ... as `count` consecutive cells. */
  function DayRun(first: nat, count: nat): (r: seq<Cell>)
    ensures |r| == count
  {
    seq(count, i requires 0 <= i => Day(first + i))
  }

  /** Blanks needed after the last day to complete its week. */
  function TrailingBlanks(lead: nat, count: nat): (t: nat)
    ensures t < 7 && (lead + count + t) % 7 == 0
  {
    (7 - (lead + count) % 7) % 7
  }

  /** The reference layout of a month whose first day falls in column
      `lead` (its weekday) and that has `count` days: blanks before the
      first, the days in order, blanks up to the end of the last week. */
  function Layout(lead: nat, count: nat): seq<Cell> {
    Blanks(lead) + DayRun(1, count) + Blanks(TrailingBlanks(lead, count))
  }

  /** Cell `i` of the layout, position by position. */
  function CellAt(lead: nat, count: nat, i: int): Cell {
    if lead <= i < lead + count then Day(i - lead + 1) else Empty
  }

  /** The grid of a month of a year (1 = January): as many whole weeks as
      the month's days, shifted to the weekday of the first, touch. */
  function MonthGrid(year: int, month: int): (g: seq<Cell>)
    requires 1 <= month <= 12
    ensures |g| == 7 * ((Weekday(year, month, 1) + DaysInMonth(year, month) + 6) / 7)
  {
    LayoutAt(Weekday(year, month, 1), DaysInMonth(year, month));
    Layout(Weekday(year, month, 1), DaysInMonth(year, month))
  }

  predicate AllBlank(week: seq<Cell>) {
    forall j :: 0 <= j < |week| ==> week[j] == Empty
  }

  /** The day numbers of a grid, read left to right, blanks skipped. */
  function Labels(g: seq<Cell>): seq<nat> {
    if g == [] then []
    else (match g[0] case Empty => [] case Day(n) => [n]) + Labels(g[1..])
  }

  /** The numbers `first`, `first` + 1, ..., `count` of them. */
  function Range(first: nat, count: nat): (r: seq<nat>)
    ensures |r| == count
  {
    seq(count, i requires 0 <= i => first + i)
  }

  /** The layout, cell by cell: exactly what `CellAt` describes, over whole
      weeks. */
  lemma LayoutAt(lead: nat, count: nat)
    ensures |Layout(lead, count)| == lead + count + TrailingBlanks(lead, count)
    ensures forall i :: 0 <= i < |Layout(lead, count)| ==> Layout(lead, count)[i] == CellAt(lead, count, i)
  {
    var a, b, c := Blanks(lead), DayRun(1, count), Blanks(TrailingBlanks(lead, count));
    forall i | 0 <= i < |a + b + c|
      ensures (a + b + c)[i] == CellAt(lead, count, i)
    {
      if i < lead {
      } else if i < lead + count {
        assert (a + b + c)[i] == b[i - lead];
      } else {
        assert (a + b + c)[i] == c[i - lead - count];
      }
    }
  }

  lemma {:induction false} LabelsAppend(a: seq<Cell>, b: seq<Cell>)
    ensures Labels(a + b) == Labels(a) + Labels(b)
  {
    if a != [] {
      assert (a + b)[1..] == a[1..] + b;
      LabelsAppend(a[1..], b);
    } else {
      assert a + b == b;
    }
  }

  lemma {:induction false} LabelsBlanks(k: nat)
    ensures Labels(Blanks(k)) == []
  {
    if k > 0 {
      assert Blanks(k)[1..] == Blanks(k - 1);
      LabelsBlanks(k - 1);
    }
  }

  lemma {:induction false} LabelsDayRun(first: nat, count: nat)
    ensures Labels(DayRun(first, count)) == Range(first, count)
    decreases count
  {
    if count > 0 {
      assert DayRun(first, count)[1..] == DayRun(first + 1, count - 1);
      LabelsDayRun(first + 1, count - 1);
      assert Range(first, count) == [first] + Range(first + 1, count - 1);
    }
  }

  /** One step of building a grid week by week: the week being filled holds
      the days before `day` that fall in grid row `row`; writing `day` into
      its weekday's slot gives the week with `day` too, and that slot is the
      last one (Saturday) exactly when the week is then complete. */
  lemma PlaceDay(lead: nat, count: nat, day: nat, row: nat, week: seq<Cell>, weekday: int, filled: seq<Cell>)
    requires 1 <= day <= count
    requires 7 * row <= lead + day - 1 < 7 * row + 7
    requires weekday == (lead + day - 1) % 7
    requires |week| == 7 && forall j :: 0 <= j < 7 ==> week[j] == CellAt(lead, day - 1, 7 * row + j)
    requires filled == week[weekday := Day(day)]
    ensures weekday == lead + day - 1 - 7 * row
    ensures forall j :: 0 <= j < 7 ==> filled[j] == CellAt(lead, day, 7 * row + j)
    ensures weekday == Saturday <==> lead + day == 7 * (row + 1)
    ensures weekday == Saturday ==>
      forall j :: 0 <= j < 7 ==> filled[j] == CellAt(lead, count, 7 * row + j)
  {
  }

  /** The last step of building a grid week by week: once the complete
      weeks are in `done` and the week holding the last day is `week`, adding
      `week` exactly when it is not blank gives the reference layout. */
  lemma FlushLastWeek(lead: nat, count: nat, done: seq<Cell>, week: seq<Cell>)
    requires lead < 7 && count >= 1
    requires |done| % 7 == 0 && |done| <= lead + count < |done| + 7
    requires forall i :: 0 <= i < |done| ==> done[i] == CellAt(lead, count, i)
    requires |week| == 7 && forall j :: 0 <= j < 7 ==> week[j] == CellAt(lead, count, |done| + j)
    ensures (if AllBlank(week) then done else done + week) == Layout(lead, count)
  {
    LayoutAt(lead, count);
    var g := Layout(lead, count);
    if (lead + count) % 7 == 0 {
      assert |g| == |done|;
      assert AllBlank(week);
    } else {
      assert week[lead + count - 1 - |done|].Day?;
      assert |g| == |done| + 7;
      assert forall i :: 0 <= i < |g| ==> (done + week)[i] == g[i];
    }
  }

  /** The grid is made of whole weeks: four to six rows of seven cells. */
  lemma MonthGridRows(year: int, month: int)
    requires 1 <= month <= 12
    ensures |MonthGrid(year, month)| % 7 == 0
    ensures 4 * 7 <= |MonthGrid(year, month)| <= 6 * 7
  {
    LayoutAt(Weekday(year, month, 1), DaysInMonth(year, month));
  }

  /** The shown day numbers, left to right, are exactly 1 .. N for the N
      days of the month, each once and in ascending order. */
  lemma MonthGridLabels(year: int, month: int)
    requires 1 <= month <= 12
    ensures Labels(MonthGrid(year, month)) == Range(1, DaysInMonth(year, month))
  {
    var lead, count := Weekday(year, month, 1), DaysInMonth(year, month);
    LabelsAppend(Blanks(lead) + DayRun(1, count), Blanks(TrailingBlanks(lead, count)));
    LabelsAppend(Blanks(lead), DayRun(1, count));
    LabelsBlanks(lead);
    LabelsBlanks(TrailingBlanks(lead, count));
    LabelsDayRun(1, count);
  }

  /** Every day stands in the column of its weekday, and every day of the
      month is in the grid, the d-th at position `lead + d - 1`. */
  lemma MonthGridColumns(year: int, month: int)
    requires 1 <= month <= 12
    ensures var g := MonthGrid(year, month);
      forall p :: 0 <= p < |g| && g[p].Day? ==>
        1 <= g[p].n <= DaysInMonth(year, month) && p % 7 == Weekday(year, month, g[p].n)
    ensures var g := MonthGrid(year, month);
      forall d :: 1 <= d <= DaysInMonth(year, month) ==>
        Weekday(year, month, 1) + d - 1 < |g| && g[Weekday(year, month, 1) + d - 1] == Day(d)
  {
    var lead, count := Weekday(year, month, 1), DaysInMonth(year, month);
    LayoutAt(lead, count);
    forall d | 1 <= d <= count
      ensures Weekday(year, month, d) == (lead + d - 1) % 7
    {
      WeekdayFromFirst(year, month, d);
    }
  }

  /** No row of the grid is blank: every row but the last ends with a day
      on its Saturday, and the last row begins with a day on its Sunday. */
  lemma MonthGridNoBlankRow(year: int, month: int)
    requires 1 <= month <= 12
    ensures var g := MonthGrid(year, month);
      forall r :: 0 <= r < |g| / 7 - 1 ==> g[7 * r + Saturday].Day?
    ensures var g := MonthGrid(year, month);
      |g| >= 7 && g[|g| - 7 + Sunday].Day?
    ensures var g := MonthGrid(year, month);
      forall r :: 0 <= r < |g| / 7 ==> !AllBlank(g[7 * r .. 7 * r + 7])
  {
    var g := MonthGrid(year, month);
    var lead, count := Weekday(year, month, 1), DaysInMonth(year, month);
    LayoutAt(lead, count);
    forall r | 0 <= r < |g| / 7
      ensures !AllBlank(g[7 * r .. 7 * r + 7])
    {
      if r < |g| / 7 - 1 {
        assert g[7 * r .. 7 * r + 7][6] == g[7 * r + 6];
      } else {
        assert g[7 * r .. 7 * r + 7][0] == g[|g| - 7];
      }
    }
  }

  /** Three months worked out: January 2024 starts on a Monday, February
      2024 on a Thursday and has a 29th, also a Thursday; February 2023 ends
      on a Tuesday, so its last row has four trailing blanks. */
  lemma KnownGrids()
    ensures MonthGrid(2024, 1)[..7] == [Empty, Day(1), Day(2), Day(3), Day(4), Day(5), Day(6)]
    ensures MonthGrid(2024, 2)[..7] == [Empty, Empty, Empty, Empty, Day(1), Day(2), Day(3)]
    ensures |MonthGrid(2024, 2)| == 35 && MonthGrid(2024, 2)[32] == Day(29) && 32 % 7 == Thursday
    ensures |MonthGrid(2023, 2)| == 35
    ensures MonthGrid(2023, 2)[28..] == [Day(26), Day(27), Day(28), Empty, Empty, Empty, Empty]
  {
    KnownDates();
    LayoutAt(Monday, 31);
    LayoutAt(Thursday, 29);
    LayoutAt(Wednesday, 28);
    assert MonthGrid(2024, 1)[..7] == [Empty, Day(1), Day(2), Day(3), Day(4), Day(5), Day(6)];
    assert MonthGrid(2024, 2)[..7] == [Empty, Empty, Empty, Empty, Day(1), Day(2), Day(3)];
    assert MonthGrid(2023, 2)[28..] == [Day(26), Day(27), Day(28), Empty, Empty, Empty, Empty];
  }
}
