/** The calendar screen: the month and year selection held in two text
    fields, and the grid of days recomputed from them. */
module MyTime {
  import opened Wrappers
  import opened Gregorian
  import opened Numerals
  import opened CalendarGrid

  /** The month names offered by the month picker, January first. */
  const Months: seq<string> := [
    "January", "February", "March", "April", "May", "June",
    "July", "August", "September", "October", "November", "December"
  ]

  /** The years offered by the year picker. */
  const Years: seq<string> := ["2023", "2024", "2025"]

  /** The tag of the month picker; the year picker has tag 2, and every tag
      other than this one is treated as the year picker. */
  const MonthPickerTag := 1

  /** `firstIndex(of:)`: the position of the first occurrence of `x`. */
  function FirstIndex<T(==)>(s: seq<T>, x: T): (r: Option<nat>)
    ensures r.Some? ==> r.value < |s| && s[r.value] == x
    ensures r.Some? ==> forall j :: 0 <= j < r.value ==> s[j] != x
    ensures r.None? <==> x !in s
  {
    if s == [] then None
    else if s[0] == x then Some(0)
    else match FirstIndex(s[1..], x)
      case None => None
      case Some(k) => Some(k + 1)
  }

  /** The grid that the selection calls for, or None when the update stops
      early: a text is unset, the year text is not an `Int`, or the month
      text is not one of the month names. */
  function GridFor(monthText: Option<string>, yearText: Option<string>): (r: Option<seq<Cell>>)
    ensures r.Some? <==>
      monthText.Some? && monthText.value in Months &&
      yearText.Some? && ParseInt(yearText.value).Some?
  {
    if monthText.None? || yearText.None? then None
    else match ParseInt(yearText.value)
      case None => None
      case Some(year) =>
        match FirstIndex(Months, monthText.value)
        case None => None
        case Some(i) => Some(MonthGrid(year, i + 1))
  }

  /** `numberOfRowsInComponent`: the month picker has one row per month, the
      other picker one per year. */
  function NumberOfRows(tag: int): (n: nat)
    ensures n == (if tag == MonthPickerTag then 12 else 3)
  {
    if tag == MonthPickerTag then |Months| else |Years|
  }

  /** `titleForRow`: the text a picker shows in a row. Row r of the month
      picker names month r + 1, and row r of the year picker reads as the
      year 2023 + r. */
  function TitleForRow(tag: int, row: int): (t: string)
    requires 0 <= row < NumberOfRows(tag)
    ensures tag == MonthPickerTag ==> t in Months && FirstIndex(Months, t) == Some(row)
    ensures tag != MonthPickerTag ==> t in Years && ParseInt(t) == Some(2023 + row)
  {
    if tag == MonthPickerTag then
      MonthIndex(row);
      Months[row]
    else
      YearValue(row);
      Years[row]
  }

  /** The month names are distinct, so each is found at its own position. */
  lemma MonthIndex(i: int)
    requires 0 <= i < 12
    ensures FirstIndex(Months, Months[i]) == Some(i)
  {
    MonthNamesDistinct();
  }

  lemma MonthNamesDistinct()
    ensures forall j, k :: 0 <= j < k < |Months| ==> Months[j] != Months[k]
  {
    forall j, k | 0 <= j < k < |Months|
      ensures Months[j] != Months[k]
    {
      // The second and third letters already tell the names apart.
      assert Months[j][1] != Months[k][1] || Months[j][2] != Months[k][2];
    }
  }

  /** Every entry of the year list reads back as its year. */
  lemma YearValue(i: int)
    requires 0 <= i < |Years|
    ensures ParseInt(Years[i]) == Some(2023 + i)
  {
    ListedNumerals();
    ParseIntToString(2023 + i);
  }

  /** A year has an entry in the year list exactly when it is 2023, 2024
      or 2025; the entry is then its numeral, at position year - 2023. */
  lemma YearListed(year: int)
    ensures IntToString(year) in Years <==> 2023 <= year <= 2025
    ensures 2023 <= year <= 2025 ==> FirstIndex(Years, IntToString(year)) == Some(year - 2023)
  {
    ListedNumerals();
    if IntToString(year) in Years {
      var i :| 0 <= i < |Years| && Years[i] == IntToString(year);
      IntToStringInjective(year, 2023 + i);
    }
    if 2023 <= year <= 2025 {
      assert Years[year - 2023] == IntToString(year);
    }
  }

  lemma ListedNumerals()
    ensures forall i :: 0 <= i < |Years| ==> Years[i] == IntToString(2023 + i)
  {
    assert NatToString(20) == NatToString(2) + ['0'];
    assert NatToString(202) == NatToString(20) + ['2'];
    assert NatToString(2023) == NatToString(202) + ['3'];
    assert NatToString(2024) == NatToString(202) + ['4'];
    assert NatToString(2025) == NatToString(202) + ['5'];
  }

  /** A selection that resolves calls for the grid of the named month (its
      position in the list plus one) in the year the year text reads as. */
  lemma GridForSelection(month: int, yearText: string, year: int)
    requires 1 <= month <= 12 && ParseInt(yearText) == Some(year)
    ensures GridFor(Some(Months[month - 1]), Some(yearText)) == Some(MonthGrid(year, month))
  {
    MonthIndex(month - 1);
  }

  /** The background rule of `cellForItemAt` as the code has it: items in
      columns 5 and 6 of their row get the weekend colour. */
  function HighlightedAsWritten(item: nat): (h: bool)
    ensures h <==> item % 7 in {Friday, Saturday}
    ensures item % 7 == Sunday ==> !h
  {
    item % 7 == 5 || item % 7 == 6
  }

  /** Since the grid is laid out Sunday first, the rule as written colours a
      day exactly when it is a Friday or a Saturday. */
  lemma HighlightedWeekdays(year: int, month: int, p: nat)
    requires 1 <= month <= 12
    ensures p < |MonthGrid(year, month)| && MonthGrid(year, month)[p].Day? ==>
      (HighlightedAsWritten(p) <==> Weekday(year, month, MonthGrid(year, month)[p].n) in {Friday, Saturday})
  {
    MonthGridColumns(year, month);
  }

  /** The rule as written against what its comment says it is for: in
      January 2024 Friday the 5th is coloured and Sunday the 7th is not. */
  lemma HighlightMissesSunday()
    ensures MonthGrid(2024, 1)[5] == Day(5) && Weekday(2024, 1, 5) == Friday && HighlightedAsWritten(5)
    ensures MonthGrid(2024, 1)[7] == Day(7) && Weekday(2024, 1, 7) == Sunday && !HighlightedAsWritten(7)
  {
    KnownDates();
    MonthGridColumns(2024, 1);
  }

  /** The weekend rule the comment describes, on the Sunday-first grid:
      the Saturday column and the Sunday column. */
  function IsWeekendItem(item: nat): bool {
    item % 7 == Saturday || item % 7 == Sunday
  }

  /** With the corrected rule a day is coloured exactly when it falls on a
      Saturday or a Sunday. */
  lemma WeekendItemsAreWeekends(year: int, month: int, p: nat)
    requires 1 <= month <= 12
    ensures p < |MonthGrid(year, month)| && MonthGrid(year, month)[p].Day? ==>
      (IsWeekendItem(p) <==> Weekday(year, month, MonthGrid(year, month)[p].n) in {Saturday, Sunday})
  {
    MonthGridColumns(year, month);
  }

  class ViewController {
    var monthText: Option<string>
    var yearText: Option<string>
    var daysOfMonth: seq<Cell>

    /** The texts only ever hold entries of the two lists, and the grid on
        screen is the one the selection calls for (none until both are set). */
    ghost predicate Valid()
      reads this
    {
      (monthText.None? || monthText.value in Months) &&
      (yearText.None? || yearText.value in Years) &&
      daysOfMonth == GridFor(monthText, yearText).GetOr([])
    }

    /** Loading the screen: `selectCurrentDate` with the host's current month
        (1 .. 12) and year, then `updateDaysOfMonth`. */
    constructor (currentMonth: int, currentYear: int)
      requires 1 <= currentMonth <= 12
      ensures Valid()
      ensures monthText == Some(Months[currentMonth - 1])
      ensures yearText == if 2023 <= currentYear <= 2025 then Some(IntToString(currentYear)) else None
      ensures daysOfMonth == if 2023 <= currentYear <= 2025 then MonthGrid(currentYear, currentMonth) else []
    {
      monthText := None;
      yearText := None;
      daysOfMonth := [];
      new;
      SelectCurrentDate(currentMonth, currentYear);
      UpdateDaysOfMonth();
      YearListed(currentYear);
      if 2023 <= currentYear <= 2025 {
        ParseIntToString(currentYear);
        GridForSelection(currentMonth, IntToString(currentYear), currentYear);
      }
    }

    /** Pre-selects the current month, and the current year if the year list
        has it; the grid is left as it is. */
    method SelectCurrentDate(currentMonth: int, currentYear: int)
      requires 1 <= currentMonth <= 12
      modifies this
      ensures monthText == Some(Months[currentMonth - 1])
      ensures yearText == if IntToString(currentYear) in Years then Some(IntToString(currentYear)) else old(yearText)
      ensures daysOfMonth == old(daysOfMonth)
    {
      monthText := Some(Months[currentMonth - 1]);
      var yearIndex := FirstIndex(Years, IntToString(currentYear));
      if yearIndex.Some? {
        yearText := Some(Years[yearIndex.value]);
      }
    }

    /** Rebuilds the grid from the two texts; when the selection does not
        resolve to a month and a year, nothing changes. */
    method UpdateDaysOfMonth()
      modifies this
      ensures monthText == old(monthText) && yearText == old(yearText)
      ensures daysOfMonth == GridFor(monthText, yearText).GetOr(old(daysOfMonth))
    {
      if monthText.None? || yearText.None? {
        return;
      }
      var parsed := ParseInt(yearText.value);
      if parsed.None? {
        return;
      }
      var year := parsed.value;
      var monthIndex := FirstIndex(Months, monthText.value);
      if monthIndex.None? {
        return;
      }
      var month := monthIndex.value + 1;
      assert GridFor(monthText, yearText) == Some(MonthGrid(year, month));
      FillDaysOfMonth(year, month);
    }

    /** The part of `updateDaysOfMonth` past its guards: walks the days of
        the month, writing each into a seven-slot week at its weekday, and
        moves the week into the grid when its Saturday is written; a last,
        partly filled week is moved in unless it is blank. */
    method FillDaysOfMonth(year: int, month: int)
      requires 1 <= month <= 12
      modifies this
      ensures monthText == old(monthText) && yearText == old(yearText)
      ensures daysOfMonth == MonthGrid(year, month)
    {
      var dayCount := DaysInMonth(year, month);
      ghost var lead := Weekday(year, month, 1);
      ghost var rows := 0;

      daysOfMonth := [];
      var currentWeek := new Cell[7](_ => Empty);
      for day := 1 to dayCount + 1
        invariant fresh(currentWeek) && currentWeek.Length == 7
        invariant monthText == old(monthText) && yearText == old(yearText)
        invariant |daysOfMonth| == 7 * rows
        invariant 7 * rows <= lead + day - 1 < 7 * rows + 7
        invariant forall i :: 0 <= i < |daysOfMonth| ==> daysOfMonth[i] == CellAt(lead, dayCount, i)
        invariant forall j :: 0 <= j < 7 ==> currentWeek[j] == CellAt(lead, day - 1, 7 * rows + j)
      {
        var weekday := Weekday(year, month, day);
        WeekdayFromFirst(year, month, day);
        PlaceDay(lead, dayCount, day, rows, currentWeek[..], weekday, currentWeek[..][weekday := Day(day)]);
        currentWeek[weekday] := Day(day);
        if weekday == Saturday {
          daysOfMonth := daysOfMonth + currentWeek[..];
          currentWeek := new Cell[7](_ => Empty);
          rows := rows + 1;
        }
      }
      ghost var done, week := daysOfMonth, currentWeek[..];
      if !AllBlank(currentWeek[..]) {
        daysOfMonth := daysOfMonth + currentWeek[..];
      }
      FlushLastWeek(lead, dayCount, done, week);
    }

    /** `didSelectRow`: the month picker (tag 1) sets the month text, any
        other picker the year text; then the grid is rebuilt. */
    method SelectRow(tag: int, row: int)
      requires 0 <= row < NumberOfRows(tag)
      modifies this
      ensures tag == MonthPickerTag ==> monthText == Some(Months[row]) && yearText == old(yearText)
      ensures tag != MonthPickerTag ==> yearText == Some(Years[row]) && monthText == old(monthText)
      ensures tag == MonthPickerTag ==> monthText == Some(TitleForRow(tag, row))
      ensures tag != MonthPickerTag ==> yearText == Some(TitleForRow(tag, row))
      ensures daysOfMonth == GridFor(monthText, yearText).GetOr(old(daysOfMonth))
      ensures old(Valid()) ==> Valid()
    {
      if tag == MonthPickerTag {
        monthText := Some(Months[row]);
      } else {
        yearText := Some(Years[row]);
      }
      UpdateDaysOfMonth();
      if yearText.Some? && yearText.value in Years {
        var i :| 0 <= i < |Years| && Years[i] == yearText.value;
        YearValue(i);
      }
    }
  }
}
