# MyTime calendar grid, modelled in Dafny

MyTime is a one-screen calendar. Two pickers choose a month name and a year,
held as the texts of two text fields. From them the view controller builds
`daysOfMonth`: the labels of a month grid, read row by row, seven to a row,
Sunday first, with blank labels before the first and after the last day of
the month. A collection view shows these labels and colours two columns as
the weekend.

The model has five modules:

- `Wrappers`: the `Option` type for Swift's optionals.
- `Gregorian`: the calendar the screen gets from `Calendar.current`. It gives
  month lengths under the Gregorian leap-year rule, and a day count from
  0001-01-01 that yields the weekday (Sunday = 0 .. Saturday = 6). The model
  is proleptic Gregorian for every integer year. It is checked against its
  own successor structure: consecutive dates have consecutive day numbers
  across month and year ends. It is also checked against known dates.
- `Numerals`: Swift's `Int(_: String)` with its 64-bit range, and
  `String(_: Int)`, with the round trip between them.
- `CalendarGrid`: a grid cell is `Empty` or `Day(n)`. The labels `""` and
  `String(day)` are one-to-one with these cells. The module gives the
  reference layout of a month (`Layout`, `MonthGrid`) and the lemmas about it:
  whole rows, the days 1..N in order, each day in its weekday's column, no
  blank row. It also has the two step lemmas the week-by-week construction
  rests on.
- `MyTime`: the fixed month and year tables, `firstIndex(of:)`, the
  selection-to-grid function `GridFor`, the picker data source, the weekend
  rule, and the class `ViewController` with the fields `monthText`,
  `yearText` and `daysOfMonth`.

In the class, `updateDaysOfMonth` is `UpdateDaysOfMonth`, which holds the
guards, plus `FillDaysOfMonth`, which holds the `for` loop over the seven-slot
`currentWeek` array. The loop is proved to leave exactly
`MonthGrid(year, month)` in `daysOfMonth`. The screen's load sequence
(`viewDidLoad` = `selectCurrentDate` followed by `updateDaysOfMonth`) is the
constructor. It takes the current month and year as parameters. `Valid()`
says that the grid on screen is always the one the current selection calls
for. The constructor establishes it and `SelectRow` preserves it.

Two points follow the code closely. The grid builder accepts any year that
`Int` can read, not only the three listed years. And an update whose
selection does not resolve leaves `daysOfMonth` as it was rather than
clearing it.

## Model

| member | source | states |
|---|---|---|
| `Gregorian.DaysInMonth` | MyTime/ViewController.swift:148 | every month has between 28 and 31 days |
| `Gregorian.MonthLengths` | MyTime/ViewController.swift:148 | February has 29 days exactly in leap years; the twelve month lengths add up to the length of the year |
| `Gregorian.DaysBeforeYearStep` | MyTime/ViewController.swift:148 | the day count of the first of January advances by 366 days over a leap year and by 365 over any other year |
| `Gregorian.DaysBeforeMonthStep` | MyTime/ViewController.swift:148 | the cumulative month table agrees with the month lengths, and month 13 is the end of the year |
| `Gregorian.Weekday` | MyTime/ViewController.swift:156-157 | the weekday of any date is in 0..6, Sunday = 0 |
| `Gregorian.NextDate` | MyTime/ViewController.swift:156 | the day after a valid date is a valid date |
| `Gregorian.DayNumberNext` | MyTime/ViewController.swift:156 | consecutive dates have consecutive day numbers, also across month and year boundaries |
| `Gregorian.WeekdayNext` | MyTime/ViewController.swift:156-157 | the weekday of the next date is the weekday plus one, mod 7 |
| `Gregorian.WeekdayFromFirst` | MyTime/ViewController.swift:155-157 | inside a month, day d falls on the weekday of the first plus d - 1, mod 7 |
| `Gregorian.KnownDates` | MyTime/ViewController.swift:146-157 | February 2024 has 29 days and February 2023 has 28; 1900 is not a leap year and 2000 is; 2024-01-01 is a Monday, 2024-02-01 a Thursday, 2023-02-01 a Wednesday, 2023-02-28 a Tuesday |
| `Numerals.ParseInt` | MyTime/ViewController.swift:136 | `Int(text)` yields only 64-bit values and rejects the empty text |
| `Numerals.ParseIntRejects` | MyTime/ViewController.swift:136 | a text with a non-digit anywhere except a leading sign is not an `Int` |
| `Numerals.IntToString` | MyTime/ViewController.swift:127 | `String(n)` is non-empty and starts with a minus sign exactly for negative n |
| `Numerals.NatToStringValue` | MyTime/ViewController.swift:127 | the digits of a natural number read back as that number |
| `Numerals.ParseIntToString` | MyTime/ViewController.swift:127-136 | `Int(String(n)) == n` for every 64-bit n |
| `MyTime.FirstIndex` | MyTime/ViewController.swift:142 | `firstIndex(of:)` finds the first position holding the value, and finds nothing exactly when the value is absent |
| `MyTime.GridFor` | MyTime/ViewController.swift:136-150 | the grid is computed exactly when both texts are set, the year text is an `Int` and the month text is one of the twelve names |
| `MyTime.NumberOfRows` | MyTime/ViewController.swift:180-186 | the month picker has 12 rows and any other picker 3 |
| `MyTime.TitleForRow` | MyTime/ViewController.swift:188-194 | row r of the month picker shows the name of month r + 1 (found at position r of the list); row r of the other picker shows a listed year that reads as 2023 + r |
| `MyTime.MonthIndex` | MyTime/ViewController.swift:13-16 | the month names are distinct, so the i-th name is found at position i |
| `MyTime.YearValue` | MyTime/ViewController.swift:17 | each entry of the year list reads as an `Int`, the i-th as 2023 + i |
| `MyTime.YearListed` | MyTime/ViewController.swift:127 | the current year's numeral is in the year list exactly when the year is 2023, 2024 or 2025, at position year - 2023 |
| `MyTime.GridForSelection` | MyTime/ViewController.swift:142-150 | the i-th month name with a year text that reads as y resolves to the grid of month i + 1 of year y |
| `MyTime.ViewController.constructor` | MyTime/ViewController.swift:88-133 | loading selects the current month and, only for 2023..2025, the current year; the grid is then that month's grid, or stays empty when the year is not listed; the invariant holds |
| `MyTime.ViewController.SelectCurrentDate` | MyTime/ViewController.swift:120-133 | sets the month text to the current month's name; sets the year text only when the current year is listed, else leaves it; the grid is unchanged |
| `MyTime.ViewController.UpdateDaysOfMonth` | MyTime/ViewController.swift:135-150 | if a text is unset, the year is not an `Int`, or the month is not a month name, nothing changes; otherwise the grid becomes the selected month's; the texts never change |
| `MyTime.ViewController.FillDaysOfMonth` | MyTime/ViewController.swift:152-169 | the week-by-week loop over the seven-slot array leaves exactly the month's reference layout in `daysOfMonth` |
| `MyTime.ViewController.SelectRow` | MyTime/ViewController.swift:196-203 | tag 1 sets only the month text, any other tag only the year text, to the chosen row's entry, which is the title that row shows; the grid is then recomputed; the invariant is preserved |
| `CalendarGrid.LayoutAt` | MyTime/ViewController.swift:152-169 | the reference layout holds, cell by cell, day `i - lead + 1` at position i for the month's days and blanks elsewhere, over whole weeks |
| `CalendarGrid.PlaceDay` | MyTime/ViewController.swift:155-164 | writing a day into its weekday's slot never overwrites another day of the week being filled; the slot is Saturday exactly when the week is then complete |
| `CalendarGrid.FlushLastWeek` | MyTime/ViewController.swift:167-169 | appending the last week exactly when it is not blank completes the reference layout |
| `CalendarGrid.MonthGrid` | MyTime/ViewController.swift:152-169 | the grid of a month has as many whole weeks as its days span once shifted to the weekday of the 1st |
| `CalendarGrid.MonthGridRows` | MyTime/ViewController.swift:152-169 | the grid's length is a multiple of 7, between 4 and 6 rows |
| `CalendarGrid.MonthGridLabels` | MyTime/ViewController.swift:148-169 | the days shown, read left to right, are exactly 1..N for the month's N days, each once, ascending |
| `CalendarGrid.MonthGridColumns` | MyTime/ViewController.swift:155-163 | every shown day lies in 1..N and sits at a position whose column is its weekday; every day d of the month sits at position lead + d - 1 |
| `CalendarGrid.MonthGridNoBlankRow` | MyTime/ViewController.swift:161-169 | no row is blank: each row but the last has a day in its Saturday slot, and the last row has one in its Sunday slot |
| `CalendarGrid.KnownGrids` | MyTime/ViewController.swift:135-169 | January 2024 starts `["", 1..6]`; February 2024 starts with four blanks and has the 29th in the Thursday column; February 2023 ends with 26, 27, 28 and four blanks |
| `MyTime.HighlightedAsWritten` | MyTime/ViewController.swift:219-220 | the colouring rule as written: items in the Friday and Saturday columns of the Sunday-first grid, never the Sunday column |
| `MyTime.HighlightedWeekdays` | MyTime/ViewController.swift:219-223 | the positional rule `item % 7` in {5, 6} colours a day exactly when it is a Friday or a Saturday |
| `MyTime.HighlightMissesSunday` | MyTime/ViewController.swift:219-223 | in January 2024, Friday the 5th is coloured and Sunday the 7th is not |
| `MyTime.WeekendItemsAreWeekends` | MyTime/ViewController.swift:219-223 | with the columns for Saturday and Sunday, a day is coloured exactly when it is a Saturday or a Sunday |

## Left out

- UIKit construction and layout are not modelled: text fields, stack view, toolbar, `doneTapped`, collection-view registration, cell sizing and colours (MyTime/ViewController.swift:23-118, 229-232). They hold no logic to state.
- `collectionView.reloadData()` (:171), `numberOfComponents` and `numberOfItemsInSection` (:176-178, :207-209) are rendering only. The item count is `|daysOfMonth|`.
- Setting the picker wheels' positions with `selectRow` (:129, :132) is left out because it is widget state. `didSelectRow` is modelled as UIKit calls it, with a row below the picker's row count.
- `DayCell.swift` only assigns a label's text. `CoreDataManager.swift` is not used by the screen. Neither is part of this model.
- The current date (`Date()`) is not read. Its month and year components are constructor parameters.
- The unused `DateFormatter` (:140-141) is left out.
- `Calendar.current` is modelled as the proleptic Gregorian calendar with Sunday as weekday 1, whatever the host locale.
- `Gregorian.Weekday`: Foundation's Gregorian calendar follows Julian rules before 1582-10-15, so for earlier years its month lengths and weekdays differ from this proleptic model. The reachable selections (2023..2025) are not affected.
- An unset text field is `None` in the model, where UIKit returns `""`. The update stops early either way, since `Int("")` is nil and `""` is no month name.
- The guard on date creation (:148) always succeeds in the model. Foundation's limits on representable dates and its era handling for years 0 and below are not modelled.

## Findings

| source | as written | input that shows it | evidently intended | confidence | as-written member | corrected member |
|---|---|---|---|---|---|---|
| MyTime/ViewController.swift:219-220 | cells with `item % 7` equal to 5 or 6 get the weekend colour; the grid is Sunday first, so these columns are Friday and Saturday | January 2024: Friday the 5th (item 5) is coloured, Sunday the 7th (item 7) is not | the comment says "Saturday or Sunday": columns 6 and 0 of the Sunday-first grid | medium (not executed; the column numbers fit a Monday-first grid, which this code does not build) | `MyTime.HighlightMissesSunday` | `MyTime.WeekendItemsAreWeekends` |
