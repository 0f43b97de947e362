# Roster lookup, modelled and verified in Dafny

This project models the roster lookup of `main.go`. Given a date and an open
workbook, `takeNames` does three things:

- It finds the Monday that starts the date's week (`weekStartDate`).
- It picks the first worksheet named after that Monday, such as "Week starting 1 Feb".
- It searches that sheet for the cell that marks the date. The marker is either
  the date in the layout `02\-Jan\-2006`, whose backslashes are copied into the
  text (`07\-Feb\-2021`), or the full weekday name.

`getNames` then returns the non-empty values below the marker, in the marker's
column.

The modules follow that structure:

- `Calendar` (calendar.dfy): dates as day numbers counted from 1970-01-01, with
  the proleptic Gregorian conversion and Go's weekday ordinals (Sunday = 0).
- `Layout` (layout.dfy): the text that Go's `time.Time.Format` gives for the
  layouts the lookup uses. The layout elements "2", "02", "Jan" and "2006" are
  modelled, as is Go's `appendInt`.
- `Week` (week.dfy): `weekStartDate`, with Go's truncating `%` written out.
- `Xlsx` (xlsx.dfy): the part of a workbook the lookup reads. A workbook is a
  list of named sheets. A sheet is a grid of cells. Reading a cell either yields
  its text or fails.
- `Roster` (roster.dfy): `takeNames` and `getNames` as methods with the source's
  loops. The marker search is its own method, `FindMarker`. Each method's
  postcondition ties its result to a specification: `FindMarker` to the
  predicate `IsLastMarker`, `GetNames` to `IsGetNamesResult` (stated with
  `Harvest`), `ScanBook` to `LookupFor`, and `TakeNames` to `Lookup`. The lemmas
  `SearchOutcome` and `GetNamesIsNamesBelow` carry those results over to the
  functions `LastMarker` and `NamesBelow`. Lemmas state what those functions
  guarantee. The other specification functions are `IsMarkerText` (the
  comparison of a cell's value with the two marker texts), `NamesBelow` (the
  result of getNames) and `SheetOutcome` (what happens once a sheet is chosen:
  the fatal exit for column 0, otherwise getNames below the marker).
- `RosterExample` (example.dfy): the scenario of the repository's test. For
  2021-02-07 the lookup returns Michael, Brian, Elsie and Ernest. The test's
  workbook file is not part of this model. The workbook here is laid out as that
  test expects.

Points about the code that the model makes explicit:

- 2021-02-07 is a Sunday, and Sunday is weekday 0. `weekStartDate` therefore
  steps back six days, and `takeNames` looks for the sheet "Week starting 1 Feb".
- The search overwrites the captured coordinates on every match, so the last
  marker in scan order wins.
- The example's marker sits in row 0, column 1, and it is accepted: only a
  column of 0 ends in the fatal exit.
- The date marker is compared in the layout exactly as written, backslashes
  included. The Findings section below explains the consequence.

## Model

| member | source | states |
|---|---|---|
| Week.GoRem | main.go:49 | Go's `%`: the remainder has the sign of the dividend, is smaller than the divisor in magnitude, and the dividend equals divisor times truncated quotient plus remainder |
| Week.WeekOffset | main.go:49 | the offset `(Monday - weekday - 7) % 7` lies in [-6, 0], is 0 exactly for a Monday, and equals `-((weekday + 6) mod 7)` |
| Week.WeekStartDate | main.go:48-52 | the week start is a Monday, is not after the date and is less than 7 days before it; it equals the date exactly when the date is a Monday |
| Week.WeekStartUnique | main.go:48-52 | the week start is the only Monday among the seven days that end on the date |
| Week.WeekStartIdempotent | main.go:48-52 | resolving the week start of a week start returns it unchanged |
| Week.SheetLabel | main.go:111 | the sheet name of a date is the label of the one Monday among the seven days ending on the date, and it parses back to that Monday's day of the month and month |
| Week.SheetLabelOfWeek | main.go:111 | all seven days from a Monday to the next Sunday look up the sheet labelled with that Monday |
| Calendar.Weekday | main.go:49 | `Date.Weekday` is an ordinal from Sunday (0) to Saturday (6), and day 0, 1970-01-01, is a Thursday (4) |
| Calendar.WeekdayName | main.go:124 | `Weekday.String` for ordinals 0 to 6 is an English name of 6 to 9 letters ending in "day", with a lower-case third letter |
| Calendar.WeekdayNameInjective | main.go:124 | distinct weekdays have distinct names |
| Calendar.WeekdayNext | main.go:49 | the weekday advances by one from day to day, wrapping Saturday to Sunday, and repeats every seven days |
| Calendar.DateOf | main.go:111 | the calendar date of a day number exists, and its day number is the one given |
| Calendar.DateOfDayNumber | main.go:111 | converting a valid date to its day number and back gives the same date |
| Calendar.DayNumberInjective | main.go:111 | two valid dates with the same day number are the same date |
| Calendar.DaysBeforeYearMonotone | main.go:111 | over n years the calendar advances between 365n and 366n days |
| Layout.DecimalRoundTrip | main.go:111 | the unpadded decimal text of the "2" layout element reads back as the number |
| Layout.AppendInt | main.go:124 | Go's `appendInt`: a non-negative number gives only digits, at least `width` of them; a negative one gives a minus sign followed by at least `width` digits |
| Layout.AppendIntFixed | main.go:124 | a day below 100 formats as exactly two digits and a year below 10000 as exactly four, and each reads back as the number |
| Layout.MonthAbbrev | main.go:111 | the "Jan" layout element is a three-letter month abbreviation |
| Layout.MonthNumberOfAbbrev | main.go:111 | each month's abbreviation reads back as that month |
| Layout.CanonicalDecimal | main.go:111 | a digit string without a leading zero denotes a positive number and is exactly the unpadded text of that number |
| Layout.WeekLabelText | main.go:111 | the text of layout "Week starting 2 Jan" for a day parses back into exactly that day's day of the month and month, the day written without a leading zero |
| Layout.ParsedWeekLabel | main.go:111 | a text that parses as a label is "Week starting ", the unpadded day, a space and the month abbreviation |
| Layout.ParseWeekLabelInjective | main.go:111-114 | two texts that parse to the same day and month are the same text, so the label, which sheet names must equal exactly, is fixed |
| Layout.LayoutDateText | main.go:124 | layout `02\-Jan\-2006` as written copies its backslashes: the text has a backslash at index 2, and for years 0 to 9999 it is 13 characters with backslashes at 2 and 7 whose removal leaves the DD-Mon-YYYY text |
| Layout.DateText | main.go:124 | the corrected date marker, DD-Mon-YYYY, has a dash at index 2, and for years 0 to 9999 it parses back to exactly its date |
| Layout.LayoutDateTextKeepsBackslashes | main.go:124 | the date text as written differs from the DD-Mon-YYYY text for every date |
| Layout.WeekdayText | main.go:124 | the weekday text of a day ends in "day" and equals the name of the day's weekday and of no other weekday |
| Xlsx.CellAt | main.go:145-152 | a stored cell reads as stored; a cell the row does not store reads as empty text; a read can fail only at a cell the sheet stores |
| Roster.MarkersOf | main.go:124 | the marker texts as written are the layout text with backslashes and the weekday name; the empty text and the DD-Mon-YYYY text of the date match neither |
| Roster.IntendedMarkersOf | main.go:124 | the corrected marker texts keep the weekday name, match the DD-Mon-YYYY text of the date, and do not match the empty text |
| Roster.LastMarkerUnique | main.go:125 | at most one cell is the last marker in scan order |
| Roster.FindMarker | main.go:116-132 | with no marker the search leaves (0, 0); otherwise it leaves the coordinates of the last marker in row-major scan order; a cell past a failed read in its row is never a marker |
| Roster.LastMarker | main.go:116-132 | there is no result exactly when no cell is a marker; otherwise the result is the last marker in scan order |
| Roster.LastMarkerInSkipsRow | main.go:117-131 | a row without a marker leaves the kept marker as it was |
| Roster.Harvest | main.go:144-156 | the harvest of a range of rows has no empty name and at most one name per row |
| Roster.HarvestSplit | main.go:144-156 | harvesting a range gives the harvests of its two parts, in row order |
| Roster.HarvestSkipsBlank | main.go:153-155 | a blank cell contributes nothing and the harvest continues past it |
| Roster.HarvestMembers | main.go:144-156 | a name is harvested exactly when it is the non-empty value of a cell of the column in the range |
| Roster.GetNames | main.go:142-158 | with no error: every cell below the marker reads, and the names are the harvest of all rows below the marker; with an error: the failed row lies below the marker, every earlier row reads, and the names are the harvest of the rows before the failed one |
| Roster.NamesBelowSpec | main.go:144-152 | the getNames outcome is a name list; without an error it covers all rows to MaxRow; with one, the error is at the first unreadable row and the names stop there |
| Roster.GetNamesIsNamesBelow | main.go:142-158 | the postcondition of getNames determines its result uniquely |
| Roster.FirstSheetNamed | main.go:113-114 | the chosen sheet carries the label and no earlier sheet does; with no result no sheet carries it |
| Roster.LookupFor | main.go:109-140 | every name the lookup returns is non-empty |
| Roster.Lookup | main.go:109-140 | the outcome of takeNames for a date, with the markers as written; every name it returns is non-empty |
| Roster.LookupIntended | main.go:109-140 | the outcome with the corrected date marker; every name it returns is non-empty |
| Roster.TakeNames | main.go:109-140 | takeNames returns exactly the lookup's outcome for the date, with the marker texts as written |
| Roster.ScanBook | main.go:113-139 | the loop over the sheets returns the lookup's outcome for the label and the marker texts |
| Roster.LookupWithoutSheet | main.go:139 | with no sheet carrying the label, the result is no names and no error |
| Roster.LookupUsesFirstSheet | main.go:113-136 | only the first sheet carrying the label decides the result; later sheets with the same label are ignored |
| Roster.SheetFatalIff | main.go:133-135 | on the chosen sheet the lookup is fatal exactly when every last marker is in column 0; this includes the case of no marker at all |
| Roster.SearchOutcome | main.go:133-136 | a search result in column 0 ends in the fatal exit; any other column hands that marker's row and column to getNames |
| Roster.LookupErrorsComeFromHarvest | main.go:116-136 | an error in the result is always a failed read in the marker's column below the marker; read failures during the search never reach the caller |
| RosterExample.TestWeek | main.go:48-52 | 2021-02-07 is a Sunday, and its week starts on Monday 2021-02-01 |
| RosterExample.TestSheetLabel | main.go:111 | the sheet looked up for 2021-02-07 is "Week starting 1 Feb" |
| RosterExample.TestMarkers | main.go:124 | as written, the marker texts for 2021-02-07 are `07\-Feb\-2021` and "Sunday" |
| RosterExample.TestIntendedMarkers | main.go:124 | as intended, the marker texts for 2021-02-07 are "07-Feb-2021" and "Sunday" |
| RosterExample.TestLookup | main_test.go:12-45 | for 2021-02-07 the example workbook yields Michael, Brian, Elsie and Ernest, with no error; its marker is the weekday name, which matches as written |
| RosterExample.DateMarkedSheet | main.go:113-136 | on a sheet whose only marker is "07-Feb-2021", the intended markers find Michael and the markers as written end in the fatal exit |
| RosterExample.DateMarkerAsWrittenAndIntended | main.go:124 | for 2021-02-07 and a sheet marked "07-Feb-2021", takeNames as written ends in the fatal exit, while the corrected lookup returns Michael |

## Left out

- `NewServer`, `main`, `ServeHTTP` and `writeJSON` are not modelled. They cover
  templates, opening the workbook file, flags, the HTTP server, parsing the query
  date, the `time.Now()` default and rendering. All of these are I/O.
- Logging (`log.Printf`) is not modelled.
- The process exit in `log.Fatalf` is modelled as the outcome `Fatal`, not as
  the end of the program.
- Dates are whole day numbers since 1970-01-01. The dates main.go parses are UTC
  midnights, so `time.Time.Add` with a multiple of 24 hours is day arithmetic.
  Time zones, daylight saving and times of day are not modelled.
- `Calendar.WeekdayName`: Go's `Weekday.String` is modelled only for the ordinals
  0 to 6. Those are the only ones `Date.Weekday` produces.
- The workbook library's internals are not modelled. This covers how
  `FormattedValue` formats numbers and dates, and the options of `ForEachRow` and
  `ForEachCell`.
  - A failed `Sheet.Cell` and a failed `FormattedValue` are both the cell value
    `Unreadable`.
  - The scan order is fixed: rows top to bottom, cells left to right.
  - A failed read ends the visit of that row's cells, because `ForEachCell`
    stops at the first error its visitor returns.
  - `MaxRow` is the number of stored rows. A cell that a row does not store reads
    as empty text.
  - `ForEachCell` also visits the cells past a row's stored ones, up to the
    sheet's column count, as empty cells. The model's search visits only stored
    cells. This changes no result, because `Roster.MarkersOf` proves that the
    empty text never matches a marker.
- `Roster.ReadError`: the error that ends getNames is modelled by the position of
  the failed read, not by the library's error value.
- Go distinguishes a nil slice from an empty one. The model's name lists do not.
- `Layout.DateText`: the round trip is stated only for years 0 to 9999. Outside
  that range the "2006" element prints a sign or more than four digits, so a
  fixed-width parse does not apply. `Layout.LayoutDateText` states its length and
  second backslash for the same range only.
- The repository's test workbook is not part of this model. `RosterExample`
  builds a workbook laid out as the test expects.

## Findings

| source | as written | input that shows it | evidently intended | confidence | as-written member | corrected member |
|---|---|---|---|---|---|---|
| main.go:124 | the marker layout is written `02\-Jan\-2006`; Go layouts have no escape character, so each backslash is copied into the text | 2021-02-07 formats as `07\-Feb\-2021`, so a cell reading "07-Feb-2021" never matches and a sheet marked only that way ends in the fatal exit | the date as DD-Mon-YYYY, "07-Feb-2021" | not executed; follows from the Go layout rules, but may be deliberate if the workbook's formatted values keep Excel's backslash escapes | Roster.MarkersOf | Roster.IntendedMarkersOf |

`Roster.MarkersOf` and `Roster.Lookup` model the code as written, and
`Roster.TakeNames` is proved against them. `Roster.IntendedMarkersOf` and
`Roster.LookupIntended` give the corrected behaviour.
`RosterExample.DateMarkerAsWrittenAndIntended` contrasts the two on one sheet. A
cell that holds the weekday name matches in either version.
