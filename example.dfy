/**
 * The scenario of the repository's test of takeNames: the roster for Sunday
 * 2021-02-07. The test's workbook file is not part of this model; the workbook
 * here is one laid out as that test expects, with a marker "Sunday" and four
 * names below it, a blank cell and an empty row after them, a sheet for another
 * week before it and a second sheet with the same label after it.
 */
module RosterExample {
  import opened Wrappers
  import opened Calendar
  import opened Layout
  import opened Week
  import opened Xlsx
  import opened Roster

  /** A row of the roster: the duty in column 0, the person in column 1. */
  function DutyRow(duty: string, person: string): seq<Cell> {
    [Text(duty), Text(person)]
  }

  function TestSheet(): Sheet {
    Sheet("Week starting 1 Feb", [
      [Text("Duty"), Text("Sunday"), Text("Monday")],
      DutyRow("Door", "Michael"),
      DutyRow("Music", "Brian"),
      DutyRow("Tea", "Elsie"),
      DutyRow("Reading", "Ernest"),
      DutyRow("Notes", ""),
      []
    ])
  }

  function TestBook(): File {
    File([
      Sheet("Week starting 8 Feb", [[Text("Sunday")], [Text("Someone else")]]),
      TestSheet(),
      Sheet("Week starting 1 Feb", [[Text(""), Text("Sunday")], [Text(""), Text("Not used")]])
    ])
  }

  /** The day the test asks about. */
  function TestDate(): Day {
    DayNumber(Date(2021, 2, 7))
  }

  lemma TestDateNumber()
    ensures TestDate() == 18665
    ensures DayNumber(Date(2021, 2, 1)) == 18659
  {
    assert DaysBeforeYear(2021) == 18628;
  }

  lemma TestCalendarDates()
    ensures DateOf(18665) == Date(2021, 2, 7)
    ensures DateOf(18659) == Date(2021, 2, 1)
  {
    TestDateNumber();
    DateOfDayNumber(Date(2021, 2, 7));
    DateOfDayNumber(Date(2021, 2, 1));
  }

  lemma TestDigits()
    ensures Decimal(1) == "1"
    ensures AppendInt(7, 2) == "07"
    ensures AppendInt(2021, 4) == "2021"
    ensures MonthAbbrev(2) == "Feb"
  {
    assert Decimal(7) == "7";
    assert Decimal(2) == "2";
    assert Decimal(20) == "20";
    assert Decimal(202) == "202";
    assert Decimal(2021) == "2021";
  }

  // The Join lemmas concatenate literal pieces in a proof context of their own:
  // next to the calendar conversion of a literal day, the same step is far costlier.

  lemma JoinDateText(dd: string, mon: string, yyyy: string)
    requires dd == "07" && mon == "Feb" && yyyy == "2021"
    ensures dd + "-" + mon + "-" + yyyy == "07-Feb-2021"
  {
  }

  lemma JoinLayoutDateText(dd: string, mon: string, yyyy: string)
    requires dd == "07" && mon == "Feb" && yyyy == "2021"
    ensures dd + "\\-" + mon + "\\-" + yyyy == "07\\-Feb\\-2021"
  {
  }

  lemma JoinWeekLabel(d: string, mon: string)
    requires d == "1" && mon == "Feb"
    ensures "Week starting " + d + " " + mon == "Week starting 1 Feb"
  {
  }

  /** 2021-02-07 is a Sunday and its week starts on Monday 1 February. */
  lemma TestWeek()
    ensures Weekday(TestDate()) == Sunday
    ensures WeekStartDate(TestDate()) == DayNumber(Date(2021, 2, 1))
  {
    TestDateNumber();
  }

  lemma TestLabelParts(d: Day)
    requires d == 18659
    ensures WeekLabelText(d) == "Week starting " + AppendInt(1, 0) + " " + MonthAbbrev(2)
  {
    TestCalendarDates();
  }

  lemma TestWeekLabel(d: Day)
    requires d == 18659
    ensures WeekLabelText(d) == "Week starting 1 Feb"
  {
    TestLabelParts(d);
    TestDigits();
    DecimalIsAppendInt(1);
    JoinWeekLabel(AppendInt(1, 0), MonthAbbrev(2));
  }

  /** The week of 2021-02-07 is looked up under the sheet label "Week starting 1 Feb". */
  lemma TestSheetLabel()
    ensures SheetLabel(TestDate()) == "Week starting 1 Feb"
  {
    TestWeek();
    TestDateNumber();
    TestWeekLabel(WeekStartDate(TestDate()));
  }

  lemma TestDateTextParts(d: Day)
    requires d == 18665
    ensures DateText(d) == AppendInt(7, 2) + "-" + MonthAbbrev(2) + "-" + AppendInt(2021, 4)
  {
    TestCalendarDates();
  }

  lemma TestDateTextValue(d: Day)
    requires d == 18665
    ensures DateText(d) == "07-Feb-2021"
  {
    TestDateTextParts(d);
    TestDigits();
    JoinDateText(AppendInt(7, 2), MonthAbbrev(2), AppendInt(2021, 4));
  }

  lemma TestLayoutDateTextParts(d: Day)
    requires d == 18665
    ensures LayoutDateText(d) == AppendInt(7, 2) + "\\-" + MonthAbbrev(2) + "\\-" + AppendInt(2021, 4)
  {
    TestCalendarDates();
  }

  lemma TestLayoutDateTextValue(d: Day)
    requires d == 18665
    ensures LayoutDateText(d) == "07\\-Feb\\-2021"
  {
    TestLayoutDateTextParts(d);
    TestDigits();
    JoinLayoutDateText(AppendInt(7, 2), MonthAbbrev(2), AppendInt(2021, 4));
  }

  /** The texts that mark 2021-02-07 in a sheet, as written: the date text keeps the layout's backslashes. */
  lemma TestMarkers()
    ensures MarkersOf(TestDate()) == Markers("07\\-Feb\\-2021", "Sunday")
  {
    TestWeek();
    TestDateNumber();
    TestLayoutDateTextValue(TestDate());
  }

  /** The texts that mark 2021-02-07 as intended: the date text is "07-Feb-2021". */
  lemma TestIntendedMarkers()
    ensures IntendedMarkersOf(TestDate()) == Markers("07-Feb-2021", "Sunday")
  {
    TestWeek();
    TestDateNumber();
    TestDateTextValue(TestDate());
  }

  /** The first sheet labelled "Week starting 1 Feb" is the second one. */
  lemma TestSheetFound()
    ensures FirstSheetNamed(TestBook().sheets, "Week starting 1 Feb") == Some(1)
  {
  }

  /** In the header row the marker kept is "Sunday" in column 1. */
  lemma TestMarkerRow(want: Markers)
    requires want == Markers("07\\-Feb\\-2021", "Sunday")
    ensures LastMarkerIn(TestSheet().rows, 1, want) == Some(Coord(0, 1))
  {
    var rows := TestSheet().rows;
    assert FirstUnreadable(rows[0]) == 3;
    assert LastMatchIn(rows[0], 3, want) == Some(1);
  }

  /** A duty row whose texts are not marker texts holds no marker. */
  lemma PlainDutyRow(duty: string, person: string, want: Markers)
    requires !IsMarkerText(duty, want) && !IsMarkerText(person, want)
    ensures forall c :: !MarksInRow(DutyRow(duty, person), c, want)
  {
  }

  /** The first two duty rows hold no marker. */
  lemma TestUpperRows(want: Markers)
    requires want == Markers("07\\-Feb\\-2021", "Sunday")
    ensures LastMarkerIn(TestSheet().rows, 3, want) == LastMarkerIn(TestSheet().rows, 1, want)
  {
    var rows := TestSheet().rows;
    PlainDutyRow("Door", "Michael", want);
    LastMarkerInSkipsRow(rows, 1, want);
    PlainDutyRow("Music", "Brian", want);
    LastMarkerInSkipsRow(rows, 2, want);
  }

  /** The remaining rows hold no marker either. */
  lemma TestLowerRows(want: Markers)
    requires want == Markers("07\\-Feb\\-2021", "Sunday")
    ensures LastMarkerIn(TestSheet().rows, 7, want) == LastMarkerIn(TestSheet().rows, 3, want)
  {
    var rows := TestSheet().rows;
    PlainDutyRow("Tea", "Elsie", want);
    LastMarkerInSkipsRow(rows, 3, want);
    PlainDutyRow("Reading", "Ernest", want);
    LastMarkerInSkipsRow(rows, 4, want);
    PlainDutyRow("Notes", "", want);
    LastMarkerInSkipsRow(rows, 5, want);
    LastMarkerInSkipsRow(rows, 6, want);
  }

  /** The only marker of the sheet is "Sunday" at row 0, column 1. */
  lemma TestMarkerFound(want: Markers)
    requires want == Markers("07\\-Feb\\-2021", "Sunday")
    ensures LastMarker(TestSheet().rows, want) == Some(Coord(0, 1))
  {
    TestMarkerRow(want);
    TestUpperRows(want);
    TestLowerRows(want);
  }

  lemma TestColumnReadable(sheet: Sheet)
    requires sheet == TestSheet()
    ensures FirstUnreadableRow(sheet, 1, 1, 7) == 7
  {
    assert FirstUnreadableRow(sheet, 1, 4, 7) == 7;
  }

  lemma TestHarvest(sheet: Sheet)
    requires sheet == TestSheet()
    ensures Harvest(sheet, 1, 1, 7) == ["Michael", "Brian", "Elsie", "Ernest"]
  {
    assert Harvest(sheet, 1, 1, 3) == ["Michael", "Brian"];
    assert Harvest(sheet, 1, 1, 4) == ["Michael", "Brian"] + ["Elsie"];
    assert Harvest(sheet, 1, 1, 5) == ["Michael", "Brian", "Elsie"] + ["Ernest"];
    assert Harvest(sheet, 1, 1, 7) == Harvest(sheet, 1, 1, 5);
    assert ["Michael", "Brian", "Elsie"] + ["Ernest"] == ["Michael", "Brian", "Elsie", "Ernest"];
  }

  /** Below the marker the four names are harvested, the blank cell is skipped, and nothing fails to read. */
  lemma TestNamesBelow()
    ensures NamesBelow(TestSheet(), 0, 1) == Names(["Michael", "Brian", "Elsie", "Ernest"], None)
  {
    TestColumnReadable(TestSheet());
    TestHarvest(TestSheet());
  }

  /** The lookup with the sheet label and markers of 2021-02-07 finds the four names the test expects. */
  lemma LookupOfTestTexts()
    ensures LookupFor(TestBook(), "Week starting 1 Feb", Markers("07\\-Feb\\-2021", "Sunday"))
      == Names(["Michael", "Brian", "Elsie", "Ernest"], None)
  {
    TestSheetFound();
    TestMarkerFound(Markers("07\\-Feb\\-2021", "Sunday"));
    TestNamesBelow();
  }

  /** takeNames on the test's date returns the four names the test expects, without error. */
  lemma TestLookup()
    ensures Lookup(TestBook(), TestDate()) == Names(["Michael", "Brian", "Elsie", "Ernest"], None)
  {
    TestSheetLabel();
    TestMarkers();
    LookupOfTestTexts();
  }

  /** A week's sheet whose only marker is the date written DD-Mon-YYYY. */
  function DateMarkedBook(): File {
    File([Sheet("Week starting 1 Feb", [[Text("Duty"), Text("07-Feb-2021")], DutyRow("Door", "Michael")])])
  }

  lemma DateMarkedSheet(want: Markers)
    requires want == Markers("07-Feb-2021", "Sunday") || want == Markers("07\\-Feb\\-2021", "Sunday")
    ensures LookupFor(DateMarkedBook(), "Week starting 1 Feb", want)
      == if want.dateText == "07-Feb-2021" then Names(["Michael"], None) else Fatal
  {
    var sheet := DateMarkedBook().sheets[0];
    assert FirstSheetNamed(DateMarkedBook().sheets, "Week starting 1 Feb") == Some(0);
    PlainDutyRow("Door", "Michael", want);
    LastMarkerInSkipsRow(sheet.rows, 1, want);
    if want.dateText == "07-Feb-2021" {
      assert LastMatchIn(sheet.rows[0], 2, want) == Some(1);
      assert Harvest(sheet, 1, 1, 2) == ["Michael"];
    } else {
      assert LastMatchIn(sheet.rows[0], 2, want) == None;
    }
  }

  /**
   * On a sheet marked "07-Feb-2021", takeNames as written finds no marker for
   * 2021-02-07 and ends in the fatal exit, while the intended lookup finds Michael.
   */
  lemma DateMarkerAsWrittenAndIntended()
    ensures Lookup(DateMarkedBook(), TestDate()) == Fatal
    ensures LookupIntended(DateMarkedBook(), TestDate()) == Names(["Michael"], None)
  {
    TestSheetLabel();
    TestMarkers();
    TestIntendedMarkers();
    DateMarkedSheet(Markers("07\\-Feb\\-2021", "Sunday"));
    DateMarkedSheet(Markers("07-Feb-2021", "Sunday"));
  }
}
