/**
 * The roster lookup of main.go. takeNames picks the sheet of the date's week,
 * searches it for the cell that marks the date and hands the marker's position
 * to getNames, which reads the names listed below the marker in its column.
 *
 * Each of the three operations is a method with the source's loops, proved
 * against a specification: FindMarker against the predicate IsLastMarker,
 * GetNames against IsGetNamesResult (stated with Harvest), TakeNames against
 * Lookup. The lemmas SearchOutcome and GetNamesIsNamesBelow carry the first two
 * over to the functions LastMarker and NamesBelow.
 */
module Roster {
  import opened Wrappers
  import opened Calendar
  import opened Layout
  import opened Week
  import opened Xlsx

  /** The failed read that ends getNames, at the cell where it happened. */
  datatype ReadError = ReadError(row: nat, col: nat)

  /**
   * How takeNames ends: a list of names with the error that cut it short, if any,
   * or Fatal where main.go calls log.Fatalf and the process exits.
   */
  datatype Outcome = Names(names: seq<string>, err: Option<ReadError>) | Fatal

  datatype Coord = Coord(row: nat, col: nat)

  // ---------------------------------------------------------------- marker search

  /** The two texts that mark a date: its formatted date and its full weekday name. */
  datatype Markers = Markers(dateText: string, weekday: string)

  /** A formatted value marks the date when it equals one of the two texts exactly. */
  predicate IsMarkerText(value: string, want: Markers) {
    value == want.dateText || value == want.weekday
  }

  /**
   * The marker texts main.go compares cells against: the date in its layout as
   * written, with the copied backslashes, and the weekday name. An empty cell never
   * marks a date, and neither does a cell holding the date as DD-Mon-YYYY.
   */
  function MarkersOf(date: Day): (m: Markers)
    ensures m.dateText == LayoutDateText(date)
    ensures IsMarkerText(WeekdayText(date), m)
    ensures !IsMarkerText("", m)
    ensures !IsMarkerText(DateText(date), m)
  {
    assert LayoutDateText(date)[2] != DateText(date)[2] && DateText(date)[2] != WeekdayText(date)[2];
    Markers(LayoutDateText(date), WeekdayText(date))
  }

  /**
   * The corrected date marker: the marker texts with the date written DD-Mon-YYYY.
   * An empty cell never marks a date; the DD-Mon-YYYY text does.
   */
  function IntendedMarkersOf(date: Day): (m: Markers)
    ensures m.weekday == MarkersOf(date).weekday
    ensures IsMarkerText(DateText(date), m)
    ensures !IsMarkerText("", m)
  {
    Markers(DateText(date), WeekdayText(date))
  }

  /** Cell c of a row is read by the scan (no cell before it failed to read) and marks the date. */
  predicate MarksInRow(row: seq<Cell>, c: int, want: Markers) {
    && 0 <= c < |row|
    && (forall k :: 0 <= k < c ==> row[k].Text?)
    && row[c].Text? && IsMarkerText(row[c].value, want)
  }

  predicate IsMarker(rows: seq<seq<Cell>>, r: int, c: int, want: Markers) {
    0 <= r < |rows| && MarksInRow(rows[r], c, want)
  }

  /** Cell (r1, c1) is visited no later than cell (r2, c2): rows top to bottom, cells left to right. */
  predicate NotAfter(r1: int, c1: int, r2: int, c2: int) {
    r1 < r2 || (r1 == r2 && c1 <= c2)
  }

  /** (r, c) is the marker the search keeps: every later match overwrites the earlier ones. */
  ghost predicate IsLastMarker(rows: seq<seq<Cell>>, r: int, c: int, want: Markers) {
    IsMarker(rows, r, c, want) &&
    forall r', c' :: IsMarker(rows, r', c', want) ==> NotAfter(r', c', r, c)
  }

  lemma LastMarkerUnique(rows: seq<seq<Cell>>, want: Markers, r1: int, c1: int, r2: int, c2: int)
    requires IsLastMarker(rows, r1, c1, want) && IsLastMarker(rows, r2, c2, want)
    ensures r1 == r2 && c1 == c2
  {
  }

  /**
   * The marker search of takeNames: visits every row, and in each row its cells
   * left to right until one fails to read; the coordinates (column x, row y) of
   * each match overwrite the previous ones, and stay (0, 0) if nothing matches.
   */
  method FindMarker(sheet: Sheet, want: Markers) returns (x: nat, y: nat)
    ensures (forall r, c :: !IsMarker(sheet.rows, r, c, want)) ==> x == 0 && y == 0
    ensures (exists r, c :: IsMarker(sheet.rows, r, c, want)) ==> IsLastMarker(sheet.rows, y, x, want)
  {
    var rows := sheet.rows;
    x, y := 0, 0;
    ghost var found := false;
    var r := 0;
    while r < |rows|
      invariant 0 <= r <= |rows|
      invariant !found ==> x == 0 && y == 0
      invariant !found ==> forall r', c' :: 0 <= r' < r ==> !MarksInRow(rows[r'], c', want)
      invariant found ==> y < r && MarksInRow(rows[y], x, want)
      invariant found ==> forall r', c' :: 0 <= r' < r && MarksInRow(rows[r'], c', want) ==> NotAfter(r', c', y, x)
    {
      var row := rows[r];
      var c := 0;
      // ForEachCell stops at the first cell whose visitor returns a read error.
      while c < |row| && row[c].Text?
        invariant 0 <= c <= |row|
        invariant forall k :: 0 <= k < c ==> row[k].Text?
        invariant !found ==> x == 0 && y == 0
        invariant !found ==> forall r', c' :: 0 <= r' < r ==> !MarksInRow(rows[r'], c', want)
        invariant !found ==> forall c' :: 0 <= c' < c ==> !MarksInRow(row, c', want)
        invariant found ==> y <= r && MarksInRow(rows[y], x, want) && (y == r ==> x < c)
        invariant found ==> forall r', c' :: 0 <= r' < r && MarksInRow(rows[r'], c', want) ==> NotAfter(r', c', y, x)
        invariant found ==> forall c' :: 0 <= c' < c && MarksInRow(row, c', want) ==> NotAfter(r, c', y, x)
      {
        if IsMarkerText(row[c].value, want) {
          x, y := c, r;
          found := true;
        }
        c := c + 1;
      }
      assert forall c' :: c <= c' ==> !MarksInRow(row, c', want);
      r := r + 1;
    }
    if found {
      assert IsMarker(rows, y, x, want);
    }
  }

  /** The position of the first cell of a row that fails to read, or the row's length. */
  function FirstUnreadable(row: seq<Cell>): (k: nat)
    ensures k <= |row|
    ensures forall j :: 0 <= j < k ==> row[j].Text?
    ensures k < |row| ==> row[k].Unreadable?
  {
    if row == [] || row[0].Unreadable? then 0 else 1 + FirstUnreadable(row[1..])
  }

  /** The last of the first k cells of a row that holds a marker text. */
  function LastMatchIn(row: seq<Cell>, k: nat, want: Markers): (c: Option<nat>)
    requires k <= |row|
    ensures c.Some? ==> c.value < k && row[c.value].Text? && IsMarkerText(row[c.value].value, want)
    ensures c.Some? ==> forall j :: c.value < j < k ==> !(row[j].Text? && IsMarkerText(row[j].value, want))
    ensures c.None? ==> forall j :: 0 <= j < k ==> !(row[j].Text? && IsMarkerText(row[j].value, want))
  {
    if k == 0 then None
    else if row[k - 1].Text? && IsMarkerText(row[k - 1].value, want) then Some(k - 1)
    else LastMatchIn(row, k - 1, want)
  }

  /** The last marker within the first n rows, in scan order. */
  function LastMarkerIn(rows: seq<seq<Cell>>, n: nat, want: Markers): (m: Option<Coord>)
    requires n <= |rows|
    ensures m.Some? ==> m.value.row < n && IsMarker(rows, m.value.row, m.value.col, want)
    ensures m.Some? ==> forall r, c :: r < n && IsMarker(rows, r, c, want) ==> NotAfter(r, c, m.value.row, m.value.col)
    ensures m.None? ==> forall r, c :: r < n ==> !IsMarker(rows, r, c, want)
  {
    if n == 0 then None
    else
      var row := rows[n - 1];
      var reach := FirstUnreadable(row);
      assert forall c :: MarksInRow(row, c, want) <==> 0 <= c < reach && IsMarkerText(row[c].value, want);
      match LastMatchIn(row, reach, want)
      case Some(c) => Some(Coord(n - 1, c))
      case None => LastMarkerIn(rows, n - 1, want)
  }

  /** A row without a marker leaves the search's result as it was. */
  lemma LastMarkerInSkipsRow(rows: seq<seq<Cell>>, n: nat, want: Markers)
    requires n < |rows|
    requires forall c :: !MarksInRow(rows[n], c, want)
    ensures LastMarkerIn(rows, n + 1, want) == LastMarkerIn(rows, n, want)
  {
    var row := rows[n];
    var m := LastMatchIn(row, FirstUnreadable(row), want);
    if m.Some? {
      assert MarksInRow(row, m.value, want);
    }
  }

  /** The marker the search keeps, if any cell of the sheet is a marker. */
  function LastMarker(rows: seq<seq<Cell>>, want: Markers): (m: Option<Coord>)
    ensures m.None? <==> forall r, c :: !IsMarker(rows, r, c, want)
    ensures m.Some? ==> IsLastMarker(rows, m.value.row, m.value.col, want)
  {
    LastMarkerIn(rows, |rows|, want)
  }

  // ---------------------------------------------------------------- name harvest

  function NameIn(cell: Cell): seq<string> {
    if cell.Text? && cell.value != "" then [cell.value] else []
  }

  /** The non-empty values of column col in rows lo to hi - 1, top to bottom. */
  function Harvest(sheet: Sheet, col: nat, lo: nat, hi: nat): (names: seq<string>)
    ensures |names| <= if lo <= hi then hi - lo else 0
    ensures forall k :: 0 <= k < |names| ==> names[k] != ""
    decreases hi
  {
    if hi <= lo then [] else Harvest(sheet, col, lo, hi - 1) + NameIn(CellAt(sheet, hi - 1, col))
  }

  /** Harvesting a range gives the harvests of its two parts, one after the other. */
  lemma {:induction false} HarvestSplit(sheet: Sheet, col: nat, lo: nat, mid: nat, hi: nat)
    requires lo <= mid <= hi
    ensures Harvest(sheet, col, lo, hi) == Harvest(sheet, col, lo, mid) + Harvest(sheet, col, mid, hi)
    decreases hi
  {
    if mid < hi {
      HarvestSplit(sheet, col, lo, mid, hi - 1);
    }
  }

  /** A blank cell contributes nothing and does not stop the harvest of the rows below it. */
  lemma HarvestSkipsBlank(sheet: Sheet, col: nat, lo: nat, k: nat, hi: nat)
    requires lo <= k < hi
    requires CellAt(sheet, k, col) == Text("")
    ensures Harvest(sheet, col, lo, hi) == Harvest(sheet, col, lo, k) + Harvest(sheet, col, k + 1, hi)
  {
    var below := Harvest(sheet, col, k + 1, hi);
    assert Harvest(sheet, col, k, hi) == below by {
      HarvestSplit(sheet, col, k, k + 1, hi);
      assert Harvest(sheet, col, k, k + 1) == [];
      assert [] + below == below;
    }
    HarvestSplit(sheet, col, lo, k, hi);
  }

  /** A name is harvested exactly when it is the non-empty value of some cell in the range. */
  lemma {:induction false} HarvestMembers(sheet: Sheet, col: nat, lo: nat, hi: nat, v: string)
    ensures v in Harvest(sheet, col, lo, hi) <==>
            v != "" && exists i :: lo <= i < hi && CellAt(sheet, i, col) == Text(v)
    decreases hi
  {
    if lo < hi {
      HarvestMembers(sheet, col, lo, hi - 1, v);
      if CellAt(sheet, hi - 1, col) == Text(v) && v != "" {
        assert v in Harvest(sheet, col, lo, hi);
      }
    }
  }

  /** The first row from lo on, below hi, whose cell in column col fails to read; hi if none does. */
  function FirstUnreadableRow(sheet: Sheet, col: nat, lo: nat, hi: nat): (i: nat)
    ensures lo <= i && (i == lo || i <= hi)
    ensures i < hi ==> CellAt(sheet, i, col).Unreadable?
    ensures forall j :: lo <= j < i ==> CellAt(sheet, j, col).Text?
    decreases hi - lo
  {
    if lo >= hi || CellAt(sheet, lo, col).Unreadable? then lo
    else FirstUnreadableRow(sheet, col, lo + 1, hi)
  }

  /** What getNames returns for the marker at (row, col). */
  function NamesBelow(sheet: Sheet, row: nat, col: nat): Outcome {
    var stop := FirstUnreadableRow(sheet, col, row + 1, MaxRow(sheet));
    Names(Harvest(sheet, col, row + 1, stop), if stop < MaxRow(sheet) then Some(ReadError(stop, col)) else None)
  }

  /**
   * getNames' postcondition for the marker at (row, col). Without an error every
   * cell below the marker reads and the names are the harvest of all those rows.
   * With one, the failed read lies below the marker in its column, every row
   * before it reads, and the names are the harvest of the rows before it.
   */
  predicate IsGetNamesResult(sheet: Sheet, row: nat, col: nat, names: seq<string>, err: Option<ReadError>) {
    && (err.None? ==> (forall i :: row < i < MaxRow(sheet) ==> CellAt(sheet, i, col).Text?)
                      && names == Harvest(sheet, col, row + 1, MaxRow(sheet)))
    && (err.Some? ==> err.value.col == col && row < err.value.row < MaxRow(sheet)
                      && CellAt(sheet, err.value.row, col).Unreadable?
                      && (forall i :: row < i < err.value.row ==> CellAt(sheet, i, col).Text?)
                      && names == Harvest(sheet, col, row + 1, err.value.row))
  }

  /**
   * getNames: for each row below `row` it reads the cell in column `col`, keeps
   * its value when not empty, and on the first read failure returns the names so
   * far together with the error.
   */
  method GetNames(sheet: Sheet, row: nat, col: nat) returns (names: seq<string>, err: Option<ReadError>)
    ensures IsGetNamesResult(sheet, row, col, names, err)
  {
    names := [];
    var i := row + 1;
    while i < MaxRow(sheet)
      invariant row + 1 <= i && (i == row + 1 || i <= MaxRow(sheet))
      invariant forall j :: row < j < i ==> CellAt(sheet, j, col).Text?
      invariant names == Harvest(sheet, col, row + 1, i)
    {
      var cell := CellAt(sheet, i, col);
      if cell.Unreadable? {
        return names, Some(ReadError(i, col));
      }
      if cell.value != "" {
        names := names + [cell.value];
      }
      i := i + 1;
    }
    err := None;
  }

  /** getNames agrees with NamesBelow: the names so far and the first failed read, if any. */
  lemma NamesBelowSpec(sheet: Sheet, row: nat, col: nat)
    ensures var out := NamesBelow(sheet, row, col);
      out.Names? && IsGetNamesResult(sheet, row, col, out.names, out.err)
  {
    var stop := FirstUnreadableRow(sheet, col, row + 1, MaxRow(sheet));
    if stop >= MaxRow(sheet) && stop != MaxRow(sheet) {
      assert stop == row + 1;
    }
  }

  // ---------------------------------------------------------------- sheet selection

  /** The position of the first sheet with the wanted name, in the workbook's order. */
  function FirstSheetNamed(sheets: seq<Sheet>, wanted: string): (i: Option<nat>)
    ensures i.Some? ==> IsFirstSheetNamed(sheets, wanted, i.value)
    ensures i.None? ==> forall j :: 0 <= j < |sheets| ==> sheets[j].name != wanted
  {
    if sheets == [] then None
    else if sheets[0].name == wanted then Some(0)
    else match FirstSheetNamed(sheets[1..], wanted)
      case Some(i) => Some(i + 1)
      case None => None
  }

  /** Sheet i is the first one with the wanted name. */
  predicate IsFirstSheetNamed(sheets: seq<Sheet>, wanted: string, i: int) {
    && 0 <= i < |sheets|
    && sheets[i].name == wanted
    && forall j :: 0 <= j < i ==> sheets[j].name != wanted
  }

  /** What takeNames returns once it has chosen a sheet: Fatal unless the kept marker lies beyond column 0. */
  function SheetOutcome(sheet: Sheet, want: Markers): Outcome {
    match LastMarker(sheet.rows, want)
    case None => Fatal
    case Some(m) => if m.col == 0 then Fatal else NamesBelow(sheet, m.row, m.col)
  }

  /** The result of takeNames once the sheet label and the marker texts are known. */
  function LookupFor(book: File, wanted: string, want: Markers): (out: Outcome)
    ensures out.Names? ==> forall k :: 0 <= k < |out.names| ==> out.names[k] != ""
  {
    match FirstSheetNamed(book.sheets, wanted)
    case None => Names([], None)
    case Some(i) => SheetOutcome(book.sheets[i], want)
  }

  /** The result of takeNames for a date. */
  function Lookup(book: File, date: Day): (out: Outcome)
    ensures out.Names? ==> forall k :: 0 <= k < |out.names| ==> out.names[k] != ""
  {
    LookupFor(book, SheetLabel(date), MarkersOf(date))
  }

  /** The lookup as it would be with the date marker written DD-Mon-YYYY. */
  function LookupIntended(book: File, date: Day): (out: Outcome)
    ensures out.Names? ==> forall k :: 0 <= k < |out.names| ==> out.names[k] != ""
  {
    LookupFor(book, SheetLabel(date), IntendedMarkersOf(date))
  }

  /**
   * takeNames: the sheet label comes from the Monday of the date's week and the
   * marker texts from the date itself; the workbook is then scanned for them.
   */
  method TakeNames(book: File, date: Day) returns (result: Outcome)
    ensures result == Lookup(book, date)
  {
    var sheetName := SheetLabel(date);
    var want := MarkersOf(date);
    result := ScanBook(book, sheetName, want);
  }

  /**
   * The body of takeNames once the label and the marker texts are known: finds the
   * first sheet with the label, searches it for the marker, exits when the marker's
   * column is 0 and otherwise harvests the names below it; with no such sheet it
   * returns no names and no error.
   */
  method ScanBook(book: File, sheetName: string, want: Markers) returns (result: Outcome)
    ensures result == LookupFor(book, sheetName, want)
  {
    var k := 0;
    while k < |book.sheets|
      invariant 0 <= k <= |book.sheets|
      invariant forall j :: 0 <= j < k ==> book.sheets[j].name != sheetName
    {
      var sheet := book.sheets[k];
      if sheet.name == sheetName {
        LookupUsesFirstSheet(book, sheetName, want, k);
        var x, y := FindMarker(sheet, want);
        SearchOutcome(sheet, want, x, y);
        if x == 0 {
          return Fatal;
        }
        var names, err := GetNames(sheet, y, x);
        GetNamesIsNamesBelow(sheet, y, x, names, err);
        return Names(names, err);
      }
      k := k + 1;
    }
    LookupWithoutSheet(book, sheetName, want);
    return Names([], None);
  }

  // ---------------------------------------------------------------- properties of the lookup

  /** With no sheet carrying the label, the lookup gives no names and no error. */
  lemma LookupWithoutSheet(book: File, wanted: string, want: Markers)
    requires forall j :: 0 <= j < |book.sheets| ==> book.sheets[j].name != wanted
    ensures LookupFor(book, wanted, want) == Names([], None)
  {
  }

  /** Only the first sheet carrying the label is consulted; later sheets with the same label are not. */
  lemma LookupUsesFirstSheet(book: File, wanted: string, want: Markers, i: int)
    requires IsFirstSheetNamed(book.sheets, wanted, i)
    ensures LookupFor(book, wanted, want) == SheetOutcome(book.sheets[i], want)
  {
    assert FirstSheetNamed(book.sheets, wanted) == Some(i);
  }

  /**
   * Once a sheet is chosen, the lookup fails exactly when the kept marker is in
   * column 0, or when there is no marker at all.
   */
  lemma SheetFatalIff(sheet: Sheet, want: Markers)
    ensures SheetOutcome(sheet, want).Fatal? <==>
            forall r, c :: IsLastMarker(sheet.rows, r, c, want) ==> c == 0
  {
    var last := LastMarker(sheet.rows, want);
    if last.Some? {
      forall r, c | IsLastMarker(sheet.rows, r, c, want)
        ensures r == last.value.row && c == last.value.col
      {
        LastMarkerUnique(sheet.rows, want, r, c, last.value.row, last.value.col);
      }
    }
  }

  /**
   * What the marker search leaves in (x, y) decides the outcome: column 0 ends in
   * Fatal, any other column hands (row y, column x) to getNames.
   */
  lemma SearchOutcome(sheet: Sheet, want: Markers, x: nat, y: nat)
    requires (forall r, c :: !IsMarker(sheet.rows, r, c, want)) ==> x == 0 && y == 0
    requires (exists r, c :: IsMarker(sheet.rows, r, c, want)) ==> IsLastMarker(sheet.rows, y, x, want)
    ensures x == 0 ==> SheetOutcome(sheet, want) == Fatal
    ensures x != 0 ==> SheetOutcome(sheet, want) == NamesBelow(sheet, y, x)
  {
    var last := LastMarker(sheet.rows, want);
    if last.Some? {
      assert IsMarker(sheet.rows, last.value.row, last.value.col, want);
      LastMarkerUnique(sheet.rows, want, y, x, last.value.row, last.value.col);
    }
  }

  /** What getNames returns is NamesBelow: its postcondition leaves no other choice. */
  lemma GetNamesIsNamesBelow(sheet: Sheet, row: nat, col: nat, names: seq<string>, err: Option<ReadError>)
    requires IsGetNamesResult(sheet, row, col, names, err)
    ensures Names(names, err) == NamesBelow(sheet, row, col)
  {
    NamesBelowSpec(sheet, row, col);
    var stop := FirstUnreadableRow(sheet, col, row + 1, MaxRow(sheet));
    if err.Some? {
      assert stop == err.value.row;
    }
  }

  /**
   * Read failures during the marker search never reach the caller: an error in
   * the result is a failed read in the marker's column, below the marker.
   */
  lemma LookupErrorsComeFromHarvest(book: File, wanted: string, want: Markers)
    requires LookupFor(book, wanted, want).Names? && LookupFor(book, wanted, want).err.Some?
    ensures var i := FirstSheetNamed(book.sheets, wanted);
      && i.Some?
      && var m := LastMarker(book.sheets[i.value].rows, want);
      && m.Some? && 0 < m.value.col
      && var e := LookupFor(book, wanted, want).err.value;
      && e.col == m.value.col && m.value.row < e.row
      && CellAt(book.sheets[i.value], e.row, e.col).Unreadable?
  {
    var i := FirstSheetNamed(book.sheets, wanted);
    var m := LastMarker(book.sheets[i.value].rows, want);
    NamesBelowSpec(book.sheets[i.value], m.value.row, m.value.col);
  }
}
