/**
 * The text that Go's time.Time.Format produces for the three layouts main.go
 * uses: the sheet label "Week starting 2 Jan", the date marker `02\-Jan\-2006`
 * and the weekday name. Only the layout elements that occur in them are modelled:
 * "2" (day, no padding), "02" (day, two digits), "Jan" (month abbreviation) and
 * "2006" (year, at least four digits).
 */
module Layout {
  import opened Wrappers
  import opened Calendar

  /** The month abbreviations of Go's "Jan" layout element. */
  function MonthAbbrev(m: int): (s: string)
    requires 1 <= m <= 12
    ensures |s| == 3
  {
    ["Jan", "Feb", "Mar", "Apr", "May", "Jun", "Jul", "Aug", "Sep", "Oct", "Nov", "Dec"][m - 1]
  }

  /** The month whose abbreviation is `abbr`, if any. */
  function MonthNumber(abbr: string): (m: Option<int>)
    ensures m.Some? ==> 1 <= m.value <= 12 && MonthAbbrev(m.value) == abbr
  {
    if abbr == "Jan" then Some(1) else if abbr == "Feb" then Some(2)
    else if abbr == "Mar" then Some(3) else if abbr == "Apr" then Some(4)
    else if abbr == "May" then Some(5) else if abbr == "Jun" then Some(6)
    else if abbr == "Jul" then Some(7) else if abbr == "Aug" then Some(8)
    else if abbr == "Sep" then Some(9) else if abbr == "Oct" then Some(10)
    else if abbr == "Nov" then Some(11) else if abbr == "Dec" then Some(12)
    else None
  }

  lemma MonthNumberOfAbbrev(m: int)
    requires 1 <= m <= 12
    ensures MonthNumber(MonthAbbrev(m)) == Some(m)
  {
  }

  predicate IsDigit(c: char) {
    '0' <= c <= '9'
  }

  predicate AllDigits(s: string) {
    forall i :: 0 <= i < |s| ==> IsDigit(s[i])
  }

  function DigitChar(d: int): (c: char)
    requires 0 <= d < 10
    ensures IsDigit(c) && c as int - '0' as int == d
  {
    "0123456789"[d]
  }

  /** The decimal digits of n, without leading zeros. */
  function Decimal(n: nat): (s: string)
    ensures 1 <= |s| && AllDigits(s)
    ensures n < 10 <==> |s| == 1
    ensures n >= 1 ==> s[0] != '0'
  {
    if n < 10 then [DigitChar(n)] else Decimal(n / 10) + [DigitChar(n % 10)]
  }

  /** The number that a string of decimal digits denotes. */
  function DecimalValue(s: string): int {
    if s == [] then 0
    else DecimalValue(s[..|s| - 1]) * 10 + (s[|s| - 1] as int - '0' as int)
  }

  /**
   * A digit string without a leading zero denotes a positive number and is the
   * one Decimal writes for it.
   */
  lemma {:induction false} CanonicalDecimal(s: string)
    requires 1 <= |s| && AllDigits(s) && s[0] != '0'
    ensures DecimalValue(s) >= 1
    ensures Decimal(DecimalValue(s)) == s
  {
    if |s| > 1 {
      var init, last := s[..|s| - 1], s[|s| - 1];
      assert init[0] == s[0];
      CanonicalDecimal(init);
      assert s == init + [last];
      DecimalSnoc(init, last);
    }
  }

  /** Appending a digit to the decimal text of a positive number gives the text of ten times it plus the digit. */
  lemma DecimalSnoc(init: string, last: char)
    requires DecimalValue(init) >= 1 && Decimal(DecimalValue(init)) == init && IsDigit(last)
    ensures DecimalValue(init + [last]) >= 1
    ensures Decimal(DecimalValue(init + [last])) == init + [last]
  {
    var v, d := DecimalValue(init), last as int - '0' as int;
    assert (init + [last])[..|init|] == init;
    var n := v * 10 + d;
    assert DecimalValue(init + [last]) == n;
    assert n / 10 == v && n % 10 == d;
    assert DigitChar(d) == last;
  }

  lemma {:induction false} DecimalRoundTrip(n: nat)
    ensures DecimalValue(Decimal(n)) == n
  {
    if n >= 10 {
      DecimalRoundTrip(n / 10);
      var s := Decimal(n);
      assert s[..|s| - 1] == Decimal(n / 10);
    }
  }

  function Pow10(k: nat): nat {
    if k == 0 then 1 else 10 * Pow10(k - 1)
  }

  /** A number below 10^k has at most k digits. */
  lemma {:induction false} DecimalLength(n: nat, k: nat)
    requires 1 <= k && n < Pow10(k)
    ensures |Decimal(n)| <= k
  {
    if n >= 10 {
      assert k >= 2;
      assert n / 10 < Pow10(k - 1);
      DecimalLength(n / 10, k - 1);
    }
  }

  function Zeros(k: nat): (s: string)
    ensures |s| == k && AllDigits(s)
    ensures forall i :: 0 <= i < k ==> s[i] == '0'
  {
    if k == 0 then [] else "0" + Zeros(k - 1)
  }

  /** Leading zeros do not change the value of a digit string. */
  lemma {:induction false} LeadingZeros(k: nat, s: string)
    ensures DecimalValue(Zeros(k) + s) == DecimalValue(s)
    decreases k + |s|
  {
    if s == [] {
      if k > 0 {
        assert Zeros(k) + s == Zeros(k - 1) + "0";
        assert (Zeros(k - 1) + "0")[..k - 1] == Zeros(k - 1);
        LeadingZeros(k - 1, []);
        assert Zeros(k - 1) + [] == Zeros(k - 1);
      }
    } else {
      var init := s[..|s| - 1];
      assert (Zeros(k) + s)[..|Zeros(k) + s| - 1] == Zeros(k) + init;
      LeadingZeros(k, init);
    }
  }

  /**
   * Go's appendInt(x, width) from the time package: a minus sign for negative x,
   * then the magnitude's digits, zero-padded on the left to `width`.
   */
  function AppendInt(x: int, width: nat): (s: string)
    ensures 0 <= x ==> AllDigits(s) && |s| >= width
    ensures x < 0 ==> |s| > width && s[0] == '-' && AllDigits(s[1..])
  {
    var digits := Decimal(if x < 0 then -x else x);
    (if x < 0 then "-" else "")
      + (if |digits| < width then Zeros(width - |digits|) + digits else digits)
  }

  /** Go writes the unpadded "2" element as appendInt(day, 0): the plain decimal digits. */
  lemma DecimalIsAppendInt(n: nat)
    ensures AppendInt(n, 0) == Decimal(n)
  {
  }

  /** For a small enough non-negative x, appendInt gives exactly `width` digits denoting x. */
  lemma AppendIntFixed(x: nat, width: nat)
    requires (width == 2 && x < 100) || (width == 4 && x < 10000)
    ensures |AppendInt(x, width)| == width && AllDigits(AppendInt(x, width))
    ensures DecimalValue(AppendInt(x, width)) == x
  {
    assert Pow10(2) == 100 && Pow10(4) == 10000;
    DecimalLength(x, width);
    DecimalRoundTrip(x);
    var digits := Decimal(x);
    if |digits| < width {
      assert AppendInt(x, width) == Zeros(width - |digits|) + digits;
      LeadingZeros(width - |digits|, digits);
    } else {
      assert AppendInt(x, width) == digits;
    }
  }

  /** Reads the day of the month, written without a leading zero, and the month back out of a sheet label. */
  function ParseWeekLabel(s: string): Option<(int, int)> {
    if |s| >= 19 && s[..14] == "Week starting " && s[|s| - 4] == ' ' && AllDigits(s[14..|s| - 4])
      && s[14] != '0'
    then
      match MonthNumber(s[|s| - 3..])
      case Some(m) => Some((DecimalValue(s[14..|s| - 4]), m))
      case None => None
    else
      None
  }

  /** The pieces of a label can be cut back out of it by position. */
  lemma LabelPieces(prefix: string, digits: string, abbr: string)
    requires |prefix| == 14 && |abbr| == 3
    ensures var s := prefix + digits + " " + abbr;
      && |s| == 18 + |digits|
      && s[..14] == prefix && s[14..|s| - 4] == digits
      && s[|s| - 4] == ' ' && s[|s| - 3..] == abbr
  {
    var s := prefix + digits + " " + abbr;
    assert s[..14] == prefix;
    assert s[14..|s| - 4] == digits;
    assert s[|s| - 3..] == abbr;
  }

  /** A text of at least 19 characters is its label prefix, digits, separator and month, joined. */
  lemma LabelSplit(s: string)
    requires |s| >= 19
    ensures s == s[..14] + s[14..|s| - 4] + [s[|s| - 4]] + s[|s| - 3..]
  {
    assert s == s[..14] + s[14..|s| - 4] + s[|s| - 4..];
    assert s[|s| - 4..] == [s[|s| - 4]] + s[|s| - 3..];
  }

  /** A text that parses as a label is the label written for its day and month. */
  lemma ParsedWeekLabel(s: string, day: int, m: int)
    requires ParseWeekLabel(s) == Some((day, m))
    ensures 0 <= day && s == "Week starting " + Decimal(day) + " " + MonthAbbrev(m)
  {
    var digits := s[14..|s| - 4];
    assert digits[0] == s[14];
    CanonicalDecimal(digits);
    assert MonthNumber(s[|s| - 3..]) == Some(m);
    LabelSplit(s);
  }

  /** A label is determined by what it parses to: two labels that parse alike are the same text. */
  lemma ParseWeekLabelInjective(s: string, t: string)
    requires ParseWeekLabel(s).Some? && ParseWeekLabel(s) == ParseWeekLabel(t)
    ensures s == t
  {
    var (day, m) := ParseWeekLabel(s).value;
    ParsedWeekLabel(s, day, m);
    ParsedWeekLabel(t, day, m);
  }

  /**
   * Layout "Week starting 2 Jan": the key under which main.go looks up a week's
   * sheet. The label names the day's day of the month and month, and nothing else;
   * with ParseWeekLabelInjective this fixes the text, the day unpadded.
   */
  function WeekLabelText(d: Day): (s: string)
    ensures ParseWeekLabel(s) == Some((DateOf(d).day, DateOf(d).month))
  {
    var dt := DateOf(d);
    var digits := AppendInt(dt.day, 0);
    DecimalIsAppendInt(dt.day);
    LabelPieces("Week starting ", digits, MonthAbbrev(dt.month));
    MonthNumberOfAbbrev(dt.month);
    DecimalRoundTrip(dt.day);
    "Week starting " + digits + " " + MonthAbbrev(dt.month)
  }

  /** Reads a date back out of a DD-Mon-YYYY text. */
  function ParseDateText(s: string): Option<Date> {
    if |s| == 11 && s[2] == '-' && s[6] == '-' && AllDigits(s[..2]) && AllDigits(s[7..]) then
      match MonthNumber(s[3..6])
      case Some(m) => Some(Date(DecimalValue(s[7..]), m, DecimalValue(s[..2])))
      case None => None
    else
      None
  }

  /** A DD-Mon-YYYY text built from two digits, a month abbreviation and four digits parses back to its parts. */
  lemma DatePieces(dd: string, mon: string, yyyy: string, m: int)
    requires |dd| == 2 && AllDigits(dd) && |yyyy| == 4 && AllDigits(yyyy)
    requires MonthNumber(mon) == Some(m)
    ensures ParseDateText(dd + "-" + mon + "-" + yyyy) == Some(Date(DecimalValue(yyyy), m, DecimalValue(dd)))
  {
    var s := dd + "-" + mon + "-" + yyyy;
    assert s[..2] == dd;
    assert s[3..6] == mon;
    assert s[7..] == yyyy;
  }

  /** The DD-Mon-YYYY text of a valid date in years 0 to 9999 parses back to that date. */
  lemma DateParts(dt: Date)
    requires Valid(dt) && 0 <= dt.year <= 9999
    ensures ParseDateText(AppendInt(dt.day, 2) + "-" + MonthAbbrev(dt.month) + "-" + AppendInt(dt.year, 4)) == Some(dt)
  {
    AppendIntFixed(dt.day, 2);
    AppendIntFixed(dt.year, 4);
    MonthNumberOfAbbrev(dt.month);
    DatePieces(AppendInt(dt.day, 2), MonthAbbrev(dt.month), AppendInt(dt.year, 4), dt.month);
  }

  /**
   * The date as DD-Mon-YYYY, such as "07-Feb-2021". For years 0 to 9999 the text
   * names exactly its date.
   */
  function DateText(d: Day): (s: string)
    ensures |s| > 2 && s[2] == '-'
    ensures 0 <= DateOf(d).year <= 9999 ==> ParseDateText(s) == Some(DateOf(d))
  {
    var dt := DateOf(d);
    AppendIntFixed(dt.day, 2);
    var s := AppendInt(dt.day, 2) + "-" + MonthAbbrev(dt.month) + "-" + AppendInt(dt.year, 4);
    if 0 <= dt.year <= 9999 then
      DateParts(dt);
      s
    else
      s
  }

  /** Dropping the two backslashes from DD\-Mon\-YYYY leaves DD-Mon-YYYY. */
  lemma BackslashPieces(dd: string, mon: string, yyyy: string)
    requires |dd| == 2 && |mon| == 3 && |yyyy| == 4
    ensures var s := dd + "\\-" + mon + "\\-" + yyyy;
      |s| == 13 && s[2] == '\\' && s[7] == '\\' && s[..2] + s[3..7] + s[8..] == dd + "-" + mon + "-" + yyyy
  {
    var s := dd + "\\-" + mon + "\\-" + yyyy;
    assert s[..2] == dd;
    assert s[3..7] == "-" + mon;
    assert s[8..] == "-" + yyyy;
  }

  /**
   * Layout `02\-Jan\-2006` as main.go writes it. Go layouts have no escape
   * character, so each backslash is copied into the text: for years 0 to 9999 the
   * text is DD\-Mon\-YYYY, and dropping its two backslashes leaves the DD-Mon-YYYY text.
   */
  function LayoutDateText(d: Day): (s: string)
    ensures |s| > 2 && s[2] == '\\'
    ensures 0 <= DateOf(d).year <= 9999 ==>
      |s| == 13 && s[7] == '\\' && s[..2] + s[3..7] + s[8..] == DateText(d)
  {
    var dt := DateOf(d);
    AppendIntFixed(dt.day, 2);
    var s := AppendInt(dt.day, 2) + "\\-" + MonthAbbrev(dt.month) + "\\-" + AppendInt(dt.year, 4);
    if 0 <= dt.year <= 9999 then
      AppendIntFixed(dt.year, 4);
      BackslashPieces(AppendInt(dt.day, 2), MonthAbbrev(dt.month), AppendInt(dt.year, 4));
      s
    else
      s
  }

  /** As written, the date text differs from DD-Mon-YYYY for every date. */
  lemma LayoutDateTextKeepsBackslashes(d: Day)
    ensures LayoutDateText(d) != DateText(d)
  {
    assert LayoutDateText(d)[2] != DateText(d)[2];
  }

  /** The full English weekday name that Go's time.Weekday.String gives: it names the day's weekday and no other. */
  function WeekdayText(d: Day): (s: string)
    ensures |s| >= 6 && s[|s| - 3..] == "day"
    ensures forall w :: Sunday <= w <= Saturday ==> (WeekdayName(w) == s <==> w == Weekday(d))
  {
    forall w | Sunday <= w <= Saturday
      ensures WeekdayName(w) == WeekdayName(Weekday(d)) ==> w == Weekday(d)
    {
      WeekdayNameInjective(w, Weekday(d));
    }
    WeekdayName(Weekday(d))
  }
}
