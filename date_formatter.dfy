/**
 * The shared date formatter: an optional date becomes "D Mon, YYYY" or the
 * sentinel "Date not available" (src/utils/dateFormatter.ts).
 *
 * Parsing a value with the JavaScript Date constructor is engine and time-zone
 * dependent, so it is a parameter: a `DateParser` gives the local calendar
 * date that getDate/getMonth/getFullYear would read, or None for an invalid
 * time (NaN).
 */
module DateFormatter {
  import opened Options
  import opened Strings
  import opened Js

  /** What `getMonth()` returns: 0 for January up to 11 for December. */
  type MonthIndex = m: int | 0 <= m < 12

  /** What `getDate()` returns. */
  type DayOfMonth = d: int | 1 <= d <= 31 witness 1

  datatype CalendarDate = CalendarDate(day: DayOfMonth, month: MonthIndex, year: int)

  /** `new Date(v)` read back as a calendar date; `new Date("")` is an invalid date. */
  type DateParser = f: Value -> Option<CalendarDate> | f(Str("")).None? witness (v: Value) => None

  const Unavailable: string := "Date not available"

  const MonthNames: seq<string> :=
    ["Jan", "Feb", "Mar", "Apr", "May", "Jun", "Jul", "Aug", "Sep", "Oct", "Nov", "Dec"]

  /** The month table has twelve distinct three-letter names. */
  lemma MonthTable()
    ensures |MonthNames| == 12
    ensures forall m :: 0 <= m < 12 ==> |MonthNames[m]| == 3 && ' ' !in MonthNames[m]
    ensures forall m, n :: 0 <= m < n < 12 ==> MonthNames[m] != MonthNames[n]
  {
  }

  /** The position of a name in the month table, if it is one. */
  function MonthOf(name: string): (r: Option<MonthIndex>)
    ensures r.Some? ==> MonthNames[r.value] == name
    ensures r.None? ==> name !in MonthNames
  {
    FindMonth(name, 0)
  }

  function FindMonth(name: string, from: nat): (r: Option<MonthIndex>)
    requires from <= 12
    ensures r.Some? ==> MonthNames[r.value] == name
    ensures r.None? ==> forall m :: from <= m < 12 ==> MonthNames[m] != name
    decreases 12 - from
  {
    if from == 12 then None
    else if MonthNames[from] == name then Some(from)
    else FindMonth(name, from + 1)
  }

  /** `${day} ${monthNames[month]}, ${year}`. */
  function Display(d: CalendarDate): string {
    NatToString(d.day) + " " + MonthNames[d.month] + ", " + IntToString(d.year)
  }

  /**
   * Reads back a "D Mon, YYYY" string: a day written without a leading zero,
   * one space, a name from the month table, a comma and a space, and a year
   * written as `${year}` writes it. Anything else is None.
   */
  function ParseDisplay(s: string): Option<CalendarDate> {
    ParseFields(s, IndexOf(s, ' '))
  }

  /** The fields of a display whose first space is at `i`. */
  function ParseFields(s: string, i: int): Option<CalendarDate> {
    if i < 0 || |s| < i + 6 || s[i + 4..i + 6] != ", " then None
    else
      var day, month, year := ParseNat(s[..i]), MonthOf(s[i + 1..i + 4]), ParseInt(s[i + 6..]);
      if day.Some? && month.Some? && year.Some? && 1 <= day.value <= 31
      then Some(CalendarDate(day.value, month.value, year.value))
      else None
  }

  /** Every displayed date reads back as itself, so no two dates share a display. */
  lemma DisplayRoundTrip(d: CalendarDate)
    ensures ParseDisplay(Display(d)) == Some(d)
  {
    DisplayParts(d);
    var s := Display(d);
    var k := |NatToString(d.day)|;
    NatToStringRoundTrip(d.day);
    MonthOfName(d.month);
    IntToStringRoundTrip(d.year);
    ParseDisplayOfParts(s, k, d);
    assert ParseDisplay(s) == ParseFields(s, k);
  }

  /** Each name of the month table reads back as its own month. */
  lemma MonthOfName(m: MonthIndex)
    ensures MonthOf(MonthNames[m]) == Some(m)
  {
    MonthTable();
    assert MonthNames[m] in MonthNames;
  }

  /** `ParseDisplay` once the three fields have been read. */
  lemma ParseDisplayOfParts(s: string, k: int, d: CalendarDate)
    requires k >= 0 && |s| >= k + 6 && s[k + 4..k + 6] == ", "
    requires ParseNat(s[..k]) == Some(d.day)
    requires MonthOf(s[k + 1..k + 4]) == Some(d.month)
    requires ParseInt(s[k + 6..]) == Some(d.year)
    ensures ParseFields(s, k) == Some(d)
  {
  }

  /** Where the parts of a displayed date sit in it. */
  lemma DisplayParts(d: CalendarDate)
    ensures var s := Display(d); var k := |NatToString(d.day)|;
      IndexOf(s, ' ') == k && |s| >= k + 6 && s[..k] == NatToString(d.day) &&
      s[k + 1..k + 4] == MonthNames[d.month] && s[k + 4..k + 6] == ", " && s[k + 6..] == IntToString(d.year)
  {
    MonthTable();
    var dayText := NatToString(d.day);
    var s := Display(d);
    var k := |dayText|;
    assert s[k] == ' ';
    assert forall j :: 0 <= j < k ==> s[j] == dayText[j];
    assert IndexOf(s, ' ') == k;
    assert s[..k] == dayText;
  }

  /** The sentinel is not a displayed date. */
  lemma SentinelIsNotADate()
    ensures ParseDisplay(Unavailable) == None
  {
    var s := Unavailable;
    assert s[0] != ' ' && s[1] != ' ' && s[2] != ' ' && s[3] != ' ' && s[4] == ' ';
    var k := IndexOf(s, ' ');
    assert k == 4;
    assert s[8..10][0] == s[8] == ' ';
    assert ParseDisplay(s) == ParseFields(s, 4);
  }

  /**
   * `formatDate(value)`: a falsy value or one that parses to an invalid time
   * gives the sentinel; otherwise the parsed date is displayed as "D Mon, YYYY",
   * and that text reads back as exactly the date that was parsed.
   */
  function FormatDate(parse: DateParser, value: Value): (r: string)
    ensures r == Unavailable <==> !Truthy(value) || parse(value).None?
    ensures r != Unavailable ==> ParseDisplay(r) == parse(value)
    ensures r != ""
  {
    if !Truthy(value) then Unavailable
    else
      match parse(value)
      case None => Unavailable
      case Some(d) =>
        DisplayRoundTrip(d);
        SentinelIsNotADate();
        Display(d)
  }

  /**
   * The date line the sidebar and the article page show:
   * `item.date || (item.publishedAt ? formatDate(item.publishedAt) : "Date not available")`.
   * It is never empty, and the guard on `publishedAt` gives what the
   * formatter alone would give.
   */
  function DisplayDate(parse: DateParser, date: Value, publishedAt: Value): (r: Value)
    ensures Truthy(r)
    ensures Truthy(date) ==> r == date
    ensures !Truthy(date) ==> r == Str(FormatDate(parse, publishedAt))
  {
    Or(date, Str(if Truthy(publishedAt) then FormatDate(parse, publishedAt) else Unavailable))
  }
}
