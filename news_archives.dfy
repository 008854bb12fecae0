/**
 * The archive page: the list of monthly archives sorted newest first, the
 * articles of the archive named by the route's year and month, and the
 * highlighting of that archive's link.
 */
module NewsArchives {
  import opened Options
  import opened Strings
  import opened Js
  import opened Images
  import opened NewsShapes
  import opened NewsSidebar

  const ArchivesFailure: string := "Failed to load archives. Please try again later."
  const PeriodFailure: string := "Failed to load news articles for this period."

  // ---------------------------------------------------------------------
  // Newest first
  // ---------------------------------------------------------------------

  /** The full year `new Date(year, monthIndex)` uses: years 0..99 are read
      as 1900..1999. */
  function FullYear(year: int): (r: int)
    ensures r == year || r == year + 1900
    ensures r != year <==> 0 <= year <= 99
  {
    if 0 <= year <= 99 then 1900 + year else year
  }

  /**
   * The position in time of `new Date(a.year, a.month - 1)`, counted in
   * months. A month outside 1..12 rolls over into the neighbouring years,
   * as it does for `Date`, and the time in milliseconds grows strictly with
   * this count, so comparing counts compares `getTime()` values.
   */
  function MonthCount(a: Archive): (r: int)
    ensures 1 <= a.month <= 12 ==> r / 12 == FullYear(a.year) && r % 12 == a.month - 1
  {
    FullYear(a.year) * 12 + a.month - 1
  }

  /** No archive is older than one after it. */
  predicate NewestFirst(s: seq<Archive>) {
    forall i, j :: 0 <= i < j < |s| ==> MonthCount(s[i]) >= MonthCount(s[j])
  }

  /** Inserts `x` after every element at least as recent, which keeps ties in
      their arrival order. */
  function Insert(sorted: seq<Archive>, x: Archive): (r: seq<Archive>)
    ensures |r| == |sorted| + 1
  {
    if sorted == [] || MonthCount(sorted[|sorted| - 1]) >= MonthCount(x) then sorted + [x]
    else Insert(sorted[..|sorted| - 1], x) + [sorted[|sorted| - 1]]
  }

  /** The stable sort `Array.prototype.sort` performs with the comparator
      `(a, b) => time(b) - time(a)`. */
  function SortNewestFirst(s: seq<Archive>): (r: seq<Archive>)
    ensures |r| == |s|
  {
    if s == [] then [] else Insert(SortNewestFirst(s[..|s| - 1]), s[|s| - 1])
  }

  lemma {:induction false} InsertPermutes(sorted: seq<Archive>, x: Archive)
    ensures multiset(Insert(sorted, x)) == multiset(sorted) + multiset{x}
  {
    if sorted != [] && MonthCount(sorted[|sorted| - 1]) < MonthCount(x) {
      var init := sorted[..|sorted| - 1];
      InsertPermutes(init, x);
      assert sorted == init + [sorted[|sorted| - 1]];
    }
  }

  /** The sorted list holds the same archives, each as often. */
  lemma {:induction false} SortPermutes(s: seq<Archive>)
    ensures multiset(SortNewestFirst(s)) == multiset(s)
  {
    if s != [] {
      var init := s[..|s| - 1];
      SortPermutes(init);
      InsertPermutes(SortNewestFirst(init), s[|s| - 1]);
      assert s == init + [s[|s| - 1]];
    }
  }

  lemma {:induction false} InsertKeepsOrder(sorted: seq<Archive>, x: Archive)
    requires NewestFirst(sorted)
    ensures NewestFirst(Insert(sorted, x))
  {
    if sorted == [] || MonthCount(sorted[|sorted| - 1]) >= MonthCount(x) {
      var r := sorted + [x];
      forall i, j | 0 <= i < j < |r| ensures MonthCount(r[i]) >= MonthCount(r[j]) {
        if j == |sorted| && i < |sorted| - 1 {
          assert MonthCount(sorted[i]) >= MonthCount(sorted[|sorted| - 1]);
        }
      }
    } else {
      var last := sorted[|sorted| - 1];
      var init := sorted[..|sorted| - 1];
      InsertKeepsOrder(init, x);
      InsertPermutes(init, x);
      var front := Insert(init, x);
      forall i | 0 <= i < |front| ensures MonthCount(front[i]) >= MonthCount(last) {
        assert front[i] in multiset(init) + multiset{x};
        if front[i] != x {
          var k :| 0 <= k < |init| && init[k] == front[i];
          assert sorted[k] == init[k];
        }
      }
    }
  }

  /** The sorted list is newest first. */
  lemma {:induction false} SortIsNewestFirst(s: seq<Archive>)
    ensures NewestFirst(SortNewestFirst(s))
  {
    if s != [] {
      SortIsNewestFirst(s[..|s| - 1]);
      InsertKeepsOrder(SortNewestFirst(s[..|s| - 1]), s[|s| - 1]);
    }
  }

  /** The archives of one month count, in order. */
  function InMonth(s: seq<Archive>, m: int): (r: seq<Archive>)
    ensures |r| <= |s|
  {
    if s == [] then []
    else InMonth(s[..|s| - 1], m) + (if MonthCount(s[|s| - 1]) == m then [s[|s| - 1]] else [])
  }

  lemma {:induction false} InMonthOfInsert(sorted: seq<Archive>, x: Archive, m: int)
    ensures InMonth(Insert(sorted, x), m) ==
      InMonth(sorted, m) + (if MonthCount(x) == m then [x] else [])
  {
    if sorted == [] || MonthCount(sorted[|sorted| - 1]) >= MonthCount(x) {
      assert (sorted + [x])[..|sorted|] == sorted;
    } else {
      var last := sorted[|sorted| - 1];
      var init := sorted[..|sorted| - 1];
      InMonthOfInsert(init, x, m);
      var r := Insert(init, x) + [last];
      assert r[..|r| - 1] == Insert(init, x);
    }
  }

  /** The sort is stable: archives of the same month keep their order. */
  lemma {:induction false} SortIsStable(s: seq<Archive>, m: int)
    ensures InMonth(SortNewestFirst(s), m) == InMonth(s, m)
  {
    if s != [] {
      SortIsStable(s[..|s| - 1], m);
      InMonthOfInsert(SortNewestFirst(s[..|s| - 1]), s[|s| - 1], m);
    }
  }

  /** When everything after position `j` is older than `x` and nothing just
      before it is, `x` is inserted at `j`. */
  lemma {:induction false} InsertSplit(sorted: seq<Archive>, j: nat, x: Archive)
    requires j <= |sorted|
    requires forall k :: j <= k < |sorted| ==> MonthCount(sorted[k]) < MonthCount(x)
    requires j == 0 || MonthCount(sorted[j - 1]) >= MonthCount(x)
    ensures Insert(sorted, x) == sorted[..j] + [x] + sorted[j..]
  {
    if j == |sorted| {
      assert sorted[..j] == sorted && sorted[j..] == [];
    } else {
      var init := sorted[..|sorted| - 1];
      InsertSplit(init, j, x);
      assert init[..j] == sorted[..j];
      assert init[j..] + [sorted[|sorted| - 1]] == sorted[j..];
    }
  }

  /** A sequence that agrees element by element with `x` placed at `j`. */
  lemma Placed(sorted: seq<Archive>, j: nat, x: Archive, b: seq<Archive>)
    requires j <= |sorted| && |b| == |sorted| + 1
    requires forall k :: 0 <= k < j ==> b[k] == sorted[k]
    requires b[j] == x
    requires forall k :: j < k < |b| ==> b[k] == sorted[k - 1]
    ensures b == sorted[..j] + [x] + sorted[j..]
  {
  }

  /** One step of the in-place sort: the element at `i` moves left past
      every older element of the sorted prefix before it. */
  method InsertLast(a: array<Archive>, i: nat)
    requires i < a.Length
    modifies a
    ensures a[..i + 1] == Insert(old(a[..i]), old(a[i]))
    ensures forall k :: i < k < a.Length ==> a[k] == old(a[k])
  {
    ghost var sorted := a[..i];
    var x := a[i];
    var j := i;
    while j > 0 && MonthCount(a[j - 1]) < MonthCount(x)
      invariant 0 <= j <= i
      invariant forall k :: 0 <= k < j ==> a[k] == sorted[k]
      invariant forall k :: j < k <= i ==> a[k] == sorted[k - 1]
      invariant forall k :: i < k < a.Length ==> a[k] == old(a[k])
      invariant forall k :: j <= k < i ==> MonthCount(sorted[k]) < MonthCount(x)
    {
      a[j] := a[j - 1];
      j := j - 1;
    }
    a[j] := x;
    InsertSplit(sorted, j, x);
    Placed(sorted, j, x, a[..i + 1]);
  }

  /** `data.sort(...)` on the archive array, in place. */
  method SortArchives(a: array<Archive>)
    modifies a
    ensures a[..] == SortNewestFirst(old(a[..]))
  {
    ghost var original := a[..];
    var i := 0;
    while i < a.Length
      invariant 0 <= i <= a.Length
      invariant a[..i] == SortNewestFirst(original[..i])
      invariant forall k :: i <= k < a.Length ==> a[k] == original[k]
    {
      InsertLast(a, i);
      assert original[..i + 1][..i] == original[..i];
      i := i + 1;
    }
    assert original[..a.Length] == original;
    assert a[..a.Length] == a[..];
  }

  // ---------------------------------------------------------------------
  // The archive named by the route
  // ---------------------------------------------------------------------

  /** The value of a digit in bases up to 36, or 36 for any other character. */
  function DigitValue(c: char): (d: nat)
    ensures d <= 36
  {
    if '0' <= c <= '9' then c as int - '0' as int
    else if 'a' <= c <= 'z' then c as int - 'a' as int + 10
    else if 'A' <= c <= 'Z' then c as int - 'A' as int + 10
    else 36
  }

  /** The longest prefix of digits of the radix. */
  function LeadingDigits(s: string, radix: nat): (r: string)
    ensures r <= s
    ensures forall i :: 0 <= i < |r| ==> DigitValue(r[i]) < radix
  {
    if s != [] && DigitValue(s[0]) < radix then [s[0]] + LeadingDigits(s[1..], radix) else []
  }

  /** The value of a string of digits of the radix, most significant first. */
  function RadixValue(s: string, radix: nat): nat {
    if s == [] then 0 else RadixValue(s[..|s| - 1], radix) * radix + DigitValue(s[|s| - 1])
  }

  /** A run of digits after the sign: "0x" or "0X" switches to base 16. */
  function ParseUnsigned(u: string): (r: Option<nat>)
    ensures r.Some? ==> u != [] && '0' <= u[0] <= '9'
  {
    var hex := |u| >= 2 && u[0] == '0' && (u[1] == 'x' || u[1] == 'X');
    var radix := if hex then 16 else 10;
    var digits := LeadingDigits(if hex then u[2..] else u, radix);
    if digits == [] then None else Some(RadixValue(digits, radix))
  }

  /** A sign, then a run of digits. */
  function ParseSigned(t: string): (r: Option<int>)
    ensures r.Some? ==> t != [] && !IsWhite(t[0])
  {
    if t != [] && t[0] == '-' then
      match ParseUnsigned(t[1..])
      case Some(n) => Some(-(n as int))
      case None => None
    else if t != [] && t[0] == '+' then
      match ParseUnsigned(t[1..])
      case Some(n) => Some(n)
      case None => None
    else
      match ParseUnsigned(t)
      case Some(n) => Some(n)
      case None => None
  }

  /**
   * `parseInt(s)`: leading white space is skipped, one sign is read, and the
   * longest run of digits that follows is read; None stands for NaN, when
   * there is no digit at all.
   */
  function JsParseInt(s: string): (r: Option<int>)
    ensures r.Some? ==> !IsBlank(s)
  {
    ParseSigned(TrimStart(s))
  }

  lemma {:induction false} LeadingDecimalDigits(s: string)
    requires IsDigits(s)
    ensures LeadingDigits(s, 10) == s
  {
    if s != [] {
      LeadingDecimalDigits(s[1..]);
      assert [s[0]] + s[1..] == s;
    }
  }

  lemma {:induction false} DecimalValue(s: string)
    requires IsDigits(s)
    ensures RadixValue(s, 10) == DigitsValue(s)
  {
    if s != [] {
      DecimalValue(s[..|s| - 1]);
    }
  }

  /** A string of decimal digits reads as its decimal value, leading zeros
      included. */
  lemma ParseDecimal(u: string)
    requires u != [] && IsDigits(u)
    ensures ParseUnsigned(u) == Some(DigitsValue(u))
  {
    assert !(|u| >= 2 && (u[1] == 'x' || u[1] == 'X')) by {
      if |u| >= 2 { assert '0' <= u[1] <= '9'; }
    }
    LeadingDecimalDigits(u);
    DecimalValue(u);
  }

  /** Leading white space is all `parseInt` skips. */
  lemma TrimStartOfNonWhite(s: string)
    requires s != [] && !IsWhite(s[0])
    ensures TrimStart(s) == s
  {
  }

  /** Without a sign, the digits are read as they are. */
  lemma JsParseIntUnsigned(u: string, m: nat)
    requires ParseUnsigned(u) == Some(m)
    ensures JsParseInt(u) == Some(m)
  {
    TrimStartOfNonWhite(u);
  }

  /** A minus sign negates what follows it. */
  lemma JsParseIntNegative(u: string, m: nat)
    requires ParseUnsigned(u) == Some(m)
    ensures JsParseInt("-" + u) == Some(-(m as int))
  {
    var s := "-" + u;
    TrimStartOfNonWhite(s);
    assert s[0] == '-' && s[1..] == u;
    assert ParseSigned(s) == Some(-(m as int));
  }

  /** `parseInt` skips white space before the number. */
  lemma JsParseIntSkipsWhite(c: char, s: string)
    requires IsWhite(c)
    ensures JsParseInt([c] + s) == JsParseInt(s)
  {
    assert ([c] + s)[1..] == s;
    assert TrimStart([c] + s) == TrimStart(s);
  }

  /** `parseInt` reads back the decimal rendering of every integer, as
      `${archive.year}` writes it into the archive's link. */
  lemma JsParseIntOfIntToString(n: int)
    ensures JsParseInt(IntToString(n)) == Some(n)
  {
    var m: nat := if n < 0 then -n else n;
    var digits := NatToString(m);
    NatToStringRoundTrip(m);
    ParseDecimal(digits);
    if n < 0 {
      JsParseIntNegative(digits, m);
    } else {
      JsParseIntUnsigned(digits, m);
    }
  }

  /** The archive link highlighted for the route's `year` and `month`. */
  predicate IsActive(year: string, month: string, a: Archive)
    ensures IsActive(year, month, a) ==> year != "" && month != ""
    ensures year == IntToString(a.year) && month == IntToString(a.month) ==> IsActive(year, month, a)
  {
    JsParseIntOfIntToString(a.year);
    JsParseIntOfIntToString(a.month);
    year != "" && month != "" && JsParseInt(year) == Some(a.year) && JsParseInt(month) == Some(a.month)
  }

  /** Following an archive's link highlights exactly the archives of the same
      year and month. */
  lemma FollowedLinkIsActive(followed: Archive, a: Archive)
    ensures IsActive(IntToString(followed.year), IntToString(followed.month), a) <==>
      a.year == followed.year && a.month == followed.month
  {
    JsParseIntOfIntToString(followed.year);
    JsParseIntOfIntToString(followed.month);
  }

  /** The route `/news/archives/:year/:month` matched against an archive's
      own link gives parameters that highlight that archive. */
  lemma LinkParametersAreActive(a: Archive)
    ensures var segments := Split(ArchiveLink(a), '/');
      |segments| == 5 && IsActive(segments[3], segments[4], a)
  {
  }

  /** A month written with a leading zero reads as the month. */
  lemma JsParseIntLeadingZero(v: int)
    requires 0 <= v <= 9
    ensures JsParseInt("0" + IntToString(v)) == Some(v)
  {
    var m := "0" + IntToString(v);
    assert m == ['0', Digit(v)];
    ParseDecimal(m);
    assert DigitsValue(m) == v by {
      assert m[..1] == "0" && m[..1][..0] == [];
      assert DigitsValue(m[..1]) == 0;
      assert m[1] as int - '0' as int == v;
    }
    JsParseIntUnsigned(m, v);
  }

  /** White space before the year and a leading zero on the month do not
      change which archive is highlighted. */
  lemma PaddedRouteIsActive(a: Archive)
    requires 1 <= a.month <= 9
    ensures IsActive(" " + IntToString(a.year), "0" + IntToString(a.month), a)
  {
    JsParseIntOfIntToString(a.year);
    JsParseIntSkipsWhite(' ', IntToString(a.year));
    JsParseIntLeadingZero(a.month);
  }

  // ---------------------------------------------------------------------
  // Responses
  // ---------------------------------------------------------------------

  /** The body of the archives response as the page sees it. */
  datatype ArchivesBody = ArchiveList(archives: seq<Archive>) | NotAList

  datatype ArchivesResult = ArchivesReceived(body: ArchivesBody) | ArchivesFailed

  /** `Array.isArray(response.data) ? response.data : []`. */
  function ArchiveItems(body: ArchivesBody): (r: seq<Archive>)
    ensures body.NotAList? ==> r == []
    ensures body.ArchiveList? ==> r == body.archives
  {
    match body
    case ArchiveList(archives) => archives
    case NotAList => []
  }

  datatype PeriodResult = PeriodReceived(data: Value) | PeriodFailed

  /**
   * The articles of the period: an array body as it is; an object with a
   * truthy `data` gives that `data` when it is an array and nothing
   * otherwise; any other body gives nothing.
   */
  function PeriodNews(data: Value): (r: seq<Value>)
    ensures data.Arr? ==> r == data.items
    ensures data.Obj? && Prop(data, "data").Arr? ==> r == Prop(data, "data").items
    ensures !data.Arr? && !(data.Obj? && Prop(data, "data").Arr?) ==> r == []
  {
    if data.Arr? then data.items
    else if Truthy(data) && IsObjectType(data) && Truthy(Prop(data, "data")) then
      (if Prop(data, "data").Arr? then Prop(data, "data").items else [])
    else []
  }

  /** `newsData.map(item => item._id)`; None when an item is null or
      undefined, which throws inside the timer. */
  function Ids(items: seq<Value>): (r: Option<seq<Value>>)
    ensures r.Some? <==> forall i :: 0 <= i < |items| ==> !Nullish(items[i])
    ensures r.Some? ==> |r.value| == |items| && forall i :: 0 <= i < |items| ==> r.value[i] == Prop(items[i], "_id")
  {
    if forall i :: 0 <= i < |items| ==> !Nullish(items[i]) then
      Some(seq(|items|, i requires 0 <= i < |items| => Prop(items[i], "_id")))
    else None
  }

  // ---------------------------------------------------------------------
  // Rendering
  // ---------------------------------------------------------------------

  /** The locale rendering of a date value, `new Date(v).toLocaleDateString()`. */
  type LocaleDate = Value -> string

  /** The heading date, `new Date(parseInt(year), parseInt(month) - 1)` in
      "long month, numeric year" form; None stands for NaN. */
  type MonthLabel = (Option<int>, Option<int>) -> string

  /** The props the page hands to a card. */
  datatype ArchiveCard = ArchiveCard(
    title: Value, excerpt: Value, image: Value, author: Value, publishedAt: string,
    slug: Value, categories: seq<Value>, index: nat, isVisible: bool)

  function CardFor(item: Value, index: nat, visibleItems: seq<Value>, localeDate: LocaleDate): (c: ArchiveCard)
    ensures Truthy(c.title) && Truthy(c.excerpt) && Truthy(c.image) && Truthy(c.author)
    ensures Truthy(Prop(item, "title")) ==> c.title == Prop(item, "title")
    ensures !Truthy(Prop(item, "title")) ==> c.title == Str("Untitled")
    ensures Truthy(Prop(item, "excerpt")) ==> c.excerpt == Prop(item, "excerpt")
    ensures !Truthy(Prop(item, "excerpt")) ==> c.excerpt == Str("No excerpt available")
    ensures Truthy(Prop(item, "author")) ==> c.author == Prop(item, "author")
    ensures !Truthy(Prop(item, "author")) ==> c.author == Str("Unknown")
    ensures Truthy(Prop(item, "slug")) ==> c.slug == Prop(item, "slug")
    ensures !Truthy(Prop(item, "slug")) ==> c.slug == Str("")
    ensures Truthy(Prop(item, "publishedAt")) ==> c.publishedAt == localeDate(Prop(item, "publishedAt"))
    ensures !Truthy(Prop(item, "publishedAt")) ==> c.publishedAt == localeDate(Prop(item, "createdAt"))
    ensures c.image == CardImageUrl(Prop(item, "image"))
    ensures Prop(item, "categories").Arr? ==> c.categories == Prop(item, "categories").items
    ensures !Prop(item, "categories").Arr? ==> c.categories == []
    ensures c.index == index
    ensures c.isVisible <==> Prop(item, "_id") in visibleItems
  {
    var categories := Prop(item, "categories");
    ArchiveCard(
      title := Or(Prop(item, "title"), Str("Untitled")),
      excerpt := Or(Prop(item, "excerpt"), Str("No excerpt available")),
      image := CardImageUrl(Prop(item, "image")),
      author := Or(Prop(item, "author"), Str("Unknown")),
      publishedAt := localeDate(if Truthy(Prop(item, "publishedAt")) then Prop(item, "publishedAt") else Prop(item, "createdAt")),
      slug := Or(Prop(item, "slug"), Str("")),
      categories := if categories.Arr? then categories.items else [],
      index := index,
      isVisible := Prop(item, "_id") in visibleItems)
  }

  /** A link in the "All Archives" grid. */
  datatype ArchiveEntry = ArchiveEntry(link: string, displayDate: string, count: int, highlighted: bool)

  function Entries(archives: seq<Archive>, year: string, month: string): (r: seq<ArchiveEntry>)
    ensures |r| == |archives|
    ensures forall i :: 0 <= i < |archives| ==>
      r[i].link == ArchiveLink(archives[i]) && (r[i].highlighted <==> IsActive(year, month, archives[i])) &&
      r[i].displayDate == archives[i].displayDate && r[i].count == archives[i].count
  {
    seq(|archives|, i requires 0 <= i < |archives| =>
      ArchiveEntry(ArchiveLink(archives[i]), archives[i].displayDate, archives[i].count,
                   IsActive(year, month, archives[i])))
  }

  datatype Articles = Grid(cards: seq<ArchiveCard>) | NoArticles

  datatype View =
    | Spinner
    | ErrorPanel(message: string)
    | Listing(heading: string, articles: Articles, entries: seq<ArchiveEntry>)
    /** Reading `_id` of a null or undefined item while rendering throws. */
    | RenderCrash

  class ArchivesPage {
    var filteredNews: seq<Value>
    var archiveDate: string
    var visibleItems: seq<Value>
    var availableArchives: seq<Archive>
    var loading: bool
    var error: Option<string>

    /** The archives are always newest first. */
    ghost predicate Valid()
      reads this
    {
      NewestFirst(availableArchives)
    }

    constructor ()
      ensures Valid()
      ensures filteredNews == [] && archiveDate == "" && visibleItems == [] && availableArchives == []
      ensures loading && error.None?
    {
      filteredNews := [];
      archiveDate := "";
      visibleItems := [];
      availableArchives := [];
      loading := true;
      error := None;
    }

    /** The archives effect: on success the list, sorted in place; on failure
        the archives error. */
    method FetchArchives(result: ArchivesResult)
      requires Valid()
      modifies this
      ensures Valid()
      ensures result.ArchivesReceived? ==>
        availableArchives == SortNewestFirst(ArchiveItems(result.body)) && unchanged(this`error)
      ensures result.ArchivesFailed? ==> error == Some(ArchivesFailure) && unchanged(this`availableArchives)
      ensures unchanged(this`filteredNews, this`archiveDate, this`visibleItems, this`loading)
    {
      match result {
        case ArchivesFailed =>
          error := Some(ArchivesFailure);
        case ArchivesReceived(body) =>
          var items := ArchiveItems(body);
          var a := new Archive[|items|](i requires 0 <= i < |items| => items[i]);
          assert a[..] == items;
          SortArchives(a);
          SortIsNewestFirst(items);
          availableArchives := a[..];
      }
    }

    /** The period effect for the route's `year` and `month` ("" when
        missing): it runs only when both are present. */
    method FetchPeriod(year: string, month: string, result: PeriodResult, monthLabel: MonthLabel)
      requires Valid()
      modifies this
      ensures Valid()
      ensures year == "" || month == "" ==>
        unchanged(this`filteredNews, this`archiveDate, this`visibleItems, this`loading, this`error)
      ensures year != "" && month != "" && result.PeriodFailed? ==>
        error == Some(PeriodFailure) && !loading &&
        unchanged(this`filteredNews, this`archiveDate, this`visibleItems)
      ensures year != "" && month != "" && result.PeriodReceived? ==>
        filteredNews == PeriodNews(result.data) && !loading && unchanged(this`error) &&
        archiveDate == monthLabel(JsParseInt(year), JsParseInt(month))
      ensures year != "" && month != "" && result.PeriodReceived? && Ids(filteredNews).Some? ==>
        visibleItems == Ids(filteredNews).value
      ensures year != "" && month != "" && result.PeriodReceived? && Ids(filteredNews).None? ==>
        unchanged(this`visibleItems)
      ensures unchanged(this`availableArchives)
    {
      if year != "" && month != "" {
        loading := true;
        match result {
          case PeriodFailed =>
            error := Some(PeriodFailure);
            loading := false;
          case PeriodReceived(data) =>
            Receive(PeriodNews(data), monthLabel(JsParseInt(year), JsParseInt(month)));
        }
      }
    }

    /** The articles of the period have arrived: keep them and their heading
        date, show every card, and stop loading. */
    method Receive(news: seq<Value>, date: string)
      requires Valid()
      modifies this
      ensures Valid()
      ensures filteredNews == news && archiveDate == date && !loading
      ensures Ids(news).Some? ==> visibleItems == Ids(news).value
      ensures Ids(news).None? ==> unchanged(this`visibleItems)
      ensures unchanged(this`error, this`availableArchives)
    {
      filteredNews := news;
      archiveDate := date;
      var ids := Ids(news);
      if ids.Some? {
        visibleItems := ids.value;
      }
      loading := false;
    }

    /** What the page renders for the route's `year` and `month`. */
    function Render(year: string, month: string, localeDate: LocaleDate): (v: View)
      reads this
      ensures v.Spinner? <==> loading
      ensures v.ErrorPanel? <==> !loading && error.Some? && error.value != ""
      ensures v.ErrorPanel? ==> v.message == error.value
      ensures v.RenderCrash? <==>
        (!loading && (error.None? || error.value == "") &&
         exists i :: 0 <= i < |filteredNews| && Nullish(filteredNews[i]))
      ensures v.Listing? ==>
        v.heading == "Archive: " + archiveDate && v.entries == Entries(availableArchives, year, month)
      ensures v.Listing? ==> (v.articles.NoArticles? <==> filteredNews == [])
      ensures v.Listing? && v.articles.Grid? ==>
        |v.articles.cards| == |filteredNews| &&
        forall i :: 0 <= i < |filteredNews| ==> v.articles.cards[i] == CardFor(filteredNews[i], i, visibleItems, localeDate)
    {
      if loading then Spinner
      else if error.Some? && error.value != "" then ErrorPanel(error.value)
      else if exists i :: 0 <= i < |filteredNews| && Nullish(filteredNews[i]) then RenderCrash
      else
        var articles :=
          if filteredNews == [] then NoArticles
          else Grid(seq(|filteredNews|, i requires 0 <= i < |filteredNews| reads this =>
                        CardFor(filteredNews[i], i, visibleItems, localeDate)));
        Listing("Archive: " + archiveDate, articles, Entries(availableArchives, year, month))
    }
  }

  /** Once the articles of a period are in, every card is shown. */
  lemma LoadedCardsAreVisible(items: seq<Value>, localeDate: LocaleDate)
    requires Ids(items).Some?
    ensures forall i :: 0 <= i < |items| ==> CardFor(items[i], i, Ids(items).value, localeDate).isVisible
  {
    var ids := Ids(items).value;
    forall i | 0 <= i < |items| ensures Prop(items[i], "_id") in ids {
      assert ids[i] == Prop(items[i], "_id");
    }
  }
}
