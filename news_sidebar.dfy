/**
 * The news sidebar: a search box whose suggestions are computed locally from
 * the ten latest articles and the category list, the archive and category
 * links, and the three most recent articles.
 */
module NewsSidebar {
  import opened Options
  import opened Strings
  import opened Js
  import opened Images
  import opened DateFormatter
  import opened Uri
  import opened NewsShapes
  import opened Seqs

  const MaxTitleSuggestions: nat := 3
  const MaxCategorySuggestions: nat := 2
  const MaxSuggestions: nat := 5
  const RecentCount: nat := 3

  // ---------------------------------------------------------------------
  // Suggestions
  // ---------------------------------------------------------------------

  /** The case-insensitive test of a text against the trimmed search term
      (the term is matched literally). */
  predicate Matches(term: string, text: string)
    ensures IsBlank(term) ==> Matches(term, text)
    ensures ToLower(text) == ToLower(Trim(term)) ==> Matches(term, text)
  {
    var hay, needle := ToLower(text), ToLower(Trim(term));
    assert needle == [] || needle == hay ==> OccursAt(hay, needle, 0);
    Contains(hay, needle)
  }

  /** The search test as the callback `t => regex.test(t)`. */
  function MatchesTerm(term: string): (p: string -> bool)
    ensures forall t :: p(t) == Matches(term, t)
  {
    t => Matches(term, t)
  }

  /** `texts.filter(t => regex.test(t))`. */
  function Matching(term: string, texts: seq<string>): (r: seq<string>)
    ensures |r| <= |texts|
  {
    Filter(MatchesTerm(term), texts)
  }

  /** The filter keeps exactly the matching texts. */
  lemma MatchingKeepsTheMatches(term: string, texts: seq<string>)
    ensures forall x :: x in Matching(term, texts) <==> x in texts && Matches(term, x)
  {
    FilterKeeps(MatchesTerm(term), texts);
  }

  /** The filter works item by item: filtering a concatenation filters each
      part, so the matches keep their order and their repetitions. */
  lemma MatchingOfConcat(term: string, a: seq<string>, b: seq<string>)
    ensures Matching(term, a + b) == Matching(term, a) + Matching(term, b)
  {
    FilterOfConcat(MatchesTerm(term), a, b);
  }

  predicate Distinct(s: seq<string>) {
    forall i, j :: 0 <= i < j < |s| ==> s[i] != s[j]
  }

  /** `[...new Set(s)]`: each value once, at the place it first occurs. */
  function Unique(s: seq<string>): (r: seq<string>)
    ensures |r| <= |s|
  {
    if s == [] then []
    else
      var u := Unique(s[..|s| - 1]);
      var last := s[|s| - 1];
      if last in u then u else u + [last]
  }

  /** The set holds each value once. */
  lemma {:induction false} UniqueIsDistinct(s: seq<string>)
    ensures Distinct(Unique(s))
  {
    if s != [] {
      var init := s[..|s| - 1];
      UniqueIsDistinct(init);
      UniqueKeepsTheValues(init);
    }
  }

  /** The set keeps every value of the sequence and adds none. */
  lemma {:induction false} UniqueKeepsTheValues(s: seq<string>)
    ensures forall x :: x in Unique(s) <==> x in s
  {
    if s != [] {
      var init := s[..|s| - 1];
      UniqueKeepsTheValues(init);
      assert s == init + [s[|s| - 1]];
    }
  }

  /** A sequence without repetitions passes through the set unchanged. */
  lemma {:induction false} UniqueOfDistinct(s: seq<string>)
    requires Distinct(s)
    ensures Unique(s) == s
  {
    if s != [] {
      var init := s[..|s| - 1];
      assert Distinct(init);
      UniqueOfDistinct(init);
      assert s[|s| - 1] !in init;
      assert init + [s[|s| - 1]] == s;
    }
  }

  /** Later values never reorder earlier ones: the unique values of a prefix
      are a prefix of the unique values of the whole. */
  lemma {:induction false} UniqueKeepsFirstOccurrenceOrder(s: seq<string>, k: nat)
    requires k <= |s|
    ensures Unique(s[..k]) <= Unique(s)
    decreases |s|
  {
    if k < |s| {
      var init := s[..|s| - 1];
      assert init[..k] == s[..k];
      UniqueKeepsFirstOccurrenceOrder(init, k);
    } else {
      assert s[..k] == s;
    }
  }

  /** The first three matching titles. */
  function TitleHits(term: string, titles: seq<string>): (r: seq<string>)
    ensures |r| == Min(|Matching(term, titles)|, MaxTitleSuggestions) && r <= Matching(term, titles)
    ensures |Matching(term, titles)| <= MaxTitleSuggestions ==> r == Matching(term, titles)
    ensures forall x :: x in r ==> x in titles && Matches(term, x)
  {
    MatchingKeepsTheMatches(term, titles);
    Slice(Matching(term, titles), 0, MaxTitleSuggestions)
  }

  /** The first two matching categories. */
  function CategoryHits(term: string, categories: seq<string>): (r: seq<string>)
    ensures |r| == Min(|Matching(term, categories)|, MaxCategorySuggestions) && r <= Matching(term, categories)
    ensures |Matching(term, categories)| <= MaxCategorySuggestions ==> r == Matching(term, categories)
    ensures forall x :: x in r ==> x in categories && Matches(term, x)
  {
    MatchingKeepsTheMatches(term, categories);
    Slice(Matching(term, categories), 0, MaxCategorySuggestions)
  }

  /**
   * The suggestion effect's list for a search term: nothing for a blank term;
   * otherwise the first three matching titles followed by the first two
   * matching categories, each value once. The lemmas below state which values
   * it holds and in what order.
   */
  function Suggestions(term: string, titles: seq<string>, categories: seq<string>): (r: seq<string>)
    ensures |r| <= MaxSuggestions
  {
    // `!term.trim()` holds exactly for a blank term (see Strings.Trim)
    if IsBlank(term) then []
    else Slice(Unique(TitleHits(term, titles) + CategoryHits(term, categories)), 0, MaxSuggestions)
  }

  /** No value is suggested twice. */
  lemma SuggestionsAreDistinct(term: string, titles: seq<string>, categories: seq<string>)
    ensures Distinct(Suggestions(term, titles, categories))
  {
    if !IsBlank(term) {
      var u := Unique(TitleHits(term, titles) + CategoryHits(term, categories));
      UniqueIsDistinct(TitleHits(term, titles) + CategoryHits(term, categories));
      assert Slice(u, 0, MaxSuggestions) == u[0..Min(MaxSuggestions, |u|)];
    }
  }

  /** A blank term has no suggestions. */
  lemma BlankTermSuggestsNothing(term: string, titles: seq<string>, categories: seq<string>)
    requires IsBlank(term)
    ensures Suggestions(term, titles, categories) == []
  {
  }

  /** For a non-blank term a value is suggested exactly when it is one of the
      first three matching titles or one of the first two matching categories. */
  lemma SuggestedExactlyTheHits(term: string, titles: seq<string>, categories: seq<string>)
    requires !IsBlank(term)
    ensures forall x :: x in Suggestions(term, titles, categories)
                    <==> x in TitleHits(term, titles) || x in CategoryHits(term, categories)
  {
    var combined := TitleHits(term, titles) + CategoryHits(term, categories);
    assert forall x :: x in combined <==> x in TitleHits(term, titles) || x in CategoryHits(term, categories);
    FinalSliceKeepsEverything(term, titles, categories);
    UniqueKeepsTheValues(combined);
  }

  /** Every suggestion matches the term and is a title or a category. */
  lemma SuggestionsMatch(term: string, titles: seq<string>, categories: seq<string>)
    ensures forall x :: x in Suggestions(term, titles, categories) ==>
      Matches(term, x) && (x in titles || x in categories)
  {
    if !IsBlank(term) {
      SuggestedExactlyTheHits(term, titles, categories);
      var m := Matching(term, titles);
      var c := Matching(term, categories);
      MatchingKeepsTheMatches(term, titles);
      MatchingKeepsTheMatches(term, categories);
      assert forall x :: x in TitleHits(term, titles) ==> x in m by {
        assert TitleHits(term, titles) == m[0..Min(MaxTitleSuggestions, |m|)];
      }
      assert forall x :: x in CategoryHits(term, categories) ==> x in c by {
        assert CategoryHits(term, categories) == c[0..Min(MaxCategorySuggestions, |c|)];
      }
    }
  }

  /** The final `.slice(0, 5)` never drops anything: three titles and two
      categories are five values at most before duplicates go. */
  lemma FinalSliceKeepsEverything(term: string, titles: seq<string>, categories: seq<string>)
    requires !IsBlank(term)
    ensures Suggestions(term, titles, categories)
         == Unique(TitleHits(term, titles) + CategoryHits(term, categories))
  {
    var u := Unique(TitleHits(term, titles) + CategoryHits(term, categories));
    assert |u| <= MaxSuggestions;
    assert Slice(u, 0, MaxSuggestions) == u[0..|u|];
  }

  /** With five distinct hits or fewer, the list is the title hits followed by
      the category hits, in their original order. */
  lemma DistinctHitsInOrder(term: string, titles: seq<string>, categories: seq<string>)
    requires !IsBlank(term)
    requires Distinct(TitleHits(term, titles) + CategoryHits(term, categories))
    ensures Suggestions(term, titles, categories)
         == TitleHits(term, titles) + CategoryHits(term, categories)
    ensures |Suggestions(term, titles, categories)|
         == Min(|Matching(term, titles)|, MaxTitleSuggestions) + Min(|Matching(term, categories)|, MaxCategorySuggestions)
  {
    var t, c := TitleHits(term, titles), CategoryHits(term, categories);
    FinalSliceKeepsEverything(term, titles, categories);
    UniqueOfDistinct(t + c);
    var mt, mc := Matching(term, titles), Matching(term, categories);
    assert t == mt[0..Min(MaxTitleSuggestions, |mt|)];
    assert c == mc[0..Min(MaxCategorySuggestions, |mc|)];
  }

  /** Title suggestions come before category suggestions. */
  lemma TitlesFirst(term: string, titles: seq<string>, categories: seq<string>)
    requires !IsBlank(term)
    ensures Unique(TitleHits(term, titles)) <= Suggestions(term, titles, categories)
  {
    var hits := TitleHits(term, titles);
    var combined := hits + CategoryHits(term, categories);
    FinalSliceKeepsEverything(term, titles, categories);
    UniqueKeepsFirstOccurrenceOrder(combined, |hits|);
    assert combined[..|hits|] == hits;
  }

  lemma {:induction false} ToLowerIdempotent(s: string)
    ensures ToLower(ToLower(s)) == ToLower(s)
  {
    if s != [] {
      ToLowerIdempotent(s[1..]);
      assert ToLower(s) == [LowerChar(s[0])] + ToLower(s[1..]);
    }
  }

  /** Case does not matter on the text's side of the test. */
  lemma MatchIgnoresCase(term: string, text: string)
    ensures Matches(term, ToLower(text)) == Matches(term, text)
  {
    ToLowerIdempotent(text);
  }

  // ---------------------------------------------------------------------
  // The sidebar's copy of the latest news
  // ---------------------------------------------------------------------

  /** An article as the sidebar keeps it: the record with its image and
      display date replaced. `titleText` is the title as the search test
      converts it to a string. */
  datatype SidebarNews = SidebarNews(
    record: Value, title: Value, titleText: string, slug: Value, image: Value, date: Value)

  /**
   * One article of the news response: the image through the guarded choice
   * and the date line of DateFormatter.DisplayDate.
   */
  function FormatItem(item: Value, parse: DateParser): (n: SidebarNews)
    requires !Nullish(item)
    ensures n.record == item && n.title == Prop(item, "title") && n.slug == Prop(item, "slug")
    ensures n.titleText == ToJsString(n.title)
    ensures n.image == GuardedImageUrl(Prop(item, "image"))
    ensures n.date == DisplayDate(parse, Prop(item, "date"), Prop(item, "publishedAt"))
  {
    SidebarNews(item, Prop(item, "title"), ToJsString(Prop(item, "title")), Prop(item, "slug"),
                GuardedImageUrl(Prop(item, "image")), DisplayDate(parse, Prop(item, "date"), Prop(item, "publishedAt")))
  }

  /** The array the news response carries: the body itself when it is an
      array, otherwise `data?.data || []`. */
  function NewsArray(data: Value): (r: Value)
    ensures data.Arr? ==> r == data
    ensures !data.Arr? && Truthy(Prop(data, "data")) ==> r == Prop(data, "data")
    ensures !data.Arr? && !Truthy(Prop(data, "data")) ==> r == Arr([])
  {
    if data.Arr? then data else Or(Prop(data, "data"), Arr([]))
  }

  /**
   * The news part of the sidebar's load: None when `.map` is not a function
   * of the selected value or an item is null or undefined (both throw a
   * TypeError), otherwise one formatted article per item, in order.
   */
  function ProcessNews(data: Value, parse: DateParser): (r: Option<seq<SidebarNews>>)
    ensures r.Some? <==> NewsArray(data).Arr? && forall i :: 0 <= i < |NewsArray(data).items| ==> !Nullish(NewsArray(data).items[i])
    ensures r.Some? ==> |r.value| == |NewsArray(data).items|
    ensures r.Some? ==> forall i :: 0 <= i < |r.value| ==> r.value[i] == FormatItem(NewsArray(data).items[i], parse)
  {
    var list := NewsArray(data);
    if !list.Arr? || exists i :: 0 <= i < |list.items| && Nullish(list.items[i]) then None
    else Some(seq(|list.items|, i requires 0 <= i < |list.items| => FormatItem(list.items[i], parse)))
  }

  /** The titles the search tests, as the test converts them to strings,
      one per article and in the articles' order. */
  function TitlesOf(news: seq<SidebarNews>): (r: seq<string>)
    ensures |r| == |news|
    ensures forall i :: 0 <= i < |news| ==> r[i] == news[i].titleText
  {
    if news == [] then [] else [news[0].titleText] + TitlesOf(news[1..])
  }

  // ---------------------------------------------------------------------
  // Links
  // ---------------------------------------------------------------------

  const SearchPrefix: string := "/news/search/"

  /** The search route for a term: the search page decodes the segment
      after the prefix back into the term. */
  function SearchRoute(term: string): (r: string)
    ensures SearchPrefix <= r && |r| >= |SearchPrefix| + |term|
    ensures DecodeURIComponent(r[|SearchPrefix|..]) == Some(term)
    ensures (forall i :: 0 <= i < |term| ==> IsUnreserved(term[i])) ==> r == SearchPrefix + term
  {
    DecodeOfEncode(term);
    var r := SearchPrefix + EncodeURIComponent(term);
    assert r[|SearchPrefix|..] == EncodeURIComponent(term);
    r
  }

  /** Distinct terms lead to distinct routes. */
  lemma SearchRouteIsInjective(a: string, b: string)
    requires SearchRoute(a) == SearchRoute(b)
    ensures a == b
  {
  }

  /** Whatever the term, its route is the search prefix followed by one path
      segment: no '/', '?' or '#' can follow the prefix. */
  lemma SearchRouteIsOneSegment(term: string)
    ensures SearchPrefix <= SearchRoute(term)
    ensures forall i :: |SearchPrefix| <= i < |SearchRoute(term)| ==>
      SearchRoute(term)[i] == '%' || IsUnreserved(SearchRoute(term)[i])
  {
    var e := EncodeURIComponent(term);
    var r := SearchRoute(term);
    assert r == SearchPrefix + e;
    forall i | |SearchPrefix| <= i < |r|
      ensures r[i] == '%' || IsUnreserved(r[i])
    {
      assert r[i] == e[i - |SearchPrefix|];
    }
  }

  /** The link of an archive entry: five path segments, the last two the
      archive's year and month. */
  function ArchiveLink(a: Archive): (r: string)
    ensures Split(r, '/') == ["", "news", "archives", IntToString(a.year), IntToString(a.month)]
  {
    NoSlashInNumber(a.year);
    NoSlashInNumber(a.month);
    SplitOfLink(IntToString(a.year), IntToString(a.month));
    "/news/archives/" + IntToString(a.year) + "/" + IntToString(a.month)
  }

  lemma SplitOfLink(year: string, month: string)
    requires '/' !in year && '/' !in month
    ensures Split("/news/archives/" + year + "/" + month, '/') == ["", "news", "archives", year, month]
  {
    var parts := ["", "news", "archives", year, month];
    JoinOfLink(year, month);
    assert forall k :: 0 <= k < 3 ==> '/' !in parts[k];
    SplitOfJoin(parts, '/');
  }

  lemma JoinOfLink(year: string, month: string)
    ensures Join(["", "news", "archives", year, month], '/') == "/news/archives/" + year + "/" + month
  {
    var parts := ["", "news", "archives", year, month];
    assert Join(parts[3..], '/') == year + "/" + month by { assert parts[3..][1..] == parts[4..]; }
    assert Join(parts[2..], '/') == "archives/" + year + "/" + month by { assert parts[2..][1..] == parts[3..]; }
    assert Join(parts[1..], '/') == "news/archives/" + year + "/" + month by { assert parts[1..][1..] == parts[2..]; }
  }

  /** The decimal rendering of a number holds no '/'. */
  lemma NoSlashInNumber(n: int)
    ensures '/' !in IntToString(n)
  {
    var digits := NatToString(if n < 0 then -n else n);
    assert forall i :: 0 <= i < |digits| ==> digits[i] != '/';
    if n < 0 {
      assert IntToString(n) == "-" + digits;
    }
  }

  /** A recent-news entry: its link, image and date line. */
  datatype RecentEntry = RecentEntry(link: string, image: Value, title: Value, date: Value)

  /** `allNews.slice(0, 3)`, with an empty image replaced by the placeholder. */
  function RecentEntries(news: seq<SidebarNews>): (r: seq<RecentEntry>)
    ensures |r| == Min(|news|, RecentCount)
    ensures forall i :: 0 <= i < |r| ==>
      && r[i].link == "/news/" + ToJsString(news[i].slug)
      && Truthy(r[i].image)
      && (Truthy(news[i].image) ==> r[i].image == news[i].image)
      && (!Truthy(news[i].image) ==> r[i].image == Str(Placeholder))
      && r[i].title == news[i].title
      && r[i].date == news[i].date
  {
    var recent := Slice(news, 0, RecentCount);
    seq(|recent|, i requires 0 <= i < |recent| =>
      RecentEntry("/news/" + ToJsString(recent[i].slug), Or(recent[i].image, Str(Placeholder)),
                  recent[i].title, recent[i].date))
  }
  /** The rendered recent list: None when React throws on an entry's title
      or date line (an object), otherwise the entries. */
  function RecentView(news: seq<SidebarNews>): (r: Option<seq<RecentEntry>>)
    ensures r.None? <==>
      exists i :: 0 <= i < Min(|news|, RecentCount) && (ThrowsAsChild(news[i].title) || ThrowsAsChild(news[i].date))
    ensures r.Some? ==> r.value == RecentEntries(news)
  {
    var entries := RecentEntries(news);
    if exists i :: 0 <= i < |entries| && (ThrowsAsChild(entries[i].title) || ThrowsAsChild(entries[i].date)) then None
    else Some(entries)
  }


  // ---------------------------------------------------------------------
  // The component
  // ---------------------------------------------------------------------

  /** The three requests of the initial load: all answered, or one failed. */
  datatype LoadOutcome =
    | Loaded(archives: seq<Archive>, categories: seq<string>, news: Value)
    | SomeRequestFailed

  /**
   * The sidebar's state. The suggestion effect runs after every render in
   * which the term, the news or the categories changed; each method below
   * ends with the state that effect leaves, which `Valid` describes.
   */
  class Sidebar {
    var searchTerm: string
    var suggestions: seq<string>
    var dropdownVisible: bool
    var allNews: seq<SidebarNews>
    var categories: seq<string>
    var archives: seq<Archive>

    /** The suggestions are those of the current term, news and categories,
        and the dropdown is open only for a non-blank term. */
    ghost predicate Valid()
      reads this
    {
      && suggestions == Suggestions(searchTerm, TitlesOf(allNews), categories)
      && (dropdownVisible ==> !IsBlank(searchTerm))
    }

    /** The list under the search box. */
    function Dropdown(): (r: seq<string>)
      reads this
      ensures dropdownVisible ==> r == suggestions
      ensures !dropdownVisible ==> r == []
    {
      if dropdownVisible && |suggestions| > 0 then suggestions else []
    }

    constructor ()
      ensures Valid()
      ensures searchTerm == "" && suggestions == [] && !dropdownVisible
      ensures allNews == [] && categories == [] && archives == []
    {
      searchTerm := "";
      suggestions := [];
      dropdownVisible := false;
      allNews := [];
      categories := [];
      archives := [];
    }

    /** The suggestion effect: recompute the list and open the dropdown
        exactly when the term is not blank. */
    method SuggestionEffect()
      modifies this
      ensures Valid()
      ensures dropdownVisible == !IsBlank(searchTerm)
      ensures unchanged(this`searchTerm, this`allNews, this`categories, this`archives)
    {
      // both branches of the effect: Suggestions is [] for a blank term
      suggestions := Suggestions(searchTerm, TitlesOf(allNews), categories);
      dropdownVisible := !IsBlank(searchTerm);
    }

    /** Typing in the search box. */
    method ChangeTerm(value: string)
      requires Valid()
      modifies this
      ensures Valid()
      ensures searchTerm == value
      ensures unchanged(this`allNews, this`categories, this`archives)
      ensures value != old(searchTerm) ==> dropdownVisible == !IsBlank(value)
      ensures value == old(searchTerm) ==> dropdownVisible == old(dropdownVisible)
    {
      if value != searchTerm {
        searchTerm := value;
        SuggestionEffect();
      }
    }

    /**
     * Submitting the form: for a non-blank term, navigate to the search
     * route of the trimmed term, close the dropdown and clear the box;
     * a blank term does nothing.
     */
    method Submit() returns (route: Option<string>)
      requires Valid()
      modifies this
      ensures Valid()
      ensures IsBlank(old(searchTerm)) ==> route.None? && unchanged(this)
      ensures !IsBlank(old(searchTerm)) ==>
        route == Some(SearchRoute(Trim(old(searchTerm)))) && searchTerm == "" && suggestions == [] && !dropdownVisible
      ensures unchanged(this`allNews, this`categories, this`archives)
    {
      var trimmed := Trim(searchTerm);
      if trimmed == "" {
        return None;
      }
      route := Some(SearchRoute(trimmed));
      dropdownVisible := false;
      searchTerm := "";
      SuggestionEffect();
    }

    /**
     * Choosing a suggestion or a category chip: the term becomes that text
     * (untrimmed) and the route is its search route. The dropdown is closed,
     * but when the term changed the suggestion effect opens it again for a
     * non-blank term.
     */
    method SelectSuggestion(text: string) returns (route: string)
      requires Valid()
      modifies this
      ensures Valid()
      ensures route == SearchRoute(text) && searchTerm == text
      ensures dropdownVisible == (text != old(searchTerm) && !IsBlank(text))
      ensures unchanged(this`allNews, this`categories, this`archives)
    {
      route := SearchRoute(text);
      if text != searchTerm {
        // the dropdown is closed, then reopened by the effect the new term triggers
        searchTerm := text;
        SuggestionEffect();
      } else {
        dropdownVisible := false;
        assert suggestions == old(suggestions) && searchTerm == old(searchTerm);
      }
    }

    /** Focusing the box reopens the dropdown for a non-blank term. */
    method Focus()
      requires Valid()
      modifies this
      ensures Valid()
      ensures dropdownVisible == (old(dropdownVisible) || !IsBlank(searchTerm))
      ensures unchanged(this`searchTerm, this`suggestions, this`allNews, this`categories, this`archives)
    {
      if !IsBlank(searchTerm) {
        dropdownVisible := true;
      }
    }

    /** Leaving the box closes the dropdown (after a short delay). */
    method Blur()
      requires Valid()
      modifies this
      ensures Valid()
      ensures !dropdownVisible
      ensures unchanged(this`searchTerm, this`suggestions, this`allNews, this`categories, this`archives)
    {
      dropdownVisible := false;
    }

    /**
     * The initial load. When a request fails nothing changes. Otherwise the
     * archives and categories are stored first; the news are stored only
     * when processing them does not throw, and a throw there leaves the
     * previous news in place.
     */
    method LoadData(outcome: LoadOutcome, parse: DateParser)
      requires Valid()
      modifies this
      ensures Valid()
      ensures outcome.SomeRequestFailed? ==> unchanged(this)
      ensures outcome.Loaded? ==>
        && archives == outcome.archives && categories == outcome.categories
        && allNews == (match ProcessNews(outcome.news, parse)
                       case Some(news) => news
                       case None => old(allNews))
        && dropdownVisible == !IsBlank(searchTerm)
      ensures unchanged(this`searchTerm)
    {
      if outcome.SomeRequestFailed? {
        return;
      }
      archives := outcome.archives;
      categories := outcome.categories;
      match ProcessNews(outcome.news, parse) {
        case Some(news) => allNews := news;
        case None =>
      }
      SuggestionEffect();
    }

    /** The archive links, in the order the API sent them. */
    function ArchiveLinks(): (r: seq<string>)
      reads this
      ensures |r| == |archives|
      ensures forall i :: 0 <= i < |r| ==> r[i] == ArchiveLink(archives[i])
    {
      seq(|archives|, i requires 0 <= i < |archives| reads this => ArchiveLink(archives[i]))
    }
  }
}
