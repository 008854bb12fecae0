/**
 * The article page: it loads one article by its slug, then up to two other
 * articles in a random order, and shows the article's content as paragraphs.
 */
module NewsDetail {
  import opened Options
  import opened Strings
  import opened Js
  import opened Images
  import opened DateFormatter
  import opened Seqs

  const MissingSlugMessage: string := "News article not found - missing slug parameter"
  const GenericFailure: string := "Failed to load news article. Please try again later."
  const NotFoundMessage: string := "News article not found"
  const HttpFailurePrefix: string := "Failed to load news article: "
  const RelatedCount: nat := 2

  /** An article as the page keeps it: the record with its image and date
      line replaced, and the fields the page shows. */
  datatype Article = Article(
    record: Value, title: Value, excerpt: Value, content: Value, author: Value,
    slug: Value, image: Value, date: Value)

  /** The processing applied to the article and to each related article. */
  function ProcessArticle(item: Value, parse: DateParser): (a: Article)
    requires !Nullish(item)
    ensures a.record == item
    ensures a.title == Prop(item, "title") && a.excerpt == Prop(item, "excerpt")
    ensures a.content == Prop(item, "content") && a.author == Prop(item, "author")
    ensures a.slug == Prop(item, "slug")
    ensures a.image == GuardedImageUrl(Prop(item, "image"))
    ensures a.date == DisplayDate(parse, Prop(item, "date"), Prop(item, "publishedAt"))
  {
    Article(item, Prop(item, "title"), Prop(item, "excerpt"), Prop(item, "content"),
            Prop(item, "author"), Prop(item, "slug"), GuardedImageUrl(Prop(item, "image")),
            DisplayDate(parse, Prop(item, "date"), Prop(item, "publishedAt")))
  }

  // ---------------------------------------------------------------------
  // Requests
  // ---------------------------------------------------------------------

  /** What a GET request gives: a response with its status line and parsed
      body, or no response at all (a network failure). */
  datatype HttpResult = Response(status: int, statusText: string, data: Value) | NoResponse

  /** The HTTP client resolves for a 2xx status and rejects otherwise. */
  predicate Resolves(r: HttpResult) {
    r.Response? && 200 <= r.status < 300
  }

  /** What the main request leads to. */
  datatype MainOutcome =
    | Loaded(article: Article)
    | Failed(message: string)
    /** Building the message read `.message` of a null body and threw. */
    | HandlerThrew

  /**
   * The message for a rejected request that carries a response:
   * `Failed to load news article: ${status} ${data.message || statusText}`.
   * A null or undefined body makes the handler itself throw (None).
   */
  function HttpFailureMessage(status: int, statusText: string, data: Value): (r: Option<string>)
    ensures r.None? <==> Nullish(data)
    ensures r.Some? ==> HttpFailurePrefix + IntToString(status) + " " <= r.value
    ensures r.Some? && !Truthy(Prop(data, "message")) ==>
      r.value == HttpFailurePrefix + IntToString(status) + " " + statusText
    ensures !Nullish(data) && Truthy(Prop(data, "message")) ==>
      r == Some(HttpFailurePrefix + IntToString(status) + " " + ToJsString(Prop(data, "message")))
  {
    if Nullish(data) then None
    else Some(HttpFailurePrefix + IntToString(status) + " " + ToJsString(Or(Prop(data, "message"), Str(statusText))))
  }

  /**
   * The main request: a 200 response with a truthy body is the article; any
   * other resolved response, or no response, gives the generic message; a
   * rejected response gives its status line.
   */
  function MainStep(result: HttpResult, parse: DateParser): (r: MainOutcome)
    ensures r.Loaded? <==> result.Response? && result.status == 200 && Truthy(result.data)
    ensures r.Loaded? ==> r.article == ProcessArticle(result.data, parse)
    ensures r.HandlerThrew? <==> result.Response? && !Resolves(result) && Nullish(result.data)
    ensures r.Failed? && (Resolves(result) || result.NoResponse?) ==> r.message == GenericFailure
    ensures result.Response? && !Resolves(result) && !Nullish(result.data) ==>
      r == Failed(HttpFailureMessage(result.status, result.statusText, result.data).value)
    ensures r.Failed? ==> r.message != ""
  {
    match result
    case NoResponse => Failed(GenericFailure)
    case Response(status, statusText, data) =>
      if Resolves(result) then
        if status == 200 && Truthy(data) then Loaded(ProcessArticle(data, parse))
        else Failed(GenericFailure)   // "Invalid response format" has no response attached
      else
        match HttpFailureMessage(status, statusText, data)
        case Some(message) => Failed(message)
        case None => HandlerThrew
  }

  // ---------------------------------------------------------------------
  // Related articles
  // ---------------------------------------------------------------------

  /** `Array.isArray(data) ? data : data.data || []`; None when `data` is null
      or undefined, or when what it selects is not an array (`.filter` then
      throws). */
  function RelatedArray(data: Value): (r: Option<seq<Value>>)
    ensures data.Arr? ==> r == Some(data.items)
    ensures Nullish(data) ==> r.None?
    ensures !data.Arr? && !Nullish(data) && Prop(data, "data").Arr? ==> r == Some(Prop(data, "data").items)
    ensures !data.Arr? && !Nullish(data) && !Truthy(Prop(data, "data")) ==> r == Some([])
    ensures !data.Arr? && !Nullish(data) && Truthy(Prop(data, "data")) && !Prop(data, "data").Arr? ==> r.None?
  {
    if data.Arr? then Some(data.items)
    else if Nullish(data) then None
    else
      var selected := Or(Prop(data, "data"), Arr([]));
      if selected.Arr? then Some(selected.items) else None
  }

  /** The other articles: those whose slug is not the page's slug, in their
      order, processed. None when an item is null or undefined. */
  function Candidates(items: seq<Value>, slug: string, parse: DateParser): (r: Option<seq<Article>>)
    ensures r.Some? <==> forall i :: 0 <= i < |items| ==> !Nullish(items[i])
    ensures r.Some? ==> |r.value| <= |items|
    ensures r.Some? ==> forall a :: a in r.value ==> a.slug != Str(slug)
  {
    if items == [] then Some([])
    else if Nullish(items[0]) then None
    else
      match Candidates(items[1..], slug, parse)
      case None => None
      case Some(rest) =>
        var keep := Prop(items[0], "slug") != Str(slug);
        Some((if keep then [ProcessArticle(items[0], parse)] else []) + rest)
  }

  /** Every article with another slug is a candidate: the filter drops only
      the page's own article. */
  lemma {:induction false} CandidatesKeepOthers(items: seq<Value>, slug: string, parse: DateParser, i: nat)
    requires i < |items| && forall k :: 0 <= k < |items| ==> !Nullish(items[k])
    requires Prop(items[i], "slug") != Str(slug)
    ensures Candidates(items, slug, parse).Some?
    ensures ProcessArticle(items[i], parse) in Candidates(items, slug, parse).value
  {
    if i > 0 {
      CandidatesKeepOthers(items[1..], slug, parse, i - 1);
    } else {
      assert Candidates(items[1..], slug, parse).Some?;
    }
  }

  /** `a` is item `i` of the response, processed, and that item's slug is
      not the page's slug. */
  predicate OtherItem(items: seq<Value>, i: int, slug: string, parse: DateParser, a: Article) {
    0 <= i < |items| && !Nullish(items[i]) && Prop(items[i], "slug") != Str(slug) &&
    a == ProcessArticle(items[i], parse)
  }

  /** Every candidate is a processed item of the response whose slug is not
      the page's slug. */
  lemma {:induction false} CandidatesComeFromItems(items: seq<Value>, slug: string, parse: DateParser)
    requires Candidates(items, slug, parse).Some?
    ensures forall a :: a in Candidates(items, slug, parse).value ==>
      exists i :: OtherItem(items, i, slug, parse, a)
  {
    if items != [] {
      var rest := Candidates(items[1..], slug, parse);
      CandidatesComeFromItems(items[1..], slug, parse);
      forall a | a in Candidates(items, slug, parse).value
        ensures exists i :: OtherItem(items, i, slug, parse, a)
      {
        if a in rest.value {
          var j :| OtherItem(items[1..], j, slug, parse, a);
          assert OtherItem(items, j + 1, slug, parse, a);
        } else {
          assert OtherItem(items, 0, slug, parse, a);
        }
      }
    }
  }

  /** `sort(() => 0.5 - Math.random())`: whatever order the random comparator
      produces, the sort returns a reordering of its input. */
  type Shuffle = f: seq<Article> -> seq<Article> | forall s :: multiset(f(s)) == multiset(s)
    witness (s: seq<Article>) => s

  /** `.sort(random).slice(0, 2)`: the first two of the shuffled candidates. */
  function Pick(others: seq<Article>, shuffle: Shuffle): (r: seq<Article>)
    ensures |r| == Min(RelatedCount, |others|)
    ensures multiset(r) <= multiset(others)
    ensures forall a :: a in r ==> a in others
  {
    var mixed := shuffle(others);
    assert |mixed| == |multiset(mixed)| == |multiset(others)| == |others|;
    var r := Slice(mixed, 0, RelatedCount);
    PrefixInMultiset(mixed, |r|);
    r
  }

  /**
   * The related-news request: None when it is rejected or processing its
   * body throws (the page then keeps the related articles it had); otherwise
   * the picked candidates.
   */
  function RelatedNews(result: HttpResult, slug: string, shuffle: Shuffle, parse: DateParser): (r: Option<seq<Article>>)
    ensures !Resolves(result) ==> r.None?
    ensures r.Some? <==>
      (Resolves(result) && RelatedArray(result.data).Some? &&
       forall i :: 0 <= i < |RelatedArray(result.data).value| ==> !Nullish(RelatedArray(result.data).value[i]))
    ensures r.Some? ==> |r.value| <= RelatedCount
  {
    if !Resolves(result) then None
    else
      match RelatedArray(result.data)
      case None => None
      case Some(items) =>
        match Candidates(items, slug, parse)
        case None => None
        case Some(others) => Some(Pick(others, shuffle))
  }

  /** The related articles are processed items of the response, never one
      with the page's own slug, each at most as often as the candidates hold
      it, and there are two of them whenever the response holds two other
      articles. */
  lemma RelatedNewsAreOthers(result: HttpResult, slug: string, shuffle: Shuffle, parse: DateParser)
    requires RelatedNews(result, slug, shuffle, parse).Some?
    ensures RelatedArray(result.data).Some?
    ensures var items := RelatedArray(result.data).value;
      var others := Candidates(items, slug, parse);
      others.Some? &&
      |RelatedNews(result, slug, shuffle, parse).value| == Min(RelatedCount, |others.value|) &&
      multiset(RelatedNews(result, slug, shuffle, parse).value) <= multiset(others.value) &&
      forall a :: a in RelatedNews(result, slug, shuffle, parse).value ==>
        a.slug != Str(slug) &&
        exists i :: OtherItem(items, i, slug, parse, a)
  {
    var items := RelatedArray(result.data).value;
    CandidatesComeFromItems(items, slug, parse);
  }

  // ---------------------------------------------------------------------
  // Content
  // ---------------------------------------------------------------------

  const Newline: char := '\n'

  /** A trimmed line that makes a paragraph. */
  predicate IsParagraph(p: string) {
    p != ""
  }

  /** `.filter(para => para.trim() !== "")` followed by trimming each line. */
  function NonBlankTrimmed(lines: seq<string>): (ps: seq<string>)
    ensures |ps| <= |lines|
  {
    if lines == [] then []
    else (if Trim(lines[0]) == "" then [] else [Trim(lines[0])]) + NonBlankTrimmed(lines[1..])
  }

  /** The paragraphs the page renders from the article's content. */
  function Paragraphs(content: string): (ps: seq<string>)
    ensures |ps| <= |Split(content, Newline)|
  {
    NonBlankTrimmed(Split(content, Newline))
  }

  /** The filter drops exactly the blank lines: every other line gives its
      trim, and every paragraph is the trim of some line. */
  lemma {:induction false} NonBlankTrimmedKeepsTheLines(lines: seq<string>)
    ensures forall l :: l in lines && Trim(l) != "" ==> Trim(l) in NonBlankTrimmed(lines)
    ensures forall p :: p in NonBlankTrimmed(lines) ==> p != "" && exists l :: l in lines && Trim(l) == p
  {
    if lines != [] {
      NonBlankTrimmedKeepsTheLines(lines[1..]);
      assert lines == [lines[0]] + lines[1..];
      forall p | p in NonBlankTrimmed(lines)
        ensures p != "" && exists l :: l in lines && Trim(l) == p
      {
        if p !in NonBlankTrimmed(lines[1..]) {
          assert p == Trim(lines[0]);
        }
      }
    }
  }

  /** Trimming every line and dropping the empty results gives the same
      paragraphs as the page's filter-then-trim. */
  lemma {:induction false} NonBlankTrimmedIsFilterOfTrims(lines: seq<string>)
    ensures NonBlankTrimmed(lines) == Filter(IsParagraph, Map(Trim, lines))
  {
    if lines != [] {
      NonBlankTrimmedIsFilterOfTrims(lines[1..]);
      var m := Map(Trim, lines);
      assert m[0] == Trim(lines[0]);
      assert m[1..] == Map(Trim, lines[1..]);
    }
  }

  /** The paragraphs are the content's lines, trimmed, with the empty ones
      dropped, in their order and with their repetitions. */
  lemma ParagraphsAreTheTrimmedLines(content: string)
    ensures Paragraphs(content) == Filter(IsParagraph, Map(Trim, Split(content, Newline)))
  {
    NonBlankTrimmedIsFilterOfTrims(Split(content, Newline));
  }

  /** The filter works line by line: the paragraphs of a concatenation are
      those of each part, in order and with their repetitions. */
  lemma NonBlankTrimmedOfConcat(a: seq<string>, b: seq<string>)
    ensures NonBlankTrimmed(a + b) == NonBlankTrimmed(a) + NonBlankTrimmed(b)
  {
    NonBlankTrimmedIsFilterOfTrims(a + b);
    NonBlankTrimmedIsFilterOfTrims(a);
    NonBlankTrimmedIsFilterOfTrims(b);
    MapOfConcat(Trim, a, b);
    FilterOfConcat(IsParagraph, Map(Trim, a), Map(Trim, b));
  }

  /** The paragraphs are the trims of the content's non-blank lines. */
  lemma ParagraphsAreTheNonBlankLines(content: string)
    ensures forall l :: l in Split(content, Newline) && Trim(l) != "" ==> Trim(l) in Paragraphs(content)
    ensures forall p :: p in Paragraphs(content) ==> p != "" && exists l :: l in Split(content, Newline) && Trim(l) == p
  {
    NonBlankTrimmedKeepsTheLines(Split(content, Newline));
  }

  /** A paragraph as the page shows it: not empty, one line, its own trim
      (so no white space at either end, see Strings.Trim). */
  predicate Clean(p: string) {
    p != [] && Newline !in p && Trim(p) == p
  }

  lemma {:induction false} NonBlankTrimmedIsClean(lines: seq<string>)
    requires forall k :: 0 <= k < |lines| ==> Newline !in lines[k]
    ensures forall p :: p in NonBlankTrimmed(lines) ==> Clean(p)
  {
    if lines != [] {
      NonBlankTrimmedIsClean(lines[1..]);
      var t := Trim(lines[0]);
      var head := if t == "" then [] else [t];
      if t != "" {
        TrimKeepsCharacters(lines[0]);
        TrimIdempotent(lines[0]);
        assert Clean(t);
      }
      assert NonBlankTrimmed(lines) == head + NonBlankTrimmed(lines[1..]);
    }
  }

  /** Every rendered paragraph is clean. */
  lemma ParagraphsAreClean(content: string)
    ensures forall p :: p in Paragraphs(content) ==> Clean(p)
  {
    NonBlankTrimmedIsClean(Split(content, Newline));
  }

  lemma {:induction false} NonBlankTrimmedOfClean(ps: seq<string>)
    requires forall k :: 0 <= k < |ps| ==> Clean(ps[k])
    ensures NonBlankTrimmed(ps) == ps
  {
    if ps != [] {
      var head := ps[0];
      assert Clean(head);
      assert Trim(head) == head && head != "";
      assert NonBlankTrimmed(ps) == [head] + NonBlankTrimmed(ps[1..]);
      NonBlankTrimmedOfClean(ps[1..]);
      assert [head] + ps[1..] == ps;
    }
  }

  /** Clean paragraphs written one per line come back as they were. */
  lemma ParagraphsOfJoin(ps: seq<string>)
    requires |ps| >= 1
    requires forall k :: 0 <= k < |ps| ==> Clean(ps[k])
    ensures Paragraphs(Join(ps, Newline)) == ps
  {
    SplitOfJoin(ps, Newline);
    NonBlankTrimmedOfClean(ps);
  }

  // ---------------------------------------------------------------------
  // The page
  // ---------------------------------------------------------------------

  /** A related article's card; clicking it goes to `link`. */
  datatype RelatedCard = RelatedCard(title: Value, image: Value, date: Value, author: Value, link: string)

  /** What the page renders. */
  datatype View =
    | Spinner
    | ErrorPanel(message: string)
    | ArticleView(title: Value, date: Value, author: Value, image: Value, excerpt: Value,
                  paragraphs: seq<string>, related: seq<RelatedCard>)
    /** `content.split` on a value that is not a string throws while rendering. */
    | RenderCrash

  /** The related article's card shows its title and date line, its image
      or the placeholder, its author or "Unknown". */
  function Card(a: Article): (c: RelatedCard)
    ensures c.title == a.title && c.date == a.date
    ensures Truthy(c.image) && Truthy(c.author)
    ensures Truthy(a.image) ==> c.image == a.image
    ensures !Truthy(a.image) ==> c.image == Str(Placeholder)
    ensures Truthy(a.author) ==> c.author == a.author
    ensures !Truthy(a.author) ==> c.author == Str("Unknown")
    ensures c.link == "/news/" + ToJsString(a.slug)
  {
    RelatedCard(a.title, Or(a.image, Str(Placeholder)), a.date, Or(a.author, Str("Unknown")),
                "/news/" + ToJsString(a.slug))
  }

  function Cards(articles: seq<Article>): (cs: seq<RelatedCard>)
    ensures |cs| == |articles|
    ensures forall i :: 0 <= i < |articles| ==> cs[i] == Card(articles[i])
  {
    seq(|articles|, i requires 0 <= i < |articles| => Card(articles[i]))
  }

  /** Rendering the article throws: its title, date line, excerpt or author
      (after the "Unknown" default) is a value React cannot render. */
  predicate ArticleThrows(a: Article) {
    || ThrowsAsChild(a.title) || ThrowsAsChild(a.date) || ThrowsAsChild(a.excerpt)
    || ThrowsAsChild(Or(a.author, Str("Unknown")))
  }

  /** Rendering a related card throws: its title, date line or author is a
      value React cannot render. */
  predicate CardThrows(c: RelatedCard) {
    ThrowsAsChild(c.title) || ThrowsAsChild(c.date) || ThrowsAsChild(c.author)
  }

  class DetailPage {
    var news: Option<Article>
    var relatedNews: seq<Article>
    var loading: bool
    var error: Option<string>

    /** At most two related articles, and a set error is never empty. */
    ghost predicate Valid()
      reads this
    {
      |relatedNews| <= RelatedCount && (error.Some? ==> error.value != "")
    }

    constructor ()
      ensures Valid()
      ensures news.None? && relatedNews == [] && loading && error.None?
    {
      news := None;
      relatedNews := [];
      loading := true;
      error := None;
    }

    /**
     * The loading effect for the route's slug ("" when it is missing). An
     * error, once set, is never cleared; when building the failure message
     * throws, the page keeps spinning.
     */
    method Load(slug: string, main: HttpResult, related: HttpResult, shuffle: Shuffle, parse: DateParser)
      requires Valid()
      modifies this
      ensures Valid()
      ensures slug == "" ==>
        error == Some(MissingSlugMessage) && !loading && unchanged(this`news, this`relatedNews)
      ensures slug != "" && MainStep(main, parse).Loaded? ==>
        news == Some(MainStep(main, parse).article) && !loading && unchanged(this`error)
      ensures slug != "" && MainStep(main, parse).Loaded? && RelatedNews(related, slug, shuffle, parse).None? ==>
        unchanged(this`relatedNews)
      ensures slug != "" && MainStep(main, parse).Loaded? && RelatedNews(related, slug, shuffle, parse).Some? ==>
        relatedNews == RelatedNews(related, slug, shuffle, parse).value
      ensures slug != "" && MainStep(main, parse).Failed? ==>
        error == Some(MainStep(main, parse).message) && !loading && unchanged(this`news, this`relatedNews)
      ensures slug != "" && MainStep(main, parse).HandlerThrew? ==>
        loading && unchanged(this`error, this`news, this`relatedNews)
    {
      Apply(slug, MainStep(main, parse), RelatedNews(related, slug, shuffle, parse));
    }

    /** The state change of the loading effect once both requests are
        settled: `outcome` from the main request and `picked` from the
        related one (which is only consulted after a successful main request). */
    method Apply(slug: string, outcome: MainOutcome, picked: Option<seq<Article>>)
      requires Valid()
      requires outcome.Failed? ==> outcome.message != ""
      requires picked.Some? ==> |picked.value| <= RelatedCount
      modifies this
      ensures Valid()
      ensures slug == "" ==>
        error == Some(MissingSlugMessage) && !loading && unchanged(this`news, this`relatedNews)
      ensures slug != "" && outcome.Loaded? ==>
        news == Some(outcome.article) && !loading && unchanged(this`error)
      ensures slug != "" && outcome.Loaded? && picked.None? ==> unchanged(this`relatedNews)
      ensures slug != "" && outcome.Loaded? && picked.Some? ==> relatedNews == picked.value
      ensures slug != "" && outcome.Failed? ==>
        error == Some(outcome.message) && !loading && unchanged(this`news, this`relatedNews)
      ensures slug != "" && outcome.HandlerThrew? ==>
        loading && unchanged(this`error, this`news, this`relatedNews)
    {
      if slug == "" {
        error := Some(MissingSlugMessage);
        loading := false;
        return;
      }
      loading := true;
      match outcome {
        case Loaded(article) =>
          news := Some(article);
          if picked.Some? {
            relatedNews := picked.value;
          }
          loading := false;
        case Failed(message) =>
          error := Some(message);
          loading := false;
        case HandlerThrew =>
      }
    }

    /** What the page renders in its current state. */
    function Render(): (v: View)
      reads this
      ensures v.Spinner? <==> loading
      ensures v.ErrorPanel? <==> !loading && ((error.Some? && error.value != "") || news.None?)
      ensures v.ErrorPanel? && error.Some? && error.value != "" ==> v.message == error.value
      ensures v.ErrorPanel? && (error.None? || error.value == "") ==> v.message == NotFoundMessage
      ensures v.RenderCrash? <==>
        (!loading && (error.None? || error.value == "") && news.Some? &&
         (!news.value.content.Str? || ArticleThrows(news.value) ||
          exists i :: 0 <= i < |relatedNews| && CardThrows(Card(relatedNews[i]))))
      ensures v.ArticleView? ==>
        news.Some? && news.value.content.Str? &&
        v.title == news.value.title && v.date == news.value.date && v.excerpt == news.value.excerpt &&
        v.paragraphs == Paragraphs(news.value.content.s) && v.related == Cards(relatedNews)
      ensures v.ArticleView? ==>
        (Truthy(news.value.author) ==> v.author == news.value.author) &&
        (!Truthy(news.value.author) ==> v.author == Str("Unknown")) &&
        (Truthy(news.value.image) ==> v.image == news.value.image) &&
        (!Truthy(news.value.image) ==> v.image == Str(Placeholder))
    {
      if loading then Spinner
      else if (error.Some? && error.value != "") || news.None? then
        ErrorPanel(if error.Some? && error.value != "" then error.value else NotFoundMessage)
      else
        var a := news.value;
        var cards := Cards(relatedNews);
        if !a.content.Str? || ArticleThrows(a) || exists i :: 0 <= i < |cards| && CardThrows(cards[i]) then RenderCrash
        else
          ArticleView(a.title, a.date, Or(a.author, Str("Unknown")), Or(a.image, Str(Placeholder)),
                      a.excerpt, Paragraphs(a.content.s), cards)
    }
  }

}
