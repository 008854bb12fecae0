/**
 * One news card (src/components/NewsCard.tsx): the title and excerpt cut at
 * a word boundary with an ellipsis, the image URL, the display date, the
 * author, and the category links with their slugs. The card's props are
 * typed as strings in the source, and are strings here, except the image
 * (a string or an image object) and the optional date.
 */
module NewsCard {
  import opened Strings
  import opened Js
  import opened Images
  import opened DateFormatter

  const TitleLength: int := 100
  const ExcerptLength: int := 186
  const Ellipsis: string := "..."

  /**
   * Where an over-long text is cut: at the last space of its first
   * `maxLength` characters when that space is past the start and more than
   * three characters before the limit, otherwise three characters before the
   * limit, leaving room for the ellipsis.
   */
  function WordCut(text: string, maxLength: int): (k: nat)
    requires |text| > maxLength >= 3
    ensures k <= maxLength - 3
    ensures k < maxLength - 3 ==> 0 < k && text[k] == ' ' && forall j :: k < j < maxLength ==> text[j] != ' '
    ensures k == maxLength - 3 ==>
      (forall j :: 0 < j < maxLength - 3 ==> text[j] != ' ') || (exists j :: maxLength - 3 <= j < maxLength && text[j] == ' ')
  {
    var truncated := Slice(text, 0, maxLength);
    var lastSpace := LastIndexOf(truncated, ' ');
    if lastSpace > 0 && lastSpace < maxLength - 3 then lastSpace
    else
      assert lastSpace >= maxLength - 3 ==> truncated[lastSpace] == ' ' && text[lastSpace] == ' ';
      maxLength - 3
  }

  /**
   * `truncateText(text, maxLength)`. A text that fits is returned as it is;
   * a longer one is cut at a word boundary, trimmed, and ends with "...".
   * For a limit of at least 3 the result always fits the limit.
   */
  function TruncateText(text: string, maxLength: int): (r: string)
    ensures |text| <= maxLength ==> r == text
    ensures |text| > maxLength && text != "" ==> |r| >= 3 && r[|r| - 3..] == Ellipsis
    ensures maxLength >= 3 ==> |r| <= maxLength
    ensures |text| > maxLength >= 3 ==> r == Trim(text[..WordCut(text, maxLength)]) + Ellipsis
  {
    if text == "" || |text| <= maxLength then text
    else
      var truncated := Slice(text, 0, maxLength);
      var lastSpace := LastIndexOf(truncated, ' ');
      var kept := if lastSpace > 0 && lastSpace < maxLength - 3 then Slice(truncated, 0, lastSpace)
                  else Slice(truncated, 0, maxLength - 3);
      assert maxLength >= 3 ==> kept == text[..WordCut(text, maxLength)];
      Trim(kept) + Ellipsis
  }

  /** A truncated text already fits its limit, so truncating it again changes nothing. */
  lemma TruncateIdempotent(text: string, maxLength: int)
    requires maxLength >= 3
    ensures TruncateText(TruncateText(text, maxLength), maxLength) == TruncateText(text, maxLength)
  {
  }

  /** `truncatedTitle || "Untitled News"`. */
  function TitleShown(title: string): (r: string)
    ensures 1 <= |r| <= TitleLength
    ensures title == "" ==> r == "Untitled News"
    ensures title != "" ==> r == TruncateText(title, TitleLength)
  {
    var t := TruncateText(title, TitleLength);
    if t == "" then "Untitled News" else t
  }

  /** `truncatedExcerpt || "No excerpt available"`. */
  function ExcerptShown(excerpt: string): (r: string)
    ensures 1 <= |r| <= ExcerptLength
    ensures excerpt == "" ==> r == "No excerpt available"
    ensures excerpt != "" ==> r == TruncateText(excerpt, ExcerptLength)
  {
    var t := TruncateText(excerpt, ExcerptLength);
    if t == "" then "No excerpt available" else t
  }

  /** `getFormattedDate()`: a non-empty string `date` is shown as it is;
      otherwise `publishedAt` goes through the shared formatter. */
  function FormattedDate(parse: DateParser, date: Value, publishedAt: string): (r: string)
    ensures r != ""
    ensures date.Str? && date.s != "" ==> r == date.s
    ensures !(date.Str? && date.s != "") ==>
      (r == Unavailable <==> publishedAt == "" || parse(Str(publishedAt)).None?)
    ensures !(date.Str? && date.s != "") && r != Unavailable ==> ParseDisplay(r) == parse(Str(publishedAt))
  {
    if Truthy(date) && date.Str? then date.s
    else FormatDate(parse, Str(publishedAt))
  }

  /** `replace(/\s+/g, "-")`: every maximal run of white space becomes one "-". */
  function ReplaceWhiteRuns(s: string): (r: string)
    ensures |r| <= |s|
    decreases |s|
  {
    if s == [] then []
    else if IsWhite(s[0]) then
      "-" + ReplaceWhiteRuns(TrimStart(s))
    else
      [s[0]] + ReplaceWhiteRuns(s[1..])
  }

  /** No white space is left after the replacement. */
  lemma {:induction false} ReplaceLeavesNoWhite(s: string)
    ensures forall i :: 0 <= i < |ReplaceWhiteRuns(s)| ==> !IsWhite(ReplaceWhiteRuns(s)[i])
    decreases |s|
  {
    if s != [] {
      if IsWhite(s[0]) {
        ReplaceLeavesNoWhite(TrimStart(s));
      } else {
        ReplaceLeavesNoWhite(s[1..]);
      }
    }
  }

  /** A string without white space passes through the replacement unchanged. */
  lemma {:induction false} ReplaceWithoutWhite(s: string)
    requires forall i :: 0 <= i < |s| ==> !IsWhite(s[i])
    ensures ReplaceWhiteRuns(s) == s
  {
    if s != [] {
      ReplaceWithoutWhite(s[1..]);
    }
  }

  /** The route slug of a category: lower-cased, each run of white space
      replaced by a single "-". */
  function CategorySlug(category: string): (r: string)
    ensures |r| <= |category|
    ensures forall i :: 0 <= i < |r| ==> !IsWhite(r[i]) && !IsUpper(r[i])
  {
    var lower := ToLower(category);
    ReplaceKeepsLowerCase(lower);
    ReplaceLeavesNoWhite(lower);
    ReplaceWhiteRuns(lower)
  }

  predicate IsUpper(c: char) {
    'A' <= c <= 'Z'
  }

  lemma {:induction false} ReplaceKeepsLowerCase(s: string)
    requires forall i :: 0 <= i < |s| ==> !IsUpper(s[i])
    ensures forall i :: 0 <= i < |ReplaceWhiteRuns(s)| ==> !IsUpper(ReplaceWhiteRuns(s)[i])
    decreases |s|
  {
    if s != [] {
      if IsWhite(s[0]) {
        var t := TrimStart(s);
        assert forall i :: 0 <= i < |t| ==> t[i] == s[|s| - |t| + i];
        ReplaceKeepsLowerCase(t);
      } else {
        ReplaceKeepsLowerCase(s[1..]);
      }
    }
  }

  /** A slug is its own slug. */
  lemma SlugIdempotent(category: string)
    ensures CategorySlug(CategorySlug(category)) == CategorySlug(category)
  {
    var s := CategorySlug(category);
    assert ToLower(s) == s;
    ReplaceWithoutWhite(s);
  }

  /** Two words separated by any run of white space become "word-word". */
  lemma SlugOfTwoWords(a: string, gap: string, b: string)
    requires a != [] && b != [] && gap != [] && IsBlank(gap)
    requires forall i :: 0 <= i < |a| ==> !IsWhite(a[i])
    requires forall i :: 0 <= i < |b| ==> !IsWhite(b[i])
    ensures CategorySlug(a + gap + b) == ToLower(a) + "-" + ToLower(b)
  {
    var la, lb := ToLower(a), ToLower(b);
    LowerKeepsWhite(a);
    LowerKeepsWhite(b);
    LowerOfBlank(gap);
    ToLowerConcat(a, gap + b);
    ToLowerConcat(gap, b);
    assert a + gap + b == a + (gap + b);
    assert ToLower(a + gap + b) == la + (gap + lb);
    ReplaceAfterPrefix(la, gap + lb);
    ReplaceAfterGap(gap, lb);
    ReplaceWithoutWhite(lb);
  }

  lemma ToLowerConcat(x: string, y: string)
    ensures ToLower(x + y) == ToLower(x) + ToLower(y)
  {
  }

  lemma LowerOfBlank(gap: string)
    requires IsBlank(gap)
    ensures ToLower(gap) == gap
  {
  }

  lemma LowerKeepsWhite(s: string)
    requires forall i :: 0 <= i < |s| ==> !IsWhite(s[i])
    ensures forall i :: 0 <= i < |ToLower(s)| ==> !IsWhite(ToLower(s)[i])
  {
  }

  lemma {:induction false} ReplaceAfterPrefix(a: string, rest: string)
    requires forall i :: 0 <= i < |a| ==> !IsWhite(a[i])
    ensures ReplaceWhiteRuns(a + rest) == a + ReplaceWhiteRuns(rest)
    decreases |a|
  {
    if a != [] {
      var tail := a[1..] + rest;
      var s := [a[0]] + tail;
      assert s == a + rest;
      assert !IsWhite(a[0]);
      assert s[1..] == tail;
      ReplaceAfterPrefix(a[1..], rest);
      assert ReplaceWhiteRuns(tail) == a[1..] + ReplaceWhiteRuns(rest);
      assert ReplaceWhiteRuns(s) == [a[0]] + ReplaceWhiteRuns(tail);
      assert [a[0]] + (a[1..] + ReplaceWhiteRuns(rest)) == a + ReplaceWhiteRuns(rest);
    } else {
      assert a + rest == rest;
    }
  }

  lemma ReplaceAfterGap(gap: string, b: string)
    requires gap != [] && IsBlank(gap)
    requires b == [] || !IsWhite(b[0])
    ensures ReplaceWhiteRuns(gap + b) == "-" + ReplaceWhiteRuns(b)
  {
    TrimStartDropsBlank(gap, b);
  }

  lemma {:induction false} TrimStartDropsBlank(gap: string, b: string)
    requires IsBlank(gap)
    requires b == [] || !IsWhite(b[0])
    ensures TrimStart(gap + b) == b
  {
    if gap != [] {
      assert (gap + b)[1..] == gap[1..] + b;
      TrimStartDropsBlank(gap[1..], b);
    }
  }

  /** The props a card receives. */
  datatype CardProps = CardProps(
    slug: string, image: Value, title: string, publishedAt: string, author: string,
    categories: seq<string>, excerpt: string, date: Value)

  /** What a card shows and links to. */
  datatype CardView = CardView(
    link: string, imageUrl: Value, dateText: string, author: string,
    categoryLinks: seq<string>, title: string, excerpt: string)

  /** The card for a set of props. */
  function Render(parse: DateParser, news: CardProps): (v: CardView)
    ensures v.link == "/news/" + news.slug
    ensures Truthy(v.imageUrl) && v.dateText != "" && v.author != "" && v.title != "" && v.excerpt != ""
    ensures |v.title| <= TitleLength && |v.excerpt| <= ExcerptLength
    ensures v.imageUrl == CardImageUrl(news.image)
    ensures v.dateText == FormattedDate(parse, news.date, news.publishedAt)
    ensures v.title == TitleShown(news.title) && v.excerpt == ExcerptShown(news.excerpt)
    ensures news.author != "" ==> v.author == news.author
    ensures news.author == "" ==> v.author == "Unknown"
    ensures |v.categoryLinks| == |news.categories|
    ensures forall i :: 0 <= i < |news.categories| ==>
      v.categoryLinks[i] == "/news/category/" + CategorySlug(news.categories[i])
  {
    CardView(
      link := "/news/" + news.slug,
      imageUrl := CardImageUrl(news.image),
      dateText := FormattedDate(parse, news.date, news.publishedAt),
      author := if news.author != "" then news.author else "Unknown",
      categoryLinks := seq(|news.categories|, i requires 0 <= i < |news.categories| =>
        "/news/category/" + CategorySlug(news.categories[i])),
      title := TitleShown(news.title),
      excerpt := ExcerptShown(news.excerpt))
  }
}
