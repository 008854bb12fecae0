# News views of the studio site, in Dafny

This project models the news part of a React single-page site. The views are:

- the news listing, with its fetch hook, its pagination control and its card grid;
- a single news card;
- the sidebar, with its search box, local suggestions, archive and category links, and recent articles;
- the article page, with two related articles;
- the monthly archive page;
- the search-results page;
- the category page;
- the shared date formatter.

Every view receives loosely-typed JSON from an API and fills in defaults with JavaScript's `||`, `??` and `typeof` tests. The model keeps that dynamic typing. A raw value is a `Js.Value`, and `Js.Truthy`, `Js.Or`, `Js.Coalesce` and `Js.Prop` give the language's own rules for truthiness, `||`, `??` and property reads. The records the views build keep `Value` fields wherever the source passes a raw value through.

Each component with React state is a `class` whose fields are its `useState` variables. Each effect or event handler is a `method` that changes those fields. Its `ensures` states the whole new state in terms of pure functions of the inputs. The properties of those functions are proved as lemmas. The rendering of each view is a function of the state. Where reading a property of `null` or `undefined` would throw, the model shows the throw as an explicit outcome (`None`, `Err`, `HandlerThrew`, `RenderCrash`, `RenderError`).

Inputs that the code receives from the outside world are parameters:

- HTTP responses (`FetchOutcome`, `HttpResult`, `SearchResponse`, `CategoryResponse`, `LoadOutcome`, `ArchivesResult`, `PeriodResult`);
- `Math.random()` and the clock (`ItemEnv`, `Timestamp`), with each `new Date()` reading a value of its own;
- the random comparator of the related-articles shuffle (`Shuffle`, any permutation);
- `new Date(...)` parsing (`DateParser`);
- locale date formatting (`LocaleDate`, `MonthLabel`, and the search page's long-date function);
- the text of the engine's `TypeError`.

Some behaviour the model makes visible:

- The fetch hook's failure message always says that the API returned no data. The effect reads the `news` captured on mount, which is always empty, so the other message is never chosen.
- On the article page, a failed request whose body is `null` makes the error handler itself throw. The page then never leaves its spinner.
- The four views that resolve an article image disagree on `""`, on `null` and on objects without a URL (`Images`).
- The search and category pages build their summary records differently (`NewsCategory.SummariesDiffer`).

## Model

| member | source | states |
|---|---|---|
| DateFormatter.FormatDate | src/utils/dateFormatter.ts:8-44 | the sentinel "Date not available" exactly for a falsy or unparsable value; otherwise a text that reads back as the parsed date |
| DateFormatter.DisplayRoundTrip | src/utils/dateFormatter.ts:21-39 | "D Mon, YYYY" reads back as the same calendar date, so no two dates share a display |
| DateFormatter.SentinelIsNotADate | src/utils/dateFormatter.ts:9-19 | the sentinel never reads as a date, so it cannot be confused with a displayed one |
| DateFormatter.MonthOf | src/utils/dateFormatter.ts:22-36 | the index of a name in the month table, and None only for a name that is not in it |
| DateFormatter.MonthTable | src/utils/dateFormatter.ts:22-35 | twelve distinct three-letter month names without spaces |
| DateFormatter.DisplayDate | src/components/NewsSidebar.tsx:65-69 | the date line is never empty: the record's `date` when truthy, otherwise the formatted `publishedAt` (the `publishedAt` guard changes nothing) |
| Js.Slice | src/components/NewsSidebar.tsx:93 | `Array.prototype.slice` for non-negative bounds: the clamped subsequence, and empty when end <= start |
| Strings.Trim | src/components/NewsSidebar.tsx:83 | no white space at either end, and empty exactly for a blank string; which infix it is, is stated by TrimIsInfix |
| Strings.TrimIsInfix | src/components/NewsSidebar.tsx:83 | the trimmed text is an infix of the input between a blank prefix and a blank suffix, which with its non-white ends makes it the only possible result |
| Strings.TrimIdempotent | src/pages/NewsDetail.tsx:218-221 | trimming twice is trimming once |
| Strings.TrimKeepsCharacters | src/pages/NewsDetail.tsx:221 | trimming adds no character |
| Strings.ToLower | src/components/NewsCard.tsx:135 | same length, each character lower-cased (A-Z only) |
| Strings.LastIndexOf | src/components/NewsCard.tsx:32 | the last index of the character, or -1 when it does not occur |
| Strings.Contains | src/components/NewsSidebar.tsx:89-91 | true exactly when the needle occurs at some position |
| Strings.Split | src/pages/NewsDetail.tsx:217 | the parts hold no separator and join back to the input |
| Strings.SplitOfJoin | src/pages/NewsDetail.tsx:217 | splitting the join of separator-free parts gives the parts back |
| Strings.NatToString | src/utils/dateFormatter.ts:39 | decimal digits without a leading zero |
| Strings.NatToStringRoundTrip | src/utils/dateFormatter.ts:39 | the digits of `${n}` have the value n |
| Strings.IntToStringRoundTrip | src/utils/dateFormatter.ts:39 | `${i}` for any integer reads back as i |
| Uri.EncodeURIComponent | src/components/NewsSidebar.tsx:108 | the result holds only unreserved characters and '%' escapes, and leaves unreserved text as it is |
| Uri.Utf8RoundTrip | src/components/NewsSidebar.tsx:108 | the UTF-8 bytes of a character announce their own length in the lead byte and decode back to that character |
| Uri.DecodeOfEncode | src/components/NewsSidebar.tsx:108 | `decodeURIComponent` gives back every string `encodeURIComponent` escaped |
| Uri.EncodeIsInjective | src/components/NewsSidebar.tsx:108 | two different strings never escape to the same text |
| Images.GuardedImageUrl | src/pages/NewsDetail.tsx:56-65 | an object's truthy `url`, any string unchanged, and the placeholder for every other value (a number, a boolean, null, an array, an object whose `url` is falsy); "" only for "" |
| Images.ListImageUrl | src/components/NewsList.tsx:37-42 | throws exactly for a null image, and otherwise agrees with the guarded choice |
| Images.CardImageUrl | src/components/NewsCard.tsx:48-60 | always truthy: the placeholder for a falsy image, otherwise the guarded choice |
| Images.ChainedImageUrl | src/components/NewsSearchResults.tsx:63 | always truthy: the truthy `url`, else a truthy image as it is |
| Images.VariantsAgreeOnUsualImages | src/pages/NewsArchives.tsx:127-139 | all four choices agree on a non-empty string and on an object with a truthy `url` |
| Images.VariantsOnEmptyString | src/components/NewsCard.tsx:49 | on "" the guarded and list choices keep "", the card and chained choices give the placeholder |
| Images.VariantsOnObjectWithoutUrl | src/pages/NewsCategory.tsx:37 | on an object without `url` the chained choice keeps the object while the others give the placeholder |
| NewsShapes.SummaryOf | src/components/NewsSearchResults.tsx:60-69 | each field of the summary record is the item's own value when truthy and otherwise its default ("Untitled", "Unknown", "No excerpt available", ""); `categories` is the item's array or [] |
| NewsShapes.ErrorMessage | src/components/NewsSearchResults.tsx:75 | an Error's message, otherwise "Unknown error" |
| UseNews.SelectEnvelope | src/hooks/useNews.ts:18-31 | an array as it is, then an array under `data`, then under `news`, then any object as a list of one; fails exactly for a non-object |
| UseNews.Normalise | src/hooks/useNews.ts:34-50 | every field of the record truthy after the defaults, and each default as written: a `temp-` id, a `news-` slug from the `_id` or else a random draw, the placeholder image, `??` for `published`, `publishedAt` then `createdAt` then the clock, a `date` formatted from the item's own `publishedAt`, and a separate clock reading for each of `publishedAt`, `createdAt` and `updatedAt` |
| UseNews.NormaliseKeepsPresentFields | src/hooks/useNews.ts:34-50 | every field the item already has (truthy, or not nullish for `published`) is kept as it is |
| UseNews.NormaliseAll | src/hooks/useNews.ts:34-50 | one record per item, in order, item i using its own random draws and clock reading |
| UseNews.KeepWithId | src/hooks/useNews.ts:53 | the filter keeps exactly the records whose `_id` is truthy |
| UseNews.KeepWithIdKeepsAllWithId | src/hooks/useNews.ts:53 | the `_id` filter keeps a list whose ids are all truthy unchanged |
| UseNews.Process | src/hooks/useNews.ts:21-53 | an invalid envelope gives "Invalid API response format"; a null item throws a TypeError, and only then; otherwise every fetched record has a truthy id, and there are no more records than the envelope had |
| UseNews.ProcessKeepsEveryItem | src/hooks/useNews.ts:34-53 | with no null item, the fetched list is exactly the normalised envelope: the filter drops nothing |
| UseNews.NormaliseIdempotent | src/hooks/useNews.ts:34-50 | normalising an already normalised record changes nothing and draws neither randomness nor the clock |
| UseNews.NewsHook.constructor | src/hooks/useNews.ts:7-9 | no news, loading, no error |
| UseNews.NewsHook.FetchNews | src/hooks/useNews.ts:11-67 | on success the processed list and no error; on any failure no news and always the "no data" message; loading ends false |
| NewsPage.TotalPages | src/pages/News.tsx:12-13 | the least page count of at least 1 whose pages of six hold every record |
| NewsPage.CurrentItems | src/pages/News.tsx:21-25 | the six records of the page (clamped), and none past the last page |
| NewsPage.PageSizes | src/pages/News.tsx:21-25 | every page but the last is full, and the last holds the remainder |
| NewsPage.FirstPagesArePrefix | src/pages/News.tsx:21-25 | the first k pages together are the prefix of the list |
| NewsPage.PagesConcatenate | src/pages/News.tsx:12-25 | all pages together are the whole list, in order |
| NewsPage.VisibleIds | src/pages/News.tsx:27-32 | the truthy ids of the page, one per record that has one, and nothing else |
| NewsPage.VisibleIdsInOrder | src/pages/News.tsx:29-30 | the ids keep the page's order and repetitions: the record at i gives the id at the number of ids before it |
| NewsPage.EveryCardOnThePageIsVisible | src/pages/News.tsx:27-32 | once the visibility effect has run, every card of the page is shown |
| NewsPage.NewsView.constructor | src/pages/News.tsx:9-11 | page 1, no records, no visible ids |
| NewsPage.NewsView.ReceiveNews | src/pages/News.tsx:15-18 | new records reset the page to 1 and the visible ids to those of page 1 |
| NewsPage.NewsView.ReceiveError | src/pages/News.tsx:9 | the hook's error is stored |
| NewsPage.NewsView.HandlePageChange | src/pages/News.tsx:34-37 | only the page (and its visible ids) changes |
| NewsPage.NewsView.Click | src/pages/News.tsx:34-37 | a click moves the page as the pagination control decides, and a click the control can receive keeps the page in range |
| NewsPage.NewsView.View | src/pages/News.tsx:39-54 | the error panel exactly when the error is a non-empty string, showing that error; otherwise the list of the current page |
| NewsPagination.PreviousClick | src/components/NewsPagination.tsx:18-19 | "Previous" changes the page exactly when it is past 1, to the page before |
| NewsPagination.PreviousDisabled | src/components/NewsPagination.tsx:18-19 | on a page from 1 up, "Previous" is disabled exactly when clicking it does nothing |
| NewsPagination.NextClick | src/components/NewsPagination.tsx:45-48 | "Next" changes the page exactly when it is before the last, to the page after |
| NewsPagination.NextDisabled | src/components/NewsPagination.tsx:47-48 | on a page up to the last, "Next" is disabled exactly when clicking it does nothing |
| NewsPagination.PageButtons | src/components/NewsPagination.tsx:28-43 | one button per page numbered 1..n, highlighted exactly on the current page, the last one rounded |
| NewsPagination.ExactlyOneHighlighted | src/components/NewsPagination.tsx:35 | exactly one button is highlighted for a page in range, none otherwise |
| NewsPagination.PageChange | src/components/NewsPagination.tsx:18-46 | what each of the three kinds of click passes to `onPageChange` |
| NewsPagination.Step | src/components/NewsPagination.tsx:18-48 | "Previous" moves back one page unless on page 1, "Next" forward one unless on the last, a number goes to that page |
| NewsPagination.Run | src/components/NewsPagination.tsx:18-48 | n clicks on "Next" advance n pages but stop at the last; n clicks on "Previous" go back n pages but stop at page 1 |
| NewsPagination.StepStaysInRange | src/components/NewsPagination.tsx:18-48 | one click keeps the page within [1, totalPages] |
| NewsPagination.RunStaysInRange | src/components/NewsPagination.tsx:18-48 | any sequence of clicks keeps the page within [1, totalPages] |
| NewsList.CardNewsFor | src/components/NewsList.tsx:47-59 | the card props: the id, image, date and categories passed on, and each of title, excerpt, author, publishedAt and slug the record's own value when truthy, otherwise its default |
| NewsList.CardsFrom | src/components/NewsList.tsx:34-65 | one card per item with a truthy id, in order, visible exactly when its id is listed; throws exactly when such an item has a null image |
| NewsList.Render | src/components/NewsList.tsx:21-74 | the empty message exactly for no items, the crash exactly for a null image, and otherwise the grid of exactly the cards `CardsFrom` builds (one per item with a truthy id, in order), with the pagination control exactly for more than one page |
| NewsList.TruthyImagesRender | src/components/NewsList.tsx:37-42 | records from the fetch hook never hit the null-image crash |
| NewsCard.WordCut | src/components/NewsCard.tsx:31-38 | the cut is at the last space before the limit when it falls within limit-3, else at limit-3 |
| NewsCard.TruncateText | src/components/NewsCard.tsx:27-41 | short text unchanged; long text cut at the word boundary, trimmed, ending in "...", and never longer than the limit |
| NewsCard.TruncateIdempotent | src/components/NewsCard.tsx:27-41 | truncating a truncated text changes nothing |
| NewsCard.TitleShown | src/components/NewsCard.tsx:151 | at most 100 characters and never empty ("Untitled News") |
| NewsCard.ExcerptShown | src/components/NewsCard.tsx:156 | at most 186 characters and never empty ("No excerpt available") |
| NewsCard.FormattedDate | src/components/NewsCard.tsx:63-68 | a non-empty string `date` as it is; otherwise "Date not available" exactly when `publishedAt` is empty or does not parse, and else a display that reads back as the parsed date |
| NewsCard.ReplaceWhiteRuns | src/components/NewsCard.tsx:136 | `replace(/\s+/g, "-")` never lengthens the text; the lemmas below give what it replaces |
| NewsCard.ReplaceAfterPrefix | src/components/NewsCard.tsx:136 | text without white space passes through unchanged ahead of whatever the rest becomes |
| NewsCard.ReplaceAfterGap | src/components/NewsCard.tsx:136 | a whole run of white space becomes a single "-" ahead of the replaced rest |
| NewsCard.ReplaceLeavesNoWhite | src/components/NewsCard.tsx:136 | no white space survives `replace(/\s+/g, "-")` |
| NewsCard.ReplaceWithoutWhite | src/components/NewsCard.tsx:136 | text without white space passes through unchanged |
| NewsCard.CategorySlug | src/components/NewsCard.tsx:134-136 | the slug has no white space and no upper-case letter |
| NewsCard.SlugIdempotent | src/components/NewsCard.tsx:134-136 | slugging a slug changes nothing |
| NewsCard.SlugOfTwoWords | src/components/NewsCard.tsx:134-136 | two words with any run of white space between them become "word-word", lower-cased |
| NewsCard.Render | src/components/NewsCard.tsx:44-176 | the link to the article's slug; the image, date line, title and excerpt are those of `CardImageUrl`, `FormattedDate`, `TitleShown` and `ExcerptShown`; the author or "Unknown"; one category link per category |
| NewsSidebar.MatchingKeepsTheMatches | src/components/NewsSidebar.tsx:89-91 | the filter keeps exactly the texts that match the term |
| NewsSidebar.MatchingOfConcat | src/components/NewsSidebar.tsx:90-95 | filtering a concatenation filters each part, so the matches keep their order and their repetitions |
| NewsSidebar.Matches | src/components/NewsSidebar.tsx:83-91 | a blank term matches every text, and a text equal to the trimmed term up to case matches it |
| NewsSidebar.MatchesTerm | src/components/NewsSidebar.tsx:91 | the callback `t => regex.test(t)` answers as the search test |
| Seqs.FilterKeeps | src/components/NewsSidebar.tsx:91 | `Array.prototype.filter` keeps exactly the items the callback accepts |
| Seqs.FilterOfConcat | src/components/NewsSidebar.tsx:91 | `Array.prototype.filter` works item by item: filtering a concatenation filters each part |
| Seqs.Map | src/pages/NewsDetail.tsx:219-222 | `Array.prototype.map` gives one result per item, each the callback's value at that item |
| Seqs.MapOfConcat | src/pages/NewsDetail.tsx:219-222 | mapping a concatenation maps each part |
| Seqs.PrefixInMultiset | src/pages/NewsDetail.tsx:121 | `.slice(0, n)` holds each item at most as often as the whole list |
| NewsSidebar.Matching | src/components/NewsSidebar.tsx:90-95 | the filter is no longer than its input; MatchingKeepsTheMatches and MatchingOfConcat give its contents and order |
| NewsSidebar.UniqueIsDistinct | src/components/NewsSidebar.tsx:99 | `[...new Set(s)]` holds no value twice |
| NewsSidebar.UniqueKeepsTheValues | src/components/NewsSidebar.tsx:99 | the set keeps every value and adds none |
| NewsSidebar.UniqueOfDistinct | src/components/NewsSidebar.tsx:99 | a list without repetitions passes through the set unchanged |
| NewsSidebar.UniqueKeepsFirstOccurrenceOrder | src/components/NewsSidebar.tsx:99 | the set of a prefix is a prefix of the set of the whole |
| NewsSidebar.Unique | src/components/NewsSidebar.tsx:99 | the set is no longer than the list; the Unique lemmas give its contents and order |
| NewsSidebar.TitleHits | src/components/NewsSidebar.tsx:90-93 | exactly min(3, number of matches) titles, the first of the matching ones in their order, each a title that matches |
| NewsSidebar.CategoryHits | src/components/NewsSidebar.tsx:94-96 | exactly min(2, number of matches) categories, the first of the matching ones in their order, each a category that matches |
| NewsSidebar.Suggestions | src/components/NewsSidebar.tsx:82-102 | at most five suggestions |
| NewsSidebar.SuggestionsAreDistinct | src/components/NewsSidebar.tsx:98-99 | no value is suggested twice |
| NewsSidebar.BlankTermSuggestsNothing | src/components/NewsSidebar.tsx:83-87 | a blank term gives no suggestions |
| NewsSidebar.SuggestedExactlyTheHits | src/components/NewsSidebar.tsx:89-99 | a value is suggested exactly when it is among the first three matching titles or the first two matching categories |
| NewsSidebar.SuggestionsMatch | src/components/NewsSidebar.tsx:89-96 | every suggestion matches the term and is a title or a category |
| NewsSidebar.FinalSliceKeepsEverything | src/components/NewsSidebar.tsx:99 | the final `.slice(0, 5)` never drops a value |
| NewsSidebar.DistinctHitsInOrder | src/components/NewsSidebar.tsx:90-99 | with distinct hits the list is the title hits then the category hits, and its length is the sum of the two capped counts |
| NewsSidebar.TitlesFirst | src/components/NewsSidebar.tsx:98-99 | title suggestions precede category suggestions |
| NewsSidebar.MatchIgnoresCase | src/components/NewsSidebar.tsx:89 | the test ignores the case of the text |
| NewsSidebar.FormatItem | src/components/NewsSidebar.tsx:51-70 | the record with its image through the guarded choice and its date line |
| NewsSidebar.ProcessNews | src/components/NewsSidebar.tsx:47-71 | one entry per item of the array or of `data`, in order; throws exactly on a nullish item, or when the body is not an array and its `data` is truthy and not an array; a body that is not an array and has a falsy `data` gives no entries |
| NewsSidebar.TitlesOf | src/components/NewsSidebar.tsx:90-92 | one title text per article, in the articles' order, as the suggestion filter reads them |
| NewsSidebar.NewsArray | src/components/NewsSidebar.tsx:47-49 | an array body as it is, otherwise a truthy `data` as it is, otherwise an empty array |
| NewsSidebar.SearchRouteIsOneSegment | src/components/NewsSidebar.tsx:108 | whatever the term, its search route is the prefix followed by one escaped path segment |
| NewsSidebar.SearchRoute | src/components/NewsSidebar.tsx:108 | the search prefix followed by a segment that decodes back to the term, no shorter than the term, and the term itself when it needs no escaping |
| NewsSidebar.SearchRouteIsInjective | src/components/NewsSidebar.tsx:108 | different terms lead to different routes |
| NewsSidebar.RecentEntries | src/components/NewsSidebar.tsx:201-222 | the first three articles in order, each linking to its slug with its title and date line, and showing its image when truthy, else the placeholder |
| NewsSidebar.RecentView | src/components/NewsSidebar.tsx:201-222 | rendering throws exactly when one of the first three titles or date lines is an object; otherwise it shows `RecentEntries` |
| NewsSidebar.Sidebar.Dropdown | src/components/NewsSidebar.tsx:141 | the suggestions when the dropdown is open, and nothing when it is closed |
| NewsSidebar.Sidebar.constructor | src/components/NewsSidebar.tsx:27-32 | empty term, no suggestions, dropdown closed, nothing loaded |
| NewsSidebar.Sidebar.SuggestionEffect | src/components/NewsSidebar.tsx:82-102 | the suggestions of the current term, and the dropdown open exactly for a non-blank term |
| NewsSidebar.Sidebar.ChangeTerm | src/components/NewsSidebar.tsx:129 | typing sets the term, and a changed term re-runs the suggestion effect |
| NewsSidebar.Sidebar.Submit | src/components/NewsSidebar.tsx:104-112 | a blank term does nothing; otherwise the route of the trimmed term, with the box cleared and the dropdown closed |
| NewsSidebar.Sidebar.SelectSuggestion | src/components/NewsSidebar.tsx:114-118 | the route of the chosen text, which becomes the term; the dropdown reopens only when the term changed |
| NewsSidebar.Sidebar.Focus | src/components/NewsSidebar.tsx:132 | focusing opens the dropdown for a non-blank term |
| NewsSidebar.Sidebar.Blur | src/components/NewsSidebar.tsx:133 | leaving the box closes the dropdown |
| NewsSidebar.Sidebar.LoadData | src/components/NewsSidebar.tsx:35-79 | a failed request changes nothing; otherwise archives and categories are stored, and the news only when processing them does not throw |
| NewsSidebar.Sidebar.ArchiveLinks | src/components/NewsSidebar.tsx:160-166 | one `/news/archives/year/month` link per archive, in order |
| NewsSidebar.ArchiveLink | src/components/NewsSidebar.tsx:165 | the link splits at '/' into "", "news", "archives", the year and the month |
| NewsDetail.ProcessArticle | src/pages/NewsDetail.tsx:53-78 | the record with its image through the guarded choice and its date line |
| NewsDetail.HttpFailureMessage | src/pages/NewsDetail.tsx:135-140 | "Failed to load news article: status " followed by the body's `message` when truthy, else by the status text; throws exactly for a null body |
| NewsDetail.MainStep | src/pages/NewsDetail.tsx:46-145 | loaded exactly for status 200 with a truthy body; a rejected request with a body fails with that body's status message; the handler throws exactly for a rejected request with a nullish body; any other failure gives the generic message |
| NewsDetail.RelatedArray | src/pages/NewsDetail.tsx:90-92 | an array body as it is; otherwise `data.data` when it is an array, [] when it is falsy, and a throw for a nullish body or a truthy non-array `data` |
| NewsDetail.Candidates | src/pages/NewsDetail.tsx:94-119 | no candidate has the page's own slug, there are no more candidates than items; throws exactly on a nullish item |
| NewsDetail.CandidatesKeepOthers | src/pages/NewsDetail.tsx:94-95 | every other article is a candidate |
| NewsDetail.CandidatesComeFromItems | src/pages/NewsDetail.tsx:94-119 | every candidate is a processed item of the response whose slug is not the page's |
| NewsDetail.Pick | src/pages/NewsDetail.tsx:120-121 | min(2, n) articles, each at most as often as among the candidates |
| NewsDetail.RelatedNews | src/pages/NewsDetail.tsx:83-126 | some articles exactly when the request resolves, its body selects an array and no item of it is nullish; at most two of them |
| NewsDetail.RelatedNewsAreOthers | src/pages/NewsDetail.tsx:94-121 | the related articles are min(2, n) of the candidates, each at most as often as there, and each a processed item of the response other than the page's own |
| NewsDetail.ParagraphsAreClean | src/pages/NewsDetail.tsx:216-222 | each paragraph is non-empty, trimmed and free of newlines |
| NewsDetail.NonBlankTrimmed | src/pages/NewsDetail.tsx:218-221 | at most one paragraph per line; the lemmas below give its contents and order |
| NewsDetail.NonBlankTrimmedKeepsTheLines | src/pages/NewsDetail.tsx:218-221 | the filter drops exactly the blank lines: each other line gives its trim, and each paragraph is the trim of a line |
| NewsDetail.NonBlankTrimmedIsFilterOfTrims | src/pages/NewsDetail.tsx:218-221 | the paragraphs are the lines trimmed, with the empty results dropped, in order |
| NewsDetail.NonBlankTrimmedOfConcat | src/pages/NewsDetail.tsx:218-221 | the paragraphs of a concatenation are those of each part, in order and with their repetitions |
| NewsDetail.Paragraphs | src/pages/NewsDetail.tsx:216-222 | at most one paragraph per line of the content |
| NewsDetail.ParagraphsAreTheNonBlankLines | src/pages/NewsDetail.tsx:216-222 | the paragraphs are the trims of the content's non-blank lines |
| NewsDetail.ParagraphsAreTheTrimmedLines | src/pages/NewsDetail.tsx:216-222 | the paragraphs are the content's lines, trimmed, empty ones dropped, in their order and with their repetitions |
| NewsDetail.NonBlankTrimmedOfClean | src/pages/NewsDetail.tsx:218-221 | clean lines pass through the filter and trim unchanged |
| NewsDetail.ParagraphsOfJoin | src/pages/NewsDetail.tsx:216-222 | clean paragraphs joined by newlines split back into themselves |
| NewsDetail.Card | src/pages/NewsDetail.tsx:229-249 | the related card shows the article's title and date line, its image or the placeholder, its author or "Unknown", and links to its slug |
| NewsDetail.Cards | src/pages/NewsDetail.tsx:229-252 | one card per related article, in order |
| NewsDetail.DetailPage.constructor | src/pages/NewsDetail.tsx:29-32 | no article, no related articles, loading, no error |
| NewsDetail.DetailPage.Load | src/pages/NewsDetail.tsx:34-149 | a missing slug gives its error; a load keeps the article and, when the second request succeeds, the related pair; a failure gives its message; when the handler throws, the spinner stays |
| NewsDetail.DetailPage.Apply | src/pages/NewsDetail.tsx:36-145 | the new state for each outcome of the main request and of the related request |
| NewsDetail.DetailPage.Render | src/pages/NewsDetail.tsx:151-255 | the spinner exactly while loading; the error panel exactly for a non-empty error or no article, showing the error or "News article not found"; a crash exactly when the content is not a string, or the title, date line, excerpt or author (after its default) or a related card's title, date line or author is an object React cannot render; otherwise the article's title, date line and excerpt, its author or "Unknown", its image or the placeholder, its `Paragraphs` and one `Card` per related article |
| NewsArchives.FullYear | src/pages/NewsArchives.tsx:69-70 | `new Date(year, …)` reads exactly the years 0..99 as 1900..1999 and keeps every other year |
| NewsArchives.MonthCount | src/pages/NewsArchives.tsx:69-70 | for a month in 1..12 the count is the full year times twelve plus the month index, so it orders dates as `getTime()` does |
| NewsArchives.Insert | src/pages/NewsArchives.tsx:67-71 | insertion adds one element; InsertPermutes and InsertKeepsOrder give which and where |
| NewsArchives.SortNewestFirst | src/pages/NewsArchives.tsx:67-71 | the sort keeps the length; SortPermutes, SortIsNewestFirst and SortIsStable give the rest |
| NewsArchives.InsertPermutes | src/pages/NewsArchives.tsx:67-71 | insertion adds exactly the new archive |
| NewsArchives.SortPermutes | src/pages/NewsArchives.tsx:67-71 | sorting is a permutation |
| NewsArchives.InsertKeepsOrder | src/pages/NewsArchives.tsx:67-71 | inserting into a newest-first list keeps it newest first |
| NewsArchives.SortIsNewestFirst | src/pages/NewsArchives.tsx:67-71 | the sorted list is newest first |
| NewsArchives.InMonthOfInsert | src/pages/NewsArchives.tsx:67-71 | insertion keeps the order of the archives of each month |
| NewsArchives.SortIsStable | src/pages/NewsArchives.tsx:67-71 | archives of the same month keep their arrival order |
| NewsArchives.InsertLast | src/pages/NewsArchives.tsx:67-71 | in place, the prefix becomes the sorted prefix with one more element inserted |
| NewsArchives.SortArchives | src/pages/NewsArchives.tsx:67-71 | in place, the array becomes the stable newest-first sort of its old contents |
| NewsArchives.ParseUnsigned | src/pages/NewsArchives.tsx:249-250 | a number only from text starting with a decimal digit |
| NewsArchives.ParseSigned | src/pages/NewsArchives.tsx:249-250 | a number only from text that does not start with white space |
| NewsArchives.ParseDecimal | src/pages/NewsArchives.tsx:249-250 | decimal digits read as their value, leading zeros included |
| NewsArchives.JsParseIntUnsigned | src/pages/NewsArchives.tsx:249-250 | unsigned digits read as they are |
| NewsArchives.JsParseIntNegative | src/pages/NewsArchives.tsx:249-250 | a minus sign negates the number |
| NewsArchives.JsParseIntSkipsWhite | src/pages/NewsArchives.tsx:249-250 | leading white space is skipped |
| NewsArchives.JsParseIntOfIntToString | src/pages/NewsArchives.tsx:249-250 | `parseInt` reads back `${n}` for every integer |
| NewsArchives.JsParseIntLeadingZero | src/pages/NewsArchives.tsx:249-250 | a month written "05" reads as 5 |
| NewsArchives.JsParseInt | src/pages/NewsArchives.tsx:249-250 | a blank string reads as NaN; the lemmas above give the digits it reads |
| NewsArchives.FollowedLinkIsActive | src/pages/NewsArchives.tsx:244-250 | following an archive's link highlights exactly the archives of that year and month |
| NewsArchives.PaddedRouteIsActive | src/pages/NewsArchives.tsx:247-250 | a route year with leading space and a month with a leading zero still highlight the archive |
| NewsArchives.IsActive | src/pages/NewsArchives.tsx:247-250 | highlighting needs both route parameters, and the archive's own year and month always highlight it |
| NewsArchives.LinkParametersAreActive | src/pages/NewsArchives.tsx:244-250 | the year and month segments of an archive's own link highlight that archive |
| NewsArchives.ArchiveItems | src/pages/NewsArchives.tsx:61-63 | the array body as it is, otherwise none |
| NewsArchives.PeriodNews | src/pages/NewsArchives.tsx:92-104 | an array body, else an array under `data`, else no articles |
| NewsArchives.Ids | src/pages/NewsArchives.tsx:110-112 | each article's `_id` in order; throws exactly on a nullish article |
| NewsArchives.CardFor | src/pages/NewsArchives.tsx:201-215 | the card props: each of title, excerpt, author and slug the item's own value when truthy, otherwise its default; the locale date of `publishedAt` when truthy, else of `createdAt`; the card image choice; an array `categories` passed on, else []; visible exactly when the id is listed |
| NewsArchives.Entries | src/pages/NewsArchives.tsx:241-260 | one entry per archive, in order, with its link, its display date and its count, highlighted exactly for the route's year and month |
| NewsArchives.ArchivesPage.constructor | src/pages/NewsArchives.tsx:40-45 | nothing loaded, loading, no error |
| NewsArchives.ArchivesPage.FetchArchives | src/pages/NewsArchives.tsx:54-79 | on success the archives sorted newest first; on failure the archives error; the order invariant holds either way |
| NewsArchives.ArchivesPage.FetchPeriod | src/pages/NewsArchives.tsx:82-124 | runs only with both route parameters; stores the articles, their heading date and their ids, or the period error; loading ends false |
| NewsArchives.ArchivesPage.Receive | src/pages/NewsArchives.tsx:106-114 | the articles, the heading date and the visible ids are stored, and loading ends |
| NewsArchives.ArchivesPage.Render | src/pages/NewsArchives.tsx:149-262 | the spinner exactly while loading; the error panel with the error exactly for a non-empty error; a crash exactly for a nullish article; otherwise the heading "Archive: " and the date, card i built by `CardFor` from article i, or the empty message exactly when there are none, and `Entries` of the archives |
| NewsArchives.LoadedCardsAreVisible | src/pages/NewsArchives.tsx:110-112 | once the ids are stored, every card is shown |
| NewsSearchResults.SearchSummary | src/components/NewsSearchResults.tsx:60-69 | the id from `_id` then `id` then "", and the date from `publishedAt` then `createdAt` then "", each taken when truthy |
| NewsSearchResults.Transform | src/components/NewsSearchResults.tsx:59-70 | one summary per item, in order; a non-array gives none; throws exactly on a nullish item |
| NewsSearchResults.Attempt | src/components/NewsSearchResults.tsx:38-78 | a blank query is refused; a non-ok response names its status and body text; a rejected request, an unreadable JSON body or a throwing transform gives the thrown message; an ok response with a body that transforms gives exactly the transform, and success comes only that way |
| NewsSearchResults.FailureTextNamesStatus | src/components/NewsSearchResults.tsx:52-54 | the status reads back from the failure message up to its first space |
| NewsSearchResults.ResultDate | src/components/NewsSearchResults.tsx:25-35 | "Date unavailable" exactly for an invalid date |
| NewsSearchResults.UndatedResultIsUnavailable | src/components/NewsSearchResults.tsx:65 | a result with no date shows "Date unavailable" |
| NewsSearchResults.SearchPage.constructor | src/components/NewsSearchResults.tsx:20-22 | no results, loading, no error |
| NewsSearchResults.SearchPage.Search | src/components/NewsSearchResults.tsx:37-82 | the results or the error of the attempt; a success does not clear an earlier error; loading ends false |
| NewsSearchResults.SearchPage.Settle | src/components/NewsSearchResults.tsx:72-78 | the catch and finally blocks |
| NewsSearchResults.SearchPage.Render | src/components/NewsSearchResults.tsx:84-110 | the heading quotes the query, or "No Query" when it is empty; the loading line exactly while loading; the error line exactly for a non-empty error, showing it; nothing more while loading or failed; "No results found for" the query exactly when not loading, without an error and without results; the cards exactly when not loading, without an error and with results; one card per result, in order, each with the result's formatted date or "Date unavailable" |
| NewsCategory.CategorySummary | src/pages/NewsCategory.tsx:34-44 | the id from `_id` else "", and the date from `publishedAt` then `createdAt` then the clock, each taken when truthy; the other fields as SummaryOf defaults them |
| NewsCategory.Transform | src/pages/NewsCategory.tsx:33-44 | one summary per item, in order; a non-array gives none; throws exactly on a nullish item |
| NewsCategory.Attempt | src/pages/NewsCategory.tsx:26-50 | a rejection gives its message; success is exactly the transform; a received body whose transform throws gives the `TypeError`'s text |
| NewsCategory.SummariesAgree | src/pages/NewsCategory.tsx:35-40 | with `_id` and `publishedAt` present, the category and search pages build the same record |
| NewsCategory.SummariesDiffer | src/pages/NewsCategory.tsx:35-40 | with only `id`, the category page drops it; with no date, it stamps the clock where search leaves "" |
| NewsCategory.CategoryPage.constructor | src/pages/NewsCategory.tsx:20-22 | no results, loading, no error |
| NewsCategory.CategoryPage.Load | src/pages/NewsCategory.tsx:24-54 | without a category nothing happens and loading stays; otherwise the results or the error, and loading ends false |
| NewsCategory.CategoryPage.Settle | src/pages/NewsCategory.tsx:45-50 | the catch and finally blocks |
| NewsCategory.CategoryPage.Render | src/pages/NewsCategory.tsx:56-77 | the heading "Category: " and the category; the loading line exactly while loading; the error line exactly for a non-empty error, showing it; nothing more while loading or failed; "No news found for category" and the category exactly when not loading, without an error and without results; the cards exactly when not loading, without an error and with results, and they are the results |

## Left out

- Network requests, their URLs and `encodeURIComponent` in request URLs are outside the model. Responses are inputs; only the sidebar's search route is encoded.
- `console` output, `window.scrollTo`, navigation and unmounting are not modelled.
- Concurrency is not modelled. Each effect is one step from the response to the new state, and stale responses, `Promise.all` ordering and the timers (the 100 ms card fade-in and the 200 ms blur delay) are not represented.
- `new Date(...)` and locale formatting (`toLocaleDateString`, month names in the archive heading, the search page's long date) are parameters. Time zones and the range limits of `Date` are not modelled.
- The sidebar's search term is matched literally. Regular-expression metacharacters in the term, and an invalid pattern that throws, are not modelled.
- Lower-casing covers A-Z only. A string is one character per code point; UTF-16 lengths of astral characters and lone surrogates are not modelled, nor is Unicode case mapping.
- Numbers are integers. Fractional and NaN values of JSON numbers are not modelled.
- The object spread `...item` is modelled on the article page (`NewsDetail.Article.record`) and in the sidebar (`NewsSidebar.SidebarNews.record`) by keeping the raw record next to the fields the views read. In the fetch hook (`UseNews.Normalise`) the spread is not modelled: every field of the `News` type is overwritten after it, and keys outside that type are dropped.
- The card props are strings, as typed in the source. A non-string title, excerpt, author, slug, `publishedAt` or category name reaching a card is not modelled.
- Archive entries are records with integer fields. Archive elements that are not such records are not modelled.
- `response.text()` rejecting on the search page is not modelled. Reading the JSON body may fail, and that is modelled.
- The text of the engine's `TypeError` is a parameter.
- Strings.Trim: its own contract states the shape of the result only. Which infix of the input it is, is stated by the lemma TrimIsInfix, so that the proofs that use Trim do not carry that clause.
- NewsSidebar.Suggestions: its own contract gives only the bound of five. Which values it holds, and in what order, is stated by the lemmas after it.
- NewsSidebar.Sidebar.SuggestionEffect: suggestions are the titles converted to strings, so a number title and its digits as a string are one suggestion, and the `.trim()` that throws when a non-string suggestion is picked is not modelled.
- NewsSidebar.Sidebar.LoadData: the archive and category bodies are read as typed lists, so the crash of `.map` or `.filter` on a body that is not an array, and category names that are not strings, are not modelled.
- NewsCard.Render: the category links are stated, but the image's `onError` fallback and the hover styling are not modelled.
