/**
 * The search-results page: it refuses a blank query, fetches the matches,
 * turns each one into a summary record, and shows a card per result with
 * its date written out, or why there is nothing to show.
 */
module NewsSearchResults {
  import opened Options
  import opened Strings
  import opened Js
  import opened DateFormatter
  import opened NewsShapes

  const EmptyQueryMessage: string := "Search query is empty or invalid"
  const FetchFailurePrefix: string := "Failed to fetch search results: "
  const DateUnavailable: string := "Date unavailable"

  /** What `fetch` gives: a response with its status, its body as text and
      its body read as JSON (or what reading it threw), or a rejection. */
  datatype SearchResponse =
    | Reply(ok: bool, status: int, text: string, json: Result<Value, Thrown>)
    | FetchRejected(thrown: Thrown)

  /** `id: item._id || item.id || ""` and `publishedAt: item.publishedAt ||
      item.createdAt || ""`; the rest as both pages default it. */
  function SearchSummary(item: Value): (r: Summary)
    ensures Truthy(Prop(item, "_id")) ==> r.id == Prop(item, "_id")
    ensures !Truthy(Prop(item, "_id")) && Truthy(Prop(item, "id")) ==> r.id == Prop(item, "id")
    ensures !Truthy(Prop(item, "_id")) && !Truthy(Prop(item, "id")) ==> r.id == Str("")
    ensures Truthy(Prop(item, "publishedAt")) ==> r.publishedAt == Prop(item, "publishedAt")
    ensures !Truthy(Prop(item, "publishedAt")) && Truthy(Prop(item, "createdAt")) ==> r.publishedAt == Prop(item, "createdAt")
    ensures !Truthy(Prop(item, "publishedAt")) && !Truthy(Prop(item, "createdAt")) ==> r.publishedAt == Str("")
  {
    SummaryOf(item,
              Or(Or(Prop(item, "_id"), Prop(item, "id")), Str("")),
              Or(Or(Prop(item, "publishedAt"), Prop(item, "createdAt")), Str("")))
  }

  /** The transform of the response body: a non-array body gives no results;
      a null or undefined item throws the engine's TypeError. */
  function Transform(data: Value, typeErrorText: string): (r: Result<seq<Summary>, Thrown>)
    ensures !data.Arr? ==> r == Ok([])
    ensures data.Arr? && r.Ok? ==> |r.value| == |data.items|
    ensures data.Arr? && r.Ok? ==> forall i :: 0 <= i < |data.items| ==> r.value[i] == SearchSummary(data.items[i])
    ensures r.Err? <==> data.Arr? && exists i :: 0 <= i < |data.items| && Nullish(data.items[i])
    ensures r.Err? ==> r.error == ErrorObject(typeErrorText)
  {
    if !data.Arr? then Ok([])
    else if exists i :: 0 <= i < |data.items| && Nullish(data.items[i]) then Err(ErrorObject(typeErrorText))
    else Ok(seq(|data.items|, i requires 0 <= i < |data.items| => SearchSummary(data.items[i])))
  }

  /**
   * The try block: the results, or the message the catch stores. A blank
   * query is refused before any request; a response that is not ok gives its
   * status and body text; anything thrown gives its message.
   */
  function Attempt(query: string, response: SearchResponse, typeErrorText: string): (r: Result<seq<Summary>, string>)
    ensures IsBlank(query) ==> r == Err(EmptyQueryMessage)
    ensures !IsBlank(query) && response.Reply? && !response.ok ==>
      r == Err(FetchFailurePrefix + IntToString(response.status) + " " + response.text)
    ensures !IsBlank(query) && response.FetchRejected? ==> r == Err(ErrorMessage(response.thrown))
    ensures r.Ok? ==>
      response.Reply? && response.ok && response.json.Ok? &&
      Transform(response.json.value, typeErrorText) == Ok(r.value)
    ensures !IsBlank(query) && response.Reply? && response.ok && response.json.Err? ==>
      r == Err(ErrorMessage(response.json.error))
    ensures !IsBlank(query) && response.Reply? && response.ok && response.json.Ok? ==>
      match Transform(response.json.value, typeErrorText)
      case Ok(results) => r == Ok(results)
      case Err(thrown) => r == Err(ErrorMessage(thrown))
  {
    if IsBlank(query) then Err(EmptyQueryMessage)
    else
      match response
      case FetchRejected(thrown) => Err(ErrorMessage(thrown))
      case Reply(ok, status, text, json) =>
        if !ok then Err(FetchFailurePrefix + IntToString(status) + " " + text)
        else
          match json
          case Err(thrown) => Err(ErrorMessage(thrown))
          case Ok(data) =>
            match Transform(data, typeErrorText)
            case Ok(results) => Ok(results)
            case Err(thrown) => Err(ErrorMessage(thrown))
  }

  /** The status of a failure message reads back from it, as far as the first
      space, whatever the body text was. */
  lemma FailureTextNamesStatus(status: int, text: string)
    ensures var r := (FetchFailurePrefix + IntToString(status) + " " + text)[|FetchFailurePrefix|..];
      var k := IndexOf(r, ' ');
      k >= 0 && ParseInt(r[..k]) == Some(status)
  {
    var digits := IntToString(status);
    var r := (FetchFailurePrefix + digits + " " + text)[|FetchFailurePrefix|..];
    assert r == digits + [' '] + text;
    assert ' ' !in digits by {
      forall i | 0 <= i < |digits| ensures digits[i] != ' ' {
        if status < 0 {
          assert digits[1..] == NatToString(-status);
          if i > 0 { assert digits[i] == NatToString(-status)[i - 1]; }
        }
      }
    }
    IndexOfAfter(digits, text, ' ');
    assert r[..|digits|] == digits;
    IntToStringRoundTrip(status);
  }

  /** The first occurrence of `c` in `w + [c] + t` is just after `w` when `w`
      does not hold `c`. */
  lemma {:induction false} IndexOfAfter(w: string, t: string, c: char)
    requires c !in w
    ensures IndexOf(w + [c] + t, c) == |w|
  {
    if w != [] {
      IndexOfAfter(w[1..], t, c);
      assert (w + [c] + t)[1..] == w[1..] + [c] + t;
    }
  }

  /** `formatDate(dateString)`: an invalid date gives "Date unavailable";
      a valid one its long en-US form, which is left to a parameter. */
  function ResultDate(parse: DateParser, longDate: CalendarDate -> string, v: Value): (r: string)
    ensures parse(v).None? ==> r == DateUnavailable
    ensures parse(v).Some? ==> r == longDate(parse(v).value)
  {
    match parse(v)
    case None => DateUnavailable
    case Some(d) => longDate(d)
  }

  /** A result without `publishedAt` or `createdAt` shows "Date unavailable":
      the transform's "" is not a date. */
  lemma UndatedResultIsUnavailable(item: Value, parse: DateParser, longDate: CalendarDate -> string)
    requires !Truthy(Prop(item, "publishedAt")) && !Truthy(Prop(item, "createdAt"))
    ensures ResultDate(parse, longDate, SearchSummary(item).publishedAt) == DateUnavailable
  {
    assert SearchSummary(item).publishedAt == Str("");
  }

  /** A result card: the summary with its date written out. */
  datatype ResultCard = ResultCard(news: Summary, dateText: string, index: nat)

  datatype Body = Nothing | NoResults(message: string) | Cards(cards: seq<ResultCard>)

  /** What the page renders: the heading, the loading line and the error
      line (both can show at once), and the results. */
  datatype View = View(heading: string, loadingShown: bool, errorShown: Option<string>, body: Body)

  class SearchPage {
    var results: seq<Summary>
    var loading: bool
    var error: Option<string>

    constructor ()
      ensures results == [] && loading && error.None?
    {
      results := [];
      loading := true;
      error := None;
    }

    /** The search effect for the route's query ("" when missing). The error
        of an earlier search is not cleared by a later success. */
    method Search(query: string, response: SearchResponse, typeErrorText: string)
      modifies this
      ensures !loading
      ensures Attempt(query, response, typeErrorText).Ok? ==>
        results == Attempt(query, response, typeErrorText).value && unchanged(this`error)
      ensures Attempt(query, response, typeErrorText).Err? ==>
        error == Some(Attempt(query, response, typeErrorText).error) && unchanged(this`results)
    {
      Settle(Attempt(query, response, typeErrorText));
    }

    /** The catch and finally blocks once the attempt is over. */
    method Settle(outcome: Result<seq<Summary>, string>)
      modifies this
      ensures !loading
      ensures outcome.Ok? ==> results == outcome.value && unchanged(this`error)
      ensures outcome.Err? ==> error == Some(outcome.error) && unchanged(this`results)
    {
      loading := true;
      match outcome {
        case Ok(found) => results := found;
        case Err(message) => error := Some(message);
      }
      loading := false;
    }

    function Render(query: string, parse: DateParser, longDate: CalendarDate -> string): (v: View)
      reads this
      ensures query != "" ==> v.heading == "Search Results for \"" + query + "\""
      ensures query == "" ==> v.heading == "Search Results for \"No Query\""
      ensures v.loadingShown == loading
      ensures v.errorShown.Some? <==> error.Some? && error.value != ""
      ensures v.errorShown.Some? ==> v.errorShown == error
      ensures v.body.Nothing? <==> loading || (error.Some? && error.value != "")
      ensures v.body.NoResults? <==> !loading && (error.None? || error.value == "") && results == []
      ensures v.body.NoResults? ==> v.body.message == "No results found for \"" + query + "\"."
      ensures v.body.Cards? <==> !loading && (error.None? || error.value == "") && results != []
      ensures v.body.Cards? ==> |v.body.cards| == |results|
      ensures v.body.Cards? ==> forall i :: 0 <= i < |results| ==>
        v.body.cards[i].news == results[i] && v.body.cards[i].index == i &&
        v.body.cards[i].dateText == ResultDate(parse, longDate, results[i].publishedAt)
    {
      var quiet := !loading && (error.None? || error.value == "");
      View(
        "Search Results for \"" + (if query != "" then query else "No Query") + "\"",
        loading,
        if error.Some? && error.value != "" then error else None,
        if quiet && results == [] then NoResults("No results found for \"" + query + "\".")
        else if quiet then
          Cards(seq(|results|, i requires 0 <= i < |results| reads this =>
            ResultCard(results[i], ResultDate(parse, longDate, results[i].publishedAt), i)))
        else Nothing)
    }
  }
}
