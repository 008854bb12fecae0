/**
 * The category page: it fetches the articles of the route's category, when
 * there is one, and turns each one into a summary record.
 */
module NewsCategory {
  import opened Options
  import opened Js
  import opened NewsShapes
  import NewsSearchResults

  /** `new Date().toISOString()`, never empty; one reading of the clock per item. */
  type Timestamp = s: string | s != "" witness "1970-01-01T00:00:00.000Z"

  /** What the request gives: the response body, or what the rejection threw. */
  datatype CategoryResponse = Received(data: Value) | Rejected(thrown: Thrown)

  /** `id: item._id || ""` and `publishedAt: item.publishedAt ||
      item.createdAt || now`; the rest as both pages default it. */
  function CategorySummary(item: Value, now: Timestamp): (r: Summary)
    ensures Truthy(Prop(item, "_id")) ==> r.id == Prop(item, "_id")
    ensures !Truthy(Prop(item, "_id")) ==> r.id == Str("")
    ensures Truthy(r.publishedAt)
    ensures Truthy(Prop(item, "publishedAt")) ==> r.publishedAt == Prop(item, "publishedAt")
    ensures !Truthy(Prop(item, "publishedAt")) && Truthy(Prop(item, "createdAt")) ==> r.publishedAt == Prop(item, "createdAt")
    ensures !Truthy(Prop(item, "publishedAt")) && !Truthy(Prop(item, "createdAt")) ==> r.publishedAt == Str(now)
  {
    SummaryOf(item, Or(Prop(item, "_id"), Str("")),
              Or(Or(Prop(item, "publishedAt"), Prop(item, "createdAt")), Str(now)))
  }

  /** The transform of the response body: one record per item, in order, with
      nothing filtered; a non-array body gives none; a null or undefined item
      throws the engine's TypeError. */
  function Transform(data: Value, clock: nat -> Timestamp, typeErrorText: string): (r: Result<seq<Summary>, Thrown>)
    ensures !data.Arr? ==> r == Ok([])
    ensures data.Arr? && r.Ok? ==> |r.value| == |data.items|
    ensures data.Arr? && r.Ok? ==>
      forall i :: 0 <= i < |data.items| ==> r.value[i] == CategorySummary(data.items[i], clock(i))
    ensures r.Err? <==> data.Arr? && exists i :: 0 <= i < |data.items| && Nullish(data.items[i])
    ensures r.Err? ==> r.error == ErrorObject(typeErrorText)
  {
    if !data.Arr? then Ok([])
    else if exists i :: 0 <= i < |data.items| && Nullish(data.items[i]) then Err(ErrorObject(typeErrorText))
    else Ok(seq(|data.items|, i requires 0 <= i < |data.items| => CategorySummary(data.items[i], clock(i))))
  }

  /** The try block: the records, or the message the catch stores. */
  function Attempt(response: CategoryResponse, clock: nat -> Timestamp, typeErrorText: string): (r: Result<seq<Summary>, string>)
    ensures response.Rejected? ==> r == Err(ErrorMessage(response.thrown))
    ensures r.Ok? <==> response.Received? && Transform(response.data, clock, typeErrorText).Ok?
    ensures r.Ok? ==> Transform(response.data, clock, typeErrorText) == Ok(r.value)
    ensures response.Received? && r.Err? ==> r.error == typeErrorText
  {
    match response
    case Rejected(thrown) => Err(ErrorMessage(thrown))
    case Received(data) =>
      match Transform(data, clock, typeErrorText)
      case Ok(results) => Ok(results)
      case Err(thrown) => Err(ErrorMessage(thrown))
  }

  /** Where the two pages agree: an item with an `_id` and a `publishedAt`
      gives the same record on both. */
  lemma SummariesAgree(item: Value, now: Timestamp)
    requires Truthy(Prop(item, "_id")) && Truthy(Prop(item, "publishedAt"))
    ensures CategorySummary(item, now) == NewsSearchResults.SearchSummary(item)
  {
  }

  /** Where they differ: with only an `id`, the search page keeps it and the
      category page leaves the id empty; with no date at all, the search page
      leaves it empty and the category page stamps the current time. */
  lemma SummariesDiffer(item: Value, now: Timestamp)
    requires !Truthy(Prop(item, "_id")) && Truthy(Prop(item, "id"))
    requires !Truthy(Prop(item, "publishedAt")) && !Truthy(Prop(item, "createdAt"))
    ensures CategorySummary(item, now).id == Str("") != NewsSearchResults.SearchSummary(item).id
    ensures CategorySummary(item, now).publishedAt == Str(now) != NewsSearchResults.SearchSummary(item).publishedAt
  {
  }

  datatype Body = Nothing | NoResults(message: string) | Cards(cards: seq<Summary>)

  /** What the page renders: the heading, the loading and error lines (both
      can show at once), and the records. */
  datatype View = View(heading: string, loadingShown: bool, errorShown: Option<string>, body: Body)

  class CategoryPage {
    var results: seq<Summary>
    var loading: bool
    var error: Option<string>

    constructor ()
      ensures results == [] && loading && error.None?
    {
      results := [];
      loading := true;
      error := None;
    }

    /** The effect for the route's category ("" when missing): without a
        category nothing is fetched and the page keeps loading. */
    method Load(category: string, response: CategoryResponse, clock: nat -> Timestamp, typeErrorText: string)
      modifies this
      ensures category == "" ==> unchanged(this`results, this`loading, this`error)
      ensures category != "" ==> !loading
      ensures category != "" && Attempt(response, clock, typeErrorText).Ok? ==>
        results == Attempt(response, clock, typeErrorText).value && unchanged(this`error)
      ensures category != "" && Attempt(response, clock, typeErrorText).Err? ==>
        error == Some(Attempt(response, clock, typeErrorText).error) && unchanged(this`results)
    {
      if category != "" {
        Settle(Attempt(response, clock, typeErrorText));
      }
    }

    /** The catch and finally blocks once the attempt is over. */
    method Settle(outcome: Result<seq<Summary>, string>)
      modifies this
      ensures !loading
      ensures outcome.Ok? ==> results == outcome.value && unchanged(this`error)
      ensures outcome.Err? ==> error == Some(outcome.error) && unchanged(this`results)
    {
      loading := true;
      match outcome {
        case Ok(found) => results := found;
        case Err(message) => error := Some(message);
      }
      loading := false;
    }

    function Render(category: string): (v: View)
      reads this
      ensures v.heading == "Category: " + category
      ensures v.loadingShown == loading
      ensures v.errorShown.Some? <==> error.Some? && error.value != ""
      ensures v.errorShown.Some? ==> v.errorShown == error
      ensures v.body.Nothing? <==> loading || (error.Some? && error.value != "")
      ensures v.body.NoResults? <==> !loading && (error.None? || error.value == "") && results == []
      ensures v.body.NoResults? ==> v.body.message == "No news found for category \"" + category + "\"."
      ensures v.body.Cards? <==> !loading && (error.None? || error.value == "") && results != []
      ensures v.body.Cards? ==> v.body.cards == results
    {
      var quiet := !loading && (error.None? || error.value == "");
      View(
        "Category: " + category,
        loading,
        if error.Some? && error.value != "" then error else None,
        if quiet && results == [] then NoResults("No news found for category \"" + category + "\".")
        else if quiet then Cards(results)
        else Nothing)
    }
  }
}
