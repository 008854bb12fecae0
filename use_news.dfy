/**
 * The news-list fetch hook (src/hooks/useNews.ts): picks the list out of
 * whichever response envelope arrives, fills every field of every record
 * with a default, and keeps the hook's `news`, `loading` and `error` state.
 *
 * The HTTP request is an input (`FetchOutcome`); `Math.random()` and the
 * clock are per-item inputs (`ItemEnv`); date parsing is a `DateParser`.
 */
module UseNews {
  import opened Options
  import opened Strings
  import opened Js
  import opened DateFormatter
  import opened Images
  import opened NewsTypes

  const InvalidFormat: string := "Invalid API response format"
  const NoDataMessage: string := "Failed to load news articles. The API may have returned no data."
  const RetryMessage: string := "Failed to load news articles. Please try again later."

  /** Why a fetch produced no list: a thrown Error's message, or a TypeError
      from reading a field of a null item (its text is the engine's). */
  datatype Failure = Message(text: string) | TypeError

  /** What the request gives: the parsed body of a 2xx response, or a rejection
      (network error or non-2xx status, which axios rejects). */
  datatype FetchOutcome = Response(data: Value) | RequestFailed

  /** What normalising one item reads from `Math.random()` (twice at most) and
      from the clock: each of the three `new Date().toISOString()` calls (for
      `publishedAt`, `createdAt` and `updatedAt`) is a reading of its own. */
  datatype ItemEnv = ItemEnv(
    idDraw: string, slugDraw: string,
    publishedNow: NonEmptyString, createdNow: NonEmptyString, updatedNow: NonEmptyString)

  /** An ISO time stamp is never empty. */
  type NonEmptyString = s: string | |s| > 0 witness "0"

  /** The default image object. */
  const PlaceholderImage: Value := Obj(map["url" := Str(Placeholder), "public_id" := Str("")])

  /**
   * The envelope: a bare array is used as it is; otherwise an array under
   * `data`, then an array under `news`; otherwise any object is a list of
   * one. Everything else (null, a string, a number, a boolean) fails.
   */
  function SelectEnvelope(data: Value): (r: Result<seq<Value>, string>)
    ensures r.Err? <==> !(data.Arr? || data.Obj?)
    ensures r.Err? ==> r.error == InvalidFormat
    ensures data.Arr? ==> r == Ok(data.items)
    ensures data.Obj? && Prop(data, "data").Arr? ==> r == Ok(Prop(data, "data").items)
    ensures data.Obj? && !Prop(data, "data").Arr? && Prop(data, "news").Arr? ==> r == Ok(Prop(data, "news").items)
    ensures data.Obj? && !Prop(data, "data").Arr? && !Prop(data, "news").Arr? ==> r == Ok([data])
  {
    if data.Arr? then Ok(data.items)
    else if Truthy(Prop(data, "data")) && Prop(data, "data").Arr? then Ok(Prop(data, "data").items)
    else if Truthy(Prop(data, "news")) && Prop(data, "news").Arr? then Ok(Prop(data, "news").items)
    else if Truthy(data) && IsObjectType(data) then Ok([data])
    else Err(InvalidFormat)
  }

  /**
   * One record with every field filled. The date is computed from the
   * item's own `publishedAt`, not from the defaulted one, and `published`
   * defaults only when it is null or undefined.
   */
  function Normalise(item: Value, env: ItemEnv, parse: DateParser): (r: News)
    ensures Truthy(r.id) && Truthy(r.slug) && Truthy(r.title) && Truthy(r.excerpt)
    ensures Truthy(r.image) && Truthy(r.author) && Truthy(r.publishedAt) && Truthy(r.date)
    ensures Truthy(r.createdAt) && Truthy(r.updatedAt)
    ensures !Truthy(Prop(item, "_id")) ==> r.id == Str("temp-" + env.idDraw)
    ensures !Truthy(Prop(item, "slug")) && Truthy(Prop(item, "_id")) ==>
      r.slug == Str("news-" + ToJsString(Prop(item, "_id")))
    ensures !Truthy(Prop(item, "slug")) && !Truthy(Prop(item, "_id")) ==> r.slug == Str("news-" + env.slugDraw)
    ensures !Truthy(Prop(item, "title")) ==> r.title == Str("Untitled")
    ensures !Truthy(Prop(item, "excerpt")) ==> r.excerpt == Str("No excerpt available")
    ensures !Truthy(Prop(item, "content")) ==> r.content == Str("")
    ensures !Truthy(Prop(item, "image")) ==> r.image == PlaceholderImage
    ensures !Truthy(Prop(item, "author")) ==> r.author == Str("Unknown")
    ensures r.categories == if Prop(item, "categories").Arr? then Prop(item, "categories").items else []
    ensures Nullish(Prop(item, "published")) <==> r.published == Bool(true) && Prop(item, "published") != Bool(true)
    ensures !Truthy(Prop(item, "publishedAt")) && Truthy(Prop(item, "createdAt")) ==> r.publishedAt == Prop(item, "createdAt")
    ensures !Truthy(Prop(item, "publishedAt")) && !Truthy(Prop(item, "createdAt")) ==> r.publishedAt == Str(env.publishedNow)
    ensures !Truthy(Prop(item, "date")) ==> r.date == Str(FormatDate(parse, Prop(item, "publishedAt")))
    ensures !Truthy(Prop(item, "date")) && !Truthy(Prop(item, "publishedAt")) ==> r.date == Str(Unavailable)
    ensures !Truthy(Prop(item, "createdAt")) ==> r.createdAt == Str(env.createdNow)
    ensures !Truthy(Prop(item, "updatedAt")) ==> r.updatedAt == Str(env.updatedNow)
  {
    var id := Prop(item, "_id");
    var publishedAt := Prop(item, "publishedAt");
    var createdAt := Prop(item, "createdAt");
    var categories := Prop(item, "categories");
    News(
      id := Or(id, Str("temp-" + env.idDraw)),
      title := Or(Prop(item, "title"), Str("Untitled")),
      excerpt := Or(Prop(item, "excerpt"), Str("No excerpt available")),
      content := Or(Prop(item, "content"), Str("")),
      image := Or(Prop(item, "image"), PlaceholderImage),
      author := Or(Prop(item, "author"), Str("Unknown")),
      published := Coalesce(Prop(item, "published"), Bool(true)),
      publishedAt := Or(Or(publishedAt, createdAt), Str(env.publishedNow)),
      date := Or(Prop(item, "date"), Str(FormatDate(parse, publishedAt))),
      slug := Or(Prop(item, "slug"), Str("news-" + (if Truthy(id) then ToJsString(id) else env.slugDraw))),
      categories := if categories.Arr? then categories.items else [],
      createdAt := Or(createdAt, Str(env.createdNow)),
      updatedAt := Or(Prop(item, "updatedAt"), Str(env.updatedNow)))
  }

  /** A field the item already has (truthy, or for `published` not null or
      undefined) passes through unchanged. */
  lemma NormaliseKeepsPresentFields(item: Value, env: ItemEnv, parse: DateParser)
    ensures Truthy(Prop(item, "_id")) ==> Normalise(item, env, parse).id == Prop(item, "_id")
    ensures Truthy(Prop(item, "slug")) ==> Normalise(item, env, parse).slug == Prop(item, "slug")
    ensures Truthy(Prop(item, "title")) ==> Normalise(item, env, parse).title == Prop(item, "title")
    ensures Truthy(Prop(item, "excerpt")) ==> Normalise(item, env, parse).excerpt == Prop(item, "excerpt")
    ensures Truthy(Prop(item, "content")) ==> Normalise(item, env, parse).content == Prop(item, "content")
    ensures Truthy(Prop(item, "image")) ==> Normalise(item, env, parse).image == Prop(item, "image")
    ensures Truthy(Prop(item, "author")) ==> Normalise(item, env, parse).author == Prop(item, "author")
    ensures !Nullish(Prop(item, "published")) ==> Normalise(item, env, parse).published == Prop(item, "published")
    ensures Truthy(Prop(item, "publishedAt")) ==> Normalise(item, env, parse).publishedAt == Prop(item, "publishedAt")
    ensures Truthy(Prop(item, "date")) ==> Normalise(item, env, parse).date == Prop(item, "date")
    ensures Truthy(Prop(item, "createdAt")) ==> Normalise(item, env, parse).createdAt == Prop(item, "createdAt")
    ensures Truthy(Prop(item, "updatedAt")) ==> Normalise(item, env, parse).updatedAt == Prop(item, "updatedAt")
  {
  }

  /** `newsData.map(...)`: item `i` draws from `envs(i)`. */
  function NormaliseAll(items: seq<Value>, envs: nat -> ItemEnv, parse: DateParser): (rs: seq<News>)
    ensures |rs| == |items|
    ensures forall i :: 0 <= i < |items| ==> rs[i] == Normalise(items[i], envs(i), parse)
  {
    seq(|items|, i requires 0 <= i < |items| => Normalise(items[i], envs(i), parse))
  }

  /** `filter((item) => item && item._id)`. */
  function KeepWithId(ns: seq<News>): (r: seq<News>)
    ensures |r| <= |ns|
    ensures forall n :: n in r <==> n in ns && Truthy(n.id)
  {
    if ns == [] then []
    else (if Truthy(ns[0].id) then [ns[0]] else []) + KeepWithId(ns[1..])
  }

  /** The filter keeps exactly the records whose id is truthy, in order. */
  lemma {:induction false} KeepWithIdKeepsAllWithId(ns: seq<News>)
    requires forall i :: 0 <= i < |ns| ==> Truthy(ns[i].id)
    ensures KeepWithId(ns) == ns
  {
    if ns != [] {
      KeepWithIdKeepsAllWithId(ns[1..]);
    }
  }

  /** The whole transformation of a 2xx response body. Reading `_id` of a
      null item throws, which fails the fetch. */
  function Process(data: Value, envs: nat -> ItemEnv, parse: DateParser): (r: Result<seq<News>, Failure>)
    ensures SelectEnvelope(data).Err? ==> r == Err(Message(InvalidFormat))
    ensures r.Err? && r.error.TypeError? <==>
      SelectEnvelope(data).Ok? && exists i :: 0 <= i < |SelectEnvelope(data).value| && Nullish(SelectEnvelope(data).value[i])
    ensures r.Ok? ==> SelectEnvelope(data).Ok? && |r.value| <= |SelectEnvelope(data).value|
    ensures r.Ok? ==> forall n :: n in r.value ==> Truthy(n.id)
  {
    match SelectEnvelope(data)
    case Err(m) => Err(Message(m))
    case Ok(items) =>
      if exists i :: 0 <= i < |items| && Nullish(items[i]) then Err(TypeError)
      else Ok(KeepWithId(NormaliseAll(items, envs, parse)))
  }

  /** Every mapped record has a truthy id, so the filter drops nothing: the
      fetched list is as long as the envelope and in the same order. */
  lemma ProcessKeepsEveryItem(data: Value, envs: nat -> ItemEnv, parse: DateParser)
    requires SelectEnvelope(data).Ok?
    requires forall i :: 0 <= i < |SelectEnvelope(data).value| ==> !Nullish(SelectEnvelope(data).value[i])
    ensures Process(data, envs, parse) == Ok(NormaliseAll(SelectEnvelope(data).value, envs, parse))
  {
    KeepWithIdKeepsAllWithId(NormaliseAll(SelectEnvelope(data).value, envs, parse));
  }

  /** Normalising a record that is already normal changes nothing and uses
      neither randomness nor the clock. */
  lemma NormaliseIdempotent(item: Value, env: ItemEnv, env2: ItemEnv, parse: DateParser)
    ensures Normalise(ToValue(Normalise(item, env, parse)), env2, parse) == Normalise(item, env, parse)
  {
    var n := Normalise(item, env, parse);
    var v := ToValue(n);
    PropsOfToValue(n);
    DatePropsOfToValue(n);
    var m := Normalise(v, env2, parse);
    assert m.id == n.id && m.slug == n.slug && m.title == n.title && m.excerpt == n.excerpt;
    assert m.image == n.image && m.author == n.author && m.publishedAt == n.publishedAt;
    assert m.date == n.date && m.createdAt == n.createdAt && m.updatedAt == n.updatedAt;
    assert m.categories == n.categories;
    assert m.published == n.published;
    assert m.content == n.content;
  }

  /** Reading a field of a record turned back into JSON gives that field. */
  lemma PropsOfToValue(n: News)
    ensures Prop(ToValue(n), "_id") == n.id && Prop(ToValue(n), "title") == n.title
    ensures Prop(ToValue(n), "excerpt") == n.excerpt && Prop(ToValue(n), "content") == n.content
    ensures Prop(ToValue(n), "image") == n.image && Prop(ToValue(n), "author") == n.author
    ensures Prop(ToValue(n), "slug") == n.slug
  {
  }

  /** The same for the date, flag and list fields. */
  lemma DatePropsOfToValue(n: News)
    ensures Prop(ToValue(n), "published") == n.published && Prop(ToValue(n), "publishedAt") == n.publishedAt
    ensures Prop(ToValue(n), "date") == n.date
    ensures Prop(ToValue(n), "categories") == Arr(n.categories)
    ensures Prop(ToValue(n), "createdAt") == n.createdAt && Prop(ToValue(n), "updatedAt") == n.updatedAt
  {
  }

  /** The hook's state: `news`, `loading` and `error`, and whether the
      mount effect has run (it runs once, its dependency list being empty). */
  class NewsHook {
    var news: seq<News>
    var loading: bool
    var error: Option<string>
    var fetched: bool

    ghost predicate Valid()
      reads this
    {
      !fetched ==> news == [] && error.None? && loading
    }

    constructor ()
      ensures Valid() && !fetched
      ensures news == [] && loading && error.None?
    {
      news, loading, error, fetched := [], true, None, false;
    }

    /**
     * The mount effect. On success `news` holds the processed list; on any
     * failure the message is chosen from the `news` captured when the effect
     * was created, which is always the initial empty list, so it is always
     * the "no data" message. Loading ends false either way.
     */
    method FetchNews(outcome: FetchOutcome, envs: nat -> ItemEnv, parse: DateParser)
      requires Valid() && !fetched
      modifies this
      ensures Valid() && fetched && !loading
      ensures outcome.Response? && Process(outcome.data, envs, parse).Ok? ==>
        news == Process(outcome.data, envs, parse).value && error.None?
      ensures !(outcome.Response? && Process(outcome.data, envs, parse).Ok?) ==>
        news == [] && error == Some(NoDataMessage)
    {
      var captured := news;
      fetched := true;
      loading := true;
      var result := if outcome.Response? then Process(outcome.data, envs, parse) else Err(Message(""));
      if result.Ok? {
        news := result.value;
        loading := false;
      } else {
        error := Some(if |captured| == 0 then NoDataMessage else RetryMessage);
        loading := false;
      }
    }
  }
}
