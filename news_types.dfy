/**
 * The news record (src/types/News.ts). Each field holds the JSON value the
 * record was built from, since the views copy API values through `||`
 * defaults without checking their types.
 */
module NewsTypes {
  import opened Js

  datatype News = News(
    id: Value,            // `_id`
    title: Value,
    excerpt: Value,
    content: Value,
    image: Value,         // `{ url, public_id }` or a URL string
    author: Value,
    published: Value,
    publishedAt: Value,
    date: Value,          // the display date, when the API or the fetch hook supplies one
    slug: Value,
    categories: seq<Value>,
    createdAt: Value,
    updatedAt: Value)

  /** The object a record is when it is read again as JSON. */
  function ToValue(n: News): Value {
    Obj(map[
      "_id" := n.id, "title" := n.title, "excerpt" := n.excerpt, "content" := n.content,
      "image" := n.image, "author" := n.author, "published" := n.published,
      "publishedAt" := n.publishedAt, "date" := n.date, "slug" := n.slug,
      "categories" := Arr(n.categories), "createdAt" := n.createdAt, "updatedAt" := n.updatedAt])
  }
}

/**
 * The other shapes the news views share: an archive bucket, the compact
 * record the search and category pages build, and what a `catch` receives.
 */
module NewsShapes {
  import opened Js
  import opened Images

  /** A month of the archive as the API reports it; the client only sorts and shows it. */
  datatype Archive = Archive(year: int, month: int, displayDate: string, count: int)

  /** The record the search-results and category pages build for their cards
      (the local `News` interface of both files). */
  datatype Summary = Summary(
    id: Value, slug: Value, image: Value, title: Value, publishedAt: Value,
    author: Value, categories: seq<Value>, excerpt: Value)

  /**
   * The fields both pages default the same way; the two pages differ only
   * in how they choose `id` and `publishedAt`, which are passed in.
   */
  function SummaryOf(item: Value, id: Value, publishedAt: Value): (r: Summary)
    ensures r.id == id && r.publishedAt == publishedAt
    ensures r.image == ChainedImageUrl(Prop(item, "image"))
    ensures Truthy(r.slug) || r.slug == Str("")
    ensures Truthy(r.title) && Truthy(r.author) && Truthy(r.excerpt) && Truthy(r.image)
    ensures Truthy(Prop(item, "title")) ==> r.title == Prop(item, "title")
    ensures !Truthy(Prop(item, "title")) ==> r.title == Str("Untitled")
    ensures Truthy(Prop(item, "author")) ==> r.author == Prop(item, "author")
    ensures !Truthy(Prop(item, "author")) ==> r.author == Str("Unknown")
    ensures Truthy(Prop(item, "excerpt")) ==> r.excerpt == Prop(item, "excerpt")
    ensures !Truthy(Prop(item, "excerpt")) ==> r.excerpt == Str("No excerpt available")
    ensures Truthy(Prop(item, "slug")) ==> r.slug == Prop(item, "slug")
    ensures !Truthy(Prop(item, "slug")) ==> r.slug == Str("")
    ensures Prop(item, "categories").Arr? ==> r.categories == Prop(item, "categories").items
    ensures !Prop(item, "categories").Arr? ==> r.categories == []
  {
    var categories := Prop(item, "categories");
    Summary(
      id := id,
      slug := Or(Prop(item, "slug"), Str("")),
      image := ChainedImageUrl(Prop(item, "image")),
      title := Or(Prop(item, "title"), Str("Untitled")),
      publishedAt := publishedAt,
      author := Or(Prop(item, "author"), Str("Unknown")),
      categories := if categories.Arr? then categories.items else [],
      excerpt := Or(Prop(item, "excerpt"), Str("No excerpt available")))
  }

  /** What a `catch` receives: an Error object with its message (a TypeError
      raised by reading a field of a null item carries the engine's text),
      or a thrown value that is not an Error. */
  datatype Thrown = ErrorObject(message: string) | NotAnError

  /** `err instanceof Error ? err.message : "Unknown error"`. */
  function ErrorMessage(t: Thrown): (r: string)
    ensures t.ErrorObject? ==> r == t.message
    ensures t.NotAnError? ==> r == "Unknown error"
  {
    match t
    case ErrorObject(message) => message
    case NotAnError => "Unknown error"
  }
}
