/**
 * The four ways the news views turn a record's raw `image` field (a URL
 * string, an object `{ url, public_id }`, or anything else) into the URL
 * they render. The views disagree on the empty string, on null and on
 * objects without a URL; the lemmas at the end pin the differences down.
 */
module Images {
  import opened Options
  import opened Js

  const Placeholder: string := "/placeholder-image.jpg"

  /** The URL field of an object image, as `image.url` reads it. */
  function Url(image: Value): Value {
    Prop(image, "url")
  }

  /**
   * NewsDetail and NewsSidebar: an object with a truthy `url` gives that url,
   * any string (even "") gives itself, anything else gives the placeholder.
   */
  function GuardedImageUrl(image: Value): (r: Value)
    ensures Truthy(r) || r == Str("")
    ensures r == Str("") <==> image == Str("")
    ensures image.Str? ==> r == image
    ensures Truthy(image) && IsObjectType(image) && Truthy(Url(image)) ==> r == Url(image)
    ensures !(Truthy(image) && IsObjectType(image) && Truthy(Url(image))) && !image.Str? ==> r == Str(Placeholder)
  {
    if Truthy(image) && IsObjectType(image) && Truthy(Url(image)) then Url(image)
    else if image.Str? then image
    else Str(Placeholder)
  }

  /**
   * NewsList: the same choice, but without the guard on a falsy image, so a
   * null image (whose `typeof` is "object") throws a TypeError when `.url`
   * is read; None stands for that error.
   */
  function ListImageUrl(image: Value): (r: Option<Value>)
    ensures r.None? <==> image.Null?
    ensures r.Some? ==> r.value == GuardedImageUrl(image)
  {
    if image.Null? then None
    else if IsObjectType(image) && Truthy(Url(image)) then Some(Url(image))
    else if image.Str? then Some(image)
    else Some(Str(Placeholder))
  }

  /**
   * NewsCard and NewsArchives: a falsy image gives the placeholder first, so
   * the result is always truthy: "" becomes the placeholder.
   */
  function CardImageUrl(image: Value): (r: Value)
    ensures Truthy(r)
    ensures Truthy(image) ==> r == GuardedImageUrl(image)
    ensures !Truthy(image) ==> r == Str(Placeholder)
  {
    if !Truthy(image) then Str(Placeholder)
    else if IsObjectType(image) && Truthy(Url(image)) then Url(image)
    else if image.Str? then image
    else Str(Placeholder)
  }

  /**
   * NewsSearchResults and NewsCategory: `image?.url || image || placeholder`.
   * The result is always truthy, and an object without a URL is passed on
   * as it is instead of being replaced.
   */
  function ChainedImageUrl(image: Value): (r: Value)
    ensures Truthy(r)
    ensures Truthy(Url(image)) ==> r == Url(image)
    ensures !Truthy(Url(image)) && Truthy(image) ==> r == image
    ensures !Truthy(Url(image)) && !Truthy(image) ==> r == Str(Placeholder)
  {
    Or(Or(Url(image), image), Str(Placeholder))
  }

  /** All four agree on an object with a truthy URL and on a non-empty string. */
  lemma VariantsAgreeOnUsualImages(image: Value)
    requires (image.Obj? && Truthy(Url(image))) || (image.Str? && image.s != "")
    ensures ListImageUrl(image) == Some(GuardedImageUrl(image))
    ensures CardImageUrl(image) == GuardedImageUrl(image)
    ensures ChainedImageUrl(image) == GuardedImageUrl(image)
  {
  }

  /** An empty string: the list and detail views keep "", the card, archive,
      search and category views show the placeholder. */
  lemma VariantsOnEmptyString()
    ensures GuardedImageUrl(Str("")) == Str("")
    ensures ListImageUrl(Str("")) == Some(Str(""))
    ensures CardImageUrl(Str("")) == Str(Placeholder)
    ensures ChainedImageUrl(Str("")) == Str(Placeholder)
  {
  }

  /** An object without a URL: only the search and category views pass the object on. */
  lemma VariantsOnObjectWithoutUrl(fields: map<string, Value>)
    requires "url" !in fields
    ensures GuardedImageUrl(Obj(fields)) == Str(Placeholder)
    ensures CardImageUrl(Obj(fields)) == Str(Placeholder)
    ensures ChainedImageUrl(Obj(fields)) == Obj(fields)
  {
  }
}
