/**
 * The card grid of the news listing (src/components/NewsList.tsx): one card
 * per item that has an `_id`, each with its image resolved and its fields
 * defaulted, the empty-state message when there are no items, and the
 * pagination control only when there is more than one page.
 */
module NewsList {
  import opened Options
  import opened Js
  import opened Images
  import opened NewsTypes

  const EmptyMessage: string := "No news articles found. Please check the API or database."

  /** The `news` prop handed to a card. */
  datatype CardNews = CardNews(
    id: Value, title: Value, excerpt: Value, image: Value, author: Value,
    publishedAt: Value, date: Value, slug: Value, categories: seq<Value>)

  /** A rendered card: its props, its position among the items, and whether it is shown. */
  datatype Card = Card(news: CardNews, index: nat, isVisible: bool)

  /** What the list renders. `RenderError` stands for the TypeError thrown
      while rendering an item whose image is null. */
  datatype ListView = EmptyState(message: string) | Grid(cards: seq<Card>, showPagination: bool) | RenderError

  /** The card props for one item, given its resolved image. */
  function CardNewsFor(item: News, imageUrl: Value): (c: CardNews)
    ensures c.id == item.id && c.image == imageUrl && c.date == item.date
    ensures Truthy(c.title) && Truthy(c.excerpt) && Truthy(c.author)
    ensures Truthy(item.title) ==> c.title == item.title
    ensures !Truthy(item.title) ==> c.title == Str("Untitled")
    ensures Truthy(item.excerpt) ==> c.excerpt == item.excerpt
    ensures !Truthy(item.excerpt) ==> c.excerpt == Str("No excerpt available")
    ensures Truthy(item.author) ==> c.author == item.author
    ensures !Truthy(item.author) ==> c.author == Str("Unknown")
    ensures Truthy(item.publishedAt) ==> c.publishedAt == item.publishedAt
    ensures !Truthy(item.publishedAt) ==> c.publishedAt == Str("")
    ensures Truthy(item.slug) ==> c.slug == item.slug
    ensures !Truthy(item.slug) ==> c.slug == Str("")
    ensures c.categories == item.categories
  {
    CardNews(
      id := item.id,
      title := Or(item.title, Str("Untitled")),
      excerpt := Or(item.excerpt, Str("No excerpt available")),
      image := imageUrl,
      author := Or(item.author, Str("Unknown")),
      publishedAt := Or(item.publishedAt, Str("")),
      date := item.date,
      slug := Or(item.slug, Str("")),
      categories := item.categories)
  }

  /** How many items have a truthy `_id`. */
  function CountWithId(items: seq<News>): nat {
    if items == [] then 0 else (if Truthy(items[0].id) then 1 else 0) + CountWithId(items[1..])
  }

  /** `c` is the card of the item at position `c.index` of a list whose
      suffix `items` starts at position `offset`. */
  predicate IsCardOf(items: seq<News>, visible: seq<Value>, offset: nat, c: Card) {
    && offset <= c.index < offset + |items|
    && Truthy(items[c.index - offset].id)
    && c.news == CardNewsFor(items[c.index - offset], GuardedImageUrl(items[c.index - offset].image))
    && (c.isVisible <==> c.news.id in visible)
  }

  lemma IsCardOfSuffix(items: seq<News>, visible: seq<Value>, offset: nat, c: Card)
    requires |items| >= 1 && IsCardOf(items[1..], visible, offset + 1, c)
    ensures IsCardOf(items, visible, offset, c)
  {
    assert items[1..][c.index - offset - 1] == items[c.index - offset];
  }

  lemma CardsOfSuffix(items: seq<News>, visible: seq<Value>, offset: nat, cards: seq<Card>)
    requires |items| >= 1
    requires forall k :: 0 <= k < |cards| ==> IsCardOf(items[1..], visible, offset + 1, cards[k])
    ensures forall k :: 0 <= k < |cards| ==> IsCardOf(items, visible, offset, cards[k])
  {
    forall k | 0 <= k < |cards| ensures IsCardOf(items, visible, offset, cards[k]) {
      IsCardOfSuffix(items, visible, offset, cards[k]);
    }
  }

  /**
   * The cards for `items`, the first of which sits at position `offset` of
   * the list. Items without a truthy `_id` render nothing; a card is visible
   * exactly when its id is among `visible`; None when some rendered item has
   * a null image.
   */
  function CardsFrom(items: seq<News>, visible: seq<Value>, offset: nat): (r: Option<seq<Card>>)
    ensures r.None? <==> exists i :: 0 <= i < |items| && Truthy(items[i].id) && items[i].image.Null?
    ensures r.Some? ==> |r.value| == CountWithId(items)
    ensures r.Some? ==> forall k :: 0 <= k < |r.value| ==> IsCardOf(items, visible, offset, r.value[k])
    ensures r.Some? ==> forall k, l :: 0 <= k < l < |r.value| ==> r.value[k].index < r.value[l].index
    decreases |items|
  {
    if items == [] then Some([])
    else
      var rest := CardsFrom(items[1..], visible, offset + 1);
      var item := items[0];
      assert forall i :: 1 <= i < |items| ==> items[i] == items[1..][i - 1];
      if !Truthy(item.id) then
        if rest.Some? then CardsOfSuffix(items, visible, offset, rest.value); rest else rest
      else
        match ListImageUrl(item.image)
        case None => None
        case Some(url) =>
          if rest.None? then None
          else
            CardsOfSuffix(items, visible, offset, rest.value);
            var card := Card(CardNewsFor(item, url), offset, item.id in visible);
            assert IsCardOf(items, visible, offset, card);
            Some([card] + rest.value)
  }

  /** The list view for the current page. */
  function Render(currentItems: seq<News>, visibleItems: seq<Value>, totalPages: int): (v: ListView)
    ensures v.EmptyState? <==> currentItems == []
    ensures v.EmptyState? ==> v.message == EmptyMessage
    ensures v.Grid? ==> (v.showPagination <==> totalPages > 1)
    ensures v.Grid? ==> |v.cards| == CountWithId(currentItems)
    ensures v.Grid? ==> CardsFrom(currentItems, visibleItems, 0) == Some(v.cards)
    ensures v.Grid? ==> forall k :: 0 <= k < |v.cards| ==> IsCardOf(currentItems, visibleItems, 0, v.cards[k])
    ensures v.Grid? ==> forall k, l :: 0 <= k < l < |v.cards| ==> v.cards[k].index < v.cards[l].index
    ensures v.RenderError? <==> exists i :: 0 <= i < |currentItems| && Truthy(currentItems[i].id) && currentItems[i].image.Null?
  {
    if currentItems == [] then EmptyState(EmptyMessage)
    else
      match CardsFrom(currentItems, visibleItems, 0)
      case None => RenderError
      case Some(cards) => Grid(cards, totalPages > 1)
  }

  /** Records whose images are all truthy, as the fetch hook produces them,
      never hit the null-image error: a non-empty page always renders a grid. */
  lemma TruthyImagesRender(currentItems: seq<News>, visibleItems: seq<Value>, totalPages: int)
    requires forall i :: 0 <= i < |currentItems| ==> Truthy(currentItems[i].image)
    requires currentItems != []
    ensures Render(currentItems, visibleItems, totalPages).Grid?
  {
  }
}
