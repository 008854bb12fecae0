/**
 * The news listing page (src/pages/News.tsx): six records per page, the
 * page count, the slice shown for the current page, the ids of its cards
 * that are faded in, the reset to page 1 when a new list arrives, and the
 * page change handler wired to the pagination control.
 */
module NewsPage {
  import opened Options
  import opened Js
  import opened NewsTypes
  import opened NewsPagination
  import opened NewsList

  const ItemsPerPage: nat := 6

  /** `Math.max(1, Math.ceil(n / itemsPerPage))`: the fewest pages, at least
      one, that hold `n` records. */
  function TotalPages(n: nat): (t: int)
    ensures t >= 1
    ensures n <= t * ItemsPerPage
    ensures t == 1 || (t - 1) * ItemsPerPage < n
  {
    var ceil := (n + ItemsPerPage - 1) / ItemsPerPage;
    if ceil < 1 then 1 else ceil
  }

  /** `news.slice((page - 1) * 6, (page - 1) * 6 + 6)`. */
  function CurrentItems<T>(news: seq<T>, page: int): (r: seq<T>)
    ensures |r| <= ItemsPerPage
    ensures page >= 1 ==> r == news[Min((page - 1) * ItemsPerPage, |news|)..Min(page * ItemsPerPage, |news|)]
    ensures page > TotalPages(|news|) ==> r == []
  {
    var start := (page - 1) * ItemsPerPage;
    Slice(news, start, start + ItemsPerPage)
  }

  /** Every page before the last is full; the last holds what is left. */
  lemma PageSizes<T>(news: seq<T>, page: int)
    requires 1 <= page <= TotalPages(|news|)
    ensures page < TotalPages(|news|) ==> |CurrentItems(news, page)| == ItemsPerPage
    ensures page == TotalPages(|news|) ==> |CurrentItems(news, page)| == |news| - (page - 1) * ItemsPerPage
  {
  }

  /** Pages 1..k, one after the other. */
  function FirstPages<T>(news: seq<T>, k: nat): seq<T> {
    if k == 0 then [] else FirstPages(news, k - 1) + CurrentItems(news, k)
  }

  lemma {:induction false} FirstPagesArePrefix<T>(news: seq<T>, k: nat)
    ensures FirstPages(news, k) == news[..Min(k * ItemsPerPage, |news|)]
  {
    if k > 0 {
      FirstPagesArePrefix(news, k - 1);
      var a := Min((k - 1) * ItemsPerPage, |news|);
      var b := Min(k * ItemsPerPage, |news|);
      assert news[..a] + news[a..b] == news[..b];
    }
  }

  /** Concatenating pages 1..totalPages gives back the whole list. */
  lemma PagesConcatenate<T>(news: seq<T>)
    ensures FirstPages(news, TotalPages(|news|)) == news
  {
    FirstPagesArePrefix(news, TotalPages(|news|));
  }

  /** `currentItems.filter((item) => item && item._id).map((item) => item._id)`. */
  function VisibleIds(items: seq<News>): (ids: seq<Value>)
    ensures |ids| == CountWithId(items)
    ensures forall v :: v in ids ==> Truthy(v)
    ensures forall i :: 0 <= i < |items| && Truthy(items[i].id) ==> items[i].id in ids
    ensures forall v :: v in ids ==> exists i :: 0 <= i < |items| && items[i].id == v
  {
    if items == [] then []
    else
      var rest := VisibleIds(items[1..]);
      assert forall i :: 1 <= i < |items| ==> items[i] == items[1..][i - 1];
      if Truthy(items[0].id) then [items[0].id] + rest else rest
  }

  /** The ids keep the order and the repetitions of the page: the item at `i`,
      when it has an id, gives the id at the count of ids before it. */
  lemma {:induction false} VisibleIdsInOrder(items: seq<News>)
    ensures forall i :: 0 <= i < |items| && Truthy(items[i].id) ==>
      CountWithId(items[..i]) < |VisibleIds(items)| && VisibleIds(items)[CountWithId(items[..i])] == items[i].id
  {
    if items != [] {
      VisibleIdsInOrder(items[1..]);
      var head := if Truthy(items[0].id) then 1 else 0;
      forall i | 0 <= i < |items| && Truthy(items[i].id)
        ensures CountWithId(items[..i]) < |VisibleIds(items)| && VisibleIds(items)[CountWithId(items[..i])] == items[i].id
      {
        if i == 0 {
          assert items[..0] == [];
        } else {
          assert items[..i][1..] == items[1..][..i - 1];
          assert items[1..][i - 1] == items[i];
          assert CountWithId(items[..i]) == head + CountWithId(items[1..][..i - 1]);
        }
      }
    }
  }

  /** When the visible ids are computed from the page itself, every card on it is shown. */
  lemma EveryCardOnThePageIsVisible(items: seq<News>, totalPages: int)
    requires Render(items, VisibleIds(items), totalPages).Grid?
    ensures forall c :: c in Render(items, VisibleIds(items), totalPages).cards ==> c.isVisible
  {
    var cards := Render(items, VisibleIds(items), totalPages).cards;
    forall c | c in cards ensures c.isVisible {
      var k :| 0 <= k < |cards| && cards[k] == c;
      assert IsCardOf(items, VisibleIds(items), 0, c);
    }
  }

  /** What the page renders: the error panel, or the list of the current page. */
  datatype PageView = ErrorPanel(message: string) | Listing(list: ListView)

  /** The page's state: the fetched records and error from the fetch hook,
      the current page, and the ids of the cards to fade in. */
  class NewsView {
    var news: seq<News>
    var error: Option<string>
    var currentPage: int
    var visibleItems: seq<Value>

    /** The visibility effect has run for the current slice. */
    ghost predicate Valid()
      reads this
    {
      visibleItems == VisibleIds(CurrentItems(news, currentPage))
    }

    /** The current page lies in [1, totalPages]. */
    predicate InRange()
      reads this
    {
      1 <= currentPage <= TotalPages(|news|)
    }

    constructor ()
      ensures Valid() && InRange()
      ensures news == [] && error.None? && currentPage == 1 && visibleItems == []
    {
      news, error, currentPage, visibleItems := [], None, 1, [];
    }

    /** A new list from the fetch hook: the page goes back to 1 and the
        visible ids follow the new first page. */
    method ReceiveNews(fetched: seq<News>)
      modifies this
      ensures Valid() && InRange()
      ensures news == fetched && currentPage == 1 && error == old(error)
      ensures visibleItems == VisibleIds(CurrentItems(fetched, 1))
    {
      news := fetched;
      currentPage := 1;
      visibleItems := VisibleIds(CurrentItems(news, currentPage));
    }

    /** The fetch hook reported an error. */
    method ReceiveError(message: string)
      modifies this`error
      ensures error == Some(message)
    {
      error := Some(message);
    }

    /** `handlePageChange(pageNumber)`: only the current page changes (and the
        visible ids with it); the records stay as they are. */
    method HandlePageChange(pageNumber: int)
      modifies this
      ensures Valid()
      ensures currentPage == pageNumber
      ensures news == old(news) && error == old(error)
    {
      currentPage := pageNumber;
      visibleItems := VisibleIds(CurrentItems(news, currentPage));
    }

    /** A click on the pagination control, which calls `handlePageChange`
        when its guard lets it. A click the control can receive keeps the
        page in range. */
    method Click(c: Click)
      requires Valid()
      modifies this
      ensures Valid()
      ensures currentPage == Step(old(currentPage), TotalPages(|news|), c)
      ensures news == old(news) && error == old(error)
      ensures old(InRange()) && Rendered(c, TotalPages(|news|)) ==> InRange()
    {
      ghost var before := currentPage;
      match PageChange(currentPage, TotalPages(|news|), c) {
        case Some(p) => HandlePageChange(p);
        case None =>
      }
      if 1 <= before <= TotalPages(|news|) && Rendered(c, TotalPages(|news|)) {
        StepStaysInRange(before, TotalPages(|news|), c);
      }
    }

    /** `if (error) return <NewsError error={error} />`: a non-empty error
        message replaces the page by the panel showing it; otherwise the
        list of the current page. */
    function View(): (v: PageView)
      reads this
      ensures v.ErrorPanel? <==> error.Some? && error.value != ""
      ensures v.ErrorPanel? ==> v.message == error.value
      ensures v.Listing? ==> v.list == Render(CurrentItems(news, currentPage), visibleItems, TotalPages(|news|))
    {
      if error.Some? && error.value != "" then ErrorPanel(error.value)
      else Listing(Render(CurrentItems(news, currentPage), visibleItems, TotalPages(|news|)))
    }
  }
}
