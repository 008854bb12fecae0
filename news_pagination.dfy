/**
 * The pagination control (src/components/NewsPagination.tsx): guarded
 * "Previous" and "Next" buttons, their disabled flags, and one numbered
 * button per page. The control keeps no state; each click either calls
 * `onPageChange` with a page number or does nothing.
 */
module NewsPagination {
  import opened Options

  /** "Previous": `currentPage > 1 && onPageChange(currentPage - 1)`. */
  function PreviousClick(currentPage: int): (r: Option<int>)
    ensures r.Some? <==> currentPage > 1
    ensures r.Some? ==> r.value == currentPage - 1 && r.value >= 1
  {
    if currentPage > 1 then Some(currentPage - 1) else None
  }

  /** "Next": `currentPage < totalPages && onPageChange(currentPage + 1)`. */
  function NextClick(currentPage: int, totalPages: int): (r: Option<int>)
    ensures r.Some? <==> currentPage < totalPages
    ensures r.Some? ==> r.value == currentPage + 1 && r.value <= totalPages
  {
    if currentPage < totalPages then Some(currentPage + 1) else None
  }

  /** `disabled={currentPage === 1}`: on a page in range, the button is
      disabled exactly when clicking it would do nothing. */
  predicate PreviousDisabled(currentPage: int)
    ensures PreviousDisabled(currentPage) ==> PreviousClick(currentPage).None?
    ensures currentPage >= 1 && PreviousClick(currentPage).None? ==> PreviousDisabled(currentPage)
  {
    currentPage == 1
  }

  /** `disabled={currentPage === totalPages}`: on a page in range, the button
      is disabled exactly when clicking it would do nothing. */
  predicate NextDisabled(currentPage: int, totalPages: int)
    ensures NextDisabled(currentPage, totalPages) ==> NextClick(currentPage, totalPages).None?
    ensures currentPage <= totalPages && NextClick(currentPage, totalPages).None? ==> NextDisabled(currentPage, totalPages)
  {
    currentPage == totalPages
  }

  /** A numbered button: its page number, whether it is highlighted as the current
      page, and whether it carries the right-hand rounded corner. */
  datatype PageButton = PageButton(pageNumber: int, highlighted: bool, roundedRight: bool)

  /** `Array.from({ length: totalPages })` mapped to buttons 1..totalPages. */
  function PageButtons(currentPage: int, totalPages: int): (bs: seq<PageButton>)
    ensures |bs| == if totalPages > 0 then totalPages else 0
    ensures forall i :: 0 <= i < |bs| ==> bs[i].pageNumber == i + 1
    ensures forall i :: 0 <= i < |bs| ==> (bs[i].highlighted <==> bs[i].pageNumber == currentPage)
    ensures forall i :: 0 <= i < |bs| ==> (bs[i].roundedRight <==> i == |bs| - 1)
  {
    var n := if totalPages > 0 then totalPages else 0;
    seq(n, i requires 0 <= i < n => PageButton(i + 1, currentPage == i + 1, i == totalPages - 1))
  }

  /** The number of highlighted buttons. */
  function CountHighlighted(bs: seq<PageButton>): nat {
    if bs == [] then 0 else (if bs[0].highlighted then 1 else 0) + CountHighlighted(bs[1..])
  }

  lemma {:induction false} NoneHighlighted(bs: seq<PageButton>)
    requires forall i :: 0 <= i < |bs| ==> !bs[i].highlighted
    ensures CountHighlighted(bs) == 0
  {
    if bs != [] {
      NoneHighlighted(bs[1..]);
    }
  }

  lemma {:induction false} OnlyOneHighlighted(bs: seq<PageButton>, j: nat)
    requires j < |bs|
    requires forall i :: 0 <= i < |bs| ==> (bs[i].highlighted <==> i == j)
    ensures CountHighlighted(bs) == 1
  {
    if j == 0 {
      NoneHighlighted(bs[1..]);
    } else {
      OnlyOneHighlighted(bs[1..], j - 1);
    }
  }

  /** Exactly one numbered button is highlighted when the current page is in
      range, and none is when it is not. */
  lemma ExactlyOneHighlighted(currentPage: int, totalPages: int)
    ensures 1 <= currentPage <= totalPages ==> CountHighlighted(PageButtons(currentPage, totalPages)) == 1
    ensures !(1 <= currentPage <= totalPages) ==> CountHighlighted(PageButtons(currentPage, totalPages)) == 0
  {
    var bs := PageButtons(currentPage, totalPages);
    if 1 <= currentPage <= totalPages {
      OnlyOneHighlighted(bs, currentPage - 1);
    } else {
      NoneHighlighted(bs);
    }
  }

  /** A click on the control. */
  datatype Click = Previous | Next | Number(page: int)

  /** A click the rendered control can receive: numbered buttons exist only for 1..totalPages. */
  predicate Rendered(c: Click, totalPages: int) {
    c.Number? ==> 1 <= c.page <= totalPages
  }

  /** The argument the click passes to `onPageChange`, if it calls it at all. */
  function PageChange(currentPage: int, totalPages: int, c: Click): (r: Option<int>)
    ensures c.Previous? ==> r == PreviousClick(currentPage)
    ensures c.Next? ==> r == NextClick(currentPage, totalPages)
    ensures c.Number? ==> r == Some(c.page)
  {
    match c
    case Previous => PreviousClick(currentPage)
    case Next => NextClick(currentPage, totalPages)
    case Number(p) => Some(p)
  }

  /** The page after a click, when the owner sets its page to whatever `onPageChange` receives. */
  function Step(currentPage: int, totalPages: int, c: Click): (r: int)
    ensures c.Previous? ==> r == if currentPage > 1 then currentPage - 1 else currentPage
    ensures c.Next? ==> r == if currentPage < totalPages then currentPage + 1 else currentPage
    ensures c.Number? ==> r == c.page
  {
    match PageChange(currentPage, totalPages, c)
    case Some(p) => p
    case None => currentPage
  }

  /** The page after a sequence of clicks. */
  function Run(currentPage: int, totalPages: int, clicks: seq<Click>): (r: int)
    ensures currentPage <= totalPages && (forall k :: 0 <= k < |clicks| ==> clicks[k].Next?) ==>
      r == if currentPage + |clicks| <= totalPages then currentPage + |clicks| else totalPages
    ensures currentPage >= 1 && (forall k :: 0 <= k < |clicks| ==> clicks[k].Previous?) ==>
      r == if currentPage - |clicks| >= 1 then currentPage - |clicks| else 1
    decreases |clicks|
  {
    if clicks == [] then currentPage
    else Run(Step(currentPage, totalPages, clicks[0]), totalPages, clicks[1..])
  }

  /** One click on the rendered control keeps the page in [1, totalPages]. */
  lemma StepStaysInRange(currentPage: int, totalPages: int, c: Click)
    requires 1 <= currentPage <= totalPages && Rendered(c, totalPages)
    ensures 1 <= Step(currentPage, totalPages, c) <= totalPages
  {
  }

  /** Starting in [1, totalPages], any sequence of clicks on the rendered
      control keeps the page in [1, totalPages]. */
  lemma {:induction false} RunStaysInRange(currentPage: int, totalPages: int, clicks: seq<Click>)
    requires 1 <= currentPage <= totalPages
    requires forall k :: 0 <= k < |clicks| ==> Rendered(clicks[k], totalPages)
    ensures 1 <= Run(currentPage, totalPages, clicks) <= totalPages
    decreases |clicks|
  {
    if clicks != [] {
      StepStaysInRange(currentPage, totalPages, clicks[0]);
      RunStaysInRange(Step(currentPage, totalPages, clicks[0]), totalPages, clicks[1..]);
    }
  }
}
