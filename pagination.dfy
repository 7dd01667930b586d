/**
 * The arithmetic of a paginated list page in the frontend, written once for
 * any list route and instantiated by `JobRolesPage` and `PostsPage`: parsing
 * the `page` search value, the query options (cache key, `skip`, `limit`) for
 * a page, and the state of the Previous/Next controls and of the prefetch.
 */
module Pagination {
  import opened Wrappers
  import Listing

  /** The `page` search value as the router hands it over: a number, or anything else. */
  datatype SearchValue = Number(n: int) | Other

  /**
   * The search schema: a number is kept as it is, anything else falls back to
   * page 1. Either the value is the one a navigation to the parsed page writes,
   * or it is not a number and the page is the first.
   */
  function ParsePage(raw: SearchValue): (page: int)
    ensures raw == SearchFor(page) || (raw.Other? && page == 1)
  {
    match raw
    case Number(n) => n
    case Other => 1
  }

  /** What `setPage(page)` writes into the search parameters. */
  function SearchFor(page: int): SearchValue
  {
    Number(page)
  }

  /**
   * The page a navigation writes is the page the next render parses -- for
   * every integer, including 0 and negative pages; a value that is not a
   * number parses to the first page.
   */
  lemma ParsePageRoundTrip(page: int)
    ensures ParsePage(SearchFor(page)) == page
    ensures ParsePage(Other) == 1
  {
  }

  /** The per-route constants: the first element of the cache key and `PER_PAGE`. */
  datatype ListRoute = ListRoute(entity: string, perPage: nat)

  /** The arguments of the read-collection call. */
  datatype ReadRequest = ReadRequest(skip: int, limit: int)

  /** The cache key `[entity, {page}]`. */
  datatype QueryKey = QueryKey(entity: string, page: int)

  datatype QueryOptions = QueryOptions(key: QueryKey, request: ReadRequest)

  /**
   * The query options of `page`: its cache key, and the window it asks the
   * backend for, which holds one page of rows and ends after `page` pages.
   */
  function QueryOptionsFor(route: ListRoute, page: int): (o: QueryOptions)
    ensures o.key == QueryKey(route.entity, page)
    ensures o.request.limit == route.perPage
    ensures o.request.skip + o.request.limit == page * route.perPage
  {
    MultipleStep(page - 1, page, route.perPage);
    QueryOptions(QueryKey(route.entity, page), ReadRequest((page - 1) * route.perPage, route.perPage))
  }

  /** Every request asks for one full page, and page 1 starts at the first row. */
  lemma RequestShape(route: ListRoute, page: int)
    ensures QueryOptionsFor(route, page).request.limit == route.perPage
    ensures QueryOptionsFor(route, 1).request.skip == 0
    ensures page >= 1 ==> QueryOptionsFor(route, page).request.skip >= 0
  {
  }

  /** The window of page `page + 1` starts exactly where the window of `page` ends. */
  lemma PagesAdjacent(route: ListRoute, page: int)
    ensures var here, next := QueryOptionsFor(route, page).request, QueryOptionsFor(route, page + 1).request;
      next.skip == here.skip + here.limit
  {
  }

  /** The windows of two different pages do not overlap. */
  lemma PagesDisjoint(route: ListRoute, p: int, q: int)
    requires p < q
    ensures var a, b := QueryOptionsFor(route, p).request, QueryOptionsFor(route, q).request;
      a.skip + a.limit <= b.skip
  {
    MultipleStep(p - 1, q - 1, route.perPage);
  }

  /** Multiples of `k`: a larger factor is at least `k` further on, and exactly `k` for the next factor. */
  lemma MultipleStep(x: int, y: int, k: nat)
    requires x < y
    ensures x * k + k <= y * k
    ensures y == x + 1 ==> x * k + k == y * k
  {
    var d := y - x - 1;
    assert y * k == x * k + k + d * k;
    assert d * k >= 0;
  }

  /**
   * The rows shown on pages 1 to `n - 1`, followed by the window page `n`
   * requests, are the first `n * perPage` rows.
   */
  lemma WindowsTile<T(!new)>(visible: seq<T>, perPage: nat, n: nat, shown: seq<T>, page: seq<T>)
    requires n >= 1
    requires shown == Listing.OffsetLimit(visible, 0, (n - 1) * perPage)
    requires page == Listing.OffsetLimit(visible, (n - 1) * perPage, perPage)
    ensures shown + page == Listing.OffsetLimit(visible, 0, n * perPage)
  {
    MultipleStep(n - 1, n, perPage);
    Listing.OffsetLimitSplit(visible, 0, (n - 1) * perPage, perPage);
  }

  /** Distinct pages of a route, and pages of distinct routes, have distinct cache keys. */
  lemma KeysDistinct(route1: ListRoute, page1: int, route2: ListRoute, page2: int)
    requires page1 != page2 || route1.entity != route2.entity
    ensures QueryOptionsFor(route1, page1).key != QueryOptionsFor(route2, page2).key
  {
  }

  /**
   * What the list component knows about the page it shows: the `page` search
   * value, the length of the result's `data` (absent before any result), and
   * whether that result is the previous page's, kept as placeholder data.
   */
  datatype ListView = ListView(page: int, dataLength: Option<nat>, isPlaceholderData: bool)

  /**
   * `hasNextPage`: the page's own result is in and it is a full page. A
   * placeholder result, or no result yet, never has a next page.
   */
  function HasNextPage(route: ListRoute, view: ListView): (b: bool)
    ensures view.isPlaceholderData || view.dataLength.None? ==> !b
    ensures b ==> view.dataLength.value == route.perPage
  {
    !view.isPlaceholderData && view.dataLength == Some(route.perPage)
  }

  /**
   * `hasPreviousPage`: from page 1 on, there is a previous page exactly off
   * the first page, and when there is one it is itself a page from 1 on.
   */
  function HasPreviousPage(view: ListView): (b: bool)
    ensures view.page >= 1 ==> (b <==> view.page != 1)
    ensures b ==> view.page - 1 >= 1
  {
    view.page > 1
  }

  /**
   * The Previous and Next buttons (whether each is disabled, and the page its
   * click navigates to) and the query the effect prefetches, if any.
   */
  datatype Controls = Controls(
    previousDisabled: bool, previousTarget: int,
    nextDisabled: bool, nextTarget: int,
    prefetch: Option<QueryOptions>)

  function ControlsFor(route: ListRoute, view: ListView): (c: Controls)
    ensures c.previousTarget == view.page - 1 && c.nextTarget == view.page + 1
    ensures !c.nextDisabled ==> !view.isPlaceholderData && view.dataLength == Some(route.perPage)
    ensures c.prefetch.Some? <==> !c.nextDisabled
    ensures c.prefetch.Some? ==> c.prefetch.value == QueryOptionsFor(route, c.nextTarget)
    ensures view.page >= 1 ==> (c.previousDisabled <==> !HasPreviousPage(view))
  {
    var hasNext := HasNextPage(route, view);
    Controls(
      view.page == 1, view.page - 1,
      !hasNext, view.page + 1,
      if hasNext then Some(QueryOptionsFor(route, view.page + 1)) else None)
  }

  /**
   * Next is enabled exactly when the page's own result is a full page, and the
   * prefetch is issued exactly then, for the page Next leads to.
   */
  lemma NextFollowsHasNextPage(route: ListRoute, view: ListView)
    ensures var c := ControlsFor(route, view);
      && (!c.nextDisabled <==> HasNextPage(route, view))
      && (c.prefetch.Some? <==> HasNextPage(route, view))
  {
  }

  /**
   * Below page 1 the two conditions part ways: `hasPreviousPage` is false
   * but the Previous button is enabled and leads further down.
   */
  lemma PreviousBelowFirstPage(route: ListRoute, view: ListView)
    requires view.page < 1
    ensures !HasPreviousPage(view)
    ensures var c := ControlsFor(route, view);
      !c.previousDisabled && c.previousTarget < view.page
  {
  }
}
