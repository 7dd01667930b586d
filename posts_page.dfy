/**
 * The posts list page: `Pagination` with five posts per page, connected to
 * the backend's `read_posts` through the request each page issues.
 */
module PostsPage {
  import opened Wrappers
  import opened Listing
  import opened Pagination
  import Posts

  const PER_PAGE: nat := 5

  /** The query key `["posts", {page}]` and `PER_PAGE`. */
  const Route := ListRoute("posts", PER_PAGE)

  /** The backend's answer to the request page `page` issues. */
  function ReadPage(rows: seq<Posts.Post>, caller: User, page: int): (r: ListPage<Posts.Post>)
    requires page >= 1
    ensures |r.data| <= PER_PAGE
    ensures r.count == |Posts.VisiblePosts(rows, caller)|
    ensures r.data == OffsetLimit(Posts.VisiblePosts(rows, caller), (page - 1) * PER_PAGE, PER_PAGE)
  {
    var request := QueryOptionsFor(Route, page).request;
    Posts.ReadPostsIsWindowOfVisible(rows, caller, request.skip, request.limit);
    Posts.ReadPosts(rows, caller, request.skip, request.limit)
  }

  /** The posts shown on pages 1 to `n`, one page after another. */
  function Browsed(rows: seq<Posts.Post>, caller: User, n: nat): seq<Posts.Post>
  {
    if n == 0 then [] else Browsed(rows, caller, n - 1) + ReadPage(rows, caller, n).data
  }

  /**
   * Pages 1 to `n` together show the first `n * PER_PAGE` posts the caller may
   * see, in table order: no post is skipped and none appears twice. Every page
   * is read from the same `rows` in the same order; the backend's queries have
   * no `ORDER BY` and each page is a separate request, so this holds only
   * while the table is unchanged and the database returns rows in a stable order.
   */
  lemma {:induction false} BrowsingShowsVisibleInOrder(rows: seq<Posts.Post>, caller: User, n: nat)
    ensures Browsed(rows, caller, n) == OffsetLimit(Posts.VisiblePosts(rows, caller), 0, n * PER_PAGE)
  {
    if n > 0 {
      BrowsingShowsVisibleInOrder(rows, caller, n - 1);
      WindowsTile(Posts.VisiblePosts(rows, caller), PER_PAGE, n, Browsed(rows, caller, n - 1), ReadPage(rows, caller, n).data);
    }
  }

  /** Enough pages show every post the caller may see, under the same assumption. */
  lemma BrowsingEnoughPagesShowsAll(rows: seq<Posts.Post>, caller: User, n: nat)
    requires n * PER_PAGE >= |Posts.VisiblePosts(rows, caller)|
    ensures Browsed(rows, caller, n) == Posts.VisiblePosts(rows, caller)
  {
    BrowsingShowsVisibleInOrder(rows, caller, n);
  }

  /**
   * A short page disables Next, and rightly: the page after it is empty. The
   * view is the page's own, settled result. Both pages are read from the same
   * `rows` in the same order, which assumes an unchanged table and a stable
   * row order between the two requests.
   */
  lemma ShortPageDisablesNext(rows: seq<Posts.Post>, caller: User, page: int)
    requires page >= 1
    requires |ReadPage(rows, caller, page).data| < PER_PAGE
    ensures ControlsFor(Route, ListView(page, Some(|ReadPage(rows, caller, page).data|), false)).nextDisabled
    ensures ReadPage(rows, caller, page + 1).data == []
  {
  }

  /**
   * A full page enables Next, and the prefetch asks the backend for exactly the
   * window the next page shows: read from the same `rows`, the prefetched
   * answer is page `page + 1`.
   */
  lemma FullPagePrefetchesNext(rows: seq<Posts.Post>, caller: User, page: int)
    requires page >= 1
    requires |ReadPage(rows, caller, page).data| == PER_PAGE
    ensures var c := ControlsFor(Route, ListView(page, Some(|ReadPage(rows, caller, page).data|), false));
      && !c.nextDisabled
      && c.prefetch == Some(QueryOptions(QueryKey("posts", page + 1), ReadRequest(page * PER_PAGE, PER_PAGE)))
      && Posts.ReadPosts(rows, caller, c.prefetch.value.request.skip, c.prefetch.value.request.limit)
         == ReadPage(rows, caller, page + 1)
  {
  }

}
