/**
 * The job-roles list page: `Pagination` with ten roles per page, connected to
 * the backend's `read_job_roles` through the request each page issues.
 *
 * The create dialog invalidates the cache key `["jobRoles"]`, while this page
 * caches under `["job-roles", {page}]`; under prefix matching the two do not
 * match, so a creation leaves cached pages of this list in place. The dialog
 * is not part of this model.
 */
module JobRolesPage {
  import opened Wrappers
  import opened Listing
  import opened Pagination
  import JobRoles

  const PER_PAGE: nat := 10

  /** The query key `["job-roles", {page}]` and `PER_PAGE`. */
  const Route := ListRoute("job-roles", PER_PAGE)

  /** The backend's answer to the request page `page` issues. */
  function ReadPage(rows: seq<JobRoles.JobRole>, caller: User, page: int): (r: ListPage<JobRoles.JobRole>)
    requires page >= 1
    ensures |r.data| <= PER_PAGE
    ensures r.count == |JobRoles.VisibleJobRoles(rows, caller)|
    ensures r.data == OffsetLimit(JobRoles.VisibleJobRoles(rows, caller), (page - 1) * PER_PAGE, PER_PAGE)
  {
    var request := QueryOptionsFor(Route, page).request;
    JobRoles.ReadJobRolesIsWindowOfVisible(rows, caller, request.skip, request.limit);
    JobRoles.ReadJobRoles(rows, caller, request.skip, request.limit)
  }

  /** The job roles shown on pages 1 to `n`, one page after another. */
  function Browsed(rows: seq<JobRoles.JobRole>, caller: User, n: nat): seq<JobRoles.JobRole>
  {
    if n == 0 then [] else Browsed(rows, caller, n - 1) + ReadPage(rows, caller, n).data
  }

  /**
   * Pages 1 to `n` together show the first `n * PER_PAGE` roles the caller may
   * see, in table order: no role is skipped and none appears twice. Every page
   * is read from the same `rows` in the same order; the backend's queries have
   * no `ORDER BY` and each page is a separate request, so this holds only
   * while the table is unchanged and the database returns rows in a stable order.
   */
  lemma {:induction false} BrowsingShowsVisibleInOrder(rows: seq<JobRoles.JobRole>, caller: User, n: nat)
    ensures Browsed(rows, caller, n) == OffsetLimit(JobRoles.VisibleJobRoles(rows, caller), 0, n * PER_PAGE)
  {
    if n > 0 {
      BrowsingShowsVisibleInOrder(rows, caller, n - 1);
      WindowsTile(JobRoles.VisibleJobRoles(rows, caller), PER_PAGE, n, Browsed(rows, caller, n - 1), ReadPage(rows, caller, n).data);
    }
  }

  /** Enough pages show every role the caller may see, under the same assumption. */
  lemma BrowsingEnoughPagesShowsAll(rows: seq<JobRoles.JobRole>, caller: User, n: nat)
    requires n * PER_PAGE >= |JobRoles.VisibleJobRoles(rows, caller)|
    ensures Browsed(rows, caller, n) == JobRoles.VisibleJobRoles(rows, caller)
  {
    BrowsingShowsVisibleInOrder(rows, caller, n);
  }

  /**
   * A short page disables Next, and rightly: the page after it is empty. The
   * view is the page's own, settled result. Both pages are read from the same
   * `rows` in the same order, which assumes an unchanged table and a stable
   * row order between the two requests.
   */
  lemma ShortPageDisablesNext(rows: seq<JobRoles.JobRole>, caller: User, page: int)
    requires page >= 1
    requires |ReadPage(rows, caller, page).data| < PER_PAGE
    ensures ControlsFor(Route, ListView(page, Some(|ReadPage(rows, caller, page).data|), false)).nextDisabled
    ensures ReadPage(rows, caller, page + 1).data == []
  {
  }

  /**
   * A full page enables Next, and the prefetch asks the backend for exactly the
   * window the next page shows: read from the same `rows`, the prefetched
   * answer is page `page + 1`.
   */
  lemma FullPagePrefetchesNext(rows: seq<JobRoles.JobRole>, caller: User, page: int)
    requires page >= 1
    requires |ReadPage(rows, caller, page).data| == PER_PAGE
    ensures var c := ControlsFor(Route, ListView(page, Some(|ReadPage(rows, caller, page).data|), false));
      && !c.nextDisabled
      && c.prefetch == Some(QueryOptions(QueryKey("job-roles", page + 1), ReadRequest(page * PER_PAGE, PER_PAGE)))
      && JobRoles.ReadJobRoles(rows, caller, c.prefetch.value.request.skip, c.prefetch.value.request.limit)
         == ReadPage(rows, caller, page + 1)
  {
  }

  /**
   * The two worked examples of the list page: a full first page enables Next
   * only, and a short second page enables Previous only.
   */
  lemma ControlsExamples()
    ensures var c := ControlsFor(Route, ListView(1, Some(10), false));
      c.previousDisabled && !c.nextDisabled
    ensures var c := ControlsFor(Route, ListView(2, Some(3), false));
      !c.previousDisabled && c.nextDisabled
  {
  }
}
