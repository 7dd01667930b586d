# Job roles and posts: record access and list pagination

This project models the logic underneath a small admin application for two
record types, job roles and posts.

- **Backend record-access rules.** The `posts` and `job_roles` routers of a
  FastAPI service are modelled over an in-memory table instead of a database
  session. A list read keeps the rows the caller may see: every row for a
  superuser, otherwise only the caller's own (`author_id` for posts,
  `owner_id` for job roles). It then applies `OFFSET skip LIMIT limit` and
  reports `count`, the number of visible rows before the window. Reading or
  updating a single post checks existence first (404 "Post not found") and
  ownership second (400 "Not enough permissions"). An update overwrites only
  the fields the request sets. Creating a post records the caller as its
  author. Creating a job role records no owner, so only superusers ever list
  such a role (`JobRoles.VisibleAfterCreate`).
- **Frontend pagination arithmetic.** Two list pages share one parameterised
  model (`Pagination`), instantiated with ten job roles per page
  (`JobRolesPage`) and five posts per page (`PostsPage`). The model covers:
  - the `page` search value, where a non-number falls back to 1;
  - the cache key and the `skip`/`limit` window each page requests;
  - `hasNextPage` and `hasPreviousPage`;
  - the Previous/Next buttons and the prefetch of the next page.

  The page modules link each page's request to the backend read. Browsing
  pages 1 to n shows the caller's visible rows in table order, with none
  skipped or repeated, provided every page request is answered from the same
  unchanged table in the same row order (see "Left out").

Modules: `Wrappers` (Option), `Listing` (caller, errors, filter/window/count),
`Posts`, `JobRoles` (one per router, each with a table class whose methods
change the table), `Pagination`, `JobRolesPage`, `PostsPage`.

## Model

| member | source | states |
|---|---|---|
| Listing.Filter | backend/app/api/routes/posts.py:33-35 | the `WHERE` keeps exactly the rows that satisfy the condition, never more rows than the table has |
| Listing.OffsetLimit | backend/app/api/routes/posts.py:36-37 | the window holds at most `limit` rows; it holds `min(limit, n - skip)` rows, or none once `skip` passes the end; its i-th row is table row `skip + i` |
| Listing.FilterAppend | backend/app/api/routes/posts.py:63 | a row added at the end of the table is added at the end of a filter's output exactly when it satisfies the condition |
| Listing.FilterNoDuplicates | backend/app/api/routes/posts.py:33-35 | filtering a table without duplicate rows gives no duplicate rows |
| Listing.CardOfNoDuplicates | backend/app/api/routes/posts.py:27-32 | a row sequence without duplicates has as many distinct rows as positions, so a row count is a set size |
| Listing.CountOfFilter | backend/app/api/routes/posts.py:27-32 | `COUNT(*) ... WHERE` over a table without duplicates is the number of distinct rows satisfying the condition |
| Listing.OffsetLimitSplit | backend/app/api/routes/posts.py:36-37 | the window at `skip` of size `a`, followed by the window at `skip + a` of size `b`, is the window at `skip` of size `a + b` |
| Posts.AuthoredBy | backend/app/api/routes/posts.py:30-35 | the condition `Post.author_id == current_user.id` keeps exactly the posts the user wrote; `Posts.UserReadsOwnPosts` counts them |
| Posts.ReadPosts | backend/app/api/routes/posts.py:13-41 | `len(data) <= limit` and `count` is at most the table size; every returned post is in the table, and it is the caller's own unless the caller is a superuser |
| Posts.ReadPostsIsWindowOfVisible | backend/app/api/routes/posts.py:21-39 | both branches return the `skip`/`limit` window of the caller's visible posts, with `count` the number of visible posts |
| Posts.SuperuserReadsAllPosts | backend/app/api/routes/posts.py:21-25 | for a superuser, `count` is the table size and `data` is table rows `skip`, `skip + 1`, ..., as many as the limit and the table allow |
| Posts.UserReadsOwnPosts | backend/app/api/routes/posts.py:27-39 | for any other caller, every returned post has `author_id == current_user.id` and `count` is the number of the caller's posts in the table |
| Posts.ReadPostsDefaults | backend/app/api/routes/posts.py:14-15 | with the default `skip = 0` and `limit = 100`, the result is the first 100 visible posts at most, with `count` the number of visible posts |
| Posts.PostCountIgnoresWindow | backend/app/api/routes/posts.py:22-37 | `count` is the same for every `skip` and `limit` |
| Posts.Find | backend/app/api/routes/posts.py:48 | `session.get` finds a row whose id is the requested one, and finds none exactly when no row has that id |
| Posts.ReadPost | backend/app/api/routes/posts.py:43-53 | 404 "Post not found" exactly when no post has the id, checked before permissions; any other failure is 400 "Not enough permissions"; success returns a stored post with that id that the caller authored or may see as a superuser |
| Posts.ReadExistingPost | backend/app/api/routes/posts.py:51-53 | for a stored post, `read_post` fails with 400 exactly when the caller is neither a superuser nor the author, and otherwise returns that post |
| Posts.Get | backend/app/api/routes/posts.py:80 | the `title` and `content` entries of `post.dict()` are values an update may carry, while `id` and `author_id` are not; `Posts.PostFromFields` shows the dictionary determines the post |
| Posts.Setattr | backend/app/api/routes/posts.py:84 | `setattr` gives the named field the new value and leaves every other field as it was |
| Posts.PatchFieldsAt | backend/app/api/routes/posts.py:82-84 | after the loop has visited some fields, a visited field set by the update holds the update's value; every other field holds its old value |
| Posts.PatchFields | backend/app/api/routes/posts.py:82-84 | however many fields the loop has visited, the post keeps its id and author; `Posts.PatchFieldsAt` gives the value of every field |
| Posts.Patch | backend/app/api/routes/posts.py:80-84 | the whole loop keeps the post's id and author; `Posts.PatchOverwritesSetFields` and `Posts.PatchIgnoresUnknownKeys` state the rest |
| Posts.PatchOverwritesSetFields | backend/app/api/routes/posts.py:80-84 | the update overwrites exactly the post's fields present in the update; id and author are unchanged |
| Posts.PatchIgnoresUnknownKeys | backend/app/api/routes/posts.py:81-84 | two updates that agree on the post's fields give the same post: keys that are not fields of a post have no effect |
| Posts.VisibleAfterCreate | backend/app/api/routes/posts.py:62-63 | a created post joins, at the end, the lists of superusers and of its author, and no other caller's list changes |
| Posts.PostTable.CreatePost | backend/app/api/routes/posts.py:55-66 | appends exactly one post built from `post_in` with the caller as author; existing posts are unchanged and ids stay distinct |
| Posts.PostTable.UpdatePost | backend/app/api/routes/posts.py:68-88 | fails exactly as `read_post` fails, with the same error and no change; on success only the found post changes, to the patched post, which is returned; ids stay distinct |
| JobRoles.OwnedBy | backend/app/api/routes/job_roles.py:30-35 | the condition `JobRole.owner_id == current_user.id` keeps exactly the roles the user owns, and no user's condition keeps a role with a null owner |
| JobRoles.ReadJobRoles | backend/app/api/routes/job_roles.py:13-41 | `len(data) <= limit` and `count` is at most the table size; every returned role is in the table, and it is owned by the caller unless the caller is a superuser |
| JobRoles.ReadJobRolesIsWindowOfVisible | backend/app/api/routes/job_roles.py:21-39 | both branches return the `skip`/`limit` window of the caller's visible roles, with `count` the number of visible roles |
| JobRoles.SuperuserReadsAllJobRoles | backend/app/api/routes/job_roles.py:21-25 | for a superuser, `count` is the table size and `data` is table rows `skip`, `skip + 1`, ..., as many as the limit and the table allow |
| JobRoles.UserReadsOwnJobRoles | backend/app/api/routes/job_roles.py:26-39 | for any other caller, every returned role has `owner_id == current_user.id` and `count` is the number of such roles in the table |
| JobRoles.ReadJobRolesDefaults | backend/app/api/routes/job_roles.py:14-15 | with the default `skip = 0` and `limit = 100`, the result is the first 100 visible roles at most, with `count` the number of visible roles |
| JobRoles.JobRoleCountIgnoresWindow | backend/app/api/routes/job_roles.py:22-37 | `count` is the same for every `skip` and `limit` |
| JobRoles.VisibleAfterCreate | backend/app/api/routes/job_roles.py:51 | a role without an owner joins the superusers' lists only, so a non-superuser never lists a role created through the API |
| JobRoles.JobRoleTable.CreateJobRole | backend/app/api/routes/job_roles.py:44-55 | appends exactly one role built from `job_role_in` alone, with no owner; the caller is not recorded; existing roles are unchanged and ids stay distinct |
| Pagination.ParsePage | frontend/src/routes/_layout/jobRoles.tsx:26-28 | the parsed page is the one whose navigation wrote the value, or the value is not a number and the page is 1 |
| Pagination.ParsePageRoundTrip | frontend/src/routes/_layout/jobRoles.tsx:26-28 | a number written by `setPage` parses back unchanged, including 0 and negatives; a non-number parses to 1 |
| Pagination.QueryOptionsFor | frontend/src/routes/_layout/jobRoles.tsx:37-43 | the key is `[entity, {page}]`, the request asks for `PER_PAGE` rows, and its window ends after `page * PER_PAGE` rows |
| Pagination.RequestShape | frontend/src/routes/_layout/jobRoles.tsx:35-42 | each request asks for `PER_PAGE` rows; page 1 starts at `skip = 0`; `skip` is non-negative for every page from 1 on |
| Pagination.PagesAdjacent | frontend/src/routes/_layout/jobRoles.tsx:40 | `skip(page + 1) == skip(page) + limit`: consecutive windows are adjacent |
| Pagination.PagesDisjoint | frontend/src/routes/_layout/jobRoles.tsx:40 | the windows of two different pages do not overlap |
| Pagination.WindowsTile | frontend/src/routes/_layout/jobRoles.tsx:40 | the rows of pages 1 to `n - 1` followed by page `n`'s window are the first `n * PER_PAGE` rows |
| Pagination.KeysDistinct | frontend/src/routes/_layout/jobRoles.tsx:41 | distinct pages, or distinct entities, have distinct cache keys |
| Pagination.HasNextPage | frontend/src/routes/_layout/jobRoles.tsx:61 | a placeholder result, or no result, never has a next page; a next page exists only after a full page |
| Pagination.HasPreviousPage | frontend/src/routes/_layout/jobRoles.tsx:62 | from page 1 on, there is a previous page exactly when the page is not the first, and that previous page is itself at least 1 |
| Pagination.ControlsFor | frontend/src/routes/_layout/jobRoles.tsx:61-120 | Previous targets `page - 1` and Next targets `page + 1`; Next is enabled only on a full, non-placeholder result; the prefetch is issued exactly when Next is enabled and asks for the page Next leads to; from page 1 on, Previous is disabled exactly when there is no previous page |
| Pagination.NextFollowsHasNextPage | frontend/src/routes/_layout/jobRoles.tsx:61-68 | Next is enabled, and the next page is prefetched, exactly when `hasNextPage` holds |
| Pagination.PreviousBelowFirstPage | frontend/src/routes/_layout/jobRoles.tsx:108-109 | below page 1, `hasPreviousPage` is false while Previous is enabled and leads to a lower page: the two conditions agree only from page 1 on |
| JobRolesPage.ReadPage | frontend/src/routes/_layout/jobRoles.tsx:35-42 | the job roles page `page` shows the window of ten visible roles starting at `(page - 1) * 10`, and `count` is the number of visible roles |
| JobRolesPage.BrowsingShowsVisibleInOrder | frontend/src/routes/_layout/jobRoles.tsx:40 | pages 1 to n together show the first `10 * n` visible roles in table order, none skipped or repeated, when every page is read from one unchanged table in one row order |
| JobRolesPage.BrowsingEnoughPagesShowsAll | frontend/src/routes/_layout/jobRoles.tsx:40 | enough pages together show every visible role, under the same assumption |
| JobRolesPage.ShortPageDisablesNext | frontend/src/routes/_layout/jobRoles.tsx:61 | a page with fewer than ten roles disables Next, and the page after it, read from the same table in the same order, is empty |
| JobRolesPage.FullPagePrefetchesNext | frontend/src/routes/_layout/jobRoles.tsx:64-68 | a full page enables Next, and the prefetch has key `("job-roles", page + 1)` and asks for `skip = 10 * page`, `limit = 10`, the request whose backend answer is exactly page `page + 1` |
| JobRolesPage.ControlsExamples | frontend/src/routes/_layout/jobRoles.tsx:107-120 | page 1 with ten roles: Previous disabled, Next enabled; page 2 with three roles: Previous enabled, Next disabled |
| PostsPage.ReadPage | frontend/src/routes/_layout/posts.tsx:36-42 | the posts page `page` shows the window of five visible posts starting at `(page - 1) * 5`, and `count` is the number of visible posts |
| PostsPage.BrowsingShowsVisibleInOrder | frontend/src/routes/_layout/posts.tsx:39 | pages 1 to n together show the first `5 * n` visible posts in table order, none skipped or repeated, when every page is read from one unchanged table in one row order |
| PostsPage.BrowsingEnoughPagesShowsAll | frontend/src/routes/_layout/posts.tsx:39 | enough pages together show every visible post, under the same assumption |
| PostsPage.ShortPageDisablesNext | frontend/src/routes/_layout/posts.tsx:60 | a page with fewer than five posts disables Next, and the page after it, read from the same table in the same order, is empty |
| PostsPage.FullPagePrefetchesNext | frontend/src/routes/_layout/posts.tsx:63-67 | a full page enables Next, and the prefetch has key `("posts", page + 1)` and asks for `skip = 5 * page`, `limit = 5`, the request whose backend answer is exactly page `page + 1` |

## Left out

- The database session, `commit` and `refresh`: a table is a sequence of rows, in the order the database returns them. The queries have no `ORDER BY`, so the real order is the database's.
- Concurrent changes and unstable row order between requests: each page is a separate request, and within one request the count and the select are separate statements. The browsing lemmas (`BrowsingShowsVisibleInOrder`, `BrowsingEnoughPagesShowsAll`, `ShortPageDisablesNext`, `FullPagePrefetchesNext` in both page modules) read every page from one unchanged `rows` in one order. They say nothing about a table that changes between requests or a database that returns rows in a different order each time.
- Negative `skip` or `limit`: both are natural numbers here. The backend passes them straight to `OFFSET` and `LIMIT`; with a database such as PostgreSQL, which refuses a negative `OFFSET` or `LIMIT`, such a request fails. That failure is not modelled.
- Posts.ReadPosts: `skip` and `limit` are unbounded natural numbers here. PostgreSQL takes `OFFSET` and `LIMIT` as 64-bit integers, so a value beyond that range fails there as a negative one does, while the model returns an empty or shorter window.
- JobRoles.ReadJobRoles: the same 64-bit bound on `skip` and `limit` applies and is not modelled.
- JobRolesPage.ReadPage: requires `page >= 1`. Pages 0 and below are reachable: `?page=0` parses to 0 (`Pagination.ParsePageRoundTrip`), and below page 1 Previous stays enabled (`Pagination.PreviousBelowFirstPage`). Such a page sends a negative `skip` to the backend, and what the backend answers is not modelled.
- PostsPage.ReadPage: requires `page >= 1`. Pages 0 and below are reachable in the same way as for job roles, and the backend then receives a negative `skip`; that answer is not modelled.
- UUID generation: a new row's id is a parameter, required to be new to the table. Ids are natural numbers that are only compared.
- Authentication (`CurrentUser`, `SessionDep`): the caller is a plain parameter.
- The `Post`, `PostCreate`, `PostUpdate`, `JobRole` and `JobRoleCreate` schema classes are not part of this model. Their fields are taken as follows: posts have id, title, optional content and author; job roles have id, name, optional description and a nullable owner.
- Posts.PostTable.UpdatePost: requires `UpdateFits`. This encodes what the update schema's validation is taken to guarantee: `title` is a string, `content` is a string or null, and `id` and `author_id` are never set. An explicit null title is not modelled.
- Posts.PostTable.UpdatePost: `setattr` on the session-tracked post object is modelled as replacing that row's value in the table. Aliasing between the returned object and the stored row is not modelled.
- Posts.Find: with duplicate ids it would return the last match. The table invariant rules duplicates out, as the primary key does.
- Validation of create bodies (a non-empty name or title) belongs to the schema classes and is not modelled.
- The `page` search value is an integer or "not a number". Non-integer numbers, `NaN` and infinities are not modelled. Nor is the width of a JavaScript number: `page` is an IEEE double, exact only for integers up to 2^53 in magnitude, and `?page=9007199254740992` parses to that value. Beyond that bound `page + 1`, `page - 1` and the skip `(page - 1) * PER_PAGE` round, while the model computes on unbounded integers.
- Pagination.PagesAdjacent: holds of the source only for pages of magnitude below 2^53. At page 2^53, `page + 1 === page` in JavaScript, so Next leads back to the same page and the windows do not advance. `Pagination.PagesDisjoint`, `Pagination.WindowsTile`, the targets in `Pagination.ControlsFor` and both browsing lemmas hold under the same bound.
- Pagination.PreviousBelowFirstPage: `c.previousTarget < view.page` holds of the source only above -2^53; at page -2^53, `page - 1 === page`.
- React rendering, Chakra components, placeholder rows and headings.
- TanStack Query and Router internals: caching, `placeholderData`, the actual prefetch and navigation. Only their inputs are modelled: the key, the `skip`/`limit` request and the target page. Whether a result is placeholder data is an input.
- frontend/src/components/Items/AddJobRole.tsx is not part of this model. Its cache invalidation uses key `["jobRoles"]` while the list caches under `["job-roles", {page}]`. This is noted in `JobRolesPage`.
- backend/app/api/main.py (router prefixes) is not part of this model.
