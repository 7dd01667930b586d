/**
 * The posts router: list, read, create and update posts, with access limited
 * to a post's author unless the caller is a superuser. The `Post` table is an
 * in-memory sequence of rows held by a `PostTable`.
 */
module Posts {
  import opened Wrappers
  import opened Listing

  /** A stored post. `authorId` is the user who created it. */
  datatype Post = Post(id: Uuid, title: string, content: Option<string>, authorId: Uuid)

  /** The body of a create request. */
  datatype PostCreate = PostCreate(title: string, content: Option<string>)

  /** A field value as it appears in a post's or an update's dictionary. */
  datatype Value = Text(s: string) | Null | Ref(uuid: Uuid)

  /**
   * The fields explicitly set in an update request (`exclude_unset=True`),
   * by name. A key that names no field of a post is carried but never applied.
   */
  type PostUpdate = map<string, Value>

  const PostNotFound := HttpError(404, "Post not found")
  const NotEnoughPermissions := HttpError(400, "Not enough permissions")

  /** The keys of a post's dictionary, in the order the update loop visits them. */
  const PostFields: seq<string> := ["id", "title", "content", "author_id"]

  /** The primary-key invariant of the table. */
  predicate DistinctIds(rows: seq<Post>)
  {
    DistinctKeys(rows, (p: Post) => p.id)
  }

  /** The `WHERE author_id = uid` condition: it keeps exactly the posts `uid` wrote. */
  function AuthoredBy(uid: Uuid): (keep: Post -> bool)
    ensures forall p :: keep(p) <==> p.authorId == uid
  {
    (p: Post) => p.authorId == uid
  }

  /** The posts `caller` may see: all of them for a superuser, otherwise its own. */
  function VisiblePosts(rows: seq<Post>, caller: User): seq<Post>
  {
    if caller.isSuperuser then rows else Filter(rows, AuthoredBy(caller.id))
  }

  // ---------------------------------------------------------------------------
  // read_posts

  function ReadPosts(rows: seq<Post>, caller: User, skip: nat, limit: nat): (r: ListPage<Post>)
    ensures |r.data| <= limit && r.count <= |rows|
    ensures forall p :: p in r.data ==> p in rows && (caller.isSuperuser || p.authorId == caller.id)
  {
    if caller.isSuperuser then
      ListPage(OffsetLimit(rows, skip, limit), |rows|)
    else
      var own := Filter(rows, AuthoredBy(caller.id));
      ListPage(OffsetLimit(own, skip, limit), |own|)
  }

  /** Both branches of `read_posts` are one window over the caller's visible posts. */
  lemma ReadPostsIsWindowOfVisible(rows: seq<Post>, caller: User, skip: nat, limit: nat)
    ensures ReadPosts(rows, caller, skip, limit)
         == ListPage(OffsetLimit(VisiblePosts(rows, caller), skip, limit), |VisiblePosts(rows, caller)|)
  {
  }

  /** A superuser gets the rows `skip`, `skip + 1`, ... of the whole table, and the table's size. */
  lemma SuperuserReadsAllPosts(rows: seq<Post>, caller: User, skip: nat, limit: nat)
    requires caller.isSuperuser
    ensures var r := ReadPosts(rows, caller, skip, limit);
      && r.count == |rows|
      && |r.data| == (if skip <= |rows| then Min(limit, |rows| - skip) else 0)
      && forall i :: 0 <= i < |r.data| ==> r.data[i] == rows[skip + i]
  {
  }

  /**
   * Any other caller gets only posts it authored, and `count` is the number of
   * posts in the table that it authored.
   */
  lemma UserReadsOwnPosts(rows: seq<Post>, caller: User, skip: nat, limit: nat)
    requires DistinctIds(rows) && !caller.isSuperuser
    ensures var r := ReadPosts(rows, caller, skip, limit);
      && (forall p :: p in r.data ==> p.authorId == caller.id)
      && r.count == |set p | p in rows && p.authorId == caller.id|
  {
    CountOfFilter(rows, AuthoredBy(caller.id), set p | p in rows && p.authorId == caller.id);
  }

  /**
   * A request without query parameters gets the first 100 visible posts at
   * most, starting at the first one, and the full visible count.
   */
  lemma ReadPostsDefaults(rows: seq<Post>, caller: User)
    ensures ReadPosts(rows, caller, DefaultSkip, DefaultLimit)
         == ListPage(OffsetLimit(VisiblePosts(rows, caller), 0, 100), |VisiblePosts(rows, caller)|)
  {
  }

  /** `count` is computed before the window is applied, so `skip` and `limit` do not change it. */
  lemma PostCountIgnoresWindow(rows: seq<Post>, caller: User, skip1: nat, limit1: nat, skip2: nat, limit2: nat)
    ensures ReadPosts(rows, caller, skip1, limit1).count == ReadPosts(rows, caller, skip2, limit2).count
  {
  }

  // ---------------------------------------------------------------------------
  // read_post

  /** `session.get(Post, id)`: the position of the row with that primary key, if any. */
  function Find(rows: seq<Post>, id: Uuid): (r: Option<nat>)
    ensures r.Some? ==> r.value < |rows| && rows[r.value].id == id
    ensures r.None? <==> forall p :: p in rows ==> p.id != id
  {
    if rows == [] then None
    else if rows[|rows| - 1].id == id then Some(|rows| - 1)
    else
      assert rows == rows[..|rows| - 1] + [rows[|rows| - 1]];
      Find(rows[..|rows| - 1], id)
  }

  /** The 404 check comes first; the 400 check applies only to a post that exists. */
  function ReadPost(rows: seq<Post>, caller: User, id: Uuid): (r: Result<Post>)
    ensures r == Err(PostNotFound) <==> forall p :: p in rows ==> p.id != id
    ensures r.Ok? ==> r.value in rows && r.value.id == id
                      && (caller.isSuperuser || r.value.authorId == caller.id)
    ensures r.Err? ==> r.error in {PostNotFound, NotEnoughPermissions}
  {
    match Find(rows, id)
    case None => Err(PostNotFound)
    case Some(i) =>
      if !caller.isSuperuser && rows[i].authorId != caller.id then Err(NotEnoughPermissions)
      else Ok(rows[i])
  }

  /**
   * For a post that exists, `read_post` fails with 400 exactly when the caller
   * is neither a superuser nor the author, and otherwise returns that post.
   */
  lemma ReadExistingPost(rows: seq<Post>, caller: User, p: Post)
    requires DistinctIds(rows) && p in rows
    ensures ReadPost(rows, caller, p.id)
         == if !caller.isSuperuser && p.authorId != caller.id then Err(NotEnoughPermissions) else Ok(p)
  {
    var i := Find(rows, p.id).value;
    var k :| 0 <= k < |rows| && rows[k] == p;
    assert rows[i].id == rows[k].id;
  }

  // ---------------------------------------------------------------------------
  // update_post: the field dictionary of a post and `setattr` on it

  /**
   * `post.dict()[field]`. The values of `title` and `content` are ones an
   * update may carry; the values of `id` and `author_id` are not.
   */
  function Get(p: Post, field: string): (v: Value)
    requires field in PostFields
    ensures Fits(field, v) <==> field == "title" || field == "content"
  {
    if field == "id" then Ref(p.id)
    else if field == "title" then Text(p.title)
    else if field == "content" then (if p.content.Some? then Text(p.content.value) else Null)
    else Ref(p.authorId)
  }

  /**
   * Whether an update may carry `v` for `field`: the update schema declares
   * `title` (a string) and `content` (a string or null), and neither `id`
   * nor `author_id`. Keys that are not fields of a post may carry anything.
   */
  predicate Fits(field: string, v: Value)
  {
    if field == "title" then v.Text?
    else if field == "content" then !v.Ref?
    else field !in PostFields
  }

  predicate UpdateFits(update: PostUpdate)
  {
    forall field :: field in update ==> Fits(field, update[field])
  }

  /** `setattr(post, field, v)`. */
  function Setattr(p: Post, field: string, v: Value): (q: Post)
    requires field in PostFields && Fits(field, v)
    ensures Get(q, field) == v
    ensures forall other :: other in PostFields && other != field ==> Get(q, other) == Get(p, other)
  {
    if field == "title" then p.(title := v.s)
    else p.(content := if v.Text? then Some(v.s) else None)
  }

  /** The post after the loop has visited `fields`, in order; its id and author never change. */
  function PatchFields(p: Post, update: PostUpdate, fields: seq<string>): (q: Post)
    requires UpdateFits(update) && forall f :: f in fields ==> f in PostFields
    ensures q.id == p.id && q.authorId == p.authorId
  {
    if fields == [] then p
    else
      var q := PatchFields(p, update, fields[..|fields| - 1]);
      var field := fields[|fields| - 1];
      if field in update then Setattr(q, field, update[field]) else q
  }

  /** The post after the whole update loop: the same post, with the same id and author. */
  function Patch(p: Post, update: PostUpdate): (q: Post)
    requires UpdateFits(update)
    ensures q.id == p.id && q.authorId == p.authorId
  {
    PatchFields(p, update, PostFields)
  }

  /** After visiting `fields`, a visited field holds the update's value if the update sets it. */
  lemma {:induction false} PatchFieldsAt(p: Post, update: PostUpdate, fields: seq<string>, field: string)
    requires UpdateFits(update) && forall f :: f in fields ==> f in PostFields
    requires field in PostFields
    ensures Get(PatchFields(p, update, fields), field)
         == if field in fields && field in update then update[field] else Get(p, field)
  {
    if fields != [] {
      var init := fields[..|fields| - 1];
      assert fields == init + [fields[|fields| - 1]];
      PatchFieldsAt(p, update, init, field);
    }
  }

  /** A post is determined by its field dictionary. */
  lemma PostFromFields(a: Post, b: Post)
    requires forall f :: f in PostFields ==> Get(a, f) == Get(b, f)
    ensures a == b
  {
    assert Get(a, "id") == Get(b, "id");
    assert Get(a, "title") == Get(b, "title");
    assert Get(a, "content") == Get(b, "content");
    assert Get(a, "author_id") == Get(b, "author_id");
  }

  /**
   * The update overwrites exactly the fields it sets; every other field, and
   * in particular the post's id and author, keeps its value.
   */
  lemma PatchOverwritesSetFields(p: Post, update: PostUpdate)
    requires UpdateFits(update)
    ensures forall f :: f in PostFields ==>
      Get(Patch(p, update), f) == if f in update then update[f] else Get(p, f)
    ensures Patch(p, update).id == p.id && Patch(p, update).authorId == p.authorId
  {
    forall f | f in PostFields
      ensures Get(Patch(p, update), f) == if f in update then update[f] else Get(p, f)
    {
      PatchFieldsAt(p, update, PostFields, f);
    }
    assert Get(Patch(p, update), "id") == Get(p, "id");
    assert Get(Patch(p, update), "author_id") == Get(p, "author_id");
  }

  /** Keys that are not fields of a post have no effect on the update. */
  lemma PatchIgnoresUnknownKeys(p: Post, update1: PostUpdate, update2: PostUpdate)
    requires UpdateFits(update1) && UpdateFits(update2)
    requires forall f :: f in PostFields ==> (f in update1 <==> f in update2)
    requires forall f :: f in PostFields && f in update1 ==> update1[f] == update2[f]
    ensures Patch(p, update1) == Patch(p, update2)
  {
    PatchOverwritesSetFields(p, update1);
    PatchOverwritesSetFields(p, update2);
    PostFromFields(Patch(p, update1), Patch(p, update2));
  }

  /** Creating a post adds it to the lists of exactly the callers allowed to see it. */
  lemma VisibleAfterCreate(rows: seq<Post>, post: Post, viewer: User)
    ensures VisiblePosts(rows + [post], viewer)
         == VisiblePosts(rows, viewer) + (if viewer.isSuperuser || post.authorId == viewer.id then [post] else [])
  {
    if !viewer.isSuperuser {
      FilterAppend(rows, post, AuthoredBy(viewer.id));
    }
  }

  // ---------------------------------------------------------------------------
  // The table and the two routes that change it

  class PostTable {
    var rows: seq<Post>

    ghost predicate Valid()
      reads this
    {
      DistinctIds(rows)
    }

    constructor (initial: seq<Post>)
      requires DistinctIds(initial)
      ensures Valid() && rows == initial
    {
      rows := initial;
    }

    /**
     * `create_post`: one new row built from `postIn` with the caller as author.
     * `newId` is the id the database generates; it is new to the table.
     */
    method CreatePost(caller: User, postIn: PostCreate, newId: Uuid) returns (post: Post)
      requires Valid()
      requires forall p :: p in rows ==> p.id != newId
      modifies this
      ensures Valid()
      ensures post == Post(newId, postIn.title, postIn.content, caller.id)
      ensures rows == old(rows) + [post]
    {
      post := Post(newId, postIn.title, postIn.content, caller.id);
      rows := rows + [post];
    }

    /**
     * `update_post`: the same 404-then-400 checks as `read_post`; on success
     * the stored post gets the update's fields and no other row changes.
     */
    method UpdatePost(caller: User, id: Uuid, postIn: PostUpdate) returns (r: Result<Post>)
      requires Valid() && UpdateFits(postIn)
      modifies this
      ensures Valid()
      ensures r.Err? <==> ReadPost(old(rows), caller, id).Err?
      ensures r.Err? ==> r == ReadPost(old(rows), caller, id) && rows == old(rows)
      ensures r.Ok? ==> Find(old(rows), id).Some?
                        && r.value == Patch(old(rows)[Find(old(rows), id).value], postIn)
                        && rows == old(rows)[Find(old(rows), id).value := r.value]
    {
      var found := Find(rows, id);
      if found.None? {
        return Err(PostNotFound);
      }
      var i := found.value;
      if !caller.isSuperuser && rows[i].authorId != caller.id {
        return Err(NotEnoughPermissions);
      }
      for k := 0 to |PostFields|
        invariant rows == old(rows)[i := PatchFields(old(rows)[i], postIn, PostFields[..k])]
      {
        var field := PostFields[k];
        assert PostFields[..k + 1] == PostFields[..k] + [field];
        if field in postIn {
          rows := rows[i := Setattr(rows[i], field, postIn[field])];
        }
      }
      assert PostFields[..|PostFields|] == PostFields;
      PatchOverwritesSetFields(old(rows)[i], postIn);
      r := Ok(rows[i]);
    }
  }
}
