/**
 * The job-roles router: list job roles, with the same superuser-or-owner
 * visibility rule as posts, and create a job role. The `JobRole` table is an
 * in-memory sequence of rows held by a `JobRoleTable`.
 */
module JobRoles {
  import opened Wrappers
  import opened Listing

  /**
   * A stored job role. `ownerId` is nullable: the create route does not set
   * it, so a role created through the API has no owner.
   */
  datatype JobRole = JobRole(id: Uuid, name: string, description: Option<string>, ownerId: Option<Uuid>)

  /** The body of a create request. */
  datatype JobRoleCreate = JobRoleCreate(name: string, description: Option<string>)

  /** The primary-key invariant of the table. */
  predicate DistinctIds(rows: seq<JobRole>)
  {
    DistinctKeys(rows, (role: JobRole) => role.id)
  }

  /**
   * The `WHERE owner_id = uid` condition: it keeps exactly the roles `uid`
   * owns, and a role with a null owner is kept by no user's condition.
   */
  function OwnedBy(uid: Uuid): (keep: JobRole -> bool)
    ensures forall role :: keep(role) <==> role.ownerId.Some? && role.ownerId.value == uid
    ensures forall role: JobRole :: role.ownerId.None? ==> !keep(role)
  {
    (role: JobRole) => role.ownerId == Some(uid)
  }

  /** The job roles `caller` may see: all of them for a superuser, otherwise the ones it owns. */
  function VisibleJobRoles(rows: seq<JobRole>, caller: User): seq<JobRole>
  {
    if caller.isSuperuser then rows else Filter(rows, OwnedBy(caller.id))
  }

  // ---------------------------------------------------------------------------
  // read_job_roles

  function ReadJobRoles(rows: seq<JobRole>, caller: User, skip: nat, limit: nat): (r: ListPage<JobRole>)
    ensures |r.data| <= limit && r.count <= |rows|
    ensures forall role :: role in r.data ==> role in rows && (caller.isSuperuser || role.ownerId == Some(caller.id))
  {
    if caller.isSuperuser then
      ListPage(OffsetLimit(rows, skip, limit), |rows|)
    else
      var own := Filter(rows, OwnedBy(caller.id));
      ListPage(OffsetLimit(own, skip, limit), |own|)
  }

  /** Both branches of `read_job_roles` are one window over the caller's visible roles. */
  lemma ReadJobRolesIsWindowOfVisible(rows: seq<JobRole>, caller: User, skip: nat, limit: nat)
    ensures ReadJobRoles(rows, caller, skip, limit)
         == ListPage(OffsetLimit(VisibleJobRoles(rows, caller), skip, limit), |VisibleJobRoles(rows, caller)|)
  {
  }

  /** A superuser gets the rows `skip`, `skip + 1`, ... of the whole table, and the table's size. */
  lemma SuperuserReadsAllJobRoles(rows: seq<JobRole>, caller: User, skip: nat, limit: nat)
    requires caller.isSuperuser
    ensures var r := ReadJobRoles(rows, caller, skip, limit);
      && r.count == |rows|
      && |r.data| == (if skip <= |rows| then Min(limit, |rows| - skip) else 0)
      && forall i :: 0 <= i < |r.data| ==> r.data[i] == rows[skip + i]
  {
  }

  /**
   * Any other caller gets only roles it owns, and `count` is the number of
   * roles in the table that it owns.
   */
  lemma UserReadsOwnJobRoles(rows: seq<JobRole>, caller: User, skip: nat, limit: nat)
    requires DistinctIds(rows) && !caller.isSuperuser
    ensures var r := ReadJobRoles(rows, caller, skip, limit);
      && (forall role :: role in r.data ==> role.ownerId == Some(caller.id))
      && r.count == |set role | role in rows && role.ownerId == Some(caller.id)|
  {
    CountOfFilter(rows, OwnedBy(caller.id), set role | role in rows && role.ownerId == Some(caller.id));
  }

  /**
   * A request without query parameters gets the first 100 visible roles at
   * most, starting at the first one, and the full visible count.
   */
  lemma ReadJobRolesDefaults(rows: seq<JobRole>, caller: User)
    ensures ReadJobRoles(rows, caller, DefaultSkip, DefaultLimit)
         == ListPage(OffsetLimit(VisibleJobRoles(rows, caller), 0, 100), |VisibleJobRoles(rows, caller)|)
  {
  }

  /** `count` is computed before the window is applied, so `skip` and `limit` do not change it. */
  lemma JobRoleCountIgnoresWindow(rows: seq<JobRole>, caller: User, skip1: nat, limit1: nat, skip2: nat, limit2: nat)
    ensures ReadJobRoles(rows, caller, skip1, limit1).count == ReadJobRoles(rows, caller, skip2, limit2).count
  {
  }

  /**
   * A role without an owner -- every role `create_job_role` makes -- is added
   * to the superusers' lists only; every other caller's list is unchanged.
   */
  lemma VisibleAfterCreate(rows: seq<JobRole>, role: JobRole, viewer: User)
    requires role.ownerId.None?
    ensures VisibleJobRoles(rows + [role], viewer)
         == VisibleJobRoles(rows, viewer) + (if viewer.isSuperuser then [role] else [])
  {
    if !viewer.isSuperuser {
      FilterAppend(rows, role, OwnedBy(viewer.id));
    }
  }

  // ---------------------------------------------------------------------------
  // The table and create_job_role

  class JobRoleTable {
    var rows: seq<JobRole>

    ghost predicate Valid()
      reads this
    {
      DistinctIds(rows)
    }

    constructor (initial: seq<JobRole>)
      requires DistinctIds(initial)
      ensures Valid() && rows == initial
    {
      rows := initial;
    }

    /**
     * `create_job_role`: one new row built from `roleIn` alone. The caller is
     * authenticated but not recorded: the new role has no owner. `newId` is
     * the id the database generates; it is new to the table.
     */
    method CreateJobRole(caller: User, roleIn: JobRoleCreate, newId: Uuid) returns (role: JobRole)
      requires Valid()
      requires forall r :: r in rows ==> r.id != newId
      modifies this
      ensures Valid()
      ensures role == JobRole(newId, roleIn.name, roleIn.description, None)
      ensures rows == old(rows) + [role]
    {
      role := JobRole(newId, roleIn.name, roleIn.description, None);
      rows := rows + [role];
    }
  }
}
