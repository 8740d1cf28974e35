/** The `users` table: the closed role enumeration, the stored row, and the
    column constraints the database enforces. */
module UserModel {
  import opened Wrappers

  /** The closed set of roles; a value of this type is always one of the three. */
  datatype Role = SuperAdmin | Editor | Subscriber

  /** The enum member's `.value`, which login writes into a token's `role`
      claim. (The database column stores the member's name instead.) */
  function RoleValue(r: Role): (v: string)
    ensures v in {"super_admin", "editor", "subscriber"}
  {
    match r
    case SuperAdmin => "super_admin"
    case Editor => "editor"
    case Subscriber => "subscriber"
  }

  /** Looking a member up by value, `UserRole(v)`; None stands for the ValueError. */
  function RoleFromValue(v: string): (r: Option<Role>)
    ensures r.Some? <==> v in {"super_admin", "editor", "subscriber"}
    ensures r.Some? ==> RoleValue(r.value) == v
  {
    if v == "super_admin" then Some(SuperAdmin)
    else if v == "editor" then Some(Editor)
    else if v == "subscriber" then Some(Subscriber)
    else None
  }

  /** Looking a member up by attribute name, `UserRole.NAME`; member names are
      upper case and None stands for the AttributeError. */
  function RoleMember(name: string): (r: Option<Role>)
    ensures r.Some? <==> name in {"SUPER_ADMIN", "EDITOR", "SUBSCRIBER"}
    ensures r == Some(Subscriber) <==> name == "SUBSCRIBER"
  {
    if name == "SUPER_ADMIN" then Some(SuperAdmin)
    else if name == "EDITOR" then Some(Editor)
    else if name == "SUBSCRIBER" then Some(Subscriber)
    else None
  }

  lemma RoleValueRoundTrip(r: Role)
    ensures RoleFromValue(RoleValue(r)) == Some(r)
  {
  }

  /** Width of the `password_hash` column, String(255). */
  const MaxHashLength: nat := 255

  /** A stored row. `email` is NOT NULL, `full_name` nullable, `role` NOT NULL.
      The created_at/updated_at timestamps are not part of this model. */
  datatype User = User(
    id: int,
    email: string,
    fullName: Option<string>,
    passwordHash: string,
    role: Role,
    isActive: bool)

  /** An ORM object built with `User(...)` and not yet flushed: it has no id
      yet, and the column defaults fill what the caller leaves out. */
  datatype NewUser = NewUser(
    email: string,
    passwordHash: string,
    fullName: Option<string> := None,
    role: Role := Subscriber,
    isActive: bool := true)

  /** The row a flush writes for `u` when the id sequence hands out `id`. */
  function Stored(u: NewUser, id: int): (row: User)
    ensures row.id == id && row.email == u.email && row.fullName == u.fullName
    ensures row.passwordHash == u.passwordHash && row.role == u.role && row.isActive == u.isActive
  {
    User(id, u.email, u.fullName, u.passwordHash, u.role, u.isActive)
  }

  /** A user built without role, is_active or full_name gets subscriber, active, NULL. */
  lemma ColumnDefaults(email: string, hash: string)
    ensures NewUser(email, hash).role == Subscriber
    ensures NewUser(email, hash).isActive
    ensures NewUser(email, hash).fullName == None
  {
  }

  /** Whether some row already carries `email`. */
  predicate EmailTaken(rows: seq<User>, email: string) {
    exists k :: 0 <= k < |rows| && rows[k].email == email
  }

  /** What the table guarantees at all times: ids are handed out by an
      ascending sequence starting at 1 (so they are unique and below
      `nextId`), no two rows share an email, every hash fits its column. */
  ghost predicate TableInvariant(rows: seq<User>, nextId: int) {
    && 1 <= nextId
    && (forall k :: 0 <= k < |rows| ==>
          1 <= rows[k].id < nextId && |rows[k].passwordHash| <= MaxHashLength)
    && (forall i, j :: 0 <= i < j < |rows| ==>
          rows[i].id < rows[j].id && rows[i].email != rows[j].email)
  }

  /** The constraints a flush of `batch` checks against the existing `rows`:
      each email new and distinct within the batch, each hash within 255. */
  predicate Admissible(rows: seq<User>, batch: seq<NewUser>) {
    && (forall k :: 0 <= k < |batch| ==>
          !EmailTaken(rows, batch[k].email) && |batch[k].passwordHash| <= MaxHashLength)
    && (forall i, j :: 0 <= i < j < |batch| ==> batch[i].email != batch[j].email)
  }

  /** A single object is admissible when its email is free and its hash fits. */
  lemma AdmissibleSingle(rows: seq<User>, u: NewUser)
    ensures Admissible(rows, [u]) <==> !EmailTaken(rows, u.email) && |u.passwordHash| <= MaxHashLength
  {
    assert [u][0] == u;
  }

  /** The rows written for `batch`, ids taken in order from `firstId`. */
  function Persist(batch: seq<NewUser>, firstId: int): (rows: seq<User>)
    ensures |rows| == |batch|
    ensures forall k :: 0 <= k < |batch| ==> rows[k] == Stored(batch[k], firstId + k)
  {
    seq(|batch|, k requires 0 <= k < |batch| => Stored(batch[k], firstId + k))
  }

  /** Writing an admissible batch keeps the table invariant. */
  lemma PersistKeepsInvariant(rows: seq<User>, nextId: int, batch: seq<NewUser>)
    requires TableInvariant(rows, nextId)
    requires Admissible(rows, batch)
    ensures TableInvariant(rows + Persist(batch, nextId), nextId + |batch|)
  {
    var all := rows + Persist(batch, nextId);
    forall i, j | 0 <= i < j < |all|
      ensures all[i].id < all[j].id && all[i].email != all[j].email
    {
      if j >= |rows| && i < |rows| {
        assert all[j].email == batch[j - |rows|].email;
        assert !EmailTaken(rows, batch[j - |rows|].email);
      }
    }
  }
}
