/** The admin routes: list every user, and partially update one. Both are
    gated on the super_admin role. */
module UsersRoutes {
  import opened Wrappers
  import opened UserModel
  import opened Database
  import opened Security
  import opened Http
  import opened UserSchemas
  import opened CrudUser
  import opened Deps

  const UserNotFound := "User not found"

  /** The roles both routes admit. */
  const AdminOnly: set<Role> := {SuperAdmin}

  /** `list_users`: every row of the table, for a super_admin only. */
  function ListUsers(rows: seq<User>, token: string, decode: Decoder): (r: Outcome<seq<User>>)
    ensures r.Ok? <==> Authorize(rows, token, decode, AdminOnly).Ok?
    ensures r.Ok? ==> r.value == rows
    ensures r.Ok? ==> Authorize(rows, token, decode, AdminOnly).value.role == SuperAdmin
    ensures !r.Ok? ==> r.detail == Authorize(rows, token, decode, AdminOnly).detail
    ensures !r.Ok? ==> r.StatusCode(200) == Authorize(rows, token, decode, AdminOnly).StatusCode(200)
  {
    var auth := Authorize(rows, token, decode, AdminOnly);
    if auth.Ok? then Ok(rows) else auth.PropagateError()
  }

  /** The record after a PATCH: each field the payload provides replaces the
      stored one; the others, and id, email and password hash, are kept. */
  function ApplyUpdate(user: User, payload: UserUpdate): (r: User)
    ensures r.id == user.id && r.email == user.email && r.passwordHash == user.passwordHash
    ensures r.fullName == if payload.fullName.Some? then payload.fullName else user.fullName
    ensures r.role == if payload.role.Some? then payload.role.value else user.role
    ensures r.isActive == if payload.isActive.Some? then payload.isActive.value else user.isActive
  {
    user.(
      fullName := if payload.fullName.Some? then payload.fullName else user.fullName,
      role := if payload.role.Some? then payload.role.value else user.role,
      isActive := if payload.isActive.Some? then payload.isActive.value else user.isActive)
  }

  /** Applying the same update twice gives what applying it once gives. */
  lemma ApplyUpdateIdempotent(user: User, payload: UserUpdate)
    ensures ApplyUpdate(ApplyUpdate(user, payload), payload) == ApplyUpdate(user, payload)
  {
  }

  /** An update with no field provided changes nothing. */
  lemma EmptyUpdateIsNoOp(user: User)
    ensures ApplyUpdate(user, UserUpdate()) == user
  {
  }

  /** A full name can be changed but never cleared, since None means "not provided". */
  lemma FullNameNeverCleared(user: User, payload: UserUpdate)
    requires user.fullName.Some?
    ensures ApplyUpdate(user, payload).fullName.Some?
  {
  }

  /** Updating one row in place keeps the table invariant. */
  lemma UpdateKeepsInvariant(rows: seq<User>, nextId: int, k: nat, payload: UserUpdate)
    requires TableInvariant(rows, nextId) && k < |rows|
    ensures TableInvariant(rows[k := ApplyUpdate(rows[k], payload)], nextId)
  {
    var updated := rows[k := ApplyUpdate(rows[k], payload)];
    assert forall i :: 0 <= i < |rows| ==>
      updated[i].id == rows[i].id && updated[i].email == rows[i].email
        && updated[i].passwordHash == rows[i].passwordHash;
  }

  /** An update takes effect on the next request made with a token issued
      before it: deactivating the account turns that token into the uniform
      401, and a new role decides the role gate. */
  lemma UpdateGovernsExistingTokens(
    rows: seq<User>, nextId: int, k: nat, payload: UserUpdate, token: string, decode: Decoder, roles: set<Role>)
    requires TableInvariant(rows, nextId) && k < |rows|
    requires SubjectId(decode(token)) == Some(rows[k].id)
    ensures var after := rows[k := ApplyUpdate(rows[k], payload)];
      && (payload.isActive == Some(false) ==>
            Authorize(after, token, decode, roles) == Unauthorized(CredentialsError))
      && (payload.role.Some? && ApplyUpdate(rows[k], payload).isActive ==>
            (Authorize(after, token, decode, roles).Ok? <==> payload.role.value in roles))
  {
    UpdateKeepsInvariant(rows, nextId, k, payload);
    var after := rows[k := ApplyUpdate(rows[k], payload)];
    AuthorizeReadsCurrentRow(after, nextId, k, token, decode, roles);
  }

  /** `update_user`: 401/403 from the role gate first, then 404 for an
      unknown id; otherwise the loaded row is updated in place, one provided
      field at a time, and returned. Nothing else in the table changes. */
  method UpdateUser(table: UserTable, token: string, decode: Decoder, userId: int, payload: UserUpdate)
    returns (r: Outcome<User>)
    requires table.Valid()
    modifies table
    ensures table.Valid() && table.nextId == old(table.nextId)
    ensures !Authorize(old(table.rows), token, decode, AdminOnly).Ok? ==>
      r == Authorize(old(table.rows), token, decode, AdminOnly) && table.rows == old(table.rows)
    ensures Authorize(old(table.rows), token, decode, AdminOnly).Ok? && Get(old(table.rows), userId).None? ==>
      r == NotFound(UserNotFound) && table.rows == old(table.rows)
    ensures r.Ok? ==>
      var k := FirstIndex(old(table.rows), (u: User) => u.id == userId).value;
      && Authorize(old(table.rows), token, decode, AdminOnly).Ok?
      && r.value == ApplyUpdate(old(table.rows)[k], payload)
      && table.rows == old(table.rows)[k := r.value]
    ensures Authorize(old(table.rows), token, decode, AdminOnly).Ok? && Get(old(table.rows), userId).Some? ==> r.Ok?
  {
    var auth := Authorize(table.rows, token, decode, AdminOnly);
    if !auth.Ok? {
      return auth;
    }
    var found := FirstIndex(table.rows, (u: User) => u.id == userId);
    if found.None? {
      return NotFound(UserNotFound);
    }
    var k := found.value;
    var user := table.rows[k];
    if payload.fullName.Some? {
      user := user.(fullName := payload.fullName);
    }
    if payload.role.Some? {
      user := user.(role := payload.role.value);
    }
    if payload.isActive.Some? {
      user := user.(isActive := payload.isActive.value);
    }
    UpdateKeepsInvariant(table.rows, table.nextId, k, payload);
    table.rows := table.rows[k := user];
    r := Ok(user);
  }
}
