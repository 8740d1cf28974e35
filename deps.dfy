/** The per-request authentication chain (decode token, read `sub`, load the
    user, require an active account) and the role gate stacked on it. */
module Deps {
  import opened Wrappers
  import opened UserModel
  import opened Security
  import opened Numerals
  import opened Http
  import opened CrudUser

  const CredentialsError := "Could not validate credentials"
  const PermissionsError := "Insufficient permissions"

  /** `int(payload.get("sub"))` on the decoded payload; None when decoding
      failed, the claim is missing or it is not an integer numeral. The
      `role` claim is not read. */
  function SubjectId(decoded: Option<Claims>): (id: Option<int>)
    ensures id.Some? ==> decoded.Some? && decoded.value.sub.Some?
    ensures id.Some? ==> ParseInt(decoded.value.sub.value) == id
    ensures decoded.Some? && decoded.value.sub.Some? ==> id == ParseInt(decoded.value.sub.value)
  {
    match decoded
    case None => None
    case Some(claims) =>
      match claims.sub
      case None => None
      case Some(sub) => ParseInt(sub)
  }

  /** `get_current_user`: the active user whose id the token's `sub` names,
      loaded from the table; every failure is the same 401. */
  function GetCurrentUser(rows: seq<User>, token: string, decode: Decoder): (r: Outcome<User>)
    ensures r.Ok? <==>
      var id := SubjectId(decode(token));
      id.Some? && Get(rows, id.value).Some? && Get(rows, id.value).value.isActive
    ensures r.Ok? ==> r.value in rows && r.value.isActive
    ensures r.Ok? ==> Some(r.value.id) == SubjectId(decode(token))
    ensures !r.Ok? ==> r == Unauthorized(CredentialsError)
  {
    var loaded :=
      match SubjectId(decode(token))
      case None => None
      case Some(id) => Get(rows, id);
    match loaded
    case None => Unauthorized(CredentialsError)
    case Some(user) =>
      if !user.isActive then Unauthorized(CredentialsError) else Ok(user)
  }

  /** The `checker` built by `require_roles(*roles)`: the user unchanged when
      their role is allowed, 403 otherwise. */
  function RequireRoles(roles: set<Role>, user: User): (r: Outcome<User>)
    ensures r == Ok(user) <==> user.role in roles
    ensures r != Ok(user) ==> r == Forbidden(PermissionsError)
  {
    if user.role !in roles then Forbidden(PermissionsError) else Ok(user)
  }

  /** The chain a role-gated route depends on: authentication first, so every
      401 condition is decided before the role is looked at. */
  function Authorize(rows: seq<User>, token: string, decode: Decoder, roles: set<Role>)
    : (r: Outcome<User>)
    ensures !GetCurrentUser(rows, token, decode).Ok? ==> r == Unauthorized(CredentialsError)
    ensures GetCurrentUser(rows, token, decode).Ok? ==>
      r == RequireRoles(roles, GetCurrentUser(rows, token, decode).value)
    ensures r.Ok? <==>
      GetCurrentUser(rows, token, decode).Ok? && GetCurrentUser(rows, token, decode).value.role in roles
    ensures r.Ok? ==> r == GetCurrentUser(rows, token, decode)
  {
    match GetCurrentUser(rows, token, decode)
    case Ok(user) => RequireRoles(roles, user)
    case other => other
  }

  /** Only `sub` matters: two tokens whose claims differ in anything else,
      the embedded role included, are treated alike. */
  lemma RoleClaimIgnored(rows: seq<User>, token: string, decode: Decoder, decode': Decoder, roles: set<Role>)
    requires decode(token).Some? && decode'(token).Some?
    requires decode(token).value.sub == decode'(token).value.sub
    ensures GetCurrentUser(rows, token, decode) == GetCurrentUser(rows, token, decode')
    ensures Authorize(rows, token, decode, roles) == Authorize(rows, token, decode', roles)
  {
  }

  /** The role checked is the one the table holds now: for a token naming row
      `k`, the outcome follows that row's current flag and role, whatever the
      token claims. A deactivated account is refused with the same 401 as a
      bad token; a demoted one gets 403. */
  lemma AuthorizeReadsCurrentRow(
    rows: seq<User>, nextId: int, k: nat, token: string, decode: Decoder, roles: set<Role>)
    requires TableInvariant(rows, nextId) && k < |rows|
    requires SubjectId(decode(token)) == Some(rows[k].id)
    ensures !rows[k].isActive ==> Authorize(rows, token, decode, roles) == Unauthorized(CredentialsError)
    ensures rows[k].isActive && rows[k].role !in roles ==>
      Authorize(rows, token, decode, roles) == Forbidden(PermissionsError)
    ensures rows[k].isActive && rows[k].role in roles ==>
      Authorize(rows, token, decode, roles) == Ok(rows[k])
  {
    LookupsAreExact(rows, nextId, k);
  }

  /** A token whose `sub` names no row is refused with the uniform 401. */
  lemma UnknownSubjectRejected(rows: seq<User>, token: string, decode: Decoder, id: int)
    requires SubjectId(decode(token)) == Some(id)
    requires forall k :: 0 <= k < |rows| ==> rows[k].id != id
    ensures GetCurrentUser(rows, token, decode) == Unauthorized(CredentialsError)
  {
  }
}
