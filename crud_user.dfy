/** The user store: point lookups by email and by id, creation with a hashed
    password, and credential checking. */
module CrudUser {
  import opened Wrappers
  import opened UserModel
  import opened Database
  import opened Security

  /** Position of the first row `matches` accepts, if any. */
  function FirstIndex(rows: seq<User>, matches: User -> bool): (r: Option<nat>)
    ensures r.Some? ==> r.value < |rows| && matches(rows[r.value])
    ensures r.Some? ==> forall k :: 0 <= k < r.value ==> !matches(rows[k])
    ensures r.None? ==> forall k :: 0 <= k < |rows| ==> !matches(rows[k])
  {
    if |rows| == 0 then None
    else if matches(rows[0]) then Some(0)
    else
      match FirstIndex(rows[1..], matches)
      case None => None
      case Some(k) => Some(k + 1)
  }

  /** `get_by_email`: the user whose email is `email`, or None. */
  function GetByEmail(rows: seq<User>, email: string): (r: Option<User>)
    ensures r.Some? ==> r.value in rows && r.value.email == email
    ensures r.None? <==> !EmailTaken(rows, email)
  {
    match FirstIndex(rows, (u: User) => u.email == email)
    case None => None
    case Some(k) => Some(rows[k])
  }

  /** `get`: the user whose primary key is `id`, or None. */
  function Get(rows: seq<User>, id: int): (r: Option<User>)
    ensures r.Some? ==> r.value in rows && r.value.id == id
    ensures r.None? <==> forall k :: 0 <= k < |rows| ==> rows[k].id != id
  {
    match FirstIndex(rows, (u: User) => u.id == id)
    case None => None
    case Some(k) => Some(rows[k])
  }

  /** In a well-formed table each lookup finds the one row carrying its key. */
  lemma LookupsAreExact(rows: seq<User>, nextId: int, k: nat)
    requires TableInvariant(rows, nextId)
    requires k < |rows|
    ensures GetByEmail(rows, rows[k].email) == Some(rows[k])
    ensures Get(rows, rows[k].id) == Some(rows[k])
  {
    var byEmail := FirstIndex(rows, (u: User) => u.email == rows[k].email);
    var byId := FirstIndex(rows, (u: User) => u.id == rows[k].id);
    assert byEmail.Some? && byId.Some?;
  }

  /** `authenticate`: the user found by email when the password verifies
      against its stored hash; None both for an unknown email and for a wrong
      password. Whether the account is active is not looked at. */
  function Authenticate(rows: seq<User>, email: string, password: string, verify: Verifier)
    : (r: Option<User>)
    ensures r.Some? <==>
      GetByEmail(rows, email).Some? && verify(password, GetByEmail(rows, email).value.passwordHash)
    ensures r.Some? ==> r == GetByEmail(rows, email)
  {
    match GetByEmail(rows, email)
    case None => None
    case Some(user) =>
      if !verify(password, user.passwordHash) then None else Some(user)
  }

  /** With a sound hasher, a stored user's own password authenticates it. */
  lemma AuthenticateOwnPassword(
    rows: seq<User>, nextId: int, k: nat, password: string, hash: Hasher, verify: Verifier)
    requires TableInvariant(rows, nextId) && k < |rows|
    requires Sound(hash, verify)
    requires rows[k].passwordHash == hash(password)
    ensures Authenticate(rows, rows[k].email, password, verify) == Some(rows[k])
  {
    LookupsAreExact(rows, nextId, k);
    assert verify(password, hash(password));
  }

  /** The object `create` adds: the hash of the password, never the password
      itself, and an active account. */
  function CreatedObject(email: string, fullName: Option<string>, password: string, role: Role, hash: Hasher)
    : (u: NewUser)
    ensures u.email == email && u.fullName == fullName && u.role == role && u.isActive
    ensures u.passwordHash == hash(password)
  {
    NewUser(email, hash(password), fullName, role, true)
  }

  /** `create`: adds one user, flushed so that it has its id. The database's
      constraints are the only checks; on a violation nothing is stored, but
      the id the object drew stays used. */
  method Create(
    table: UserTable, email: string, fullName: Option<string>, password: string, role: Role, hash: Hasher)
    returns (r: Result<User, DbError>)
    requires table.Valid()
    modifies table
    ensures table.Valid()
    ensures r.Success? <==> Admissible(old(table.rows), [CreatedObject(email, fullName, password, role, hash)])
    ensures r.Success? ==>
      && r.value == Stored(CreatedObject(email, fullName, password, role, hash), old(table.nextId))
      && table.rows == old(table.rows) + [r.value]
      && table.nextId == old(table.nextId) + 1
    ensures r.Failure? ==> table.rows == old(table.rows)
    ensures table.nextId == old(table.nextId) + 1
  {
    var user := CreatedObject(email, fullName, password, role, hash);
    var flushed := table.Add([user]);
    match flushed
    case Failure(e) =>
      r := Failure(e);
    case Success(stored) =>
      r := Success(stored[0]);
  }
}
