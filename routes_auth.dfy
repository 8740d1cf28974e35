/** The public authentication routes: register, login, and "me". */
module AuthRoutes {
  import opened Wrappers
  import opened UserModel
  import opened Database
  import opened Security
  import opened Numerals
  import opened Http
  import opened UserSchemas
  import opened CrudUser
  import opened Deps

  const DuplicateEmail := "Email already registered"
  const BadCredentials := "Incorrect email or password"
  const InactiveUser := "Inactive user"
  const InternalError := "Internal Server Error"

  /** What `register` answers before it tries to create anything: 422 for a
      payload whose password fails validation, 400 for a taken email. */
  function RegisterRejection(rows: seq<User>, payload: UserCreate): (r: Option<Outcome<User>>)
    ensures r.None? <==> StrongPassword(payload.password) && !EmailTaken(rows, payload.email)
    ensures r.Some? ==> !r.value.Ok?
    ensures ValidatePassword(payload.password).Failure? ==>
      r == Some(Unprocessable(Message(ValidatePassword(payload.password).error)))
    ensures StrongPassword(payload.password) && EmailTaken(rows, payload.email) ==>
      r == Some(BadRequest(DuplicateEmail))
  {
    ValidateAcceptsExactlyStrong(payload.password);
    match ValidatePassword(payload.password)
    case Failure(e) => Some(Unprocessable(Message(e)))
    case Success(_) =>
      if GetByEmail(rows, payload.email).Some? then Some(BadRequest(DuplicateEmail)) else None
  }

  /** The outcome of `register` on a table `rows` whose id sequence is at
      `nextId`, when the role passed to `create` is written `UserRole.<roleName>`.
      The role argument is evaluated before `create` runs, so a name that is
      no member raises AttributeError (a 500) with nothing stored. The
      payload's own role and is_active are never read. */
  function RegisterOutcome(rows: seq<User>, nextId: int, payload: UserCreate, hash: Hasher, roleName: string)
    : (r: Outcome<User>)
    ensures r.Ok? ==> RegisterRejection(rows, payload).None? && RoleMember(roleName).Some?
    ensures RegisterRejection(rows, payload).Some? ==> r == RegisterRejection(rows, payload).value
  {
    match RegisterRejection(rows, payload)
    case Some(error) => error
    case None =>
      match RoleMember(roleName)
      case None => ServerError(InternalError)
      case Some(role) =>
        var user := CreatedObject(payload.email, payload.fullName, payload.password, role, hash);
        if Admissible(rows, [user]) then Ok(Stored(user, nextId)) else ServerError(InternalError)
  }

  /** As written, the handler names the role `UserRole.subscriber`; the
      member is `SUBSCRIBER`, so no registration ever succeeds: every payload
      that gets past the checks ends in a 500. */
  lemma RegisterAsWrittenNeverCreates(rows: seq<User>, nextId: int, payload: UserCreate, hash: Hasher)
    ensures !RegisterOutcome(rows, nextId, payload, hash, "subscriber").Ok?
    ensures RegisterRejection(rows, payload).None? ==>
      RegisterOutcome(rows, nextId, payload, hash, "subscriber") == ServerError(InternalError)
  {
    assert RoleMember("subscriber").None?;
  }

  /** The input that shows it: a fresh email with a valid password on an empty
      table gets a 500 as written, and a new subscriber as intended. */
  lemma RegisterAsWrittenCounterexample()
    ensures RegisterOutcome([], 1, UserCreate("a@x.com", "Abc12345!", Some("A")), _ => "h", "subscriber")
      == ServerError(InternalError)
    ensures RegisterOutcome([], 1, UserCreate("a@x.com", "Abc12345!", Some("A")), _ => "h", "SUBSCRIBER")
      == Ok(User(1, "a@x.com", Some("A"), "h", Subscriber, true))
  {
    var pw := "Abc12345!";
    var payload := UserCreate("a@x.com", pw, Some("A"));
    var hash: Hasher := _ => "h";
    assert Matches(Upper, pw[0]) && Matches(Lower, pw[1]) && Matches(Digit, pw[3]) && Matches(Symbol, pw[8]);
    assert Contains(pw, Upper) && Contains(pw, Lower) && Contains(pw, Digit) && Contains(pw, Symbol);
    assert StrongPassword(pw);
    assert RegisterRejection([], payload).None?;
    var user := CreatedObject(payload.email, payload.fullName, pw, Subscriber, hash);
    assert hash(pw) == "h";
    AdmissibleSingle([], user);
  }

  /** The intended behaviour: registration succeeds exactly for a strong
      password, a free email and a hash that fits its column, and creates an
      active subscriber with the payload's email and full name and the hash
      of its password, whatever role or flag the payload asked for. */
  lemma RegisterCreatesSubscriber(rows: seq<User>, nextId: int, payload: UserCreate, hash: Hasher)
    ensures var r := RegisterOutcome(rows, nextId, payload, hash, "SUBSCRIBER");
      && (r.Ok? <==>
            StrongPassword(payload.password) && !EmailTaken(rows, payload.email)
            && |hash(payload.password)| <= MaxHashLength)
      && (r.Ok? ==> r.value == User(nextId, payload.email, payload.fullName, hash(payload.password), Subscriber, true))
  {
    var user := CreatedObject(payload.email, payload.fullName, payload.password, Subscriber, hash);
    AdmissibleSingle(rows, user);
  }

  /** `register`, with the role written as the enumeration's member. */
  method Register(table: UserTable, payload: UserCreate, hash: Hasher) returns (r: Outcome<User>)
    requires table.Valid()
    modifies table
    ensures table.Valid()
    ensures r == RegisterOutcome(old(table.rows), old(table.nextId), payload, hash, "SUBSCRIBER")
    ensures r.Ok? ==> table.rows == old(table.rows) + [r.value] && table.nextId == old(table.nextId) + 1
    ensures !r.Ok? ==> table.rows == old(table.rows)
    ensures table.nextId == old(table.nextId) + (if RegisterRejection(old(table.rows), payload).None? then 1 else 0)
  {
    var rejection := RegisterRejection(table.rows, payload);
    if rejection.Some? {
      return rejection.value;
    }
    var created := Create(table, payload.email, payload.fullName, payload.password, Subscriber, hash);
    match created
    case Failure(_) =>
      r := ServerError(InternalError);
    case Success(user) =>
      r := Ok(user);
  }

  /** Registering an email a second time is refused and stores nothing new. */
  lemma RegisterTwiceRefused(rows: seq<User>, nextId: int, payload: UserCreate, hash: Hasher)
    requires RegisterOutcome(rows, nextId, payload, hash, "SUBSCRIBER").Ok?
    ensures var user := RegisterOutcome(rows, nextId, payload, hash, "SUBSCRIBER").value;
      RegisterOutcome(rows + [user], nextId + 1, payload, hash, "SUBSCRIBER") == BadRequest(DuplicateEmail)
  {
    var user := RegisterOutcome(rows, nextId, payload, hash, "SUBSCRIBER").value;
    RegisterCreatesSubscriber(rows, nextId, payload, hash);
    assert (rows + [user])[|rows|].email == payload.email;
  }

  /** The claims a login token carries: the id as a decimal string and the
      role's value. */
  function LoginClaims(user: User): (c: Claims)
    ensures c.sub.Some? && ParseInt(c.sub.value) == Some(user.id)
    ensures c.role == Some(RoleValue(user.role))
  {
    ParseIntToString(user.id);
    Claims(Some(IntToString(user.id)), Some(RoleValue(user.role)))
  }

  /** `login`: one 400 for an unknown email and for a wrong password alike,
      a separate 400 for an inactive account with the right password, and a
      bearer token for the user otherwise. */
  function Login(rows: seq<User>, username: string, password: string, verify: Verifier, encode: Encoder)
    : (r: Outcome<Token>)
    ensures Authenticate(rows, username, password, verify).None? ==> r == BadRequest(BadCredentials)
    ensures (Authenticate(rows, username, password, verify).Some?
             && !Authenticate(rows, username, password, verify).value.isActive) ==>
            r == BadRequest(InactiveUser)
    ensures r.Ok? <==>
      Authenticate(rows, username, password, verify).Some? && Authenticate(rows, username, password, verify).value.isActive
    ensures r.Ok? ==> r.value == Token(encode(LoginClaims(Authenticate(rows, username, password, verify).value)))
  {
    match Authenticate(rows, username, password, verify)
    case None => BadRequest(BadCredentials)
    case Some(user) =>
      if !user.isActive then BadRequest(InactiveUser)
      else Ok(Token(encode(LoginClaims(user))))
  }

  /** No enumeration signal: an unknown email and a known email with a wrong
      password get the same answer. */
  lemma LoginUniformFailure(
    rows: seq<User>, nextId: int, unknown: string, k: nat, wrong: string, verify: Verifier, encode: Encoder)
    requires TableInvariant(rows, nextId) && k < |rows|
    requires !EmailTaken(rows, unknown)
    requires !verify(wrong, rows[k].passwordHash)
    ensures Login(rows, unknown, wrong, verify, encode) == BadRequest(BadCredentials)
    ensures Login(rows, rows[k].email, wrong, verify, encode) == Login(rows, unknown, wrong, verify, encode)
  {
    LookupsAreExact(rows, nextId, k);
  }

  /** A token issued by login, while it still decodes, authenticates the same
      user on later requests as long as the table is unchanged. */
  lemma LoginTokenAuthenticates(
    rows: seq<User>, nextId: int, username: string, password: string,
    verify: Verifier, encode: Encoder, decode: Decoder)
    requires TableInvariant(rows, nextId)
    requires Login(rows, username, password, verify, encode).Ok?
    requires DecodesBack(encode, decode, LoginClaims(Authenticate(rows, username, password, verify).value))
    ensures GetCurrentUser(rows, Login(rows, username, password, verify, encode).value.accessToken, decode)
      == Ok(Authenticate(rows, username, password, verify).value)
  {
    var user := Authenticate(rows, username, password, verify).value;
    var k :| 0 <= k < |rows| && rows[k] == user;
    LookupsAreExact(rows, nextId, k);
  }

  /** After a successful registration, logging in with the same email and
      password (and a sound hasher) yields a token for the new subscriber. */
  lemma RegisterThenLogin(
    rows: seq<User>, nextId: int, payload: UserCreate, hash: Hasher, verify: Verifier, encode: Encoder)
    requires TableInvariant(rows, nextId)
    requires Sound(hash, verify)
    requires RegisterOutcome(rows, nextId, payload, hash, "SUBSCRIBER").Ok?
    ensures var user := RegisterOutcome(rows, nextId, payload, hash, "SUBSCRIBER").value;
      Login(rows + [user], payload.email, payload.password, verify, encode)
        == Ok(Token(encode(Claims(Some(IntToString(nextId)), Some("subscriber")))))
  {
    var user := RegisterOutcome(rows, nextId, payload, hash, "SUBSCRIBER").value;
    var batch := [CreatedObject(payload.email, payload.fullName, payload.password, Subscriber, hash)];
    RegisterCreatesSubscriber(rows, nextId, payload, hash);
    PersistKeepsInvariant(rows, nextId, batch);
    assert Persist(batch, nextId) == [user];
    AuthenticateOwnPassword(rows + [user], nextId + 1, |rows|, payload.password, hash, verify);
  }

  /** `me`: the authenticated user, as the dependency loaded it. */
  function Me(rows: seq<User>, token: string, decode: Decoder): (r: Outcome<User>)
    ensures r.Ok? <==> GetCurrentUser(rows, token, decode).Ok?
    ensures r.Ok? ==> r.value == GetCurrentUser(rows, token, decode).value && r.value in rows
    ensures !r.Ok? ==> r == Unauthorized(CredentialsError)
  {
    match GetCurrentUser(rows, token, decode)
    case Ok(user) => Ok(user)
    case error => error
  }
}
