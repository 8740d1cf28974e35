# User service decision logic, modelled in Dafny

This project models the decision logic of a small FastAPI user service. The service keeps one
`users` table and offers registration, login, "me", and two admin-only routes. The admin routes
list users and partially update one. A seeder inserts three default accounts.

The model covers:

- the `UserRole` enumeration and the `User` row, with their defaults and constraints:
  unique email, nullable full name, a 255-character hash column (`UserModel`);
- the users table as one session sees it (`Database.UserTable`). It has the rows in insertion
  order and the next value of the PostgreSQL id sequence. Flushing a batch of new objects gives
  each the next id. The database constraints are checked then, and nothing is stored if one fails.
  The ids drawn by the objects sent before the failure stay used, because a sequence never goes back;
- the request schemas (`UserSchemas`): the registration password rule, the all-optional
  update payload, and the `bearer` token response;
- the CRUD layer (`CrudUser`): lookup by email and by id, `create`, `authenticate`;
- the authentication chain and the role gate (`Deps`): decode token, parse `sub`, load the user,
  require an active account, then check the role;
- the routes `register`, `login`, `me` (`AuthRoutes`) and `list_users`, `update_user`
  (`UsersRoutes`);
- the idempotent seeder (`Seeds`).

Password hashing, verification, token encoding and token decoding are library code. Each enters
the model as a function parameter (`Security`). Two facts about them are stated as
preconditions of the lemmas that need them and assumed nowhere else: a password verifies against
its own hash (`Security.Sound`), and an issued token decodes back to its claims
(`Security.DecodesBack`). Python's `str`/`int` on the id in the `sub` claim are modelled in
`Numerals`.

The table is a class, `Database.UserTable`, whose fields the operations update in place. The
flush is its method `Add`. `create`, `register`, `update_user` and the seeder are module-level
methods that take the table and name it in their `modifies` clauses. Their `ensures` give the new
rows as a function of the old ones, and all of them keep `UserTable.Valid()`. Valid means ids are unique, positive
and ascending, emails are unique, and every hash fits its column. Lookups and decisions are
functions over the rows. The lemmas relate them.

Where a docstring and the code differ, the model follows the code:

- The docstring of `create` (app/crud/crud_user.py:66-70) lists hashing, `is_active = True` and
  no commit, and says nothing of duplicates. The code checks nothing either; only the database's
  unique constraint refuses a taken email, at the flush.
- The docstring of `register` (app/api/routes/auth.py:62-66) says it always creates a subscriber.
  The code as written cannot create anyone (see Findings).

## Model

| member | source | states |
|---|---|---|
| `UserModel.RoleValue` | app/models/user.py:34-38 | each role's `.value` is one of "super_admin", "editor", "subscriber"; this is what login puts in a token's `role` claim (the database column stores the member name) |
| `UserModel.RoleFromValue` | app/models/user.py:34-38 | `UserRole(v)` succeeds exactly for the three values and inverts `RoleValue` |
| `UserModel.RoleMember` | app/models/user.py:34-38 | attribute lookup succeeds exactly for the upper-case member names; only `SUBSCRIBER` names the subscriber role |
| `UserModel.RoleValueRoundTrip` | app/models/user.py:34-38 | a role converted to its value and back is the same role |
| `UserModel.ColumnDefaults` | app/models/user.py:65-82 | a user built without role, is_active or full_name is an active subscriber with no full name |
| `UserModel.PersistKeepsInvariant` | app/models/user.py:50-88 | writing a batch that satisfies the constraints keeps ids unique and ascending, emails unique and hashes within 255 |
| `Database.Violation` | app/models/user.py:57-88 | a flush reports a violation exactly when some new email is taken or repeated in the batch, or some hash is longer than 255 |
| `Database.UserTable.constructor` | app/models/user.py:46-54 | an empty table whose id sequence starts at 1 |
| `Database.Attempted` | app/crud/crud_user.py:79-82 | a flush sends the whole batch when it is admissible, and otherwise the objects up to and including the first refused one: the longest admissible prefix plus one |
| `Database.UserTable.Add` | app/crud/crud_user.py:79-82 | a flush stores the whole batch with consecutive fresh ids, or stores nothing when a constraint fails; existing rows are untouched; the id sequence advances by the number of objects sent, even on failure |
| `UserSchemas.Search` | app/schemas/user.py:88-95 | the regex search is true exactly when some character of the password is in the class |
| `UserSchemas.ValidatePassword` | app/schemas/user.py:75-96 | a password that passes is returned unchanged |
| `UserSchemas.ValidateAcceptsExactlyStrong` | app/schemas/user.py:75-96 | the validator accepts exactly the passwords of 8 to 128 characters with an upper-case letter, a lower-case letter, a digit and a symbol |
| `UserSchemas.LengthCheckedFirst` | app/schemas/user.py:75 | a password under 8 or over 128 characters is refused for its length, before any strength check |
| `UserSchemas.FirstFailingCheckReported` | app/schemas/user.py:88-95 | for a password of allowed length, the error reported is that of the first failing check in the order upper, lower, digit, symbol |
| `UserSchemas.SchemaDefaults` | app/schemas/user.py:116-123 | every update field defaults to None; a registration payload defaults to an active subscriber with no full name; a token's type is "bearer" |
| `Numerals.ParseIntToString` | app/api/deps.py:68 | `int(str(id))` gives the id back, so the `sub` written at login names the same user at verification |
| `Numerals.IntToStringInjective` | app/api/routes/auth.py:126 | different ids give different `sub` strings |
| `CrudUser.GetByEmail` | app/crud/crud_user.py:37-45 | returns a row carrying the email, and None exactly when no row carries it |
| `CrudUser.Get` | app/crud/crud_user.py:47-55 | returns a row with the id, and None exactly when no row has it |
| `CrudUser.LookupsAreExact` | app/crud/crud_user.py:37-55 | in a well-formed table, lookup by a row's email or id returns that very row |
| `CrudUser.Authenticate` | app/crud/crud_user.py:85-102 | returns the user found by email exactly when the password verifies against its hash; None for an unknown email and a wrong password alike; the active flag plays no part |
| `CrudUser.AuthenticateOwnPassword` | app/crud/crud_user.py:97-102 | with a sound hasher, a stored user's own password authenticates that user, active or not |
| `CrudUser.CreatedObject` | app/crud/crud_user.py:72-78 | the new object stores the hash of the password, never the password, with the given email, full name and role, and is active |
| `CrudUser.Create` | app/crud/crud_user.py:57-83 | adds exactly one row with the next id and the hashed password, or nothing when a constraint fails; other rows unchanged; the id sequence advances by one either way |
| `Deps.SubjectId` | app/api/deps.py:65-68 | an id is read only from a decoded token with a `sub` claim, and for such a token it is exactly what the claim parses to as an integer |
| `Deps.GetCurrentUser` | app/api/deps.py:56-86 | succeeds exactly when the token decodes, `sub` parses, a row has that id and it is active; then returns that row; every failure is the same 401 |
| `Deps.RequireRoles` | app/api/deps.py:105-112 | returns the user unchanged exactly when its role is allowed, and 403 otherwise |
| `Deps.Authorize` | app/api/deps.py:93-114 | every 401 condition is decided before the role check; a 403 only for an authenticated user whose current role is not allowed |
| `Deps.RoleClaimIgnored` | app/api/deps.py:66-68 | two tokens with the same `sub` get the same outcome, whatever role they embed |
| `Deps.AuthorizeReadsCurrentRow` | app/api/deps.py:65-112 | for a token naming a row, the outcome follows that row's current active flag and role: 401 if inactive, 403 if the role is not allowed, the row otherwise |
| `Deps.UnknownSubjectRejected` | app/api/deps.py:71-84 | a token whose `sub` names no row gets the uniform 401 |
| `AuthRoutes.RegisterRejection` | app/api/routes/auth.py:67-73 | nothing is rejected exactly when the password is strong and the email free; a weak password gives 422 with the first failing check's message; a strong password with a taken email gives 400 "Email already registered" |
| `AuthRoutes.RegisterOutcome` | app/api/routes/auth.py:60-85 | a registration succeeds only past the checks and with a role name that is a member of the enumeration; a rejection by the checks is returned unchanged |
| `AuthRoutes.RegisterAsWrittenNeverCreates` | app/api/routes/auth.py:76-82 | with the role written `UserRole.subscriber`, no registration succeeds; one that passes the checks ends in a 500 |
| `AuthRoutes.RegisterAsWrittenCounterexample` | app/api/routes/auth.py:81 | a@x.com / Abc12345! on an empty table gets a 500 as written, and a new subscriber with id 1 as intended |
| `AuthRoutes.RegisterCreatesSubscriber` | app/api/routes/auth.py:75-85 | registration succeeds exactly for a strong password, a free email and a hash that fits; it creates an active subscriber with the payload's email and full name, whatever role or flag the payload asked for |
| `AuthRoutes.Register` | app/api/routes/auth.py:60-85 | on success exactly one row is appended; on every failure no row is stored; the id sequence advances by one exactly when the payload passed the checks and reached `create` |
| `AuthRoutes.RegisterTwiceRefused` | app/api/routes/auth.py:67-73 | registering the same email again after a success gives 400 "Email already registered" |
| `AuthRoutes.LoginClaims` | app/api/routes/auth.py:124-128 | the token's `sub` parses back to the user's id and its role is the role's value |
| `AuthRoutes.Login` | app/api/routes/auth.py:92-131 | 400 "Incorrect email or password" when authentication fails, 400 "Inactive user" for an inactive account with the right password, and otherwise a bearer token for the user's claims |
| `AuthRoutes.LoginUniformFailure` | app/api/routes/auth.py:104-115 | an unknown email and a known email with a wrong password get the same answer |
| `AuthRoutes.LoginTokenAuthenticates` | app/api/routes/auth.py:124-131 | a token issued by login, while it still decodes, authenticates the same user on a later request |
| `AuthRoutes.RegisterThenLogin` | app/api/routes/auth.py:60-131 | after registering, logging in with the same email and password yields a token for the new id with role "subscriber" |
| `AuthRoutes.Me` | app/api/routes/auth.py:138-145 | returns the authenticated user unchanged, or the uniform 401 |
| `UsersRoutes.ListUsers` | app/api/routes/users.py:58-75 | every row of the table, only for an authenticated super_admin; otherwise the gate's error, with its status code and detail |
| `UsersRoutes.ApplyUpdate` | app/api/routes/users.py:106-113 | each provided field replaces the stored one, absent fields are kept, and id, email and hash never change |
| `UsersRoutes.ApplyUpdateIdempotent` | app/api/routes/users.py:106-113 | applying the same update twice equals applying it once |
| `UsersRoutes.EmptyUpdateIsNoOp` | app/api/routes/users.py:106-113 | an update with every field None changes nothing |
| `UsersRoutes.FullNameNeverCleared` | app/api/routes/users.py:107-108 | an update cannot clear a full name |
| `UsersRoutes.UpdateKeepsInvariant` | app/api/routes/users.py:106-113 | updating a row in place keeps ids and emails unique and hashes within 255 |
| `UsersRoutes.UpdateGovernsExistingTokens` | app/api/routes/users.py:106-113 | after an update, a token issued before it gets 401 if the account was deactivated, and passes the role gate exactly when the new role is allowed |
| `UsersRoutes.UpdateUser` | app/api/routes/users.py:82-122 | the gate's 401/403 first and 404 for an unknown id, both with the table unchanged; otherwise only the row with that id is replaced by its update and returned |
| `Seeds.SeedListShape` | app/seeds/seed_users.py:26-48 | three entries with distinct emails, one per role, all active |
| `Seeds.SeedObject` | app/seeds/seed_users.py:80-89 | a seeded object carries the entry's email, full name, role and flag and the hash of its password |
| `Seeds.Missing` | app/seeds/seed_users.py:75-90 | every object added comes from a seed entry whose email no row carries |
| `Seeds.MissingCountsAbsent` | app/seeds/seed_users.py:72-97 | the created count equals the number of seed emails not already in the table |
| `Seeds.MissingAdmissible` | app/seeds/seed_users.py:80-94 | with a hash that fits its column, the seeded batch violates no constraint |
| `Seeds.MissingCoversAll` | app/seeds/seed_users.py:75-94 | after the seeded rows are written, every seed email is in the table |
| `Seeds.NothingMissingWhenAllPresent` | app/seeds/seed_users.py:75-78 | when every seed email exists, every entry is skipped |
| `Seeds.SeedSecondRunCreatesNothing` | app/seeds/seed_users.py:56-60 | a second run right after a first finds nothing to insert |
| `Seeds.SeedUsers` | app/seeds/seed_users.py:55-97 | created counts the missing entries and created + skipped = 3; the new rows are the old rows followed by the missing entries, and the id sequence advances by the number created; on a failed commit no row is stored and the sequence advances by the objects sent; nothing changes when nothing is missing |

## Findings

| source | as written | input that shows it | evidently intended | confidence | as-written member | corrected member |
|---|---|---|---|---|---|---|
| app/api/routes/auth.py:81 | `role=UserRole.subscriber`, but the member is `SUBSCRIBER` (app/models/user.py:38). Evaluating the argument raises AttributeError before `create` runs, so every registration that passes the checks is a 500 | `{email: "a@x.com", password: "Abc12345!", full_name: "A"}` on an empty table | create the user with role subscriber, as the docstring (line 64) and comment (line 75) say | high; not executed | `AuthRoutes.RegisterAsWrittenNeverCreates` | `AuthRoutes.Register` |

The rest of the model uses the corrected registration: `RegisterOutcome` with the member name
`"SUBSCRIBER"`.

## Left out

- Hash, verify, encode and decode: bcrypt, JWT signing and expiry are library code (app/core/security.py). They are function parameters here. bcrypt's random salt is not modelled: the hasher is a fixed function of the password, and the proofs need only `verify(p, hash(p))`.
- Token expiry and the wall clock (`datetime.now`): an expired token is one that the decoder maps to None.
- `Deps.SubjectId`: Python's `int()` also accepts surrounding whitespace, underscores between digits, non-ASCII digits and non-string claim values. The model accepts only an optional sign and ASCII digits. Tokens issued by login always carry the `str(id)` form.
- Regex classes `\w`, `\d`, `\s` are modelled over ASCII (`\s` as tab to carriage return, U+001C to U+001F, and space). Python's Unicode classes would also count non-ASCII letters and digits as word characters and digits, and non-ASCII spaces such as U+0085 and U+00A0 as whitespace.
- Pydantic's other validation (the `EmailStr` grammar and its normalisation, error aggregation) is not modelled. The length messages are Pydantic's wording, not the repository's. Emails are compared as given.
- The missing `Authorization` header is answered 401 by the framework before `get_current_user` runs. The model starts from the token string.
- `Database.UserTable.Add`: the model takes it that the flush sends the objects in order, each drawing its id before the database checks its constraints, and stops at the first refused one. PostgreSQL does not promise in which order a multi-row INSERT evaluates its defaults and checks. So the exact number of ids a failed flush uses up is an assumption. That it stores no row is not.
- Sessions, transactions and async I/O are not modelled. A flush and a commit are one step here, because nothing in `register` can fail between them. Database outages are not modelled. Concurrent requests are not modelled; a race on the same email would end at the unique constraint as a 500.
- The `UserOut` projection, which drops `password_hash` from responses, is serialisation. Routes return the `User` record.
- `UsersRoutes.ListUsers`: a query without ORDER BY has no defined order. The model returns the rows in insertion order.
- created_at/updated_at timestamps are not modelled.
- The seeder's `main` (printing the report), the CLI, settings loading, the database engine, the migrations and the root/health endpoints are not part of this model.
