/** Request and response schemas: the registration payload and its password
    rule, the all-optional update payload, and the login response. */
module UserSchemas {
  import opened Wrappers
  import opened UserModel

  const MinPasswordLength: nat := 8
  const MaxPasswordLength: nat := 128

  /** Why a registration password is refused. The two length errors come from
      the field's bounds, the other four from the strength validator. */
  datatype PasswordError = TooShort | TooLong | NoUppercase | NoLowercase | NoDigit | NoSymbol

  function Message(e: PasswordError): string {
    match e
    case TooShort => "String should have at least 8 characters"
    case TooLong => "String should have at most 128 characters"
    case NoUppercase => "Password must contain at least one uppercase letter."
    case NoLowercase => "Password must contain at least one lowercase letter."
    case NoDigit => "Password must contain at least one digit."
    case NoSymbol => "Password must contain at least one symbol."
  }

  /** The character classes the validator searches for, over ASCII:
      `[A-Z]`, `[a-z]`, `\d` and `[^\w\s]` (neither a word character, which
      includes `_`, nor whitespace). Whitespace is what Python's `\s` matches
      in a str pattern: the characters for which `str.isspace()` holds, which
      in ASCII are tab through carriage return, the four separators
      U+001C-U+001F, and the space. */
  datatype CharClass = Upper | Lower | Digit | Symbol

  predicate IsWordChar(c: char) {
    ('A' <= c <= 'Z') || ('a' <= c <= 'z') || ('0' <= c <= '9') || c == '_'
  }

  predicate IsSpace(c: char) {
    c == ' ' || ('\t' <= c <= '\r') || ('\U{001C}' <= c <= '\U{001F}')
  }

  predicate Matches(cls: CharClass, c: char) {
    match cls
    case Upper => 'A' <= c <= 'Z'
    case Lower => 'a' <= c <= 'z'
    case Digit => '0' <= c <= '9'
    case Symbol => !IsWordChar(c) && !IsSpace(c)
  }

  /** Some character of `v` belongs to `cls`. */
  ghost predicate Contains(v: string, cls: CharClass) {
    exists k :: 0 <= k < |v| && Matches(cls, v[k])
  }

  /** `re.search` for a one-character class: scans `v` for a matching character. */
  function Search(cls: CharClass, v: string): (found: bool)
    ensures found <==> Contains(v, cls)
  {
    if |v| == 0 then false
    else if Matches(cls, v[0]) then true
    else
      var rest := Search(cls, v[1..]);
      assert forall k :: 1 <= k < |v| ==> v[k] == v[1..][k - 1];
      rest
  }

  /** The checks of the strength validator, in the order it runs them. */
  const StrengthChecks: seq<CharClass> := [Upper, Lower, Digit, Symbol]

  function ErrorFor(cls: CharClass): PasswordError {
    match cls
    case Upper => NoUppercase
    case Lower => NoLowercase
    case Digit => NoDigit
    case Symbol => NoSymbol
  }

  /** Validation of the `password` field of a registration payload: the length
      bounds first, then the strength checks in order; a password that passes
      is returned as it is. */
  function ValidatePassword(v: string): (r: Result<string, PasswordError>)
    ensures r.Success? ==> r.value == v
  {
    if |v| < MinPasswordLength then Failure(TooShort)
    else if |v| > MaxPasswordLength then Failure(TooLong)
    else if !Search(Upper, v) then Failure(NoUppercase)
    else if !Search(Lower, v) then Failure(NoLowercase)
    else if !Search(Digit, v) then Failure(NoDigit)
    else if !Search(Symbol, v) then Failure(NoSymbol)
    else Success(v)
  }

  /** What a strong password is: 8 to 128 characters with at least one
      character of every class. */
  ghost predicate StrongPassword(v: string) {
    && MinPasswordLength <= |v| <= MaxPasswordLength
    && (forall cls: CharClass :: Contains(v, cls))
  }

  /** The validator accepts exactly the strong passwords, unchanged. */
  lemma ValidateAcceptsExactlyStrong(v: string)
    ensures ValidatePassword(v).Success? <==> StrongPassword(v)
    ensures ValidatePassword(v).Success? ==> ValidatePassword(v).value == v
  {
    if ValidatePassword(v).Success? {
      forall cls: CharClass ensures Contains(v, cls) {
        assert Search(cls, v);
      }
    }
    if StrongPassword(v) {
      assert Contains(v, Upper) && Contains(v, Lower) && Contains(v, Digit) && Contains(v, Symbol);
    }
  }

  /** A password of the wrong length is refused before any strength check. */
  lemma LengthCheckedFirst(v: string)
    ensures |v| < MinPasswordLength <==> ValidatePassword(v) == Failure(TooShort)
    ensures |v| > MaxPasswordLength <==> ValidatePassword(v) == Failure(TooLong)
  {
  }

  /** For a password of allowed length, the error reported is that of the
      first failing strength check: check `i` fails and every earlier check passes. */
  lemma FirstFailingCheckReported(v: string, i: nat)
    requires MinPasswordLength <= |v| <= MaxPasswordLength
    requires i < |StrengthChecks|
    ensures ValidatePassword(v) == Failure(ErrorFor(StrengthChecks[i])) <==>
      !Search(StrengthChecks[i], v) && forall j :: 0 <= j < i ==> Search(StrengthChecks[j], v)
  {
    assert StrengthChecks[0] == Upper && StrengthChecks[1] == Lower;
    assert StrengthChecks[2] == Digit && StrengthChecks[3] == Symbol;
  }

  /** The registration payload. Fields left out get the schema defaults. */
  datatype UserCreate = UserCreate(
    email: string,
    password: string,
    fullName: Option<string> := None,
    isActive: bool := true,
    role: Role := Subscriber)

  /** The admin update payload: every field optional and None by default. */
  datatype UserUpdate = UserUpdate(
    fullName: Option<string> := None,
    role: Option<Role> := None,
    isActive: Option<bool> := None)

  /** The login response; its type is always "bearer". */
  datatype Token = Token(accessToken: string) {
    const tokenType: string := "bearer"
  }

  lemma SchemaDefaults(email: string, password: string, access: string)
    ensures UserCreate(email, password).role == Subscriber && UserCreate(email, password).isActive
    ensures UserCreate(email, password).fullName == None
    ensures UserUpdate() == UserUpdate(None, None, None)
    ensures Token(access).tokenType == "bearer"
  {
  }
}
