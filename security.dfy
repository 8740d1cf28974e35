/** The password hasher and the token codec as the rest of the service sees
    them. Their algorithms (bcrypt, signed JWTs) are not part of this model:
    they enter every operation as function parameters. */
module Security {
  import opened Wrappers

  /** `get_password_hash(raw)`. */
  type Hasher = string -> string

  /** `verify_password(raw, hashed)`. */
  type Verifier = (string, string) -> bool

  /** The claims of a decoded token: `sub` and `role`, each possibly absent.
      Expiry is checked inside decoding and not modelled. */
  datatype Claims = Claims(sub: Option<string>, role: Option<string>)

  /** `decode_token(token)`; None stands for the ValueError it raises on an
      invalid signature, a malformed token or an expired one. */
  type Decoder = string -> Option<Claims>

  /** `create_access_token(subject, role)` with the default lifetime. */
  type Encoder = Claims -> string

  /** The hasher's defining promise: a password verifies against its own hash. */
  ghost predicate Sound(hash: Hasher, verify: Verifier) {
    forall raw :: verify(raw, hash(raw))
  }

  /** A token issued for `claims` decodes to them again (it has not expired). */
  ghost predicate DecodesBack(encode: Encoder, decode: Decoder, claims: Claims) {
    decode(encode(claims)) == Some(claims)
  }
}
