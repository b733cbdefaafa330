// The JSON Web Token claims of a session (src/model/claim.rs). Signing and
// verifying tokens is done by a library the model does not see: `encode` and
// `decode` are parameters, and `decode` stands for the whole check the library
// makes (signature and expiry).

module Claim {
  import opened Common
  import opened Database
  import Response

  /** What a token carries. The role is filled from the store on every request, never from the token. */
  datatype Claims = Claims(id: Id, username: string, role: Option<UserRole>, exp: nat)

  const HOUR_TO_SECOND: nat := 60 * 60

  /** A token lives thirty days. */
  const TOKEN_LIFETIME: nat := HOUR_TO_SECOND * 24 * 30

  const NANOS_PER_SECOND: nat := 1_000_000_000

  const ID_MISSING: string := "id not found in db!"
  const USERNAME_MISSING: string := "username not found in db!"

  /**
   * Expiry, in whole seconds since the Unix epoch, of a token made at `nowNanos`
   * (nanoseconds since the epoch): a time before the epoch counts as zero.
   */
  function ExpiresAt(nowNanos: int): nat
  {
    var t := nowNanos + TOKEN_LIFETIME * NANOS_PER_SECOND;
    if t >= 0 then t / NANOS_PER_SECOND else 0
  }

  /** After the epoch, a token expires thirty days after the second it was made in. */
  lemma ExpiresThirtyDaysLater(nowNanos: nat)
    ensures ExpiresAt(nowNanos) == nowNanos / NANOS_PER_SECOND + 2_592_000
  {
    var n := NANOS_PER_SECOND;
    var q, r := nowNanos / n, nowNanos % n;
    assert nowNanos + TOKEN_LIFETIME * n == (q + TOKEN_LIFETIME) * n + r;
  }

  /** The claims `create_token` signs: the user's id and name, no role, the expiry. */
  function BuildClaims(user: User, nowNanos: int): (r: Result<Claims>)
    ensures user.id.None? <==> r == Failure(ID_MISSING)
    ensures user.id.Some? && user.username.None? <==> r == Failure(USERNAME_MISSING)
    ensures r.Success? ==> Some(r.value.id) == user.id && Some(r.value.username) == user.username
    ensures r.Success? ==> r.value.role.None? && r.value.exp == ExpiresAt(nowNanos)
  {
    match user.id
    case None => Failure(ID_MISSING)
    case Some(id) =>
      match user.username
      case None => Failure(USERNAME_MISSING)
      case Some(name) => Success(Claims(id, name, None, ExpiresAt(nowNanos)))
  }

  /** `create_token`: the signed claims of a stored user. */
  function CreateToken(user: User, nowNanos: int, encode: Claims -> Result<string>): Result<string>
  {
    match BuildClaims(user, nowNanos)
    case Failure(e) => Failure(e)
    case Success(c) => encode(c)
  }

  /** A token is made exactly for users that have an id and a name and whose claims the library signs. */
  lemma CreateTokenFor(user: User, nowNanos: int, encode: Claims -> Result<string>)
    ensures CreateToken(user, nowNanos, encode).Success? <==>
            user.id.Some? && user.username.Some? &&
            encode(Claims(user.id.value, user.username.value, None, ExpiresAt(nowNanos))).Success?
  {
  }

  /** `Claims::from_token`. */
  function FromToken(token: string, decode: string -> Result<Claims>): Result<Claims>
  {
    decode(token)
  }

  datatype Extraction = Extracted(claims: Claims) | Rejected(response: Response.GeneralResponse<bool>)

  /**
   * The `Claims` extractor. `bearer` is what extracting the typed Authorization
   * header gave: the bearer token, or the extraction error's text. Either failure,
   * of the header or of the token, is answered with its text in a G0004 body.
   */
  function FromRequestParts(bearer: Result<string>, decode: string -> Result<Claims>): (r: Extraction)
    ensures bearer.Failure? ==> r == Rejected(Response.NewError(bearer.error))
    ensures bearer.Success? && decode(bearer.value).Failure? ==> r == Rejected(Response.NewError(decode(bearer.value).error))
    ensures r.Extracted? <==> bearer.Success? && decode(bearer.value).Success?
    ensures r.Extracted? ==> r.claims == decode(bearer.value).value
  {
    match bearer
    case Failure(e) => Rejected(Response.NewError(e))
    case Success(token) =>
      match FromToken(token, decode)
      case Failure(e) => Rejected(Response.NewError(e))
      case Success(c) => Extracted(c)
  }
}
