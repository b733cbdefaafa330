// The middleware in front of the protected routes (src/layer.rs): find the
// session token, check it, load the user, and let the role gates decide.

module Layer {
  import opened Common
  import opened Database
  import opened Claim
  import Table

  const BEARER_PREFIX: string := "Bearer "

  /** The token of an `Authorization: Bearer <token>` header; the prefix is matched case-sensitively. */
  function BearerToken(authorization: Option<string>): Option<string>
  {
    match authorization
    case None => None
    case Some(raw) =>
      match HeaderToStr(raw)
      case None => None
      case Some(v) => if |v| >= 7 && v[..7] == BEARER_PREFIX then Some(v[7..]) else None
  }

  /** The header's bearer token when there is one, otherwise the value of the "token" cookie. */
  function SelectToken(authorization: Option<string>, cookieToken: Option<string>): Option<string>
  {
    match BearerToken(authorization)
    case Some(t) => Some(t)
    case None => cookieToken
  }

  /** The header yields a token exactly when it is printable text that starts with "Bearer "; that token wins over the cookie. */
  lemma BearerTokenIff(raw: string, token: string, cookieToken: Option<string>)
    ensures BearerToken(Some(raw)) == Some(token) <==> HeaderToStr(raw).Some? && raw == BEARER_PREFIX + token
    ensures BearerToken(Some(raw)) == Some(token) ==> SelectToken(Some(raw), cookieToken) == Some(token)
    ensures BearerToken(Some(raw)).None? ==> SelectToken(Some(raw), cookieToken) == cookieToken
  {
    if HeaderToStr(raw).Some? && raw == BEARER_PREFIX + token {
      assert raw[..7] == BEARER_PREFIX && raw[7..] == token;
    }
  }

  /** The stored user a token names: same id and same username. */
  function TokenUser(c: Claims): User -> bool
  {
    (u: User) => IdIs(u.id, c.id) && u.username == Some(c.username)
  }

  /**
   * `authenticated_layer`. `Ok(claims)` means the request goes on with these claims
   * attached; no token, or a token naming no stored user, is answered UNAUTHORIZED,
   * and a token that does not decode is answered with the decoder's error.
   */
  function Authenticate(users: seq<User>, authorization: Option<string>, cookieToken: Option<string>,
                        decode: string -> Result<Claims>): Outcome<Claims>
  {
    match SelectToken(authorization, cookieToken)
    case None => General(Unauthorized, None)
    case Some(token) =>
      match FromToken(token, decode)
      case Failure(e) => General(BadRequest, Some(e))
      case Success(c) =>
        match Table.FindFirst(users, TokenUser(c))
        case None => General(Unauthorized, None)
        case Some(u) => Ok(c.(role := u.role))
  }

  /**
   * A request passes exactly when its token decodes to claims naming a stored user,
   * and it goes on with the role that user has in the store, whatever role the token claimed.
   */
  lemma AuthenticateIff(users: seq<User>, authorization: Option<string>, cookieToken: Option<string>,
                        decode: string -> Result<Claims>, c: Claims)
    ensures Authenticate(users, authorization, cookieToken, decode) == Ok(c) ==>
              exists token, i :: SelectToken(authorization, cookieToken) == Some(token)
                && decode(token).Success? && 0 <= i < |users| && TokenUser(decode(token).value)(users[i])
                && c == decode(token).value.(role := users[i].role)
    ensures SelectToken(authorization, cookieToken).Some?
            && decode(SelectToken(authorization, cookieToken).value).Success?
            && (exists i :: 0 <= i < |users| && TokenUser(decode(SelectToken(authorization, cookieToken).value).value)(users[i]))
            ==> Authenticate(users, authorization, cookieToken, decode).Ok?
  {
    var r := Authenticate(users, authorization, cookieToken, decode);
    if r == Ok(c) {
      var token := SelectToken(authorization, cookieToken).value;
      var d := decode(token).value;
      var u := Table.FindFirst(users, TokenUser(d)).value;
      var i :| 0 <= i < |users| && users[i] == u;
      assert TokenUser(decode(token).value)(users[i]);
    }
  }

  /** `admin_layer`, `salon_owner_layer` and `customer_layer`: pass on exactly the role they name. */
  function Gate(required: UserRole, c: Claims): Outcome<Claims>
  {
    if c.role == Some(required) then Ok(c) else General(Unauthorized, None)
  }

  function AdminLayer(c: Claims): Outcome<Claims>
  {
    Gate(Admin, c)
  }

  function SalonOwnerLayer(c: Claims): Outcome<Claims>
  {
    Gate(SalonOwner, c)
  }

  function CustomerLayer(c: Claims): Outcome<Claims>
  {
    Gate(Customer, c)
  }

  /**
   * At most one gate opens for a session, a gate that opens passes the claims on
   * unchanged, and an account without a role, or with the role SALON_USER that the
   * records' revision gives salon accounts, opens none.
   */
  lemma GatesExclusive(c: Claims)
    ensures !(AdminLayer(c).Ok? && SalonOwnerLayer(c).Ok?) && !(AdminLayer(c).Ok? && CustomerLayer(c).Ok?)
    ensures !(SalonOwnerLayer(c).Ok? && CustomerLayer(c).Ok?)
    ensures AdminLayer(c).Ok? ==> AdminLayer(c) == Ok(c)
    ensures SalonOwnerLayer(c).Ok? ==> SalonOwnerLayer(c) == Ok(c)
    ensures CustomerLayer(c).Ok? ==> CustomerLayer(c) == Ok(c)
    ensures c.role.None? || c.role == Some(SalonUser) ==>
              AdminLayer(c).General? && SalonOwnerLayer(c).General? && CustomerLayer(c).General?
  {
  }
}
