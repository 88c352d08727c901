/**
 * Stand-ins for the cryptographic helpers and settings the session layer uses.
 * bcrypt, SHA-256 and HS256 signing are modelled as exact, collision-free tags;
 * `secrets.token_urlsafe` and `uuid4` are fresh values chosen by the caller.
 */
module AuthUtils {
  import opened Common

  /** Primary keys are uuid4 strings. */
  type Id = string

  /** `settings.ACCESS_TOKEN_EXPIRE_MINUTES` */
  const ACCESS_TOKEN_EXPIRE_MINUTES: int := 30

  /** Lifetime of an access token in seconds (the JWT `exp` is a NumericDate in seconds). */
  const ACCESS_TOKEN_LIFETIME: int := ACCESS_TOKEN_EXPIRE_MINUTES * 60

  /** `timedelta(days=30)` in seconds: refresh-record expiry. */
  const REFRESH_TOKEN_LIFETIME: int := 30 * 24 * 60 * 60

  /** `hashlib.sha256(token).hexdigest()`, modelled as a collision-free tag. */
  datatype Digest = Sha256(plain: string)

  function HashRefreshToken(token: string): (d: Digest)
    ensures d.plain == token
  {
    Sha256(token)
  }

  /** A bcrypt hash, modelled as a tag of the password it was made from. */
  datatype PasswordHash = Bcrypt(password: string)

  function HashPassword(password: string): PasswordHash {
    Bcrypt(password)
  }

  function VerifyPassword(plain: string, hashed: PasswordHash): (ok: bool)
    ensures ok <==> hashed == HashPassword(plain)
  {
    hashed.password == plain
  }

  /** The claims of an access token; `sub` may be missing from a decoded payload. */
  datatype Claims = Claims(sub: Option<Id>, email: string, role: Role, exp: int)

  /**
   * An access-token cookie value: either a JWT whose HS256 signature matches
   * `JWT_SECRET` (and so carries claims), or any other string.
   */
  datatype AccessToken = Signed(claims: Claims) | Unsigned(raw: string)

  /** `create_access_token({"sub", "email", "role"})` at time `now` (seconds). */
  function CreateAccessToken(sub: Id, email: string, role: Role, now: int): (t: AccessToken)
    ensures t.Signed? && t.claims.sub == Some(sub)
    ensures t.claims.exp == now + ACCESS_TOKEN_LIFETIME
  {
    Signed(Claims(Some(sub), email, role, now + ACCESS_TOKEN_LIFETIME))
  }

  /**
   * `verify_access_token`: the payload of a correctly signed token that has not
   * expired (python-jose rejects a token when `exp < now`), and None otherwise.
   */
  function VerifyAccessToken(token: AccessToken, now: int): (payload: Option<Claims>)
    ensures payload.Some? <==> token.Signed? && now <= token.claims.exp
    ensures payload.Some? ==> payload.value == token.claims
  {
    match token
    case Signed(c) => if c.exp < now then None else Some(c)
    case Unsigned(_) => None
  }

  /** A freshly created token verifies, with the claims it was created with, until it expires. */
  lemma {:induction false} CreateThenVerify(sub: Id, email: string, role: Role, now: int, later: int)
    ensures var t := CreateAccessToken(sub, email, role, now);
      VerifyAccessToken(t, later) == if later <= now + ACCESS_TOKEN_LIFETIME then Some(t.claims) else None
  {
  }

  /** A value set on or removed from the response's cookies. */
  datatype CookieValue = AccessCookie(token: AccessToken) | RefreshCookie(plain: string)
  datatype CookieOp =
    | SetCookie(name: string, value: CookieValue, maxAge: int)
    | DeleteCookie(name: string)

  /**
   * The cookies a browser holds, by name. Expiry is not tracked: each auth
   * cookie's max-age equals the lifetime of what it carries, so the token
   * checks stand in for it.
   */
  type CookieJar = map<string, CookieValue>

  /** The jar after the browser applies a response's `Set-Cookie` headers in order. */
  function ApplyCookies(jar: CookieJar, ops: seq<CookieOp>): CookieJar
    decreases |ops|
  {
    if ops == [] then jar
    else
      var next := match ops[0]
        case SetCookie(n, v, _) => jar[n := v]
        case DeleteCookie(n) => jar - {n};
      ApplyCookies(next, ops[1..])
  }

  /** `request.cookies.get("access_token")` */
  function JarAccess(jar: CookieJar): Option<AccessToken> {
    if "access_token" in jar && jar["access_token"].AccessCookie? then Some(jar["access_token"].token) else None
  }

  /** `request.cookies.get("refresh_token")` */
  function JarRefresh(jar: CookieJar): Option<string> {
    if "refresh_token" in jar && jar["refresh_token"].RefreshCookie? then Some(jar["refresh_token"].plain) else None
  }
}
