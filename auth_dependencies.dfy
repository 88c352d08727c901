/**
 * backend/app/auth/dependencies.py: refresh-token rotation, resolution of the
 * current user with lazy refresh, role checks and the auth cookies.
 */
module AuthDependencies {
  import opened Common
  import opened AuthUtils
  import opened Database

  /** `AuthenticationError(detail)`: a 401. */
  function AuthError(detail: string): (e: HttpError)
    ensures e.status == 401
  {
    HttpError(401, detail)
  }

  /** The filter of the rotation lookup: equal hash, not revoked, `expires_at > now`. */
  predicate Usable(t: RefreshToken, d: Digest, now: int) {
    t.hashedToken == d && !t.isRevoked && t.expiresAt > now
  }

  /** The record the rotation lookup's `.first()` returns. */
  function FindUsable(tokens: seq<RefreshToken>, d: Digest, now: int): (r: Option<nat>)
    ensures r.Some? ==> r.value < |tokens| && Usable(tokens[r.value], d, now)
    ensures r.Some? ==> forall j :: 0 <= j < r.value ==> !Usable(tokens[j], d, now)
    ensures r.None? <==> forall j :: 0 <= j < |tokens| ==> !Usable(tokens[j], d, now)
  {
    First(tokens, (t: RefreshToken) => Usable(t, d, now))
  }

  /** The root or successor record that login, register and rotation add. */
  function NewRecord(id: Id, plain: string, userId: Id, now: int): RefreshToken {
    RefreshToken(id, HashRefreshToken(plain), userId, false, now + REFRESH_TOKEN_LIFETIME, None)
  }

  /** A new record's id and plaintext are unused: uuid4 and `token_urlsafe` give fresh values. */
  ghost predicate FreshRecord(tokens: seq<RefreshToken>, id: Id, plain: string) {
    id !in TokenIds(tokens) && HashRefreshToken(plain) !in Digests(tokens)
  }

  /** The table after rotating record `i`: it is revoked and linked to `next`, which is appended. */
  function Rotate(tokens: seq<RefreshToken>, i: nat, next: RefreshToken): seq<RefreshToken>
    requires i < |tokens|
  {
    tokens[i := tokens[i].(isRevoked := true, replacedById := Some(next.id))] + [next]
  }

  /** What a rotation does, and that it changes no other record. */
  lemma RotateEffect(tokens: seq<RefreshToken>, i: nat, next: RefreshToken)
    requires i < |tokens|
    ensures var t := Rotate(tokens, i, next);
      && |t| == |tokens| + 1
      && t[i].isRevoked && t[i].replacedById == Some(next.id)
      && t[i] == tokens[i].(isRevoked := true, replacedById := Some(next.id))
      && t[|tokens|] == next
      && forall j :: 0 <= j < |tokens| && j != i ==> t[j] == tokens[j]
  {
  }

  /** Rotation keeps `hashed_token` unique when the new hash is fresh. */
  lemma {:induction false} RotateKeepsUnique(tokens: seq<RefreshToken>, i: nat, next: RefreshToken)
    requires i < |tokens| && UniqueDigests(tokens) && next.hashedToken !in Digests(tokens)
    ensures UniqueDigests(Rotate(tokens, i, next))
  {
    var t := Rotate(tokens, i, next);
    forall a, b | 0 <= a < b < |t| ensures t[a].hashedToken != t[b].hashedToken {
      if b == |tokens| {
        assert tokens[a] in tokens;
      }
    }
  }

  /**
   * Single use: once the record matching `plain` has been rotated, presenting
   * `plain` again finds nothing, at any later time.
   */
  lemma {:induction false} SingleUse(tokens: seq<RefreshToken>, plain: string, now: int, next: RefreshToken, later: int)
    requires UniqueDigests(tokens)
    requires FindUsable(tokens, HashRefreshToken(plain), now).Some?
    requires next.hashedToken != HashRefreshToken(plain)
    ensures var i := FindUsable(tokens, HashRefreshToken(plain), now).value;
      FindUsable(Rotate(tokens, i, next), HashRefreshToken(plain), later).None?
  {
    var d := HashRefreshToken(plain);
    var i := FindUsable(tokens, d, now).value;
    var t := Rotate(tokens, i, next);
    forall j | 0 <= j < |t| ensures !Usable(t[j], d, later) {
      if j < |tokens| && j != i {
        assert tokens[j].hashedToken != tokens[i].hashedToken;
      }
    }
  }

  /** The response cookies `set_auth_cookies` writes. */
  function SetAuthCookies(access: AccessToken, refresh: string): (ops: seq<CookieOp>)
    ensures |ops| == 2
    ensures ops[0].SetCookie? && ops[0].name == "access_token" && ops[0].value == AccessCookie(access)
    ensures ops[1].SetCookie? && ops[1].name == "refresh_token" && ops[1].value == RefreshCookie(refresh)
  {
    [ SetCookie("access_token", AccessCookie(access), ACCESS_TOKEN_EXPIRE_MINUTES * 60),
      SetCookie("refresh_token", RefreshCookie(refresh), 30 * 24 * 60 * 60) ]
  }

  /** `clear_auth_cookies` */
  function ClearAuthCookies(): seq<CookieOp> {
    [DeleteCookie("access_token"), DeleteCookie("refresh_token")]
  }

  /**
   * Whatever a browser held before, after the headers of `set_auth_cookies`
   * its next request carries the JWT as `access_token` and the plaintext as
   * `refresh_token`; after those of `clear_auth_cookies` it carries neither.
   */
  lemma {:induction false} AuthCookiesReadBack(jar: CookieJar, access: AccessToken, refresh: string)
    ensures JarAccess(ApplyCookies(jar, SetAuthCookies(access, refresh))) == Some(access)
    ensures JarRefresh(ApplyCookies(jar, SetAuthCookies(access, refresh))) == Some(refresh)
    ensures JarAccess(ApplyCookies(jar, ClearAuthCookies())).None?
    ensures JarRefresh(ApplyCookies(jar, ClearAuthCookies())).None?
  {
    var set1 := jar["access_token" := AccessCookie(access)];
    var set2 := set1["refresh_token" := RefreshCookie(refresh)];
    var ops := SetAuthCookies(access, refresh);
    assert ApplyCookies(set2, ops[2..]) == set2 by { assert ops[2..] == []; }
    assert ApplyCookies(set1, ops[1..]) == ApplyCookies(set2, ops[2..]);
    var clear1 := jar - {"access_token"};
    var clear2 := clear1 - {"refresh_token"};
    var cl := ClearAuthCookies();
    assert ApplyCookies(clear2, cl[2..]) == clear2 by { assert cl[2..] == []; }
    assert ApplyCookies(clear1, cl[1..]) == ApplyCookies(clear2, cl[2..]);
  }

  /**
   * The `Set-Cookie` headers a client receives from a handler that wrote
   * `written` to its injected `Response`: FastAPI copies them onto the reply
   * only when the handler returns; a raised `HTTPException` is answered by a
   * new response of the exception handler, without them.
   */
  function Received(raised: bool, written: seq<CookieOp>): seq<CookieOp> {
    if raised then [] else written
  }

  /**
   * Each cookie lives exactly as long as what it carries: the access cookie
   * until the JWT's `exp`, the refresh cookie until the record's `expires_at`.
   */
  lemma CookieLifetimes(u: User, id: Id, plain: string, now: int)
    ensures var access := CreateAccessToken(u.id, u.email, u.role, now);
      var ops := SetAuthCookies(access, plain);
      && ops[0].name == "access_token" && now + ops[0].maxAge == access.claims.exp
      && ops[1].name == "refresh_token" && now + ops[1].maxAge == NewRecord(id, plain, u.id, now).expiresAt
  {
  }

  /** The record and user a refresh with `plain` would rotate for, if any. */
  function RotationTarget(tokens: seq<RefreshToken>, users: seq<User>, plain: string, now: int): (r: Option<(nat, nat)>)
    ensures r.Some? ==> r.value.0 < |tokens| && r.value.1 < |users|
    ensures r.Some? ==> users[r.value.1].id == tokens[r.value.0].userId
    ensures r.Some? ==> Usable(tokens[r.value.0], HashRefreshToken(plain), now)
  {
    match FindUsable(tokens, HashRefreshToken(plain), now)
    case None => None
    case Some(i) =>
      match GetUser(users, tokens[i].userId)
      case None => None
      case Some(k) => Some((i, k))
  }

  /**
   * `refresh_user_token`: look up a usable record by hash, require its user,
   * then revoke it, add one successor for the same user and set new cookies.
   */
  method RefreshUserToken(db: Db, presented: string, now: int, newId: Id, newPlain: string)
    returns (r: Result<User, HttpError>, cookies: seq<CookieOp>)
    requires db.Valid() && FreshRecord(db.refreshTokens, newId, newPlain)
    modifies db`refreshTokens
    ensures db.Valid()
    ensures var found := FindUsable(old(db.refreshTokens), HashRefreshToken(presented), now);
      && (found.None? ==> r == Err(AuthError("Invalid or expired refresh token")))
      && (found.Some? && GetUser(db.users, old(db.refreshTokens)[found.value].userId).None? ==>
            r == Err(AuthError("User not found")))
    ensures r.Err? ==> db.refreshTokens == old(db.refreshTokens) && cookies == []
    ensures match RotationTarget(old(db.refreshTokens), db.users, presented, now)
      case None => r.Err?
      case Some((i, k)) =>
        var u := db.users[k];
        && r == Ok(u)
        && db.refreshTokens == Rotate(old(db.refreshTokens), i, NewRecord(newId, newPlain, u.id, now))
        && cookies == SetAuthCookies(CreateAccessToken(u.id, u.email, u.role, now), newPlain)
  {
    var hashed := HashRefreshToken(presented);
    var found := FindUsable(db.refreshTokens, hashed, now);
    if found.None? {
      return Err(AuthError("Invalid or expired refresh token")), [];
    }
    var i := found.value;
    var owner := GetUser(db.users, db.refreshTokens[i].userId);
    if owner.None? {
      return Err(AuthError("User not found")), [];
    }
    var user := db.users[owner.value];
    var access := CreateAccessToken(user.id, user.email, user.role, now);
    var next := NewRecord(newId, newPlain, user.id, now);
    RotateKeepsUnique(db.refreshTokens, i, next);
    db.refreshTokens := Rotate(db.refreshTokens, i, next);
    r, cookies := Ok(user), SetAuthCookies(access, newPlain);
  }

  /** The payload of the access cookie, when it verifies and names a subject. */
  function AccessSubject(access: Option<AccessToken>, now: int): (sub: Option<Id>)
    ensures sub.Some? <==> access.Some? && VerifyAccessToken(access.value, now).Some?
                            && access.value.claims.sub.Some?
  {
    if access.None? then None
    else match VerifyAccessToken(access.value, now)
      case None => None
      case Some(payload) => payload.sub
  }

  /**
   * `get_current_user`: the access token first; only when it is missing, does
   * not verify or has no `sub`, a rotation with the refresh cookie, any failure
   * of which is "Authentication failed".
   */
  method GetCurrentUser(db: Db, access: Option<AccessToken>, refresh: Option<string>, now: int, newId: Id, newPlain: string)
    returns (r: Result<User, HttpError>, cookies: seq<CookieOp>)
    requires db.Valid() && FreshRecord(db.refreshTokens, newId, newPlain)
    modifies db`refreshTokens
    ensures db.Valid()
    ensures r.Err? ==> r.error.status == 401 && db.refreshTokens == old(db.refreshTokens) && cookies == []
    ensures r.Ok? <==> Authenticates(old(db.refreshTokens), db.users, access, refresh, now)
    ensures AccessSubject(access, now).Some? ==>
      var sub := AccessSubject(access, now).value;
      && db.refreshTokens == old(db.refreshTokens) && cookies == []
      && match GetUser(db.users, sub)
         case None => r == Err(AuthError("User not found"))
         case Some(k) => r == Ok(db.users[k])
    ensures AccessSubject(access, now).None? ==>
      if !Truthy(refresh) then r == Err(AuthError("Authentication failed"))
      else match RotationTarget(old(db.refreshTokens), db.users, refresh.value, now)
        case None => r == Err(AuthError("Authentication failed"))
        case Some((i, k)) =>
          var u := db.users[k];
          && r == Ok(u)
          && db.refreshTokens == Rotate(old(db.refreshTokens), i, NewRecord(newId, newPlain, u.id, now))
          && cookies == SetAuthCookies(CreateAccessToken(u.id, u.email, u.role, now), newPlain)
  {
    var sub := AccessSubject(access, now);
    if sub.None? {
      if !Truthy(refresh) {
        return Err(AuthError("Authentication failed")), [];
      }
      r, cookies := RefreshUserToken(db, refresh.value, now, newId, newPlain);
      if r.Err? {
        r := Err(AuthError("Authentication failed"));
      }
      return;
    }
    cookies := [];
    var k := GetUser(db.users, sub.value);
    if k.None? {
      return Err(AuthError("User not found")), [];
    }
    r := Ok(db.users[k.value]);
  }

  /** Whether `get_current_user` finds a user for a request with these cookies at `now`. */
  predicate Authenticates(tokens: seq<RefreshToken>, users: seq<User>, access: Option<AccessToken>, refresh: Option<string>, now: int) {
    match AccessSubject(access, now)
    case Some(sub) => GetUser(users, sub).Some?
    case None => Truthy(refresh) && RotationTarget(tokens, users, refresh.value, now).Some?
  }

  /**
   * As written: `get_current_user` commits a rotation before the route runs.
   * When the route then raises (a failed role check, a 404), the new cookies
   * are dropped with the injected response. The client keeps the refresh
   * token that was just revoked and the access token that had already failed,
   * so every later request with its cookies is refused.
   */
  lemma {:induction false} RotationLostOnError(tokens: seq<RefreshToken>, users: seq<User>, jar: CookieJar, now: int, later: int, newId: Id, newPlain: string)
    requires UniqueDigests(tokens) && FreshRecord(tokens, newId, newPlain)
    requires AccessSubject(JarAccess(jar), now).None? && Truthy(JarRefresh(jar))
    requires RotationTarget(tokens, users, JarRefresh(jar).value, now).Some?
    requires now <= later
    ensures var target := RotationTarget(tokens, users, JarRefresh(jar).value, now).value;
      var u := users[target.1];
      var rotated := Rotate(tokens, target.0, NewRecord(newId, newPlain, u.id, now));
      var after := ApplyCookies(jar, Received(true, SetAuthCookies(CreateAccessToken(u.id, u.email, u.role, now), newPlain)));
      !Authenticates(rotated, users, JarAccess(after), JarRefresh(after), later)
  {
    var plain := JarRefresh(jar).value;
    var target := RotationTarget(tokens, users, plain, now).value;
    var u := users[target.1];
    var next := NewRecord(newId, newPlain, u.id, now);
    var after := ApplyCookies(jar, Received(true, SetAuthCookies(CreateAccessToken(u.id, u.email, u.role, now), newPlain)));
    assert after == jar;
    assert tokens[target.0] in tokens;
    SingleUse(tokens, plain, now, next, later);
  }

  /**
   * The intended delivery: the new cookies reach the client whether or not
   * the route raises (for instance passed on along with the exception).
   */
  function ReceivedCorrected(raised: bool, written: seq<CookieOp>): seq<CookieOp> {
    written
  }

  /**
   * With the intended delivery, a client whose request rotated stays signed
   * in, whatever the route answered, until the new refresh record expires.
   */
  lemma {:induction false} RotationKeptCorrected(tokens: seq<RefreshToken>, users: seq<User>, jar: CookieJar, now: int, later: int, newId: Id, newPlain: string, raised: bool)
    requires UniqueDigests(tokens) && FreshRecord(tokens, newId, newPlain) && newPlain != ""
    requires AccessSubject(JarAccess(jar), now).None? && Truthy(JarRefresh(jar))
    requires RotationTarget(tokens, users, JarRefresh(jar).value, now).Some?
    requires now <= later < now + REFRESH_TOKEN_LIFETIME
    ensures var target := RotationTarget(tokens, users, JarRefresh(jar).value, now).value;
      var u := users[target.1];
      var rotated := Rotate(tokens, target.0, NewRecord(newId, newPlain, u.id, now));
      var after := ApplyCookies(jar, ReceivedCorrected(raised, SetAuthCookies(CreateAccessToken(u.id, u.email, u.role, now), newPlain)));
      Authenticates(rotated, users, JarAccess(after), JarRefresh(after), later)
  {
    var target := RotationTarget(tokens, users, JarRefresh(jar).value, now).value;
    var u := users[target.1];
    var access := CreateAccessToken(u.id, u.email, u.role, now);
    var next := NewRecord(newId, newPlain, u.id, now);
    var rotated := Rotate(tokens, target.0, next);
    AuthCookiesReadBack(jar, access, newPlain);
    assert users[target.1] in users;
    if later > now + ACCESS_TOKEN_LIFETIME {
      var d := HashRefreshToken(newPlain);
      assert Usable(rotated[|tokens|], d, later);
      forall j | 0 <= j < |tokens| ensures rotated[j].hashedToken != d {
        assert tokens[j] in tokens;
      }
    }
  }

  /** The role hierarchy `require_role` enforces: STUDENT < INSTRUCTOR < ADMIN. */
  function Rank(r: Role): nat {
    match r
    case STUDENT => 0
    case INSTRUCTOR => 1
    case ADMIN => 2
  }

  /** `require_role(required)`'s `role_checker` applied to the current user. */
  function RoleChecker(required: Role, user: User): (r: Result<User, HttpError>)
    ensures r.Ok? ==> r.value == user
    ensures r.Err? ==> r.error.status == 403
    ensures r.Ok? <==> Rank(user.role) >= Rank(required)
  {
    if required == ADMIN then
      if user.role != ADMIN then Err(HttpError(403, "Admin access required")) else Ok(user)
    else if required == INSTRUCTOR then
      if user.role !in {INSTRUCTOR, ADMIN} then Err(HttpError(403, "Instructor access required")) else Ok(user)
    else Ok(user)
  }
}
