/**
 * backend/app/routers/auth.py: register, login, refresh, logout and
 * logout-all over the user, profile and refresh-token tables.
 */
module AuthRouter {
  import opened Common
  import opened AuthUtils
  import opened Database
  import opened AuthDependencies

  /** The index of the user with this email: `select(User).where(User.email == email).first()`. */
  function FindByEmail(users: seq<User>, email: string): (r: Option<nat>)
    ensures r.Some? ==> r.value < |users| && users[r.value].email == email
    ensures r.None? <==> forall j :: 0 <= j < |users| ==> users[j].email != email
  {
    First(users, (u: User) => u.email == email)
  }

  /**
   * `register`: an email already present is a 400 and nothing is created;
   * otherwise one STUDENT user, then one profile carrying the name, then one
   * root refresh record, and both cookies.
   */
  method Register(db: Db, email: string, password: string, name: string, now: int,
                  userId: Id, profileId: Id, tokenId: Id, plain: string)
    returns (r: Result<User, HttpError>, cookies: seq<CookieOp>)
    requires db.Valid() && userId !in UserIds(db.users) && FreshRecord(db.refreshTokens, tokenId, plain)
    modifies db`users, db`profiles, db`refreshTokens
    ensures db.Valid()
    ensures FindByEmail(old(db.users), email).Some? <==> r.Err?
    ensures r.Err? ==>
      && r.error == HttpError(400, "Email already registered") && cookies == []
      && db.users == old(db.users) && db.profiles == old(db.profiles)
      && db.refreshTokens == old(db.refreshTokens)
    ensures r.Ok? ==>
      var u := User(userId, email, HashPassword(password), STUDENT);
      && r.value == u
      && db.users == old(db.users) + [u]
      && db.profiles == old(db.profiles) + [Profile(profileId, userId, name, None, None)]
      && db.refreshTokens == old(db.refreshTokens) + [NewRecord(tokenId, plain, userId, now)]
      && cookies == SetAuthCookies(CreateAccessToken(userId, email, STUDENT, now), plain)
  {
    var existing := FindByEmail(db.users, email);
    if existing.Some? {
      return Err(HttpError(400, "Email already registered")), [];
    }
    var user := User(userId, email, HashPassword(password), STUDENT);
    assert forall j :: 0 <= j < |db.users| ==> db.users[j].id != userId by {
      forall j | 0 <= j < |db.users| ensures db.users[j].id != userId {
        assert db.users[j] in db.users;
      }
    }
    db.users := db.users + [user];
    db.profiles := db.profiles + [Profile(profileId, userId, name, None, None)];
    var record := NewRecord(tokenId, plain, userId, now);
    AppendKeepsUnique(db.refreshTokens, record);
    db.refreshTokens := db.refreshTokens + [record];
    r := Ok(user);
    cookies := SetAuthCookies(CreateAccessToken(userId, email, STUDENT, now), plain);
  }

  /** Adding a record with a fresh hash keeps `hashed_token` unique. */
  lemma AppendKeepsUnique(tokens: seq<RefreshToken>, record: RefreshToken)
    requires UniqueDigests(tokens) && record.hashedToken !in Digests(tokens)
    ensures UniqueDigests(tokens + [record])
  {
    var t := tokens + [record];
    forall a, b | 0 <= a < b < |t| ensures t[a].hashedToken != t[b].hashedToken {
      if b == |tokens| {
        assert tokens[a] in tokens;
      }
    }
  }

  /**
   * `login`: an unknown email and a wrong password give the same 401;
   * otherwise one root record is added and no existing record is touched.
   */
  method Login(db: Db, username: string, password: string, now: int, tokenId: Id, plain: string)
    returns (r: Result<User, HttpError>, cookies: seq<CookieOp>)
    requires db.Valid() && FreshRecord(db.refreshTokens, tokenId, plain)
    modifies db`refreshTokens
    ensures db.Valid()
    ensures r.Ok? <==>
      exists j :: 0 <= j < |db.users| && db.users[j].email == username && VerifyPassword(password, db.users[j].passwordHash)
    ensures r.Err? ==>
      r.error == HttpError(401, "Incorrect email or password") && cookies == [] && db.refreshTokens == old(db.refreshTokens)
    ensures r.Ok? ==>
      var u := r.value;
      && u in db.users && u.email == username
      && db.refreshTokens == old(db.refreshTokens) + [NewRecord(tokenId, plain, u.id, now)]
      && cookies == SetAuthCookies(CreateAccessToken(u.id, u.email, u.role, now), plain)
  {
    var found := FindByEmail(db.users, username);
    if found.None? || !VerifyPassword(password, db.users[found.value].passwordHash) {
      if found.Some? {
        forall j | 0 <= j < |db.users| && db.users[j].email == username
          ensures !VerifyPassword(password, db.users[j].passwordHash)
        {
          assert j == found.value;
        }
      }
      return Err(HttpError(401, "Incorrect email or password")), [];
    }
    var user := db.users[found.value];
    var record := NewRecord(tokenId, plain, user.id, now);
    AppendKeepsUnique(db.refreshTokens, record);
    db.refreshTokens := db.refreshTokens + [record];
    r := Ok(user);
    cookies := SetAuthCookies(CreateAccessToken(user.id, user.email, user.role, now), plain);
  }

  /**
   * Several sessions coexist: a login appends, so a plaintext that could be
   * rotated before still can.
   */
  lemma {:induction false} LoginKeepsSessions(tokens: seq<RefreshToken>, record: RefreshToken, plain: string, now: int)
    requires FindUsable(tokens, HashRefreshToken(plain), now).Some?
    ensures FindUsable(tokens + [record], HashRefreshToken(plain), now) == FindUsable(tokens, HashRefreshToken(plain), now)
  {
    var d := HashRefreshToken(plain);
    var i := FindUsable(tokens, d, now).value;
    var t := tokens + [record];
    assert t[..|tokens|] == tokens;
    assert Usable(t[i], d, now);
  }

  /**
   * `refresh_token`: a missing cookie is a 401; a presented token with no
   * usable record is a 401 too (the cookies it clears on the injected
   * response are dropped when the exception is raised); a missing user is a
   * 401; otherwise the same rotation as `refresh_user_token`. `cookies` are
   * the `Set-Cookie` headers the client receives.
   */
  method RefreshTokenEndpoint(db: Db, cookie: Option<string>, now: int, newId: Id, newPlain: string)
    returns (r: Result<string, HttpError>, cookies: seq<CookieOp>)
    requires db.Valid() && FreshRecord(db.refreshTokens, newId, newPlain)
    modifies db`refreshTokens
    ensures db.Valid()
    ensures r.Err? ==> r.error.status == 401 && db.refreshTokens == old(db.refreshTokens)
    ensures !Truthy(cookie) ==> r == Err(AuthError("Refresh token not found")) && cookies == []
    ensures Truthy(cookie) && FindUsable(old(db.refreshTokens), HashRefreshToken(cookie.value), now).None? ==>
      r == Err(AuthError("Invalid or expired refresh token"))
    ensures r.Err? ==> cookies == []
    ensures Truthy(cookie) ==>
      match RotationTarget(old(db.refreshTokens), db.users, cookie.value, now)
      case None => r.Err?
      case Some((i, k)) =>
        var u := db.users[k];
        && r == Ok("Token refreshed successfully")
        && db.refreshTokens == Rotate(old(db.refreshTokens), i, NewRecord(newId, newPlain, u.id, now))
        && cookies == SetAuthCookies(CreateAccessToken(u.id, u.email, u.role, now), newPlain)
  {
    if !Truthy(cookie) {
      return Err(AuthError("Refresh token not found")), [];
    }
    var found := FindUsable(db.refreshTokens, HashRefreshToken(cookie.value), now);
    if found.None? {
      return Err(AuthError("Invalid or expired refresh token")), Received(true, ClearAuthCookies());
    }
    var user;
    user, cookies := RefreshUserToken(db, cookie.value, now, newId, newPlain);
    if user.Err? {
      return Err(user.error), cookies;
    }
    r := Ok("Token refreshed successfully");
  }

  /** The record `logout` looks up: equal hash and owned by the current user, revoked or not. */
  function LogoutTarget(tokens: seq<RefreshToken>, userId: Id, d: Digest): (r: Option<nat>)
    ensures r.Some? ==> r.value < |tokens| && tokens[r.value].hashedToken == d && tokens[r.value].userId == userId
    ensures r.None? <==> forall j :: 0 <= j < |tokens| ==> !(tokens[j].hashedToken == d && tokens[j].userId == userId)
  {
    First(tokens, (t: RefreshToken) => t.hashedToken == d && t.userId == userId)
  }

  /**
   * `logout`: with a refresh cookie, revoke the current user's record with
   * that hash, if any; always clear both cookies.
   */
  method Logout(db: Db, current: User, cookie: Option<string>) returns (cookies: seq<CookieOp>)
    requires db.Valid()
    modifies db`refreshTokens
    ensures db.Valid()
    ensures cookies == ClearAuthCookies()
    ensures |db.refreshTokens| == |old(db.refreshTokens)|
    ensures forall j :: 0 <= j < |db.refreshTokens| ==>
      db.refreshTokens[j] ==
        if Truthy(cookie) && old(db.refreshTokens)[j].hashedToken == HashRefreshToken(cookie.value)
           && old(db.refreshTokens)[j].userId == current.id
        then old(db.refreshTokens)[j].(isRevoked := true)
        else old(db.refreshTokens)[j]
  {
    if Truthy(cookie) {
      var d := HashRefreshToken(cookie.value);
      var found := LogoutTarget(db.refreshTokens, current.id, d);
      if found.Some? {
        var i := found.value;
        forall j | 0 <= j < |db.refreshTokens| && j != i
          ensures !(db.refreshTokens[j].hashedToken == d && db.refreshTokens[j].userId == current.id)
        {
          assert db.refreshTokens[j].hashedToken != db.refreshTokens[i].hashedToken;
        }
        db.refreshTokens := db.refreshTokens[i := db.refreshTokens[i].(isRevoked := true)];
      }
    }
    cookies := ClearAuthCookies();
  }

  /** Logging out with a cookie of one's own leaves that plaintext unusable. */
  lemma {:induction false} LogoutEndsSession(tokens: seq<RefreshToken>, userId: Id, plain: string, later: int)
    requires UniqueDigests(tokens)
    requires exists j :: 0 <= j < |tokens| && tokens[j].hashedToken == HashRefreshToken(plain) && tokens[j].userId == userId
    ensures var d := HashRefreshToken(plain);
      var i := LogoutTarget(tokens, userId, d).value;
      FindUsable(tokens[i := tokens[i].(isRevoked := true)], d, later).None?
  {
    var d := HashRefreshToken(plain);
    var i := LogoutTarget(tokens, userId, d).value;
    var t := tokens[i := tokens[i].(isRevoked := true)];
    forall j | 0 <= j < |t| ensures !Usable(t[j], d, later) {
      if j != i {
        assert tokens[j].hashedToken != tokens[i].hashedToken;
      }
    }
  }

  /** The table after `logout_all` for `userId`: every record of that user revoked. */
  function RevokeAll(tokens: seq<RefreshToken>, userId: Id): seq<RefreshToken> {
    seq(|tokens|, j requires 0 <= j < |tokens| =>
      if tokens[j].userId == userId then tokens[j].(isRevoked := true) else tokens[j])
  }

  /** Per-user revocation: the user's records are all revoked, every other record is as before. */
  lemma RevokeAllEffect(tokens: seq<RefreshToken>, userId: Id)
    ensures var t := RevokeAll(tokens, userId);
      && |t| == |tokens|
      && (forall j :: 0 <= j < |t| && tokens[j].userId == userId ==> t[j].isRevoked && t[j] == tokens[j].(isRevoked := true))
      && (forall j :: 0 <= j < |t| && tokens[j].userId != userId ==> t[j] == tokens[j])
  {
  }

  /** After `logout_all`, no refresh for that user succeeds, whatever plaintext and time. */
  lemma {:induction false} NoRefreshAfterLogoutAll(tokens: seq<RefreshToken>, users: seq<User>, userId: Id, plain: string, later: int)
    ensures match RotationTarget(RevokeAll(tokens, userId), users, plain, later)
      case None => true
      case Some((i, k)) => users[k].id != userId
  {
    var t := RevokeAll(tokens, userId);
    var target := RotationTarget(t, users, plain, later);
    if target.Some? {
      var i := target.value.0;
      assert !t[i].isRevoked;
      assert t[i].userId != userId;
    }
  }

  /** `logout_all`: revoke every unrevoked record of the current user, one by one; clear both cookies. */
  method LogoutAll(db: Db, current: User) returns (cookies: seq<CookieOp>)
    requires db.Valid()
    modifies db`refreshTokens
    ensures db.Valid()
    ensures db.refreshTokens == RevokeAll(old(db.refreshTokens), current.id)
    ensures cookies == ClearAuthCookies()
  {
    ghost var before := db.refreshTokens;
    var i := 0;
    while i < |db.refreshTokens|
      invariant 0 <= i <= |db.refreshTokens| == |before|
      invariant forall j :: 0 <= j < i ==> db.refreshTokens[j] == RevokeAll(before, current.id)[j]
      invariant forall j :: i <= j < |before| ==> db.refreshTokens[j] == before[j]
    {
      var token := db.refreshTokens[i];
      if token.userId == current.id && !token.isRevoked {
        db.refreshTokens := db.refreshTokens[i := token.(isRevoked := true)];
      }
      i := i + 1;
    }
    assert forall j :: 0 <= j < |before| ==> db.refreshTokens[j].hashedToken == before[j].hashedToken;
    cookies := ClearAuthCookies();
  }
}
