/**
 * frontend/src/middleware.ts: the edge routing decision for every page
 * request, from the path and the two auth cookies.
 *
 * `atob` and `JSON.parse` are an abstract partial function `decode` from the
 * middle JWT segment to the payload's fields (None when either throws).
 * `Date.now()` is the parameter `nowMs`, in milliseconds.
 */
module Middleware {
  import opened Common
  import opened Text
  import AuthUtils

  /** The fields the middleware reads from a decoded payload; absent fields are None. */
  datatype Payload = Payload(sub: Option<string>, email: Option<string>, role: Option<string>, exp: Option<int>)

  /** The payload once its structure is accepted. */
  datatype UserPayload = UserPayload(sub: string, email: string, role: string, exp: int)

  /** The response: pass on, pass on with `x-user-*` headers, or one of two redirects. */
  datatype Decision =
    | Next
    | NextWithUser(id: string, email: string, role: string)
    | RoleRedirect(pathname: string)   // the request URL with only its pathname replaced
    | LoginRedirect(from: string)      // `/login` with the search parameter `redirect=from`

  const PublicRoutes: seq<string> := ["/", "/login", "/register", "/courses", "/api/health"]
  const ProtectedRoutes: seq<string> := ["/student", "/instructor", "/admin", "/profile", "/dashboard"]

  /** JavaScript truthiness of an optional number: absent and 0 are falsy. */
  predicate TruthyInt(x: Option<int>) {
    x.Some? && x.value != 0
  }

  /** `verifyTokenStructure(token)` */
  function VerifyTokenStructure(token: string, nowMs: int, decode: string -> Option<Payload>): Option<UserPayload> {
    var parts := Split(token, ".");
    if |parts| != 3 then None
    else match decode(parts[1])
      case None => None
      case Some(p) =>
        if !Truthy(p.sub) || !Truthy(p.email) || !Truthy(p.role) || !TruthyInt(p.exp) then None
        else if p.exp.value * 1000 < nowMs then None
        else Some(UserPayload(p.sub.value, p.email.value, p.role.value, p.exp.value))
  }

  /**
   * A token the backend mints with `create_access_token`, serialized as
   * `header.payload.signature`, passes the edge check exactly until its
   * `exp`, carrying the subject, email and role it was minted with, when
   * `decode` inverts the encoding of the payload segment.
   */
  lemma MintedTokenAcceptedUntilExp(sub: string, email: string, role: Role, now: int,
                                    header: string, segment: string, signature: string,
                                    nowMs: int, decode: string -> Option<Payload>)
    requires '.' !in header && '.' !in segment && '.' !in signature
    requires sub != "" && email != "" && now >= 0
    requires var c := AuthUtils.CreateAccessToken(sub, email, role, now).claims;
      decode(segment) == Some(Payload(c.sub, Some(c.email), Some(RoleName(c.role)), Some(c.exp)))
    ensures var exp := now + AuthUtils.ACCESS_TOKEN_LIFETIME;
      VerifyTokenStructure(header + "." + segment + "." + signature, nowMs, decode)
        == if nowMs <= exp * 1000 then Some(UserPayload(sub, email, RoleName(role), exp)) else None
  {
    assert Split(header + "." + segment + "." + signature, ".") == [header, segment, signature] by {
      assert "." == ['.'];
      SplitThree(header, segment, signature, '.');
    }
  }

  /** A token without exactly two dots is rejected before anything is decoded. */
  lemma {:induction false} DotCountRejects(token: string, nowMs: int, decode: string -> Option<Payload>)
    requires CountChar(token, '.') != 2
    ensures VerifyTokenStructure(token, nowMs, decode).None?
  {
    SplitCharCount(token, '.');
    assert "." == ['.'];
  }

  /** An accepted payload is unexpired: for the whole second `exp`, and never after it. */
  lemma AcceptedUntilExp(token: string, nowMs: int, decode: string -> Option<Payload>)
    requires VerifyTokenStructure(token, nowMs, decode).Some?
    ensures var u := VerifyTokenStructure(token, nowMs, decode).value;
      nowMs <= u.exp * 1000 && u.sub != "" && u.email != "" && u.role != "" && u.exp != 0
  {
  }

  /** `hasRoleAccess(userRole, pathname)`: the search over `roleBasedRoutes`. */
  function HasRoleAccess(userRole: string, pathname: string): bool {
    if userRole == "ADMIN" then true
    else
      var lower := ToLowerAscii(userRole);
      if lower == "admin" then StartsWith(pathname, "/admin")
      else if lower == "instructor" then StartsWith(pathname, "/instructor")
      else if lower == "student" then StartsWith(pathname, "/student")
      else false
  }

  /** Lower-casing, checked one character at a time. */
  lemma LowerOf(s: string, t: string)
    requires |s| == |t| && forall k :: 0 <= k < |s| ==> LowerChar(s[k]) == t[k]
    ensures ToLowerAscii(s) == t
  {
  }

  lemma LowerAdmin()
    ensures ToLowerAscii("ADMIN") == "admin"
  {
    LowerOf("ADMIN", "admin");
  }

  lemma LowerInstructor()
    ensures ToLowerAscii("INSTRUCTOR") == "instructor"
  {
    LowerOf("INSTRUCTOR", "instructor");
  }

  lemma LowerStudent()
    ensures ToLowerAscii("STUDENT") == "student"
  {
    LowerOf("STUDENT", "student");
  }

  /**
   * For the three roles the backend issues: ADMIN may go anywhere,
   * INSTRUCTOR only under `/instructor`, STUDENT only under `/student`.
   */
  lemma HasRoleAccessForRoles(r: Role, pathname: string)
    ensures HasRoleAccess(RoleName(r), pathname) <==>
      match r
      case ADMIN => true
      case INSTRUCTOR => StartsWith(pathname, "/instructor")
      case STUDENT => StartsWith(pathname, "/student")
  {
    match r
    case ADMIN =>
    case INSTRUCTOR => LowerInstructor();
    case STUDENT => LowerStudent();
  }

  /** Any role string other than these three spellings, such as "admin", is denied everywhere it is not listed. */
  lemma UnknownRoleDenied(userRole: string, pathname: string)
    requires userRole != "ADMIN"
    requires ToLowerAscii(userRole) !in {"admin", "instructor", "student"}
    ensures !HasRoleAccess(userRole, pathname)
  {
  }

  /** The dashboard the role's `switch` picks. */
  function RoleHome(role: string): string {
    if role == "ADMIN" then "/admin/reports"
    else if role == "INSTRUCTOR" then "/instructor/courses"
    else "/student/dashboard"
  }

  predicate Skipped(pathname: string) {
    StartsWith(pathname, "/_next/") || StartsWith(pathname, "/api/") || Contains(pathname, ".")
  }

  predicate IsPublic(pathname: string) {
    pathname in PublicRoutes
  }

  predicate IsProtected(pathname: string) {
    exists k :: 0 <= k < |ProtectedRoutes| && StartsWith(pathname, ProtectedRoutes[k])
  }

  /** Lines 106-128: a public, unprotected path. */
  function PublicDecision(pathname: string, access: Option<string>, nowMs: int, decode: string -> Option<Payload>): Decision {
    if (pathname == "/login" || pathname == "/register") && Truthy(access) then
      match VerifyTokenStructure(access.value, nowMs, decode)
      case Some(u) => RoleRedirect(RoleHome(u.role))
      case None => Next
    else Next
  }

  /** Lines 131-187: a protected or unlisted path. */
  function GatedDecision(pathname: string, access: Option<string>, refresh: Option<string>, nowMs: int,
                         decode: string -> Option<Payload>): Decision {
    if !Truthy(access) then LoginRedirect(pathname)
    else match VerifyTokenStructure(access.value, nowMs, decode)
      case None => if Truthy(refresh) then Next else LoginRedirect(pathname)
      case Some(u) =>
        if !HasRoleAccess(u.role, pathname) then RoleRedirect(RoleHome(u.role))
        else NextWithUser(u.sub, u.email, u.role)
  }

  /** `middleware(request)` */
  function Decide(pathname: string, access: Option<string>, refresh: Option<string>, nowMs: int,
                  decode: string -> Option<Payload>): Decision {
    if Skipped(pathname) then Next
    else if IsPublic(pathname) && !IsProtected(pathname) then PublicDecision(pathname, access, nowMs, decode)
    else if IsProtected(pathname) || !IsPublic(pathname) then GatedDecision(pathname, access, refresh, nowMs, decode)
    else Next
  }

  /** Static files, `/_next/` and `/api/` paths are passed on whatever the cookies. */
  lemma SkippedPassesThrough(pathname: string, access: Option<string>, refresh: Option<string>, nowMs: int,
                             decode: string -> Option<Payload>)
    requires StartsWith(pathname, "/_next/") || StartsWith(pathname, "/api/") || '.' in pathname
    ensures Decide(pathname, access, refresh, nowMs, decode) == Next
  {
    ContainsChar(pathname, '.');
  }

  /** Every other path takes the public branch or the gated branch: the final `next()` is never reached. */
  lemma FallbackUnreachable(pathname: string, access: Option<string>, refresh: Option<string>, nowMs: int,
                            decode: string -> Option<Payload>)
    requires !Skipped(pathname)
    ensures Decide(pathname, access, refresh, nowMs, decode) ==
      if IsPublic(pathname) && !IsProtected(pathname) then PublicDecision(pathname, access, nowMs, decode)
      else GatedDecision(pathname, access, refresh, nowMs, decode)
  {
  }

  /** No public path is protected, so the public branch is taken exactly for the five listed paths. */
  lemma PublicPathsUnprotected(pathname: string)
    requires IsPublic(pathname)
    ensures !IsProtected(pathname)
  {
    forall k | 0 <= k < |ProtectedRoutes| ensures !StartsWith(pathname, ProtectedRoutes[k]) {
      var route := ProtectedRoutes[k];
      if |route| <= |pathname| {
        if pathname == "/api/health" {
          assert route[2] != pathname[2];
        } else {
          assert route[1] != pathname[1];
        }
      }
    }
  }

  /**
   * A gated path with no access token goes to login carrying the path; with an
   * unusable token it passes when a refresh cookie is present and goes to
   * login otherwise.
   */
  lemma GatedWithoutUsableToken(pathname: string, access: Option<string>, refresh: Option<string>, nowMs: int,
                                decode: string -> Option<Payload>)
    requires !Skipped(pathname) && (IsProtected(pathname) || !IsPublic(pathname))
    requires !Truthy(access) || VerifyTokenStructure(access.value, nowMs, decode).None?
    ensures Decide(pathname, access, refresh, nowMs, decode) ==
      if Truthy(access) && Truthy(refresh) then Next else LoginRedirect(pathname)
  {
  }

  /** `/login` or `/register` with an accepted token redirects to the role's dashboard. */
  lemma SignedInLeavesLogin(pathname: string, access: Option<string>, refresh: Option<string>, nowMs: int,
                            decode: string -> Option<Payload>)
    requires pathname == "/login" || pathname == "/register"
    requires Truthy(access) && VerifyTokenStructure(access.value, nowMs, decode).Some?
    ensures Decide(pathname, access, refresh, nowMs, decode) ==
      RoleRedirect(RoleHome(VerifyTokenStructure(access.value, nowMs, decode).value.role))
  {
    LoginPathsPublic(pathname);
  }

  /** `/login` and `/register` are neither skipped nor protected, and are public. */
  lemma LoginPathsPublic(pathname: string)
    requires pathname == "/login" || pathname == "/register"
    ensures !Skipped(pathname) && IsPublic(pathname) && !IsProtected(pathname)
  {
    assert !IsProtected(pathname) by { PublicPathsUnprotected(pathname); }
    assert !Contains(pathname, ".") by {
      assert "." == ['.'];
      ContainsChar(pathname, '.');
    }
    assert !StartsWith(pathname, "/_next/") && !StartsWith(pathname, "/api/") by {
      assert pathname[1] != "/_next/"[1] && pathname[1] != "/api/"[1];
    }
  }

  /**
   * The role redirect settles exactly for the roles "ADMIN", "INSTRUCTOR" and
   * any casing of "student": then the dashboard passes `hasRoleAccess`.
   * Every other role string is sent to `/student/dashboard`, which redirects
   * to itself.
   */
  lemma RoleHomeSettlesIff(role: string)
    ensures HasRoleAccess(role, RoleHome(role)) <==>
      role == "ADMIN" || role == "INSTRUCTOR" || ToLowerAscii(role) == "student"
    ensures !HasRoleAccess(role, RoleHome(role)) ==> RoleHome(role) == "/student/dashboard"
  {
    if role == "INSTRUCTOR" {
      LowerInstructor();
      assert StartsWith("/instructor/courses", "/instructor");
    } else if role != "ADMIN" {
      StudentDashboardPrefixes();
    }
  }

  lemma StudentDashboardPrefixes()
    ensures !StartsWith("/student/dashboard", "/admin")
    ensures !StartsWith("/student/dashboard", "/instructor")
    ensures StartsWith("/student/dashboard", "/student")
  {
    assert "/student/dashboard"[1] != "/admin"[1];
    assert "/student/dashboard"[1] != "/instructor"[1];
  }

  /** No redirect loop for the roles the backend issues: following the role redirect with the same token gets through. */
  lemma {:induction false} NoRedirectLoop(r: Role, access: Option<string>, refresh: Option<string>, nowMs: int,
                                          decode: string -> Option<Payload>)
    requires Truthy(access)
    requires VerifyTokenStructure(access.value, nowMs, decode).Some?
    requires VerifyTokenStructure(access.value, nowMs, decode).value.role == RoleName(r)
    ensures var u := VerifyTokenStructure(access.value, nowMs, decode).value;
      Decide(RoleHome(RoleName(r)), access, refresh, nowMs, decode) == NextWithUser(u.sub, u.email, u.role)
  {
    var home := RoleHome(RoleName(r));
    RoleHomeSettlesIff(RoleName(r));
    if r == STUDENT {
      LowerStudent();
    }
    HomeIsGated(home);
  }

  /** For any other role string the redirect is a fixed point: the dashboard redirects to itself. */
  lemma {:induction false} RedirectLoopForOtherRoles(access: Option<string>, refresh: Option<string>, nowMs: int,
                                                     decode: string -> Option<Payload>)
    requires Truthy(access)
    requires VerifyTokenStructure(access.value, nowMs, decode).Some?
    requires var role := VerifyTokenStructure(access.value, nowMs, decode).value.role;
      role != "ADMIN" && role != "INSTRUCTOR" && ToLowerAscii(role) != "student"
    ensures Decide("/student/dashboard", access, refresh, nowMs, decode) == RoleRedirect("/student/dashboard")
  {
    var role := VerifyTokenStructure(access.value, nowMs, decode).value.role;
    RoleHomeSettlesIff(role);
    HomeIsGated("/student/dashboard");
  }

  /** The three dashboards are gated paths. */
  lemma HomeIsGated(home: string)
    requires home in {"/admin/reports", "/instructor/courses", "/student/dashboard"}
    ensures !Skipped(home) && IsProtected(home) && !IsPublic(home)
  {
    if home == "/admin/reports" {
      AdminHomeGated();
    } else if home == "/instructor/courses" {
      InstructorHomeGated();
    } else {
      StudentHomeGated();
    }
  }

  lemma GatedPath(p: string, k: nat)
    requires '.' !in p && !StartsWith(p, "/api/") && !StartsWith(p, "/_next/") && p !in PublicRoutes
    requires k < |ProtectedRoutes| && StartsWith(p, ProtectedRoutes[k])
    ensures !Skipped(p) && IsProtected(p) && !IsPublic(p)
  {
    ContainsChar(p, '.');
  }

  lemma AdminHomeGated()
    ensures !Skipped("/admin/reports") && IsProtected("/admin/reports") && !IsPublic("/admin/reports")
  {
    assert "/admin/reports"[2] != "/api/"[2];
    assert "/admin/reports"[1] != "/_next/"[1];
    GatedPath("/admin/reports", 2);
  }

  lemma InstructorHomeGated()
    ensures !Skipped("/instructor/courses") && IsProtected("/instructor/courses") && !IsPublic("/instructor/courses")
  {
    assert "/instructor/courses"[1] != "/api/"[1];
    assert "/instructor/courses"[1] != "/_next/"[1];
    GatedPath("/instructor/courses", 1);
  }

  lemma StudentHomeGated()
    ensures !Skipped("/student/dashboard") && IsProtected("/student/dashboard") && !IsPublic("/student/dashboard")
  {
    assert "/student/dashboard"[1] != "/api/"[1];
    assert "/student/dashboard"[1] != "/_next/"[1];
    GatedPath("/student/dashboard", 0);
  }

  /**
   * `/profile` and `/dashboard` are protected, but no role except "ADMIN" passes
   * `hasRoleAccess` there: everyone else is sent to a dashboard even with a
   * valid token.
   */
  lemma ProfileOnlyForAdmin(userRole: string, pathname: string)
    requires StartsWith(pathname, "/profile") || StartsWith(pathname, "/dashboard")
    ensures HasRoleAccess(userRole, pathname) <==> userRole == "ADMIN"
  {
    if StartsWith(pathname, "/profile") {
      assert pathname[1] == 'p';
    } else {
      assert pathname[1] == 'd';
    }
  }
}
