/**
 * frontend/src/hooks/useAuth.ts: the client-side role checks, the page chosen
 * after login, registration and logout, and the `useRequireAuth` decision.
 */
module UseAuth {
  import opened Common
  import opened Text
  import Uri
  import AuthStore
  import Middleware
  import AuthDependencies

  type User = AuthStore.User

  /** `hasRole(role)`: `user?.role === role`. */
  function HasRole(user: Option<User>, role: Role): bool {
    user.Some? && user.value.role == role
  }

  /** `hasAnyRole(roles)` */
  function HasAnyRole(user: Option<User>, roles: seq<Role>): bool {
    if user.Some? then user.value.role in roles else false
  }

  /**
   * `hasAnyRole(roles)` holds exactly when `hasRole` holds for one of the
   * listed roles, so it distributes over joined lists; a user who has a role
   * passes `canAccessRoute` for it.
   */
  lemma HasAnyRoleIsSomeRole(user: Option<User>, roles: seq<Role>, more: seq<Role>, isAuthenticated: bool)
    ensures HasAnyRole(user, roles) <==> exists k :: 0 <= k < |roles| && HasRole(user, roles[k])
    ensures HasAnyRole(user, roles + more) <==> HasAnyRole(user, roles) || HasAnyRole(user, more)
    ensures forall k :: 0 <= k < |roles| && HasRole(user, roles[k]) ==> CanAccessRoute(user, isAuthenticated, Some(roles[k]))
  {
    if user.Some? && user.value.role in roles {
      var k :| 0 <= k < |roles| && roles[k] == user.value.role;
      assert HasRole(user, roles[k]);
    }
  }

  /** `canAccessRoute(requiredRole)` */
  function CanAccessRoute(user: Option<User>, isAuthenticated: bool, requiredRole: Option<Role>): bool {
    if requiredRole.None? then isAuthenticated
    else if user.None? then false
    else if user.value.role == ADMIN then true
    else if user.value.role == requiredRole.value then true
    else if requiredRole.value == STUDENT && user.value.role == INSTRUCTOR then true
    else false
  }

  /** `ROLE_ROUTES` in the constants module: the route prefixes each role may open. */
  function RoleRoutes(r: Role): seq<string> {
    match r
    case STUDENT => ["/student"]
    case INSTRUCTOR => ["/instructor", "/student"]
    case ADMIN => ["/admin", "/instructor", "/student"]
  }

  /** The prefix of a role's own pages. */
  function RolePrefix(r: Role): string {
    match r
    case STUDENT => "/student"
    case INSTRUCTOR => "/instructor"
    case ADMIN => "/admin"
  }

  /**
   * With the store's invariant (`isAuthenticated` mirrors `user != null`),
   * the check admits nobody who is not signed in, and with no required role
   * it admits exactly the signed-in.
   */
  lemma CanAccessRouteSignedInOnly(user: Option<User>, isAuthenticated: bool, requiredRole: Option<Role>)
    requires isAuthenticated <==> user.Some?
    ensures CanAccessRoute(user, isAuthenticated, requiredRole) ==> user.Some?
    ensures requiredRole.None? ==> (CanAccessRoute(user, isAuthenticated, requiredRole) <==> user.Some?)
  {
  }

  /**
   * For a signed-in user the check is the `ROLE_ROUTES` table: a role may
   * open another role's pages exactly when that role's prefix is listed for it.
   */
  lemma CanAccessMatchesRoleRoutes(u: User, isAuthenticated: bool, required: Role)
    ensures CanAccessRoute(Some(u), isAuthenticated, Some(required)) <==> RolePrefix(required) in RoleRoutes(u.role)
  {
  }

  /**
   * The client hierarchy is the one `require_role` enforces on the backend:
   * STUDENT below INSTRUCTOR below ADMIN.
   */
  lemma ClientAgreesWithBackend(u: User, isAuthenticated: bool, required: Role)
    ensures CanAccessRoute(Some(u), isAuthenticated, Some(required)) <==>
      AuthDependencies.Rank(u.role) >= AuthDependencies.Rank(required)
  {
  }

  /**
   * The edge layer is stricter than the client: an INSTRUCTOR may open
   * STUDENT pages by the client's check, but the middleware sends a valid
   * INSTRUCTOR token away from every `/student` path; `/profile` and
   * `/dashboard` pass only for ADMIN.
   */
  lemma EdgeStricterThanClient(u: User, isAuthenticated: bool, pathname: string)
    requires u.role == INSTRUCTOR && StartsWith(pathname, "/student")
    ensures CanAccessRoute(Some(u), isAuthenticated, Some(STUDENT))
    ensures !Middleware.HasRoleAccess(RoleName(INSTRUCTOR), pathname)
  {
    Middleware.HasRoleAccessForRoles(INSTRUCTOR, pathname);
    assert pathname[1] == 's';
  }

  lemma EdgeProfileOnlyForAdmin(r: Role, pathname: string)
    requires StartsWith(pathname, "/profile") || StartsWith(pathname, "/dashboard")
    ensures Middleware.HasRoleAccess(RoleName(r), pathname) <==> r == ADMIN
  {
    Middleware.ProfileOnlyForAdmin(RoleName(r), pathname);
  }

  /** The page `router.push` opens after a successful login (lines 84-101). */
  function LoginTarget(redirect: Option<string>, role: Role): string {
    if Truthy(redirect) && redirect.value != "/login" && redirect.value != "/register" then redirect.value
    else RolePrefix(role)
  }

  /**
   * A usable `redirect` parameter wins; otherwise the role's own prefix,
   * which the client check then admits. Login never lands on `/login` or
   * `/register`.
   */
  lemma LoginTargetChoice(redirect: Option<string>, role: Role, u: User)
    requires u.role == role
    ensures var t := LoginTarget(redirect, role);
      && t != "/login" && t != "/register" && t != ""
      && (Truthy(redirect) && redirect.value !in {"/login", "/register"} ==> t == redirect.value)
      && (!(Truthy(redirect) && redirect.value !in {"/login", "/register"}) ==>
            t == RolePrefix(role) && CanAccessRoute(Some(u), true, Some(role)))
  {
  }

  /** The dashboard `router.push` opens after a successful registration (lines 133-142). */
  function RegisterTarget(role: Role): string {
    match role
    case ADMIN => "/admin/dashboard"
    case INSTRUCTOR => "/instructor/dashboard"
    case STUDENT => "/student/dashboard"
  }

  /** Each registration target lies under its role's prefix, so the middleware lets that role through. */
  lemma RegisterTargetPassesEdge(role: Role)
    ensures StartsWith(RegisterTarget(role), RolePrefix(role))
    ensures Middleware.HasRoleAccess(RoleName(role), RegisterTarget(role))
  {
    match role
    case ADMIN =>
      assert RegisterTarget(role)[..6] == "/admin";
    case INSTRUCTOR =>
      assert RegisterTarget(role)[..11] == "/instructor";
      Middleware.HasRoleAccessForRoles(role, RegisterTarget(role));
    case STUDENT =>
      assert RegisterTarget(role)[..8] == "/student";
      Middleware.HasRoleAccessForRoles(role, RegisterTarget(role));
  }

  /**
   * The logout and logout-all mutations, settled: `onSuccess` and `onError`
   * do the same thing, so the store is cleared and the router goes to
   * `/login` whether the server call succeeded or failed.
   */
  method OnLogoutSettled(store: AuthStore.Store) returns (pushed: string)
    modifies store
    ensures store.Valid()
    ensures store.user.None? && store.profile.None? && !store.isAuthenticated && !store.isLoading
    ensures pushed == "/login"
  {
    store.Logout();
    pushed := "/login";
  }

  /** What `useRequireAuth`'s effect pushes, if anything (lines 249-267). */
  function RequireAuthPush(isLoading: bool, isAuthenticated: bool, user: Option<User>, requiredRole: Option<Role>,
                           currentPath: string): Option<string> {
    if isLoading then None
    else if !isAuthenticated then Some("/login?redirect=" + Uri.EncodeURIComponent(currentPath))
    else if requiredRole.Some? && !CanAccessRoute(user, isAuthenticated, requiredRole) then
      Some(if user.Some? then RolePrefix(user.value.role) else "/student")
    else None
  }

  /**
   * Once loading is over: a signed-out visitor is sent to login carrying the
   * current path; a signed-in user lacking the role is sent to their own
   * role's pages, which that same check admits, so the redirect does not repeat.
   */
  lemma RequireAuthDecision(isAuthenticated: bool, user: Option<User>, requiredRole: Option<Role>, currentPath: string)
    requires isAuthenticated <==> user.Some?
    ensures var push := RequireAuthPush(false, isAuthenticated, user, requiredRole, currentPath);
      && (!isAuthenticated ==> push == Some("/login?redirect=" + Uri.EncodeURIComponent(currentPath)))
      && (isAuthenticated ==>
            (push.Some? <==> !CanAccessRoute(user, true, requiredRole))
            && (push.Some? ==> push.value == RolePrefix(user.value.role)
                                && CanAccessRoute(user, true, Some(user.value.role))))
    ensures RequireAuthPush(true, isAuthenticated, user, requiredRole, currentPath).None?
  {
  }
}
