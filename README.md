# get-course: sessions, access decisions and course tables

A Dafny model of the logic at the heart of get-course, a course platform. It
has a FastAPI backend and a Next.js frontend. The model covers these parts:

- **Refresh-token lifecycle on the server.**
  - `register` and `login` add a root refresh record.
  - `refresh_user_token` and the `/refresh` endpoint find an unrevoked,
    unexpired record by hash. They revoke it, add one successor for the same
    user, link the two by `replaced_by_id`, and set both cookies.
  - `logout` revokes one record. `logout_all` revokes all of one user's
    records.
  - `get_current_user` tries the access token first and falls back to a
    rotation. `require_role` checks the role hierarchy.
- **Refresh coordinator in the browser.** This is the axios interceptor. It
  turns a 401 into a single refresh POST and queues the 401s that arrive
  meanwhile in `failedQueue`. `processQueue` settles them. It is modelled
  twice:
  - as a pure event machine (`Step`/`Run`), on which the bookkeeping
    invariants are proved;
  - as a class whose methods update the module-level fields in place, each
    proved equal to one `Step`.
- **Access decisions.**
  - The edge middleware: token structure check, role/path check, and the
    routing decision.
  - The `useAuth` hook: role checks, the page chosen after login, register and
    logout, and `useRequireAuth`.
- **Auth store.** A class with the store's four fields and its six actions,
  plus `partialize`.
- **Small pure helpers.** The react-query retry predicate, and the video-URL
  validation and embed rewriting of the video input. The input's error state
  is a class.
- **Domain tables.** Enrollments, courses, lessons, categories, the integer
  figures and recent enrollments of the instructor dashboard, the course
  analytics, and the admin promotion.
  Each one is a guarded insert, update or delete on the in-memory tables of
  `Database.Db`.

Some things are not executed but replaced:

- Hashing, signing and password checks are collision-free tags
  (`AuthUtils`).
- `uuid4` and `secrets.token_urlsafe` are fresh values the caller passes in.
- The clock is an integer parameter: seconds on the backend, milliseconds in
  the middleware.
- `atob` followed by `JSON.parse` is an abstract partial function.

Facts about the code that the model follows:

- The access token lives `ACCESS_TOKEN_EXPIRE_MINUTES` = 30 minutes
  (`backend/app/core/config.py:19`). The access cookie's max-age is derived
  from that setting, although the comment beside it says 15 minutes.
- Both cookies are `samesite="lax"`.
- Foreign keys on the course tables are enforced, as on the PostgreSQL
  database that `DATABASE_URL` names in deployment
  (`backend/app/core/config.py:9`). The SQLite fallback does not enforce them
  unless told to, and nothing tells it. The self-referencing
  `refreshtoken.replaced_by_id` key is the exception: see "## Left out".
- Rotating a refresh token revokes only the record that was presented.
  Nothing detects a reused token, and nothing revokes the rest of the chain.

## Model

| member | source | states |
|---|---|---|
| Common.RoleName | backend/app/models/enums.py:4-7 | every role has a non-empty string value |
| Common.RoleNameInjective | backend/app/models/enums.py:4-7 | distinct roles have distinct string values, so comparing role strings is comparing roles |
| AuthUtils.VerifyPassword | backend/app/auth/utils.py:18-20 | a password verifies against a hash exactly when the hash was made from that password |
| AuthUtils.CreateAccessToken | backend/app/auth/utils.py:25-32 | the token is signed, carries `sub` and expires `ACCESS_TOKEN_EXPIRE_MINUTES*60` seconds after creation |
| AuthUtils.VerifyAccessToken | backend/app/auth/utils.py:35-42 | a payload comes back exactly for a correctly signed token whose `exp` has not passed, and it is the token's claims |
| AuthUtils.CreateThenVerify | backend/app/auth/utils.py:25-42 | a fresh token verifies with its own claims until its expiry and not after |
| AuthDependencies.AuthError | backend/app/auth/dependencies.py:14-20 | `AuthenticationError` is a 401 |
| AuthDependencies.FindUsable | backend/app/auth/dependencies.py:86-98 | the lookup finds the first record with an equal hash that is unrevoked and has `expires_at > now`; it finds none exactly when no record qualifies |
| AuthDependencies.RotateEffect | backend/app/auth/dependencies.py:105-129 | rotation revokes the presented record, links it to the successor, appends that one successor and changes no other record |
| AuthDependencies.RotateKeepsUnique | backend/app/auth/dependencies.py:115-129 | with a fresh successor hash, `hashed_token` stays unique |
| AuthDependencies.SingleUse | backend/app/auth/dependencies.py:90-106 | once a plaintext's record has been rotated, presenting it again finds no usable record at any later time |
| AuthDependencies.AuthCookiesReadBack | backend/app/auth/dependencies.py:139-165 | whatever a browser held before, after `set_auth_cookies` its next request carries the JWT as `access_token` and the refresh plaintext as `refresh_token`; after `clear_auth_cookies` it carries neither |
| AuthDependencies.CookieLifetimes | backend/app/auth/dependencies.py:139-159 | the access cookie's max-age ends at the JWT `exp`, and the refresh cookie's ends at the new record's `expires_at` (30 days) |
| AuthDependencies.RotationTarget | backend/app/auth/dependencies.py:86-103 | a rotation target is a usable record together with its existing owner |
| AuthDependencies.RefreshUserToken | backend/app/auth/dependencies.py:80-136 | no usable record gives 401 "Invalid or expired refresh token"; a missing owner gives 401 "User not found"; failures change nothing; success returns the owner, rotates the record and sets cookies for the new pair; unique users and digests are preserved |
| AuthDependencies.AccessSubject | backend/app/auth/dependencies.py:48-58 | a subject is found exactly when an access cookie is present, verifies and carries `sub` |
| AuthDependencies.GetCurrentUser | backend/app/auth/dependencies.py:39-77 | a user is returned exactly when the cookies authenticate (`Authenticates`); with a usable subject, the user row or 401 "User not found", and the refresh cookie is never tried; otherwise a rotation with the refresh cookie, and any failure of it becomes 401 "Authentication failed"; every failure is a 401 that changes nothing |
| AuthDependencies.RotationLostOnError | backend/app/auth/dependencies.py:104-133 | as written, when the route raises after a rotation, the client keeps only the revoked refresh token and the failed access token, and no later request with them authenticates |
| AuthDependencies.RotationKeptCorrected | backend/app/auth/dependencies.py:104-133 | if the new cookies are delivered whatever the route answers, the client authenticates at any time before the new record expires |
| AuthDependencies.RoleChecker | backend/app/auth/dependencies.py:170-197 | the user passes exactly when their rank (STUDENT < INSTRUCTOR < ADMIN) reaches the required one; a denial is a 403 |
| AuthRouter.FindByEmail | backend/app/routers/auth.py:37-39 | finds a user with the given email, and none exactly when no user has it |
| AuthRouter.Register | backend/app/routers/auth.py:28-99 | a registered email gives 400 and creates nothing; otherwise exactly one STUDENT user, one profile with the name and one root record expiring in 30 days are appended, and both cookies are set |
| AuthRouter.AppendKeepsUnique | backend/app/routers/auth.py:79-85 | appending a record with a fresh hash keeps hashes unique |
| AuthRouter.Login | backend/app/routers/auth.py:112-161 | an unknown email and a wrong password give the same 401; success appends one root record and leaves every existing record unchanged |
| AuthRouter.LoginKeepsSessions | backend/app/routers/auth.py:137-147 | after a login, every plaintext that could be rotated before still finds the same record, so sessions coexist |
| AuthRouter.RefreshTokenEndpoint | backend/app/routers/auth.py:164-239 | a missing cookie gives 401; an unknown, revoked or expired token gives 401, and the cookies it clears never reach the client because the exception replaces the response; every 401 sends no cookie; a missing user gives 401; otherwise the rotation of `refresh_user_token` |
| AuthRouter.LogoutTarget | backend/app/routers/auth.py:258-263 | the record found has the presented hash and belongs to the current user, revoked or not |
| AuthRouter.Logout | backend/app/routers/auth.py:242-277 | only a record with the presented hash that belongs to the current user is revoked; nothing else changes; both cookies are always cleared; a successor that `get_current_user` made for this same request stays unrevoked (see "## Left out") |
| AuthRouter.LogoutEndsSession | backend/app/routers/auth.py:252-267 | after logging out with one's own cookie, that plaintext no longer rotates |
| AuthRouter.RevokeAllEffect | backend/app/routers/auth.py:288-296 | every record of the user is revoked and every other record is unchanged |
| AuthRouter.NoRefreshAfterLogoutAll | backend/app/routers/auth.py:288-298 | after `logout_all`, no plaintext rotates for that user at any time |
| AuthRouter.LogoutAll | backend/app/routers/auth.py:280-305 | the loop revokes the user's unrevoked records one by one, reaching the `RevokeAll` table, and clears both cookies |
| Uri.EncodeURIComponent | frontend/src/lib/api.ts:120 | the encoding contains only unreserved characters and `%XX` escapes, and is no shorter than its input |
| Uri.EncodeUnreservedIdentity | frontend/src/lib/api.ts:120 | a string of unreserved characters encodes to itself |
| Uri.EncodeChangesReserved | frontend/src/lib/api.ts:120 | a string with a reserved character encodes to something different |
| Uri.EncodedIsQuerySafe | frontend/src/lib/api.ts:120 | an encoded value contains no `&`, `#`, `?`, `=` or space |
| RefreshCoordinator.InitInv | frontend/src/lib/api.ts:26-27 | module load satisfies the bookkeeping invariant |
| RefreshCoordinator.StepInv | frontend/src/lib/api.ts:65-132 | every event preserves the invariant: a refresh in flight has one awaiting handler, an idle coordinator has an empty queue, and settled entries followed by queued ones are exactly the entries ever queued |
| RefreshCoordinator.RunInv | frontend/src/lib/api.ts:26-132 | the invariant holds after any sequence of events |
| RefreshCoordinator.PassThrough | frontend/src/lib/api.ts:71-131 | a non-401 error, or a 401 on a request marked `_retry`, is rejected, and nothing else changes |
| RefreshCoordinator.SingleFlight | frontend/src/lib/api.ts:75-84 | while a refresh is in flight, a new 401 is queued and no second refresh starts |
| RefreshCoordinator.TriggerStartsRefresh | frontend/src/lib/api.ts:86-94 | the first 401 marks its request `_retry`, sets `isRefreshing` and starts exactly one refresh |
| RefreshCoordinator.RefreshCompletes | frontend/src/lib/api.ts:96-126 | when the refresh outcome arrives, the flag is cleared and the queue emptied; on success the triggering request is re-issued first and the queued ones after it, in queue order, since `resolve()` only schedules their re-issue; on failure all are rejected and the store is logged out |
| RefreshCoordinator.StuckForever | frontend/src/lib/api.ts:75-105 | as written, once the refresh POST's own 401 is queued, no event ever clears the flag, settles an entry or starts a refresh |
| RefreshCoordinator.DeadlockAsWritten | frontend/src/lib/api.ts:75-105 | as written, a 401 followed by a 401 on the refresh POST leaves the triggering request unsettled forever |
| RefreshCoordinator.CorrectedStaysLive | frontend/src/lib/api.ts:90-126 | with the correction, an in-flight refresh always has an outcome still to arrive |
| RefreshCoordinator.NoDeadlockCorrected | frontend/src/lib/api.ts:105-126 | with the correction, the same events log out and reject the trigger |
| RefreshCoordinator.CorrectedRunReplayBound | frontend/src/lib/api.ts:77-103 | with the correction, re-issues plus pending re-issues of a request never exceed one, and are zero for a request never marked `_retry` |
| RefreshCoordinator.RetriedAtMostOnce | frontend/src/lib/api.ts:86-103 | with the correction, from module load no request is ever re-issued twice |
| RefreshCoordinator.DoubleReplayAsWritten | frontend/src/lib/api.ts:77-80 | as written, a queued request that meets a 401 again after its replay is re-issued a second time |
| RefreshCoordinator.LoginRedirectShape | frontend/src/lib/api.ts:117-123 | the redirect is bare `/login` exactly for `/login`, `/register` and `/`; otherwise it is `/login?redirect=` followed by the encoded path, which is the path itself when no character needs escaping |
| RefreshCoordinator.Coordinator.constructor | frontend/src/lib/api.ts:26-27 | the fields start at the initial state, which satisfies the invariant |
| RefreshCoordinator.Coordinator.ProcessQueue | frontend/src/lib/api.ts:30-39 | the loop settles every entry in order, rejecting each request when an error is given and otherwise only resolving it, then empties the queue: the state becomes `Drain` of the old one |
| RefreshCoordinator.Coordinator.OnResponseError | frontend/src/lib/api.ts:65-132 | the new fields are `Step` of the old ones on that error |
| RefreshCoordinator.Coordinator.OnRefreshOk | frontend/src/lib/api.ts:96-103 | the new fields are `Step` of the old ones on refresh success: the queue is settled, the trigger re-issued, then the resolved queue entries |
| RefreshCoordinator.Coordinator.OnRefreshFail | frontend/src/lib/api.ts:105-126 | the new fields are `Step` of the old ones on refresh failure |
| Middleware.MintedTokenAcceptedUntilExp | frontend/src/middleware.ts:36-60 | a token the backend mints, serialized as `header.payload.signature` and decoded by the inverse of its encoding, is accepted exactly while `now` is not past its `exp` (in milliseconds), and yields the subject, email and role it was minted with |
| Middleware.DotCountRejects | frontend/src/middleware.ts:39-40 | a token without exactly two dots is rejected |
| Middleware.AcceptedUntilExp | frontend/src/middleware.ts:50-53 | an accepted token is unexpired in milliseconds |
| Middleware.HasRoleAccessForRoles | frontend/src/middleware.ts:63-75 | ADMIN may go anywhere, INSTRUCTOR exactly under `/instructor`, and STUDENT exactly under `/student` |
| Middleware.UnknownRoleDenied | frontend/src/middleware.ts:63-75 | any other role string is denied everywhere |
| Middleware.SkippedPassesThrough | frontend/src/middleware.ts:81-87 | `/_next/` and `/api/` paths, and paths containing `.`, pass whatever the cookies |
| Middleware.FallbackUnreachable | frontend/src/middleware.ts:106-190 | every other path takes the public or the gated branch, so the final `next()` is never reached |
| Middleware.PublicPathsUnprotected | frontend/src/middleware.ts:6-20 | no public path is protected |
| Middleware.GatedWithoutUsableToken | frontend/src/middleware.ts:131-157 | a gated path with no access token goes to login carrying the path; with an invalid token it passes when a refresh cookie exists and goes to login otherwise |
| Middleware.SignedInLeavesLogin | frontend/src/middleware.ts:106-124 | `/login` or `/register` with an accepted token redirects to the role's dashboard |
| Middleware.RoleHomeSettlesIff | frontend/src/middleware.ts:160-176 | a role's dashboard passes the role check exactly for "ADMIN", "INSTRUCTOR" and any casing of "student"; any other role is sent to `/student/dashboard` |
| Middleware.NoRedirectLoop | frontend/src/middleware.ts:113-177 | for the three backend roles, following the role redirect with the same token gets through with the user headers |
| Middleware.RedirectLoopForOtherRoles | frontend/src/middleware.ts:160-176 | for any other role string, `/student/dashboard` redirects to itself |
| Middleware.HomeIsGated | frontend/src/middleware.ts:14-20 | the three dashboards are gated paths |
| Middleware.ProfileOnlyForAdmin | frontend/src/middleware.ts:14-26 | under `/profile` and `/dashboard`, only "ADMIN" passes the role check |
| UseAuth.HasAnyRoleIsSomeRole | frontend/src/hooks/useAuth.ts:191-197 | `hasAnyRole(roles)` holds exactly when `hasRole` holds for some listed role, distributes over joined lists, and a user who has a role passes `canAccessRoute` for it |
| UseAuth.CanAccessRouteSignedInOnly | frontend/src/hooks/useAuth.ts:199-201 | with the store's invariant, the check never admits a visitor who is not signed in, and with no required role it admits exactly the signed-in |
| UseAuth.CanAccessMatchesRoleRoutes | frontend/src/hooks/useAuth.ts:203-212 | for a signed-in user the check equals the `ROLE_ROUTES` table of the constants module |
| UseAuth.ClientAgreesWithBackend | frontend/src/hooks/useAuth.ts:199-213 | the client check is the backend's rank order: allowed exactly when the user's rank reaches the required one |
| UseAuth.EdgeStricterThanClient | frontend/src/hooks/useAuth.ts:209-210 | an INSTRUCTOR may open STUDENT pages on the client, yet the middleware denies every `/student` path to that role |
| UseAuth.EdgeProfileOnlyForAdmin | frontend/src/middleware.ts:63-75 | at the edge, `/profile` and `/dashboard` pass only for ADMIN |
| UseAuth.LoginTargetChoice | frontend/src/hooks/useAuth.ts:84-101 | a truthy `redirect` other than `/login` and `/register` wins; otherwise the role's own prefix, which the client check admits; never `/login` or `/register` |
| UseAuth.RegisterTargetPassesEdge | frontend/src/hooks/useAuth.ts:133-142 | each registration target lies under its role's prefix and passes the middleware for that role |
| UseAuth.OnLogoutSettled | frontend/src/hooks/useAuth.ts:156-188 | on success or failure, the store is cleared and the page is `/login` |
| UseAuth.RequireAuthDecision | frontend/src/hooks/useAuth.ts:249-267 | while loading, nothing happens; signed out goes to `/login?redirect=<encoded path>`; signed in without the role goes to the role's home, which the same check admits |
| AuthStore.MergeFields | frontend/src/stores/authStore.ts:69-71 | the spread takes every supplied field from the patch and keeps every other field |
| AuthStore.MergeIdentityIdempotent | frontend/src/stores/authStore.ts:69-71 | an empty patch changes nothing, and applying a patch twice is applying it once |
| AuthStore.Store.constructor | frontend/src/stores/authStore.ts:39-43 | no user, no profile, not authenticated, loading |
| AuthStore.Store.SetUser | frontend/src/stores/authStore.ts:46-49 | sets the user and `isAuthenticated := user != null`; the invariant holds |
| AuthStore.Store.SetProfile | frontend/src/stores/authStore.ts:51 | changes only the profile |
| AuthStore.Store.SetLoading | frontend/src/stores/authStore.ts:53 | changes only `isLoading` |
| AuthStore.Store.Login | frontend/src/stores/authStore.ts:55-60 | sets the user, the profile or null, authenticated and not loading |
| AuthStore.Store.Logout | frontend/src/stores/authStore.ts:62-67 | clears user and profile, not authenticated, not loading |
| AuthStore.Store.UpdateProfile | frontend/src/stores/authStore.ts:69-71 | merges into an existing profile, leaves a null profile null and touches no other field |
| AuthStore.Store.Partialize | frontend/src/stores/authStore.ts:76-80 | exactly user, profile and `isAuthenticated` are persisted |
| Providers.Retries | frontend/src/app/providers.tsx:16-29 | the retries a request that keeps failing gets from a given failure count on are at most what remains below 3, and none from 3 on |
| Providers.AttemptsInAll | frontend/src/app/providers.tsx:16-29 | from its first failure, a query failing with 401 or 403 is tried once in all and with any other error (no response included) four times; a mutation is tried once |
| VideoInput.PlayerPatternSubsumed | frontend/src/components/instructor/videoInput.tsx:21-28 | the player alternative adds nothing: every text matching it contains `vimeo.com/` |
| VideoInput.PieceAfterSpec | frontend/src/components/instructor/videoInput.tsx:43 | the piece is the text after the first marker, up to the first stop or the next marker; with no marker it is the text `undefined` |
| VideoInput.DigitRun | frontend/src/components/instructor/videoInput.tsx:53 | the run is a prefix, all digits, and maximal |
| VideoInput.VimeoMatch | frontend/src/components/instructor/videoInput.tsx:53 | the match is the leftmost `vimeo.com/` followed by a digit |
| VideoInput.VimeoIdSpec | frontend/src/components/instructor/videoInput.tsx:52-55 | the captured id is the maximal digit run after the matched `vimeo.com/`, or `undefined` when nothing matches |
| VideoInput.YoutubeWatchEmbed | frontend/src/components/instructor/videoInput.tsx:42-45 | a text containing `youtube.com/watch?v=` becomes the embed link of the piece after `watch?v=`, and this test wins |
| VideoInput.ShortLinkEmbed | frontend/src/components/instructor/videoInput.tsx:46-49 | a `youtu.be/` text, failing the first test, becomes the embed link of the piece up to the first `?` |
| VideoInput.VimeoEmbed | frontend/src/components/instructor/videoInput.tsx:52-55 | a `vimeo.com/` text, failing both YouTube tests, becomes the player link of the captured id |
| VideoInput.OtherUrlsUnchanged | frontend/src/components/instructor/videoInput.tsx:57 | any other text, `youtube.com/embed/` links included, is returned unchanged |
| VideoInput.WatchLinkRoundTrip | frontend/src/components/instructor/videoInput.tsx:42-45 | the canonical watch link of an id rewrites to the embed link of that id |
| VideoInput.ShortLinkRoundTrip | frontend/src/components/instructor/videoInput.tsx:46-49 | the canonical short link of an id rewrites to the embed link of that id |
| VideoInput.VimeoLinkRoundTrip | frontend/src/components/instructor/videoInput.tsx:52-55 | the canonical Vimeo link of a numeric id rewrites to the player link of that id |
| VideoInput.PlayerLinkLost | frontend/src/components/instructor/videoInput.tsx:52-55 | as written, a player link passes validation but is rewritten to `.../video/undefined` |
| VideoInput.EmbedTwiceLosesId | frontend/src/components/instructor/videoInput.tsx:52-55 | as written, rewriting a Vimeo link's own output loses the id |
| VideoInput.CorrectedVimeoMatch | frontend/src/components/instructor/videoInput.tsx:53 | the corrected pattern also accepts an optional `video/` and matches leftmost |
| VideoInput.PlayerLinkKept | frontend/src/components/instructor/videoInput.tsx:52-55 | with the corrected pattern, a player link is kept as it is |
| VideoInput.VimeoLinkRoundTripCorrected | frontend/src/components/instructor/videoInput.tsx:52-55 | with the corrected pattern, canonical Vimeo links rewrite as before |
| VideoInput.CorrectedVimeoIdempotent | frontend/src/components/instructor/videoInput.tsx:52-55 | with the corrected pattern, rewriting twice equals rewriting once |
| VideoInput.VideoInputState.constructor | frontend/src/components/instructor/videoInput.tsx:19 | no error and nothing emitted |
| VideoInput.VideoInputState.HandleUrlChange | frontend/src/components/instructor/videoInput.tsx:30-38 | the text is always passed on; the error is the message exactly when the text is non-empty and invalid, and "" otherwise |
| VideoInput.VideoInputState.Clear | frontend/src/components/instructor/videoInput.tsx:81-84 | passes on "" and clears the error |
| Database.GetUser | backend/app/routers/admin.py:19 | `session.get(User, id)` finds the row with that primary key, and none exactly when no user has it |
| Database.GetCourse | backend/app/routers/courses.py:206 | `session.get(Course, id)` finds a row with that primary key, and when it finds none no row has it |
| Database.GetCategory | backend/app/routers/courses.py:222 | `session.get(Category, id)` finds a row with that primary key, and when it finds none no row has it |
| Database.FindEnrollment | backend/app/routers/enrollments.py:43-50 | finds an enrollment of that student in that course, and none exactly when there is none |
| Database.CountZero | backend/app/routers/courses.py:71-92 | a count is zero exactly when no row qualifies |
| Enrollments.EnrollInCourse | backend/app/routers/enrollments.py:20-80 | 404 missing course, 400 unpublished, 400 already enrolled, in that order, and nothing changes; otherwise exactly one enrollment (student, course, progress 0, created now) is appended; one enrollment per pair is preserved |
| Enrollments.EnrollKeepsOnePerPair | backend/app/routers/enrollments.py:43-67 | adding an unenrolled pair keeps one enrollment per (student, course) |
| Enrollments.GetMyEnrollments | backend/app/routers/enrollments.py:83-117 | the append loop yields the joined rows, taken in table order (see "## Left out") |
| Enrollments.MyEnrollmentsSpec | backend/app/routers/enrollments.py:91-117 | the listing holds only the caller's enrollments, each with its own course, and every enrollment of the caller whose course exists |
| Enrollments.UpdateCourseProgress | backend/app/routers/enrollments.py:120-157 | 404 without an enrollment; a given value is written with no range check; an absent one changes nothing; the reply is the stored progress |
| Enrollments.SetProgressKeepsPairs | backend/app/routers/enrollments.py:146-149 | writing progress changes no (student, course) pair |
| Enrollments.UnenrollFromCourse | backend/app/routers/enrollments.py:160-189 | 404 without an enrollment; otherwise exactly that row is removed |
| Enrollments.UnenrollRemovesPair | backend/app/routers/enrollments.py:168-186 | after the removal the pair is no longer enrolled, and one per pair still holds |
| Enrollments.GetCourseStudents | backend/app/routers/enrollments.py:194-235 | 404 for a missing course, then 403 unless owner or admin; otherwise the joined roster, taken in table order (see "## Left out") |
| Enrollments.CourseStudentsSpec | backend/app/routers/enrollments.py:217-235 | the roster holds only the course's enrollments, each with its own student, and all whose student exists |
| Courses.Page | backend/app/routers/courses.py:56 | at most `limit` rows, taken after skipping `skip` rows of the sequence it is given; the listing gives the matches in table order (see "## Left out") |
| Courses.GetCourses | backend/app/routers/courses.py:26-97 | an invalid `skip`/`limit` is a 422; otherwise one reply per course of the page of matches, with its two counts |
| Courses.GetCoursesSpec | backend/app/routers/courses.py:39-92 | at most `limit` courses, all from the table and all passing every active filter, the matches after the first `skip` in table order (see "## Left out"); a count is zero exactly when nothing refers to the course |
| Courses.CreateCourse | backend/app/routers/courses.py:147-194 | non-instructors get 403; a negative price is a 422; a non-empty unknown category is a 400; an empty category id passes that guard and the foreign key fails the commit with 500; every error changes nothing; otherwise one course owned by the caller is appended and reported with both counts 0 |
| Courses.CreatedCountsAgree | backend/app/routers/courses.py:181-194 | the zero counts reported equal the counts the listing computes for a fresh id |
| Courses.CategoryRefused | backend/app/models/models.py:134 | the foreign key refuses exactly a given id that names no category; every id the truthiness guard rejects is refused, and the only refused id it lets through is "" |
| Courses.SetField | backend/app/routers/courses.py:232 | the named field takes the value and every other field keeps its own |
| Courses.PatchKeepsUnsupplied | backend/app/routers/courses.py:229-232 | a field not supplied keeps its value, and `id` and `instructor_id` never change |
| Courses.PatchSetsSupplied | backend/app/routers/courses.py:229-232 | every supplied field takes the supplied value |
| Courses.SuppliedCategory | backend/app/routers/courses.py:220-221 | the `category_id` the update body leaves: when the body supplies one, it is exactly what applying the body writes to the course; with none supplied it is None; with distinct field names, None means any supplied `category_id` was null |
| Courses.UpdateCourse | backend/app/routers/courses.py:197-252 | 404, then 403 unless owner or admin, then 400 for a non-empty unknown category, then 500 from the foreign key for a supplied empty category id, all changing nothing; otherwise the `setattr` loop writes exactly the supplied fields; counts reported as 0 |
| Courses.DeleteCourse | backend/app/routers/courses.py:255-280 | 404, then 403 unless owner or admin; a course that any enrollment or review still points at gives 500 (the commit fails on the non-null `course_id`); every error changes nothing; otherwise the course is removed and, by the cascade, exactly its lessons |
| Database.InsertBy | backend/app/routers/courses.py:327-331 | inserting into rows sorted by a key keeps them sorted and adds exactly that row |
| Database.SortBy | backend/app/routers/courses.py:327-331 | `order_by`: the result is sorted by the key and a permutation of the input |
| Courses.GetCourseLessons | backend/app/routers/courses.py:285-345 | 404 for a missing course; allowed exactly for the owner, an admin or an enrolled user, else 403; the reply is the course's lessons, sorted by `order` and permuted |
| Courses.CreateLesson | backend/app/routers/courses.py:348-396 | an `order` below 1 is a 422; then 404, then 403 unless owner or admin; otherwise one lesson is appended to the course |
| Categories.FindByName | backend/app/routers/categories.py:64-66 | finds a category with that name, and none exactly when none has it |
| Categories.FetchCategory | backend/app/routers/categories.py:35-52 | the category with that id, or 404 "Category not found" |
| Categories.CreateCategory | backend/app/routers/categories.py:55-89 | non-admins get 403; a name in use is a 400; otherwise one category is appended; names stay unique |
| Categories.AddKeepsUniqueNames | backend/app/routers/categories.py:64-81 | adding an unused name keeps names unique |
| Categories.EmptyNameSlipsThrough | backend/app/routers/categories.py:109 | as written, renaming to "" while another category is named "" passes the guard and duplicates the name |
| Categories.RenameChecksAgreeOffEmpty | backend/app/routers/categories.py:109 | the written and the intended guard differ only on the empty name |
| Categories.RenameKeepsUniqueNames | backend/app/routers/categories.py:108-123 | with the intended guard, a rename that passes keeps names unique |
| Categories.RenameCheckIsConstraint | backend/app/routers/categories.py:108-125 | with unique names, the intended guard fires exactly when the unique column would refuse the rename |
| Categories.UpdateCategory | backend/app/routers/categories.py:92-133 | non-admins get 403; 404 for a missing category; 400 when a different, truthy supplied name is taken; a taken empty name gives 500 from the failed commit; every error changes nothing; otherwise only the supplied name is written; names stay unique |
| Categories.UsedBy | backend/app/routers/categories.py:153-155 | finds a course referring to the category, and none exactly when none does |
| Categories.DeleteCategory | backend/app/routers/categories.py:136-166 | non-admins get 403; 404 for a missing category; 400 while a course refers to it; otherwise exactly that row is removed, keeping names unique and course categories resolvable |
| Categories.DeleteKeepsInvariants | backend/app/routers/categories.py:151-164 | deleting an unreferenced category keeps names unique and every course's category resolvable |
| Instructor.GetInstructorDashboard | backend/app/routers/instructor.py:18-95 | non-instructors get 403; otherwise the caller's courses, published courses, enrollments joined to the caller's courses, and lessons of those courses; `recent_enrollments` is the five latest rows of the enrollment-course-student join, never more than `total_students` |
| Instructor.Latest5Spec | backend/app/routers/instructor.py:65-74 | `order_by(created_at.desc()).limit(5)`: five rows, or all when fewer, drawn from the join, newest first, and no row left out is newer than the last one listed |
| Instructor.RecentRowsSound | backend/app/routers/instructor.py:65-84 | each joined row carries the timestamp and progress of an enrollment in one of the caller's courses |
| Instructor.RecentWithinStudents | backend/app/routers/instructor.py:41-46 | the join has at most as many rows as `total_students` counts, exactly as many when every enrolled student exists |
| Instructor.PublishedWithinTotal | backend/app/routers/instructor.py:25-39 | published courses never outnumber the instructor's courses |
| Instructor.NoCoursesNothingCounted | backend/app/routers/instructor.py:41-55 | an instructor with no course has no students and no lessons |
| Instructor.GetCourseAnalytics | backend/app/routers/instructor.py:150-235 | 403 for non-instructors, then 404, then 403 unless owner or admin; otherwise the enrollment count, completed count (progress >= 100), review count, the five star buckets and the lesson count of the course |
| Instructor.AnalyticsBounds | backend/app/routers/instructor.py:177-205 | completed enrollments are among all enrollments, and 0 when there are none; each bucket is at most the review count |
| Instructor.DistributionSums | backend/app/routers/instructor.py:196-205 | when every rating lies in 1..5, the five buckets sum to `total_reviews` |
| Instructor.RequestInstructorUpgrade | backend/app/routers/instructor.py:238-262 | only a STUDENT may ask and gets "pending" with no state change; anyone else gets 400 |
| Instructor.UpgradeExactlyBelowInstructor | backend/app/routers/instructor.py:245-249 | exactly the users that the instructor endpoints refuse may ask for the upgrade |
| Admin.Promote | backend/app/routers/admin.py:23 | the target row gets role INSTRUCTOR, whatever it was, and every other row is unchanged |
| Admin.PromoteToInstructor | backend/app/routers/admin.py:11-26 | non-admins get 403, a missing user gets 404, neither changing anything; otherwise only that user's role becomes INSTRUCTOR, the reply names their email, and unique users are preserved |
| Admin.PromoteKeepsUsers | backend/app/routers/admin.py:19-24 | promotion keeps ids and emails unique, the user is still found by id, and the user then passes the instructor check |

## Left out

- Rehydration by `persist` (frontend/src/stores/authStore.ts:73-80) is not modelled: it copies the three fields `Partialize` writes back into the store, and `Partialize` already keeps the store's invariant.
- AuthDependencies.RefreshUserToken: rotation always succeeds in the model, as under SQLite's unenforced foreign keys. Under PostgreSQL the commit may fail. `replaced_by_id` refers to `refreshtoken.id` with no `relationship()` (`backend/app/models/refreshtoken.py:15-16`), so nothing orders the UPDATE of the old record after the INSERT of its successor, and an UPDATE that goes first names a row that does not exist yet. That would make `/api/auth/refresh` a 500 and the fallback in `get_current_user` a 401. The model does not capture the library's flush order.
- AuthRouter.RefreshTokenEndpoint: as for `AuthDependencies.RefreshUserToken`, the rotation is modelled as always committing.
- AuthRouter.Logout: its contract covers the records as they stand when the handler runs. When the access cookie has expired, the `get_current_user` dependency has already rotated the presented record into a new, unrevoked successor. `logout` then revokes the presented record a second time and leaves that successor live. Clearing the cookies only keeps its plaintext from the client.
- Cryptography: bcrypt, HS256 and SHA-256 are exact tags. A collision, a forged signature or a secret are not modelled.
- Randomness: `uuid4` and `secrets.token_urlsafe` are parameters. They must be fresh where the source relies on that.
- The clock is a parameter, read once per request. The backend reads `utcnow()` several times.
- Concurrency:
  - Two simultaneous refreshes of one token race in an unguarded read-then-write. A sequential model cannot show this.
  - The browser's promise scheduling is reduced to the order in which events reach the interceptor.
- Persistence: sessions, commit, rollback and the engine become in-memory tables.
  - A failed commit is modelled only where the code lets a constraint be broken: `delete_course` on a course with enrollments or reviews, `update_category` renaming to a taken empty name, and `create_course` or `update_course` with an empty `category_id`. Each gives 500 and changes nothing.
- FastAPI's 422 validation bodies. A rejected request is one fixed 422 value.
  - The order of a 401 from `get_current_user` against a 422 from body validation is not modelled.
- SQL `LIKE` case-folding and wildcards in the `search` filter. `contains` is modelled as exact substring search.
- Explicit `null` for non-null columns in `CourseUpdate` and `CategoryUpdate`. The model treats every supplied value as well-typed.
- Floating point: averages, `round`, `completion_rate`, revenue and `average_rating` in the instructor router. `progress` is a `real`.
- Timestamps are integers. `enrolled_at` in the dashboard is the enrollment's `created_at` as that integer.
- `get_instructor_courses`: its counts are those of `get_courses`, and its other figures are floating point.
- The Next.js route handlers under `app/api/auth/`. They delegate to modules that are not part of this model.
- Axios, promises, `window.location`, toast messages, query-cache invalidation and all JSX rendering.
- `atob` and `JSON.parse` are an abstract partial function. `atob` expects standard base64, while JWT segments are base64url (section 5 of RFC 4648).
- JavaScript strings are UTF-16. A lone surrogate, which makes `encodeURIComponent` throw, cannot occur in the model's strings.
- `toLowerCase` in the middleware is ASCII-only lowering.
- The instructor and category rows that `get_courses` fetches are never put into the reply, so the model does not fetch them.
- Courses.Page: the listing's SELECT has no `ORDER BY`, so the database may return matches in any order, and in a different order from one query to the next. The model takes them in table order. Its consecutive pages therefore never overlap or miss a match, while the program's pages may.
- Courses.GetCoursesSpec: the order it states is table order, which the program does not promise, as for `Courses.Page`.
- Enrollments.GetMyEnrollments: the joined SELECT has no `ORDER BY`. The model yields the rows in table order, which the program does not promise.
- Enrollments.GetCourseStudents: the roster's SELECT has no `ORDER BY`. The model yields the rows in table order, which the program does not promise.
- Instructor.Latest5Spec: enrollments with equal `created_at` may come back in any order, so which of them make the five is the database's choice. The contract states what holds for every choice.
- Courses.GetCourseLessons: lessons with equal `order` may come back in any order. The contract states sortedness and permutation, not the database's tie order.
- `get_course`, `get_categories`, `/me` and `/test-protected` are outside the modelled core.

## Findings

| source | as written | input that shows it | evidently intended | confidence | as-written member | corrected member |
|---|---|---|---|---|---|---|
| frontend/src/lib/api.ts:75-105 | The refresh POST goes through the same interceptor. Its own 401 arrives while `isRefreshing` is true, so it is queued, and the `catch` at line 105 is never reached. | A 401 on any request, then a 401 on `/api/auth/refresh`. | A failed refresh reaches the `catch`: the queue is rejected, the store logged out and the flag cleared. | medium, not executed | RefreshCoordinator.DeadlockAsWritten / RefreshCoordinator.StuckForever | RefreshCoordinator.NoDeadlockCorrected / RefreshCoordinator.CorrectedStaysLive |
| frontend/src/lib/api.ts:77-80 | Queued requests are re-issued without `_retry`. | Requests 1 and 2 get a 401. The refresh succeeds. Request 2 gets a 401 again and is re-issued a second time. | Each request is re-issued at most once. | medium, not executed | RefreshCoordinator.DoubleReplayAsWritten | RefreshCoordinator.RetriedAtMostOnce |
| frontend/src/components/instructor/videoInput.tsx:52-55 | `/vimeo\.com\/(\d+)/` does not match player links, which `validateUrl` accepts. | `https://player.vimeo.com/video/123` becomes `https://player.vimeo.com/video/undefined`. | Player links keep their id. | high, not executed | VideoInput.PlayerLinkLost / VideoInput.EmbedTwiceLosesId | VideoInput.PlayerLinkKept / VideoInput.CorrectedVimeoIdempotent |
| backend/app/routers/categories.py:109 | The duplicate check runs only for a truthy name, so renaming to "" skips it. The unique column then fails the commit: a 500 instead of the 400. | Categories `("c1", "")` and `("c2", "Math")`. Rename c2 to "". | Any supplied name that differs from the current one is checked. | medium, not executed | Categories.EmptyNameSlipsThrough / Categories.UpdateCategory | Categories.RenameKeepsUniqueNames / Categories.RenameCheckIsConstraint |
| backend/app/auth/dependencies.py:104-133 | `get_current_user` commits the rotation and writes the new cookies to the injected response. When the route then raises, FastAPI answers with a new response, so those cookies are dropped. | An expired access cookie and a valid refresh cookie, sent to a route that answers 403 or 404. The record is revoked, the client keeps the revoked token, and its next request is a 401. | A client whose refresh token was rotated receives the new cookies, whatever the route answers. | medium, not executed | AuthDependencies.RotationLostOnError | AuthDependencies.RotationKeptCorrected |
