/**
 * frontend/src/lib/api.ts: the response-error interceptor that turns a 401
 * into one refresh POST, queues the 401s that arrive meanwhile in
 * `failedQueue`, and settles them with `processQueue` when the refresh ends.
 *
 * The interceptor is a sequential event machine. A request is a number `n`;
 * `retried` is the set of requests whose config carries `_retry`. Promise
 * plumbing becomes history: `settled` lists the queue entries `processQueue`
 * settled, `replays` the requests re-issued through `apiClient(originalRequest)`,
 * `rejected` the requests whose call ends in a rejection. `processQueue`'s
 * `resolve()` only schedules a queued caller's `.then(() => apiClient(...))`,
 * which runs after the awaiting handler's own synchronous code; so on a
 * successful refresh the triggering request is re-issued first.
 */
module RefreshCoordinator {
  import opened Common
  import Uri

  /** An entry of `failedQueue`: the promise of an API request, or of the refresh POST itself. */
  datatype Req = Api(n: nat) | RefreshPost

  /**
   * The interceptor as written, and with the two corrections listed under
   * Findings: a queued request is marked `_retry`, and the refresh POST does
   * not pass through the interceptor's 401 branch.
   */
  datatype Variant = AsWritten | Corrected

  datatype Event =
    | ResponseError(n: nat, status: int)  // request n's error reaches the interceptor; no response is status 0
    | RefreshOk                           // the awaited refresh POST (line 94) resolves
    | RefreshFail(status: int)            // the awaited refresh POST fails with this status

  datatype Coord = Coord(
    isRefreshing: bool,
    failedQueue: seq<Req>,
    retried: set<nat>,
    awaiting: Option<nat>,        // the request whose handler awaits the refresh POST
    refreshOutstanding: bool,     // the refresh POST's outcome has not reached that handler yet
    enqueued: seq<Req>,           // every entry ever pushed onto `failedQueue`
    settled: seq<Req>,
    replays: seq<nat>,
    rejected: seq<nat>,
    refreshCalls: nat,
    loggedOut: bool)

  /** Module load: `isRefreshing = false`, `failedQueue = []`. */
  function Init(): Coord {
    Coord(false, [], {}, None, false, [], [], [], [], 0, false)
  }

  /** The API requests among queue entries, in order. */
  function ApiIds(q: seq<Req>): (ids: seq<nat>)
    ensures |ids| <= |q|
  {
    if |q| == 0 then [] else (if q[0].Api? then [q[0].n] else []) + ApiIds(q[1..])
  }

  lemma {:induction false} ApiIdsConcat(a: seq<Req>, b: seq<Req>)
    ensures ApiIds(a + b) == ApiIds(a) + ApiIds(b)
  {
    if |a| == 0 {
      assert a + b == b;
    } else {
      assert (a + b)[0] == a[0];
      assert (a + b)[1..] == a[1..] + b;
      ApiIdsConcat(a[1..], b);
    }
  }

  lemma ApiIdsSnoc(q: seq<Req>, i: nat)
    requires i < |q|
    ensures ApiIds(q[..i + 1]) == ApiIds(q[..i]) + if q[i].Api? then [q[i].n] else []
  {
    assert q[..i + 1] == q[..i] + [q[i]];
    ApiIdsConcat(q[..i], [q[i]]);
  }

  lemma {:induction false} ApiIdsCount(q: seq<Req>, n: nat)
    ensures multiset(ApiIds(q))[n] == multiset(q)[Api(n)]
  {
    if |q| > 0 {
      ApiIdsCount(q[1..], n);
      assert q == [q[0]] + q[1..];
    }
  }

  /**
   * `processQueue(error)`: every entry is settled, in order: each API request
   * rejected if an error is given, resolved otherwise; then the queue is
   * empty. A resolved request is re-issued later, by its continuation.
   */
  function Drain(s: Coord, error: bool): Coord {
    s.(failedQueue := [],
       settled := s.settled + s.failedQueue,
       rejected := if error then s.rejected + ApiIds(s.failedQueue) else s.rejected)
  }

  /** One event, as the interceptor and the awaiting handler react to it. */
  function Step(v: Variant, s: Coord, e: Event): Coord {
    match e
    case ResponseError(n, status) =>
      if status == 401 && n !in s.retried then
        if s.isRefreshing then
          s.(failedQueue := s.failedQueue + [Api(n)],
             enqueued := s.enqueued + [Api(n)],
             retried := if v == Corrected then s.retried + {n} else s.retried)
        else
          s.(retried := s.retried + {n}, isRefreshing := true, awaiting := Some(n),
             refreshOutstanding := true, refreshCalls := s.refreshCalls + 1)
      else
        s.(rejected := s.rejected + [n])
    case RefreshOk =>
      if !s.refreshOutstanding || s.awaiting.None? then s
      else
        // `return apiClient(originalRequest)` runs before the continuations
        // that `processQueue`'s `resolve()` scheduled.
        var d := Drain(s, false);
        d.(isRefreshing := false, refreshOutstanding := false, awaiting := None,
           replays := s.replays + [s.awaiting.value] + ApiIds(s.failedQueue))
    case RefreshFail(status) =>
      if !s.refreshOutstanding || s.awaiting.None? then s
      else if v == AsWritten && status == 401 then
        // The refresh POST's own 401 enters the interceptor while
        // `isRefreshing` is true, so it is queued like any other.
        s.(refreshOutstanding := false,
           failedQueue := s.failedQueue + [RefreshPost],
           enqueued := s.enqueued + [RefreshPost])
      else
        var d := Drain(s, true);
        d.(isRefreshing := false, refreshOutstanding := false, awaiting := None,
           loggedOut := true, rejected := d.rejected + [s.awaiting.value])
  }

  function Run(v: Variant, s: Coord, es: seq<Event>): Coord
    decreases |es|
  {
    if |es| == 0 then s else Run(v, Step(v, s, es[0]), es[1..])
  }

  /**
   * The bookkeeping invariant: a refresh in flight has one awaiting handler,
   * an idle coordinator has an empty queue, and the settled entries followed
   * by the queue are exactly the entries ever enqueued, so every entry is
   * settled at most once and, once the queue is drained, exactly once.
   */
  ghost predicate Inv(s: Coord) {
    && (s.refreshOutstanding ==> s.isRefreshing)
    && (s.isRefreshing <==> s.awaiting.Some?)
    && (!s.isRefreshing ==> s.failedQueue == [])
    && s.settled + s.failedQueue == s.enqueued
  }

  lemma InitInv()
    ensures Inv(Init())
  {
  }

  lemma StepInv(v: Variant, s: Coord, e: Event)
    requires Inv(s)
    ensures Inv(Step(v, s, e))
  {
    match e
    case ResponseError(n, status) =>
      assert s.settled + (s.failedQueue + [Api(n)]) == s.enqueued + [Api(n)];
    case RefreshOk =>
      assert (s.settled + s.failedQueue) + [] == s.enqueued;
    case RefreshFail(status) =>
      assert s.settled + (s.failedQueue + [RefreshPost]) == s.enqueued + [RefreshPost];
      assert (s.settled + s.failedQueue) + [] == s.enqueued;
  }

  lemma {:induction false} RunInv(v: Variant, s: Coord, es: seq<Event>)
    requires Inv(s)
    ensures Inv(Run(v, s, es))
    decreases |es|
  {
    if |es| > 0 {
      StepInv(v, s, es[0]);
      RunInv(v, Step(v, s, es[0]), es[1..]);
    }
  }

  /**
   * Pass-through: a non-401 error, or a 401 on a request already marked
   * `_retry`, is rejected and starts no refresh; nothing else changes.
   */
  lemma PassThrough(v: Variant, s: Coord, n: nat, status: int)
    requires status != 401 || n in s.retried
    ensures Step(v, s, ResponseError(n, status)) == s.(rejected := s.rejected + [n])
  {
  }

  /**
   * Single flight: while a refresh is in flight a new 401 is queued, and no
   * second refresh starts.
   */
  lemma SingleFlight(v: Variant, s: Coord, n: nat)
    requires s.isRefreshing && n !in s.retried
    ensures var t := Step(v, s, ResponseError(n, 401));
      && t.refreshCalls == s.refreshCalls && t.isRefreshing
      && t.failedQueue == s.failedQueue + [Api(n)]
      && t.awaiting == s.awaiting
  {
  }

  /**
   * The first 401 with no refresh in flight marks its request `_retry`, sets
   * `isRefreshing` and starts exactly one refresh.
   */
  lemma TriggerStartsRefresh(v: Variant, s: Coord, n: nat)
    requires !s.isRefreshing && n !in s.retried
    ensures var t := Step(v, s, ResponseError(n, 401));
      && n in t.retried && t.isRefreshing && t.awaiting == Some(n)
      && t.refreshCalls == s.refreshCalls + 1
  {
  }

  /**
   * When the refresh POST's outcome reaches the awaiting handler, the flag is
   * cleared and the queue emptied. On success the triggering request is
   * re-issued first, then the queued ones in queue order; on failure every
   * queued caller and the triggering one are rejected and the store is logged
   * out.
   */
  lemma RefreshCompletes(v: Variant, s: Coord, e: Event)
    requires Inv(s) && s.refreshOutstanding
    requires e == RefreshOk || (e.RefreshFail? && !(v == AsWritten && e.status == 401))
    ensures var t := Step(v, s, e);
      && !t.isRefreshing && t.failedQueue == [] && t.awaiting.None?
      && t.settled == s.settled + s.failedQueue
      && (e == RefreshOk ==>
            t.replays == s.replays + [s.awaiting.value] + ApiIds(s.failedQueue) && t.rejected == s.rejected)
      && (e.RefreshFail? ==>
            t.rejected == s.rejected + ApiIds(s.failedQueue) + [s.awaiting.value]
            && t.replays == s.replays && t.loggedOut)
  {
  }

  /** The coordinator waits for a refresh POST whose outcome will never reach its handler. */
  ghost predicate Stuck(s: Coord) {
    Inv(s) && s.isRefreshing && !s.refreshOutstanding
  }

  /**
   * As written, a stuck coordinator stays stuck whatever happens next: the
   * flag is never cleared, the awaiting handler never resumes, no queued
   * entry is ever settled, and no refresh is ever started again.
   */
  lemma {:induction false} StuckForever(s: Coord, es: seq<Event>)
    requires Stuck(s)
    ensures var t := Run(AsWritten, s, es);
      && Stuck(t) && t.settled == s.settled && t.awaiting == s.awaiting
      && t.refreshCalls == s.refreshCalls && t.replays == s.replays
      && s.failedQueue <= t.failedQueue
    decreases |es|
  {
    if |es| > 0 {
      StepInv(AsWritten, s, es[0]);
      StuckForever(Step(AsWritten, s, es[0]), es[1..]);
    }
  }

  /** As written, a 401 on the refresh POST leaves the coordinator stuck, the triggering request unsettled. */
  lemma DeadlockAsWritten()
    ensures var t := Run(AsWritten, Init(), [ResponseError(1, 401), RefreshFail(401)]);
      && Stuck(t) && t.failedQueue == [RefreshPost] && t.awaiting == Some(1) && 1 !in t.rejected
  {
    assert Run(AsWritten, Init(), [ResponseError(1, 401), RefreshFail(401)])
        == Step(AsWritten, Step(AsWritten, Init(), ResponseError(1, 401)), RefreshFail(401));
  }

  /** With the correction the refresh POST's failure always reaches its handler. */
  ghost predicate Live(s: Coord) {
    Inv(s) && (s.isRefreshing ==> s.refreshOutstanding)
  }

  lemma {:induction false} CorrectedStaysLive(s: Coord, es: seq<Event>)
    requires Live(s)
    ensures Live(Run(Corrected, s, es))
    decreases |es|
  {
    if |es| > 0 {
      StepInv(Corrected, s, es[0]);
      CorrectedStaysLive(Step(Corrected, s, es[0]), es[1..]);
    }
  }

  /** The same events, corrected: the refresh failure logs out and rejects the triggering request. */
  lemma NoDeadlockCorrected()
    ensures var t := Run(Corrected, Init(), [ResponseError(1, 401), RefreshFail(401)]);
      && !t.isRefreshing && t.failedQueue == [] && t.rejected == [1] && t.loggedOut
  {
    assert Run(Corrected, Init(), [ResponseError(1, 401), RefreshFail(401)])
        == Step(Corrected, Step(Corrected, Init(), ResponseError(1, 401)), RefreshFail(401));
  }

  /** Pending re-issues of request `n`: its queue entries and its awaiting handler. */
  function Pending(s: Coord, n: nat): nat {
    multiset(s.failedQueue)[Api(n)] + (if s.awaiting == Some(n) then 1 else 0)
  }

  /**
   * Each request is re-issued at most once, counting the re-issues still
   * pending; a request never marked `_retry` has none.
   */
  ghost predicate ReplayBound(s: Coord) {
    forall n: nat :: multiset(s.replays)[n] + Pending(s, n) <= if n in s.retried then 1 else 0
  }

  lemma ReplayBoundOnError(s: Coord, n: nat, status: int)
    requires Inv(s) && ReplayBound(s)
    ensures ReplayBound(Step(Corrected, s, ResponseError(n, status)))
  {
    var t := Step(Corrected, s, ResponseError(n, status));
    if status == 401 && n !in s.retried {
      assert multiset(s.replays)[n] + Pending(s, n) <= 0;
      forall m: nat ensures multiset(t.replays)[m] + Pending(t, m) <= if m in t.retried then 1 else 0 {
        assert multiset(s.replays)[m] + Pending(s, m) <= if m in s.retried then 1 else 0;
        if s.isRefreshing {
          assert multiset(t.failedQueue)[Api(m)] == multiset(s.failedQueue)[Api(m)] + (if m == n then 1 else 0);
        }
      }
    }
  }

  lemma ReplayBoundOnOk(s: Coord)
    requires Inv(s) && ReplayBound(s)
    ensures ReplayBound(Step(Corrected, s, RefreshOk))
  {
    var t := Step(Corrected, s, RefreshOk);
    if s.refreshOutstanding && s.awaiting.Some? {
      var a := s.awaiting.value;
      assert t.replays == s.replays + [a] + ApiIds(s.failedQueue);
      assert t.retried == s.retried && t.failedQueue == [] && t.awaiting.None?;
      assert multiset(t.replays) == multiset(s.replays) + multiset{a} + multiset(ApiIds(s.failedQueue));
      forall m: nat ensures multiset(t.replays)[m] + Pending(t, m) <= if m in t.retried then 1 else 0 {
        assert multiset(s.replays)[m] + Pending(s, m) <= if m in s.retried then 1 else 0;
        ApiIdsCount(s.failedQueue, m);
        assert Pending(t, m) == 0;
      }
    }
  }

  lemma ReplayBoundOnFail(s: Coord, status: int)
    requires Inv(s) && ReplayBound(s)
    ensures ReplayBound(Step(Corrected, s, RefreshFail(status)))
  {
    var t := Step(Corrected, s, RefreshFail(status));
    if s.refreshOutstanding && s.awaiting.Some? {
      assert t.replays == s.replays && t.retried == s.retried && t.failedQueue == [] && t.awaiting.None?;
      forall m: nat ensures multiset(t.replays)[m] + Pending(t, m) <= if m in t.retried then 1 else 0 {
        assert multiset(s.replays)[m] + Pending(s, m) <= if m in s.retried then 1 else 0;
      }
    }
  }

  lemma CorrectedStepReplayBound(s: Coord, e: Event)
    requires Inv(s) && ReplayBound(s)
    ensures ReplayBound(Step(Corrected, s, e))
  {
    match e
    case ResponseError(n, status) => ReplayBoundOnError(s, n, status);
    case RefreshOk => ReplayBoundOnOk(s);
    case RefreshFail(status) => ReplayBoundOnFail(s, status);
  }

  lemma {:induction false} CorrectedRunReplayBound(s: Coord, es: seq<Event>)
    requires Inv(s) && ReplayBound(s)
    ensures ReplayBound(Run(Corrected, s, es))
    decreases |es|
  {
    if |es| > 0 {
      StepInv(Corrected, s, es[0]);
      CorrectedStepReplayBound(s, es[0]);
      CorrectedRunReplayBound(Step(Corrected, s, es[0]), es[1..]);
    }
  }

  /** With the correction, from module load on, no request is ever re-issued twice. */
  lemma RetriedAtMostOnce(es: seq<Event>, n: nat)
    ensures multiset(Run(Corrected, Init(), es).replays)[n] <= 1
  {
    CorrectedRunReplayBound(Init(), es);
  }

  /**
   * As written, a request queued during one refresh and rejected with 401 again
   * after its replay starts a refresh of its own and is re-issued a second time.
   */
  lemma DoubleReplayAsWritten()
    ensures var t := Run(AsWritten, Init(),
      [ResponseError(1, 401), ResponseError(2, 401), RefreshOk, ResponseError(2, 401), RefreshOk]);
      t.replays == [1, 2, 2] && multiset(t.replays)[2] == 2
  {
    var s1 := Step(AsWritten, Init(), ResponseError(1, 401));
    var s2 := Step(AsWritten, s1, ResponseError(2, 401));
    var s3 := Step(AsWritten, s2, RefreshOk);
    assert s3.replays == [1, 2];
    var s4 := Step(AsWritten, s3, ResponseError(2, 401));
    var s5 := Step(AsWritten, s4, RefreshOk);
    assert s5.replays == [1, 2, 2];
    assert Run(AsWritten, Init(),
      [ResponseError(1, 401), ResponseError(2, 401), RefreshOk, ResponseError(2, 401), RefreshOk]) == s5;
  }

  /**
   * The page the failed refresh sends the browser to: `/login`, carrying the
   * current path as `redirect` unless that path is `/login`, `/register` or `/`.
   */
  function LoginRedirect(path: string): string {
    if path != "/login" && path != "/register" && path != "/" then
      "/login?redirect=" + Uri.EncodeURIComponent(path)
    else "/login"
  }

  /**
   * The redirect is bare exactly for those three paths; otherwise it carries a
   * single query parameter whose value cannot be cut short by `&`, `#` or `?`,
   * and equals the path itself when the path needs no escaping.
   */
  lemma LoginRedirectShape(path: string)
    ensures LoginRedirect(path) == "/login" <==> path in {"/login", "/register", "/"}
    ensures LoginRedirect(path) != "/login" ==>
      var prefix := "/login?redirect=";
      var url := LoginRedirect(path);
      && prefix <= url
      && (forall k :: |prefix| <= k < |url| ==> url[k] !in "&#?")
      && ((forall k :: 0 <= k < |path| ==> Uri.Unreserved(path[k])) ==> url == prefix + path)
  {
    if path != "/login" && path != "/register" && path != "/" {
      var prefix := "/login?redirect=";
      var enc := Uri.EncodeURIComponent(path);
      Uri.EncodedIsQuerySafe(path);
      assert LoginRedirect(path) == prefix + enc;
      assert LoginRedirect(path) != "/login" by {
        assert |prefix + enc| > |"/login"|;
      }
      if forall k :: 0 <= k < |path| ==> Uri.Unreserved(path[k]) {
        Uri.EncodeUnreservedIdentity(path);
      }
    }
  }

  /** The module-level coordinator state and the `_retry` markers, updated in place. */
  class Coordinator {
    const variant: Variant
    var isRefreshing: bool
    var failedQueue: seq<Req>
    var retried: set<nat>
    var awaiting: Option<nat>
    var refreshOutstanding: bool
    var enqueued: seq<Req>
    var settled: seq<Req>
    var replays: seq<nat>
    var rejected: seq<nat>
    var refreshCalls: nat
    var loggedOut: bool

    function State(): Coord
      reads this
    {
      Coord(isRefreshing, failedQueue, retried, awaiting, refreshOutstanding,
            enqueued, settled, replays, rejected, refreshCalls, loggedOut)
    }

    constructor (v: Variant)
      ensures variant == v && State() == Init() && Inv(State())
    {
      variant := v;
      isRefreshing, failedQueue, retried, awaiting, refreshOutstanding := false, [], {}, None, false;
      enqueued, settled, replays, rejected, refreshCalls, loggedOut := [], [], [], [], 0, false;
    }

    /** `processQueue(error)`: the `forEach` over the queue, then `failedQueue = []`. */
    method ProcessQueue(error: bool)
      modifies this`failedQueue, this`settled, this`rejected
      ensures State() == Drain(old(State()), error)
    {
      var q := failedQueue;
      var i := 0;
      while i < |q|
        modifies this`settled, this`rejected
        invariant 0 <= i <= |q|
        invariant settled == old(settled) + q[..i]
        invariant rejected == if error then old(rejected) + ApiIds(q[..i]) else old(rejected)
      {
        var w := q[i];
        if w.Api? && error {
          rejected := rejected + [w.n];
        }
        ApiIdsSnoc(q, i);
        assert q[..i + 1] == q[..i] + [w];
        assert old(settled) + q[..i] + [w] == old(settled) + (q[..i] + [w]);
        settled := settled + [w];
        i := i + 1;
      }
      assert q[..|q|] == q;
      failedQueue := [];
    }

    /** The interceptor's error branch for request `n` (lines 65-132). */
    method OnResponseError(n: nat, status: int)
      modifies this
      ensures State() == Step(variant, old(State()), ResponseError(n, status))
    {
      if status == 401 && n !in retried {
        if isRefreshing {
          failedQueue := failedQueue + [Api(n)];
          enqueued := enqueued + [Api(n)];
          if variant == Corrected {
            retried := retried + {n};
          }
          return;
        }
        retried := retried + {n};
        isRefreshing := true;
        awaiting := Some(n);
        refreshOutstanding := true;
        refreshCalls := refreshCalls + 1;
        return;
      }
      rejected := rejected + [n];
    }

    /** The awaited refresh POST resolves: lines 99-103. */
    method OnRefreshOk()
      modifies this
      ensures State() == Step(variant, old(State()), RefreshOk)
    {
      if !refreshOutstanding || awaiting.None? {
        return;
      }
      var trigger := awaiting.value;
      var resumed := ApiIds(failedQueue);
      ProcessQueue(false);
      isRefreshing := false;
      refreshOutstanding := false;
      awaiting := None;
      replays := replays + [trigger];
      replays := replays + resumed;
    }

    /** The awaited refresh POST fails: its 401 re-enters the interceptor as written, else lines 105-126. */
    method OnRefreshFail(status: int)
      modifies this
      ensures State() == Step(variant, old(State()), RefreshFail(status))
    {
      if !refreshOutstanding || awaiting.None? {
        return;
      }
      if variant == AsWritten && status == 401 {
        refreshOutstanding := false;
        failedQueue := failedQueue + [RefreshPost];
        enqueued := enqueued + [RefreshPost];
        return;
      }
      var trigger := awaiting.value;
      ProcessQueue(true);
      isRefreshing := false;
      refreshOutstanding := false;
      awaiting := None;
      loggedOut := true;
      rejected := rejected + [trigger];
    }
  }
}
