/** frontend/src/app/providers.tsx: the retry policy of the query client. */
module Providers {

  /** What `retry` inspects of an error: falsy, without a response, or with a response status. */
  datatype QueryError = Falsy | NoResponse | WithResponse(status: int)

  /** The query `retry(failureCount, error)` callback. */
  function RetryQuery(failureCount: int, error: QueryError): bool {
    if error.WithResponse? && (error.status == 401 || error.status == 403) then false
    else failureCount < 3
  }

  /** Mutations: `retry: false`. */
  function RetryMutation(failureCount: int, error: QueryError): bool {
    false
  }

  /** The two policies of the query client's `defaultOptions`. */
  datatype Kind = Query | Mutation

  function Retry(kind: Kind, failureCount: int, error: QueryError): bool {
    match kind
    case Query => RetryQuery(failureCount, error)
    case Mutation => RetryMutation(failureCount, error)
  }

  /**
   * Retries of a request that keeps failing with the same error, when the
   * policy is asked with the failure count so far (0 at the first failure).
   */
  function Retries(kind: Kind, error: QueryError, failureCount: nat): (n: nat)
    ensures n <= if failureCount < 3 then 3 - failureCount else 0
    ensures failureCount >= 3 ==> n == 0
    decreases 3 - failureCount
  {
    if Retry(kind, failureCount, error) then 1 + Retries(kind, error, failureCount + 1) else 0
  }

  /**
   * From the first failure, a query failing with 401 or 403 is tried once in
   * all and with any other error four times; a mutation is tried once.
   */
  lemma {:induction false} AttemptsInAll(error: QueryError)
    ensures 1 + Retries(Query, error, 0) == if error.WithResponse? && error.status in {401, 403} then 1 else 4
    ensures 1 + Retries(Mutation, error, 0) == 1
  {
    if !(error.WithResponse? && error.status in {401, 403}) {
      assert Retries(Query, error, 3) == 0;
      assert Retries(Query, error, 2) == 1;
      assert Retries(Query, error, 1) == 2;
    }
  }
}
