/** The states a `KtorStateFlow` emits, and how states are mapped and combined. */
module RequestStates {
  import opened Wrappers

  /** The exceptions that reach an observer, by kind. */
  datatype Exception =
    | IllegalStateException(message: string)
    | ResponseException(status: int, text: string)
    | IOException(message: string)
    | CancellationException
    | OtherException(message: string)

  /**
   * The retry callback of an `Error`, written as the list of flows it
   * force-reloads, in call order.
   */
  type Retry = seq<nat>

  /** `Result(data)`, `Error(exception, retry)` or `Loading`. */
  datatype RequestState<T> = Result(data: T) | Error(exception: Exception, retry: Retry) | Loading

  /** `dataIfResult()`. */
  function DataIfResult<T>(s: RequestState<T>): (r: Option<T>)
    ensures r.Some? <==> s.Result?
    ensures r.Some? ==> r.value == s.data
  {
    if s.Result? then Some(s.data) else None
  }

  /** `map(f)`: transforms a result; errors and loading pass unchanged. */
  function Map<T, R>(s: RequestState<T>, f: T -> R): (r: RequestState<R>)
    ensures r.Result? <==> s.Result?
    ensures r.Result? ==> r.data == f(s.data)
    ensures r.Error? <==> s.Error?
    ensures r.Error? ==> r.exception == s.exception && r.retry == s.retry
  {
    match s
    case Result(data) => Result(f(data))
    case Error(e, retry) => Error(e, retry)
    case Loading => Loading
  }

  /** Mapping with the identity leaves a state as it is. */
  lemma MapIdentity<T>(s: RequestState<T>)
    ensures Map(s, x => x) == s
  {
  }

  /** Mapping twice is mapping once with the composed function. */
  lemma MapCompose<T, U, R>(s: RequestState<T>, f: T -> U, g: U -> R)
    ensures Map(Map(s, f), g) == Map(s, x => g(f(x)))
  {
  }

  /**
   * `combineWith(other, f)`: an error wins (the receiver's first; when both
   * failed the retry runs both retries, the receiver's first); two results
   * are combined with `f`; anything else is loading.
   */
  function CombineWith<T, O, R>(a: RequestState<T>, b: RequestState<O>, f: (T, O) -> R): (r: RequestState<R>)
    ensures r.Error? <==> a.Error? || b.Error?
    ensures r.Error? ==> r.exception == (if a.Error? then a.exception else b.exception)
    ensures r.Error? ==> r.retry == (if a.Error? && b.Error? then a.retry + b.retry else if a.Error? then a.retry else b.retry)
    ensures r.Result? <==> a.Result? && b.Result?
    ensures r.Result? ==> r.data == f(a.data, b.data)
    ensures r.Loading? <==> !a.Error? && !b.Error? && (a.Loading? || b.Loading?)
  {
    if a.Error? then
      if b.Error? then Error(a.exception, a.retry + b.retry) else Error(a.exception, a.retry)
    else if b.Error? then Error(b.exception, b.retry)
    else if a.Result? && b.Result? then Result(f(a.data, b.data))
    else Loading
  }

  /** Combining a result with loading, either way round, is loading. */
  lemma CombineWithLoading<T, O, R>(x: T, y: O, f: (T, O) -> R)
    ensures CombineWith(Result(x), Loading, f) == Loading
    ensures CombineWith(Loading, Result(y), f) == Loading
  {
  }

  /**
   * Whatever the order of combination, three failed states report the first
   * exception and a retry that runs all three retries left to right.
   */
  lemma CombineErrorsAssociative<T, U, V, R, W>(
    a: RequestState<T>, b: RequestState<U>, c: RequestState<V>,
    f: (T, U) -> R, g: (R, V) -> W, h: (U, V) -> R, k: (T, R) -> W)
    requires a.Error? && b.Error? && c.Error?
    ensures CombineWith(CombineWith(a, b, f), c, g) == CombineWith(a, CombineWith(b, c, h), k)
    ensures CombineWith(a, CombineWith(b, c, h), k) == Error(a.exception, a.retry + b.retry + c.retry)
  {
    assert a.retry + b.retry + c.retry == a.retry + (b.retry + c.retry);
  }
}
