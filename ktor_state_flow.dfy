/**
 * The request block of `ktorStateFlow` and its `loadAndWait` step: how a
 * flow loads, emits `Loading`, results and errors, and how long it waits
 * before the next request.
 *
 * The network is a script: the k-th request the block issues receives the
 * k-th `Exchange`, the response it returns (or the exception it throws)
 * together with the clock reading at that moment. When the script runs out
 * while the block still wants to repeat, the flow has lost its collectors
 * and the block is cancelled, which it ignores.
 */
module KtorStateFlows {
  import opened Wrappers
  import opened Text
  import opened HttpHeaders
  import opened CacheHeaderExtensions
  import opened PrimitiveExtensions
  import opened RequestStates
  import HttpResponseExtensions

  const PLUGIN_MISSING: string := "KtorStateFlow requires the Ubiquache plugin to be installed"

  // ------------------------------------------------------- refresh delay

  /** The refresh target: the next-refresh date, else the expiry date. */
  function RefreshTarget(hs: Headers, now: int, parseDate: DateParser): (t: Option<int>)
    ensures NextRefreshDate(hs, parseDate).Some? ==> t == NextRefreshDate(hs, parseDate)
    ensures NextRefreshDate(hs, parseDate).None? ==> t == ExpiresDate(hs, now, parseDate)
  {
    match NextRefreshDate(hs, parseDate)
    case Some(t) => Some(t)
    case None => ExpiresDate(hs, now, parseDate)
  }

  /** The backoff: the header's, raised to zero, else the flow's default. */
  function RefreshBackoff(hs: Headers, defaultBackoff: int): (b: int)
    ensures Backoff(hs).Some? ==> b >= 0 && b >= Backoff(hs).value && (b == 0 || b == Backoff(hs).value)
    ensures Backoff(hs).None? ==> b == defaultBackoff
  {
    match Backoff(hs)
    case Some(b) => CoerceAtLeast(b, Some(0))
    case None => defaultBackoff
  }

  /**
   * The least delay before the next request. After an only-if-cached probe
   * it is what is left of the backoff once the cached response's age (from
   * its Date header, or none without one) is taken off, and never negative;
   * otherwise it is the whole backoff.
   */
  function MinDelay(backoff: int, onlyIfCached: bool, serverDate: Option<int>, now: int): (r: int)
    ensures !onlyIfCached ==> r == backoff
    ensures onlyIfCached ==> r >= 0 && r >= backoff - (now - serverDate.GetOr(now))
    ensures onlyIfCached ==> r == 0 || r == backoff - (now - serverDate.GetOr(now))
  {
    if onlyIfCached then CoerceAtLeast(backoff - (now - serverDate.GetOr(now)), Some(0)) else backoff
  }

  /**
   * The delay before the next request: the time left until the target,
   * raised to `minDelay`, or the default interval when there is no target.
   * `None` means the request is one-shot.
   */
  function Delay(target: Option<int>, minDelay: int, now: int, defaultInterval: Option<int>): (r: Option<int>)
    ensures r.Some? <==> target.Some? || defaultInterval.Some?
    ensures target.Some? ==>
      r.value >= minDelay && r.value >= target.value - now && (r.value == minDelay || r.value == target.value - now)
    ensures target.None? ==> r == defaultInterval
  {
    match target
    case Some(t) => Some(CoerceAtLeast(t - now, Some(minDelay)))
    case None => defaultInterval
  }

  /**
   * After a probe the least delay is the remaining backoff: between zero
   * and the backoff when the cached response is not from the future, and
   * the backoff less the age when that is positive.
   */
  lemma ProbeWaitsRemainingBackoff(backoff: int, serverDate: int, now: int)
    requires backoff >= 0 && serverDate <= now
    ensures 0 <= MinDelay(backoff, true, Some(serverDate), now) <= backoff
    ensures backoff - (now - serverDate) >= 0 ==>
      MinDelay(backoff, true, Some(serverDate), now) == backoff - (now - serverDate)
    ensures backoff <= now - serverDate ==> MinDelay(backoff, true, Some(serverDate), now) == 0
  {
  }

  /** A probe answered without a Date header counts as fresh: the whole (non-negative) backoff remains. */
  lemma ProbeWithoutDateWaitsWholeBackoff(backoff: int, now: int)
    ensures MinDelay(backoff, true, None, now) == (if backoff >= 0 then backoff else 0)
  {
  }

  /** The delay `loadAndWait` waits after a response with headers `hs`. */
  function RefreshDelay(hs: Headers, onlyIfCached: bool, now: int, parseDate: DateParser,
                        defaultInterval: Option<int>, defaultBackoff: int): (r: Option<int>)
    ensures r.Some? <==> RefreshTarget(hs, now, parseDate).Some? || defaultInterval.Some?
    ensures RefreshTarget(hs, now, parseDate).None? ==> r == defaultInterval
    ensures RefreshTarget(hs, now, parseDate).Some? ==> r.value >= RefreshTarget(hs, now, parseDate).value - now
    ensures RefreshTarget(hs, now, parseDate).Some? && !onlyIfCached ==> r.value >= RefreshBackoff(hs, defaultBackoff)
  {
    var minDelay := MinDelay(RefreshBackoff(hs, defaultBackoff), onlyIfCached, ServerDate(hs, parseDate), now);
    Delay(RefreshTarget(hs, now, parseDate), minDelay, now, defaultInterval)
  }

  /** A response with a header backoff is not requested again before that backoff has passed. */
  lemma HeaderBackoffDefersNextRequest(hs: Headers, now: int, parseDate: DateParser, defaultInterval: Option<int>, defaultBackoff: int)
    requires Backoff(hs).Some? && RefreshTarget(hs, now, parseDate).Some?
    ensures RefreshDelay(hs, false, now, parseDate, defaultInterval, defaultBackoff).Some?
    ensures RefreshDelay(hs, false, now, parseDate, defaultInterval, defaultBackoff).value >= Backoff(hs).value
    ensures RefreshDelay(hs, false, now, parseDate, defaultInterval, defaultBackoff).value >= 0
  {
  }

  // -------------------------------------------------------- loadAndWait

  /** A response as `loadAndWait` reads it; `body` is the deserialised body, or what deserialising threw. */
  datatype Reply<T> = Reply(status: int, headers: Headers, text: Option<string>, body: Result<T, Exception>)

  /** One request: what it returned or threw, and the clock reading after it. */
  datatype Exchange<T> = Exchange(reply: Result<Reply<T>, Exception>, now: int)

  /** What one `loadAndWait` emitted, and whether it asks to repeat or what it threw. */
  datatype Step<T> = Step(emitted: seq<RequestState<T>>, outcome: Result<bool, Exception>)

  /** The flow's defaults: date parsing, refresh interval and refresh backoff. */
  datatype Settings = Settings(parseDate: DateParser, defaultRefreshInterval: Option<int>, defaultRefreshBackoff: int)

  /** The Ubiquache plugin marks the answers to only-if-cached requests in its X-Ubiquache header. */
  predicate MarkedOnlyIfCached(hs: Headers) {
    Get(hs, X_UBIQUACHE).Some? && Contains(Get(hs, X_UBIQUACHE).value, ONLY_IF_CACHED)
  }

  /**
   * `loadAndWait`: a probe needs the plugin's mark; an unsuccessful status
   * raises the response exception; otherwise the body is emitted as a
   * result and the flow repeats when there is a delay to wait.
   */
  function LoadAndWait<T>(x: Exchange<T>, cacheControl: Option<string>, interval: Option<int>, backoff: int,
                          parseDate: DateParser): (s: Step<T>)
    ensures s.outcome.Ok? <==> |s.emitted| == 1
    ensures s.outcome.Fail? ==> s.emitted == []
    ensures s.outcome.Ok? ==>
      && x.reply.Ok? && 200 <= x.reply.value.status <= 299 && x.reply.value.body.Ok?
      && s.emitted == [Result(x.reply.value.body.value)]
    ensures x.reply.Fail? ==> s.outcome == Fail(x.reply.error)
  {
    match x.reply
    case Fail(e) => Step([], Fail(e))
    case Ok(r) =>
      if cacheControl == Some(ONLY_IF_CACHED) && !MarkedOnlyIfCached(r.headers) then
        Step([], Fail(IllegalStateException(PLUGIN_MISSING)))
      else if HttpResponseExtensions.Classify(r.status).Some? then
        Step([], Fail(ResponseException(r.status, HttpResponseExtensions.BodyAsTextOrElse(r.text))))
      else match r.body
        case Fail(e) => Step([], Fail(e))
        case Ok(data) =>
          var delay := RefreshDelay(r.headers, cacheControl == Some(ONLY_IF_CACHED), x.now, parseDate, interval, backoff);
          Step([Result(data)], Ok(delay.Some?))
  }

  /** A probe answered without the plugin's mark fails before anything is emitted. */
  lemma ProbeRequiresPlugin<T>(r: Reply<T>, now: int, interval: Option<int>, backoff: int, parseDate: DateParser)
    requires !MarkedOnlyIfCached(r.headers)
    ensures LoadAndWait(Exchange(Ok(r), now), Some(ONLY_IF_CACHED), interval, backoff, parseDate)
            == Step([], Fail(IllegalStateException(PLUGIN_MISSING)))
  {
  }

  /** An unsuccessful status raises its response exception, and no result is emitted. */
  lemma UnsuccessfulStatusRaises<T>(r: Reply<T>, now: int, cacheControl: Option<string>, interval: Option<int>,
                                    backoff: int, parseDate: DateParser)
    requires !(200 <= r.status <= 299)
    requires cacheControl == Some(ONLY_IF_CACHED) ==> MarkedOnlyIfCached(r.headers)
    ensures LoadAndWait(Exchange(Ok(r), now), cacheControl, interval, backoff, parseDate)
            == Step([], Fail(ResponseException(r.status, HttpResponseExtensions.BodyAsTextOrElse(r.text))))
  {
  }

  /**
   * A successful response to a request that is not a probe (no Cache-Control,
   * or the forced `no-cache`) emits its body, and the flow repeats exactly
   * when the response names a refresh target or the flow has a default
   * interval.
   */
  lemma SuccessRepeatsIffDelay<T>(r: Reply<T>, now: int, cacheControl: Option<string>, interval: Option<int>,
                                  backoff: int, parseDate: DateParser)
    requires 200 <= r.status <= 299 && r.body.Ok?
    requires cacheControl != Some(ONLY_IF_CACHED)
    ensures LoadAndWait(Exchange(Ok(r), now), cacheControl, interval, backoff, parseDate).emitted == [Result(r.body.value)]
    ensures LoadAndWait(Exchange(Ok(r), now), cacheControl, interval, backoff, parseDate).outcome
            == Ok(RefreshTarget(r.headers, now, parseDate).Some? || interval.Some?)
  {
  }

  // ---------------------------------------------------- the request block

  /** How the block ended: asked not to repeat, ran out of collectors, or threw. */
  datatype End = Finished | Stopped | Threw(exception: Exception)

  /** The states emitted and the Cache-Control of each request issued, in order. */
  datatype Trace<T> = Trace(emitted: seq<RequestState<T>>, requests: seq<Option<string>>, end: End)

  /** `emitted` and a request come before `t`. */
  function Then<T>(emitted: seq<RequestState<T>>, request: Option<string>, t: Trace<T>): Trace<T> {
    Trace(emitted + t.emitted, [request] + t.requests, t.end)
  }

  /** The trace of one request whose step `s` does not lead to another. */
  function Last<T>(s: Step<T>, request: Option<string>): Trace<T> {
    Trace(s.emitted, [request], if s.outcome.Fail? then Threw(s.outcome.error) else Finished)
  }

  /** `while (repeat) repeat = loadAndWait(request, null, ...)`, fed by `script`. */
  function Repeat<T>(script: seq<Exchange<T>>, cfg: Settings): (t: Trace<T>)
    ensures |t.emitted| + (if t.end.Threw? then 1 else 0) == |t.requests|
    decreases |script|
  {
    if script == [] then Trace([], [], Stopped)
    else
      var s := LoadAndWait(script[0], None, cfg.defaultRefreshInterval, cfg.defaultRefreshBackoff, cfg.parseDate);
      if s.outcome == Ok(true) then Then(s.emitted, None, Repeat(script[1..], cfg))
      else Last(s, None)
  }

  /** The exceptions an only-if-cached probe ignores. */
  predicate IgnoredByProbe(e: Exception) {
    e.ResponseException? || e.IOException?
  }

  /** The Cache-Control of the first request: `no-cache` when forced, the `only-if-cached` probe otherwise. */
  function FirstRequest(forceFresh: bool): (r: Option<string>)
    ensures r.Some?
  {
    if forceFresh then Some(NO_CACHE) else Some(ONLY_IF_CACHED)
  }

  /**
   * The first step: a forced reload uses the configured refresh timing, the
   * probe none; with its zero interval a probe that succeeds always asks to
   * go on.
   */
  function First<T>(forceFresh: bool, x: Exchange<T>, cfg: Settings): (s: Step<T>)
    ensures |s.emitted| <= 1 && (s.emitted != [] ==> s.emitted[0].Result?)
    ensures !forceFresh ==> s.outcome != Ok(false)
  {
    if forceFresh then LoadAndWait(x, FirstRequest(forceFresh), cfg.defaultRefreshInterval, cfg.defaultRefreshBackoff, cfg.parseDate)
    else LoadAndWait(x, FirstRequest(forceFresh), Some(0), 0, cfg.parseDate)
  }

  /** Whether the repeating requests follow the first step: after a forced reload only if it asks to, after the probe unless it failed for another reason than a response or I/O error. */
  predicate GoesOn<T>(forceFresh: bool, s: Step<T>): (r: bool)
    ensures s.outcome == Ok(true) ==> r
    ensures s.outcome.Fail? && !IgnoredByProbe(s.outcome.error) ==> !r
  {
    if forceFresh then s.outcome == Ok(true)
    else !(s.outcome.Fail? && !IgnoredByProbe(s.outcome.error))
  }

  /** The `try` part of the block, without the initial `Loading`. */
  function Body<T>(forceFresh: bool, script: seq<Exchange<T>>, cfg: Settings): Trace<T> {
    if script == [] then Trace([], [], Stopped)
    else
      var s := First(forceFresh, script[0], cfg);
      if GoesOn(forceFresh, s) then Then(s.emitted, FirstRequest(forceFresh), Repeat(script[1..], cfg))
      else Last(s, FirstRequest(forceFresh))
  }

  /** The `catch` clauses: cancellation is ignored, any other exception is emitted as an error whose retry force-reloads flow `self`. */
  function Caught<T>(end: End, self: nat): seq<RequestState<T>> {
    if end.Threw? && !end.exception.CancellationException? then [Error(end.exception, [self])] else []
  }

  /** The whole block: `Loading`, the body's emissions, then the caught error if any. */
  function Block<T>(forceFresh: bool, script: seq<Exchange<T>>, cfg: Settings, self: nat): (t: Trace<T>)
    ensures |t.emitted| >= 1 && t.emitted[0] == Loading
  {
    var b := Body(forceFresh, script, cfg);
    Trace([Loading] + b.emitted + Caught(b.end, self), b.requests, b.end)
  }

  /** The repeating requests carry no Cache-Control, emit only results, and use at most the script. */
  lemma {:induction false} RepeatShape<T>(script: seq<Exchange<T>>, cfg: Settings)
    ensures |Repeat(script, cfg).requests| <= |script|
    ensures forall k :: 0 <= k < |Repeat(script, cfg).requests| ==> Repeat(script, cfg).requests[k].None?
    ensures forall k :: 0 <= k < |Repeat(script, cfg).emitted| ==> Repeat(script, cfg).emitted[k].Result?
    ensures Repeat(script, cfg).end == Stopped ==> |Repeat(script, cfg).requests| == |script|
    decreases |script|
  {
    if script != [] {
      var s := LoadAndWait(script[0], None, cfg.defaultRefreshInterval, cfg.defaultRefreshBackoff, cfg.parseDate);
      if s.outcome == Ok(true) {
        RepeatShape(script[1..], cfg);
      }
    }
  }

  /** A forced reload's first request bypasses the cache with `no-cache`. */
  lemma ForceFreshStartsWithNoCache<T>(script: seq<Exchange<T>>, cfg: Settings, self: nat)
    requires script != []
    ensures Block(true, script, cfg, self).requests[0] == Some(NO_CACHE)
    ensures forall k :: 1 <= k < |Block(true, script, cfg, self).requests| ==> Block(true, script, cfg, self).requests[k].None?
  {
    RepeatShape(script[1..], cfg);
  }

  /**
   * Otherwise the first request is an only-if-cached probe, and a probe
   * that fails with a response or I/O exception is passed over: the
   * repeating requests follow as if it had not been made.
   */
  lemma ProbeFailureIsIgnored<T>(script: seq<Exchange<T>>, cfg: Settings, self: nat)
    requires script != [] && script[0].reply.Fail? && IgnoredByProbe(script[0].reply.error)
    ensures Block(false, script, cfg, self).requests == [Some(ONLY_IF_CACHED)] + Repeat(script[1..], cfg).requests
    ensures Block(false, script, cfg, self).emitted
            == [Loading] + Repeat(script[1..], cfg).emitted + Caught(Repeat(script[1..], cfg).end, self)
  {
    var s := First(false, script[0], cfg);
    assert s.emitted == [] && GoesOn(false, s);
    assert Body(false, script, cfg) == Then([], Some(ONLY_IF_CACHED), Repeat(script[1..], cfg));
    EmptyLeft(s.emitted, Repeat(script[1..], cfg).emitted);
  }

  /**
   * The block emits `Loading` first, then only results, and an error only as
   * its very last state: exactly when an exception other than cancellation
   * escaped, and then that exception with a force-reload retry.
   */
  lemma {:induction false} ErrorOnlyAtTheEnd<T>(forceFresh: bool, script: seq<Exchange<T>>, cfg: Settings, self: nat)
    ensures Block(forceFresh, script, cfg, self).emitted[0] == Loading
    ensures var e := Block(forceFresh, script, cfg, self).emitted;
      forall k :: 1 <= k < |e| - 1 ==> e[k].Result?
    ensures var t := Block(forceFresh, script, cfg, self);
      t.emitted[|t.emitted| - 1].Error? <==> t.end.Threw? && !t.end.exception.CancellationException?
    ensures var t := Block(forceFresh, script, cfg, self);
      t.emitted[|t.emitted| - 1].Error? ==> t.emitted[|t.emitted| - 1] == Error(t.end.exception, [self])
  {
    var b := Body(forceFresh, script, cfg);
    BodyEmitsResults(forceFresh, script, cfg);
    CaughtLast(b.emitted, b.end, self);
  }

  /** Results between `Loading` and the caught error: an error is the last state exactly when one was caught. */
  lemma CaughtLast<T>(results: seq<RequestState<T>>, end: End, self: nat)
    requires forall k :: 0 <= k < |results| ==> results[k].Result?
    ensures var e := [Loading] + results + Caught(end, self);
      && (forall k :: 1 <= k < |e| - 1 ==> e[k].Result?)
      && (e[|e| - 1].Error? <==> end.Threw? && !end.exception.CancellationException?)
      && (e[|e| - 1].Error? ==> e[|e| - 1] == Error(end.exception, [self]))
  {
    var e := [Loading] + results + Caught(end, self);
    assert forall k :: 1 <= k < 1 + |results| ==> e[k] == results[k - 1];
  }

  /** The body emits only results: the first step's and the repeating requests'. */
  lemma {:induction false} BodyEmitsResults<T>(forceFresh: bool, script: seq<Exchange<T>>, cfg: Settings)
    ensures forall k :: 0 <= k < |Body(forceFresh, script, cfg).emitted| ==> Body(forceFresh, script, cfg).emitted[k].Result?
  {
    if script != [] {
      var s := First(forceFresh, script[0], cfg);
      var rest := Repeat(script[1..], cfg);
      RepeatShape(script[1..], cfg);
      if GoesOn(forceFresh, s) {
        assert Body(forceFresh, script, cfg).emitted == s.emitted + rest.emitted;
      } else {
        assert Body(forceFresh, script, cfg).emitted == s.emitted;
      }
    }
  }

  /** A block that ran out of script was cancelled: it never emits an error and used the whole script. */
  lemma {:induction false} CancelledBlockEmitsNoError<T>(forceFresh: bool, script: seq<Exchange<T>>, cfg: Settings, self: nat)
    requires Block(forceFresh, script, cfg, self).end == Stopped
    ensures |Block(forceFresh, script, cfg, self).requests| == |script|
    ensures forall k :: 0 <= k < |Block(forceFresh, script, cfg, self).emitted| ==>
      !Block(forceFresh, script, cfg, self).emitted[k].Error?
  {
    ErrorOnlyAtTheEnd(forceFresh, script, cfg, self);
    if script != [] {
      RepeatShape(script[1..], cfg);
    }
  }

  lemma Associative<A>(a: seq<A>, b: seq<A>, c: seq<A>)
    ensures a + (b + c) == (a + b) + c
  {
  }

  lemma EmptyLeft<A>(a: seq<A>, b: seq<A>)
    requires a == []
    ensures a + b == b
  {
  }

  /** One turn of the loop: the request at `i`, then the rest of the script if it asks to repeat. */
  lemma RepeatStep<T>(script: seq<Exchange<T>>, i: nat, cfg: Settings)
    requires i < |script|
    ensures var s := LoadAndWait(script[i], None, cfg.defaultRefreshInterval, cfg.defaultRefreshBackoff, cfg.parseDate);
      Repeat(script[i..], cfg) == if s.outcome == Ok(true) then Then(s.emitted, None, Repeat(script[i + 1..], cfg)) else Last(s, None)
  {
    assert script[i..][0] == script[i] && script[i..][1..] == script[i + 1..];
  }

  // ------------------------------------------------------------- the flow

  /** The state flow a block emits into: its current value and, for the proofs, every value it took. */
  class KtorStateFlowImpl<T> {
    const self: nat
    var value: RequestState<T>
    ghost var history: seq<RequestState<T>>

    ghost predicate Valid()
      reads this
    {
      history != [] && value == history[|history| - 1]
    }

    /** `MutableStateFlow(Loading)`. */
    constructor (self: nat)
      ensures Valid() && this.self == self && value == Loading && history == [Loading]
    {
      this.self := self;
      value := Loading;
      history := [Loading];
    }

    /** `emit(value)`: the flow takes the new value. */
    method Emit(s: RequestState<T>)
      requires Valid()
      modifies this
      ensures Valid() && value == s && history == old(history) + [s]
    {
      value := s;
      history := history + [s];
    }

    /** `loadAndWait`: one request, its emission, and whether to repeat. */
    method LoadAndWaitStep(x: Exchange<T>, cacheControl: Option<string>, interval: Option<int>, backoff: int,
                           parseDate: DateParser)
      returns (outcome: Result<bool, Exception>)
      requires Valid()
      modifies this
      ensures Valid()
      ensures outcome == LoadAndWait(x, cacheControl, interval, backoff, parseDate).outcome
      ensures history == old(history) + LoadAndWait(x, cacheControl, interval, backoff, parseDate).emitted
    {
      if x.reply.Fail? {
        return Fail(x.reply.error);
      }
      var response := x.reply.value;
      if cacheControl == Some(ONLY_IF_CACHED) && !MarkedOnlyIfCached(response.headers) {
        return Fail(IllegalStateException(PLUGIN_MISSING));
      }
      if HttpResponseExtensions.Classify(response.status).Some? {
        return Fail(ResponseException(response.status, HttpResponseExtensions.BodyAsTextOrElse(response.text)));
      }
      if response.body.Fail? {
        return Fail(response.body.error);
      }
      Emit(Result(response.body.value));
      var delay := RefreshDelay(response.headers, cacheControl == Some(ONLY_IF_CACHED), x.now, parseDate, interval, backoff);
      outcome := Ok(delay.Some?);
    }

    /** `while (repeat) repeat = loadAndWait(request, null, ...)`, the request issued for each exchange of `script`. */
    method RunRepeat(script: seq<Exchange<T>>, cfg: Settings) returns (requests: seq<Option<string>>, end: End)
      requires Valid()
      modifies this
      ensures Valid()
      ensures history == old(history) + Repeat(script, cfg).emitted
      ensures requests == Repeat(script, cfg).requests && end == Repeat(script, cfg).end
    {
      ghost var acc: seq<RequestState<T>> := [];
      requests := [];
      end := Stopped;
      var repeat := true;
      var i := 0;
      assert script[i..] == script;
      EmptyLeft(acc, Repeat(script, cfg).emitted);
      EmptyLeft(requests, Repeat(script, cfg).requests);
      while repeat && i < |script|
        invariant Valid()
        invariant 0 <= i <= |script|
        invariant history == old(history) + acc
        invariant repeat ==> end == Stopped
        invariant repeat ==>
          Repeat(script, cfg) == Trace(acc + Repeat(script[i..], cfg).emitted,
                                       requests + Repeat(script[i..], cfg).requests,
                                       Repeat(script[i..], cfg).end)
        invariant !repeat ==> Repeat(script, cfg) == Trace(acc, requests, end)
        decreases |script| - i, repeat
      {
        RepeatStep(script, i, cfg);
        ghost var step := LoadAndWait(script[i], None, cfg.defaultRefreshInterval, cfg.defaultRefreshBackoff, cfg.parseDate);
        ghost var rest := Repeat(script[i + 1..], cfg);
        var o := LoadAndWaitStep(script[i], None, cfg.defaultRefreshInterval, cfg.defaultRefreshBackoff, cfg.parseDate);
        Associative(acc, step.emitted, rest.emitted);
        Associative(requests, [None], rest.requests);
        assert o == step.outcome;
        acc := acc + step.emitted;
        requests := requests + [None];
        if o.Fail? {
          repeat := false;
          end := Threw(o.error);
          assert Repeat(script[i..], cfg) == Last(step, None);
        } else {
          repeat := o.value;
          if !repeat {
            end := Finished;
            assert Repeat(script[i..], cfg) == Last(step, None);
          } else {
            assert Repeat(script[i..], cfg) == Then(step.emitted, None, rest);
          }
        }
        i := i + 1;
      }
      if repeat {
        assert script[i..] == [];
      }
    }

    /** The request inside the `try`: a forced `no-cache` request, or a probe that repeats unless it threw. */
    method RunFirst(forceFresh: bool, x: Exchange<T>, cfg: Settings) returns (repeat: bool, end: End)
      requires Valid()
      modifies this
      ensures Valid()
      ensures history == old(history) + First(forceFresh, x, cfg).emitted
      ensures repeat == GoesOn(forceFresh, First(forceFresh, x, cfg))
      ensures !repeat ==> end == Last(First(forceFresh, x, cfg), FirstRequest(forceFresh)).end
    {
      end := Stopped;
      if forceFresh {
        var o := LoadAndWaitStep(x, Some(NO_CACHE), cfg.defaultRefreshInterval, cfg.defaultRefreshBackoff, cfg.parseDate);
        repeat := o == Ok(true);
        if o.Fail? {
          end := Threw(o.error);
        } else if !repeat {
          end := Finished;
        }
      } else {
        var o := LoadAndWaitStep(x, Some(ONLY_IF_CACHED), Some(0), 0, cfg.parseDate);
        repeat := !(o.Fail? && !IgnoredByProbe(o.error));
        if !repeat {
          end := Threw(o.error);
        }
      }
    }

    /**
     * The block `ktorStateFlow` runs on each start: the states it emits are
     * those of `Block`, and it issues the requests `Block` lists.
     */
    method RunBlock(forceFresh: bool, script: seq<Exchange<T>>, cfg: Settings) returns (requests: seq<Option<string>>)
      requires Valid()
      modifies this
      ensures Valid()
      ensures history == old(history) + Block(forceFresh, script, cfg, self).emitted
      ensures requests == Block(forceFresh, script, cfg, self).requests
    {
      Emit(Loading);
      ghost var start := history;
      var end := Stopped;
      requests := [];
      if script != [] {
        ghost var s := First(forceFresh, script[0], cfg);
        var repeat;
        repeat, end := RunFirst(forceFresh, script[0], cfg);
        requests := [FirstRequest(forceFresh)];
        if repeat {
          ghost var middle := history;
          var more;
          more, end := RunRepeat(script[1..], cfg);
          requests := requests + more;
          Associative(start, s.emitted, Repeat(script[1..], cfg).emitted);
        }
      }
      ghost var b := Body(forceFresh, script, cfg);
      assert history == start + b.emitted && requests == b.requests && end == b.end;
      if end.Threw? && !end.exception.CancellationException? {
        Emit(Error(end.exception, [self]));
      }
      Associative(old(history), [Loading], b.emitted);
      Associative(old(history), [Loading] + b.emitted, Caught(end, self));
    }
  }
}
