/**
 * Freshness hints read from response headers: expiry, next refresh,
 * backoff, Cache-Control max-age and the server date. Every time is in
 * unix milliseconds. Parsing an HTTP date is not modelled: it is the
 * parameter `parseDate`, which yields the instant or `None` for text that
 * is not a date.
 */
module CacheHeaderExtensions {
  import opened Wrappers
  import opened Text
  import opened HttpHeaders

  type DateParser = string -> Option<int>

  /** Headers giving the expiry date, most significant first. */
  const EXPIRY_HEADERS: seq<string> := [X_BEST_BEFORE, X_AMZ_META_BEST_BEFORE, X_MS_META_BESTBEFORE, EXPIRES]

  /** Headers giving the next refresh date, most significant first. */
  const NEXT_REFRESH_HEADERS: seq<string> := [X_NEXT_REFRESH, X_AMZ_META_NEXT_REFRESH, X_MS_META_NEXTREFRESH]

  /**
   * `headers[name]?.let { it.toHttpDate()?.timestamp }`: the date of the
   * first header called `name`, absent when there is none or its value does
   * not parse.
   */
  function DateHeader(hs: Headers, name: string, parseDate: DateParser): (r: Option<int>)
    ensures r.Some? <==> FirstIndex(hs, name).Some? && parseDate(hs[FirstIndex(hs, name).value].value).Some?
    ensures r.Some? ==> r == parseDate(hs[FirstIndex(hs, name).value].value)
  {
    match Get(hs, name)
    case None => None
    case Some(v) => parseDate(v)
  }

  /** Position in `names` of the first header that is present and parses as a date. */
  function FirstDateIndex(hs: Headers, names: seq<string>, parseDate: DateParser): (r: Option<nat>)
    ensures r.Some? ==> r.value < |names| && DateHeader(hs, names[r.value], parseDate).Some?
    ensures r.Some? ==> forall j :: 0 <= j < r.value ==> DateHeader(hs, names[j], parseDate).None?
    ensures r.None? <==> forall j :: 0 <= j < |names| ==> DateHeader(hs, names[j], parseDate).None?
  {
    if names == [] then None
    else if DateHeader(hs, names[0], parseDate).Some? then Some(0)
    else match FirstDateIndex(hs, names[1..], parseDate)
      case None => None
      case Some(i) => Some(i + 1)
  }

  /**
   * The elvis chain over `names`: the date of the first header in the list
   * that is present and parses; a present header that does not parse is
   * passed over.
   */
  function FirstDate(hs: Headers, names: seq<string>, parseDate: DateParser): Option<int> {
    match FirstDateIndex(hs, names, parseDate)
    case None => None
    case Some(k) => DateHeader(hs, names[k], parseDate)
  }

  /** `serverDate()`: the parsed Date header; absent without one or when it is not a date. */
  function ServerDate(hs: Headers, parseDate: DateParser): (r: Option<int>)
    ensures r.None? <==> Get(hs, DATE).None? || parseDate(Get(hs, DATE).value).None?
    ensures r.Some? ==> r == parseDate(Get(hs, DATE).value)
  {
    DateHeader(hs, DATE, parseDate)
  }

  /** The first directive starting with `prefix`. */
  function FirstStartingWith(ds: seq<string>, prefix: string): (r: Option<string>)
    ensures r.Some? ==> r.value in ds && StartsWith(r.value, prefix)
    ensures r.None? <==> forall k :: 0 <= k < |ds| ==> !StartsWith(ds[k], prefix)
  {
    if ds == [] then None
    else if StartsWith(ds[0], prefix) then Some(ds[0])
    else FirstStartingWith(ds[1..], prefix)
  }

  /**
   * `maxAge()`: only the first directive starting with `max-age` is looked
   * at; the text between its first and second `=` is read as a Long and
   * scaled to milliseconds.
   */
  function MaxAge(directives: seq<string>): (r: Option<int>)
    ensures r.Some? ==> r.value % 1000 == 0
    ensures r.Some? ==> FirstStartingWith(directives, "max-age").Some?
  {
    match FirstStartingWith(directives, "max-age")
    case None => None
    case Some(d) =>
      var parts := SplitAll(d, '=');
      if |parts| < 2 then None
      else match ToLongOrNull(parts[1])
        case None => None
        case Some(seconds) => Some(seconds * 1000)
  }

  /** The search stops at the first directive with the prefix, whatever follows it. */
  lemma {:induction false} FirstStartingWithStops(ds: seq<string>, d: string, rest: seq<string>, prefix: string)
    requires forall k :: 0 <= k < |ds| ==> !StartsWith(ds[k], prefix)
    requires StartsWith(d, prefix)
    ensures FirstStartingWith(ds + [d] + rest, prefix) == Some(d)
  {
    if ds != [] {
      assert (ds + [d] + rest)[0] == ds[0];
      assert (ds + [d] + rest)[1..] == ds[1..] + [d] + rest;
      FirstStartingWithStops(ds[1..], d, rest, prefix);
    }
  }

  /**
   * Only the first `max-age` directive counts: a later one is never tried,
   * even when the first gives no value.
   */
  lemma MaxAgeOfFirstDirective(ds: seq<string>, d: string, rest: seq<string>)
    requires forall k :: 0 <= k < |ds| ==> !StartsWith(ds[k], "max-age")
    requires StartsWith(d, "max-age")
    ensures MaxAge(ds + [d] + rest) == MaxAge([d])
  {
    FirstStartingWithStops(ds, d, rest, "max-age");
    FirstStartingWithStops([], d, [], "max-age");
    assert [] + [d] + [] == [d];
  }

  /**
   * A directive made of a key starting with `max-age` and holding no `=`,
   * then `=` and a Long `t`, then nothing or more text after another `=`,
   * gives `t` seconds in milliseconds, whatever the spelling of `t`
   * (`+5`, `05`, `-3`).
   */
  lemma MaxAgeOfText(key: string, t: string, tail: string, seconds: int)
    requires StartsWith(key, "max-age") && '=' !in key
    requires ToLongOrNull(t) == Some(seconds)
    requires tail == [] || tail[0] == '='
    ensures MaxAge([key + "=" + t + tail]) == Some(seconds * 1000)
  {
    var d := key + "=" + t + tail;
    assert d[..7] == key[..7];
    assert FirstStartingWith([d], "max-age") == Some(d);
    ParsedIntegerChars(t, LONG_MIN, LONG_MAX);
    SecondPart(key, t, tail);
  }

  /** The second `=`-separated part of `key=t` or `key=t=…` is `t`. */
  lemma SecondPart(key: string, t: string, tail: string)
    requires '=' !in key && '=' !in t
    requires tail == [] || tail[0] == '='
    ensures |SplitAll(key + "=" + t + tail, '=')| >= 2 && SplitAll(key + "=" + t + tail, '=')[1] == t
  {
    assert key + "=" + t + tail == key + ['='] + (t + tail);
    SplitAllAtFirst(key, '=', t + tail);
    if tail == [] {
      assert t + tail == t;
    } else {
      HeadOfSuffix(t, tail);
      SplitAllAtFirst(t, '=', tail[1..]);
    }
  }

  /** A lone `max-age=<n>` directive gives n seconds in milliseconds. */
  lemma MaxAgeOfDirective(seconds: int)
    requires LONG_MIN <= seconds <= LONG_MAX
    ensures MaxAge(["max-age=" + DecimalString(seconds)]) == Some(seconds * 1000)
  {
    ParseDecimalString(seconds, LONG_MIN, LONG_MAX);
    MaxAgeOfText("max-age", DecimalString(seconds), [], seconds);
    assert "max-age" + "=" + DecimalString(seconds) + [] == "max-age=" + DecimalString(seconds);
  }

  /**
   * `maxAge()` is null when the first `max-age` directive has no `=`, or
   * its text after the first `=` (up to a second one) is not a Long; a
   * later `max-age` directive is not tried.
   */
  lemma MaxAgeNull(ds: seq<string>, d: string, rest: seq<string>)
    requires forall k :: 0 <= k < |ds| ==> !StartsWith(ds[k], "max-age")
    requires StartsWith(d, "max-age")
    requires '=' !in d || ToLongOrNull(SplitAll(d, '=')[1]).None?
    ensures MaxAge(ds + [d] + rest).None?
  {
    MaxAgeOfFirstDirective(ds, d, rest);
    FirstStartingWithStops([], d, [], "max-age");
    assert [] + [d] + [] == [d];
  }

  /**
   * `expiresDate()` as written: the first parseable best-before or Expires
   * header, else `now + maxAge * 1000` for a positive max-age. `maxAge`
   * is already in milliseconds, so the fallback is scaled twice.
   */
  function ExpiresDateAsWritten(hs: Headers, now: int, parseDate: DateParser): (r: Option<int>)
    ensures FirstDate(hs, EXPIRY_HEADERS, parseDate).Some? ==> r == FirstDate(hs, EXPIRY_HEADERS, parseDate)
    ensures FirstDate(hs, EXPIRY_HEADERS, parseDate).None? ==> r == MaxAgeExpiryAsWritten(hs, now)
  {
    match FirstDate(hs, EXPIRY_HEADERS, parseDate)
    case Some(t) => Some(t)
    case None => MaxAgeExpiryAsWritten(hs, now)
  }

  /** The max-age fallback as written: `now` plus a positive max-age times 1000. */
  function MaxAgeExpiryAsWritten(hs: Headers, now: int): (r: Option<int>)
    ensures r.Some? <==> MaxAge(CacheControl(hs)).Some? && MaxAge(CacheControl(hs)).value > 0
    ensures r.Some? ==> r.value == now + MaxAge(CacheControl(hs)).value * 1000
  {
    match MaxAge(CacheControl(hs))
    case Some(m) => if m > 0 then Some(now + m * 1000) else None
    case None => None
  }

  /** The max-age fallback, scaled once: `now` plus a positive max-age. */
  function MaxAgeExpiry(hs: Headers, now: int): (r: Option<int>)
    ensures r.Some? <==> MaxAge(CacheControl(hs)).Some? && MaxAge(CacheControl(hs)).value > 0
    ensures r.Some? ==> r.value == now + MaxAge(CacheControl(hs)).value && r.value > now
  {
    match MaxAge(CacheControl(hs))
    case Some(m) => if m > 0 then Some(now + m) else None
    case None => None
  }

  /**
   * `expiresDate()` with the max-age fallback scaled once, as the
   * documentation of `maxAge` ("max-age in millis") and the caching tests
   * expect. This is the definition the rest of the model uses.
   */
  function ExpiresDate(hs: Headers, now: int, parseDate: DateParser): (r: Option<int>)
    ensures FirstDate(hs, EXPIRY_HEADERS, parseDate).Some? ==> r == FirstDate(hs, EXPIRY_HEADERS, parseDate)
    ensures FirstDate(hs, EXPIRY_HEADERS, parseDate).None? ==> r == MaxAgeExpiry(hs, now)
  {
    match FirstDate(hs, EXPIRY_HEADERS, parseDate)
    case Some(t) => Some(t)
    case None => MaxAgeExpiry(hs, now)
  }

  /** `nextRefreshDate()`: the same rule over the next-refresh headers, with no max-age fallback. */
  function NextRefreshDate(hs: Headers, parseDate: DateParser): (r: Option<int>)
    ensures r.None? <==> forall k :: 0 <= k < |NEXT_REFRESH_HEADERS| ==> DateHeader(hs, NEXT_REFRESH_HEADERS[k], parseDate).None?
  {
    FirstDate(hs, NEXT_REFRESH_HEADERS, parseDate)
  }

  /** `backoff()`: the X-Amz-Meta-Backoff Long, in seconds, scaled to milliseconds. */
  function Backoff(hs: Headers): (r: Option<int>)
    ensures r.Some? <==> Get(hs, X_AMZ_META_BACKOFF).Some? && ToLongOrNull(Get(hs, X_AMZ_META_BACKOFF).value).Some?
    ensures r.Some? ==> r.value == ToLongOrNull(Get(hs, X_AMZ_META_BACKOFF).value).value * 1000
  {
    match Get(hs, X_AMZ_META_BACKOFF)
    case None => None
    case Some(v) =>
      match ToLongOrNull(v)
      case None => None
      case Some(seconds) => Some(seconds * 1000)
  }

  // ----------------------------------------------------------- discrepancy

  /** A response whose only header is `Cache-Control: max-age=1`. */
  const MAX_AGE_ONE: Headers := [Header(CACHE_CONTROL, "max-age=1")]

  /** A response carrying only a Cache-Control header has no expiry date header. */
  lemma OnlyCacheControl(v: string, parseDate: DateParser)
    ensures FirstDate([Header(CACHE_CONTROL, v)], EXPIRY_HEADERS, parseDate).None?
    ensures CacheControl([Header(CACHE_CONTROL, v)]) == DirectiveValues(v)
  {
    var hs := [Header(CACHE_CONTROL, v)];
    var h := hs[0];
    NotNamedAt(h, X_BEST_BEFORE, 0);
    NotNamedAt(h, X_AMZ_META_BEST_BEFORE, 0);
    NotNamedAt(h, X_MS_META_BESTBEFORE, 0);
    NotNamedAt(h, EXPIRES, 0);
    assert DateHeader(hs, EXPIRY_HEADERS[0], parseDate).None?;
    assert DateHeader(hs, EXPIRY_HEADERS[1], parseDate).None?;
    assert DateHeader(hs, EXPIRY_HEADERS[2], parseDate).None?;
    assert DateHeader(hs, EXPIRY_HEADERS[3], parseDate).None?;
    assert Named(h, CACHE_CONTROL);
  }

  /** `max-age=n` as the whole Cache-Control value gives n seconds in milliseconds. */
  lemma MaxAgeValue(seconds: int)
    requires LONG_MIN <= seconds <= LONG_MAX
    ensures MaxAge(DirectiveValues("max-age=" + DecimalString(seconds))) == Some(seconds * 1000)
  {
    var n := DecimalString(seconds);
    var d := "max-age=" + n;
    DecimalStringChars(seconds);
    assert d[|d| - 1] == n[|n| - 1];
    assert forall c :: c in d ==> c in "max-age=" || c in n;
    SingleDirective(d);
    MaxAgeOfDirective(seconds);
  }

  /**
   * A response whose only header is `Cache-Control: v`, with a positive
   * max-age `m` in `v`, expires `m` after `now`, or `m * 1000` as written.
   */
  lemma CacheControlExpiry(v: string, now: int, parseDate: DateParser, m: int)
    requires MaxAge(DirectiveValues(v)) == Some(m) && m > 0
    ensures ExpiresDate([Header(CACHE_CONTROL, v)], now, parseDate) == Some(now + m)
    ensures ExpiresDateAsWritten([Header(CACHE_CONTROL, v)], now, parseDate) == Some(now + m * 1000)
  {
    OnlyCacheControl(v, parseDate);
    ExpiryFromMaxAge([Header(CACHE_CONTROL, v)], now, parseDate, m);
    ExpiryFromMaxAgeAsWritten([Header(CACHE_CONTROL, v)], now, parseDate, m);
  }

  /**
   * The max-age fallback on its own: `now` plus the max-age, or plus 1000
   * times it as written. This follows from the two definitions; it names the
   * step the expiry lemmas below share.
   */
  lemma MaxAgeExpiryIs(hs: Headers, now: int, m: int)
    requires MaxAge(CacheControl(hs)) == Some(m) && m > 0
    ensures MaxAgeExpiry(hs, now) == Some(now + m)
    ensures MaxAgeExpiryAsWritten(hs, now) == Some(now + m * 1000)
  {
  }

  /** As written, without an expiry date header a positive max-age `m` gives `now + m * 1000`. */
  lemma ExpiryFromMaxAgeAsWritten(hs: Headers, now: int, parseDate: DateParser, m: int)
    requires FirstDate(hs, EXPIRY_HEADERS, parseDate).None?
    requires MaxAge(CacheControl(hs)) == Some(m) && m > 0
    ensures ExpiresDateAsWritten(hs, now, parseDate) == Some(now + m * 1000)
  {
    assert ExpiresDateAsWritten(hs, now, parseDate) == MaxAgeExpiryAsWritten(hs, now);
    MaxAgeExpiryIs(hs, now, m);
  }

  /** Without an expiry date header a positive max-age `m` gives `now + m`. */
  lemma ExpiryFromMaxAge(hs: Headers, now: int, parseDate: DateParser, m: int)
    requires FirstDate(hs, EXPIRY_HEADERS, parseDate).None?
    requires MaxAge(CacheControl(hs)) == Some(m) && m > 0
    ensures ExpiresDate(hs, now, parseDate) == Some(now + m)
  {
    assert ExpiresDate(hs, now, parseDate) == MaxAgeExpiry(hs, now);
    MaxAgeExpiryIs(hs, now, m);
  }

  /** As written, `max-age=n` without date headers expires n * 1000 seconds after `now`. */
  lemma MaxAgeScaledTwice(seconds: int, now: int, parseDate: DateParser)
    requires 0 < seconds <= LONG_MAX
    ensures ExpiresDateAsWritten([Header(CACHE_CONTROL, "max-age=" + DecimalString(seconds))], now, parseDate)
            == Some(now + seconds * 1_000_000)
  {
    MaxAgeValue(seconds);
    CacheControlExpiry("max-age=" + DecimalString(seconds), now, parseDate, seconds * 1000);
  }

  /** Corrected: `max-age=n` without date headers expires exactly n seconds after `now`. */
  lemma MaxAgeExpiresAfterSeconds(seconds: int, now: int, parseDate: DateParser)
    requires 0 < seconds <= LONG_MAX
    ensures ExpiresDate([Header(CACHE_CONTROL, "max-age=" + DecimalString(seconds))], now, parseDate)
            == Some(now + seconds * 1000)
  {
    MaxAgeValue(seconds);
    CacheControlExpiry("max-age=" + DecimalString(seconds), now, parseDate, seconds * 1000);
  }

  /**
   * As written, `max-age=1` received at `now` yields an expiry 1000 seconds
   * later, so the entry is still unexpired two seconds on, where the caching
   * test for max-age expects it to have expired.
   */
  lemma MaxAgeOneAsWritten(now: int, parseDate: DateParser)
    ensures ExpiresDateAsWritten(MAX_AGE_ONE, now, parseDate) == Some(now + 1_000_000)
    ensures !(ExpiresDateAsWritten(MAX_AGE_ONE, now, parseDate).value < now + 2000)
  {
    assert DecimalString(1) == "1";
    assert "max-age=" + "1" == "max-age=1";
    assert MAX_AGE_ONE == [Header(CACHE_CONTROL, "max-age=" + DecimalString(1))];
    MaxAgeScaledTwice(1, now, parseDate);
  }

  /** Corrected: `max-age=1` received at `now` has expired two seconds on. */
  lemma MaxAgeOneCorrected(now: int, parseDate: DateParser)
    ensures ExpiresDate(MAX_AGE_ONE, now, parseDate) == Some(now + 1000)
    ensures ExpiresDate(MAX_AGE_ONE, now, parseDate).value < now + 2000
  {
    assert DecimalString(1) == "1";
    assert "max-age=" + "1" == "max-age=1";
    assert MAX_AGE_ONE == [Header(CACHE_CONTROL, "max-age=" + DecimalString(1))];
    MaxAgeExpiresAfterSeconds(1, now, parseDate);
  }
}
