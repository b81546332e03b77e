/**
 * The Ubiquache client plugin: the cache name given at installation, and the
 * send-pipeline interceptor that answers `only-if-cached` requests.
 */
module Ubiquache {
  import opened Wrappers
  import opened Text
  import opened HttpHeaders
  import opened HttpRequestExtensions
  import opened HttpResponseExtensions

  const DEFAULT_NAME: string := "ubiquache"
  const HTTP_1_1: string := "HTTP/1.1"
  const GATEWAY_TIMEOUT: int := 504

  datatype IllegalArgumentException = IllegalArgumentException(message: string)

  /** One character of the pattern `[A-Za-z0-9._\-]`. */
  predicate IsNameChar(c: char) {
    ('A' <= c <= 'Z') || ('a' <= c <= 'z') || ('0' <= c <= '9') || c == '.' || c == '_' || c == '-'
  }

  /** A whole-string match of `[A-Za-z0-9._\-]+`, read character by character. */
  function MatchesNamePattern(s: string): (r: bool)
    ensures r <==> s != [] && forall i :: 0 <= i < |s| ==> IsNameChar(s[i])
  {
    if s == [] then false
    else IsNameChar(s[0]) && (|s| == 1 || MatchesNamePattern(s[1..]))
  }

  /**
   * `prepare`: the configured name, or `ubiquache` when none is given; a
   * name that does not match the pattern is refused.
   */
  function Prepare(configured: Option<string>): (r: Result<string, IllegalArgumentException>)
    ensures configured.None? ==> r == Ok(DEFAULT_NAME)
    ensures configured.Some? ==>
      (r.Ok? <==> configured.value != [] && forall i :: 0 <= i < |configured.value| ==> IsNameChar(configured.value[i]))
    ensures r.Ok? ==> r.value == configured.GetOr(DEFAULT_NAME)
  {
    var name := configured.GetOr(DEFAULT_NAME);
    assert MatchesNamePattern(DEFAULT_NAME);
    if MatchesNamePattern(name) then Ok(name)
    else Fail(IllegalArgumentException("Cache name must only use A-Za-z0-9._-"))
  }

  /** Names with a path separator, a space or nothing in them are refused. */
  lemma PrepareRejects(name: string, i: nat)
    requires i < |name| && (name[i] == '/' || name[i] == ' ')
    ensures Prepare(Some(name)).Fail? && Prepare(Some("")).Fail?
  {
  }

  /** `URLProtocol.canStore()`: only plain and secure HTTP are cacheable. */
  predicate CanStore(protocol: string): (r: bool)
    ensures r ==> StartsWith(protocol, "http")
  {
    protocol == "http" || protocol == "https"
  }

  /** What the interceptor sees of a request being sent. */
  datatype Request = Request(httpMethod: string, protocol: string, url: string, headers: Headers, content: Body)

  /** A response the plugin builds itself instead of contacting the network. */
  datatype LocalResponse = LocalResponse(status: int, headers: Headers, version: string, body: seq<bv8>)

  /**
   * What the interceptor does with a request: `Ineligible` requests and
   * `Eligible` ones (for which caching is not implemented) continue to the
   * network unchanged; an `only-if-cached` request is finished with a local
   * response instead.
   */
  datatype Decision = Ineligible | Eligible | AnswerLocally(response: LocalResponse)

  /** `proceedWithCachedResourceNotFound`: a 504 marked as a cache-only miss, with an empty body. */
  function CacheOnlyMiss(): (r: LocalResponse)
    ensures r.status == GATEWAY_TIMEOUT && r.version == HTTP_1_1 && r.body == []
    ensures r.headers == [Header(X_UBIQUACHE, ONLY_IF_CACHED)]
  {
    LocalResponse(GATEWAY_TIMEOUT, [Header(X_UBIQUACHE, ONLY_IF_CACHED)], HTTP_1_1, [])
  }

  /** The send-pipeline interceptor. */
  function Intercept(req: Request): (d: Decision)
    ensures d == Ineligible <==> req.content.Content? || req.httpMethod != "GET" || !CanStore(req.protocol)
    ensures d.AnswerLocally? <==>
      req.content.NoContent? && req.httpMethod == "GET" && CanStore(req.protocol) && ONLY_IF_CACHED in CacheControl(req.headers)
    ensures d.AnswerLocally? ==> d.response == CacheOnlyMiss()
  {
    if req.content.Content? then Ineligible
    else if req.httpMethod != "GET" || !CanStore(req.protocol) then Ineligible
    else if ONLY_IF_CACHED in CacheControl(req.headers) then AnswerLocally(CacheOnlyMiss())
    else Eligible
  }

  /** Whether the request reaches the network after the interceptor. */
  predicate ContactsNetwork(d: Decision) {
    !d.AnswerLocally?
  }

  /** A GET over HTTP whose only Cache-Control directive is `only-if-cached` never reaches the network. */
  lemma OnlyIfCachedNeverContactsNetwork(url: string, protocol: string)
    requires CanStore(protocol)
    ensures !ContactsNetwork(Intercept(Request("GET", protocol, url, [Header(CACHE_CONTROL, ONLY_IF_CACHED)], NoContent)))
  {
    var hs := [Header(CACHE_CONTROL, ONLY_IF_CACHED)];
    assert Get(hs, CACHE_CONTROL) == Some(ONLY_IF_CACHED);
    SingleDirective(ONLY_IF_CACHED);
  }

  /** A POST always reaches the network, whatever its headers and body. */
  lemma PostPassesThrough(protocol: string, url: string, hs: Headers, content: Body)
    ensures Intercept(Request("POST", protocol, url, hs, content)) == Ineligible
  {
  }

  /** Validating the local answer of a cache-only miss raises a server-response exception. */
  lemma CacheOnlyMissRaises()
    ensures var r := CacheOnlyMiss();
            var e := ThrowIfNotSuccessful(r, r.status, Some(""));
            e.Some? && e.value.kind == ServerResponse && e.value.response == r
  {
  }
}
