/**
 * The cache manager: the cache key of a request, the freshness metadata of
 * a response, the storage decision, the head file's layout and how it is
 * read back, the size budget, and the operations that store, serve and
 * remove entries.
 */
module CacheManagers {
  import opened Wrappers
  import opened Text
  import opened HttpHeaders
  import HttpStatusLine
  import opened CacheHeaderExtensions
  import opened PrimitiveExtensions
  import opened CacheHandles

  // ------------------------------------------------------------- cache key

  /** Lower-cased header names that take part in the cache key. */
  predicate IsKeyHeader(lowerName: string) {
    lowerName == "accept" || StartsWith(lowerName, "accept-") || lowerName == "authorization"
  }

  /** The key line of one header: lower-cased name, `:`, value, LF. */
  function KeyLine(h: Header): string {
    Lowercase(h.name) + [':'] + h.value + ['\n']
  }

  /** What one header adds to the key: its key line, or nothing. */
  function KeyPart(h: Header): string {
    if IsKeyHeader(Lowercase(h.name)) then KeyLine(h) else []
  }

  /** The key lines of the headers that take part in the key, in header order. */
  function KeyLines(hs: Headers): string {
    Join(hs, KeyPart)
  }

  /**
   * The canonical text whose digest is the cache tag: `method SP url LF`,
   * then the key lines. `httpMethod` is the text `append(request.method)`
   * writes, that is `HttpMethod.toString()`; for Ktor's data class that is
   * `HttpMethod(value=GET)` rather than `GET`.
   */
  function CanonicalRequest(httpMethod: string, url: string, hs: Headers): string {
    httpMethod + [' '] + url + ['\n'] + KeyLines(hs)
  }

  /** Headers splice into the key at their place. */
  lemma KeyLinesSplice(a: Headers, h: Header, b: Headers)
    ensures KeyLines(a + [h] + b) == KeyLines(a) + KeyPart(h) + KeyLines(b)
  {
    JoinAppend(a + [h], b, KeyPart);
    JoinAppend(a, [h], KeyPart);
    assert [h][..0] == [];
  }

  /** A header that is neither `accept`, `accept-*` nor `authorization` does not change the key. */
  lemma OtherHeaderIgnored(httpMethod: string, url: string, a: Headers, h: Header, b: Headers)
    requires !IsKeyHeader(Lowercase(h.name))
    ensures CanonicalRequest(httpMethod, url, a + [h] + b) == CanonicalRequest(httpMethod, url, a + b)
  {
    KeyLinesSplice(a, h, b);
    JoinAppend(a, b, KeyPart);
  }

  /** A key header adds its line, with the name lower-cased, at its place. */
  lemma KeyHeaderCounted(httpMethod: string, url: string, a: Headers, h: Header, b: Headers)
    requires IsKeyHeader(Lowercase(h.name))
    ensures CanonicalRequest(httpMethod, url, a + [h] + b)
         == httpMethod + [' '] + url + ['\n'] + KeyLines(a) + (Lowercase(h.name) + [':'] + h.value + ['\n']) + KeyLines(b)
  {
    KeyLinesSplice(a, h, b);
  }

  /** The request line of a canonical text determines the method and the url. */
  lemma RequestLineDeterminesTarget(m1: string, u1: string, r1: string, m2: string, u2: string, r2: string)
    requires ' ' !in m1 && ' ' !in m2 && '\n' !in u1 && '\n' !in u2
    requires m1 + [' '] + (u1 + ['\n'] + r1) == m2 + [' '] + (u2 + ['\n'] + r2)
    ensures m1 == m2 && u1 == u2
  {
    FirstSeparatorUnique(m1, u1 + ['\n'] + r1, m2, u2 + ['\n'] + r2, ' ');
    FirstSeparatorUnique(u1, r1, u2, r2, '\n');
  }

  /**
   * Requests with different methods or urls have different canonical texts,
   * provided the method has no space and the url no line feed.
   */
  lemma CanonicalRequestDeterminesTarget(m1: string, u1: string, h1: Headers, m2: string, u2: string, h2: Headers)
    requires ' ' !in m1 && ' ' !in m2 && '\n' !in u1 && '\n' !in u2
    requires CanonicalRequest(m1, u1, h1) == CanonicalRequest(m2, u2, h2)
    ensures m1 == m2 && u1 == u2
  {
    var r1 := KeyLines(h1);
    var r2 := KeyLines(h2);
    assert CanonicalRequest(m1, u1, h1) == m1 + [' '] + (u1 + ['\n'] + r1);
    assert CanonicalRequest(m2, u2, h2) == m2 + [' '] + (u2 + ['\n'] + r2);
    RequestLineDeterminesTarget(m1, u1, r1, m2, u2, r2);
  }

  /** One more header adds its part at the end of the key lines. */
  lemma KeyLinesStep(hs: Headers, i: nat)
    requires i < |hs|
    ensures KeyLines(hs[..i + 1]) == KeyLines(hs[..i]) + KeyPart(hs[i])
  {
    assert hs[..i + 1][..i] == hs[..i];
  }

  /** `computeCacheTag`'s string builder: the request line, then one line per key header. */
  method BuildCanonicalRequest(httpMethod: string, url: string, hs: Headers) returns (raw: string)
    ensures raw == CanonicalRequest(httpMethod, url, hs)
  {
    raw := httpMethod + [' '] + url + ['\n'];
    var i := 0;
    while i < |hs|
      invariant 0 <= i <= |hs|
      invariant raw == httpMethod + [' '] + url + ['\n'] + KeyLines(hs[..i])
    {
      var name := Lowercase(hs[i].name);
      if IsKeyHeader(name) {
        raw := raw + (name + [':'] + hs[i].value + ['\n']);
      }
      KeyLinesStep(hs, i);
      i := i + 1;
    }
    assert hs[..|hs|] == hs;
  }

  /**
   * `computeCacheTag`: the digest of the canonical text. `digest` stands for
   * the SHA-256 of its UTF-8 bytes, written in URL-safe Base64.
   */
  method ComputeCacheTag(httpMethod: string, url: string, hs: Headers, digest: string -> string) returns (tag: string)
    ensures tag == digest(CanonicalRequest(httpMethod, url, hs))
  {
    var raw := BuildCanonicalRequest(httpMethod, url, hs);
    tag := digest(raw);
  }

  // ---------------------------------------------------------- freshness

  /** `backoff()` added to `now`, when the response asks for a backoff. */
  function BackoffFloor(hs: Headers, now: int): (r: Option<int>)
    ensures r.Some? <==> Backoff(hs).Some?
    ensures r.Some? ==> r.value == now + Backoff(hs).value
  {
    match Backoff(hs)
    case None => None
    case Some(b) => Some(now + b)
  }

  /** The Last-Modified header parsed as a date. */
  function LastModified(hs: Headers, parseDate: DateParser): Option<int> {
    DateHeader(hs, LAST_MODIFIED, parseDate)
  }

  /**
   * `readCacheMetadata(response)`: expiry (zero without one) and next
   * refresh (the expiry without one) raised to the backoff floor, the ETag,
   * the parsed Last-Modified and the access time `now`; the size is unknown.
   */
  function ReadCacheMetadata(hs: Headers, now: int, parseDate: DateParser): (m: CacheMetadata)
    ensures m.lastAccess == now && m.size == -1 && m.nextRefresh.Some?
    ensures m.etag == Get(hs, ETAG) && m.lastModified == LastModified(hs, parseDate)
    ensures m.expires >= ExpiresDate(hs, now, parseDate).GetOr(0)
    ensures BackoffFloor(hs, now).None? ==> m.expires == ExpiresDate(hs, now, parseDate).GetOr(0)
    ensures BackoffFloor(hs, now).Some? ==>
      m.expires >= BackoffFloor(hs, now).value && m.nextRefresh.value >= BackoffFloor(hs, now).value
    ensures NextRefreshDate(hs, parseDate).None? ==> m.nextRefresh == Some(m.expires)
    ensures NextRefreshDate(hs, parseDate).Some? ==> m.nextRefresh.value >= NextRefreshDate(hs, parseDate).value
    ensures BackoffFloor(hs, now).Some? ==>
      var e := ExpiresDate(hs, now, parseDate).GetOr(0);
      var floor := BackoffFloor(hs, now).value;
      m.expires == (if e >= floor then e else floor)
    ensures BackoffFloor(hs, now).Some? ==>
      var n := NextRefreshDate(hs, parseDate).GetOr(m.expires);
      var floor := BackoffFloor(hs, now).value;
      m.nextRefresh.value == (if n >= floor then n else floor)
    ensures BackoffFloor(hs, now).None? ==> m.nextRefresh.value == NextRefreshDate(hs, parseDate).GetOr(m.expires)
  {
    var floor := BackoffFloor(hs, now);
    var expires := CoerceAtLeast(ExpiresDate(hs, now, parseDate).GetOr(0), floor);
    var nextRefresh := CoerceAtLeast(NextRefreshDate(hs, parseDate).GetOr(expires), floor);
    CacheMetadata(now, Some(nextRefresh), expires, Get(hs, ETAG), LastModified(hs, parseDate), -1)
  }

  /** Without a backoff the floor changes nothing: the header dates are taken as they are. */
  lemma NoBackoffKeepsDates(hs: Headers, now: int, parseDate: DateParser)
    requires Backoff(hs).None? && NextRefreshDate(hs, parseDate).Some?
    ensures ReadCacheMetadata(hs, now, parseDate).expires == ExpiresDate(hs, now, parseDate).GetOr(0)
    ensures ReadCacheMetadata(hs, now, parseDate).nextRefresh == NextRefreshDate(hs, parseDate)
  {
  }

  /** The storage gate of `storeCacheableResponse`: still fresh, or revalidatable. */
  predicate QualifiesForStorage(m: CacheMetadata, now: int): (r: bool)
    ensures now < m.expires ==> r
    ensures !r ==> m.expires <= now && m.etag.None? && m.lastModified.None?
  {
    now < m.expires || m.etag.Some? || m.lastModified.Some?
  }

  /** A response with an ETag is stored even when it is already expired. */
  lemma ETagAloneQualifies(hs: Headers, now: int, parseDate: DateParser)
    requires Get(hs, ETAG).Some?
    ensures QualifiesForStorage(ReadCacheMetadata(hs, now, parseDate), now)
  {
  }

  /**
   * A response with no expiry, no max-age, no backoff and no validator is
   * not stored: its expiry is zero.
   */
  lemma UncacheableResponse(hs: Headers, now: int, parseDate: DateParser)
    requires now >= 0
    requires ExpiresDate(hs, now, parseDate).None? && Backoff(hs).None?
    requires Get(hs, ETAG).None? && LastModified(hs, parseDate).None?
    ensures !QualifiesForStorage(ReadCacheMetadata(hs, now, parseDate), now)
  {
  }

  /** A backoff in the future makes the stored entry unexpired and not due for a refresh until it has passed. */
  lemma BackoffDefersRefresh(hs: Headers, now: int, parseDate: DateParser, t: int)
    requires Backoff(hs).Some? && now <= t < now + Backoff(hs).value
    ensures var m := ReadCacheMetadata(hs, now, parseDate);
            !Expired(m, t) && !RefreshDue(m, t)
  {
  }

  // ---------------------------------------------------------- head file

  /** One header line of the head file: name, colon, space, value, CRLF. */
  function HeaderLine(h: Header): string {
    h.name + ": " + h.value + "\r\n"
  }

  function HeaderLines(hs: Headers): string {
    Join(hs, HeaderLine)
  }

  /** The head file: the status line, CRLF, then the header lines. */
  function HeadBlock(status: HttpStatusLine.StatusLine, hs: Headers): string {
    HttpStatusLine.Format(status) + "\r\n" + HeaderLines(hs)
  }

  /**
   * One header line read back: split at its first `:`, both sides trimmed,
   * then appended to the header builder. A line without a colon fails the
   * destructuring; a name or value the builder refuses fails the append.
   * Whatever reads back can be stored again.
   */
  function ParseHeaderLine(line: string): (r: Option<Header>)
    ensures ':' !in line ==> r.None?
    ensures r.Some? ==> Storable(r.value)
  {
    var parts := Split(line, ':', 2);
    if |parts| < 2 then None
    else
      var h := Header(Trim(parts[0]), Trim(parts[1]));
      if LegalHeaderName(h.name) && LegalHeaderValue(h.value) then Some(h) else None
  }

  /**
   * A line with a colon reads as its trimmed text before the first colon and
   * after it, exactly when the builder accepts that name and value.
   */
  lemma ParseHeaderLineAtFirstColon(name: string, value: string)
    requires ':' !in name
    ensures var h := Header(Trim(name), Trim(value));
      ParseHeaderLine(name + [':'] + value) == if Storable(h) then Some(h) else None
  {
    SplitAtFirst(name, ':', value, 2);
  }

  /** The header lines read back; `None` when one of them has no colon. */
  function ParseHeaderLines(lines: seq<string>): Option<Headers> {
    AllSome(lines, ParseHeaderLine)
  }

  /**
   * A header survives the head file: the builder accepts its name and value
   * (so neither holds a line break, nor the name a colon), and neither has
   * surrounding whitespace.
   */
  predicate Storable(h: Header) {
    LegalHeaderName(h.name) && LegalHeaderValue(h.value) && IsTrimmed(h.name) && IsTrimmed(h.value)
  }

  lemma TrimSpacePrefix(v: string)
    requires IsTrimmed(v)
    ensures Trim([' '] + v) == v
  {
    var s := [' '] + v;
    assert s[1..] == v;
    assert TrimStart(s) == TrimStart(v) == v;
    TrimOfTrimmed(v);
    assert TrimEnd(v) == v;
  }

  /** A header line as read back, without its line break. */
  function StoredLine(h: Header): string {
    h.name + ": " + h.value
  }

  /** A stored header line reads back as the header, colons in its value included. */
  lemma HeaderLineRoundTrip(h: Header)
    requires Storable(h)
    ensures ParseHeaderLine(StoredLine(h)) == Some(h)
  {
    assert StoredLine(h) == h.name + [':'] + ([' '] + h.value);
    ParseHeaderLineAtFirstColon(h.name, [' '] + h.value);
    TrimOfTrimmed(h.name);
    TrimSpacePrefix(h.value);
  }

  lemma StoredLineIsOneLine(h: Header)
    requires Storable(h)
    ensures '\n' !in StoredLine(h) && HeaderLine(h) == StoredLine(h) + "\r\n"
  {
    assert '\n' !in ": ";
  }

  /** The lines of the stored header block are the headers' `name: value` texts. */
  lemma ReadHeaderBlock(hs: Headers)
    requires forall k :: 0 <= k < |hs| ==> Storable(hs[k])
    ensures ReadLines(HeaderLines(hs)) == seq(|hs|, k requires 0 <= k < |hs| => StoredLine(hs[k]))
  {
    var ls := seq(|hs|, k requires 0 <= k < |hs| => StoredLine(hs[k]));
    forall k | 0 <= k < |hs|
      ensures HeaderLine(hs[k]) == Terminated(ls[k]) && '\n' !in ls[k]
    {
      StoredLineIsOneLine(hs[k]);
    }
    JoinPointwise(hs, HeaderLine, ls, Terminated);
    ReadTerminatedLines(ls);
  }

  /** The header lines of a stored head file parse back to the stored headers. */
  lemma HeaderLinesRoundTrip(hs: Headers)
    requires forall k :: 0 <= k < |hs| ==> Storable(hs[k])
    ensures ParseHeaderLines(ReadLines(HeaderLines(hs))) == Some(hs)
  {
    ReadHeaderBlock(hs);
    var lines := ReadLines(HeaderLines(hs));
    forall k | 0 <= k < |hs|
      ensures ParseHeaderLine(lines[k]) == Some(hs[k])
    {
      HeaderLineRoundTrip(hs[k]);
    }
    var r := ParseHeaderLines(lines);
    assert r.Some?;
    assert r.value == hs;
  }

  // ------------------------------------------------------ reading back

  /** What serving from the cache can fail on. */
  datatype CacheError =
    | NoCachedData
    | EmptyHead
    | MalformedStatusLine(error: HttpStatusLine.ParseError)
    | MalformedHeaderLine
    | StoreFailed(message: string)
    | CachedResourceNotFound(url: string)

  /** A response rebuilt from the cache: status line, headers and body. */
  datatype CachedResponse = CachedResponse(status: HttpStatusLine.StatusLine, headers: Headers, body: seq<bv8>)

  /**
   * What `readCachedResponse` makes of the cached data: the first head line
   * is the status line, every other line a header; missing files, an empty
   * head or a malformed line fail.
   */
  function ReadResponse(d: Option<CacheData>): (r: Result<CachedResponse, CacheError>)
    ensures d.None? ==> r == Fail(NoCachedData)
    ensures d.Some? && d.value.head == [] ==> r == Fail(EmptyHead)
    ensures r.Ok? ==> d.Some? && d.value.head != [] && r.value.body == d.value.body
    ensures r.Ok? ==> HttpStatusLine.Parse(d.value.head[0]) == Ok(r.value.status)
    ensures r.Ok? ==> |r.value.headers| == |d.value.head| - 1
    ensures r.Ok? ==> forall k :: 0 <= k < |r.value.headers| ==> Storable(r.value.headers[k])
  {
    match d
    case None => Fail(NoCachedData)
    case Some(data) =>
      if data.head == [] then Fail(EmptyHead)
      else match HttpStatusLine.Parse(data.head[0])
        case Fail(e) => Fail(MalformedStatusLine(e))
        case Ok(status) =>
          match ParseHeaderLines(data.head[1..])
          case None => Fail(MalformedHeaderLine)
          case Some(hs) => Ok(CachedResponse(status, hs, data.body))
  }

  /** A status line the head file keeps: it round-trips and holds no line feed. */
  predicate StorableStatus(s: HttpStatusLine.StatusLine) {
    HttpStatusLine.Writable(s) && '\n' !in s.protocol && '\n' !in s.description
  }

  /** A head file written from a status line and headers reads back as them. */
  lemma HeadRoundTrip(s: HttpStatusLine.StatusLine, hs: Headers, body: seq<bv8>)
    requires StorableStatus(s)
    requires forall k :: 0 <= k < |hs| ==> Storable(hs[k])
    ensures ReadResponse(Some(CacheData(ReadLines(HeadBlock(s, hs)), body))) == Ok(CachedResponse(s, hs, body))
  {
    var line := HttpStatusLine.Format(s);
    DecimalStringChars(s.code);
    assert '\n' !in DecimalString(s.code);
    assert '\n' !in line;
    ReadLinesCons(line, HeaderLines(hs));
    HttpStatusLine.ParseFormat(s);
    HeaderLinesRoundTrip(hs);
  }

  // ----------------------------------------------------------- storage

  const CACHE_SIZE_AUTO: int := -1
  const CACHE_SIZE_AUTO_LIMIT: int := 128 * 1024 * 1024
  /** Constants of the cleanup sweep, which this model does not include. */
  const CACHE_CLEANUP_INTERVAL: int := 30 * 1000
  const LAST_ACCESS_IMMUNITY_TIMESPAN: int := 10 * 1000

  /** Kotlin's `Long / 2`: the quotient rounded toward zero. */
  function HalfTowardZero(x: int): (r: int)
    ensures x >= 0 ==> 0 <= 2 * r <= x && x - 2 * r <= 1
    ensures x < 0 ==> x <= 2 * r <= 0 && 2 * r - x <= 1
  {
    if x >= 0 then x / 2 else -((-x) / 2)
  }

  /**
   * `maxSize` / `maxCacheSize()`: the configured size, or in AUTO mode half
   * the space left beside the cache, at most 128 MiB.
   */
  function MaxCacheSize(configured: int, freeSpace: int, used: int): (r: int)
    ensures configured != CACHE_SIZE_AUTO ==> r == configured
    ensures configured == CACHE_SIZE_AUTO ==> r <= CACHE_SIZE_AUTO_LIMIT
    ensures configured == CACHE_SIZE_AUTO && freeSpace >= used ==> 0 <= r && 2 * r <= freeSpace - used
    ensures configured == CACHE_SIZE_AUTO && freeSpace - used >= 2 * CACHE_SIZE_AUTO_LIMIT ==> r == CACHE_SIZE_AUTO_LIMIT
    ensures configured == CACHE_SIZE_AUTO && freeSpace - used < 2 * CACHE_SIZE_AUTO_LIMIT ==> r == HalfTowardZero(freeSpace - used)
  {
    if configured == CACHE_SIZE_AUTO then
      var half := HalfTowardZero(freeSpace - used);
      if half > CACHE_SIZE_AUTO_LIMIT then CACHE_SIZE_AUTO_LIMIT else half
    else configured
  }

  function HeadFile(dir: string, tag: string): (p: string)
    ensures EndsWith(p, HEAD_SUFFIX) && StartsWith(p, dir + "/")
  {
    EndsWithAppend(dir + "/" + tag, HEAD_SUFFIX);
    assert (dir + "/" + tag + HEAD_SUFFIX)[..|dir + "/"|] == dir + "/";
    dir + "/" + tag + HEAD_SUFFIX
  }

  function BodyFile(dir: string, tag: string): (p: string)
    ensures EndsWith(p, BODY_SUFFIX) && StartsWith(p, dir + "/")
  {
    EndsWithAppend(dir + "/" + tag, BODY_SUFFIX);
    assert (dir + "/" + tag + BODY_SUFFIX)[..|dir + "/"|] == dir + "/";
    dir + "/" + tag + BODY_SUFFIX
  }

  /** Distinct tags have distinct files. */
  lemma FilesOfDistinctTags(dir: string, t1: string, t2: string)
    requires t1 != t2
    ensures HeadFile(dir, t1) != HeadFile(dir, t2) && BodyFile(dir, t1) != BodyFile(dir, t2)
  {
    var n := |dir| + 1;
    if |t1| == |t2| {
      assert HeadFile(dir, t1)[n..n + |t1|] == t1 && HeadFile(dir, t2)[n..n + |t2|] == t2;
      assert BodyFile(dir, t1)[n..n + |t1|] == t1 && BodyFile(dir, t2)[n..n + |t2|] == t2;
    }
  }

  /** A network response, as far as the cache reads it. */
  datatype Response = Response(status: HttpStatusLine.ResponseStatus, headers: Headers, body: Option<seq<bv8>>, promisesBody: bool)

  /** The body written to the cache: the response's body when it promises one, else nothing. */
  function StoredBody(r: Response): seq<bv8> {
    if r.body.Some? && r.promisesBody then r.body.value else []
  }

  /** The head file of a response. */
  function ResponseHead(r: Response): string {
    HeadBlock(HttpStatusLine.Get(r.status), r.headers)
  }

  /** What the caller gets: the network response itself, or the one rebuilt from the cache. */
  datatype Served = Network(response: Response) | FromCache(cached: CachedResponse)

  function ServeFromCache(r: Result<CachedResponse, CacheError>): (s: Result<Served, CacheError>)
    ensures s.Ok? <==> r.Ok?
    ensures r.Ok? ==> s.value == FromCache(r.value)
    ensures r.Fail? ==> s.error == r.error
  {
    match r
    case Ok(c) => Ok(FromCache(c))
    case Fail(e) => Fail(e)
  }

  /**
   * A stored response whose status line and headers the head file keeps is
   * served back from the cache unchanged, with the body it promised.
   */
  lemma StoredResponseReadsBack(response: Response)
    requires StorableStatus(HttpStatusLine.Get(response.status))
    requires forall k :: 0 <= k < |response.headers| ==> Storable(response.headers[k])
    ensures ServeFromCache(ReadResponse(Some(CacheData(ReadLines(ResponseHead(response)), StoredBody(response)))))
         == Ok(FromCache(CachedResponse(HttpStatusLine.Get(response.status), response.headers, StoredBody(response))))
  {
    HeadRoundTrip(HttpStatusLine.Get(response.status), response.headers, StoredBody(response));
  }

  class CacheManager {
    const cacheDirectory: string
    const cacheMaxSize: int
    const store: CacheStore
    var lastCleanupRun: int

    constructor (cacheDirectory: string, cacheMaxSize: int, store: CacheStore)
      ensures this.cacheDirectory == cacheDirectory && this.cacheMaxSize == cacheMaxSize
      ensures this.store == store && lastCleanupRun == 0
    {
      this.cacheDirectory := cacheDirectory;
      this.cacheMaxSize := cacheMaxSize;
      this.store := store;
      lastCleanupRun := 0;
    }

    /** `obtainCacheHandle(request)`: a new handle on the entry keyed by the request's cache tag. */
    method ObtainCacheHandle(httpMethod: string, url: string, hs: Headers, digest: string -> string) returns (h: CacheHandle)
      requires store.Valid()
      ensures fresh(h) && h.Valid() && h.store == store && h.live.None?
      ensures h.tag == digest(CanonicalRequest(httpMethod, url, hs)) && h.url == url
      ensures h.headPath == HeadFile(cacheDirectory, h.tag) && h.bodyPath == BodyFile(cacheDirectory, h.tag)
    {
      var tag := ComputeCacheTag(httpMethod, url, hs, digest);
      h := new CacheHandle(tag, url, HeadFile(cacheDirectory, tag), BodyFile(cacheDirectory, tag), store);
    }

    /** `readCachedResponse(handle)`: the cached entry rebuilt as a response. */
    method ReadCachedResponse(handle: CacheHandle) returns (r: Result<CachedResponse, CacheError>)
      requires handle.Valid()
      ensures r == ReadResponse(handle.GetCachedData())
    {
      var data := handle.GetCachedData();
      if data.None? {
        return Fail(NoCachedData);
      }
      var head := data.value.head;
      if head == [] {
        return Fail(EmptyHead);
      }
      var status := HttpStatusLine.Parse(head[0]);
      if status.Fail? {
        return Fail(MalformedStatusLine(status.error));
      }
      var hs := CollectAll(head[1..], ParseHeaderLine);
      if hs.None? {
        return Fail(MalformedHeaderLine);
      }
      r := Ok(CachedResponse(status.value, hs.value, data.value.body));
    }

    /**
     * `storeCacheableResponse(handle, response)`. A response that qualifies
     * is written to the entry and the response rebuilt from the entry is
     * returned; any other response is returned as it is and nothing is
     * written. `fault` names the storing step that throws, if one does.
     */
    method StoreCacheableResponse(handle: CacheHandle, response: Response, now: int, parseDate: DateParser, fault: Option<Fault>)
      returns (r: Result<Served, CacheError>)
      requires handle.Valid() && handle.store == store
      modifies handle, store
      ensures handle.Valid()
      ensures var m := ReadCacheMetadata(response.headers, now, parseDate);
        !QualifiesForStorage(m, now) ==>
        && r == Ok(Network(response))
        && store.files == old(store.files) && store.rows == old(store.rows) && handle.live == old(handle.live)
      ensures var m := ReadCacheMetadata(response.headers, now, parseDate);
        QualifiesForStorage(m, now) && fault.Some? ==>
        && r == Fail(StoreFailed(fault.value.error))
        && store.files == old(store.files) - {handle.headPath, handle.bodyPath}
        && store.rows == old(store.rows) && handle.live.None?
      ensures var m := ReadCacheMetadata(response.headers, now, parseDate);
        var head := ResponseHead(response);
        var body := StoredBody(response);
        var stored := StoredMetadata(m, now, Utf8Length(head) + |body|);
        QualifiesForStorage(m, now) && fault.None? ==>
        && store.files == old(store.files)[handle.headPath := TextFile(head)][handle.bodyPath := BinaryFile(body)]
        && store.rows == old(store.rows)[handle.tag := Row(handle.url, stored)]
        && handle.live == Some(stored)
        && r == ServeFromCache(ReadResponse(Some(CacheData(ReadLines(head), body))))
    {
      r := StoreIfQualifies(handle, response, now, ReadCacheMetadata(response.headers, now, parseDate), fault);
    }

    method StoreIfQualifies(handle: CacheHandle, response: Response, now: int, m: CacheMetadata, fault: Option<Fault>)
      returns (r: Result<Served, CacheError>)
      requires handle.Valid() && handle.store == store
      modifies handle, store
      ensures handle.Valid()
      ensures
        !QualifiesForStorage(m, now) ==>
        && r == Ok(Network(response))
        && store.files == old(store.files) && store.rows == old(store.rows) && handle.live == old(handle.live)
      ensures
        QualifiesForStorage(m, now) && fault.Some? ==>
        && r == Fail(StoreFailed(fault.value.error))
        && store.files == old(store.files) - {handle.headPath, handle.bodyPath}
        && store.rows == old(store.rows) && handle.live.None?
      ensures
        var head := ResponseHead(response);
        var body := StoredBody(response);
        var stored := StoredMetadata(m, now, Utf8Length(head) + |body|);
        QualifiesForStorage(m, now) && fault.None? ==>
        && store.files == old(store.files)[handle.headPath := TextFile(head)][handle.bodyPath := BinaryFile(body)]
        && store.rows == old(store.rows)[handle.tag := Row(handle.url, stored)]
        && handle.live == Some(stored)
        && r == ServeFromCache(ReadResponse(Some(CacheData(ReadLines(head), body))))
    {
      if !QualifiesForStorage(m, now) {
        return Ok(Network(response));
      }
      r := WriteEntry(handle, ResponseHead(response), StoredBody(response), m, now, fault);
    }

    /** The storing half of `storeCacheableResponse`: write the entry, then read it back. */
    method WriteEntry(handle: CacheHandle, head: string, body: seq<bv8>, m: CacheMetadata, now: int, fault: Option<Fault>)
      returns (r: Result<Served, CacheError>)
      requires handle.Valid() && handle.store == store
      modifies handle, store
      ensures handle.Valid()
      ensures fault.Some? ==>
        && r == Fail(StoreFailed(fault.value.error))
        && store.files == old(store.files) - {handle.headPath, handle.bodyPath}
        && store.rows == old(store.rows) && handle.live.None?
      ensures fault.None? ==>
        var stored := StoredMetadata(m, now, Utf8Length(head) + |body|);
        && store.files == old(store.files)[handle.headPath := TextFile(head)][handle.bodyPath := BinaryFile(body)]
        && store.rows == old(store.rows)[handle.tag := Row(handle.url, stored)]
        && handle.live == Some(stored)
        && r == ServeFromCache(ReadResponse(Some(CacheData(ReadLines(head), body))))
    {
      var failure := handle.StoreCachedData(head, body, m, now, fault);
      if failure.Some? {
        return Fail(StoreFailed(failure.value));
      }
      handle.PathsDistinct();
      var cached := ReadCachedResponse(handle);
      r := ServeFromCache(cached);
    }

    /** `updateCacheHeaders(handle, response)`: the entry's row takes the response's freshness and validators. */
    method UpdateCacheHeaders(handle: CacheHandle, hs: Headers, now: int, parseDate: DateParser)
      requires handle.Valid()
      modifies handle.store
      ensures handle.Valid() && handle.store.files == old(handle.store.files)
      ensures handle.tag in old(handle.store.rows) ==>
        handle.store.rows == old(handle.store.rows)[handle.tag := UpdatedRow(old(handle.store.rows)[handle.tag], ReadCacheMetadata(hs, now, parseDate))]
      ensures handle.tag !in old(handle.store.rows) ==> handle.store.rows == old(handle.store.rows)
    {
      handle.UpdateCacheMetadata(ReadCacheMetadata(hs, now, parseDate));
    }

    /** `getCachedResponse(handle)`: touches the access time, then reads the entry. */
    method GetCachedResponse(handle: CacheHandle, now: int) returns (r: Result<Served, CacheError>)
      requires handle.Valid() && handle.store == store
      modifies handle, store
      ensures handle.Valid() && store.files == old(store.files)
      ensures handle.live == Some(old(handle.Metadata()).(lastAccess := now))
      ensures store.rows == TouchedRows(old(store.rows), handle.tag, now)
      ensures r == ServeFromCache(ReadResponse(old(handle.GetCachedData())))
    {
      handle.UpdateLastAccessed(now);
      var cached := ReadCachedResponse(handle);
      r := ServeFromCache(cached);
    }

    /**
     * `getCachedResponseOrThrow(handle, request)`: fails with
     * `CachedResourceNotFound` exactly when the entry has no valid cached
     * resource, and otherwise serves it as `getCachedResponse` does.
     */
    method GetCachedResponseOrThrow(handle: CacheHandle, url: string, now: int) returns (r: Result<Served, CacheError>)
      requires handle.Valid() && handle.store == store
      modifies handle, store
      ensures handle.Valid() && store.files == old(store.files)
      ensures !(!Expired(old(handle.Metadata()), now) && old(handle.CachedFilesExist())) ==>
        && r == Fail(CachedResourceNotFound(url)) && store.rows == old(store.rows)
        && handle.live == Some(old(handle.Metadata()))
      ensures !Expired(old(handle.Metadata()), now) && old(handle.CachedFilesExist()) ==>
        && handle.live == Some(old(handle.Metadata()).(lastAccess := now))
        && store.rows == TouchedRows(old(store.rows), handle.tag, now)
        && r == ServeFromCache(ReadResponse(old(handle.GetCachedData())))
    {
      var valid := handle.HasValidCachedResource(now);
      if !valid {
        return Fail(CachedResourceNotFound(url));
      }
      r := GetCachedResponse(handle, now);
    }

    /** `removeCachedResource(tag)`: deletes the row and both files of an entry. */
    method RemoveCachedResource(tag: string)
      requires store.Valid()
      modifies store
      ensures store.Valid()
      ensures store.rows == old(store.rows) - {tag}
      ensures store.files == old(store.files) - {HeadFile(cacheDirectory, tag), BodyFile(cacheDirectory, tag)}
    {
      store.rows := store.rows - {tag};
      store.files := store.files - {HeadFile(cacheDirectory, tag), BodyFile(cacheDirectory, tag)};
    }

    /** Whether a path lies in the cache directory. */
    predicate InCacheDirectory(p: string) {
      StartsWith(p, cacheDirectory + "/")
    }

    /**
     * `clearCache()`: deletes every file in the cache directory. The rows of
     * the metadata table stay.
     */
    method ClearCache()
      requires store.Valid()
      modifies store
      ensures store.Valid() && store.rows == old(store.rows)
      ensures store.files == map p | p in old(store.files) && !InCacheDirectory(p) :: old(store.files)[p]
      ensures forall tag :: HeadFile(cacheDirectory, tag) !in store.files && BodyFile(cacheDirectory, tag) !in store.files
    {
      store.files := map p | p in store.files && !InCacheDirectory(p) :: store.files[p];
    }
  }
}
