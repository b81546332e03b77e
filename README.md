# Ubiquache HTTP disk cache — a Dafny model

This project models the metadata and decision logic of Ubiquache, the HTTP
disk cache of the Kotlin multiplatform network library `networklib-kmp`,
and proves properties about it. It covers:

- **Freshness metadata.** Expiry, next refresh, backoff, `max-age` and server
  date are read from response headers. From them comes the metadata record
  stored for a response, and the gate that decides whether a response is
  stored at all.
- **Cache entry handle.** An object over a head file, a body file and one row
  of the metadata table. It loads its metadata lazily, answers the freshness
  queries, stores with rollback on failure, touches the access time and
  removes the entry.
- **Cache manager.**
  - It builds the canonical request text hashed into the cache tag.
  - It writes and reads back the head file (status line, then header lines).
  - It stores, serves and removes entries, and computes the size budget.
- **HTTP helpers.**
  - The status-line formatter and parser.
  - The conditional-request test and the read-only request view.
  - The status validation of `throwIfNotSuccessful`.
- **The plugin.** The cache-name check and the send-pipeline decision that
  answers `only-if-cached` requests with a local 504.
- **The recovering database driver.** It recovers from a fatal error once,
  then wraps the second failure.
- **`executeUntilFalse`.** A cursor walk that stops early.
- **Request states.** The `RequestState` algebra (`dataIfResult`, `map`,
  `combineWith`).
- **The `ktorStateFlow` request block.** The `loadAndWait` step with its
  refresh-delay arithmetic, and the order of requests and emitted states.

Things outside the model become parameters:

- Files and the metadata table are maps in a `CacheStore` object.
- The clock is a `now` argument.
- HTTP-date parsing is a `DateParser` function argument.
- The SHA-256/Base64url digest is a `digest` function argument.
- Free space and used size are arguments.
- A failure inside a multi-step operation is an argument naming the step that
  throws (`Fault`, `RecoveryFaults`).
- The network seen by a state flow is a script of exchanges.

One module per source file:

| module | file | models |
|---|---|---|
| `Wrappers` | `wrappers.dfy` | `Option`/`Result`; a generic all-or-nothing collection |
| `Text` | `text.dfy` | the Kotlin string functions the core relies on |
| `HttpHeaders` | `http_headers.dfy` | header lookup without regard to case; the directive list of `Cache-Control` |
| `PrimitiveExtensions` | `primitive_extensions.dfy` | `Long.coerceAtLeast(Long?)` |
| `CacheHeaderExtensions` | `cache_header_extensions.dfy` | the header readers |
| `HttpStatusLine` | `status_line.dfy` | `StatusLine` |
| `HttpRequestExtensions` | `http_request_extensions.dfy` | the request helpers |
| `HttpResponseExtensions` | `http_response_extensions.dfy` | response validation |
| `Ubiquache` | `ubiquache.dfy` | the plugin |
| `RecoveringDrivers` | `recovering_driver.dfy` | `RecoveringDriver` |
| `SqldelightExtensions` | `sqldelight_extensions.dfy` | `executeUntilFalse` |
| `CacheHandles` | `cache_handle.dfy` | `CacheHandle`, `CacheMetadata` |
| `CacheManagers` | `cache_manager.dfy` | `CacheManager` |
| `RequestStates` | `request_state.dfy` | `RequestState` |
| `KtorStateFlows` | `ktor_state_flow.dfy` | the request block of `ktorStateFlow` and `loadAndWait` |

Where the code and its documentation disagree, the model follows the code.

- `CacheManager.kt` is half-way through a refactoring:
  - `readCachedResponse` destructures three fields from the two-field
    `CacheData`;
  - `storeCacheableResponse` uses an undefined `scope`;
  - `readCacheMetadata` builds an undefined `CacheEntryMetadata`.

  The model follows `CacheHandle.kt`:
  - `getCachedData` returns the head lines and the body, or nothing;
  - the metadata is a `CacheMetadata` with size -1;
  - a stored response is read back through the handle.
- `expiresDate` scales the max-age fallback twice (see "Findings"). The rest
  of the model uses the definition that scales it once.

## Model

| member | source | states |
|---|---|---|
| PrimitiveExtensions.CoerceAtLeast | lib/src/commonMain/kotlin/ch/ubique/libs/ktor/common/PrimitiveExtensions.kt:5 | the result is never below the input; a null minimum leaves it unchanged; with a minimum it is at least the minimum and equal to one of the two |
| PrimitiveExtensions.CoerceAtLeastIsMax | lib/src/commonMain/kotlin/ch/ubique/libs/ktor/common/PrimitiveExtensions.kt:5 | with a minimum the result is the larger of value and minimum |
| PrimitiveExtensions.CoerceAtLeastIdempotent | lib/src/commonMain/kotlin/ch/ubique/libs/ktor/common/PrimitiveExtensions.kt:5 | coercing twice against the same minimum equals coercing once |
| PrimitiveExtensions.CoerceAtLeastMonotonic | lib/src/commonMain/kotlin/ch/ubique/libs/ktor/common/PrimitiveExtensions.kt:5 | coercion preserves the order of its inputs |
| HttpHeaders.FirstIndex | lib/src/commonMain/kotlin/ch/ubique/libs/ktor/cache/extensions/CacheHeaderExtensions.kt:17 | the position of the first header with the given name (any case), and no earlier one has it; none exactly when no header has the name |
| HttpHeaders.Get | lib/src/commonMain/kotlin/ch/ubique/libs/ktor/cache/extensions/CacheHeaderExtensions.kt:17 | `headers[name]` is absent exactly when no header has the name, and otherwise is the value of the first header with that name |
| HttpHeaders.DirectiveValues | lib/src/commonMain/kotlin/ch/ubique/libs/ktor/plugins/Ubiquache.kt:58 | an empty header value has no directives |
| HttpHeaders.DirectiveValuesCons | lib/src/commonMain/kotlin/ch/ubique/libs/ktor/plugins/Ubiquache.kt:58 | the text before the first `,` gives the first directive (its trimmed text before any `;`), and the rest of the value gives the others |
| HttpHeaders.DirectiveValuesLast | lib/src/commonMain/kotlin/ch/ubique/libs/ktor/plugins/Ubiquache.kt:58 | text without `,` gives one directive, or none when it is empty, so an empty part after a last `,` is dropped |
| HttpHeaders.SingleDirective | lib/src/commonMain/kotlin/ch/ubique/libs/ktor/plugins/Ubiquache.kt:58 | a trimmed value without `,` or `;` is exactly one directive, itself |
| CacheHeaderExtensions.DateHeader | lib/src/commonMain/kotlin/ch/ubique/libs/ktor/cache/extensions/CacheHeaderExtensions.kt:25-28 | the date of the first header with that name; absent when there is none or its value does not parse |
| CacheHeaderExtensions.ServerDate | lib/src/commonMain/kotlin/ch/ubique/libs/ktor/cache/extensions/CacheHeaderExtensions.kt:16-18 | the parsed Date header; absent exactly when there is no Date header or it does not parse |
| CacheHeaderExtensions.FirstDateIndex | lib/src/commonMain/kotlin/ch/ubique/libs/ktor/cache/extensions/CacheHeaderExtensions.kt:24-28 | the elvis chain selects the first header in priority order that is present and parses as a date; every earlier one is absent or unparseable; none exactly when none parses |
| CacheHeaderExtensions.FirstStartingWith | lib/src/commonMain/kotlin/ch/ubique/libs/ktor/cache/extensions/CacheHeaderExtensions.kt:56 | `firstOrNull { startsWith }`: a directive of the list that starts with the prefix; none exactly when no directive does |
| CacheHeaderExtensions.FirstStartingWithStops | lib/src/commonMain/kotlin/ch/ubique/libs/ktor/cache/extensions/CacheHeaderExtensions.kt:56 | the search returns the first directive with the prefix whatever follows it |
| CacheHeaderExtensions.MaxAge | lib/src/commonMain/kotlin/ch/ubique/libs/ktor/cache/extensions/CacheHeaderExtensions.kt:54-62 | a max-age is a whole number of milliseconds and exists only if some directive starts with `max-age` |
| CacheHeaderExtensions.MaxAgeOfFirstDirective | lib/src/commonMain/kotlin/ch/ubique/libs/ktor/cache/extensions/CacheHeaderExtensions.kt:54-62 | only the first directive starting with `max-age` is read; later directives never change the result |
| CacheHeaderExtensions.MaxAgeOfText | lib/src/commonMain/kotlin/ch/ubique/libs/ktor/cache/extensions/CacheHeaderExtensions.kt:54-62 | a directive `key=t`, or `key=t=…`, with a key starting with `max-age` gives t × 1000 for every text t that reads as a Long, however it is spelled |
| CacheHeaderExtensions.MaxAgeOfDirective | lib/src/commonMain/kotlin/ch/ubique/libs/ktor/cache/extensions/CacheHeaderExtensions.kt:54-62 | the directive `max-age=n` gives n × 1000 for every Long n |
| CacheHeaderExtensions.MaxAgeNull | lib/src/commonMain/kotlin/ch/ubique/libs/ktor/cache/extensions/CacheHeaderExtensions.kt:54-62 | null when the first `max-age` directive has no `=` or its second `=`-part is not a Long, whatever later directives say |
| CacheHeaderExtensions.MaxAgeValue | lib/src/commonMain/kotlin/ch/ubique/libs/ktor/cache/extensions/CacheHeaderExtensions.kt:54-62 | a Cache-Control value `max-age=n` gives n × 1000 |
| CacheHeaderExtensions.ExpiresDateAsWritten | lib/src/commonMain/kotlin/ch/ubique/libs/ktor/cache/extensions/CacheHeaderExtensions.kt:24-30 | `expiresDate` as written: the first parseable best-before/Expires date, and only without one the max-age fallback scaled a second time |
| CacheHeaderExtensions.MaxAgeExpiryAsWritten | lib/src/commonMain/kotlin/ch/ubique/libs/ktor/cache/extensions/CacheHeaderExtensions.kt:29 | the fallback exists exactly for a positive max-age and is `now + maxAge * 1000` |
| CacheHeaderExtensions.MaxAgeExpiry | lib/src/commonMain/kotlin/ch/ubique/libs/ktor/cache/extensions/CacheHeaderExtensions.kt:29 | corrected fallback: exists exactly for a positive max-age, is `now + maxAge` and lies after `now` |
| CacheHeaderExtensions.ExpiresDate | lib/src/commonMain/kotlin/ch/ubique/libs/ktor/cache/extensions/CacheHeaderExtensions.kt:24-30 | corrected `expiresDate`: a parseable date header always wins over max-age; the fallback applies only when none parses |
| CacheHeaderExtensions.NextRefreshDate | lib/src/commonMain/kotlin/ch/ubique/libs/ktor/cache/extensions/CacheHeaderExtensions.kt:36-40 | absent exactly when none of the three next-refresh headers parses as a date (no max-age fallback) |
| CacheHeaderExtensions.Backoff | lib/src/commonMain/kotlin/ch/ubique/libs/ktor/cache/extensions/CacheHeaderExtensions.kt:46-48 | present exactly when X-Amz-Meta-Backoff is present and a Long, and then that Long × 1000 |
| CacheHeaderExtensions.OnlyCacheControl | lib/src/commonMain/kotlin/ch/ubique/libs/ktor/cache/extensions/CacheHeaderExtensions.kt:24-29 | a response with only a Cache-Control header has no expiry date header, and its directives are those of the value |
| CacheHeaderExtensions.CacheControlExpiry | lib/src/commonMain/kotlin/ch/ubique/libs/ktor/cache/extensions/CacheHeaderExtensions.kt:29 | with only `Cache-Control` and a positive max-age m, the corrected expiry is now + m and the written one is now + 1000·m |
| CacheHeaderExtensions.MaxAgeExpiryIs | lib/src/commonMain/kotlin/ch/ubique/libs/ktor/cache/extensions/CacheHeaderExtensions.kt:29 | both fallbacks for a positive max-age m: now + m, and now + 1000·m as written |
| CacheHeaderExtensions.ExpiryFromMaxAgeAsWritten | lib/src/commonMain/kotlin/ch/ubique/libs/ktor/cache/extensions/CacheHeaderExtensions.kt:24-29 | as written, without a parseable date header a positive max-age m gives now + 1000·m |
| CacheHeaderExtensions.ExpiryFromMaxAge | lib/src/commonMain/kotlin/ch/ubique/libs/ktor/cache/extensions/CacheHeaderExtensions.kt:24-29 | corrected, without a parseable date header a positive max-age m gives now + m |
| CacheHeaderExtensions.MaxAgeScaledTwice | lib/src/commonMain/kotlin/ch/ubique/libs/ktor/cache/extensions/CacheHeaderExtensions.kt:29 | as written, `max-age=n` expires n × 1 000 000 ms after `now` |
| CacheHeaderExtensions.MaxAgeExpiresAfterSeconds | lib/src/commonMain/kotlin/ch/ubique/libs/ktor/cache/extensions/CacheHeaderExtensions.kt:29 | corrected, `max-age=n` expires exactly n seconds after `now` |
| CacheHeaderExtensions.MaxAgeOneAsWritten | lib/src/commonMain/kotlin/ch/ubique/libs/ktor/cache/extensions/CacheHeaderExtensions.kt:29 | as written, `max-age=1` expires 1000 s after `now`, so it is still fresh 2 s later |
| CacheHeaderExtensions.MaxAgeOneCorrected | lib/src/commonMain/kotlin/ch/ubique/libs/ktor/cache/extensions/CacheHeaderExtensions.kt:29 | corrected, `max-age=1` expires 1 s after `now`, before the 2 s the test waits |
| HttpStatusLine.Format | lib/src/commonMain/kotlin/ch/ubique/libs/ktor/http/StatusLine.kt:28-34 | the text starts with the protocol and a space, ends with a space and the description, and has the decimal code between them |
| HttpStatusLine.Get | lib/src/commonMain/kotlin/ch/ubique/libs/ktor/http/StatusLine.kt:37-42 | the status line copies version, code and description from the response unchanged |
| HttpStatusLine.Parse | lib/src/commonMain/kotlin/ch/ubique/libs/ktor/http/StatusLine.kt:44-50 | a parsed line has a space-free protocol, an Int code and a trimmed description; it fails for too few fields exactly when the line has fewer than two spaces |
| HttpStatusLine.ParseFormat | lib/src/commonMain/kotlin/ch/ubique/libs/ktor/http/StatusLine.kt:28-50 | parsing a formatted line gives it back whenever the protocol has no space and the description no surrounding whitespace, an empty description included |
| HttpStatusLine.SplitFormat | lib/src/commonMain/kotlin/ch/ubique/libs/ktor/http/StatusLine.kt:45 | a formatted line splits at its first two spaces into protocol, code and the whole description, spaces in it included |
| HttpStatusLine.ParsedIsWritable | lib/src/commonMain/kotlin/ch/ubique/libs/ktor/http/StatusLine.kt:44-50 | whatever parses satisfies the round-trip condition |
| HttpStatusLine.ParseNeedsThreeFields | lib/src/commonMain/kotlin/ch/ubique/libs/ktor/http/StatusLine.kt:45 | a line without a space fails with too few fields |
| HttpStatusLine.ParseNeedsIntegerCode | lib/src/commonMain/kotlin/ch/ubique/libs/ktor/http/StatusLine.kt:48 | a middle field that is not an Int fails |
| HttpRequestExtensions.ToHttpRequest | lib/src/commonMain/kotlin/ch/ubique/libs/ktor/http/HttpRequestExtensions.kt:19-30 | the view has the same method, url, attributes, body and headers |
| HttpRequestExtensions.Call | lib/src/commonMain/kotlin/ch/ubique/libs/ktor/http/HttpRequestExtensions.kt:22-23 | the view's `call` always throws IllegalStateException "This request has no call" |
| HttpRequestExtensions.ExpectNotModified | lib/src/commonMain/kotlin/ch/ubique/libs/ktor/http/HttpRequestExtensions.kt:32-34 | true exactly when some header is If-None-Match or If-Modified-Since |
| HttpRequestExtensions.OtherHeadersIrrelevant | lib/src/commonMain/kotlin/ch/ubique/libs/ktor/http/HttpRequestExtensions.kt:32-34 | adding headers other than those two never changes the answer |
| HttpResponseExtensions.BodyAsTextOrElse | lib/src/commonMain/kotlin/ch/ubique/libs/ktor/http/HttpResponseExtensions.kt:24-26 | the body text, or `<body failed decoding>` when reading it fails |
| HttpResponseExtensions.Classify | lib/src/commonMain/kotlin/ch/ubique/libs/ktor/http/HttpResponseExtensions.kt:15-21 | no exception exactly for 2xx; redirect exactly for 3xx, client for 4xx, server for 5xx, plain exactly for codes below 200 or above 599 |
| HttpResponseExtensions.ThrowIfNotSuccessful | lib/src/commonMain/kotlin/ch/ubique/libs/ktor/http/HttpResponseExtensions.kt:13-22 | throws exactly for non-2xx, with the class of its range, carrying the response and the body text |
| HttpResponseExtensions.ExactlyOneBranch | lib/src/commonMain/kotlin/ch/ubique/libs/ktor/http/HttpResponseExtensions.kt:15-21 | every status code satisfies exactly one of the five branch conditions |
| HttpResponseExtensions.NotFoundRaises | lib/src/commonMain/kotlin/ch/ubique/libs/ktor/http/HttpResponseExtensions.kt:18 | a 404 raises a ClientRequestException carrying the response and its body |
| Ubiquache.MatchesNamePattern | lib/src/commonMain/kotlin/ch/ubique/libs/ktor/plugins/Ubiquache.kt:43 | a whole match of `[A-Za-z0-9._-]+`: non-empty and every character allowed |
| Ubiquache.Prepare | lib/src/commonMain/kotlin/ch/ubique/libs/ktor/plugins/Ubiquache.kt:40-45 | no name gives `ubiquache`; a given name is accepted exactly when it is non-empty and uses only the allowed characters, and is then kept as it is |
| Ubiquache.PrepareRejects | lib/src/commonMain/kotlin/ch/ubique/libs/ktor/plugins/Ubiquache.kt:43 | names with `/` or a space, and the empty name, are refused |
| Ubiquache.CanStore | lib/src/commonMain/kotlin/ch/ubique/libs/ktor/plugins/Ubiquache.kt:85 | only protocols of the HTTP family (names starting with `http`) are storable, so not `ws`, `wss` or `file` |
| Ubiquache.CacheOnlyMiss | lib/src/commonMain/kotlin/ch/ubique/libs/ktor/plugins/Ubiquache.kt:70-83 | the local answer is a 504 over HTTP/1.1 with the single header `X-Ubiquache: only-if-cached` and an empty body |
| Ubiquache.Intercept | lib/src/commonMain/kotlin/ch/ubique/libs/ktor/plugins/Ubiquache.kt:53-66 | a request with a body, a non-GET, or a protocol other than http/https passes untouched; among the rest, exactly those whose Cache-Control lists `only-if-cached` get the local 504 |
| Ubiquache.OnlyIfCachedNeverContactsNetwork | lib/src/commonMain/kotlin/ch/ubique/libs/ktor/plugins/Ubiquache.kt:57-62 | a GET with `Cache-Control: only-if-cached` never reaches the network |
| Ubiquache.PostPassesThrough | lib/src/commonMain/kotlin/ch/ubique/libs/ktor/plugins/Ubiquache.kt:55 | a POST always passes through, whatever its headers and body |
| Ubiquache.CacheOnlyMissRaises | lib/src/commonMain/kotlin/ch/ubique/libs/ktor/http/HttpResponseExtensions.kt:13-22 | validating the local 504 raises a server-response exception carrying that response |
| RecoveringDrivers.RunRecoveringOutcome | lib/src/commonMain/kotlin/ch/ubique/libs/ktor/cache/db/RecoveringDriver.kt:30-53 | a first success changes nothing; a first failure closes the driver and reports the error once, and always clears `isRecovering`; every failure that escapes is a CacheDatabaseException "Unrecoverable cache database error" |
| RecoveringDrivers.RecoveryKeepsValid | lib/src/commonMain/kotlin/ch/ubique/libs/ktor/cache/db/RecoveringDriver.kt:36-49 | recovery keeps the driver bookkeeping valid, and a replaced driver is a new one, never a closed one |
| RecoveringDrivers.CloseFailureSwallowed | lib/src/commonMain/kotlin/ch/ubique/libs/ktor/cache/db/RecoveringDriver.kt:40 | a failing `close` of the broken driver is only logged: the result and the rest of the state are those of a successful close |
| RecoveringDrivers.PersistentFailure | lib/src/commonMain/kotlin/ch/ubique/libs/ktor/cache/db/RecoveringDriver.kt:44-46 | an operation that always fails is retried once and then wrapped; the callback ran exactly once |
| RecoveringDrivers.RecoveryRetriesOnNewDriver | lib/src/commonMain/kotlin/ch/ubique/libs/ktor/cache/db/RecoveringDriver.kt:39-44 | when the new driver works, the retried operation's value is returned |
| RecoveringDrivers.RecoveringDriver.constructor | lib/src/commonMain/kotlin/ch/ubique/libs/ktor/cache/db/RecoveringDriver.kt:20-28 | the wrapper starts on the first provided driver, not recovering |
| RecoveringDrivers.RecoveringDriver.ProvideDriver | lib/src/commonMain/kotlin/ch/ubique/libs/ktor/cache/db/RecoveringDriver.kt:42 | `driver = driverProvider()`: a new driver replaces the current one unless the provider throws |
| RecoveringDrivers.RecoveringDriver.RunRecovering | lib/src/commonMain/kotlin/ch/ubique/libs/ktor/cache/db/RecoveringDriver.kt:30-53 | the imperative retry leaves exactly the state and result of `RunRecoveringOutcome` |
| RecoveringDrivers.RecoveringDriver.Perform | lib/src/commonMain/kotlin/ch/ubique/libs/ktor/cache/db/RecoveringDriver.kt:55-96 | statements and transactions go through recovery; listener calls and `close` run on the current driver and let its exception through |
| SqldelightExtensions.ExecuteUntilFalse | lib/src/commonMain/kotlin/ch/ubique/libs/ktor/cache/db/SqldelightExtensions.kt:6-14 | visits a prefix of the rows in order; every row but the last visited got true; an early stop follows a false; when the block always answers true, all rows are visited |
| CacheHandles.Utf8Length | lib/src/commonMain/kotlin/ch/ubique/libs/ktor/cache/CacheHandle.kt:49 | the written size of a text is between one and four bytes per character, exactly one per character for ASCII text and more as soon as one character is not ASCII |
| CacheHandles.Utf8LengthAppend | lib/src/commonMain/kotlin/ch/ubique/libs/ktor/cache/CacheHandle.kt:49 | the size of two texts written one after the other is the sum of their sizes |
| CacheHandles.RefreshDueIsNotExpired | lib/src/commonMain/kotlin/ch/ubique/libs/ktor/cache/CacheHandle.kt:86-95 | an entry due for refresh is never expired |
| CacheHandles.DefaultsExpired | lib/src/commonMain/kotlin/ch/ubique/libs/ktor/cache/CacheHandle.kt:114-121 | without a row (expires = -1, no next refresh) an entry is expired at every time from the epoch on and never due for refresh |
| CacheHandles.StoredMetadata | lib/src/commonMain/kotlin/ch/ubique/libs/ktor/cache/CacheHandle.kt:50-56 | a store records access time `now` and the files' size, and copies next refresh, expiry, ETag and Last-Modified |
| CacheHandles.StoredMetadataKeepsFreshness | lib/src/commonMain/kotlin/ch/ubique/libs/ktor/cache/CacheHandle.kt:50-56 | storing changes neither expiry nor refresh status at any time |
| CacheHandles.TouchedRows | lib/src/commonMain/kotlin/ch/ubique/libs/ktor/cache/CacheHandle.kt:76 | `db.updateAccessed` keeps the set of tags, leaves every other row alone and sets only the access time of the entry's row |
| CacheHandles.UpdatedRow | lib/src/commonMain/kotlin/ch/ubique/libs/ktor/cache/CacheHandle.kt:67-71 | `db.update` sets the five freshness and validator columns and keeps url and size |
| CacheHandles.HeadIsNotBody | lib/src/commonMain/kotlin/ch/ubique/libs/ktor/cache/CacheManager.kt:191-197 | no path is both a `.head` and a `.body` file |
| CacheHandles.CacheHandle.constructor | lib/src/commonMain/kotlin/ch/ubique/libs/ktor/cache/CacheHandle.kt:10-20 | a new handle has no metadata loaded |
| CacheHandles.CacheHandle.LiveMetadata | lib/src/commonMain/kotlin/ch/ubique/libs/ktor/cache/CacheHandle.kt:20-28 | returns the loaded copy, or loads the row (defaults without one) and keeps it |
| CacheHandles.CacheHandle.GetCachedData | lib/src/commonMain/kotlin/ch/ubique/libs/ktor/cache/CacheHandle.kt:34-43 | nothing exactly when a file is missing; otherwise the head file's lines and the body's bytes |
| CacheHandles.CacheHandle.IsExpired | lib/src/commonMain/kotlin/ch/ubique/libs/ktor/cache/CacheHandle.kt:93-95 | strictly `expires < now`, on the loaded metadata |
| CacheHandles.CacheHandle.HasValidCachedResource | lib/src/commonMain/kotlin/ch/ubique/libs/ktor/cache/CacheHandle.kt:30-36 | true exactly when not expired and both files exist |
| CacheHandles.CacheHandle.ShouldBeRefreshedButIsNotExpired | lib/src/commonMain/kotlin/ch/ubique/libs/ktor/cache/CacheHandle.kt:86-91 | true exactly when next refresh is set, `1 <= nextRefresh <= now` and `now < expires` |
| CacheHandles.CacheHandle.GetETag | lib/src/commonMain/kotlin/ch/ubique/libs/ktor/cache/CacheHandle.kt:97-99 | the loaded ETag |
| CacheHandles.CacheHandle.GetLastModified | lib/src/commonMain/kotlin/ch/ubique/libs/ktor/cache/CacheHandle.kt:101-103 | the loaded Last-Modified, or -1 |
| CacheHandles.CacheHandle.DeleteFiles | lib/src/commonMain/kotlin/ch/ubique/libs/ktor/cache/CacheHandle.kt:80-81 | both files are gone, everything else in the store is unchanged |
| CacheHandles.CacheHandle.StoreCachedData | lib/src/commonMain/kotlin/ch/ubique/libs/ktor/cache/CacheHandle.kt:45-65 | success writes both files and saves the same stored metadata in memory and in the row; a failure at any step deletes both files, drops the loaded metadata, leaves the rows and rethrows the same error |
| CacheHandles.CacheHandle.Rollback | lib/src/commonMain/kotlin/ch/ubique/libs/ktor/cache/CacheHandle.kt:59-64 | the catch: files deleted, metadata dropped, same error returned |
| CacheHandles.CacheHandle.UpdateCacheMetadata | lib/src/commonMain/kotlin/ch/ubique/libs/ktor/cache/CacheHandle.kt:67-71 | updates an existing row only; the loaded copy and the files stay as they were |
| CacheHandles.CacheHandle.UpdateLastAccessed | lib/src/commonMain/kotlin/ch/ubique/libs/ktor/cache/CacheHandle.kt:73-77 | only `lastAccess` changes, in memory and in an existing row |
| CacheHandles.CacheHandle.RemoveFromCache | lib/src/commonMain/kotlin/ch/ubique/libs/ktor/cache/CacheHandle.kt:79-84 | both files and the row are deleted and the loaded copy dropped, so the next query sees the defaults |
| CacheManagers.KeyLinesSplice | lib/src/commonMain/kotlin/ch/ubique/libs/ktor/cache/CacheManager.kt:131-141 | headers contribute to the key in header order, each at its place |
| CacheManagers.OtherHeaderIgnored | lib/src/commonMain/kotlin/ch/ubique/libs/ktor/cache/CacheManager.kt:133-135 | a header other than `accept`, `accept-*` or `authorization` does not change the canonical text |
| CacheManagers.KeyHeaderCounted | lib/src/commonMain/kotlin/ch/ubique/libs/ktor/cache/CacheManager.kt:132-141 | a key header adds `lowercasedName:value LF` at its place |
| CacheManagers.RequestLineDeterminesTarget | lib/src/commonMain/kotlin/ch/ubique/libs/ktor/cache/CacheManager.kt:126-129 | the request line `method SP url LF` can be read back unambiguously; the method is the text `HttpMethod.toString()` gives |
| CacheManagers.CanonicalRequestDeterminesTarget | lib/src/commonMain/kotlin/ch/ubique/libs/ktor/cache/CacheManager.kt:124-142 | requests with different method or url have different canonical texts (method without space, url without line feed) |
| CacheManagers.BuildCanonicalRequest | lib/src/commonMain/kotlin/ch/ubique/libs/ktor/cache/CacheManager.kt:125-142 | the string-builder loop produces the canonical text |
| CacheManagers.ComputeCacheTag | lib/src/commonMain/kotlin/ch/ubique/libs/ktor/cache/CacheManager.kt:124-145 | the tag is the digest of the canonical text |
| CacheManagers.BackoffFloor | lib/src/commonMain/kotlin/ch/ubique/libs/ktor/cache/CacheManager.kt:74 | present exactly with a backoff, then `now + backoff` |
| CacheManagers.ReadCacheMetadata | lib/src/commonMain/kotlin/ch/ubique/libs/ktor/cache/CacheManager.kt:73-80 | access time `now`; expiry is the larger of the expiry date (0 without one) and the backoff floor `now + backoff`, or the date itself without a backoff; next refresh is the larger of the next-refresh date (the expiry without one) and the floor, or that date itself without a backoff; ETag copied, Last-Modified parsed |
| CacheManagers.NoBackoffKeepsDates | lib/src/commonMain/kotlin/ch/ubique/libs/ktor/cache/CacheManager.kt:74-76 | without a backoff the expiry date (0 without one) and the next-refresh date are stored unchanged |
| CacheManagers.QualifiesForStorage | lib/src/commonMain/kotlin/ch/ubique/libs/ktor/cache/CacheManager.kt:54 | an unexpired entry qualifies; one refused is expired and has neither ETag nor Last-Modified |
| CacheManagers.ETagAloneQualifies | lib/src/commonMain/kotlin/ch/ubique/libs/ktor/cache/CacheManager.kt:54 | a response with an ETag is stored even when already expired |
| CacheManagers.UncacheableResponse | lib/src/commonMain/kotlin/ch/ubique/libs/ktor/cache/CacheManager.kt:54 | without expiry, max-age, backoff or validators a response is not stored |
| CacheManagers.BackoffDefersRefresh | lib/src/commonMain/kotlin/ch/ubique/libs/ktor/cache/CacheManager.kt:74-76 | during the backoff the stored entry is neither expired nor due for refresh |
| CacheManagers.ParseHeaderLine | lib/src/commonMain/kotlin/ch/ubique/libs/ktor/cache/CacheManager.kt:104-105 | a header line without a colon fails to read; a line that reads gives a header the builder accepts, trimmed, that can be stored again |
| CacheManagers.ParseHeaderLineAtFirstColon | lib/src/commonMain/kotlin/ch/ubique/libs/ktor/cache/CacheManager.kt:104-105 | a line reads as its trimmed text before and after the first colon exactly when the builder accepts that name and value, and fails otherwise |
| CacheManagers.HeaderLineRoundTrip | lib/src/commonMain/kotlin/ch/ubique/libs/ktor/cache/CacheManager.kt:104-105 | a stored `name: value` line reads back as the header, colons in the value included |
| CacheManagers.StoredLineIsOneLine | lib/src/commonMain/kotlin/ch/ubique/libs/ktor/cache/CacheManager.kt:56 | a storable header's line has no line feed and ends in CRLF |
| CacheManagers.ReadHeaderBlock | lib/src/commonMain/kotlin/ch/ubique/libs/ktor/cache/CacheManager.kt:55-56 | the lines of the stored header block are the headers' `name: value` texts |
| CacheManagers.HeaderLinesRoundTrip | lib/src/commonMain/kotlin/ch/ubique/libs/ktor/cache/CacheManager.kt:102-107 | the stored header lines parse back to the headers |
| CacheManagers.HeadRoundTrip | lib/src/commonMain/kotlin/ch/ubique/libs/ktor/cache/CacheManager.kt:55-107 | a head file written from a status line and headers reads back as the same status line and the same list of headers |
| CacheManagers.ReadResponse | lib/src/commonMain/kotlin/ch/ubique/libs/ktor/cache/CacheManager.kt:95-107 | no data or an empty head fails; a response read back has the body, the parsed first line as status and one header per further line, each acceptable to the header builder |
| CacheManagers.HalfTowardZero | lib/src/commonMain/kotlin/ch/ubique/libs/ktor/cache/CacheManager.kt:169 | Long `/ 2` rounds toward zero, for negative values too |
| CacheManagers.MaxCacheSize | lib/src/commonMain/kotlin/ch/ubique/libs/ktor/cache/CacheManager.kt:166-173 | a configured size is used as is; AUTO (-1) gives half the space left beside the cache (rounded toward zero) when that is below 256 MiB, and exactly 128 MiB from 256 MiB on; never more than 128 MiB |
| CacheManagers.HeadFile | lib/src/commonMain/kotlin/ch/ubique/libs/ktor/cache/CacheManager.kt:191-193 | `<dir>/<tag>.head`, inside the cache directory |
| CacheManagers.BodyFile | lib/src/commonMain/kotlin/ch/ubique/libs/ktor/cache/CacheManager.kt:195-197 | `<dir>/<tag>.body`, inside the cache directory |
| CacheManagers.FilesOfDistinctTags | lib/src/commonMain/kotlin/ch/ubique/libs/ktor/cache/CacheManager.kt:191-197 | distinct tags have distinct head and body files |
| CacheManagers.ServeFromCache | lib/src/commonMain/kotlin/ch/ubique/libs/ktor/cache/CacheManager.kt:121 | a response read from the cache is served as such, and its failure is kept |
| CacheManagers.StoredResponseReadsBack | lib/src/commonMain/kotlin/ch/ubique/libs/ktor/cache/CacheManager.kt:51-67 | a stored response is served back with the same status line, list of headers and promised body |
| CacheManagers.CacheManager.constructor | lib/src/commonMain/kotlin/ch/ubique/libs/ktor/cache/CacheManager.kt:36-46 | directory, configured size and store as given; no cleanup run yet |
| CacheManagers.CacheManager.ObtainCacheHandle | lib/src/commonMain/kotlin/ch/ubique/libs/ktor/cache/CacheManager.kt:179-189 | a new handle keyed by the request's cache tag, on that tag's head and body files |
| CacheManagers.CacheManager.ReadCachedResponse | lib/src/commonMain/kotlin/ch/ubique/libs/ktor/cache/CacheManager.kt:95-107 | the imperative read equals `ReadResponse` of the entry's data |
| CacheManagers.CacheManager.StoreCacheableResponse | lib/src/commonMain/kotlin/ch/ubique/libs/ktor/cache/CacheManager.kt:51-67 | a non-qualifying response is returned unchanged with nothing written; a qualifying one is written and served from the cache; a store failure leaves no files and the rows unchanged |
| CacheManagers.CacheManager.StoreIfQualifies | lib/src/commonMain/kotlin/ch/ubique/libs/ktor/cache/CacheManager.kt:54-66 | the storage gate over given metadata, with the same three outcomes |
| CacheManagers.CacheManager.WriteEntry | lib/src/commonMain/kotlin/ch/ubique/libs/ktor/cache/CacheManager.kt:55-63 | writes head and body with the stored metadata, then reads the entry back |
| CacheManagers.CacheManager.UpdateCacheHeaders | lib/src/commonMain/kotlin/ch/ubique/libs/ktor/cache/CacheManager.kt:69-71 | the entry's row takes the response's computed metadata; files unchanged |
| CacheManagers.CacheManager.GetCachedResponse | lib/src/commonMain/kotlin/ch/ubique/libs/ktor/cache/CacheManager.kt:90-93 | touches the access time, in memory and in the entry's row, leaving every other row, the row's other columns and the files unchanged, then serves the entry's data |
| CacheManagers.CacheManager.GetCachedResponseOrThrow | lib/src/commonMain/kotlin/ch/ubique/libs/ktor/cache/CacheManager.kt:82-88 | fails with CachedResourceNotFound exactly when the entry is expired or a file is missing, changing no row and leaving the in-memory metadata as it was; otherwise touches the access time and serves it as `getCachedResponse` |
| CacheManagers.CacheManager.RemoveCachedResource | lib/src/commonMain/kotlin/ch/ubique/libs/ktor/cache/CacheManager.kt:150-157 | deletes the row and both files of the tag, nothing else |
| CacheManagers.CacheManager.ClearCache | lib/src/commonMain/kotlin/ch/ubique/libs/ktor/cache/CacheManager.kt:162-164 | deletes every file under the cache directory, so no entry file remains; rows stay |
| RequestStates.DataIfResult | lib/src/commonMain/kotlin/ch/ubique/libs/ktor/flow/RequestState.kt:32-34 | the data exactly for a Result, otherwise null |
| RequestStates.Map | lib/src/commonMain/kotlin/ch/ubique/libs/ktor/flow/RequestState.kt:39-43 | maps the data of a Result; Error keeps exception and retry; Loading stays Loading |
| RequestStates.MapIdentity | lib/src/commonMain/kotlin/ch/ubique/libs/ktor/flow/RequestState.kt:39-43 | mapping with the identity changes nothing |
| RequestStates.MapCompose | lib/src/commonMain/kotlin/ch/ubique/libs/ktor/flow/RequestState.kt:39-43 | mapping twice equals mapping once with the composition |
| RequestStates.CombineWith | lib/src/commonMain/kotlin/ch/ubique/libs/ktor/flow/RequestState.kt:51-58 | Error exactly when either is; the receiver's exception wins and two retries run receiver first; Result exactly for two Results, combined by f; Loading otherwise |
| RequestStates.CombineWithLoading | lib/src/commonMain/kotlin/ch/ubique/libs/ktor/flow/RequestState.kt:56 | a Result combined with Loading, either way round, is Loading |
| RequestStates.CombineErrorsAssociative | lib/src/commonMain/kotlin/ch/ubique/libs/ktor/flow/RequestState.kt:53 | three Errors combine to the first exception and all retries left to right, in either grouping |
| KtorStateFlows.RefreshTarget | lib/src/commonMain/kotlin/ch/ubique/libs/ktor/flow/KtorStateFlow.kt:130 | the next-refresh date, else the expiry date |
| KtorStateFlows.RefreshBackoff | lib/src/commonMain/kotlin/ch/ubique/libs/ktor/flow/KtorStateFlow.kt:131 | the header backoff raised to at least 0, else the default backoff |
| KtorStateFlows.Delay | lib/src/commonMain/kotlin/ch/ubique/libs/ktor/flow/KtorStateFlow.kt:138-140 | a delay exists exactly with a target or a default interval; with a target it is the larger of the time left and the minimum delay; without one it is the default interval |
| KtorStateFlows.MinDelay | lib/src/commonMain/kotlin/ch/ubique/libs/ktor/flow/KtorStateFlow.kt:133-137 | a normal request's minimum delay is the whole backoff; a probe's is the backoff less the response's age (zero age without a Date) or 0, whichever is larger |
| KtorStateFlows.ProbeWaitsRemainingBackoff | lib/src/commonMain/kotlin/ch/ubique/libs/ktor/flow/KtorStateFlow.kt:133-135 | after a probe, for a Date not after now, the minimum delay is the backoff less the response's age, clamped to between 0 and the backoff |
| KtorStateFlows.ProbeWithoutDateWaitsWholeBackoff | lib/src/commonMain/kotlin/ch/ubique/libs/ktor/flow/KtorStateFlow.kt:134 | a probe answer without Date leaves the whole non-negative backoff |
| KtorStateFlows.RefreshDelay | lib/src/commonMain/kotlin/ch/ubique/libs/ktor/flow/KtorStateFlow.kt:130-140 | a delay exists exactly with a refresh target or a default interval; with a target it is at least the time left, and for a normal request at least the backoff; without one it is the default interval |
| KtorStateFlows.HeaderBackoffDefersNextRequest | lib/src/commonMain/kotlin/ch/ubique/libs/ktor/flow/KtorStateFlow.kt:130-140 | with a header backoff and a target, the next request waits at least the backoff |
| KtorStateFlows.LoadAndWait | lib/src/commonMain/kotlin/ch/ubique/libs/ktor/flow/KtorStateFlow.kt:115-141 | one Result is emitted exactly on success, and only for a 2xx with a body; a failure emits nothing; a thrown request is passed on |
| KtorStateFlows.ProbeRequiresPlugin | lib/src/commonMain/kotlin/ch/ubique/libs/ktor/flow/KtorStateFlow.kt:123-127 | a probe answer without the plugin's mark raises IllegalStateException before any emission |
| KtorStateFlows.UnsuccessfulStatusRaises | lib/src/commonMain/kotlin/ch/ubique/libs/ktor/flow/KtorStateFlow.kt:128 | a non-2xx response raises its response exception and emits nothing |
| KtorStateFlows.SuccessRepeatsIffDelay | lib/src/commonMain/kotlin/ch/ubique/libs/ktor/flow/KtorStateFlow.kt:129-140 | a success to a request other than the only-if-cached probe (none or `no-cache`) emits its body, and repeats exactly when there is a refresh target or a default interval |
| KtorStateFlows.FirstRequest | lib/src/commonMain/kotlin/ch/ubique/libs/ktor/flow/KtorStateFlow.kt:92-96 | the first request always carries a Cache-Control |
| KtorStateFlows.Repeat | lib/src/commonMain/kotlin/ch/ubique/libs/ktor/flow/KtorStateFlow.kt:103-105 | every request of the loop emits one Result, except a last one that threw |
| KtorStateFlows.First | lib/src/commonMain/kotlin/ch/ubique/libs/ktor/flow/KtorStateFlow.kt:92-96 | the first request emits at most one Result; the probe, with its zero interval, never asks to stop |
| KtorStateFlows.GoesOn | lib/src/commonMain/kotlin/ch/ubique/libs/ktor/flow/KtorStateFlow.kt:92-103 | a first request that asks to repeat is followed by the loop; one that threw anything but an exception the probe ignores is not |
| KtorStateFlows.Block | lib/src/commonMain/kotlin/ch/ubique/libs/ktor/flow/KtorStateFlow.kt:88-113 | the block emits at least one state, `Loading` first |
| KtorStateFlows.BodyEmitsResults | lib/src/commonMain/kotlin/ch/ubique/libs/ktor/flow/KtorStateFlow.kt:91-105 | inside the `try`, after `Loading`, only Results are emitted |
| KtorStateFlows.CaughtLast | lib/src/commonMain/kotlin/ch/ubique/libs/ktor/flow/KtorStateFlow.kt:106-112 | after Loading and Results, the last state is an Error exactly when a non-cancellation exception was caught, and it carries that exception and a force-reload retry |
| KtorStateFlows.RepeatShape | lib/src/commonMain/kotlin/ch/ubique/libs/ktor/flow/KtorStateFlow.kt:103-105 | repeated requests carry no Cache-Control and emit only Results; a cancelled loop used the whole script |
| KtorStateFlows.RepeatStep | lib/src/commonMain/kotlin/ch/ubique/libs/ktor/flow/KtorStateFlow.kt:103-105 | one loop turn: the request, then the rest of the loop if it returned true |
| KtorStateFlows.ForceFreshStartsWithNoCache | lib/src/commonMain/kotlin/ch/ubique/libs/ktor/flow/KtorStateFlow.kt:92-105 | a forced reload's first request is `no-cache`, every later one has none |
| KtorStateFlows.ProbeFailureIsIgnored | lib/src/commonMain/kotlin/ch/ubique/libs/ktor/flow/KtorStateFlow.kt:94-105 | a probe failing with a response or I/O exception is passed over: the repeating requests follow as if it had not been made |
| KtorStateFlows.ErrorOnlyAtTheEnd | lib/src/commonMain/kotlin/ch/ubique/libs/ktor/flow/KtorStateFlow.kt:88-113 | the block emits Loading first, then only Results, and an Error only last, exactly when a non-cancellation exception escaped, with a force-reload retry |
| KtorStateFlows.CancelledBlockEmitsNoError | lib/src/commonMain/kotlin/ch/ubique/libs/ktor/flow/KtorStateFlow.kt:106-107 | a cancelled block emits no Error and issued one request per exchange |
| KtorStateFlows.KtorStateFlowImpl.constructor | lib/src/commonMain/kotlin/ch/ubique/libs/ktor/flow/KtorStateFlow.kt:88 | the flow starts at Loading |
| KtorStateFlows.KtorStateFlowImpl.Emit | lib/src/commonMain/kotlin/ch/ubique/libs/ktor/flow/KtorStateFlow.kt:90 | the flow takes the emitted value |
| KtorStateFlows.KtorStateFlowImpl.LoadAndWaitStep | lib/src/commonMain/kotlin/ch/ubique/libs/ktor/flow/KtorStateFlow.kt:115-141 | the imperative step emits and returns what `LoadAndWait` says |
| KtorStateFlows.KtorStateFlowImpl.RunRepeat | lib/src/commonMain/kotlin/ch/ubique/libs/ktor/flow/KtorStateFlow.kt:103-105 | the `while (repeat)` loop emits, requests and ends as `Repeat` says |
| KtorStateFlows.KtorStateFlowImpl.RunFirst | lib/src/commonMain/kotlin/ch/ubique/libs/ktor/flow/KtorStateFlow.kt:92-102 | the first request emits as `First` says and continues as `GoesOn` says |
| KtorStateFlows.KtorStateFlowImpl.RunBlock | lib/src/commonMain/kotlin/ch/ubique/libs/ktor/flow/KtorStateFlow.kt:88-113 | the whole block emits and requests as `Block` says |
| Wrappers.AllSome | lib/src/commonMain/kotlin/ch/ubique/libs/ktor/cache/CacheManager.kt:102-107 | all lines read exactly when each does, and then in order |
| Wrappers.CollectAll | lib/src/commonMain/kotlin/ch/ubique/libs/ktor/cache/CacheManager.kt:103-106 | the loop over header lines gives `AllSome` |

## Left out

- Kotlin `Long` overflow is not modelled: integers are unbounded. Only the parse of a Long or Int text checks its range.
- Lower-casing of header names and digits are ASCII only; there is no Unicode case folding or normalisation. Whitespace in `trim` and the UTF-8 size of characters follow the full code-point ranges.
- `HttpProtocolVersion.parse` is not modelled: the protocol is kept as text. The reason phrase of a parsed status is the line's, not Ktor's standard one.
- `DirectiveValues` models only the values of Ktor's `parseHeaderValue`: items are split at `,`, parameters after `;` are dropped, and quoting is not modelled.
- `Ubiquache.Intercept` matches a directive by its value alone. The source compares `HeaderValue` objects, whose equality includes the parameters, so `only-if-cached;x=1` goes to the network there, where the model answers it with the local 504.
- `Headers.build` groups values by name. `computeCacheTag` then walks the headers in that grouped order; the model walks them in request order. `CacheManagers.CacheManager.ReadCachedResponse`, `CacheManagers.HeadRoundTrip` and `CacheManagers.StoredResponseReadsBack` likewise give the headers as the list read from the head file, not regrouped by name.
- `toLine()` is not part of this model. Head lines are taken to be `Name: value` followed by CRLF.
- Reading files is modelled as lines of text, and the body as a byte sequence. The CRLF line ends are stripped, and UTF-8 decoding is not modelled.
- Concurrency is not modelled:
  - the per-key mutexes;
  - the `recoverMutex`/`runBlocking` around recovery, which is taken as one caller at a time so the `isRecovering` check always passes;
  - `StateFlowBlockRunner`, the scheduling and cancellation timeout of `KtorStateFlowImpl`, and `flatMapLatestToKtorStateFlow`.
- The `delay(...)` itself is not modelled, and neither is cancellation while waiting: running out of the exchange script stands for cancellation.
- `KtorStateFlows.LoadAndWait` reads the clock once per request (the exchange's `now`); the source reads it once more, between the response and the delay computation.
- `CacheManagers.ReadCacheMetadata` takes one `now` for the backoff floor, the max-age fallback and the access time; the source reads the clock separately for each.
- `CacheManagers.CacheManager.StoreCacheableResponse` uses one `now` both for the storage gate (CacheManager.kt:54) and for the stored access time (CacheHandle.kt:51); the source reads the clock for each.
- `ensureDirectory`, `deleteRecursively` and `freeSpace` are not modelled. The file system is a map from path to contents, and free space is an argument.
- `CacheManagers.CacheManager.ClearCache` removes the files only, as `deleteRecursively` does. The rows stay, as in the source.
- The SQL engine is not modelled.
  - `save` is insert-or-replace on the tag.
  - `update` and `updateAccessed` change an existing row only.
  - `getUsedCacheSize` is the `used` argument of `CacheManagers.MaxCacheSize`.
- The Ktor pipeline mechanics are not modelled: `finish`, `proceedWith`, and the fake `HttpResponse`, `CachedHttpCall`, `CachedHttpResponse` and `RequestForCache` objects. A served response is the parsed status line, headers and body.
- `CacheManagers.CacheManager.StoreCacheableResponse` does not model the body stream. The stored body is the response's bytes when it promises a body, else empty. A failed read-back after a store is returned as an error value.
- `CacheManagers.CacheManager.ReadCachedResponse`: a missing file, an empty head, a malformed line or a header the builder refuses is an error value. The source throws from a destructuring, a parse or the builder's name and value checks.
- The expiry/LRU cleanup sweep is not modelled, because no cleanup code is in the source; only its two constants are kept. `lastCleanupRun` is a field that nothing updates.
- The driver provider failing inside the `RecoveringDriver` constructor is not modelled; the first driver always exists.
- `RecoveringDrivers.RunRecoveringOutcome` numbers drivers instead of holding driver objects. An operation is a function from the driver number to its result.
- The SHA-256/Base64url digest and HTTP-date parsing are function parameters, not implementations.
- `CacheManagers.ReadCacheMetadata`, `CacheManagers.CacheManager.StoreCacheableResponse` and `KtorStateFlows.RefreshTarget` use the corrected `CacheHeaderExtensions.ExpiresDate`, which scales the max-age fallback once; the source scales it twice (see "Findings").
- Platform code and configuration are not modelled (`UbiquacheConfig.*`, the driver factories, `AppUserAgent*`, `AcceptLanguage`).

## Findings

| source | as written | input that shows it | evidently intended | confidence | as-written member | corrected member |
|---|---|---|---|---|---|---|
| lib/src/commonMain/kotlin/ch/ubique/libs/ktor/cache/extensions/CacheHeaderExtensions.kt:29 | the max-age fallback is `now + maxAge * 1000`, but `maxAge` (line 61) already returns milliseconds | a response with only `Cache-Control: max-age=1` received at `now` expires at `now + 1_000_000`, and is still fresh 2 s later, where the max-age test (ResponseCachingTest.kt:120-151) expects a new request | `now + maxAge`, so that `max-age=1` expires at `now + 1000` | not executed | CacheHeaderExtensions.MaxAgeOneAsWritten | CacheHeaderExtensions.MaxAgeOneCorrected |
