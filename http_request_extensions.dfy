/** Request helpers: the read-only request view and the conditional-request test. */
module HttpRequestExtensions {
  import opened Wrappers
  import opened HttpHeaders

  /** Outgoing request content: no content, or a body. */
  datatype Body = NoContent | Content(bytes: seq<bv8>)

  type Attributes = map<string, string>

  /** The request data a pipeline has built. */
  datatype RequestData = RequestData(httpMethod: string, url: string, attributes: Attributes, body: Body, headers: Headers)

  /** The request view `toHttpRequest` returns. It has no client call behind it. */
  datatype RequestView = RequestView(httpMethod: string, url: string, attributes: Attributes, content: Body, headers: Headers)

  datatype IllegalStateException = IllegalStateException(message: string)

  /** `toHttpRequest()`: a view over the same method, url, attributes, body and headers. */
  function ToHttpRequest(data: RequestData): (r: RequestView)
    ensures r.httpMethod == data.httpMethod && r.url == data.url && r.attributes == data.attributes
    ensures r.content == data.body && r.headers == data.headers
  {
    RequestView(data.httpMethod, data.url, data.attributes, data.body, data.headers)
  }

  /** The view's `call` accessor: it always throws. */
  function Call(r: RequestView): (c: Result<(), IllegalStateException>)
    ensures c == Fail(IllegalStateException("This request has no call"))
  {
    Fail(IllegalStateException("This request has no call"))
  }

  /** `expectNotModified()`: the request carries If-None-Match or If-Modified-Since. */
  function ExpectNotModified(hs: Headers): (r: bool)
    ensures r <==> exists k :: 0 <= k < |hs| && (Named(hs[k], IF_NONE_MATCH) || Named(hs[k], IF_MODIFIED_SINCE))
  {
    Has(hs, IF_NONE_MATCH) || Has(hs, IF_MODIFIED_SINCE)
  }

  /** Headers other than the two validators never make a request conditional. */
  lemma OtherHeadersIrrelevant(hs: Headers, extra: Headers)
    requires forall k :: 0 <= k < |extra| ==> !Named(extra[k], IF_NONE_MATCH) && !Named(extra[k], IF_MODIFIED_SINCE)
    ensures ExpectNotModified(hs + extra) == ExpectNotModified(hs)
  {
    var all := hs + extra;
    if ExpectNotModified(all) {
      var k :| 0 <= k < |all| && (Named(all[k], IF_NONE_MATCH) || Named(all[k], IF_MODIFIED_SINCE));
      assert k < |hs| && hs[k] == all[k];
    }
    if ExpectNotModified(hs) {
      var k :| 0 <= k < |hs| && (Named(hs[k], IF_NONE_MATCH) || Named(hs[k], IF_MODIFIED_SINCE));
      assert all[k] == hs[k];
    }
  }
}
