/** `throwIfNotSuccessful`: the default response validation by status range. */
module HttpResponseExtensions {
  import opened Wrappers

  /** Which exception class a failed status raises. */
  datatype ExceptionKind = Redirect | ClientRequest | ServerResponse | Plain

  /** A ResponseException: its class, the response it carries and its text. */
  datatype ResponseException<R> = ResponseException(kind: ExceptionKind, response: R, text: string)

  const BODY_FAILED_DECODING: string := "<body failed decoding>"

  /** `bodyAsTextOrElse()`: the body text, or a fixed marker when reading the body fails. */
  function BodyAsTextOrElse(body: Option<string>): (text: string)
    ensures body.Some? ==> text == body.value
    ensures body.None? ==> text == BODY_FAILED_DECODING
  {
    body.GetOr(BODY_FAILED_DECODING)
  }

  /** The exception class for a status, or `None` for 2xx. */
  function Classify(status: int): (k: Option<ExceptionKind>)
    ensures k.None? <==> 200 <= status <= 299
    ensures k == Some(Redirect) <==> 300 <= status <= 399
    ensures k == Some(ClientRequest) <==> 400 <= status <= 499
    ensures k == Some(ServerResponse) <==> 500 <= status <= 599
    ensures k == Some(Plain) <==> status < 200 || status > 599
  {
    if 200 <= status <= 299 then None
    else if 300 <= status <= 399 then Some(Redirect)
    else if 400 <= status <= 499 then Some(ClientRequest)
    else if 500 <= status <= 599 then Some(ServerResponse)
    else Some(Plain)
  }

  /**
   * `throwIfNotSuccessful()`: `None` for a 2xx status, otherwise the exception
   * it throws, carrying the response and the body text.
   */
  function ThrowIfNotSuccessful<R>(response: R, status: int, body: Option<string>): (e: Option<ResponseException<R>>)
    ensures e.None? <==> 200 <= status <= 299
    ensures e.Some? ==> Some(e.value.kind) == Classify(status)
    ensures e.Some? ==> e.value.response == response && e.value.text == BodyAsTextOrElse(body)
  {
    match Classify(status)
    case None => None
    case Some(kind) => Some(ResponseException(kind, response, BodyAsTextOrElse(body)))
  }

  /** Every status code falls in exactly one branch. */
  lemma ExactlyOneBranch(status: int)
    ensures var branches := [200 <= status <= 299, 300 <= status <= 399, 400 <= status <= 499,
                             500 <= status <= 599, status < 200 || status > 599];
            |set i | 0 <= i < 5 && branches[i]| == 1
  {
    var branches := [200 <= status <= 299, 300 <= status <= 399, 400 <= status <= 499,
                     500 <= status <= 599, status < 200 || status > 599];
    var j := if 200 <= status <= 299 then 0 else if 300 <= status <= 399 then 1
             else if 400 <= status <= 499 then 2 else if 500 <= status <= 599 then 3 else 4;
    assert (set i | 0 <= i < 5 && branches[i]) == {j};
  }

  /** A 404 raises a client exception that keeps the response and its body. */
  lemma NotFoundRaises<R>(response: R, body: string)
    ensures ThrowIfNotSuccessful(response, 404, Some(body)) == Some(ResponseException(ClientRequest, response, body))
  {
  }
}
