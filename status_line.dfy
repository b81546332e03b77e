/**
 * The status line stored as the first line of a head file, such as
 * `HTTP/1.1 200 OK`: protocol, SP, status code, SP, reason phrase (the
 * status-line form of section 4 of RFC 9112).
 */
module HttpStatusLine {
  import opened Wrappers
  import opened Text

  /**
   * A status line. `protocol` is the text of the protocol version
   * (`HTTP/1.1`), `code` the numeric status, `description` the reason phrase.
   */
  datatype StatusLine = StatusLine(protocol: string, code: int, description: string)

  /** A response as far as `StatusLine.get` reads it. */
  datatype ResponseStatus = ResponseStatus(version: string, status: int, statusDescription: string)

  datatype ParseError = TooFewFields | CodeNotAnInteger

  /** `StatusLine.toString()`: protocol, space, numeric code, space, description. */
  function Format(s: StatusLine): (r: string)
    ensures StartsWith(r, s.protocol + " ") && EndsWith(r, " " + s.description)
    ensures |r| == |s.protocol| + |DecimalString(s.code)| + |s.description| + 2
  {
    s.protocol + [' '] + DecimalString(s.code) + [' '] + s.description
  }

  /** `StatusLine.get(response)`: the version and status of the response, unchanged. */
  function Get(response: ResponseStatus): (s: StatusLine)
    ensures s.protocol == response.version
    ensures s.code == response.status && s.description == response.statusDescription
  {
    StatusLine(response.version, response.status, response.statusDescription)
  }

  /**
   * `StatusLine.parse(line)`: the line is split at its first two spaces; the
   * middle field must be an Int and the rest, trimmed, is the description.
   * Fewer than three fields fail the destructuring.
   */
  function Parse(line: string): (r: Result<StatusLine, ParseError>)
    ensures r.Ok? ==> IsTrimmed(r.value.description) && INT_MIN <= r.value.code <= INT_MAX
    ensures r.Ok? ==> ' ' !in r.value.protocol
    ensures r.Fail? && r.error == TooFewFields <==> |Split(line, ' ', 3)| < 3
  {
    var fields := Split(line, ' ', 3);
    if |fields| < 3 then Fail(TooFewFields)
    else match ToInt(fields[1])
      case None => Fail(CodeNotAnInteger)
      case Some(code) =>
        SplitFirstField(line);
        Ok(StatusLine(fields[0], code, Trim(fields[2])))
  }

  lemma SplitFirstField(line: string)
    ensures ' ' !in Split(line, ' ', 3)[0]
  {
  }

  /** A status line can be written and read back when its fields allow it. */
  predicate Writable(s: StatusLine) {
    ' ' !in s.protocol && INT_MIN <= s.code <= INT_MAX && IsTrimmed(s.description)
  }

  /**
   * Reading a formatted status line gives it back: the protocol holds no
   * space, the code is an Int and the description has no surrounding
   * whitespace (spaces inside it, and an empty description, are kept).
   */
  lemma ParseFormat(s: StatusLine)
    requires Writable(s)
    ensures Parse(Format(s)) == Ok(s)
  {
    SplitFormat(s);
    ParseDecimalString(s.code, INT_MIN, INT_MAX);
    TrimOfTrimmed(s.description);
  }

  /**
   * The formatted line falls apart, at its first two spaces, into the
   * protocol, the decimal code and the whole description.
   */
  lemma SplitFormat(s: StatusLine)
    requires ' ' !in s.protocol
    ensures Split(Format(s), ' ', 3) == [s.protocol, DecimalString(s.code), s.description]
  {
    var code := DecimalString(s.code);
    DecimalStringChars(s.code);
    assert ' ' !in code;
    var tail := code + [' '] + s.description;
    assert Format(s) == s.protocol + [' '] + tail;
    SplitAtFirst(s.protocol, ' ', tail, 3);
    SplitAtFirst(code, ' ', s.description, 2);
  }

  /** Whatever parses can be formatted and read back. */
  lemma ParsedIsWritable(line: string)
    requires Parse(line).Ok?
    ensures Writable(Parse(line).value)
  {
  }

  /** A line without two spaces does not parse. */
  lemma ParseNeedsThreeFields(line: string)
    requires ' ' !in line
    ensures Parse(line) == Fail(TooFewFields)
  {
  }

  /** A middle field that is not an Int does not parse. */
  lemma ParseNeedsIntegerCode(protocol: string, code: string, rest: string)
    requires ' ' !in protocol && ' ' !in code && ToInt(code).None?
    ensures Parse(protocol + " " + code + " " + rest) == Fail(CodeNotAnInteger)
  {
    var line := protocol + " " + code + " " + rest;
    assert line == protocol + [' '] + (code + [' '] + rest);
    SplitAtFirst(protocol, ' ', code + [' '] + rest, 3);
    SplitAtFirst(code, ' ', rest, 2);
  }
}
