/**
 * The pieces of Kotlin's string library that the cache relies on:
 * `trim`, `split` with and without a limit, `startsWith`, `contains`,
 * `toLongOrNull` / `toInt`, decimal formatting of integers, ASCII case
 * folding and the line reader used to read a head file back.
 */
module Text {
  import opened Wrappers

  const LONG_MIN: int := -0x8000_0000_0000_0000
  const LONG_MAX: int := 0x7FFF_FFFF_FFFF_FFFF
  const INT_MIN: int := -0x8000_0000
  const INT_MAX: int := 0x7FFF_FFFF

  /** Kotlin's `Char.isWhitespace`, the test `String.trim()` uses. */
  predicate IsWhitespace(c: char) {
    var n := c as int;
    || (0x09 <= n <= 0x0D) || (0x1C <= n <= 0x20) || n == 0xA0 || n == 0x1680
    || (0x2000 <= n <= 0x200A) || n == 0x2028 || n == 0x2029 || n == 0x202F
    || n == 0x205F || n == 0x3000
  }

  /** Neither the first nor the last character is whitespace. */
  predicate IsTrimmed(s: string) {
    s == [] || (!IsWhitespace(s[0]) && !IsWhitespace(s[|s| - 1]))
  }

  function TrimStart(s: string): (r: string)
    ensures |r| <= |s| && r == s[|s| - |r|..]
    ensures r == [] || !IsWhitespace(r[0])
    ensures forall i :: 0 <= i < |s| - |r| ==> IsWhitespace(s[i])
  {
    if s != [] && IsWhitespace(s[0]) then TrimStart(s[1..]) else s
  }

  function TrimEnd(s: string): (r: string)
    ensures |r| <= |s| && r == s[..|r|]
    ensures r == [] || !IsWhitespace(r[|r| - 1])
    ensures forall i :: |r| <= i < |s| ==> IsWhitespace(s[i])
  {
    if s != [] && IsWhitespace(s[|s| - 1]) then TrimEnd(s[..|s| - 1]) else s
  }

  /** Kotlin's `String.trim()`: drops whitespace at both ends. */
  function Trim(s: string): (r: string)
    ensures IsTrimmed(r)
    ensures |r| <= |s|
  {
    var t := TrimStart(s);
    var r := TrimEnd(t);
    assert r != [] ==> r[0] == t[0];
    r
  }

  lemma TrimOfTrimmed(s: string)
    requires IsTrimmed(s)
    ensures Trim(s) == s
  {
  }

  /** Index of the first occurrence of `c` in `s`. */
  function IndexOf(s: string, c: char): (r: Option<nat>)
    ensures r.Some? ==> r.value < |s| && s[r.value] == c && c !in s[..r.value]
    ensures r.None? <==> c !in s
  {
    if s == [] then None
    else if s[0] == c then Some(0)
    else match IndexOf(s[1..], c)
      case None => None
      case Some(i) =>
        assert s[..i + 1] == [s[0]] + s[1..][..i];
        Some(i + 1)
  }

  lemma IndexOfAfterPrefix(a: string, c: char, b: string)
    requires c !in a
    ensures IndexOf(a + [c] + b, c) == Some(|a|)
  {
    var s := a + [c] + b;
    assert s[|a|] == c;
    assert s[..|a|] == a;
  }

  /** Text before the first separator and text after it determine each other's split. */
  lemma FirstSeparatorUnique(a1: string, b1: string, a2: string, b2: string, c: char)
    requires c !in a1 && c !in a2
    requires a1 + [c] + b1 == a2 + [c] + b2
    ensures a1 == a2 && b1 == b2
  {
    IndexOfAfterPrefix(a1, c, b1);
    IndexOfAfterPrefix(a2, c, b2);
    var s := a1 + [c] + b1;
    assert a1 == s[..|a1|] == a2;
    assert b1 == s[|a1| + 1..] == b2;
  }

  /** The first element of a non-empty suffix can be taken off it. */
  lemma HeadOfSuffix<A>(a: seq<A>, b: seq<A>)
    requires b != []
    ensures a + b == a + [b[0]] + b[1..]
  {
    assert b == [b[0]] + b[1..];
  }

  /** Kotlin's `split(sep, limit = n)`: at most `limit` parts, the last one holding the rest. */
  function Split(s: string, sep: char, limit: nat): (parts: seq<string>)
    requires limit >= 1
    ensures 1 <= |parts| <= limit
    decreases limit
  {
    if limit == 1 then [s]
    else match IndexOf(s, sep)
      case None => [s]
      case Some(i) => [s[..i]] + Split(s[i + 1..], sep, limit - 1)
  }

  /** Kotlin's `split(sep)` without a limit. */
  function SplitAll(s: string, sep: char): (parts: seq<string>)
    ensures |parts| >= 1
    ensures sep !in s ==> parts == [s]
    ensures sep in s ==> |parts| >= 2
    decreases |s|
  {
    match IndexOf(s, sep)
    case None => [s]
    case Some(i) => [s[..i]] + SplitAll(s[i + 1..], sep)
  }

  lemma SplitAtFirst(a: string, sep: char, b: string, limit: nat)
    requires sep !in a && limit >= 2
    ensures Split(a + [sep] + b, sep, limit) == [a] + Split(b, sep, limit - 1)
  {
    var s := a + [sep] + b;
    IndexOfAfterPrefix(a, sep, b);
    assert s[..|a|] == a;
    assert s[|a| + 1..] == b;
  }

  lemma SplitAllAtFirst(a: string, sep: char, b: string)
    requires sep !in a
    ensures SplitAll(a + [sep] + b, sep) == [a] + SplitAll(b, sep)
  {
    var s := a + [sep] + b;
    IndexOfAfterPrefix(a, sep, b);
    assert s[..|a|] == a;
    assert s[|a| + 1..] == b;
  }

  predicate StartsWith(s: string, prefix: string) {
    |prefix| <= |s| && s[..|prefix|] == prefix
  }

  predicate EndsWith(s: string, suffix: string) {
    |suffix| <= |s| && s[|s| - |suffix|..] == suffix
  }

  /** A text ending in `suffix` ends in its last character. */
  lemma EndsWithLast(s: string, suffix: string)
    requires EndsWith(s, suffix) && suffix != []
    ensures s[|s| - 1] == suffix[|suffix| - 1]
  {
    assert s[|s| - |suffix|..][|suffix| - 1] == s[|s| - 1];
  }

  /** A text followed by `suffix` ends in `suffix`. */
  lemma EndsWithAppend(a: string, suffix: string)
    ensures EndsWith(a + suffix, suffix)
  {
    assert (a + suffix)[|a|..] == suffix;
  }

  /** Kotlin's `String.contains(other)`: `t` occurs somewhere in `s`. */
  predicate Contains(s: string, t: string)
    decreases |s|
  {
    StartsWith(s, t) || (s != [] && Contains(s[1..], t))
  }

  /** `t` occurs in `s` starting at index `i`. */
  predicate OccursAt(s: string, t: string, i: int) {
    0 <= i <= |s| - |t| && s[i..i + |t|] == t
  }

  lemma {:induction false} ContainsWitness(s: string, t: string)
    ensures Contains(s, t) <==> exists i :: OccursAt(s, t, i)
    decreases |s|
  {
    assert StartsWith(s, t) <==> OccursAt(s, t, 0);
    if s != [] {
      ContainsWitness(s[1..], t);
      if Contains(s[1..], t) {
        var i :| OccursAt(s[1..], t, i);
        assert OccursAt(s, t, i + 1);
      }
      if exists i :: OccursAt(s, t, i) {
        var i :| OccursAt(s, t, i);
        if i > 0 {
          assert OccursAt(s[1..], t, i - 1);
        }
      }
    }
  }

  /** The texts `f` gives for the elements of `xs`, joined without separator. */
  function Join<T>(xs: seq<T>, f: T -> string): string {
    if xs == [] then [] else Join(xs[..|xs| - 1], f) + f(xs[|xs| - 1])
  }

  lemma {:induction false} JoinAppend<T>(a: seq<T>, b: seq<T>, f: T -> string)
    ensures Join(a + b, f) == Join(a, f) + Join(b, f)
    decreases |b|
  {
    if b == [] {
      assert a + b == a;
    } else {
      var b' := b[..|b| - 1];
      assert (a + b)[..|a + b| - 1] == a + b';
      assert (a + b)[|a + b| - 1] == b[|b| - 1];
      JoinAppend(a, b', f);
    }
  }

  /** Joining a non-empty sequence: the first element's text, then the rest. */
  lemma JoinFirst<T>(xs: seq<T>, f: T -> string)
    requires xs != []
    ensures Join(xs, f) == f(xs[0]) + Join(xs[1..], f)
  {
    assert xs == [xs[0]] + xs[1..];
    JoinAppend([xs[0]], xs[1..], f);
    assert [xs[0]][..0] == [];
  }

  /** `xs.map(f)`. */
  function MapSeq<A, B>(xs: seq<A>, f: A -> B): (ys: seq<B>)
    ensures |ys| == |xs| && forall k :: 0 <= k < |xs| ==> ys[k] == f(xs[k])
  {
    seq(|xs|, i requires 0 <= i < |xs| => f(xs[i]))
  }

  lemma MapSeqCons<A, B>(x: A, xs: seq<A>, f: A -> B)
    ensures MapSeq([x] + xs, f) == [f(x)] + MapSeq(xs, f)
  {
    var all := [x] + xs;
    forall k | 1 <= k < |all|
      ensures MapSeq(all, f)[k] == MapSeq(xs, f)[k - 1]
    {
      assert all[k] == xs[k - 1];
    }
  }

  /** Joins agree when they agree element by element. */
  lemma {:induction false} JoinPointwise<T, U>(xs: seq<T>, f: T -> string, ys: seq<U>, g: U -> string)
    requires |xs| == |ys| && forall k :: 0 <= k < |xs| ==> f(xs[k]) == g(ys[k])
    ensures Join(xs, f) == Join(ys, g)
    decreases |xs|
  {
    if xs != [] {
      JoinPointwise(xs[..|xs| - 1], f, ys[..|ys| - 1], g);
    }
  }

  // ---------------------------------------------------------------- numbers

  predicate IsDigit(c: char) {
    '0' <= c <= '9'
  }

  predicate AllDigits(s: string) {
    forall i :: 0 <= i < |s| ==> IsDigit(s[i])
  }

  function DigitValue(c: char): nat
    requires IsDigit(c)
  {
    c as int - '0' as int
  }

  function DigitChar(d: nat): (c: char)
    requires d < 10
    ensures IsDigit(c) && DigitValue(c) == d
  {
    ('0' as int + d) as char
  }

  /** The value of a run of decimal digits, most significant first. */
  function DigitsValue(s: string): nat
    requires AllDigits(s)
  {
    if s == [] then 0
    else DigitsValue(s[..|s| - 1]) * 10 + DigitValue(s[|s| - 1])
  }

  /**
   * Kotlin's `toLongOrNull()` / `toIntOrNull()` for decimal text: an optional
   * `+` or `-`, at least one digit, nothing else, and the value inside
   * `[min, max]`.
   */
  function ParseInteger(s: string, min: int, max: int): (r: Option<int>)
    ensures r.Some? ==> min <= r.value <= max
  {
    if s == [] then None
    else if s[0] == '-' || s[0] == '+' then
      if |s| == 1 || !AllDigits(s[1..]) then None
      else
        var d: int := DigitsValue(s[1..]);
        var v := if s[0] == '-' then -d else d;
        if min <= v <= max then Some(v) else None
    else if !AllDigits(s) then None
    else
      var v := DigitsValue(s);
      if min <= v <= max then Some(v) else None
  }

  /** Text that parses as an integer holds only digits and a leading sign. */
  lemma ParsedIntegerChars(s: string, min: int, max: int)
    requires ParseInteger(s, min, max).Some?
    ensures forall c :: c in s ==> c == '-' || c == '+' || IsDigit(c)
  {
    if s[0] == '-' || s[0] == '+' {
      assert s == [s[0]] + s[1..];
    }
  }

  function ToLongOrNull(s: string): Option<int> {
    ParseInteger(s, LONG_MIN, LONG_MAX)
  }

  /** Kotlin's `toInt()`; `None` is the NumberFormatException it throws. */
  function ToInt(s: string): Option<int> {
    ParseInteger(s, INT_MIN, INT_MAX)
  }

  function Digits(n: nat): (s: string)
    ensures |s| >= 1
  {
    if n < 10 then [DigitChar(n)] else Digits(n / 10) + [DigitChar(n % 10)]
  }

  /** Kotlin's `Int.toString()` / `Long.toString()`. */
  function DecimalString(n: int): string {
    if n < 0 then "-" + Digits(-n) else Digits(n)
  }

  lemma {:induction false} DigitsRoundTrip(n: nat)
    ensures AllDigits(Digits(n)) && DigitsValue(Digits(n)) == n
  {
    if n >= 10 {
      DigitsRoundTrip(n / 10);
      var s := Digits(n);
      assert s[..|s| - 1] == Digits(n / 10);
    }
  }

  /** Formatting an integer in range and parsing it back gives the integer. */
  lemma ParseDecimalString(n: int, min: int, max: int)
    requires min <= n <= max
    ensures ParseInteger(DecimalString(n), min, max) == Some(n)
  {
    DigitsRoundTrip(if n < 0 then -n else n);
    var s := DecimalString(n);
    if n < 0 {
      assert s[1..] == Digits(-n);
      assert s[0] == '-';
    } else {
      assert IsDigit(s[0]);
    }
  }

  /** A formatted integer holds only digits and possibly a leading minus sign. */
  lemma DecimalStringChars(n: int)
    ensures DecimalString(n) != []
    ensures forall c :: c in DecimalString(n) ==> c == '-' || IsDigit(c)
  {
    DigitsRoundTrip(if n < 0 then -n else n);
    var s := DecimalString(n);
    if n < 0 {
      assert s == ['-'] + Digits(-n);
    }
  }

  // ---------------------------------------------------------- case folding

  function ToLowerAscii(c: char): char {
    if 'A' <= c <= 'Z' then (c as int + 32) as char else c
  }

  /** `String.lowercase()`, restricted to ASCII letters. */
  function Lowercase(s: string): (r: string)
    ensures |r| == |s|
    ensures forall i :: 0 <= i < |s| ==> r[i] == ToLowerAscii(s[i])
  {
    seq(|s|, i requires 0 <= i < |s| => ToLowerAscii(s[i]))
  }

  /** `String.equals(other, ignoreCase = true)` on ASCII letters. */
  predicate EqualsIgnoreCase(a: string, b: string) {
    Lowercase(a) == Lowercase(b)
  }

  // --------------------------------------------------------- line reading

  function StripCarriageReturn(line: string): string {
    if line != [] && line[|line| - 1] == '\r' then line[..|line| - 1] else line
  }

  /**
   * Reading a text file line by line: each line ends at `\n` or `\r\n`
   * (the break is not part of the line); text after the last break is a
   * last line of its own.
   */
  function ReadLines(text: string): (lines: seq<string>)
    ensures forall k :: 0 <= k < |lines| ==> '\n' !in lines[k]
    decreases |text|
  {
    if text == [] then []
    else match IndexOf(text, '\n')
      case None => [text]
      case Some(i) =>
        var line := StripCarriageReturn(text[..i]);
        assert forall c :: c in line ==> c in text[..i];
        [line] + ReadLines(text[i + 1..])
  }

  /** A line followed by CRLF. */
  function Terminated(line: string): string {
    line + "\r\n"
  }

  lemma ReadLinesCons(line: string, rest: string)
    requires '\n' !in line
    ensures ReadLines(line + "\r\n" + rest) == [line] + ReadLines(rest)
  {
    var text := line + "\r\n" + rest;
    assert text == (line + "\r") + ['\n'] + rest;
    IndexOfAfterPrefix(line + "\r", '\n', rest);
    assert text[..|line| + 1] == line + "\r";
    assert text[|line| + 2..] == rest;
  }

  /** Lines written one after another, each ended by CRLF, read back as themselves. */
  lemma {:induction false} ReadTerminatedLines(ls: seq<string>)
    requires forall k :: 0 <= k < |ls| ==> '\n' !in ls[k]
    ensures ReadLines(Join(ls, Terminated)) == ls
    decreases |ls|
  {
    if ls != [] {
      JoinFirst(ls, Terminated);
      ReadLinesCons(ls[0], Join(ls[1..], Terminated));
      ReadTerminatedLines(ls[1..]);
      assert ls == [ls[0]] + ls[1..];
    }
  }
}
