/**
 The curl transport (src/curl_http.rs): values quoted into curl's configuration file, and
 the status line appended to the response body. Bytes are written as characters.
 */
module CurlHttp {
  import opened Basics
  import opened Text

  // ----- Quoting

  function ConfigValue(value: string): string {
    Replace(Replace(Replace(Replace(value, '\\', "\\\\"), '"', "\\\""), '\r', "\\r"), '\n', "\\n")
  }

  /** The one-pass escape the four replacements amount to. */
  function EscapeChar(c: char): string {
    if c == '\\' then "\\\\" else if c == '"' then "\\\"" else if c == '\r' then "\\r" else if c == '\n' then "\\n" else [c]
  }

  function Escape(s: string): string {
    if s == [] then [] else EscapeChar(s[0]) + Escape(s[1..])
  }

  /** How curl reads a quoted parameter: up to the first bare quote, a backslash giving the
      next character, with t, n, r and v standing for control characters. */
  function Unquote(s: string): (string, string) {
    if s == [] || s[0] == '"' then ([], s)
    else if s[0] == '\\' && |s| > 1 then
      var (value, rest) := Unquote(s[2..]);
      ([Control(s[1])] + value, rest)
    else if s[0] == '\\' then ([], [])
    else
      var (value, rest) := Unquote(s[1..]);
      ([s[0]] + value, rest)
  }

  function Control(c: char): char {
    if c == 't' then '\t' else if c == 'n' then '\n' else if c == 'r' then '\r' else if c == 'v' then '\U{B}' else c
  }

  lemma {:induction false} ReplaceCons(x: char, s: string, c: char, replacement: string)
    ensures Replace([x] + s, c, replacement) == ReplaceChar(x, c, replacement) + Replace(s, c, replacement)
  {
    assert ([x] + s)[1..] == s;
  }

  lemma {:induction false} ReplaceConcat(a: string, b: string, c: char, replacement: string)
    ensures Replace(a + b, c, replacement) == Replace(a, c, replacement) + Replace(b, c, replacement)
  {
    if a == [] {
      assert a + b == b;
    } else {
      var x, tail := a[0], a[1..];
      ReplaceConcat(tail, b, c, replacement);
      ReplaceCons(x, tail + b, c, replacement);
      assert a + b == [x] + (tail + b);
      Associative(ReplaceChar(x, c, replacement), Replace(tail, c, replacement), Replace(b, c, replacement));
    }
  }

  lemma ReplaceOne(x: char, c: char, replacement: string)
    ensures Replace([x], c, replacement) == ReplaceChar(x, c, replacement)
  {
    assert [x][1..] == [];
    assert ReplaceChar(x, c, replacement) + [] == ReplaceChar(x, c, replacement);
  }

  /** Two characters are replaced one by one. */
  lemma ReplacePair(x: char, y: char, c: char, replacement: string)
    ensures Replace([x, y], c, replacement) == ReplaceChar(x, c, replacement) + ReplaceChar(y, c, replacement)
  {
    assert [x, y][1..] == [y];
    ReplaceOne(y, c, replacement);
  }

  /** A pair without the character is left alone. */
  lemma ReplacePairSame(x: char, y: char, c: char, replacement: string)
    requires x != c && y != c
    ensures Replace([x, y], c, replacement) == [x, y]
  {
    ReplacePair(x, y, c, replacement);
  }

  lemma ConfigChar(c: char)
    ensures ConfigValue([c]) == EscapeChar(c)
  {
    ReplaceOne(c, '\\', "\\\\");
    if c == '\\' {
      ReplacePairSame('\\', '\\', '"', "\\\"");
      ReplacePairSame('\\', '\\', '\r', "\\r");
      ReplacePairSame('\\', '\\', '\n', "\\n");
    } else {
      ReplaceOne(c, '"', "\\\"");
      if c == '"' {
        ReplacePairSame('\\', '"', '\r', "\\r");
        ReplacePairSame('\\', '"', '\n', "\\n");
      } else {
        ReplaceOne(c, '\r', "\\r");
        ReplaceOne(c, '\n', "\\n");
        ReplacePairSame('\\', 'r', '\n', "\\n");
      }
    }
  }

  lemma ConfigConcat(a: string, b: string)
    ensures ConfigValue(a + b) == ConfigValue(a) + ConfigValue(b)
  {
    ReplaceConcat(a, b, '\\', "\\\\");
    var a1, b1 := Replace(a, '\\', "\\\\"), Replace(b, '\\', "\\\\");
    ReplaceConcat(a1, b1, '"', "\\\"");
    var a2, b2 := Replace(a1, '"', "\\\""), Replace(b1, '"', "\\\"");
    ReplaceConcat(a2, b2, '\r', "\\r");
    ReplaceConcat(Replace(a2, '\r', "\\r"), Replace(b2, '\r', "\\r"), '\n', "\\n");
  }

  /** The chained replacements equal one pass over the characters. */
  lemma {:induction false} ConfigValueIsEscape(s: string)
    ensures ConfigValue(s) == Escape(s)
  {
    if s != [] {
      ConfigValueIsEscape(s[1..]);
      ConfigConcat([s[0]], s[1..]);
      ConfigChar(s[0]);
      assert s == [s[0]] + s[1..];
    }
  }

  /** One escaped character reads back as that character. */
  lemma UnquoteChar(c: char, tail: string)
    ensures Unquote(EscapeChar(c) + tail) == ([c] + Unquote(tail).0, Unquote(tail).1)
  {
    var s := EscapeChar(c) + tail;
    if |EscapeChar(c)| == 2 {
      assert s[0] == '\\' && s[1] == EscapeChar(c)[1] && s[2..] == tail;
      assert Control(s[1]) == c;
    } else {
      assert s[0] == c && s[1..] == tail;
    }
  }

  lemma {:induction false} UnquoteEscape(s: string, rest: string)
    ensures Unquote(Escape(s) + ("\"" + rest)) == (s, "\"" + rest)
  {
    if s == [] {
      assert Escape(s) + ("\"" + rest) == "\"" + rest;
    } else {
      UnquoteEscape(s[1..], rest);
      Associative(EscapeChar(s[0]), Escape(s[1..]), "\"" + rest);
      UnquoteChar(s[0], Escape(s[1..]) + ("\"" + rest));
      assert s == [s[0]] + s[1..];
    }
  }

  /** Whatever value is quoted, curl reads exactly that value and stops at the closing quote:
      no value can end its parameter early or start another directive. */
  lemma QuotedValueReadsBack(value: string, rest: string)
    ensures Unquote(ConfigValue(value) + ("\"" + rest)) == (value, "\"" + rest)
    ensures '\n' !in ConfigValue(value) && '\r' !in ConfigValue(value)
  {
    ConfigValueIsEscape(value);
    UnquoteEscape(value, rest);
    EscapeOneLine(value);
  }

  lemma {:induction false} EscapeOneLine(s: string)
    ensures '\n' !in Escape(s) && '\r' !in Escape(s)
  {
    if s != [] {
      EscapeOneLine(s[1..]);
    }
  }

  // ----- Framing

  const STATUS_MARKER := "__GAH_HTTP_STATUS__:"

  predicate MarkerAt(s: string, i: nat) {
    i + |STATUS_MARKER| <= |s| && s[i..i + |STATUS_MARKER|] == STATUS_MARKER
  }

  /** `u16::from_str`: digits with an optional plus sign, within 16 bits. */
  function ParseU16(s: string): Option<nat> {
    var digits := if s != [] && s[0] == '+' then s[1..] else s;
    if digits == [] || !AllDigits(digits) || DigitsValue(digits) > 0xFFFF then None else Some(DigitsValue(digits))
  }

  datatype Response = Response(status: nat, body: string)

  method SplitStatus(stdout: string) returns (r: Result<Response>)
    ensures (forall i :: 0 <= i < |stdout| ==> !MarkerAt(stdout, i)) ==> r.Err?
    ensures forall i :: 0 <= i < |stdout| && MarkerAt(stdout, i) && (forall j :: i < j < |stdout| ==> !MarkerAt(stdout, j)) ==>
                          r == SplitAt(stdout, i)
  {
    var found := LastMarker(stdout);
    if found.None? {
      return Err("curl output missing status marker");
    }
    var marker := found.value;
    var status := ParseU16(Trim(stdout[marker + |STATUS_MARKER|..]));
    if status.None? {
      return Err("parsing HTTP status from curl output");
    }
    var body := stdout[..marker];
    if body != [] && Last(body) == '\n' {
      body := body[..|body| - 1];
    }
    return Ok(Response(status.value, body));
  }

  /** Search from the end for the marker. */
  method LastMarker(stdout: string) returns (at: Option<nat>)
    ensures at.None? ==> forall j :: 0 <= j < |stdout| ==> !MarkerAt(stdout, j)
    ensures at.Some? ==> at.value < |stdout| && MarkerAt(stdout, at.value)
                         && forall j :: at.value < j < |stdout| ==> !MarkerAt(stdout, j)
  {
    var i := |stdout|;
    while i > 0
      invariant 0 <= i <= |stdout|
      invariant forall j :: i <= j < |stdout| ==> !MarkerAt(stdout, j)
    {
      i := i - 1;
      if MarkerAt(stdout, i) {
        return Some(i);
      }
    }
    return None;
  }

  function DropNewline(s: string): string {
    if s != [] && Last(s) == '\n' then s[..|s| - 1] else s
  }

  /** The answer when the last marker stands at `i`. */
  function SplitAt(stdout: string, i: nat): Result<Response>
    requires MarkerAt(stdout, i)
  {
    match ParseU16(Trim(stdout[i + |STATUS_MARKER|..]))
    case None => Err("parsing HTTP status from curl output")
    case Some(status) => Ok(Response(status, DropNewline(stdout[..i])))
  }

  /** What curl writes: the body, then its write-out line. */
  function Framed(body: string, digits: string): string {
    body + ("\n" + ("__GAH_HTTP_STATUS__:" + (digits + "\n")))
  }

  lemma FramedParts(body: string, digits: string)
    ensures var out, at := Framed(body, digits), |body| + 1;
            && MarkerAt(out, at)
            && out[..at] == body + "\n"
            && out[at + |STATUS_MARKER|..] == digits + "\n"
  {
    var out, at := Framed(body, digits), |body| + 1;
    var tail := STATUS_MARKER + (digits + "\n");
    assert out == (body + "\n") + tail;
    assert out[at..] == tail;
    assert out[at..at + |STATUS_MARKER|] == tail[..|STATUS_MARKER|] == STATUS_MARKER;
    assert tail[|STATUS_MARKER|..] == digits + "\n";
  }

  /** No later marker: it would have to end in a colon after the last colon. */
  lemma NoLaterMarker(body: string, digits: string, j: nat)
    requires AllDigits(digits) && |body| + 1 < j < |Framed(body, digits)|
    ensures !MarkerAt(Framed(body, digits), j)
  {
    var out, at, m := Framed(body, digits), |body| + 1, |STATUS_MARKER|;
    FramedParts(body, digits);
    assert STATUS_MARKER[m - 1] == ':';
    if j + m <= |out| {
      var k := j + m - 1 - (at + m);
      assert out[at + m..][k] == out[j + m - 1];
      assert (digits + "\n")[k] != ':';
      assert out[j..j + m][m - 1] == out[j + m - 1];
    }
  }

  lemma TrimDigits(digits: string)
    requires AllDigits(digits) && digits != []
    ensures Trim(digits + "\n") == digits
  {
    var s := digits + "\n";
    assert IsDigit(s[0]) && TrimStart(s) == s;
    assert Last(s) == '\n' && s[..|s| - 1] == digits;
    assert IsDigit(Last(digits)) && TrimEnd(digits) == digits;
  }

  /** For every body, including one that contains the marker or ends in newlines, and every
      status text within 16 bits, leading zeros included, splitting what curl writes returns
      that status and body. */
  lemma DigitsRoundTrip(body: string, digits: string)
    requires digits != [] && AllDigits(digits) && DigitsValue(digits) <= 0xFFFF
    ensures var out, at := Framed(body, digits), |body| + 1;
            && MarkerAt(out, at) && (forall j :: at < j < |out| ==> !MarkerAt(out, j))
            && SplitAt(out, at) == Ok(Response(DigitsValue(digits), body))
  {
    var out, at := Framed(body, digits), |body| + 1;
    FramedParts(body, digits);
    forall j | at < j < |out|
      ensures !MarkerAt(out, j)
    {
      NoLaterMarker(body, digits, j);
    }
    TrimDigits(digits);
    assert IsDigit(digits[0]);
    assert Last(body + "\n") == '\n' && (body + "\n")[..|body|] == body;
  }

  /** Every 16-bit status number, written in decimal, comes back with its body. */
  lemma FramingRoundTrip(body: string, status: nat)
    requires status <= 0xFFFF
    ensures var out, at := Framed(body, Decimal(status)), |body| + 1;
            && MarkerAt(out, at) && (forall j :: at < j < |out| ==> !MarkerAt(out, j))
            && SplitAt(out, at) == Ok(Response(status, body))
  {
    DecimalValue(status);
    DigitsRoundTrip(body, Decimal(status));
  }

  /** The same through the code. */
  method SplitFramed(body: string, status: nat) returns (r: Result<Response>)
    requires status <= 0xFFFF
    ensures r == Ok(Response(status, body))
  {
    r := SplitStatus(Framed(body, Decimal(status)));
    FramingRoundTrip(body, status);
  }

  // ----- When there is no answer

  /** A status is read iff the text is digits, with at most one plus sign before them, that count to
      less than 65536. */
  lemma StatusIff(text: string, n: nat)
    ensures ParseU16(text) == Some(n)
            <==> exists digits :: (text == digits || text == "+" + digits) && digits != [] && AllDigits(digits)
                                  && DigitsValue(digits) == n && n < 65536
  {
    if ParseU16(text) == Some(n) {
      var digits := if text != [] && text[0] == '+' then text[1..] else text;
      assert text == digits || text == "+" + digits;
    }
    if digits :| (text == digits || text == "+" + digits) && digits != [] && AllDigits(digits)
                 && DigitsValue(digits) == n && n < 65536 {
      assert IsDigit(digits[0]);
      assert text == "+" + digits ==> text[1..] == digits;
    }
  }

  /** Without a marker, or with something else than a status after the last one, there is no
      answer. Otherwise the body is what stands before it, less one newline. */
  method AnswerIff(stdout: string, at: nat) returns (r: Result<Response>)
    requires MarkerAt(stdout, at) && forall j :: at < j < |stdout| ==> !MarkerAt(stdout, j)
    ensures var text, before := Trim(stdout[at + |STATUS_MARKER|..]), stdout[..at];
            match ParseU16(text)
            case None => r.Err?
            case Some(n) =>
              r == Ok(Response(n, if before != [] && Last(before) == '\n' then before[..at - 1] else before))
  {
    r := SplitStatus(stdout);
  }
}
