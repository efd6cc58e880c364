/** `JSON.stringify` on a string: the string literal of section 7 of RFC 8259, as
    ECMAScript writes it (`"` and `\` escaped, the short escapes for backspace,
    form feed, newline, carriage return and tab, `\u00xx` with lower-case hex for
    the other control characters, everything else as it is), and a decoder that
    reads such a literal back. */
module Json {
  import opened Wrappers

  function HexDigit(d: int): (c: char)
    requires 0 <= d < 16
  {
    if d < 10 then ('0' as int + d) as char else ('a' as int + d - 10) as char
  }

  /** The value of a hexadecimal digit, either case; -1 for any other character. */
  function HexValue(c: char): (v: int)
    ensures -1 <= v < 16
  {
    if '0' <= c <= '9' then c as int - '0' as int
    else if 'a' <= c <= 'f' then c as int - 'a' as int + 10
    else if 'A' <= c <= 'F' then c as int - 'A' as int + 10
    else -1
  }

  lemma HexRoundTrip(d: int)
    requires 0 <= d < 16
    ensures HexValue(HexDigit(d)) == d
  {
  }

  /** The JSON text of one character inside a string literal. */
  function EscapeChar(c: char): (r: string)
    ensures |r| >= 1
  {
    if c == '"' then "\\\""
    else if c == '\\' then "\\\\"
    else if c == '\U{8}' then "\\b"
    else if c == '\U{C}' then "\\f"
    else if c == '\n' then "\\n"
    else if c == '\r' then "\\r"
    else if c == '\t' then "\\t"
    else if (c as int) < 0x20 then "\\u00" + [HexDigit(c as int / 16), HexDigit(c as int % 16)]
    else [c]
  }

  function EscapeBody(s: string): string
  {
    if |s| == 0 then "" else EscapeChar(s[0]) + EscapeBody(s[1..])
  }

  /** `JSON.stringify(s)` for a string `s`. */
  function Quote(s: string): (r: string)
    ensures |r| >= 2 && r[0] == '"' && r[|r| - 1] == '"'
  {
    "\"" + EscapeBody(s) + "\""
  }

  /** Reads a string literal from just after its opening quote up to the first
      unescaped quote, giving the decoded value and what follows the closing
      quote. An unescaped control character, a malformed escape or a missing
      closing quote is an error. Only `\u` escapes outside the surrogate range
      are read. */
  function ReadBody(s: string): Option<(string, string)>
    decreases |s|
  {
    if |s| == 0 then None
    else if s[0] == '"' then Some(("", s[1..]))
    else if s[0] == '\\' then
      if |s| < 2 then None
      else
        var e := s[1];
        if e == 'u' then
          if |s| < 6 then None
          else
            var h0, h1, h2, h3 := HexValue(s[2]), HexValue(s[3]), HexValue(s[4]), HexValue(s[5]);
            if h0 < 0 || h1 < 0 || h2 < 0 || h3 < 0 then None
            else
              var code := ((h0 * 16 + h1) * 16 + h2) * 16 + h3;
              if 0xD800 <= code < 0xE000 then None
              else Prepend(code as char, ReadBody(s[6..]))
        else
          var c := if e == '"' then '"' else if e == '\\' then '\\' else if e == '/' then '/'
                   else if e == 'b' then '\U{8}' else if e == 'f' then '\U{C}' else if e == 'n' then '\n'
                   else if e == 'r' then '\r' else if e == 't' then '\t' else ' ';
          if c == ' ' then None else Prepend(c, ReadBody(s[2..]))
    else if (s[0] as int) < 0x20 then None
    else Prepend(s[0], ReadBody(s[1..]))
  }

  function Prepend(c: char, r: Option<(string, string)>): Option<(string, string)>
  {
    if r.Some? then Some(([c] + r.value.0, r.value.1)) else None
  }

  /** Reads one string literal at the start of `s`: its value and the rest of `s`. */
  function ReadString(s: string): Option<(string, string)>
  {
    if |s| >= 1 && s[0] == '"' then ReadBody(s[1..]) else None
  }

  /** Reads a text that is exactly one string literal. */
  function Unquote(s: string): Option<string>
  {
    var r := ReadString(s);
    if r.Some? && r.value.1 == "" then Some(r.value.0) else None
  }

  /** Reading an escaped character gives the character back and goes on after it. */
  lemma ReadEscapedChar(c: char, t: string)
    ensures ReadBody(EscapeChar(c) + t) == Prepend(c, ReadBody(t))
  {
    var e := EscapeChar(c);
    var s := e + t;
    if c == '"' || c == '\\' || c == '\U{8}' || c == '\U{C}' || c == '\n' || c == '\r' || c == '\t' {
      assert s[0] == '\\' && s[1] == e[1] && s[2..] == t;
    } else if (c as int) < 0x20 {
      var d := c as int;
      HexRoundTrip(d / 16);
      HexRoundTrip(d % 16);
      assert s[0] == '\\' && s[1] == 'u' && s[2] == '0' && s[3] == '0';
      assert s[4] == HexDigit(d / 16) && s[5] == HexDigit(d % 16);
      assert s[6..] == t;
      assert ((0 * 16 + 0) * 16 + d / 16) * 16 + d % 16 == d;
      assert (d as char) == c;
    } else {
      assert s[0] == c && s[1..] == t;
    }
  }

  /** The escaped body followed by the closing quote reads back as the string,
      leaving whatever follows. */
  lemma {:induction false} ReadEscapeBody(s: string, rest: string)
    ensures ReadBody(EscapeBody(s) + "\"" + rest) == Some((s, rest))
    decreases |s|
  {
    if |s| == 0 {
      assert EscapeBody(s) + "\"" + rest == "\"" + rest;
      assert ("\"" + rest)[1..] == rest;
    } else {
      ReadEscapeBody(s[1..], rest);
      var t := EscapeBody(s[1..]) + "\"" + rest;
      assert EscapeBody(s) + "\"" + rest == EscapeChar(s[0]) + t;
      ReadEscapedChar(s[0], t);
      assert [s[0]] + s[1..] == s;
    }
  }

  /** A quoted string at the start of a text reads back as the string, and
      reading stops right after its closing quote. */
  lemma ReadQuote(s: string, rest: string)
    ensures ReadString(Quote(s) + rest) == Some((s, rest))
  {
    var q := Quote(s) + rest;
    assert q[1..] == EscapeBody(s) + "\"" + rest;
    ReadEscapeBody(s, rest);
  }

  /** Reading back a quoted string gives the string. */
  lemma QuoteRoundTrip(s: string)
    ensures Unquote(Quote(s)) == Some(s)
  {
    ReadQuote(s, "");
    assert Quote(s) + "" == Quote(s);
  }

  /** Different strings quote differently. */
  lemma QuoteInjective(s: string, t: string)
    requires Quote(s) == Quote(t)
    ensures s == t
  {
    QuoteRoundTrip(s);
    QuoteRoundTrip(t);
  }
}
