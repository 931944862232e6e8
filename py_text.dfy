/** Python's `repr` of a string, which `str(OSError)` uses for the file name,
    and the reading back of that literal. */
module PyText {
  import opened Text

  /** A character `repr` copies as it is, unless it is the chosen quote: no
      backslash, no control character. */
  predicate IsPlain(c: char)
  {
    0x20 <= c as int && c as int != 0x7f && c != '\\'
  }

  predicate IsHexDigit(c: char)
  {
    '0' <= c <= '9' || 'a' <= c <= 'f'
  }

  function HexDigit(d: nat): (c: char)
    requires d < 16
    ensures IsHexDigit(c)
  {
    "0123456789abcdef"[d]
  }

  function HexValue(c: char): (v: nat)
    ensures v < 16
  {
    if '0' <= c <= '9' then (c as int - '0' as int) as nat
    else if 'a' <= c <= 'f' then (c as int - 'a' as int + 10) as nat
    else 0
  }

  /** The quote `repr` picks: a double quote when the text holds a single
      quote and no double quote, a single quote otherwise. */
  function QuoteFor(s: string): char
  {
    if '\'' in s && '"' !in s then '"' else '\''
  }

  /** How one character is written between quotes `q`. */
  function ReprChar(c: char, q: char): string
  {
    if c == '\\' then "\\\\"
    else if c == q then ['\\', q]
    else if c == '\n' then "\\n"
    else if c == '\r' then "\\r"
    else if c == '\t' then "\\t"
    else if c as int < 0x20 || c as int == 0x7f then
      ['\\', 'x', HexDigit(c as int / 16), HexDigit(c as int % 16)]
    else [c]
  }

  function ReprBody(s: string, q: char): string
  {
    if s == [] then [] else ReprChar(s[0], q) + ReprBody(s[1..], q)
  }

  /** `repr(s)`. */
  function PyRepr(s: string): (r: string)
    ensures |r| >= 2 && r[0] == QuoteFor(s) && r[|r| - 1] == QuoteFor(s)
  {
    [QuoteFor(s)] + ReprBody(s, QuoteFor(s)) + [QuoteFor(s)]
  }

  /** Reads the backslash escapes of a string literal's body back. */
  function Unescape(t: string): string
    decreases |t|
  {
    if t == [] then []
    else if t[0] != '\\' || |t| == 1 then [t[0]] + Unescape(t[1..])
    else if t[1] == 'n' then "\n" + Unescape(t[2..])
    else if t[1] == 'r' then "\r" + Unescape(t[2..])
    else if t[1] == 't' then "\t" + Unescape(t[2..])
    else if t[1] == 'x' && |t| >= 4 && IsHexDigit(t[2]) && IsHexDigit(t[3]) then
      [(HexValue(t[2]) * 16 + HexValue(t[3])) as char] + Unescape(t[4..])
    else [t[1]] + Unescape(t[2..])
  }

  /** Reads a quoted literal back: the body between the quotes, unescaped. */
  function PyUnrepr(r: string): string
  {
    if |r| >= 2 then Unescape(r[1..|r| - 1]) else r
  }

  lemma HexRoundTrip(d: nat)
    requires d < 16
    ensures HexValue(HexDigit(d)) == d
  {
  }

  lemma UnescapeReprChar(c: char, q: char, rest: string)
    requires q == '\'' || q == '"'
    ensures Unescape(ReprChar(c, q) + rest) == [c] + Unescape(rest)
  {
    var t := ReprChar(c, q) + rest;
    if c == '\\' || c == q || c == '\n' || c == '\r' || c == '\t' {
      assert t[2..] == rest;
    } else if c as int < 0x20 || c as int == 0x7f {
      var n := c as int;
      HexRoundTrip(n / 16);
      HexRoundTrip(n % 16);
      assert t[2] == HexDigit(n / 16) && t[3] == HexDigit(n % 16);
      assert t[4..] == rest;
      assert (n / 16) * 16 + n % 16 == n;
    } else {
      assert t[1..] == rest;
    }
  }

  lemma {:induction false} UnescapeReprBody(s: string, q: char)
    requires q == '\'' || q == '"'
    ensures Unescape(ReprBody(s, q)) == s
  {
    if s != [] {
      UnescapeReprChar(s[0], q, ReprBody(s[1..], q));
      UnescapeReprBody(s[1..], q);
      assert s == [s[0]] + s[1..];
    }
  }

  /** Reading the literal back gives the text: `repr` loses nothing. */
  lemma PyReprRoundTrip(s: string)
    ensures PyUnrepr(PyRepr(s)) == s
  {
    var r := PyRepr(s);
    assert r[1..|r| - 1] == ReprBody(s, QuoteFor(s));
    UnescapeReprBody(s, QuoteFor(s));
  }

  lemma {:induction false} ReprBodyPlain(s: string, q: char)
    requires forall k :: 0 <= k < |s| ==> IsPlain(s[k]) && s[k] != q
    ensures ReprBody(s, q) == s
  {
    if s != [] {
      ReprBodyPlain(s[1..], q);
      assert s == [s[0]] + s[1..];
    }
  }

  /** A text with no backslash and no control character is quoted as it is:
      in single quotes, or in double quotes when it holds a single quote but
      no double quote. */
  lemma PyReprPlain(s: string)
    requires forall k :: 0 <= k < |s| ==> IsPlain(s[k])
    ensures '\'' !in s ==> PyRepr(s) == "'" + s + "'"
    ensures '\'' in s && '"' !in s ==> PyRepr(s) == "\"" + s + "\""
  {
    if '\'' !in s || '"' !in s {
      ReprBodyPlain(s, QuoteFor(s));
    }
  }

  /** Concatenations of plain texts are plain. */
  lemma PlainConcat(a: string, b: string)
    requires forall k :: 0 <= k < |a| ==> IsPlain(a[k])
    requires forall k :: 0 <= k < |b| ==> IsPlain(b[k])
    ensures forall k :: 0 <= k < |a + b| ==> IsPlain((a + b)[k])
  {
    forall k | 0 <= k < |a + b|
      ensures IsPlain((a + b)[k])
    {
      if k >= |a| { assert (a + b)[k] == b[k - |a|]; }
    }
  }

  /** With both quotes present, the single quotes are escaped. */
  lemma PyReprBothQuotes()
    ensures PyRepr("a'b\"") == "'a\\'b\"'"
  {
  }

  /** Backslashes are doubled and a newline is written `\n`. */
  lemma PyReprEscapes()
    ensures PyRepr("a\\b\n") == "'a\\\\b\\n'"
  {
  }

  /** Other control characters are written in hexadecimal. */
  lemma PyReprHexEscape()
    ensures PyRepr([0x01 as char]) == "'\\x01'"
  {
    assert HexDigit(0) == '0' && HexDigit(1) == '1';
    assert ReprBody([0x01 as char], '\'') == ReprChar(0x01 as char, '\'');
  }
}
