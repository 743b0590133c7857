/** Go's `%q` verb on a string (strconv.Quote), and its inverse. Characters in
    the ASCII range are escaped exactly as Go escapes them; characters from
    0x80 up are kept as they are. */
module GoQuote {
  import opened Results

  function HexDigit(v: int): (c: char)
    requires 0 <= v < 16
    ensures IsHexDigit(c) && HexValue(c) == v
  {
    if v < 10 then ('0' as int + v) as char else ('a' as int + v - 10) as char
  }

  predicate IsHexDigit(c: char) {
    '0' <= c <= '9' || 'a' <= c <= 'f' || 'A' <= c <= 'F'
  }

  function HexValue(c: char): (v: int)
    requires IsHexDigit(c)
    ensures 0 <= v < 16
  {
    if '0' <= c <= '9' then c as int - '0' as int
    else if 'a' <= c <= 'f' then c as int - 'a' as int + 10
    else c as int - 'A' as int + 10
  }

  /** The one-letter escapes `\a \b \f \n \r \t \v`, by character code. */
  function LetterEscape(code: int): Option<char> {
    if code == 0x07 then Some('a')
    else if code == 0x08 then Some('b')
    else if code == 0x0C then Some('f')
    else if code == 0x0A then Some('n')
    else if code == 0x0D then Some('r')
    else if code == 0x09 then Some('t')
    else if code == 0x0B then Some('v')
    else None
  }

  /** The inverse of LetterEscape. */
  function LetterCode(l: char): Option<int> {
    if l == 'a' then Some(0x07)
    else if l == 'b' then Some(0x08)
    else if l == 'f' then Some(0x0C)
    else if l == 'n' then Some(0x0A)
    else if l == 'r' then Some(0x0D)
    else if l == 't' then Some(0x09)
    else if l == 'v' then Some(0x0B)
    else None
  }

  /** How strconv.Quote writes one character inside the quotes. */
  function EscapeChar(c: char): (r: string)
    ensures r != [] && '\n' !in r && '\r' !in r
    ensures r[0] == '\\' || (r == [c] && c != '"')
  {
    var code := c as int;
    if c == '"' || c == '\\' then ['\\', c]
    else if LetterEscape(code).Some? then ['\\', LetterEscape(code).value]
    else if code < 0x20 || code == 0x7F then ['\\', 'x', HexDigit(code / 16), HexDigit(code % 16)]
    else [c]
  }

  function Escape(s: string): (r: string)
    ensures '\n' !in r && '\r' !in r
  {
    if s == [] then [] else EscapeChar(s[0]) + Escape(s[1..])
  }

  /** fmt's `%q` on a string: the contents escaped, between double quotes. */
  function Quote(s: string): (r: string)
    ensures |r| >= 2 && r[0] == '"' && r[|r| - 1] == '"'
    ensures '\n' !in r && '\r' !in r
  {
    "\"" + Escape(s) + "\""
  }

  /** Reads back the escapes that Escape writes; None on anything else,
      including an unescaped double quote. */
  function Unescape(s: string): Option<string>
    decreases |s|
  {
    if s == [] then Some([])
    else if s[0] == '"' then None
    else if s[0] != '\\' then Prepend([s[0]], Unescape(s[1..]))
    else if |s| >= 2 && (s[1] == '"' || s[1] == '\\') then Prepend([s[1]], Unescape(s[2..]))
    else if |s| >= 2 && LetterCode(s[1]).Some? then
      Prepend([LetterCode(s[1]).value as char], Unescape(s[2..]))
    else if |s| >= 4 && s[1] == 'x' && IsHexDigit(s[2]) && IsHexDigit(s[3]) then
      Prepend([(HexValue(s[2]) * 16 + HexValue(s[3])) as char], Unescape(s[4..]))
    else None
  }

  function Prepend(p: string, r: Option<string>): Option<string> {
    if r.Some? then Some(p + r.value) else None
  }

  /** strconv.Unquote, restricted to double-quoted strings. */
  function Unquote(q: string): Option<string> {
    if |q| >= 2 && q[0] == '"' && q[|q| - 1] == '"' then Unescape(q[1..|q| - 1]) else None
  }

  lemma UnescapeChar(c: char, rest: string)
    ensures Unescape(EscapeChar(c) + rest) == Prepend([c], Unescape(rest))
  {
    var e := EscapeChar(c);
    var code := c as int;
    if c == '"' || c == '\\' {
      assert (e + rest)[2..] == rest;
    } else if LetterEscape(code).Some? {
      assert (e + rest)[2..] == rest;
    } else if code < 0x20 || code == 0x7F {
      assert (e + rest)[4..] == rest;
      assert (HexValue(e[2]) * 16 + HexValue(e[3])) == code;
    } else {
      assert (e + rest)[1..] == rest;
    }
  }

  lemma {:induction false} UnescapeEscape(s: string)
    ensures Unescape(Escape(s)) == Some(s)
  {
    if s != [] {
      UnescapeChar(s[0], Escape(s[1..]));
      UnescapeEscape(s[1..]);
      assert [s[0]] + s[1..] == s;
    }
  }

  /** Unquoting what `%q` wrote gives back the string. */
  lemma UnquoteQuote(s: string)
    ensures Unquote(Quote(s)) == Some(s)
  {
    var q := Quote(s);
    assert q[1..|q| - 1] == Escape(s);
    UnescapeEscape(s);
  }
}
