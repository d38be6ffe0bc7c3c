/** `JSON.stringify(row, null, 2)` for a roster row whose values are all strings, and the
    decoding of JSON string escapes that undoes it. */
module Json {
  import Text
  import Records

  const HexDigits: string := "0123456789abcdef"

  /** The escape JSON.stringify writes for one character. */
  function EscapeChar(c: char): (r: string)
    ensures |r| >= 1
    ensures '\n' !in r
  {
    if c == '"' then "\\\""
    else if c == '\\' then "\\\\"
    else if c == '\U{8}' then "\\b"
    else if c == '\t' then "\\t"
    else if c == '\n' then "\\n"
    else if c == '\U{C}' then "\\f"
    else if c == '\r' then "\\r"
    else if c < ' ' then "\\u00" + [HexDigits[c as int / 16], HexDigits[c as int % 16]]
    else [c]
  }

  function Escape(s: string): (r: string)
    ensures '\n' !in r
  {
    if s == [] then [] else EscapeChar(s[0]) + Escape(s[1..])
  }

  /** A quoted JSON string never spans more than one line. */
  function Quote(s: string): (r: string)
    ensures |r| >= 2 && r[0] == '"' && r[|r| - 1] == '"'
    ensures '\n' !in r
  {
    "\"" + Escape(s) + "\""
  }

  function Entry(p: (string, string)): string {
    "  " + Quote(p.0) + ": " + Quote(p.1)
  }

  function Entries(row: Records.Row): (r: seq<string>)
    ensures |r| == |row| && forall k :: 0 <= k < |row| ==> r[k] == Entry(row[k])
  {
    if row == [] then [] else [Entry(row[0])] + Entries(row[1..])
  }

  /** The two-space-indented object text: one line per column, `{}` for an empty row. */
  function Stringify(row: Records.Row): string {
    if row == [] then "{}" else "{\n" + Text.Join(Entries(row), ",\n") + "\n}"
  }

  // ---------------------------------------------------------------- decoding

  function HexValue(c: char): (v: int)
    ensures -1 <= v < 16
  {
    if '0' <= c <= '9' then c as int - '0' as int
    else if 'a' <= c <= 'f' then c as int - 'a' as int + 10
    else if 'A' <= c <= 'F' then c as int - 'A' as int + 10
    else -1
  }

  function SimpleEscape(c: char): (r: int)
    ensures r == -1 || 0 <= r < 128
  {
    if c == '"' then '"' as int
    else if c == '\\' then '\\' as int
    else if c == '/' then '/' as int
    else if c == 'b' then 8
    else if c == 't' then 9
    else if c == 'n' then 10
    else if c == 'f' then 12
    else if c == 'r' then 13
    else -1
  }

  /** The value of four hex digits starting at `s[0]`, or -1. */
  function Hex4(s: string): (v: int)
    requires |s| >= 4
    ensures -1 <= v < 0x1_0000
  {
    if HexValue(s[0]) < 0 || HexValue(s[1]) < 0 || HexValue(s[2]) < 0 || HexValue(s[3]) < 0 then -1
    else ((HexValue(s[0]) * 16 + HexValue(s[1])) * 16 + HexValue(s[2])) * 16 + HexValue(s[3])
  }

  /** The text a JSON string body denotes. */
  function Unescape(s: string): string
    decreases |s|
  {
    if s == [] then []
    else if s[0] == '\\' && |s| >= 2 && SimpleEscape(s[1]) >= 0 then
      [SimpleEscape(s[1]) as char] + Unescape(s[2..])
    else if s[0] == '\\' && |s| >= 6 && s[1] == 'u' && Hex4(s[2..6]) >= 0
            && !(0xD800 <= Hex4(s[2..6]) < 0xE000) then
      [Hex4(s[2..6]) as char] + Unescape(s[6..])
    else [s[0]] + Unescape(s[1..])
  }

  lemma UnescapeChar(c: char, rest: string)
    ensures Unescape(EscapeChar(c) + rest) == [c] + Unescape(rest)
  {
    if c == '"' || c == '\\' || c == '\U{8}' || c == '\t' || c == '\n' || c == '\U{C}' || c == '\r' {
      UnescapeShort(c, rest);
    } else if c < ' ' {
      UnescapeControl(c, rest);
    } else {
      var s := EscapeChar(c) + rest;
      assert s[0] == c && s[1..] == rest;
    }
  }

  /** A two-character escape `\x` decodes to its character. */
  lemma UnescapeShort(c: char, rest: string)
    requires c == '"' || c == '\\' || c == '\U{8}' || c == '\t' || c == '\n' || c == '\U{C}' || c == '\r'
    ensures Unescape(EscapeChar(c) + rest) == [c] + Unescape(rest)
  {
    var s := EscapeChar(c) + rest;
    assert |EscapeChar(c)| == 2 && s[0] == '\\' && SimpleEscape(s[1]) == c as int;
    assert s[2..] == rest;
  }

  /** A `\u00hh` escape of a control character decodes to that character. */
  lemma UnescapeControl(c: char, rest: string)
    requires c < ' ' && c != '\U{8}' && c != '\t' && c != '\n' && c != '\U{C}' && c != '\r'
    ensures Unescape(EscapeChar(c) + rest) == [c] + Unescape(rest)
  {
    var s := EscapeChar(c) + rest;
    var h := c as int / 16;
    var l := c as int % 16;
    assert EscapeChar(c) == "\\u00" + [HexDigits[h], HexDigits[l]];
    assert s[0] == '\\' && s[1] == 'u' && SimpleEscape(s[1]) < 0;
    assert s[2..6] == ['0', '0', HexDigits[h], HexDigits[l]];
    assert HexValue(HexDigits[h]) == h;
    assert HexValue(HexDigits[l]) == l;
    assert Hex4(s[2..6]) == c as int;
    assert s[6..] == rest;
  }

  /** Decoding a string escaped by JSON.stringify gives back the original text. */
  lemma {:induction false} UnescapeEscape(s: string)
    ensures Unescape(Escape(s)) == s
  {
    if s != [] {
      UnescapeChar(s[0], Escape(s[1..]));
      UnescapeEscape(s[1..]);
      assert [s[0]] + s[1..] == s;
    }
  }
}
