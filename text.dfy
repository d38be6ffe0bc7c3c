/** String operations shared by the JavaScript and Python parts of the system.
    A string here is a sequence of characters, one per element. Python's `str` matches that
    (one element per code point); a JavaScript string is a sequence of UTF-16 code units, so
    lengths and cuts on the JavaScript side agree with this model only for text without
    characters outside the Basic Multilingual Plane. */
module Text {

  predicate StartsWith(s: string, prefix: string) {
    |prefix| <= |s| && s[..|prefix|] == prefix
  }

  predicate EndsWith(s: string, suffix: string) {
    |suffix| <= |s| && s[|s| - |suffix|..] == suffix
  }

  /** `x` occurs in `s` starting at index `i`. */
  predicate OccursAt(x: string, s: string, i: int) {
    0 <= i && i + |x| <= |s| && s[i..i + |x|] == x
  }

  /** `x` occurs as a contiguous piece of `s`. */
  predicate IsInfix(x: string, s: string) {
    exists i | 0 <= i <= |s| :: OccursAt(x, s, i)
  }

  lemma InfixOfConcat(a: string, x: string, b: string)
    ensures IsInfix(x, a + x + b)
  {
    assert OccursAt(x, a + x + b, |a|);
  }

  // ---------------------------------------------------------------- split / join

  /** `str.join` / `Array.prototype.join`. */
  function Join(parts: seq<string>, sep: string): string {
    if |parts| == 0 then ""
    else if |parts| == 1 then parts[0]
    else parts[0] + sep + Join(parts[1..], sep)
  }

  /** `str.split(sep)` / `String.prototype.split(sep)` for a one-character separator:
      always at least one part, empty parts kept. */
  function Split(s: string, sep: char): (parts: seq<string>)
    ensures |parts| >= 1
  {
    if s == [] then [""]
    else
      var rest := Split(s[1..], sep);
      if s[0] == sep then [""] + rest else [[s[0]] + rest[0]] + rest[1..]
  }

  lemma {:induction false} SplitPartsOmitSeparator(s: string, sep: char)
    ensures forall k :: 0 <= k < |Split(s, sep)| ==> sep !in Split(s, sep)[k]
  {
    if s != [] {
      SplitPartsOmitSeparator(s[1..], sep);
    }
  }

  /** Splitting loses nothing: joining the parts back gives the input. */
  lemma {:induction false} JoinSplit(s: string, sep: char)
    ensures Join(Split(s, sep), [sep]) == s
  {
    if s != [] {
      JoinSplit(s[1..], sep);
      var rest := Split(s[1..], sep);
      if s[0] == sep {
        assert Split(s, sep) == [""] + rest;
        assert ([""] + rest)[1..] == rest;
      } else if |rest| > 1 {
        var parts := Split(s, sep);
        assert parts[1..] == rest[1..];
        assert Join(rest, [sep]) == rest[0] + [sep] + Join(rest[1..], [sep]);
        assert s == [s[0]] + s[1..];
      } else {
        assert s == [s[0]] + s[1..];
      }
    }
  }

  lemma {:induction false} SplitPrefix(a: string, b: string, sep: char)
    requires sep !in a
    ensures Split(a + [sep] + b, sep) == [a] + Split(b, sep)
  {
    if a == [] {
      assert (a + [sep] + b)[1..] == b;
    } else {
      var s := a + [sep] + b;
      assert s[1..] == a[1..] + [sep] + b;
      SplitPrefix(a[1..], b, sep);
      assert [a[0]] + a[1..] == a;
    }
  }

  lemma {:induction false} SplitWithout(a: string, sep: char)
    requires sep !in a
    ensures Split(a, sep) == [a]
  {
    if a != [] {
      SplitWithout(a[1..], sep);
      assert [a[0]] + a[1..] == a;
    }
  }

  /** Lines joined by the separator and followed by more text split back into those lines,
      then the parts of the rest. */
  lemma {:induction false} SplitJoinPrefix(parts: seq<string>, b: string, sep: char)
    requires |parts| >= 1 && forall k :: 0 <= k < |parts| ==> sep !in parts[k]
    ensures Split(Join(parts, [sep]) + [sep] + b, sep) == parts + Split(b, sep)
  {
    if |parts| == 1 {
      SplitPrefix(parts[0], b, sep);
    } else {
      var rest := parts[1..];
      SplitJoinPrefix(rest, b, sep);
      assert Join(parts, [sep]) + [sep] + b == parts[0] + [sep] + (Join(rest, [sep]) + [sep] + b);
      SplitPrefix(parts[0], Join(rest, [sep]) + [sep] + b, sep);
      assert parts == [parts[0]] + rest;
    }
  }

  // ---------------------------------------------------------------- whitespace trimming

  function TrimStart(s: string, isSpace: char -> bool): (r: string)
    ensures |r| <= |s| && r == s[|s| - |r|..]
    ensures r == [] || !isSpace(r[0])
    ensures forall k :: 0 <= k < |s| - |r| ==> isSpace(s[k])
  {
    if s != [] && isSpace(s[0]) then TrimStart(s[1..], isSpace) else s
  }

  function TrimEnd(s: string, isSpace: char -> bool): (r: string)
    ensures |r| <= |s| && r == s[..|r|]
    ensures r == [] || !isSpace(r[|r| - 1])
    ensures forall k :: |r| <= k < |s| ==> isSpace(s[k])
  {
    if s != [] && isSpace(s[|s| - 1]) then TrimEnd(s[..|s| - 1], isSpace) else s
  }

  function Trim(s: string, isSpace: char -> bool): (r: string)
    ensures |r| <= |s|
    ensures r != [] ==> !isSpace(r[0]) && !isSpace(r[|r| - 1])
    ensures IsInfix(r, s)
  {
    var t := TrimStart(s, isSpace);
    var r := TrimEnd(t, isSpace);
    assert s[|s| - |t|..][..|r|] == r;
    assert OccursAt(r, s, |s| - |t|);
    r
  }

  /** The characters `String.prototype.trim` removes: WhiteSpace and LineTerminator of ECMAScript. */
  predicate IsJsSpace(c: char) {
    c == '\t' || c == '\n' || c == '\U{B}' || c == '\U{C}' || c == '\r' || c == ' '
    || c == '\U{A0}' || c == '\U{1680}' || ('\U{2000}' <= c <= '\U{200A}')
    || c == '\U{2028}' || c == '\U{2029}' || c == '\U{202F}' || c == '\U{205F}'
    || c == '\U{3000}' || c == '\U{FEFF}'
  }

  /** The characters `str.strip()` removes: those for which `str.isspace()` holds. */
  predicate IsPySpace(c: char) {
    ('\t' <= c <= '\r') || ('\U{1C}' <= c <= '\U{1F}') || c == ' '
    || c == '\U{85}' || c == '\U{A0}' || c == '\U{1680}' || ('\U{2000}' <= c <= '\U{200A}')
    || c == '\U{2028}' || c == '\U{2029}' || c == '\U{202F}' || c == '\U{205F}'
    || c == '\U{3000}'
  }

  // ---------------------------------------------------------------- searching, case, replacement

  /** `lastIndexOf` for one character: -1 when absent. */
  function LastIndexOf(s: string, c: char): (r: int)
    ensures -1 <= r < |s|
    ensures r >= 0 ==> s[r] == c
    ensures forall k :: r < k < |s| ==> s[k] != c
  {
    if s == [] then -1
    else if s[|s| - 1] == c then |s| - 1
    else LastIndexOf(s[..|s| - 1], c)
  }

  function IndexOf(s: string, c: char): (r: int)
    ensures -1 <= r < |s|
    ensures r >= 0 ==> s[r] == c
    ensures forall k :: 0 <= k < |s| && (r < 0 || k < r) ==> s[k] != c
  {
    if s == [] then -1
    else if s[0] == c then 0
    else var r := IndexOf(s[1..], c); if r < 0 then -1 else r + 1
  }

  function AsciiLowerChar(c: char): char {
    if 'A' <= c <= 'Z' then (c as int + 32) as char else c
  }

  /** `toLowerCase` / `lower()` restricted to ASCII letters. */
  function AsciiLower(s: string): (r: string)
    ensures |r| == |s| && forall k :: 0 <= k < |s| ==> r[k] == AsciiLowerChar(s[k])
  {
    if s == [] then [] else [AsciiLowerChar(s[0])] + AsciiLower(s[1..])
  }

  /** `s.replace(c, t)` for one-character `c` and `t`: every occurrence is replaced. */
  function ReplaceChar(s: string, c: char, t: char): (r: string)
    ensures |r| == |s|
    ensures forall k :: 0 <= k < |s| ==> r[k] == (if s[k] == c then t else s[k])
  {
    if s == [] then [] else [if s[0] == c then t else s[0]] + ReplaceChar(s[1..], c, t)
  }

  /** Python's `s.replace(pat, '')`: the leftmost non-overlapping occurrences are deleted. */
  function RemoveAll(s: string, pat: string): (r: string)
    requires |pat| > 0
    ensures |r| <= |s|
    decreases |s|
  {
    if |s| < |pat| then s
    else if s[..|pat|] == pat then RemoveAll(s[|pat|..], pat)
    else [s[0]] + RemoveAll(s[1..], pat)
  }

  /** A string ending in `pat`, with no other occurrence starting before it, loses exactly that suffix. */
  lemma {:induction false} RemoveAllTrailing(b: string, pat: string)
    requires |pat| > 0
    requires forall i :: 0 <= i < |b| ==> !StartsWith((b + pat)[i..], pat)
    ensures RemoveAll(b + pat, pat) == b
  {
    var s := b + pat;
    if b == [] {
      assert s == pat;
      assert s[|pat|..] == [];
    } else {
      assert s[0..] == s;
      assert !StartsWith(s, pat);
      assert s[1..] == b[1..] + pat;
      forall i | 0 <= i < |b[1..]|
        ensures !StartsWith((b[1..] + pat)[i..], pat)
      {
        assert (b[1..] + pat)[i..] == s[i + 1..];
      }
      RemoveAllTrailing(b[1..], pat);
      assert [b[0]] + b[1..] == b;
    }
  }

  lemma {:induction false} RemoveAllAbsent(s: string, pat: string)
    requires |pat| > 0
    requires !IsInfix(pat, s)
    ensures RemoveAll(s, pat) == s
  {
    if |s| >= |pat| {
      assert !OccursAt(pat, s, 0);
      assert !IsInfix(pat, s[1..]) by {
        if IsInfix(pat, s[1..]) {
          var i :| 0 <= i <= |s[1..]| && OccursAt(pat, s[1..], i);
          assert s[1..][i..i + |pat|] == s[i + 1..i + 1 + |pat|];
          assert OccursAt(pat, s, i + 1);
        }
      }
      RemoveAllAbsent(s[1..], pat);
      assert [s[0]] + s[1..] == s;
    }
  }

  // ---------------------------------------------------------------- decimal numbers

  predicate IsDigit(c: char) { '0' <= c <= '9' }

  function DigitChar(d: nat): (c: char)
    requires d < 10
    ensures IsDigit(c)
  {
    ('0' as int + d) as char
  }

  function DigitValue(c: char): (d: nat)
    requires IsDigit(c)
    ensures d < 10
  {
    c as int - '0' as int
  }

  /** The decimal text of a non-negative integer, as `String(n)` / `str(n)` writes it. */
  function NatToString(n: nat): (s: string)
    ensures |s| >= 1
    ensures forall k :: 0 <= k < |s| ==> IsDigit(s[k])
  {
    if n < 10 then [DigitChar(n)] else NatToString(n / 10) + [DigitChar(n % 10)]
  }

  function ParseDigits(s: string): nat
    requires forall k :: 0 <= k < |s| ==> IsDigit(s[k])
  {
    if s == [] then 0 else 10 * ParseDigits(s[..|s| - 1]) + DigitValue(s[|s| - 1])
  }

  lemma {:induction false} ParseNatToString(n: nat)
    ensures ParseDigits(NatToString(n)) == n
  {
    if n >= 10 {
      ParseNatToString(n / 10);
      var s := NatToString(n);
      assert s[..|s| - 1] == NatToString(n / 10);
    }
  }

  /** Decimal text never contains the character `c` when `c` is not a digit. */
  lemma NatToStringHasNo(n: nat, c: char)
    requires !IsDigit(c)
    ensures c !in NatToString(n)
  {
  }
}
