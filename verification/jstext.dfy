/**
 * The parts of JavaScript's string semantics the extension relies on:
 * `String.prototype.trim`, `String.prototype.slice` with non-negative
 * offsets, and the decimal rendering of a non-negative integer in a
 * template literal.  Strings are sequences of characters.
 */
module JsText {
  import opened Wrappers

  /** A string that may be `undefined` is truthy: present and not the empty
      string.  This is what `!x` and `x || fallback` test. */
  predicate Truthy(s: Option<string>) {
    s.Some? && s.value != ""
  }

  /** The LineTerminator code points of ECMAScript. */
  predicate IsLineTerminator(c: char) {
    c == '\n' || c == '\r' || c == '\U{2028}' || c == '\U{2029}'
  }

  /** WhiteSpace or LineTerminator: exactly what `trim` removes. */
  predicate IsSpace(c: char) {
    || IsLineTerminator(c)
    || c == '\t' || c == '\U{000B}' || c == '\U{000C}' || c == ' '
    || c == '\U{00A0}' || c == '\U{FEFF}' || c == '\U{1680}'
    || ('\U{2000}' <= c <= '\U{200A}')
    || c == '\U{202F}' || c == '\U{205F}' || c == '\U{3000}'
  }

  /** A string that `trim` turns into the empty, falsy string. */
  predicate IsBlank(s: string) {
    forall i :: 0 <= i < |s| ==> IsSpace(s[i])
  }

  /** The number of white-space characters `trim` drops at the front. */
  function Leading(s: string): (n: nat)
    ensures n <= |s|
    ensures forall i :: 0 <= i < n ==> IsSpace(s[i])
    ensures n < |s| ==> !IsSpace(s[n])
  {
    if s == [] || !IsSpace(s[0]) then 0 else 1 + Leading(s[1..])
  }

  /** The number of white-space characters `trim` drops at the back. */
  function Trailing(s: string): (n: nat)
    ensures n <= |s|
    ensures forall i :: |s| - n <= i < |s| ==> IsSpace(s[i])
    ensures n < |s| ==> !IsSpace(s[|s| - 1 - n])
  {
    if s == [] || !IsSpace(s[|s| - 1]) then 0 else 1 + Trailing(s[..|s| - 1])
  }

  /** `s.trim()`: the longest slice of `s` that neither starts nor ends with
      white space, obtained by dropping only white space. */
  function Trim(s: string): (r: string)
    ensures Leading(s) + |r| <= |s|
    ensures r == s[Leading(s)..Leading(s) + |r|]
    ensures IsBlank(s[..Leading(s)]) && IsBlank(s[Leading(s) + |r|..])
    ensures r == [] <==> IsBlank(s)
    ensures r != [] ==> !IsSpace(r[0]) && !IsSpace(r[|r| - 1])
  {
    var t := s[Leading(s)..];
    var r := t[..|t| - Trailing(t)];
    assert r != [] ==> !IsSpace(r[0]) by {
      if r != [] { assert r[0] == s[Leading(s)]; }
    }
    assert IsBlank(s[Leading(s) + |r|..]) by {
      assert s[Leading(s) + |r|..] == t[|t| - Trailing(t)..];
    }
    r
  }

  /** Trimming twice is trimming once. */
  lemma TrimIdempotent(s: string)
    ensures Trim(Trim(s)) == Trim(s)
  {
  }

  function Min(a: nat, b: nat): nat {
    if a <= b then a else b
  }

  /** `s.slice(from, to)` for non-negative offsets: both are clamped to the
      length of `s`, and an empty string results when they cross. */
  function Slice(s: string, from: nat, to: nat): (r: string)
    ensures from <= to <= |s| ==> r == s[from..to]
    ensures to <= from ==> r == []
    ensures |s| <= from ==> r == []
    ensures from <= |s| <= to ==> r == s[from..]
  {
    var a, b := Min(from, |s|), Min(to, |s|);
    if a < b then s[a..b] else []
  }

  predicate IsDigit(c: char) {
    '0' <= c <= '9'
  }

  function DigitChar(d: nat): (c: char)
    requires d < 10
    ensures IsDigit(c)
  {
    (48 + d) as char
  }

  function DigitValue(c: char): nat
    requires IsDigit(c)
  {
    c as int - 48
  }

  /** The decimal rendering of `n` (no sign, no leading zeros), as
      `${n}` produces it in a template literal. */
  function Decimal(n: nat): (r: string)
    ensures r != []
    ensures forall i :: 0 <= i < |r| ==> IsDigit(r[i])
    ensures |r| > 1 ==> r[0] != '0'
  {
    if n < 10 then [DigitChar(n)] else Decimal(n / 10) + [DigitChar(n % 10)]
  }

  /** The number a string of decimal digits denotes. */
  function DecimalValue(s: string): nat
    requires forall i :: 0 <= i < |s| ==> IsDigit(s[i])
  {
    if s == [] then 0 else 10 * DecimalValue(s[..|s| - 1]) + DigitValue(s[|s| - 1])
  }

  /** Reading back the decimal rendering gives the number: the rendering
      loses nothing. */
  lemma {:induction false} DecimalRoundTrip(n: nat)
    ensures DecimalValue(Decimal(n)) == n
  {
    if n >= 10 {
      var r := Decimal(n);
      assert r[..|r| - 1] == Decimal(n / 10);
      DecimalRoundTrip(n / 10);
    }
  }
}
