// Shared value types and character/string helpers used by every part of the model.

module Wrappers {

  /** A value that may be absent (the source's `null` / `undefined`). */
  datatype Option<+T> = None | Some(value: T)
}

module Text {

  /** The decimal digit for `d`. */
  function DecimalDigit(d: nat): char
    requires d < 10
  {
    "0123456789"[d]
  }

  predicate IsDecimalDigit(c: char)
  {
    '0' <= c <= '9'
  }

  lemma DecimalDigitValue(d: nat)
    requires d < 10
    ensures IsDecimalDigit(DecimalDigit(d))
    ensures DecimalDigit(d) as int - '0' as int == d
  {
  }

  predicate AllDecimalDigits(s: string)
  {
    forall i :: 0 <= i < |s| ==> IsDecimalDigit(s[i])
  }

  /** The numeric value of a run of decimal digits (`Number.parseInt(s, 10)` on such a run). */
  function DecimalValue(s: string): nat
    requires AllDecimalDigits(s)
  {
    if s == [] then 0 else DecimalValue(s[..|s| - 1]) * 10 + (s[|s| - 1] as int - '0' as int)
  }

  /** `String(n)` for a natural number: decimal, no leading zeros. */
  function NatToString(n: nat): (s: string)
    ensures |s| >= 1 && AllDecimalDigits(s)
    ensures n > 0 ==> s[0] != '0'
    ensures DecimalValue(s) == n
  {
    DecimalDigitValue(n % 10);
    if n < 10 then [DecimalDigit(n)]
    else
      var prefix := NatToString(n / 10);
      var s := prefix + [DecimalDigit(n % 10)];
      assert s[..|s| - 1] == prefix;
      s
  }

  /** The lower-case hexadecimal digit for `d` (as `Number.prototype.toString(16)` writes it). */
  function HexDigit(d: nat): char
    requires d < 16
  {
    "0123456789abcdef"[d]
  }

  predicate IsHexDigit(c: char)
  {
    ('0' <= c <= '9') || ('a' <= c <= 'f') || ('A' <= c <= 'F')
  }

  predicate IsLowerHexDigit(c: char)
  {
    ('0' <= c <= '9') || ('a' <= c <= 'f')
  }

  /** The value of one hexadecimal digit, either case. */
  function HexDigitValue(c: char): (v: nat)
    requires IsHexDigit(c)
    ensures v < 16
  {
    if '0' <= c <= '9' then c as int - '0' as int
    else if 'a' <= c <= 'f' then c as int - 'a' as int + 10
    else c as int - 'A' as int + 10
  }

  /** The lower-case form of a hexadecimal digit. */
  function LowerHex(c: char): char
    requires IsHexDigit(c)
  {
    if 'A' <= c <= 'F' then (c as int - 'A' as int + 'a' as int) as char else c
  }

  /**
   * `WhiteSpace` and `LineTerminator` of ECMAScript: the characters that
   * the regular-expression class `\s`, `String.prototype.trimEnd` and
   * `Number.parseInt`'s leading trim all treat as white space.
   */
  predicate IsJsWhitespace(c: char)
  {
    c == '\t' || c == '\n' || c == '\U{000B}' || c == '\U{000C}' || c == '\r' || c == ' '
    || c == '\U{00A0}' || c == '\U{1680}' || ('\U{2000}' <= c <= '\U{200A}')
    || c == '\U{2028}' || c == '\U{2029}' || c == '\U{202F}' || c == '\U{205F}'
    || c == '\U{3000}' || c == '\U{FEFF}'
  }

  /** The characters at which a multiline `^` / `$` anchors and which `.` does not match. */
  predicate IsLineTerminator(c: char)
  {
    c == '\n' || c == '\r' || c == '\U{2028}' || c == '\U{2029}'
  }

  lemma LineTerminatorIsWhitespace(c: char)
    ensures IsLineTerminator(c) ==> IsJsWhitespace(c)
  {
  }

  /** The first line terminator at or after `q`, or the end: where `.*` stops and a multiline `$` holds. */
  function LineEnd(s: string, q: nat): (e: nat)
    requires q <= |s|
    ensures q <= e <= |s|
    ensures e == |s| || IsLineTerminator(s[e])
    decreases |s| - q
  {
    if q == |s| || IsLineTerminator(s[q]) then q else LineEnd(s, q + 1)
  }

  /** No line terminator comes before the line end. */
  lemma {:induction false} LineEndFacts(s: string, q: nat)
    requires q <= |s|
    ensures forall k :: q <= k < LineEnd(s, q) ==> !IsLineTerminator(s[k])
    decreases |s| - q
  {
    if q < |s| && !IsLineTerminator(s[q]) {
      LineEndFacts(s, q + 1);
    }
  }

  /** The end of the white-space run starting at `q`: where a greedy `\s*` stops. */
  function SpaceEnd(s: string, q: nat): (e: nat)
    requires q <= |s|
    ensures q <= e <= |s|
    decreases |s| - q
  {
    if q < |s| && IsJsWhitespace(s[q]) then SpaceEnd(s, q + 1) else q
  }

  /** The run is all white space and stops before a character that is not. */
  lemma {:induction false} SpaceEndFacts(s: string, q: nat)
    requires q <= |s|
    ensures forall k :: q <= k < SpaceEnd(s, q) ==> IsJsWhitespace(s[k])
    ensures SpaceEnd(s, q) == |s| || !IsJsWhitespace(s[SpaceEnd(s, q)])
    decreases |s| - q
  {
    if q < |s| && IsJsWhitespace(s[q]) {
      SpaceEndFacts(s, q + 1);
    }
  }

  /** `Array.prototype.join(sep)`. */
  function Join(lines: seq<string>, sep: string): (s: string)
  {
    if lines == [] then []
    else if |lines| == 1 then lines[0]
    else Join(lines[..|lines| - 1], sep) + sep + lines[|lines| - 1]
  }

  /** A joined text whose last line is empty ends with the separator. */
  lemma {:induction false} JoinEndsWithSeparator(lines: seq<string>, sep: string)
    requires |lines| >= 2 && lines[|lines| - 1] == []
    ensures |Join(lines, sep)| >= |sep|
    ensures Join(lines, sep)[|Join(lines, sep)| - |sep|..] == sep
  {
    var s := Join(lines[..|lines| - 1], sep) + sep;
    assert Join(lines, sep) == s;
  }

  /**
   * `a < b` on strings as JavaScript compares them (and `Array.prototype.sort`
   * orders them by default): by code unit, a proper prefix coming first.
   */
  predicate StringLess(a: string, b: string)
    decreases |a|
  {
    if a == [] then b != []
    else b != [] && (a[0] < b[0] || (a[0] == b[0] && StringLess(a[1..], b[1..])))
  }

  lemma {:induction false} StringLessIrreflexive(a: string)
    ensures !StringLess(a, a)
    decreases |a|
  {
    if a != [] {
      StringLessIrreflexive(a[1..]);
    }
  }

  lemma {:induction false} StringLessAsymmetric(a: string, b: string)
    ensures StringLess(a, b) ==> !StringLess(b, a)
    decreases |a|
  {
    if a != [] && b != [] && a[0] == b[0] {
      StringLessAsymmetric(a[1..], b[1..]);
    }
  }

  lemma {:induction false} StringLessTotal(a: string, b: string)
    ensures a == b || StringLess(a, b) || StringLess(b, a)
    decreases |a|
  {
    if a != [] && b != [] && a[0] == b[0] {
      StringLessTotal(a[1..], b[1..]);
      if a[1..] == b[1..] {
        assert a == [a[0]] + a[1..] && b == [b[0]] + b[1..];
      }
    }
  }

  lemma {:induction false} StringLessTransitive(a: string, b: string, c: string)
    requires StringLess(a, b) && StringLess(b, c)
    ensures StringLess(a, c)
    decreases |a|
  {
    if a != [] && a[0] == b[0] && b[0] == c[0] {
      StringLessTransitive(a[1..], b[1..], c[1..]);
    }
  }

  predicate StartsWith(s: string, prefix: string)
  {
    |prefix| <= |s| && s[..|prefix|] == prefix
  }
}
