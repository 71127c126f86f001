/**
 * String helpers that stand for the JavaScript string primitives the core uses:
 * decimal rendering of indices (template literals), `parseInt` in base 10,
 * `toLowerCase` (on A-Z only), `startsWith`, `endsWith`, `includes`,
 * `split`, `trim` and `join`.
 */
module Text {
  import opened Wrappers

  predicate IsDigit(c: char) { '0' <= c <= '9' }

  function DigitChar(d: nat): (c: char)
    requires d < 10
    ensures IsDigit(c)
  {
    ['0', '1', '2', '3', '4', '5', '6', '7', '8', '9'][d]
  }

  function DigitValue(c: char): (d: nat)
    requires IsDigit(c)
    ensures d < 10
  {
    (c as int - '0' as int) as nat
  }

  lemma {:induction false} DigitRoundTrip(d: nat)
    requires d < 10
    ensures DigitValue(DigitChar(d)) == d
  {
  }

  /** Decimal rendering of a natural number, as a template literal renders an array index. */
  function NatStr(n: nat): (s: string)
    ensures |s| > 0
    ensures forall i :: 0 <= i < |s| ==> IsDigit(s[i])
  {
    if n < 10 then [DigitChar(n)] else NatStr(n / 10) + [DigitChar(n % 10)]
  }

  /** The value of a non-empty run of decimal digits. */
  function DigitsValue(s: string): nat
    requires forall i :: 0 <= i < |s| ==> IsDigit(s[i])
  {
    if s == [] then 0 else DigitsValue(s[..|s| - 1]) * 10 + DigitValue(s[|s| - 1])
  }

  lemma {:induction false} DigitsValueOfNatStr(n: nat)
    ensures DigitsValue(NatStr(n)) == n
  {
    var s := NatStr(n);
    if n < 10 {
      DigitRoundTrip(n);
    } else {
      assert s[..|s| - 1] == NatStr(n / 10);
      DigitsValueOfNatStr(n / 10);
      DigitRoundTrip(n % 10);
    }
  }

  /** Distinct indices render as distinct strings, so `node-i` ids never collide. */
  lemma {:induction false} NatStrInjective(n: nat, m: nat)
    requires NatStr(n) == NatStr(m)
    ensures n == m
  {
    DigitsValueOfNatStr(n);
    DigitsValueOfNatStr(m);
  }

  /**
   * The whitespace that `parseInt` and `trim` skip: the ECMAScript WhiteSpace
   * characters (tab, vertical tab, form feed, the byte order mark and every
   * space separator of Unicode category Zs) and LineTerminator characters
   * (line feed, carriage return, line and paragraph separator).
   */
  predicate IsSpace(c: char) {
    || c == '\t' || c == '\U{B}' || c == '\U{C}' || c == ' ' || c == '\U{A0}' || c == '\U{FEFF}'
    || c == '\U{1680}' || '\U{2000}' <= c <= '\U{200A}' || c == '\U{202F}' || c == '\U{205F}' || c == '\U{3000}'
    || c == '\n' || c == '\r' || c == '\U{2028}' || c == '\U{2029}'
  }

  function TrimStart(s: string): (r: string)
    ensures |r| <= |s| && r == s[|s| - |r|..]
    ensures r == [] || !IsSpace(r[0])
  {
    if s != [] && IsSpace(s[0]) then TrimStart(s[1..]) else s
  }

  function TrimEnd(s: string): (r: string)
    ensures |r| <= |s| && r == s[..|r|]
    ensures r == [] || !IsSpace(r[|r| - 1])
  {
    if s != [] && IsSpace(s[|s| - 1]) then TrimEnd(s[..|s| - 1]) else s
  }

  /** `String.prototype.trim`: drop the whitespace above at both ends. */
  function Trim(s: string): string {
    TrimEnd(TrimStart(s))
  }

  /** Leading whitespace, a no-break space or an ideographic space as much as a blank, is what `parseInt` skips. */
  lemma {:induction false} ParseIntSkipsSpace(c: char, s: string)
    requires IsSpace(c)
    ensures ParseIntPrefix([c] + s) == ParseIntPrefix(s)
  {
    assert ([c] + s)[1..] == s;
  }

  /** Trimming twice is trimming once. */
  lemma {:induction false} TrimIdempotent(s: string)
    ensures Trim(Trim(s)) == Trim(s)
  {
    var t := Trim(s);
    if t != [] {
      assert t[0] == TrimStart(s)[0];
    }
  }

  /** The longest prefix of `s` made of decimal digits. */
  function LeadingDigits(s: string): (r: string)
    ensures |r| <= |s| && r == s[..|r|]
    ensures forall i :: 0 <= i < |r| ==> IsDigit(r[i])
    ensures |r| < |s| ==> !IsDigit(s[|r|])
  {
    if s != [] && IsDigit(s[0]) then [s[0]] + LeadingDigits(s[1..]) else []
  }

  /**
   * `parseInt` in base 10: skip leading whitespace, read an optional sign and the
   * longest run of digits; `None` stands for `NaN` (no digit at all).
   */
  function ParseIntPrefix(s: string): Option<int> {
    ParseSigned(TrimStart(s))
  }

  /** The sign-and-digits part of `parseInt`, after leading whitespace. */
  function ParseSigned(t: string): Option<int> {
    if t != [] && t[0] == '-' then NegateDigits(LeadingDigits(t[1..]))
    else if t != [] && t[0] == '+' then ReadDigits(LeadingDigits(t[1..]))
    else ReadDigits(LeadingDigits(t))
  }

  function ReadDigits(digits: string): Option<int>
    requires forall i :: 0 <= i < |digits| ==> IsDigit(digits[i])
  {
    if digits == [] then None else Some(DigitsValue(digits) as int)
  }

  function NegateDigits(digits: string): Option<int>
    requires forall i :: 0 <= i < |digits| ==> IsDigit(digits[i])
  {
    if digits == [] then None else Some(-(DigitsValue(digits) as int))
  }

  lemma {:induction false} LeadingDigitsOfDigits(s: string)
    requires forall i :: 0 <= i < |s| ==> IsDigit(s[i])
    ensures LeadingDigits(s) == s
  {
    if s != [] {
      LeadingDigitsOfDigits(s[1..]);
    }
  }

  /** `parseInt` reads back every rendered index. */
  lemma {:induction false} ParseNatStr(n: nat)
    ensures ParseIntPrefix(NatStr(n)) == Some(n)
  {
    ParseDigits(NatStr(n));
    DigitsValueOfNatStr(n);
  }

  /** `parseInt` of a non-empty run of digits is its value. */
  lemma {:induction false} ParseDigits(s: string)
    requires s != [] && forall i :: 0 <= i < |s| ==> IsDigit(s[i])
    ensures ParseIntPrefix(s) == Some(DigitsValue(s) as int)
  {
    assert IsDigit(s[0]);
    assert TrimStart(s) == s;
    LeadingDigitsOfDigits(s);
    assert ParseSigned(s) == ReadDigits(s);
  }

  /** ASCII `toLowerCase`. */
  function LowerChar(c: char): char {
    if 'A' <= c <= 'Z' then (c as int + 32) as char else c
  }

  function Lower(s: string): (r: string)
    ensures |r| == |s|
    ensures forall i :: 0 <= i < |s| ==> r[i] == LowerChar(s[i])
  {
    if s == [] then [] else [LowerChar(s[0])] + Lower(s[1..])
  }

  lemma {:induction false} LowerAppend(a: string, b: string)
    ensures Lower(a + b) == Lower(a) + Lower(b)
  {
    assert forall i :: 0 <= i < |a| + |b| ==> (a + b)[i] == if i < |a| then a[i] else b[i - |a|];
  }

  predicate StartsWith(s: string, prefix: string) {
    |prefix| <= |s| && s[..|prefix|] == prefix
  }

  predicate EndsWith(s: string, suffix: string) {
    |suffix| <= |s| && s[|s| - |suffix|..] == suffix
  }

  /** `sub` occurs somewhere in `s`. */
  predicate Contains(s: string, sub: string)
    decreases |s|
  {
    StartsWith(s, sub) || (s != [] && Contains(s[1..], sub))
  }

  /** The part of `s` after the last `sep`, or all of `s` without one: the last piece of a split. */
  function LastSegment(s: string, sep: char): (r: string)
    ensures |r| <= |s| && r == s[|s| - |r|..]
    ensures sep !in r
    ensures |r| < |s| ==> s[|s| - |r| - 1] == sep
  {
    if s == [] then []
    else if s[|s| - 1] == sep then []
    else LastSegment(s[..|s| - 1], sep) + [s[|s| - 1]]
  }

  /** The part of `s` before the first `sep`, or all of `s` without one: the first piece of a split. */
  function FirstSegment(s: string, sep: char): (r: string)
    ensures |r| <= |s| && r == s[..|r|]
    ensures sep !in r
    ensures |r| < |s| ==> s[|r|] == sep
  {
    if s == [] || s[0] == sep then [] else [s[0]] + FirstSegment(s[1..], sep)
  }

  /** The second piece of a split: the segment after the first separator, `None` (undefined) without one. */
  function SecondSegment(s: string, sep: char): Option<string> {
    var head := FirstSegment(s, sep);
    if |head| == |s| then None else Some(FirstSegment(s[|head| + 1..], sep))
  }

  /** The parts, in order, with `sep` between each two. */
  function Join(parts: seq<string>, sep: string): string {
    if parts == [] then []
    else if |parts| == 1 then parts[0]
    else parts[0] + sep + Join(parts[1..], sep)
  }
}
