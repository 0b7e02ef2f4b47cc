/**
 * The string and number conversions the service layer relies on:
 * `Number.parseInt` as ECMAScript defines it, the decimal text a number
 * becomes inside a template literal, and case folding for case-insensitive
 * search.
 */
module Text {
  import opened Wrappers

  /** The radix argument of `Number.parseInt`: `10`, or left out. */
  datatype Radix = Decimal | Unspecified

  predicate IsDecimalDigit(c: char) {
    '0' <= c <= '9'
  }

  /** `c` is a digit in base 10 or base 16 (the only bases `parseInt` is used with here). */
  predicate IsDigitIn(c: char, base: nat) {
    IsDecimalDigit(c) || (base == 16 && ('a' <= c <= 'f' || 'A' <= c <= 'F'))
  }

  predicate AllDecimalDigits(s: string) {
    forall i :: 0 <= i < |s| ==> IsDecimalDigit(s[i])
  }

  function DigitValue(c: char): nat {
    if '0' <= c <= '9' then c as int - '0' as int
    else if 'a' <= c <= 'f' then c as int - 'a' as int + 10
    else if 'A' <= c <= 'F' then c as int - 'A' as int + 10
    else 0
  }

  /** The number a digit string denotes in `base`, most significant digit first. */
  function Value(s: string, base: nat): nat {
    if s == [] then 0 else Value(s[..|s| - 1], base) * base + DigitValue(s[|s| - 1])
  }

  function DigitChar(d: nat): char
    requires d < 10
  {
    ('0' as int + d) as char
  }

  /** The text of a non-negative number in a template literal or after `toString()`. */
  function DecimalString(n: nat): (s: string)
    ensures |s| >= 1 && AllDecimalDigits(s)
    ensures |s| == 1 <==> n < 10
    ensures |s| > 1 ==> s[0] != '0'
    decreases n
  {
    if n < 10 then [DigitChar(n)] else DecimalString(n / 10) + [DigitChar(n % 10)]
  }

  function Pow10(k: nat): nat {
    if k == 0 then 1 else 10 * Pow10(k - 1)
  }

  /** Reading the decimal text of `n` back gives `n`. */
  lemma {:induction false} ValueOfDecimalString(n: nat)
    ensures Value(DecimalString(n), 10) == n
  {
    if n >= 10 {
      var s := DecimalString(n);
      assert s[..|s| - 1] == DecimalString(n / 10);
      ValueOfDecimalString(n / 10);
    }
  }

  lemma {:induction false} Pow10AtLeastTen(k: nat)
    requires k >= 1
    ensures Pow10(k) >= 10
  {
    if k > 1 {
      Pow10AtLeastTen(k - 1);
    }
  }

  /** The decimal text of `n` has at most `k` digits exactly when `n < 10^k`. */
  lemma {:induction false} DecimalStringLength(n: nat, k: nat)
    requires k >= 1
    ensures |DecimalString(n)| <= k <==> n < Pow10(k)
  {
    if n < 10 {
      Pow10AtLeastTen(k);
    } else if k > 1 {
      DecimalStringLength(n / 10, k - 1);
      assert |DecimalString(n)| == |DecimalString(n / 10)| + 1;
    }
  }

  /**
   * The characters `Number.parseInt` skips before the number: ECMAScript's
   * WhiteSpace (tab, vertical tab, form feed, the byte order mark and the
   * Unicode space separators) and LineTerminator code points.
   */
  predicate IsJsWhitespace(c: char) {
    c == '\t' || c == '\n' || c == '\U{000B}' || c == '\U{000C}' || c == '\r'
    || c == ' ' || c == '\U{00A0}' || c == '\U{1680}'
    || ('\U{2000}' <= c <= '\U{200A}')
    || c == '\U{2028}' || c == '\U{2029}' || c == '\U{202F}' || c == '\U{205F}'
    || c == '\U{3000}' || c == '\U{FEFF}'
  }

  /** `s` without its leading whitespace: everything cut off is whitespace, and what is left does not start with it. */
  function TrimStart(s: string): (t: string)
    ensures |t| <= |s| && t == s[|s| - |t|..]
    ensures forall i :: 0 <= i < |s| - |t| ==> IsJsWhitespace(s[i])
    ensures t == [] || !IsJsWhitespace(t[0])
  {
    if s != [] && IsJsWhitespace(s[0]) then TrimStart(s[1..]) else s
  }

  /** The length of the longest prefix of `s` made of digits in `base`. */
  function DigitRun(s: string, base: nat): (n: nat)
    ensures n <= |s|
    ensures forall i :: 0 <= i < n ==> IsDigitIn(s[i], base)
    ensures n < |s| ==> !IsDigitIn(s[n], base)
  {
    if s == [] || !IsDigitIn(s[0], base) then 0 else 1 + DigitRun(s[1..], base)
  }

  /** The longest run of `base` digits at the start of `w`, read as a number; none gives NaN. */
  function LeadingNumber(w: string, base: nat): Option<nat> {
    var n := DigitRun(w, base);
    if n == 0 then None else Some(Value(w[..n], base))
  }

  /** With no radix given, `0x` or `0X` after the sign switches to base 16. */
  predicate HasHexPrefix(u: string, radix: Radix) {
    radix == Unspecified && |u| >= 2 && u[0] == '0' && (u[1] == 'x' || u[1] == 'X')
  }

  /**
   * `Number.parseInt(s, 10)` or `Number.parseInt(s)`: skip leading
   * whitespace, take an optional sign, and with no radix given switch to base
   * 16 after a `0x`/`0X` prefix; then read the longest run of digits. No
   * digits gives NaN, here `None`.
   */
  function ParseInt(s: string, radix: Radix): (r: Option<int>)
    ensures TrimStart(s) == [] ==> r.None?
    ensures r.Some? ==>
      var t := TrimStart(s);
      && |t| >= 1 && (IsDecimalDigit(t[0]) || t[0] == '-' || t[0] == '+')
      && (r.value < 0 ==> t[0] == '-')
    ensures var t := TrimStart(s);
      radix == Decimal && |t| >= 1 && IsDecimalDigit(t[0]) ==> r.Some? && r.value >= 0
  {
    var t := TrimStart(s);
    var u := if |t| > 0 && (t[0] == '-' || t[0] == '+') then t[1..] else t;
    var magnitude :=
      if HasHexPrefix(u, radix) then LeadingNumber(u[2..], 16) else LeadingNumber(u, 10);
    match magnitude
    case None => None
    case Some(m) => Some(if |t| > 0 && t[0] == '-' then 0 - m else m as int)
  }

  /** A text that starts with a decimal digit is read as a plain decimal number. */
  lemma ParseFromDigit(s: string)
    requires |s| >= 1 && IsDecimalDigit(s[0])
    ensures ParseInt(s, Decimal) == LeadingNumber(s, 10)
  {
    assert !IsJsWhitespace(s[0]);
    assert TrimStart(s) == s;
  }

  lemma {:induction false} DigitRunOfDigits(d: string, rest: string)
    requires AllDecimalDigits(d)
    requires rest == [] || !IsDecimalDigit(rest[0])
    ensures DigitRun(d + rest, 10) == |d|
  {
    if d != [] {
      assert (d + rest)[1..] == d[1..] + rest;
      DigitRunOfDigits(d[1..], rest);
    }
  }

  /**
   * Decimal digits followed by nothing or by a non-digit parse to the value
   * of the digits.
   */
  lemma ParseLeadingDigits(d: string, rest: string)
    requires |d| >= 1 && AllDecimalDigits(d)
    requires rest == [] || !IsDecimalDigit(rest[0])
    ensures ParseInt(d + rest, Decimal) == Some(Value(d, 10))
  {
    var s := d + rest;
    assert s[0] == d[0];
    ParseFromDigit(s);
    DigitRunOfDigits(d, rest);
    assert s[..|d|] == d;
  }

  /** The decimal text of any non-negative number parses back to it. */
  lemma ParseDecimalString(n: nat)
    ensures ParseInt(DecimalString(n), Decimal) == Some(n)
  {
    ParseLeadingDigits(DecimalString(n), []);
    assert DecimalString(n) + [] == DecimalString(n);
    ValueOfDecimalString(n);
  }

  /** A number between double quotes, as the ETag and version-token templates write it. */
  function Quoted(n: nat): (q: string)
    ensures |q| >= 3 && q[0] == '"' && q[|q| - 1] == '"'
    ensures AllDecimalDigits(q[1..|q| - 1])
  {
    var quoted := "\"" + DecimalString(n) + "\"";
    assert quoted[1..|quoted| - 1] == DecimalString(n);
    quoted
  }

  /** Two quoted versions are the same text exactly when the versions are equal. */
  lemma QuotedInjective(n: nat, m: nat)
    ensures Quoted(n) == Quoted(m) <==> n == m
  {
    if Quoted(n) == Quoted(m) {
      var q := Quoted(n);
      assert q[1..|q| - 1] == DecimalString(n);
      assert Quoted(m)[1..|q| - 1] == DecimalString(m);
      ValueOfDecimalString(n);
      ValueOfDecimalString(m);
    }
  }

  function LowerChar(c: char): char {
    if 'A' <= c <= 'Z' then (c as int + 32) as char else c
  }

  /** ASCII lower-casing, character by character. */
  function Lower(s: string): string {
    seq(|s|, i requires 0 <= i < |s| => LowerChar(s[i]))
  }

  function UpperChar(c: char): char {
    if 'a' <= c <= 'z' then (c as int - 32) as char else c
  }

  /** ASCII upper-casing, character by character. */
  function Upper(s: string): string {
    seq(|s|, i requires 0 <= i < |s| => UpperChar(s[i]))
  }

  predicate IsPrefix(p: string, s: string) {
    |p| <= |s| && s[..|p|] == p
  }

  /** `s` contains `p` as a contiguous piece. */
  predicate ContainsSubstring(s: string, p: string) {
    exists i :: 0 <= i <= |s| && IsPrefix(p, s[i..])
  }

  /** The case-insensitive `contains` test of a text filter. */
  predicate ContainsIgnoringCase(s: string, p: string) {
    ContainsSubstring(Lower(s), Lower(p))
  }

  /** Folding the search text first does not change a case-insensitive match. */
  lemma ContainsIgnoringCaseOfLowered(s: string, p: string)
    ensures ContainsIgnoringCase(s, Lower(p)) <==> ContainsIgnoringCase(s, p)
  {
    assert Lower(Lower(p)) == Lower(p);
  }

  /**
   * The match ignores case on both sides: upper-casing or lower-casing the
   * stored text or the search text does not change whether it matches.
   */
  lemma CaseIsIgnored(s: string, p: string)
    ensures ContainsIgnoringCase(Upper(s), p) <==> ContainsIgnoringCase(s, p)
    ensures ContainsIgnoringCase(s, Upper(p)) <==> ContainsIgnoringCase(s, p)
    ensures ContainsIgnoringCase(Lower(s), p) <==> ContainsIgnoringCase(s, p)
  {
    assert Lower(Upper(s)) == Lower(s);
    assert Lower(Upper(p)) == Lower(p);
    assert Lower(Lower(s)) == Lower(s);
  }

  /** A search text in other letter case than the stored text still matches. */
  lemma MixedCaseMatches()
    ensures ContainsIgnoringCase("Rusalka", "rUS")
  {
    assert IsPrefix(Lower("rUS"), Lower("Rusalka")[0..]);
  }

  /** The empty search text matches every text. */
  lemma EmptyTextMatchesEverything(s: string)
    ensures ContainsIgnoringCase(s, "")
  {
    assert IsPrefix("", Lower(s)[0..]);
  }
}
