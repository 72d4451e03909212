/** The integer side of JavaScript numbers the scraper touches: `parseInt`
    (with and without an explicit radix of 10), its NaN, and the decimal
    rendering of a non-negative integer in a template string. */
module JsNumbers {
  import opened Text

  /** A JavaScript number as the scraper uses it: an integer or NaN. */
  datatype Num = Int(i: int) | NaN

  predicate IsDigit(c: char) { '0' <= c <= '9' }

  predicate IsHexDigit(c: char) { IsDigit(c) || 'a' <= c <= 'f' || 'A' <= c <= 'F' }

  predicate AllDigits(d: string) { forall i :: 0 <= i < |d| ==> IsDigit(d[i]) }

  function DigitValue(c: char): nat
    requires IsDigit(c)
  {
    c as int - '0' as int
  }

  function Digit(n: nat): (c: char)
    requires n < 10
    ensures IsDigit(c) && DigitValue(c) == n
  {
    ('0' as int + n) as char
  }

  /** The value of the first `n` characters of `d`, decimal digits, most
      significant first. */
  function DigitsValue(d: string, n: nat): nat
    requires n <= |d| && forall i :: 0 <= i < n ==> IsDigit(d[i])
  {
    if n == 0 then 0 else DigitsValue(d, n - 1) * 10 + DigitValue(d[n - 1])
  }

  /** Characters after the first `n` do not change their value. */
  lemma {:induction false} DigitsValuePrefix(a: string, b: string, n: nat)
    requires n <= |a| && forall i :: 0 <= i < n ==> IsDigit(a[i])
    ensures DigitsValue(a + b, n) == DigitsValue(a, n)
  {
    if n > 0 {
      DigitsValuePrefix(a, b, n - 1);
      assert (a + b)[n - 1] == a[n - 1];
    }
  }

  /** Length of the longest prefix of `s` made of decimal digits. */
  function LeadingDigits(s: string): (k: nat)
    ensures k <= |s| && forall i :: 0 <= i < k ==> IsDigit(s[i])
    ensures k < |s| ==> !IsDigit(s[k])
  {
    if s != [] && IsDigit(s[0]) then
      var k := 1 + LeadingDigits(s[1..]);
      assert forall i :: 1 <= i < k ==> s[i] == s[1..][i - 1];
      k
    else 0
  }

  /** A sign in front of the digits, as `parseInt` accepts it. */
  function DropSign(u: string): string {
    if u != [] && (u[0] == '-' || u[0] == '+') then u[1..] else u
  }

  /** `0x` or `0X` at the start. */
  predicate HexPrefix(v: string) {
    |v| >= 2 && v[0] == '0' && (v[1] == 'x' || v[1] == 'X')
  }

  /** `parseInt(s, 10)`: leading white space skipped, an optional sign, then the
      longest run of decimal digits; NaN exactly when no digit follows the
      sign, and negative only after a '-'. */
  function ParseInt10(s: string): (r: Num)
    ensures var v := DropSign(TrimStart(s)); r.NaN? <==> v == [] || !IsDigit(v[0])
    ensures r.Int? && r.i < 0 ==> TrimStart(s) != [] && TrimStart(s)[0] == '-'
  {
    var u := TrimStart(s);
    var v := DropSign(u);
    var k := LeadingDigits(v);
    if k == 0 then NaN
    else if u[0] == '-' then Int(-(DigitsValue(v, k) as int))
    else Int(DigitsValue(v, k))
  }

  /** `isNaN(parseInt(s))` with the default radix: after white space and a
      sign, a `0x`/`0X` prefix switches to base 16 and needs a hex digit after
      it; otherwise a decimal digit must come first. */
  predicate ParseIntIsNaN(s: string): (r: bool)
    ensures !HexPrefix(DropSign(TrimStart(s))) ==> (r <==> ParseInt10(s).NaN?)
  {
    var v := DropSign(TrimStart(s));
    if HexPrefix(v) then !(|v| > 2 && IsHexDigit(v[2]))
    else !(v != [] && IsDigit(v[0]))
  }

  /** `${n}` for a non-negative integer: its shortest decimal form. */
  function NatToString(n: nat): (r: string)
    ensures |r| >= 1 && AllDigits(r)
    ensures |r| > 1 ==> r[0] != '0'
  {
    if n < 10 then [Digit(n)] else NatToString(n / 10) + [Digit(n % 10)]
  }

  lemma {:induction false} DigitsOfNatToString(n: nat)
    ensures DigitsValue(NatToString(n), |NatToString(n)|) == n
  {
    var r := NatToString(n);
    if n >= 10 {
      var a := NatToString(n / 10);
      DigitsOfNatToString(n / 10);
      DigitsValuePrefix(a, [Digit(n % 10)], |a|);
    }
  }

  /** A string of decimal digits reads back as its value under `parseInt(s, 10)`. */
  lemma ParseInt10Digits(d: string)
    requires d != [] && AllDigits(d)
    ensures ParseInt10(d) == Int(DigitsValue(d, |d|))
  {
    assert IsDigit(d[0]) && !IsSpace(d[0]);
    assert TrimStart(d) == d;
    assert DropSign(d) == d;
    assert LeadingDigits(d) == |d|;
  }

  /** Rendering a page number and parsing it back gives the number. */
  lemma NatToStringRoundTrip(n: nat)
    ensures ParseInt10(NatToString(n)) == Int(n)
  {
    DigitsOfNatToString(n);
    ParseInt10Digits(NatToString(n));
  }

  /** Distinct numbers render as distinct strings. */
  lemma NatToStringInjective(m: nat, n: nat)
    requires NatToString(m) == NatToString(n)
    ensures m == n
  {
    DigitsOfNatToString(m);
    DigitsOfNatToString(n);
  }
}
