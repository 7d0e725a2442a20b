/**
 * The global `parseInt(string)` of ECMAScript (section 19.2.5 of ECMA-262),
 * called without a radix, and the number comparisons the recommender applies
 * to its results.
 */
module JsParseInt {
  import opened Text

  /**
   * A number as the recommender sees it: `NaN` covers both `parseInt`'s
   * NaN and `undefined` (a missing destructured bucket bound); every
   * relational comparison with either is false.
   */
  datatype JsNumber = NaN | Num(n: int)

  /** `a > b` on JavaScript numbers. */
  predicate Greater(a: JsNumber, b: JsNumber) {
    a.Num? && b.Num? && a.n > b.n
  }

  /** `a >= b` on JavaScript numbers. */
  predicate AtLeast(a: JsNumber, b: JsNumber) {
    a.Num? && b.Num? && a.n >= b.n
  }

  /** `a <= b` on JavaScript numbers. */
  predicate AtMost(a: JsNumber, b: JsNumber) {
    a.Num? && b.Num? && a.n <= b.n
  }

  /** The value of `c` as a digit in base `radix` (10 or 16), or -1 when it is none. */
  function DigitValue(c: char, radix: nat): (v: int)
    requires radix == 10 || radix == 16
    ensures -1 <= v < radix
  {
    if '0' <= c <= '9' then c as int - '0' as int
    else if radix == 16 && 'a' <= c <= 'f' then c as int - 'a' as int + 10
    else if radix == 16 && 'A' <= c <= 'F' then c as int - 'A' as int + 10
    else -1
  }

  predicate IsDigit(c: char, radix: nat)
    requires radix == 10 || radix == 16
  {
    DigitValue(c, radix) >= 0
  }

  /** How many characters at the start of `s` are digits in base `radix`. */
  function LeadingDigits(s: string, radix: nat): (k: nat)
    requires radix == 10 || radix == 16
    ensures k <= |s|
    ensures forall i :: 0 <= i < k ==> IsDigit(s[i], radix)
    ensures k == |s| || !IsDigit(s[k], radix)
  {
    if |s| > 0 && IsDigit(s[0], radix) then 1 + LeadingDigits(s[1..], radix) else 0
  }

  /** The value of a string of digits, most significant first, read onto `acc` (Horner's rule). */
  function DigitsValue(acc: nat, ds: string, radix: nat): nat
    requires radix == 10 || radix == 16
    requires forall i :: 0 <= i < |ds| ==> IsDigit(ds[i], radix)
    decreases |ds|
  {
    if |ds| == 0 then acc
    else
      assert IsDigit(ds[0], radix);
      DigitsValue(acc * radix + DigitValue(ds[0], radix), ds[1..], radix)
  }

  /** Reading a concatenation reads the second part onto the value of the first. */
  lemma {:induction false} DigitsValueAppend(acc: nat, a: string, b: string, radix: nat)
    requires radix == 10 || radix == 16
    requires forall i :: 0 <= i < |a| ==> IsDigit(a[i], radix)
    requires forall i :: 0 <= i < |b| ==> IsDigit(b[i], radix)
    ensures forall i :: 0 <= i < |a + b| ==> IsDigit((a + b)[i], radix)
    ensures DigitsValue(acc, a + b, radix) == DigitsValue(DigitsValue(acc, a, radix), b, radix)
    decreases |a|
  {
    assert forall i :: 0 <= i < |a + b| ==> IsDigit((a + b)[i], radix) by {
      forall i | 0 <= i < |a + b| ensures IsDigit((a + b)[i], radix) {
        if i < |a| { assert (a + b)[i] == a[i]; } else { assert (a + b)[i] == b[i - |a|]; }
      }
    }
    if |a| > 0 {
      assert (a + b)[0] == a[0];
      assert (a + b)[1..] == a[1..] + b;
      DigitsValueAppend(acc * radix + DigitValue(a[0], radix), a[1..], b, radix);
    } else {
      assert a + b == b;
    }
  }

  /** The integer read from the longest digit prefix of `u`; NaN when that prefix is empty. */
  function ReadDigits(u: string, radix: nat): JsNumber
    requires radix == 10 || radix == 16
  {
    var k := LeadingDigits(u, radix);
    if k == 0 then NaN else Num(DigitsValue(0, u[..k], radix))
  }

  function Negate(x: JsNumber): JsNumber {
    if x.Num? then Num(-x.n) else NaN
  }

  /** After the sign: a `0x`/`0X` prefix selects base 16, otherwise base 10. */
  function ParseUnsigned(u: string): JsNumber
  {
    if |u| >= 2 && u[0] == '0' && (u[1] == 'x' || u[1] == 'X') then ReadDigits(u[2..], 16)
    else ReadDigits(u, 10)
  }

  /** After the leading white space: an optional `-` or `+`. */
  function ParseSigned(t: string): JsNumber
  {
    if |t| > 0 && t[0] == '-' then Negate(ParseUnsigned(t[1..]))
    else if |t| > 0 && t[0] == '+' then ParseUnsigned(t[1..])
    else ParseUnsigned(t)
  }

  /**
   * `parseInt(s)`: leading white space is skipped, then an optional sign;
   * a `0x`/`0X` prefix selects base 16, otherwise base 10; the longest run
   * of digits that follows is read and the rest ignored; no digit at all
   * gives NaN.
   */
  function ParseInt(s: string): JsNumber
  {
    ParseSigned(TrimStart(s))
  }

  // ---------------------------------------------------------------- decimal round trip

  function DigitChar(d: nat): (c: char)
    requires d < 10
    ensures IsDigit(c, 10) && DigitValue(c, 10) == d
  {
    ('0' as int + d) as char
  }

  /** The canonical decimal spelling of `n`. */
  function DecimalString(n: nat): (s: string)
    ensures |s| >= 1
    ensures forall i :: 0 <= i < |s| ==> IsDigit(s[i], 10)
  {
    if n < 10 then [DigitChar(n)] else DecimalString(n / 10) + [DigitChar(n % 10)]
  }

  /** Reading back a decimal spelling gives the number it spells. */
  lemma {:induction false} DecimalStringValue(n: nat)
    ensures DigitsValue(0, DecimalString(n), 10) == n
  {
    if n >= 10 {
      var d := [DigitChar(n % 10)];
      DigitsValueAppend(0, DecimalString(n / 10), d, 10);
      DecimalStringValue(n / 10);
      assert DigitsValue(n / 10, d, 10) == DigitsValue((n / 10) * 10 + n % 10, d[1..], 10);
    }
  }

  /** A digit run followed by a non-digit contributes exactly its own length to the digit prefix. */
  lemma {:induction false} LeadingDigitsAppend(ds: string, rest: string, radix: nat)
    requires radix == 10 || radix == 16
    requires forall i :: 0 <= i < |ds| ==> IsDigit(ds[i], radix)
    requires rest == [] || !IsDigit(rest[0], radix)
    ensures LeadingDigits(ds + rest, radix) == |ds|
  {
    if |ds| > 0 {
      assert (ds + rest)[1..] == ds[1..] + rest;
      LeadingDigitsAppend(ds[1..], rest, radix);
    }
  }

  /**
   * `parseInt` reads a run of decimal digits and stops at the first
   * character that is not one: `parseInt("2000")` is 2000 and
   * `parseInt("1.9000")` is 1.
   */
  lemma ParseDigitRun(ds: string, rest: string)
    requires |ds| >= 1 && forall i :: 0 <= i < |ds| ==> IsDigit(ds[i], 10)
    requires rest == [] || (!IsAsciiDigit(rest[0]) && rest[0] != 'x' && rest[0] != 'X')
    ensures ParseInt(ds + rest) == Num(DigitsValue(0, ds, 10))
  {
    var s := ds + rest;
    assert s[0] == ds[0] && IsDigit(ds[0], 10);
    assert TrimStart(s) == s by {
      assert !IsJsWhitespace(s[0]);
    }
    assert ParseSigned(s) == ParseUnsigned(s);
    assert !(|s| >= 2 && s[0] == '0' && (s[1] == 'x' || s[1] == 'X')) by {
      if |s| >= 2 {
        assert s[1] == if |ds| == 1 then rest[0] else ds[1];
        assert |ds| > 1 ==> IsDigit(ds[1], 10);
      }
    }
    assert ParseUnsigned(s) == ReadDigits(s, 10);
    LeadingDigitsAppend(ds, rest, 10);
    assert s[..|ds|] == ds;
  }

  /** `parseInt` reads back what decimal printing wrote, up to the first non-digit. */
  lemma ParseDecimalPrefix(n: nat, rest: string)
    requires rest == [] || (!IsAsciiDigit(rest[0]) && rest[0] != 'x' && rest[0] != 'X')
    ensures ParseInt(DecimalString(n) + rest) == Num(n)
  {
    ParseDigitRun(DecimalString(n), rest);
    DecimalStringValue(n);
  }
}
