/**
 * JavaScript's global `parseInt(string)` with the radix argument omitted
 * (section 19.2.5 of ECMA-262), which the handlers apply to the `:id` path
 * parameter. NaN is `None`.
 */
module JsParseInt {
  import opened Wrappers
  import opened JsString

  /** With no radix, parseInt reads decimal digits, or hex digits after a "0x"/"0X" prefix. */
  datatype Radix = Decimal | Hexadecimal {
    function Base(): nat {
      if Decimal? then 10 else 16
    }
  }

  predicate IsDigit(c: char, radix: Radix) {
    ('0' <= c <= '9') || (radix.Hexadecimal? && (('a' <= c <= 'f') || ('A' <= c <= 'F')))
  }

  function DigitValue(c: char, radix: Radix): (d: nat)
    requires IsDigit(c, radix)
    ensures d < radix.Base()
  {
    if '0' <= c <= '9' then c as int - '0' as int
    else if 'a' <= c <= 'f' then c as int - 'a' as int + 10
    else c as int - 'A' as int + 10
  }

  /** The length of the longest prefix of `s` made of digits of `radix`. */
  function DigitRunLength(s: string, radix: Radix): (n: nat)
    ensures n <= |s|
    ensures forall i | 0 <= i < n :: IsDigit(s[i], radix)
    ensures n < |s| ==> !IsDigit(s[n], radix)
  {
    if s != [] && IsDigit(s[0], radix) then 1 + DigitRunLength(s[1..], radix) else 0
  }

  /** The value of a digit string, most significant digit first. */
  function DigitsValue(z: string, radix: Radix): nat
    requires forall i | 0 <= i < |z| :: IsDigit(z[i], radix)
  {
    if z == [] then 0
    else DigitsValue(z[..|z| - 1], radix) * radix.Base() + DigitValue(z[|z| - 1], radix)
  }

  predicate HasHexPrefix(u: string) {
    |u| >= 2 && u[0] == '0' && (u[1] == 'x' || u[1] == 'X')
  }

  /**
   * parseInt(s): skip leading white space, then read the trimmed text with
   * ParseTrimmed. The result is NaN exactly when no digit of the radix follows
   * the white space, the optional sign and the optional "0x"; it is negative
   * only after a minus sign.
   */
  function ParseInt(s: string): (r: Option<int>)
    ensures r.None? <==> !StartsWithNumeral(TrimStart(s))
    ensures r.Some? && r.value < 0 ==> |TrimStart(s)| > 0 && TrimStart(s)[0] == '-'
  {
    ParseTrimmed(TrimStart(s))
  }

  /**
   * After the optional sign (and the "0x" prefix when there is one) comes at
   * least one digit of the radix; otherwise parseInt gives NaN.
   */
  predicate StartsWithNumeral(t: string) {
    var u := WithoutSign(t);
    var v := NumeralDigits(u);
    v != [] && IsDigit(v[0], NumeralRadix(u))
  }

  /** The text after an optional leading "+" or "-". */
  function WithoutSign(t: string): string {
    if t != [] && (t[0] == '-' || t[0] == '+') then t[1..] else t
  }

  /** Without a radix, "0x"/"0X" selects hexadecimal; anything else is decimal. */
  function NumeralRadix(u: string): Radix {
    if HasHexPrefix(u) then Hexadecimal else Decimal
  }

  /** The digits of a numeral: after the "0x"/"0X" prefix when there is one. */
  function NumeralDigits(u: string): string {
    if HasHexPrefix(u) then u[2..] else u
  }

  /**
   * The rest of parseInt once white space is gone: an optional sign, then an
   * unsigned numeral. Negative zero is 0.
   */
  function ParseTrimmed(t: string): Option<int> {
    var negative := t != [] && t[0] == '-';
    match ParseUnsigned(WithoutSign(t))
    case None => None
    case Some(m) =>
      var k: int := m;
      Some(if negative then -k else k)
  }

  /**
   * An unsigned numeral: hexadecimal after "0x"/"0X", decimal otherwise, read
   * as the longest run of digits; no digit at all is NaN, anything after the
   * run is ignored.
   */
  function ParseUnsigned(u: string): Option<nat> {
    ParseDigits(NumeralDigits(u), NumeralRadix(u))
  }

  function ParseDigits(v: string, radix: Radix): (r: Option<nat>)
    ensures r.None? <==> (v == [] || !IsDigit(v[0], radix))
  {
    var n := DigitRunLength(v, radix);
    if n == 0 then None else Some(DigitsValue(v[..n], radix))
  }

  function DecimalDigit(d: nat): (c: char)
    requires d < 10
    ensures IsDigit(c, Decimal) && DigitValue(c, Decimal) == d
  {
    ('0' as int + d) as char
  }

  /** The decimal numeral of `n`, without leading zeros. */
  function DecimalText(n: nat): (z: string)
    ensures |z| > 0
    ensures forall i | 0 <= i < |z| :: IsDigit(z[i], Decimal)
    ensures n < 10 <==> |z| == 1
    ensures |z| > 1 ==> z[0] != '0'
  {
    if n < 10 then [DecimalDigit(n)] else DecimalText(n / 10) + [DecimalDigit(n % 10)]
  }

  /** How JavaScript prints an integer id (`${id}`, a JSON number, a URL segment). */
  function IntToText(i: int): (z: string)
    ensures |z| > 0
    ensures z[0] == '-' <==> i < 0
    ensures z[0] != '+' && !IsJsWhiteSpace(z[0])
  {
    if i < 0 then "-" + DecimalText(-i) else DecimalText(i)
  }

  lemma {:induction false} DecimalTextValue(n: nat)
    ensures DigitsValue(DecimalText(n), Decimal) == n
  {
    var z := DecimalText(n);
    if n >= 10 {
      assert z[..|z| - 1] == DecimalText(n / 10);
      DecimalTextValue(n / 10);
    }
  }

  /** A digit run followed by a non-digit is read exactly up to its end. */
  lemma {:induction false} DigitRunStopsAtNonDigit(z: string, rest: string, radix: Radix)
    requires forall i | 0 <= i < |z| :: IsDigit(z[i], radix)
    requires rest == [] || !IsDigit(rest[0], radix)
    ensures DigitRunLength(z + rest, radix) == |z|
  {
    if z == [] {
      assert z + rest == rest;
    } else {
      assert (z + rest)[0] == z[0];
      assert (z + rest)[1..] == z[1..] + rest;
      DigitRunStopsAtNonDigit(z[1..], rest, radix);
    }
  }

  /**
   * parseInt reads back the integer JavaScript prints, whatever follows it,
   * unless the next character is a digit, or the number is 0 and an "x" follows
   * (then "0x…" is read as hexadecimal).
   */
  lemma ParseIntReadsPrintedInt(i: int, rest: string)
    requires rest == [] || !IsDigit(rest[0], Decimal)
    requires i == 0 ==> rest == [] || (rest[0] != 'x' && rest[0] != 'X')
    ensures ParseInt(IntToText(i) + rest) == Some(i)
  {
    if i < 0 {
      ParseIntReadsNegative(IntToText(i), -i, rest);
    } else {
      ParseIntReadsNonNegative(IntToText(i), i, rest);
    }
  }

  lemma ParseIntReadsNegative(t: string, a: nat, rest: string)
    requires t == "-" + DecimalText(a)
    requires a > 0 && (rest == [] || !IsDigit(rest[0], Decimal))
    ensures ParseInt(t + rest) == Some(-(a as int))
  {
    var u := DecimalText(a) + rest;
    assert t + rest == "-" + u;
    UnsignedReadsDecimalText(a, rest);
    NegatedNumeral("-" + u, u, a);
  }

  lemma ParseIntReadsNonNegative(t: string, a: nat, rest: string)
    requires t == DecimalText(a)
    requires rest == [] || !IsDigit(rest[0], Decimal)
    requires a == 0 ==> rest == [] || (rest[0] != 'x' && rest[0] != 'X')
    ensures ParseInt(t + rest) == Some(a)
  {
    var u := t + rest;
    assert u[0] == DecimalText(a)[0];
    UnsignedReadsDecimalText(a, rest);
    UnsignedNumeral(u, a);
  }

  /** Text that starts with a minus sign parses to the negated numeral after it. */
  lemma NegatedNumeral(s: string, u: string, a: nat)
    requires s == "-" + u && ParseUnsigned(u) == Some(a)
    ensures ParseInt(s) == Some(-(a as int))
  {
    assert s[0] == '-';
    TrimStartKeepsText(s);
    SignedNumeral(u);
  }

  lemma TrimStartKeepsText(s: string)
    requires s != [] && !IsJsWhiteSpace(s[0])
    ensures ParseInt(s) == ParseTrimmed(s)
  {
    assert TrimStart(s) == s;
  }

  /** Text that starts with a digit has no sign and no white space to strip. */
  lemma UnsignedNumeral(u: string, a: nat)
    requires u != [] && IsDigit(u[0], Decimal) && ParseUnsigned(u) == Some(a)
    ensures ParseInt(u) == Some(a)
  {
    TrimStartKeepsText(u);
    assert WithoutSign(u) == u;
  }

  /** A minus sign negates the numeral that follows it. */
  lemma SignedNumeral(u: string)
    ensures ParseUnsigned(u).None? ==> ParseTrimmed("-" + u) == None
    ensures ParseUnsigned(u).Some? ==> ParseTrimmed("-" + u) == Some(-(ParseUnsigned(u).value as int))
  {
    assert ("-" + u)[1..] == u;
  }

  lemma UnsignedReadsDecimalText(a: nat, rest: string)
    requires rest == [] || !IsDigit(rest[0], Decimal)
    requires a == 0 ==> rest == [] || (rest[0] != 'x' && rest[0] != 'X')
    ensures ParseUnsigned(DecimalText(a) + rest) == Some(a)
  {
    var z := DecimalText(a);
    var u := z + rest;
    assert !HasHexPrefix(u) by {
      if |z| == 1 {
        assert u[0] == z[0];
        if a != 0 { assert z == [DecimalDigit(a)]; }
      } else {
        assert u[1] == z[1];
      }
    }
    DigitRunStopsAtNonDigit(z, rest, Decimal);
    assert u[..|z|] == z;
    DecimalTextValue(a);
  }

  /**
   * Round trip: parseInt(String(i)) === i for every integer i that JavaScript
   * prints in plain decimal (every id; from 10^21 up it prints an exponent).
   */
  lemma ParseIntRoundTrip(i: int)
    ensures ParseInt(IntToText(i)) == Some(i)
  {
    ParseIntReadsPrintedInt(i, []);
    assert IntToText(i) + [] == IntToText(i);
  }

  /** A one-digit id, as it appears in a URL such as /api/usuarios/2. */
  lemma ParseIntOneDigit(s: string, k: nat)
    requires k < 10 && s == [DecimalDigit(k)]
    ensures ParseInt(s) == Some(k)
  {
    ParseIntRoundTrip(k);
  }

  /** Leading white space does not change what parseInt reads. */
  lemma ParseIntSkipsWhiteSpace(ws: string, s: string)
    requires forall i | 0 <= i < |ws| :: IsJsWhiteSpace(ws[i])
    ensures ParseInt(ws + s) == ParseInt(s)
  {
    TrimStartSkipsWhiteSpace(ws, s);
  }

  /** Text that starts with a character that is neither white space, a sign nor a digit is NaN. */
  lemma ParseIntNaN(s: string)
    requires s == [] || (!IsJsWhiteSpace(s[0]) && s[0] != '+' && s[0] != '-' && !IsDigit(s[0], Decimal))
    ensures ParseInt(s) == None
  {
    assert TrimStart(s) == s;
    assert !HasHexPrefix(s);
    assert ParseUnsigned(s) == None;
  }

  lemma ParseIntDecimalExample()
    ensures ParseInt("42") == Some(42)
  {
    ParseIntReadsPrintedInt(42, "");
    assert IntToText(42) + "" == "42";
  }

  lemma ParseIntSignedExample()
    ensures ParseInt(" \t-7") == Some(-7)
  {
    ParseIntReadsPrintedInt(-7, "");
    assert IntToText(-7) + "" == "-7";
    ParseIntSkipsWhiteSpace(" \t", "-7");
    assert " \t" + "-7" == " \t-7";
  }

  lemma ParseIntTrailingTextExample()
    ensures ParseInt("12abc") == Some(12)
  {
    ParseIntReadsPrintedInt(12, "abc");
    assert IntToText(12) + "abc" == "12abc";
  }

  lemma ParseIntLettersExample()
    ensures ParseInt("abc") == None
  {
    ParseIntNaN("abc");
  }

  lemma ParseIntEmptyExample()
    ensures ParseInt("") == None
  {
    ParseIntNaN("");
  }

  lemma ParseIntHexExample()
    ensures ParseInt("0x1A") == Some(26)
  {
    var s := "0x1A";
    assert !IsJsWhiteSpace(s[0]) && s[0] != '+' && s[0] != '-';
    assert TrimStart(s) == s && WithoutSign(s) == s;
    assert HasHexPrefix(s) && s[2..] == "1A";
    var z := "1A";
    assert NumeralDigits(s) == z && NumeralRadix(s) == Hexadecimal;
    assert ParseUnsigned(s) == ParseDigits(z, Hexadecimal);
    assert DigitRunLength(z[1..], Hexadecimal) == 1;
    assert z[..2] == z && z[..1] == "1";
    assert DigitValue('A', Hexadecimal) == 10;
    assert DigitsValue(z, Hexadecimal) == DigitsValue("1", Hexadecimal) * 16 + 10;
  }

  lemma ParseIntBarePrefixExample()
    ensures ParseInt("0x") == None
  {
    assert TrimStart("0x") == "0x";
    assert WithoutSign("0x") == "0x" && HasHexPrefix("0x") && NumeralDigits("0x") == [];
    assert !StartsWithNumeral("0x");
  }
}
