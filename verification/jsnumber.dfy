/** The global `parseInt(string)` called without a radix, as the ECMAScript
    standard defines it (section 19.2.5 of ECMA-262), restricted to the values
    it can return: `NaN` or an integer. */
module JsNumber {
  import opened Chars
  import opened Decimal

  /** A number that `parseInt` can produce. `-0` is not told apart from `0`:
      both are falsy, which is all the launcher ever asks of it. */
  datatype Number = NaN | Num(value: int) {

    /** JavaScript truthiness: `NaN`, `0` and `-0` are falsy. */
    predicate Truthy() {
      Num? && value != 0
    }
  }

  /** The string without its leading StrWhiteSpaceChar characters. */
  function TrimStart(s: string): (t: string)
    ensures |t| <= |s|
    ensures t == s[|s| - |t|..]
    ensures AllSpace(s[..|s| - |t|])
    ensures |t| > 0 ==> !IsSpace(t[0])
    decreases |s|
  {
    if |s| > 0 && IsSpace(s[0]) then TrimStart(s[1..]) else s
  }

  /** A digit of radix 10 or radix 16 (letters in either case). */
  predicate IsRadixDigit(c: char, hex: bool) {
    IsDecimalDigit(c) || (hex && (('a' <= c <= 'f') || ('A' <= c <= 'F')))
  }

  /** The value of one digit character. */
  function DigitValue(c: char, hex: bool): (d: nat)
    requires IsRadixDigit(c, hex)
    ensures d < (if hex then 16 else 10)
  {
    if IsDecimalDigit(c) then c as int - 48
    else if 'a' <= c <= 'f' then c as int - 87
    else c as int - 55
  }

  /** The length of the longest prefix of `s` made of digits. */
  function DigitRun(s: string, hex: bool): (n: nat)
    ensures n <= |s|
    ensures forall i :: 0 <= i < n ==> IsRadixDigit(s[i], hex)
    ensures n < |s| ==> !IsRadixDigit(s[n], hex)
    decreases |s|
  {
    if |s| > 0 && IsRadixDigit(s[0], hex) then 1 + DigitRun(s[1..], hex) else 0
  }

  /** The value of a string of digits, most significant first. */
  function RadixValue(s: string, hex: bool): nat
    requires forall i :: 0 <= i < |s| ==> IsRadixDigit(s[i], hex)
  {
    if |s| == 0 then 0
    else RadixValue(s[..|s| - 1], hex) * (if hex then 16 else 10) + DigitValue(s[|s| - 1], hex)
  }

  /** The magnitude `parseInt` reads once white space and sign are gone: a
      `0x` or `0X` prefix switches to radix 16, then the longest run of digits
      is read; no digits at all gives `NaN`. */
  function ParseMagnitude(u: string): Number
  {
    var hex := |u| >= 2 && u[0] == '0' && (u[1] == 'x' || u[1] == 'X');
    var v := if hex then u[2..] else u;
    var z := v[..DigitRun(v, hex)];
    if |z| == 0 then NaN else Num(RadixValue(z, hex))
  }

  /** `parseInt` after leading white space is gone: an optional sign, then the
      magnitude. */
  function ParseSigned(t: string): Number
  {
    if |t| > 0 && (t[0] == '-' || t[0] == '+') then
      match ParseMagnitude(t[1..])
      case NaN => NaN
      case Num(m) => Num(if t[0] == '-' then -m else m)
    else ParseMagnitude(t)
  }

  /** `parseInt(s)`: skip leading white space, take an optional sign, switch
      to radix 16 after a `0x` or `0X` prefix, then read the longest run of
      digits; no digits at all gives `NaN`. Whatever follows the digits is
      ignored. */
  function ParseInt(s: string): Number
  {
    ParseSigned(TrimStart(s))
  }

  /** On decimal digits the radix-10 reading is the ordinary decimal value. */
  lemma {:induction false} RadixValueDecimal(s: string)
    requires AllDecimalDigits(s)
    ensures RadixValue(s, false) == DecimalValue(s)
    decreases |s|
  {
    if |s| > 0 {
      RadixValueDecimal(s[..|s| - 1]);
    }
  }

  /** The digit run of a digit string followed by a non-digit stops exactly
      at the end of the digits. */
  lemma {:induction false} DigitRunOfDigitsThen(a: string, t: string, hex: bool)
    requires forall i :: 0 <= i < |a| ==> IsRadixDigit(a[i], hex)
    requires |t| == 0 || !IsRadixDigit(t[0], hex)
    ensures DigitRun(a + t, hex) == |a|
    decreases |a|
  {
    if |a| > 0 {
      DigitRunOfDigitsThen(a[1..], t, hex);
      assert (a + t)[1..] == a[1..] + t;
    } else {
      assert a + t == t;
    }
  }

  /** `parseInt` reads back the numeral `String(i)` of any integer, whatever
      follows it, provided the next character does not extend the numeral:
      it is not a decimal digit, and for `0` it is not the `x` of a hex
      prefix. */
  lemma ParseIntOfNumeral(i: int, rest: string)
    requires |rest| == 0 || !IsDecimalDigit(rest[0])
    requires i == 0 && |rest| > 0 ==> rest[0] != 'x' && rest[0] != 'X'
    ensures ParseInt(IntToString(i) + rest) == Num(i)
  {
    if i < 0 {
      NegativeNumeral(i, rest);
    } else {
      NonNegativeNumeral(i, rest);
    }
  }

  /** The non-negative half of `ParseIntOfNumeral`. */
  lemma NonNegativeNumeral(m: nat, rest: string)
    requires |rest| == 0 || !IsDecimalDigit(rest[0])
    requires m == 0 && |rest| > 0 ==> rest[0] != 'x' && rest[0] != 'X'
    ensures ParseInt(NatToString(m) + rest) == Num(m)
  {
    var u := NatToString(m) + rest;
    MagnitudeOfNumeral(m, rest);
    NotSpaceThenTrimmed(u);
    assert ParseInt(u) == ParseSigned(u);
    assert u[0] != '-' && u[0] != '+';
    assert ParseSigned(u) == ParseMagnitude(u);
  }

  /** The negative half of `ParseIntOfNumeral`. */
  lemma NegativeNumeral(i: int, rest: string)
    requires i < 0
    requires |rest| == 0 || !IsDecimalDigit(rest[0])
    ensures ParseInt(IntToString(i) + rest) == Num(i)
  {
    var m: nat := -i;
    var u := NatToString(m) + rest;
    var s := "-" + u;
    assert IntToString(i) + rest == s;
    MagnitudeOfNumeral(m, rest);
    NotSpaceThenTrimmed(s);
    assert ParseInt(s) == ParseSigned(s);
    assert s[1..] == u;
    assert s[0] == '-';
  }

  /** A string that starts with a digit or a minus sign has no leading white
      space to trim. */
  lemma NotSpaceThenTrimmed(s: string)
    requires |s| > 0 && (IsDecimalDigit(s[0]) || s[0] == '-')
    ensures TrimStart(s) == s
  {
    assert !IsSpace(s[0]);
  }

  /** The unsigned part of the numeral round trip. */
  lemma MagnitudeOfNumeral(m: nat, rest: string)
    requires |rest| == 0 || !IsDecimalDigit(rest[0])
    requires m == 0 && |rest| > 0 ==> rest[0] != 'x' && rest[0] != 'X'
    ensures ParseMagnitude(NatToString(m) + rest) == Num(m)
  {
    var digits := NatToString(m);
    var u := digits + rest;
    assert !(|u| >= 2 && u[0] == '0' && (u[1] == 'x' || u[1] == 'X')) by {
      if |u| >= 2 && u[0] == '0' {
        assert m == 0;
        assert |digits| == 1;
        assert u[1] == rest[0];
      }
    }
    DigitRunOfDigitsThen(digits, rest, false);
    assert u[..|digits|] == digits;
    RadixValueDecimal(digits);
    DecimalValueOfNatToString(m);
  }

  /** `parseInt(String(i))` is `i`: the numeral round trip. */
  lemma ParseIntRoundTrip(i: int)
    ensures ParseInt(IntToString(i)) == Num(i)
  {
    ParseIntOfNumeral(i, "");
    assert IntToString(i) + "" == IntToString(i);
  }

  /** Leading white space is skipped entirely. */
  lemma {:induction false} TrimStartSkipsSpace(ws: string, s: string)
    requires AllSpace(ws)
    ensures TrimStart(ws + s) == TrimStart(s)
    decreases |ws|
  {
    if |ws| > 0 {
      assert (ws + s)[1..] == ws[1..] + s;
      TrimStartSkipsSpace(ws[1..], s);
    } else {
      assert ws + s == s;
    }
  }

  /** Leading white space never changes what `parseInt` reads. */
  lemma ParseIntSkipsSpace(ws: string, s: string)
    requires AllSpace(ws)
    ensures ParseInt(ws + s) == ParseInt(s)
  {
    TrimStartSkipsSpace(ws, s);
  }
}
