/** Fixed-point decimals held in a 128-bit integer: their exact difference, their text, and the
    reading of that text, which restores every reachable decimal but the one whose units are the
    128-bit minimum. */
module Decimal {
  import opened JsonValue
  import opened JsonGrammar
  import opened DecimalText

  const I128_MAX: int := 0x7FFF_FFFF_FFFF_FFFF_FFFF_FFFF_FFFF_FFFF
  const I128_MIN: int := -I128_MAX - 1
  const I64_MAX: int := 0x7FFF_FFFF_FFFF_FFFF

  datatype Decimal = Decimal(units: int, scale: nat)

  /** What parsing and subtracting can produce, as `ReachableIff` shows. */
  predicate Reachable(d: Decimal) { I128_MIN <= d.units <= I128_MAX && d.scale <= 18 }

  function Checked(n: int): Option<int> { if I128_MIN <= n <= I128_MAX then Some(n) else None }

  /** The number a decimal stands for. */
  function Value(d: Decimal): real { d.units as real / Pow10(d.scale) as real }

  // ----- subtraction -----

  function Subtract(a: Decimal, b: Decimal): Option<Decimal> {
    var scale := if a.scale >= b.scale then a.scale else b.scale;
    var left :- Checked(a.units * Pow10(scale - a.scale));
    var right :- Checked(b.units * Pow10(scale - b.scale));
    var units :- Checked(left - right);
    Some(Decimal(units, scale))
  }

  lemma {:induction false} PowAdd(j: nat, k: nat)
    ensures Pow10(j + k) == Pow10(j) * Pow10(k)
  {
    if j > 0 { PowAdd(j - 1, k); }
  }

  /** Rescaling does not change the number. */
  lemma Rescale(d: Decimal, scale: nat)
    requires d.scale <= scale
    ensures Value(Decimal(d.units * Pow10(scale - d.scale), scale)) == Value(d)
  {
    PowAdd(d.scale, scale - d.scale);
    Cancel(d.units as real, Pow10(d.scale) as real, Pow10(scale - d.scale) as real);
  }

  lemma Cancel(x: real, p: real, q: real)
    requires p > 0.0 && q > 0.0
    ensures p * q != 0.0 && x * q / (p * q) == x / p
  {
    var y := x / p;
    assert y * p == x;
    assert x * q == y * (p * q);
  }

  lemma Difference(x: int, y: int, p: int)
    requires p > 0
    ensures (x - y) as real / p as real == x as real / p as real - y as real / p as real
  {
  }

  /** Subtraction is exact whenever it succeeds. */
  lemma SubtractExact(a: Decimal, b: Decimal)
    requires Subtract(a, b).Some?
    ensures Value(Subtract(a, b).value) == Value(a) - Value(b)
    ensures Reachable(a) && Reachable(b) ==> Reachable(Subtract(a, b).value)
  {
    var scale := if a.scale >= b.scale then a.scale else b.scale;
    hide Pow10, Value;
    Rescale(a, scale);
    Rescale(b, scale);
    Combine(a.units * Pow10(scale - a.scale), b.units * Pow10(scale - b.scale), scale);
  }

  lemma Combine(left: int, right: int, scale: nat)
    requires Pow10(scale) > 0
    ensures Value(Decimal(left - right, scale)) == Value(Decimal(left, scale)) - Value(Decimal(right, scale))
  {
    Difference(left, right, Pow10(scale));
  }

  // ----- text -----

  function Magnitude(n: int): nat { if n < 0 then -n else n }

  /** `to_text` */
  function ToDecimalText(d: Decimal): string {
    var sign := if d.units < 0 then "-" else "";
    if d.scale == 0 then sign + ToText(Magnitude(d.units))
    else
      var padded := Pad(Magnitude(d.units), d.scale + 1);
      assert |padded| >= d.scale + 1 by { PadReads(Magnitude(d.units), d.scale + 1); }
      var split := |padded| - d.scale;
      sign + padded[..split] + "." + padded[split..]
  }

  /** The first position of a character the set holds, or the length. */
  function Find(s: string, chars: set<char>): (k: nat)
    ensures k <= |s|
  {
    if s == "" || s[0] in chars then 0 else 1 + Find(s[1..], chars)
  }

  datatype Mantissa = Mantissa(whole: string, dotted: bool, fraction: string)

  function SplitDot(s: string): Mantissa {
    var k := Find(s, {'.'});
    if k == |s| then Mantissa(s, false, "") else Mantissa(s[..k], true, s[k + 1..])
  }

  function ParseExponent(s: string): Option<int> {
    var n :- ParseInteger(s, true);
    if -I64_MAX - 1 <= n <= I64_MAX then Some(n) else None
  }

  function ParseUnsigned(unsigned: string): Option<Decimal> {
    var k := Find(unsigned, {'e', 'E'});
    var exponent :- if k < |unsigned| then ParseExponent(unsigned[k + 1..]) else Some(0);
    var m := SplitDot(unsigned[..k]);
    if m.whole == "" || !AllDigits(m.whole) || !AllDigits(m.fraction) || (m.dotted && m.fraction == "") || !AllDigits(m.whole + m.fraction) then None
    else
      var units :- Checked(ValueOf(m.whole + m.fraction));
      var scale := |m.fraction| - exponent;
      if !(-38 <= scale <= 18) then None
      else if scale < 0 then
        var scaled :- Checked(units * Pow10(-scale));
        Some(Decimal(scaled, 0))
      else Some(Decimal(units, scale))
  }

  /** `Decimal::parse` */
  function Parse(raw: string): Option<Decimal> {
    if raw != "" && raw[0] == '-' then
      var d :- ParseUnsigned(raw[1..]);
      Some(Decimal(-d.units, d.scale))
    else ParseUnsigned(raw)
  }

  lemma {:induction false} FindAfterDigits(s: string, rest: string, chars: set<char>)
    requires AllDigits(s) && forall c :: c in chars ==> !IsDigit(c)
    ensures Find(s + rest, chars) == |s| + Find(rest, chars)
    decreases |s|
  {
    if s == "" {
      assert s + rest == rest;
    } else {
      FindAfterDigits(s[1..], rest, chars);
      assert (s + rest)[1..] == s[1..] + rest;
    }
  }

  /** Where the marks of a plain numeral are. */
  lemma NumeralMarks(whole: string, fraction: string)
    requires Digits1(whole) && Digits1(fraction)
    ensures var s := whole + "." + fraction; Find(s, {'e', 'E'}) == |s| && SplitDot(s) == Mantissa(whole, true, fraction)
  {
    var s, tail := whole + "." + fraction, "." + fraction;
    assert s == whole + tail && tail[0] == '.' && tail[1..] == fraction && fraction + "" == fraction;
    FindAfterDigits(whole, tail, {'e', 'E'});
    FindAfterDigits(whole, tail, {'.'});
    FindAfterDigits(fraction, "", {'e', 'E'});
    hide AllDigits;
    assert Find(tail, {'.'}) == 0 && Find("", {'e', 'E'}) == 0;
    assert Find(tail, {'e', 'E'}) == 1 + Find(fraction, {'e', 'E'});
    assert s[..|whole|] == whole && s[|whole| + 1..] == fraction;
  }

  /** A plain numeral with a fraction parses to its digits and the length of its fraction. */
  lemma NumeralParses(whole: string, fraction: string)
    requires Digits1(whole) && Digits1(fraction) && |fraction| <= 18
    ensures AllDigits(whole + fraction)
    ensures ParseUnsigned(whole + "." + fraction) ==
              if ValueOf(whole + fraction) <= I128_MAX then Some(Decimal(ValueOf(whole + fraction), |fraction|)) else None
  {
    hide AllDigits, ValueOf, Find, SplitDot;
    var s := whole + "." + fraction;
    DigitsConcat(whole, fraction);
    NumeralMarks(whole, fraction);
    assert s[..|s|] == s;
  }

  lemma IntegerParses(whole: string)
    requires Digits1(whole)
    ensures ParseUnsigned(whole) == if ValueOf(whole) <= I128_MAX then Some(Decimal(ValueOf(whole), 0)) else None
  {
    assert whole + "" == whole;
    FindAfterDigits(whole, "", {'e', 'E'});
    FindAfterDigits(whole, "", {'.'});
    assert whole[..|whole|] == whole;
  }

  lemma {:induction false} DigitsSplit(s: string, k: nat)
    requires AllDigits(s) && k <= |s|
    ensures AllDigits(s[..k]) && AllDigits(s[k..]) && s[..k] + s[k..] == s
  {
    assert s[..k] + s[k..] == s;
    DigitsConcat(s[..k], s[k..]);
  }

  lemma SignParses(unsigned: string, negative: bool)
    requires unsigned != "" && IsDigit(unsigned[0])
    ensures Parse((if negative then "-" else "") + unsigned) ==
              if !negative then ParseUnsigned(unsigned)
              else if ParseUnsigned(unsigned).Some?
              then Some(Decimal(-ParseUnsigned(unsigned).value.units, ParseUnsigned(unsigned).value.scale)) else None
  {
    hide ParseUnsigned;
    assert ("-" + unsigned)[1..] == unsigned;
    assert "" + unsigned == unsigned;
  }

  lemma IntegerRestores(units: int)
    requires I128_MIN <= units <= I128_MAX
    ensures Parse(ToDecimalText(Decimal(units, 0))) == Some(Decimal(units, 0)) <==> units != I128_MIN
  {
    var n := Magnitude(units);
    TextRoundTrip(n);
    hide Parse, ParseUnsigned, ToText;
    IntegerParses(ToText(n));
    SignParses(ToText(n), units < 0);
  }

  lemma FractionRestores(d: Decimal)
    requires Reachable(d) && d.scale > 0
    ensures Parse(ToDecimalText(d)) == Some(d) <==> d.units != I128_MIN
  {
    hide Parse, ParseUnsigned, Pad, ToDecimalText, AllDigits, ValueOf;
    var whole, fraction := FractionText(d);
    NumeralParses(whole, fraction);
    SignParses(whole + "." + fraction, d.units < 0);
  }

  /** A decimal with a scale is written as its sign, whole digits, a point and as many digits as its scale. */
  lemma FractionText(d: Decimal) returns (whole: string, fraction: string)
    requires Reachable(d) && d.scale > 0
    ensures Digits1(whole) && Digits1(fraction) && |fraction| == d.scale && IsDigit(whole[0])
    ensures AllDigits(whole + fraction) && ValueOf(whole + fraction) == Magnitude(d.units)
    ensures ToDecimalText(d) == (if d.units < 0 then "-" else "") + (whole + "." + fraction)
  {
    hide Pad, ValueOf;
    var sign := if d.units < 0 then "-" else "";
    var padded := Pad(Magnitude(d.units), d.scale + 1);
    PadReads(Magnitude(d.units), d.scale + 1);
    var split := |padded| - d.scale;
    DigitsSplit(padded, split);
    whole, fraction := padded[..split], padded[split..];
    assert sign + whole + "." + fraction == sign + (whole + "." + fraction);
  }

  /** Text restores units and scale for every reachable decimal but the one whose magnitude does not
      fit the signed range. */
  lemma TextRestores(d: Decimal)
    requires Reachable(d)
    ensures Parse(ToDecimalText(d)) == Some(d) <==> d.units != I128_MIN
  {
    hide Parse, ToDecimalText;
    if d.scale == 0 { IntegerRestores(d.units); } else { FractionRestores(d); }
  }

  // ----- what can be reached -----

  ghost predicate Parsed(d: Decimal) { exists raw :: Parse(raw) == Some(d) }

  ghost predicate Subtracted(d: Decimal) { exists a: Decimal, b: Decimal :: Parsed(a) && Parsed(b) && Subtract(a, b) == Some(d) }

  lemma ParseReaches(raw: string)
    ensures Parse(raw).Some? ==> Reachable(Parse(raw).value) && Parse(raw).value.units != I128_MIN
  {
    if raw != "" && raw[0] == '-' { UnsignedReaches(raw[1..]); } else { UnsignedReaches(raw); }
  }

  lemma UnsignedReaches(unsigned: string)
    ensures ParseUnsigned(unsigned).Some? ==> Reachable(ParseUnsigned(unsigned).value) && ParseUnsigned(unsigned).value.units >= 0
  {
    hide Pow10, ValueOf, AllDigits, Find, SplitDot, ParseExponent;
  }

  /** The units no text gives are reached by one subtraction, at every scale. */
  lemma MinimumReached(scale: nat)
    requires scale <= 18
    ensures var a, b := Decimal(-I128_MAX, scale), Decimal(1, scale);
            Parse(ToDecimalText(a)) == Some(a) && Parse(ToDecimalText(b)) == Some(b) && Subtract(a, b) == Some(Decimal(I128_MIN, scale))
  {
    hide Parse, ToDecimalText;
    TextRestores(Decimal(-I128_MAX, scale));
    TextRestores(Decimal(1, scale));
  }

  /** A decimal is reachable exactly when some text parses to it or it is the difference of two that do;
      the 128-bit minimum is of the second kind only. */
  lemma ReachableIff(d: Decimal)
    ensures Reachable(d) <==> Parsed(d) || Subtracted(d)
    ensures Parsed(d) <==> Reachable(d) && d.units != I128_MIN
  {
    hide Parse, ToDecimalText, Subtract;
    if Parsed(d) {
      var raw :| Parse(raw) == Some(d);
      ParseReaches(raw);
    }
    if Subtracted(d) {
      var a: Decimal, b: Decimal :| Parsed(a) && Parsed(b) && Subtract(a, b) == Some(d);
      var s :| Parse(s) == Some(a);
      var t :| Parse(t) == Some(b);
      ParseReaches(s);
      ParseReaches(t);
      SubtractExact(a, b);
    }
    if Reachable(d) {
      TextRestores(d);
      if d.units == I128_MIN { MinimumReached(d.scale); }
    }
  }

  // ----- what a text stands for -----

  datatype Exponent = Exponent(mark: char, sign: string, digits: string)

  /** A sign, whole digits, a fraction and a power of ten. */
  datatype Numeral = Numeral(negative: bool, whole: string, fraction: Option<string>, exponent: Option<Exponent>)

  predicate Formed(n: Numeral) {
    && Digits1(n.whole)
    && (n.fraction.Some? ==> Digits1(n.fraction.value))
    && (n.exponent.Some? ==>
          && (n.exponent.value.mark == 'e' || n.exponent.value.mark == 'E')
          && (n.exponent.value.sign == "" || n.exponent.value.sign == "+" || n.exponent.value.sign == "-")
          && Digits1(n.exponent.value.digits))
  }

  function Fraction(n: Numeral): string { if n.fraction.Some? then n.fraction.value else "" }

  function Power(e: Option<Exponent>): string { if e.Some? then [e.value.mark] + (e.value.sign + e.value.digits) else "" }

  function MantissaText(n: Numeral): string { n.whole + if n.fraction.Some? then "." + n.fraction.value else "" }

  function Unsigned(n: Numeral): string { MantissaText(n) + Power(n.exponent) }

  function Spelling(n: Numeral): string { (if n.negative then "-" else "") + Unsigned(n) }

  function PowerOf(n: Numeral): int
    requires Formed(n)
  {
    if n.exponent.None? then 0
    else if n.exponent.value.sign == "-" then -(ValueOf(n.exponent.value.digits) as int)
    else ValueOf(n.exponent.value.digits)
  }

  function DigitsOf(n: Numeral): nat
    requires Formed(n)
  {
    DigitsConcat(n.whole, Fraction(n));
    ValueOf(n.whole + Fraction(n))
  }

  function Tens(k: int): real { if k >= 0 then Pow10(k) as real else 1.0 / Pow10(-k) as real }

  /** The number in the text. */
  function NumberOf(n: Numeral): real
    requires Formed(n)
  {
    (if n.negative then -1.0 else 1.0) * (DigitsOf(n) as real * Tens(PowerOf(n) - |Fraction(n)|))
  }

  /** The digits fit, the power is a 64-bit one, and at most 18 decimals and 38 further zeros remain, that fit too. */
  predicate Fits(n: Numeral)
    requires Formed(n)
  {
    var places := |Fraction(n)| - PowerOf(n);
    && DigitsOf(n) <= I128_MAX && -I64_MAX - 1 <= PowerOf(n) <= I64_MAX && -38 <= places <= 18
    && (places < 0 ==> DigitsOf(n) * Pow10(-places) <= I128_MAX)
  }

  lemma PowerMarks(n: Numeral)
    requires Formed(n)
    ensures Find(Unsigned(n), {'e', 'E'}) == |MantissaText(n)|
    ensures Unsigned(n)[..|MantissaText(n)|] == MantissaText(n)
    ensures n.exponent.Some? ==>
              |MantissaText(n)| < |Unsigned(n)| && Unsigned(n)[|MantissaText(n)| + 1..] == n.exponent.value.sign + n.exponent.value.digits
    ensures n.exponent.None? ==> |MantissaText(n)| == |Unsigned(n)|
  {
    var power := Power(n.exponent);
    hide AllDigits;
    assert Find(power, {'e', 'E'}) == 0;
    if n.fraction.Some? {
      var tail := "." + n.fraction.value + power;
      assert Unsigned(n) == n.whole + tail;
      FindAfterDigits(n.whole, tail, {'e', 'E'});
      FindAfterDigits(n.fraction.value, power, {'e', 'E'});
      assert tail[0] == '.' && tail[1..] == n.fraction.value + power;
    } else {
      assert Unsigned(n) == n.whole + power;
      FindAfterDigits(n.whole, power, {'e', 'E'});
    }
  }

  lemma PointMarks(n: Numeral)
    requires Formed(n)
    ensures SplitDot(MantissaText(n)) == Mantissa(n.whole, n.fraction.Some?, Fraction(n))
  {
    if n.fraction.Some? {
      NumeralMarks(n.whole, n.fraction.value);
      assert MantissaText(n) == n.whole + "." + n.fraction.value;
    } else {
      assert n.whole + "" == n.whole;
      FindAfterDigits(n.whole, "", {'.'});
    }
  }

  lemma FirstDigit(digits: string)
    requires Digits1(digits)
    ensures IsDigit(digits[0]) && digits[0] != '+' && digits[0] != '-'
  {
  }

  lemma PowerParses(n: Numeral)
    requires Formed(n) && n.exponent.Some?
    ensures ParseInteger(n.exponent.value.sign + n.exponent.value.digits, true) == Some(PowerOf(n))
  {
    var sign, digits := n.exponent.value.sign, n.exponent.value.digits;
    FirstDigit(digits);
    hide AllDigits, ValueOf;
    if sign == "" { assert sign + digits == digits; } else { assert (sign + digits)[1..] == digits; }
  }

  lemma ExponentReads(n: Numeral)
    requires Formed(n)
    ensures var unsigned, k := Unsigned(n), |MantissaText(n)|;
            && k <= |unsigned|
            && (if k < |unsigned| then ParseExponent(unsigned[k + 1..]) else Some(0)) ==
                 if -I64_MAX - 1 <= PowerOf(n) <= I64_MAX then Some(PowerOf(n)) else None
  {
    PowerMarks(n);
    if n.exponent.Some? { PowerParses(n); }
    hide ParseInteger, Unsigned, MantissaText, ValueOf, AllDigits, Find;
  }

  lemma DigitsGood(n: Numeral)
    requires Formed(n)
    ensures AllDigits(n.whole) && n.whole != "" && AllDigits(Fraction(n)) && (n.fraction.Some? ==> Fraction(n) != "")
    ensures AllDigits(n.whole + Fraction(n)) && ValueOf(n.whole + Fraction(n)) == DigitsOf(n)
  {
    DigitsConcat(n.whole, Fraction(n));
    hide ValueOf;
  }

  /** What a well-formed text parses to. */
  lemma UnsignedParses(n: Numeral)
    requires Formed(n)
    ensures var places := |Fraction(n)| - PowerOf(n);
            ParseUnsigned(Unsigned(n)) ==
              if !Fits(n) then None
              else if places < 0 then Some(Decimal(DigitsOf(n) * Pow10(-places), 0))
              else Some(Decimal(DigitsOf(n), places))
  {
    hide Find, SplitDot, ParseExponent, ValueOf, AllDigits, Pow10, Unsigned, MantissaText, DigitsOf, PowerOf, Fraction, Formed;
    PowerMarks(n);
    PointMarks(n);
    ExponentReads(n);
    DigitsGood(n);
    ScaledPositive(DigitsOf(n), |Fraction(n)| - PowerOf(n));
  }

  lemma ScaledPositive(digits: nat, places: int)
    ensures places < 0 ==> digits * Pow10(-places) >= 0
  {
  }

  lemma TensOf(digits: nat, places: int)
    ensures places < 0 ==> Value(Decimal(digits * Pow10(-places), 0)) == digits as real * Tens(-places)
    ensures places >= 0 ==> Value(Decimal(digits, places)) == digits as real * Tens(-places)
  {
    if places < 0 {
      assert (digits * Pow10(-places)) as real == digits as real * Pow10(-places) as real;
    } else {
      assert Pow10(0) == 1;
      Reciprocal(digits as real, Pow10(places) as real);
    }
  }

  lemma Reciprocal(x: real, p: real)
    requires p > 0.0
    ensures x / p == x * (1.0 / p)
  {
    var y := 1.0 / p;
    assert y * p == 1.0;
    assert x * y * p == x;
  }

  lemma Negated(units: int, scale: nat)
    ensures Value(Decimal(-units, scale)) == -1.0 * Value(Decimal(units, scale))
  {
    var p := Pow10(scale) as real;
    assert (-units) as real == -1.0 * units as real;
    Reciprocal(units as real, p);
    Reciprocal((-units) as real, p);
  }

  /** A well-formed text parses exactly when it fits, and then to the very number it stands for, to its places. */
  lemma SpellingParses(n: Numeral)
    requires Formed(n)
    ensures Parse(Spelling(n)).Some? <==> Fits(n)
    ensures Fits(n) ==>
              var d, places := Parse(Spelling(n)).value, |Fraction(n)| - PowerOf(n);
              Value(d) == NumberOf(n) && d.scale == if places < 0 then 0 else places
  {
    hide ParseUnsigned, Unsigned, Pow10, Tens, Value, Fits, DigitsOf, PowerOf, Fraction, Formed, Parse;
    UnsignedParses(n);
    UnsignedStarts(n);
    var unsigned, places := Unsigned(n), |Fraction(n)| - PowerOf(n);
    SignParses(unsigned, n.negative);
    TensOf(DigitsOf(n), places);
    if Fits(n) { Negated(ParseUnsigned(unsigned).value.units, ParseUnsigned(unsigned).value.scale); }
  }

  lemma UnsignedStarts(n: Numeral)
    requires Formed(n)
    ensures Unsigned(n) != "" && IsDigit(Unsigned(n)[0])
  {
    assert Unsigned(n)[0] == n.whole[0];
  }

  lemma {:induction false} FindStops(s: string, chars: set<char>)
    ensures Find(s, chars) < |s| ==> s[Find(s, chars)] in chars
    decreases |s|
  {
    if s != "" && s[0] !in chars { FindStops(s[1..], chars); }
  }

  lemma IntegerForm(s: string) returns (sign: string, digits: string)
    requires ParseInteger(s, true).Some?
    ensures s == sign + digits && Digits1(digits) && (sign == "" || sign == "+" || sign == "-")
  {
    if s[0] == '+' || s[0] == '-' {
      sign, digits := s[..1], s[1..];
    } else {
      sign, digits := "", s;
    }
  }

  lemma MantissaForm(mantissa: string) returns (whole: string, fraction: Option<string>)
    ensures mantissa == whole + (if fraction.Some? then "." + fraction.value else "")
    ensures SplitDot(mantissa) == Mantissa(whole, fraction.Some?, if fraction.Some? then fraction.value else "")
  {
    FindStops(mantissa, {'.'});
    var m := SplitDot(mantissa);
    whole, fraction := m.whole, if m.dotted then Some(m.fraction) else None;
  }

  lemma PowerForm(unsigned: string) returns (exponent: Option<Exponent>)
    requires ParseUnsigned(unsigned).Some?
    ensures unsigned[Find(unsigned, {'e', 'E'})..] == Power(exponent)
    ensures exponent.Some? ==>
              && (exponent.value.mark == 'e' || exponent.value.mark == 'E')
              && (exponent.value.sign == "" || exponent.value.sign == "+" || exponent.value.sign == "-")
              && Digits1(exponent.value.digits)
  {
    var k := Find(unsigned, {'e', 'E'});
    FindStops(unsigned, {'e', 'E'});
    hide Find, ParseInteger, SplitDot, ValueOf, AllDigits;
    exponent := None;
    if k < |unsigned| {
      var sign, digits := IntegerForm(unsigned[k + 1..]);
      exponent := Some(Exponent(unsigned[k], sign, digits));
      assert unsigned[k..] == [unsigned[k]] + unsigned[k + 1..];
    }
  }

  lemma UnsignedForm(unsigned: string, negative: bool) returns (n: Numeral)
    requires ParseUnsigned(unsigned).Some?
    ensures Formed(n) && Unsigned(n) == unsigned && n.negative == negative
  {
    hide Find, ParseExponent, SplitDot, ValueOf, AllDigits, Power, Pow10;
    var k := Find(unsigned, {'e', 'E'});
    var exponent := PowerForm(unsigned);
    var whole, fraction := MantissaForm(unsigned[..k]);
    n := Numeral(negative, whole, fraction, exponent);
    assert unsigned == unsigned[..k] + unsigned[k..];
  }

  /** Only well-formed texts parse, so this says what every text parses to. */
  lemma ParseIff(raw: string)
    ensures Parse(raw).Some? <==> exists n :: Formed(n) && Spelling(n) == raw && Fits(n)
    ensures forall n :: Formed(n) && Spelling(n) == raw && Fits(n) ==> Value(Parse(raw).value) == NumberOf(n)
  {
    hide ParseUnsigned, Fits, NumberOf, Unsigned;
    forall n | Formed(n) && Spelling(n) == raw ensures (Parse(raw).Some? <==> Fits(n)) && (Fits(n) ==> Value(Parse(raw).value) == NumberOf(n)) {
      SpellingParses(n);
    }
    if Parse(raw).Some? {
      var negative := raw != "" && raw[0] == '-';
      var n := UnsignedForm(if negative then raw[1..] else raw, negative);
      assert Spelling(n) == raw;
    }
  }
}
