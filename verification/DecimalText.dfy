/** Decimal numerals: `to_string` of an unsigned integer and the value of a digit string, padded
    and unpadded, each undoing the other on numerals without leading zeros. */
module DecimalText {
  import opened JsonValue
  import opened JsonGrammar

  function Digit(d: int): (c: char)
    requires 0 <= d < 10
    ensures IsDigit(c) && c as int == '0' as int + d
  {
    ('0' as int + d) as char
  }

  function DigitValue(c: char): (d: int)
    requires IsDigit(c)
    ensures 0 <= d < 10 && Digit(d) == c
  {
    c as int - '0' as int
  }

  /** No sign, no leading zero. */
  function ToText(n: nat): (s: string)
    ensures Digits1(s)
  {
    if n < 10 then
      assert [Digit(n)][1..] == [] && AllDigits([]);
      [Digit(n)]
    else
      DigitsSnoc(ToText(n / 10), Digit(n % 10));
      ToText(n / 10) + [Digit(n % 10)]
  }

  function ValueOf(s: string): nat
    requires AllDigits(s)
    decreases |s|
  {
    if s == [] then 0
    else
      DigitsLast(s);
      ValueOf(s[..|s| - 1]) * 10 + DigitValue(s[|s| - 1])
  }

  lemma {:induction false} DigitsLast(s: string)
    requires AllDigits(s) && s != []
    ensures AllDigits(s[..|s| - 1]) && IsDigit(s[|s| - 1])
    decreases |s|
  {
    if |s| > 1 {
      DigitsLast(s[1..]);
      assert s[..|s| - 1] == [s[0]] + s[1..][..|s| - 2];
      assert s[..|s| - 1][1..] == s[1..][..|s| - 2];
    }
  }

  lemma {:induction false} DigitsSnoc(s: string, c: char)
    requires AllDigits(s) && IsDigit(c)
    ensures AllDigits(s + [c])
    decreases |s|
  {
    if s == [] {
      assert (s + [c])[1..] == [];
    } else {
      DigitsSnoc(s[1..], c);
      assert (s + [c])[1..] == s[1..] + [c];
    }
  }

  lemma {:induction false} DigitsConcat(s: string, t: string)
    ensures AllDigits(s + t) <==> AllDigits(s) && AllDigits(t)
    decreases |s|
  {
    if s == [] {
      assert s + t == t;
    } else {
      DigitsConcat(s[1..], t);
      assert (s + t)[1..] == s[1..] + t;
    }
  }

  lemma ValueSnoc(s: string, c: char)
    requires AllDigits(s) && IsDigit(c)
    ensures AllDigits(s + [c]) && ValueOf(s + [c]) == ValueOf(s) * 10 + DigitValue(c)
  {
    DigitsSnoc(s, c);
    assert (s + [c])[..|s|] == s;
  }

  /** A numeral reads back as its number and never starts with a needless zero. */
  lemma {:induction false} TextRoundTrip(n: nat)
    ensures ValueOf(ToText(n)) == n
    ensures GoodWhole(ToText(n))
  {
    if n < 10 {
      assert [Digit(n)][..0] == [];
    } else {
      TextRoundTrip(n / 10);
      ValueSnoc(ToText(n / 10), Digit(n % 10));
      assert ToText(n)[0] == ToText(n / 10)[0];
    }
  }

  lemma {:induction false} ValuePositive(s: string)
    requires Digits1(s) && s[0] != '0'
    ensures ValueOf(s) > 0
    decreases |s|
  {
    if |s| > 1 {
      DigitsLast(s);
      assert s[..|s| - 1][0] == s[0];
      ValuePositive(s[..|s| - 1]);
    } else {
      assert s[..0] == [];
    }
  }

  /** The only numeral of a number without a needless zero. */
  lemma {:induction false} TextUnique(s: string)
    requires GoodWhole(s)
    ensures ToText(ValueOf(s)) == s
    decreases |s|
  {
    if |s| == 1 {
      assert s[..0] == [];
      assert s == [s[0]];
    } else {
      DigitsLast(s);
      var t := s[..|s| - 1];
      assert t[0] == s[0];
      TextUnique(t);
      ValuePositive(t);
      assert ValueOf(s) / 10 == ValueOf(t);
      assert s == t + [s[|s| - 1]];
    }
  }

  function Pow10(k: nat): (p: nat)
    ensures p > 0
  {
    if k == 0 then 1 else 10 * Pow10(k - 1)
  }

  lemma {:induction false} TextLength(n: nat, k: nat)
    requires k > 0 && n < Pow10(k)
    ensures |ToText(n)| <= k
    decreases k
  {
    if n >= 10 {
      assert k > 1;
      TextLength(n / 10, k - 1);
    }
  }

  function Zeros(k: nat): (z: string)
    ensures |z| == k
  {
    if k == 0 then "" else "0" + Zeros(k - 1)
  }

  /** `{n:0w}` and `{digits:0>w}`: zeros in front up to the width. */
  function Pad(n: nat, w: nat): string {
    var t := ToText(n);
    if |t| < w then Zeros(w - |t|) + t else t
  }

  lemma ValueCons(s: string)
    requires AllDigits(s)
    ensures AllDigits("0" + s) && ValueOf("0" + s) == ValueOf(s)
    decreases |s|
  {
    assert ("0" + s)[1..] == s;
    if s == [] {
      assert "0" + s == "0" && "0"[..0] == [];
    } else {
      var n := |s| - 1;
      DigitsLast(s);
      ValueCons(s[..n]);
      assert ("0" + s)[..n + 1] == "0" + s[..n];
    }
  }

  lemma {:induction false} ValueZeros(k: nat, s: string)
    requires AllDigits(s)
    ensures AllDigits(Zeros(k) + s) && ValueOf(Zeros(k) + s) == ValueOf(s)
  {
    if k == 0 {
      assert Zeros(0) + s == s;
    } else {
      ValueZeros(k - 1, s);
      ValueCons(Zeros(k - 1) + s);
      assert Zeros(k) + s == "0" + (Zeros(k - 1) + s);
    }
  }

  /** A padded number that fits its width fills it exactly and reads back. */
  lemma PadReads(n: nat, w: nat)
    requires w > 0
    ensures Digits1(Pad(n, w)) && ValueOf(Pad(n, w)) == n && |Pad(n, w)| >= w
    ensures n < Pow10(w) ==> |Pad(n, w)| == w
  {
    TextRoundTrip(n);
    if n < Pow10(w) { TextLength(n, w); }
    var t := ToText(n);
    if |t| < w { ValueZeros(w - |t|, t); }
  }

  /** `parse::<u32>` and, with `signed`, `parse::<i64>` before its range check. */
  function ParseInteger(s: string, signed: bool): Option<int> {
    if s == "" then None
    else if s[0] == '+' || (signed && s[0] == '-') then
      if Digits1(s[1..]) then
        var n: int := ValueOf(s[1..]);
        Some(if s[0] == '-' then -n else n)
      else None
    else if Digits1(s) then Some(ValueOf(s))
    else None
  }
}
