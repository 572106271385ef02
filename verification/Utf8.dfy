/** UTF-8 encoding of text, and the lossy decoding that replaces broken characters: a broken
    character is replaced up to the first byte that cannot belong to it, and the bytes of a text
    always decode to that text. */
module Utf8 {
  import opened Sequences

  type Byte = b: int | 0 <= b < 0x100

  function CharBytes(c: char): (bs: seq<Byte>)
    ensures 1 <= |bs| <= 4
  {
    var n := c as int;
    if n < 0x80 then [n]
    else if n < 0x800 then [0xC0 + n / 0x40, 0x80 + n % 0x40]
    else if n < 0x1_0000 then [0xE0 + n / 0x1000, 0x80 + n / 0x40 % 0x40, 0x80 + n % 0x40]
    else [0xF0 + n / 0x4_0000, 0x80 + n / 0x1000 % 0x40, 0x80 + n / 0x40 % 0x40, 0x80 + n % 0x40]
  }

  function Bytes(s: string): seq<Byte> { if s == "" then [] else CharBytes(s[0]) + Bytes(s[1..]) }

  predicate Trails(b: Byte) { 0x80 <= b <= 0xBF }

  /** The second byte of a three- or four-byte character: no overlong form, no surrogate, nothing above U+10FFFF. */
  predicate Second(lead: Byte, b: Byte) {
    && Trails(b)
    && (lead == 0xE0 ==> b >= 0xA0) && (lead == 0xED ==> b <= 0x9F)
    && (lead == 0xF0 ==> b >= 0x90) && (lead == 0xF4 ==> b <= 0x8F)
  }

  const REPLACEMENT: char := '\U{FFFD}'

  /** Payload bits, most significant first, six to each trailing byte. */
  function Scalar(bits: seq<int>): int
    requires 2 <= |bits| <= 4
  {
    if |bits| == 2 then bits[0] * 0x40 + bits[1]
    else if |bits| == 3 then bits[0] * 0x1000 + bits[1] * 0x40 + bits[2]
    else bits[0] * 0x4_0000 + bits[1] * 0x1000 + bits[2] * 0x40 + bits[3]
  }

  /** The first character of a byte sequence and its length; a broken one is replaced up to the first
      byte that cannot belong to it. */
  function FirstChar(bs: seq<Byte>): (r: (char, nat))
    requires bs != []
    ensures 1 <= r.1 <= |bs|
  {
    var a := bs[0];
    if a < 0x80 then (a as char, 1)
    else if 0xC2 <= a <= 0xDF then
      if |bs| < 2 || !Trails(bs[1]) then (REPLACEMENT, 1)
      else (Scalar([a - 0xC0, bs[1] - 0x80]) as char, 2)
    else if 0xE0 <= a <= 0xEF then
      if |bs| < 2 || !Second(a, bs[1]) then (REPLACEMENT, 1)
      else if |bs| < 3 || !Trails(bs[2]) then (REPLACEMENT, 2)
      else (Scalar([a - 0xE0, bs[1] - 0x80, bs[2] - 0x80]) as char, 3)
    else if 0xF0 <= a <= 0xF4 then
      if |bs| < 2 || !Second(a, bs[1]) then (REPLACEMENT, 1)
      else if |bs| < 3 || !Trails(bs[2]) then (REPLACEMENT, 2)
      else if |bs| < 4 || !Trails(bs[3]) then (REPLACEMENT, 3)
      else (Scalar([a - 0xF0, bs[1] - 0x80, bs[2] - 0x80, bs[3] - 0x80]) as char, 4)
    else (REPLACEMENT, 1)
  }

  /** `String::from_utf8_lossy` */
  function Lossy(bs: seq<Byte>): string
    decreases |bs|
  {
    if bs == [] then "" else [FirstChar(bs).0] + Lossy(bs[FirstChar(bs).1..])
  }

  lemma FirstOfChar(c: char, rest: seq<Byte>)
    ensures FirstChar(CharBytes(c) + rest) == (c, |CharBytes(c)|)
  {
    var bs := CharBytes(c) + rest;
    assert forall k :: 0 <= k < |CharBytes(c)| ==> bs[k] == CharBytes(c)[k];
    Sixes(c as int);
  }

  /** A number is its six-bit digits. */
  lemma Sixes(n: nat)
    ensures n == n / 0x40 * 0x40 + n % 0x40
    ensures n == n / 0x1000 * 0x1000 + n / 0x40 % 0x40 * 0x40 + n % 0x40
    ensures n == n / 0x4_0000 * 0x4_0000 + n / 0x1000 % 0x40 * 0x1000 + n / 0x40 % 0x40 * 0x40 + n % 0x40
  {
    var a, b := n / 0x40, n / 0x1000;
    Twelve(n);
    Eighteen(n);
    Six(n);
    Six(a);
    Six(b);
  }

  lemma Six(n: nat) ensures n == n / 0x40 * 0x40 + n % 0x40 { }

  lemma Twelve(n: nat) ensures n / 0x1000 == n / 0x40 / 0x40 { }

  lemma Eighteen(n: nat) ensures n / 0x4_0000 == n / 0x1000 / 0x40 { }

  lemma {:induction false} LossyUtf8(s: string)
    ensures Lossy(Bytes(s)) == s
    decreases |s|
  {
    if s != "" {
      var rest := Bytes(s[1..]);
      LossyUtf8(s[1..]);
      FirstOfChar(s[0], rest);
      hide FirstChar, CharBytes;
      assert (CharBytes(s[0]) + rest)[|CharBytes(s[0])|..] == rest;
      assert s == [s[0]] + s[1..];
    }
  }

  lemma {:induction false} BytesConcat(s: string, t: string)
    ensures Bytes(s + t) == Bytes(s) + Bytes(t)
    decreases |s|
  {
    if s == "" {
      assert s + t == t;
    } else {
      hide CharBytes;
      BytesConcat(s[1..], t);
      assert (s + t)[1..] == s[1..] + t;
      Regroup(CharBytes(s[0]), Bytes(s[1..]), Bytes(t));
    }
  }

  // ----- broken bytes -----

  /** The first bytes of some character. */
  ghost predicate Begins(bs: seq<Byte>) { exists c :: bs <= CharBytes(c) }

  predicate TwoLead(a: Byte) { 0xC2 <= a <= 0xDF }

  predicate ThreeLead(a: Byte) { 0xE0 <= a <= 0xEF }

  predicate FourLead(a: Byte) { 0xF0 <= a <= 0xF4 }

  /** What the bytes of a character look like. */
  lemma BytesOfChar(c: char)
    ensures var bs := CharBytes(c);
            && (|bs| == 1 ==> bs[0] < 0x80)
            && (|bs| == 2 ==> TwoLead(bs[0]) && Trails(bs[1]))
            && (|bs| == 3 ==> ThreeLead(bs[0]) && Second(bs[0], bs[1]) && Trails(bs[2]))
            && (|bs| == 4 ==> FourLead(bs[0]) && Second(bs[0], bs[1]) && Trails(bs[2]) && Trails(bs[3]))
  {
    Sixes(c as int);
  }

  lemma TwoBytes(a: Byte, b: Byte)
    requires TwoLead(a) && Trails(b)
    ensures CharBytes(Scalar([a - 0xC0, b - 0x80]) as char) == [a, b]
  {
  }

  lemma ThreeBytes(a: Byte, b: Byte, d: Byte)
    requires ThreeLead(a) && Second(a, b) && Trails(d)
    ensures var n := Scalar([a - 0xE0, b - 0x80, d - 0x80]);
            (0x800 <= n < 0xD800 || 0xE000 <= n < 0x1_0000) && CharBytes(n as char) == [a, b, d]
  {
    var x, y, z := a - 0xE0, b - 0x80, d - 0x80;
    var n := x * 0x1000 + y * 0x40 + z;
    Digits(x * 0x40 + y, z);
    Digits(x, y);
    Twelve(n);
  }

  lemma FourBytes(a: Byte, b: Byte, d: Byte, e: Byte)
    requires FourLead(a) && Second(a, b) && Trails(d) && Trails(e)
    ensures var n := Scalar([a - 0xF0, b - 0x80, d - 0x80, e - 0x80]);
            0x1_0000 <= n < 0x11_0000 && CharBytes(n as char) == [a, b, d, e]
  {
    var w, x, y, z := a - 0xF0, b - 0x80, d - 0x80, e - 0x80;
    var n := w * 0x4_0000 + x * 0x1000 + y * 0x40 + z;
    FourDigits(w, x, y, z);
    assert Scalar([w, x, y, z]) == n;
  }

  lemma FourDigits(w: nat, x: nat, y: nat, z: nat)
    requires x < 0x40 && y < 0x40 && z < 0x40
    ensures var n := w * 0x4_0000 + x * 0x1000 + y * 0x40 + z;
            n / 0x4_0000 == w && n / 0x1000 % 0x40 == x && n / 0x40 % 0x40 == y && n % 0x40 == z
  {
    var n := w * 0x4_0000 + x * 0x1000 + y * 0x40 + z;
    var a := w * 0x1000 + x * 0x40 + y;
    Digits(a, z);
    Digits(w * 0x40 + x, y);
    Digits(w, x);
    assert n == a * 0x40 + z && a == (w * 0x40 + x) * 0x40 + y;
    Twelve(n);
    Eighteen(n);
  }

  lemma Digits(high: nat, low: nat)
    requires low < 0x40
    ensures (high * 0x40 + low) / 0x40 == high && (high * 0x40 + low) % 0x40 == low
  {
  }

  /** The next byte could still belong to a character that began like this. */
  predicate Fitting(bs: seq<Byte>, k: nat)
    requires k < |bs|
  {
    if k == 0 then bs[0] < 0x80 || TwoLead(bs[0]) || ThreeLead(bs[0]) || FourLead(bs[0])
    else if k == 1 then Second(bs[0], bs[1]) && (TwoLead(bs[0]) || ThreeLead(bs[0]) || FourLead(bs[0]))
    else Trails(bs[k]) && ((k == 2 && (ThreeLead(bs[0]) || FourLead(bs[0]))) || (k == 3 && FourLead(bs[0])))
  }

  /** A prefix of a character is fitting byte by byte. */
  lemma BeginningFits(bs: seq<Byte>, n: nat, k: nat)
    requires n <= |bs| && k < n && Begins(bs[..n])
    ensures Fitting(bs, k)
  {
    var c :| bs[..n] <= CharBytes(c);
    BytesOfChar(c);
    assert forall j :: 0 <= j < n ==> bs[j] == bs[..n][j] == CharBytes(c)[j];
    hide CharBytes;
  }

  lemma BeginsTwo(bs: seq<Byte>)
    requires |bs| >= 2 && (ThreeLead(bs[0]) || FourLead(bs[0])) && Second(bs[0], bs[1])
    ensures Begins(bs[..2])
  {
    if ThreeLead(bs[0]) {
      ThreeBytes(bs[0], bs[1], 0x80);
      assert bs[..2] <= [bs[0], bs[1], 0x80];
    } else {
      FourBytes(bs[0], bs[1], 0x80, 0x80);
      assert bs[..2] <= [bs[0], bs[1], 0x80, 0x80];
    }
  }

  lemma BeginsThree(bs: seq<Byte>)
    requires |bs| >= 3 && FourLead(bs[0]) && Second(bs[0], bs[1]) && Trails(bs[2])
    ensures Begins(bs[..3])
  {
    FourBytes(bs[0], bs[1], bs[2], 0x80);
    assert bs[..3] <= [bs[0], bs[1], bs[2], 0x80];
  }

  ghost predicate Whole(bs: seq<Byte>) { exists c :: CharBytes(c) <= bs }

  /** Bytes that pass every test are a whole character. */
  lemma FoundWhole(bs: seq<Byte>)
    requires bs != []
    requires || bs[0] < 0x80
             || (TwoLead(bs[0]) && |bs| >= 2 && Trails(bs[1]))
             || (ThreeLead(bs[0]) && |bs| >= 3 && Second(bs[0], bs[1]) && Trails(bs[2]))
             || (FourLead(bs[0]) && |bs| >= 4 && Second(bs[0], bs[1]) && Trails(bs[2]) && Trails(bs[3]))
    ensures Whole(bs)
  {
    if bs[0] < 0x80 {
      assert CharBytes(bs[0] as char) == [bs[0]] <= bs;
    } else if TwoLead(bs[0]) {
      TwoBytes(bs[0], bs[1]);
      assert [bs[0], bs[1]] <= bs;
    } else if ThreeLead(bs[0]) {
      ThreeBytes(bs[0], bs[1], bs[2]);
      assert [bs[0], bs[1], bs[2]] <= bs;
    } else {
      FourBytes(bs[0], bs[1], bs[2], bs[3]);
      assert [bs[0], bs[1], bs[2], bs[3]] <= bs;
    }
  }

  lemma WholeFirst(bs: seq<Byte>, c: char)
    requires CharBytes(c) <= bs
    ensures bs != [] && FirstChar(bs) == (c, |CharBytes(c)|)
  {
    assert bs == CharBytes(c) + bs[|CharBytes(c)|..];
    FirstOfChar(c, bs[|CharBytes(c)|..]);
  }

  /** Bytes that do not start with a whole character: one U+FFFD stands for the longest beginning of a character
      there is, or for a single byte. */
  lemma BrokenFirst(bs: seq<Byte>, n: nat)
    requires bs != [] && !Whole(bs)
    ensures FirstChar(bs).0 == '\U{FFFD}'
    ensures FirstChar(bs).1 == 1 || Begins(bs[..FirstChar(bs).1])
    ensures FirstChar(bs).1 < n <= |bs| ==> !Begins(bs[..n])
  {
    var k := FirstChar(bs).1;
    hide Whole, CharBytes, Scalar, Begins;
    NoneFound(bs);
    if k == 2 { BeginsTwo(bs); }
    if k == 3 { BeginsThree(bs); }
    if k < n <= |bs| && Begins(bs[..n]) {
      BeginningFits(bs, n, k);
    }
  }

  lemma NoneFound(bs: seq<Byte>)
    requires bs != [] && !Whole(bs)
    ensures bs[0] >= 0x80
    ensures !(TwoLead(bs[0]) && |bs| >= 2 && Trails(bs[1]))
    ensures !(ThreeLead(bs[0]) && |bs| >= 3 && Second(bs[0], bs[1]) && Trails(bs[2]))
    ensures !(FourLead(bs[0]) && |bs| >= 4 && Second(bs[0], bs[1]) && Trails(bs[2]) && Trails(bs[3]))
  {
    hide Whole, CharBytes;
    if bs[0] < 0x80
       || (TwoLead(bs[0]) && |bs| >= 2 && Trails(bs[1]))
       || (ThreeLead(bs[0]) && |bs| >= 3 && Second(bs[0], bs[1]) && Trails(bs[2]))
       || (FourLead(bs[0]) && |bs| >= 4 && Second(bs[0], bs[1]) && Trails(bs[2]) && Trails(bs[3])) {
      FoundWhole(bs);
    }
  }

  /** Lossy decoding goes on behind the first character, whole or broken. */
  lemma LossyNext(bs: seq<Byte>, c: char)
    requires bs != []
    ensures CharBytes(c) <= bs ==> Lossy(bs) == [c] + Lossy(bs[|CharBytes(c)|..])
    ensures !Whole(bs) ==> Lossy(bs) == ['\U{FFFD}'] + Lossy(bs[FirstChar(bs).1..])
  {
    if CharBytes(c) <= bs { WholeFirst(bs, c); }
    if !Whole(bs) { BrokenFirst(bs, 0); }
  }
}
