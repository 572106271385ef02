/** UTF-16 code units. */
module Utf16 {
  // UTF-16 code units as JavaScript strings hold them: any sequence of 16-bit units, well-formed
  // only when every surrogate is paired.  Rust's `str` is Dafny's `string`, a sequence of Unicode
  // scalar values.

  import opened Sequences
  type Unit = u: int | 0 <= u < 0x1_0000

  const REPLACEMENT: Unit := 0xFFFD

  predicate High(u: Unit) { 0xD800 <= u <= 0xDBFF }

  predicate Low(u: Unit) { 0xDC00 <= u <= 0xDFFF }

  predicate Surrogate(u: Unit) { 0xD800 <= u <= 0xDFFF }

  /** A high surrogate followed by a low one, at the front of `us`. */
  predicate StartsWithPair(us: seq<Unit>) { |us| >= 2 && High(us[0]) && Low(us[1]) }

  /** `String::from_utf16` succeeds exactly on these. */
  predicate WellFormed(us: seq<Unit>)
    decreases |us|
  {
    us == [] ||
    if StartsWithPair(us) then WellFormed(us[2..])
    else !Surrogate(us[0]) && WellFormed(us[1..])
  }

  function EncodeChar(c: char): (us: seq<Unit>)
    ensures |us| == 1 ==> !Surrogate(us[0]) && us[0] == c as int
    ensures |us| != 1 ==> |us| == 2 && StartsWithPair(us)
  {
    var s := c as int;
    if s < 0x1_0000 then [s]
    else [0xD800 + (s - 0x1_0000) / 0x400, 0xDC00 + (s - 0x1_0000) % 0x400]
  }

  /** `str::encode_utf16`. */
  function Encode(s: string): seq<Unit> {
    if s == [] then [] else EncodeChar(s[0]) + Encode(s[1..])
  }

  function PairScalar(high: Unit, low: Unit): (c: char)
    requires High(high) && Low(low)
    ensures EncodeChar(c) == [high, low]
  {
    (0x1_0000 + (high - 0xD800) * 0x400 + (low - 0xDC00)) as char
  }

  function UnitScalar(u: Unit): (c: char)
    requires !Surrogate(u)
    ensures EncodeChar(c) == [u]
  {
    u as char
  }

  /** `String::from_utf16` on well-formed units. */
  function Decode(us: seq<Unit>): string
    requires WellFormed(us)
    decreases |us|
  {
    if us == [] then []
    else if StartsWithPair(us) then [PairScalar(us[0], us[1])] + Decode(us[2..])
    else [UnitScalar(us[0])] + Decode(us[1..])
  }

  /** Every unpaired surrogate becomes U+FFFD, everything else stays: the value computed by
      `to_well_formed_utf16`, `normalize_lone_units` and `String::from_utf16_lossy`. */
  function Repair(us: seq<Unit>): seq<Unit>
    decreases |us|
  {
    if us == [] then []
    else if StartsWithPair(us) then us[..2] + Repair(us[2..])
    else [if Surrogate(us[0]) then REPLACEMENT else us[0]] + Repair(us[1..])
  }

  lemma {:induction false} RepairProperties(us: seq<Unit>)
    ensures |Repair(us)| == |us|
    ensures WellFormed(Repair(us))
    ensures WellFormed(us) <==> Repair(us) == us
    decreases |us|
  {
    if us == [] {
    } else if StartsWithPair(us) {
      RepairProperties(us[2..]);
      assert Repair(us)[2..] == Repair(us[2..]);
      assert us == us[..2] + us[2..];
    } else {
      RepairProperties(us[1..]);
      assert Repair(us)[1..] == Repair(us[1..]);
      assert us == [us[0]] + us[1..];
    }
  }

  /** A surrogate with its other half beside it. */
  predicate Paired(us: seq<Unit>, k: nat)
    requires k < |us|
  {
    || (High(us[k]) && k + 1 < |us| && Low(us[k + 1]))
    || (Low(us[k]) && k > 0 && High(us[k - 1]))
  }

  /** Repair touches exactly the unpaired surrogates, position by position. */
  lemma {:induction false} RepairAt(us: seq<Unit>, k: nat)
    requires k < |us|
    ensures |Repair(us)| == |us|
    ensures Repair(us)[k] == if Surrogate(us[k]) && !Paired(us, k) then 0xFFFD else us[k]
    decreases |us|
  {
    RepairProperties(us);
    if StartsWithPair(us) {
      if k >= 2 { RepairAt(us[2..], k - 2); }
    } else if k >= 1 {
      RepairAt(us[1..], k - 1);
    }
  }

  lemma {:induction false} DecodeEncode(us: seq<Unit>)
    requires WellFormed(us)
    ensures Encode(Decode(us)) == us
    decreases |us|
  {
    if us == [] {
    } else if StartsWithPair(us) {
      DecodeEncode(us[2..]);
      assert Decode(us)[1..] == Decode(us[2..]);
      assert us == us[..2] + us[2..];
    } else {
      DecodeEncode(us[1..]);
      assert Decode(us)[1..] == Decode(us[1..]);
      assert us == [us[0]] + us[1..];
    }
  }

  lemma {:induction false} EncodeCharInjective(c: char, d: char)
    requires EncodeChar(c) == EncodeChar(d)
    ensures c == d
  {
    var x, y := c as int, d as int;
    if x >= 0x1_0000 && y >= 0x1_0000 {
      assert EncodeChar(c)[0] == EncodeChar(d)[0] && EncodeChar(c)[1] == EncodeChar(d)[1];
      assert (x - 0x1_0000) / 0x400 == (y - 0x1_0000) / 0x400;
      assert x == y;
    } else {
      assert |EncodeChar(c)| == |EncodeChar(d)|;
      assert EncodeChar(c)[0] == EncodeChar(d)[0];
    }
  }

  lemma {:induction false} EncodeDecode(s: string)
    ensures WellFormed(Encode(s)) && Decode(Encode(s)) == s
  {
    if s == [] {
    } else {
      EncodeDecode(s[1..]);
      var e := EncodeChar(s[0]);
      var us := Encode(s);
      assert us == e + Encode(s[1..]);
      assert us[|e|..] == Encode(s[1..]);
      if |e| == 2 {
        assert us[0] == e[0] && us[1] == e[1];
        EncodeCharInjective(PairScalar(us[0], us[1]), s[0]);
      } else {
        assert us[0] == e[0];
        assert !StartsWithPair(us);
        EncodeCharInjective(UnitScalar(us[0]), s[0]);
      }
      assert s == [s[0]] + s[1..];
    }
  }

  lemma EncodeInjective(s: string, t: string)
    requires Encode(s) == Encode(t)
    ensures s == t
  {
    EncodeDecode(s);
    EncodeDecode(t);
  }

  lemma {:induction false} EncodeConcat(s: string, t: string)
    ensures Encode(s + t) == Encode(s) + Encode(t)
  {
    if s == [] {
      assert s + t == t;
    } else {
      hide EncodeChar;
      EncodeConcat(s[1..], t);
      assert (s + t)[1..] == s[1..] + t && (s + t)[0] == s[0];
      assert EncodeChar(s[0]) + (Encode(s[1..]) + Encode(t)) == (EncodeChar(s[0]) + Encode(s[1..])) + Encode(t);
    }
  }

  /** The display spelling of a JavaScript string: `String::from_utf16_lossy`. */
  function Display(us: seq<Unit>): string {
    RepairProperties(us);
    Decode(Repair(us))
  }

  lemma DisplayUnits(us: seq<Unit>)
    ensures Encode(Display(us)) == Repair(us)
    ensures WellFormed(us) <==> Encode(Display(us)) == us
  {
    RepairProperties(us);
    DecodeEncode(Repair(us));
  }

  /** One step of the repair loop. */
  lemma RepairStep(units: seq<Unit>, i: nat)
    requires i < |units|
    ensures var pair := High(units[i]) && i + 1 < |units| && Low(units[i + 1]);
            Repair(units[i..]) ==
              if pair then [units[i], units[i + 1]] + Repair(units[i + 2..])
              else [if Surrogate(units[i]) then REPLACEMENT else units[i]] + Repair(units[i + 1..])
  {
    var rest := units[i..];
    assert rest[1..] == units[i + 1..];
    if StartsWithPair(rest) {
      assert rest[2..] == units[i + 2..];
      assert rest[..2] == [units[i], units[i + 1]];
    }
  }

  /** `to_well_formed_utf16` (and the body of `normalize_lone_units`). */
  method ToWellFormed(units: seq<Unit>) returns (normalized: seq<Unit>)
    ensures normalized == Repair(units)
  {
    normalized := [];
    var index := 0;
    assert units[0..] == units;
    while index < |units|
      invariant index <= |units|
      invariant normalized + Repair(units[index..]) == Repair(units)
    {
      hide Repair;
      RepairStep(units, index);
      var unit := units[index];
      if High(unit) && index + 1 < |units| && Low(units[index + 1]) {
        Regroup(normalized, [unit, units[index + 1]], Repair(units[index + 2..]));
        normalized := normalized + [unit, units[index + 1]];
        index := index + 2;
      } else if Surrogate(unit) {
        Regroup(normalized, [REPLACEMENT], Repair(units[index + 1..]));
        normalized := normalized + [REPLACEMENT];
        index := index + 1;
      } else {
        Regroup(normalized, [unit], Repair(units[index + 1..]));
        normalized := normalized + [unit];
        index := index + 1;
      }
    }
    assert units[index..] == [];
  }
}
