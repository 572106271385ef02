/** Object key order of section 10.1.11 of ECMA-262. */
module KeyOrder {
  // Array indices come first and ascending, then the other keys in source order.

  import opened Utf16
  import opened JsonValue
  import opened JsonGrammar
  import opened DecimalText

  const MAX_INDEX: nat := 0xFFFF_FFFF

  predicate UnitDigit(u: Unit) { 0x30 <= u <= 0x39 }

  predicate UnitDigits(us: seq<Unit>) { forall i :: 0 <= i < |us| ==> UnitDigit(us[i]) }

  function UnitsValue(us: seq<Unit>): nat
    requires UnitDigits(us)
  {
    if us == [] then 0 else UnitsValue(us[..|us| - 1]) * 10 + (us[|us| - 1] - 0x30)
  }

  /** The array index a key spells, if any. */
  function ArrayIndex(key: seq<Unit>): (r: Option<nat>)
    ensures r.Some? ==> r.value < MAX_INDEX
  {
    if key == [] || |key| > 10 || (|key| > 1 && key[0] == 0x30) || !UnitDigits(key) then None
    else if UnitsValue(key) < MAX_INDEX then Some(UnitsValue(key))
    else None
  }

  /** `javascript_array_index` */
  method JavascriptArrayIndex(key: seq<Unit>) returns (r: Option<nat>)
    ensures r == ArrayIndex(key)
  {
    if key == [] || |key| > 10 || (|key| > 1 && key[0] == 0x30) {
      return None;
    }
    var index := 0;
    var i := 0;
    while i < |key|
      invariant i <= |key| && UnitDigits(key[..i]) && index == UnitsValue(key[..i])
    {
      if !UnitDigit(key[i]) {
        return None;
      }
      assert key[..i + 1][..i] == key[..i];
      index := index * 10 + (key[i] - 0x30);
      i := i + 1;
    }
    assert key[..i] == key;
    return if index < MAX_INDEX then Some(index) else None;
  }

  // ----- exactly the canonical numerals below 2^32 - 1 -----

  lemma EncodeDigit(c: char)
    requires IsDigit(c)
    ensures Encode([c]) == [c as int] && UnitDigit(c as int) && c as int - 0x30 == DigitValue(c)
  {
    assert [c][1..] == [] && Encode([]) == [];
  }

  lemma UnitsSnoc(us: seq<Unit>, u: Unit)
    requires UnitDigits(us) && UnitDigit(u)
    ensures UnitDigits(us + [u]) && UnitsValue(us + [u]) == UnitsValue(us) * 10 + (u - 0x30)
  {
    assert (us + [u])[..|us|] == us;
  }

  /** Digits encode to one unit each, and to the same number. */
  lemma {:induction false} EncodeDigits(t: string)
    requires AllDigits(t)
    ensures |Encode(t)| == |t| && (t != [] ==> Encode(t)[0] == t[0] as int)
    ensures UnitDigits(Encode(t)) && UnitsValue(Encode(t)) == ValueOf(t)
    decreases |t|
  {
    if t != [] {
      var init, c := t[..|t| - 1], t[|t| - 1];
      DigitsLast(t);
      EncodeDigits(init);
      EncodeConcat(init, [c]);
      EncodeDigit(c);
      assert ValueOf(t) == ValueOf(init) * 10 + DigitValue(c);
      hide Encode, ValueOf, UnitsValue, AllDigits, UnitDigits, DigitValue;
      assert t == init + [c];
      UnitsSnoc(Encode(init), c as int);
    }
  }

  lemma {:induction false} DigitsOf(us: seq<Unit>) returns (t: string)
    requires UnitDigits(us)
    ensures AllDigits(t) && Encode(t) == us
    decreases |us|
  {
    if us == [] {
      t := [];
    } else {
      var n := |us| - 1;
      var init := DigitsOf(us[..n]);
      var c := us[n] as char;
      t := init + [c];
      DigitsSnoc(init, c);
      EncodeConcat(init, [c]);
      assert Encode([c]) == [us[n]] by { assert [c][1..] == []; assert Encode([]) == []; }
      assert us == us[..n] + [us[n]];
    }
  }

  /** A key is an array index exactly when it is the numeral of one, without sign or leading zero. */
  lemma ArrayIndexIff(key: seq<Unit>, n: nat)
    ensures ArrayIndex(key) == Some(n) <==> n < 0xFFFF_FFFF && key == Encode(ToText(n))
  {
    if ArrayIndex(key) == Some(n) {
      var t := DigitsOf(key);
      EncodeDigits(t);
      assert t != [] ==> t[0] as int == key[0];
      assert GoodWhole(t) by { if |t| == 1 && t[0] == '0' { assert t == "0"; } }
      TextUnique(t);
    }
    if n < MAX_INDEX && key == Encode(ToText(n)) {
      var t := ToText(n);
      TextRoundTrip(n);
      EncodeDigits(t);
      assert Pow10(10) == 10 * Pow10(9) && Pow10(9) == 10 * Pow10(8) && Pow10(8) == 10 * Pow10(7) && Pow10(7) == 10 * Pow10(6)
             && Pow10(6) == 10 * Pow10(5) && Pow10(5) == 10 * Pow10(4) && Pow10(4) == 10 * Pow10(3);
      TextLength(n, 10);
      assert |t| > 1 ==> t[0] != '0';
    }
  }

  // ----- the sort -----

  /** The sort key without its position: indices before names, indices by value. */
  predicate KeyLess(a: seq<Unit>, b: seq<Unit>) {
    match (ArrayIndex(a), ArrayIndex(b))
    case (Some(m), Some(n)) => m < n
    case (Some(_), None) => true
    case (None, _) => false
  }

  /** Position `i` precedes position `j` in the output. */
  predicate Precedes(keys: seq<seq<Unit>>, i: nat, j: nat)
    requires i < |keys| && j < |keys|
  {
    KeyLess(keys[i], keys[j]) || (!KeyLess(keys[j], keys[i]) && i < j)
  }

  function InsertPosition(keys: seq<seq<Unit>>, i: nat, order: seq<nat>): seq<nat>
    requires i < |keys| && forall k :: 0 <= k < |order| ==> order[k] < |keys|
    decreases |order|
  {
    if order == [] then [i]
    else if Precedes(keys, i, order[0]) then [i] + order
    else [order[0]] + InsertPosition(keys, i, order[1..])
  }

  ghost predicate Positions(keys: seq<seq<Unit>>, from: nat, order: seq<nat>) {
    && |order| == |keys| - from
    && (forall k :: 0 <= k < |order| ==> from <= order[k] < |keys|)
    && (forall p :: from <= p < |keys| ==> p in order)
  }

  ghost predicate Ordered(keys: seq<seq<Unit>>, order: seq<nat>)
    requires forall k :: 0 <= k < |order| ==> order[k] < |keys|
  {
    forall a, b :: 0 <= a < b < |order| ==> Precedes(keys, order[a], order[b])
  }

  lemma InsertBounds(keys: seq<seq<Unit>>, i: nat, order: seq<nat>)
    requires i < |keys| && forall k :: 0 <= k < |order| ==> order[k] < |keys|
    ensures var r := InsertPosition(keys, i, order);
            |r| == |order| + 1 && (forall k :: 0 <= k < |r| ==> r[k] == i || r[k] in order) && i in r && forall p :: p in order ==> p in r
    decreases |order|
  {
    if order != [] && !Precedes(keys, i, order[0]) {
      InsertBounds(keys, i, order[1..]);
      var r, s := InsertPosition(keys, i, order), InsertPosition(keys, i, order[1..]);
      assert r == [order[0]] + s;
      forall p | p in order ensures p in r {
        if p != order[0] { assert p in order[1..]; assert p in s; }
      }
      assert i in s;
    }
  }

  function OrderFrom(keys: seq<seq<Unit>>, from: nat): (order: seq<nat>)
    requires from <= |keys|
    ensures Positions(keys, from, order)
    decreases |keys| - from
  {
    if from == |keys| then []
    else
      var rest := OrderFrom(keys, from + 1);
      InsertBounds(keys, from, rest);
      InsertPosition(keys, from, rest)
  }

  /** The enumeration order of a list of keys, as positions into it. */
  function Order(keys: seq<seq<Unit>>): (order: seq<nat>)
    ensures Positions(keys, 0, order)
  {
    OrderFrom(keys, 0)
  }

  lemma PrecedesTransitive(keys: seq<seq<Unit>>, i: nat, j: nat, k: nat)
    requires i < |keys| && j < |keys| && k < |keys| && Precedes(keys, i, j) && Precedes(keys, j, k)
    ensures Precedes(keys, i, k)
  {
  }

  lemma {:induction false} InsertOrdered(keys: seq<seq<Unit>>, i: nat, order: seq<nat>)
    requires i < |keys| && (forall k :: 0 <= k < |order| ==> i < order[k] < |keys|) && Ordered(keys, order)
    ensures var r := InsertPosition(keys, i, order);
            (forall k :: 0 <= k < |r| ==> r[k] < |keys|) && Ordered(keys, r)
    decreases |order|
  {
    InsertBounds(keys, i, order);
    var r := InsertPosition(keys, i, order);
    if order == [] {
    } else if Precedes(keys, i, order[0]) {
      forall b | 0 < b < |r| ensures Precedes(keys, i, r[b]) {
        if b > 1 { assert Precedes(keys, order[0], order[b - 1]); PrecedesTransitive(keys, i, order[0], order[b - 1]); }
      }
      forall a, b | 0 <= a < b < |r| ensures Precedes(keys, r[a], r[b]) {
        if a > 0 { assert Precedes(keys, order[a - 1], order[b - 1]); }
      }
    } else {
      var s := InsertPosition(keys, i, order[1..]);
      assert Ordered(keys, order[1..]);
      InsertOrdered(keys, i, order[1..]);
      InsertBounds(keys, i, order[1..]);
      forall a, b | 0 <= a < b < |r| ensures Precedes(keys, r[a], r[b]) {
        if a > 0 {
          assert Precedes(keys, s[a - 1], s[b - 1]);
        } else if s[b - 1] != i {
          assert s[b - 1] in order[1..];
          var k :| 0 <= k < |order[1..]| && order[1..][k] == s[b - 1];
          assert Precedes(keys, order[0], order[k + 1]);
        }
      }
    }
  }

  lemma {:induction false} OrderFromOrdered(keys: seq<seq<Unit>>, from: nat)
    requires from <= |keys|
    ensures Ordered(keys, OrderFrom(keys, from))
    decreases |keys| - from
  {
    if from < |keys| {
      OrderFromOrdered(keys, from + 1);
      InsertOrdered(keys, from, OrderFrom(keys, from + 1));
    }
  }

  /** The enumeration order: every position once; array indices first and ascending; names after
      them in source order. */
  lemma OrderIsEnumeration(keys: seq<seq<Unit>>)
    ensures Positions(keys, 0, Order(keys)) && Ordered(keys, Order(keys))
    ensures forall a, b :: 0 <= a < b < |Order(keys)| ==>
              var i, j := Order(keys)[a], Order(keys)[b];
              && i != j
              && (ArrayIndex(keys[j]).Some? ==> ArrayIndex(keys[i]).Some?)
              && (ArrayIndex(keys[i]).Some? && ArrayIndex(keys[j]).Some? ==> ArrayIndex(keys[i]).value <= ArrayIndex(keys[j]).value)
              && (ArrayIndex(keys[i]).None? && ArrayIndex(keys[j]).None? ==> i < j)
  {
    OrderFromOrdered(keys, 0);
    forall a, b | 0 <= a < b < |Order(keys)| ensures Precedes(keys, Order(keys)[a], Order(keys)[b]) {}
  }

  // ----- picking by position -----

  function Pick<T>(es: seq<T>, order: seq<nat>): (r: seq<T>)
    requires forall k :: 0 <= k < |order| ==> order[k] < |es|
    ensures |r| == |order| && forall k :: 0 <= k < |r| ==> r[k] == es[order[k]]
  {
    seq(|order|, k requires 0 <= k < |order| => es[order[k]])
  }

  function Identity(n: nat): (order: seq<nat>)
    ensures |order| == n && forall k :: 0 <= k < n ==> order[k] == k
  {
    seq(n, k => k)
  }

  /** The order a writer emits: JavaScript enumeration, or the source order. */
  function Emission(javascript: bool, keys: seq<seq<Unit>>): (order: seq<nat>)
    ensures |order| == |keys| && forall k :: 0 <= k < |order| ==> order[k] < |keys|
  {
    if javascript then Order(keys) else Identity(|keys|)
  }

  /** Emission never emits a position twice. */
  lemma EmissionDistinct(javascript: bool, keys: seq<seq<Unit>>)
    ensures forall a, b :: 0 <= a < b < |Emission(javascript, keys)| ==> Emission(javascript, keys)[a] != Emission(javascript, keys)[b]
  {
    if javascript {
      OrderFromOrdered(keys, 0);
      var order := Order(keys);
      forall a, b | 0 <= a < b < |order| ensures order[a] != order[b] {
        assert Precedes(keys, order[a], order[b]);
      }
    }
  }
}
