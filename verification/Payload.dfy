/** JSON payloads as the continuation code reads and edits them: pointer reads by name, the one
    root edit it uses, and the order-blind comparison. */
module Payload {
  import opened Utf16
  import opened JsonValue

  // ----- reading -----

  function Find(fields: seq<Field>, key: seq<Unit>): Option<Json> {
    if fields == [] then None
    else if fields[0].key == key then Some(fields[0].value)
    else Find(fields[1..], key)
  }

  /** The field of this name; arrays have no named members. */
  function Get(j: Json, name: string): Option<Json> {
    if j.Obj? then Find(j.fields, Encode(name)) else None
  }

  /** `payload_at` for a pointer whose segments are plain names. */
  function At(j: Json, path: seq<string>): Option<Json>
    decreases |path|
  {
    if path == [] then Some(j)
    else
      var child :- Get(j, path[0]);
      At(child, path[1..])
  }

  /** `string_at`: the display text. */
  function StringAt(j: Json, path: seq<string>): Option<string> {
    var v :- At(j, path);
    if v.Str? then Some(Display(v.units)) else None
  }

  /** `string_units_at`: the exact units. */
  function UnitsAt(j: Json, path: seq<string>): Option<seq<Unit>> {
    var v :- At(j, path);
    if v.Str? then Some(v.units) else None
  }

  /** `array_items` of the value at a path. */
  function ItemsAt(j: Json, path: seq<string>): Option<seq<Json>> {
    var v :- At(j, path);
    if v.Arr? then Some(v.items) else None
  }

  function Text(s: string): Json { Str(Encode(s)) }

  // ----- editing -----

  function Drop(fields: seq<Field>, key: seq<Unit>): seq<Field> {
    if fields == [] then []
    else (if fields[0].key == key then [] else [fields[0]]) + Drop(fields[1..], key)
  }

  /** `replace`: the field leaves its place and, unless it is being removed, comes last. */
  function Replace(j: Json, name: string, value: Option<Json>): Option<Json> {
    if !j.Obj? then None
    else Some(Obj(Drop(j.fields, Encode(name)) + if value.Some? then [Field(Encode(name), value.value)] else []))
  }

  lemma {:induction false} FindDrop(fields: seq<Field>, key: seq<Unit>, other: seq<Unit>)
    ensures Find(Drop(fields, key), other) == if other == key then None else Find(fields, other)
    decreases |fields|
  {
    if fields != [] {
      FindDrop(fields[1..], key, other);
      var kept := Drop(fields[1..], key);
      if fields[0].key != key { assert ([fields[0]] + kept)[1..] == kept; } else { assert [] + kept == kept; }
    }
  }

  lemma {:induction false} FindAppend(fields: seq<Field>, more: seq<Field>, key: seq<Unit>)
    ensures Find(fields + more, key) == if Find(fields, key).Some? then Find(fields, key) else Find(more, key)
    decreases |fields|
  {
    if fields == [] {
      assert fields + more == more;
    } else {
      FindAppend(fields[1..], more, key);
      assert (fields + more)[1..] == fields[1..] + more;
    }
  }

  /** An edit sets its own field and leaves every other one alone. */
  lemma GetReplace(j: Json, name: string, value: Option<Json>, other: string)
    requires j.Obj?
    ensures var r := Replace(j, name, value);
            r.Some? && r.value.Obj? && Get(r.value, other) == if other == name then value else Get(j, other)
  {
    var last := if value.Some? then [Field(Encode(name), value.value)] else [];
    FindDrop(j.fields, Encode(name), Encode(other));
    FindAppend(Drop(j.fields, Encode(name)), last, Encode(other));
    if Encode(other) == Encode(name) { EncodeInjective(other, name); }
  }

  lemma {:induction false} FindIn(fields: seq<Field>, key: seq<Unit>)
    ensures Find(fields, key).Some? <==> HasKey(fields, key)
    ensures Find(fields, key).Some? ==> exists i :: 0 <= i < |fields| && fields[i] == Field(key, Find(fields, key).value)
    decreases |fields|
  {
    if fields != [] {
      var rest := fields[1..];
      FindIn(rest, key);
      assert forall i :: 0 <= i < |rest| ==> rest[i] == fields[i + 1];
      assert HasKey(fields, key) <==> fields[0].key == key || HasKey(rest, key) by {
        if HasKey(fields, key) {
          var i :| 0 <= i < |fields| && fields[i].key == key;
          assert i > 0 ==> rest[i - 1].key == key;
        }
      }
      if fields[0].key == key { assert fields[0] == Field(key, fields[0].value); }
    }
  }

  lemma TailKeys(fields: seq<Field>)
    requires fields != [] && DistinctKeys(fields)
    ensures DistinctKeys(fields[1..]) && !HasKey(fields[1..], fields[0].key) && HasKey(fields, fields[0].key)
    ensures forall k: seq<Unit> :: HasKey(fields[1..], k) ==> HasKey(fields, k)
  {
    assert forall i :: 0 <= i < |fields[1..]| ==> fields[1..][i] == fields[i + 1];
  }

  lemma DropCons(fields: seq<Field>, key: seq<Unit>)
    requires fields != []
    ensures Drop(fields, key) == if fields[0].key == key then Drop(fields[1..], key) else [fields[0]] + Drop(fields[1..], key)
  {
  }

  /** A field put before others whose keys come from a list that lacks its key. */
  lemma ConsKeys(f: Field, more: seq<Field>, fields: seq<Field>, key: seq<Unit>)
    requires DistinctKeys(more) && !HasKey(more, key) && f.key != key && fields != [] && f == fields[0] && !HasKey(fields[1..], f.key)
    requires forall i :: 0 <= i < |more| ==> HasKey(fields[1..], more[i].key)
    ensures DistinctKeys([f] + more) && !HasKey([f] + more, key)
  {
    hide HasKey;
    assert forall i :: 0 <= i < |more| ==> more[i].key != f.key;
    assert !HasKey([f] + more, key) by { NotAmong(f, more, key); }
  }

  lemma NotAmong(f: Field, more: seq<Field>, key: seq<Unit>)
    requires !HasKey(more, key) && f.key != key
    ensures !HasKey([f] + more, key)
  {
    assert forall i :: 0 < i < |[f] + more| ==> ([f] + more)[i] == more[i - 1];
  }

  lemma {:induction false} DropKeys(fields: seq<Field>, key: seq<Unit>)
    requires DistinctKeys(fields)
    ensures DistinctKeys(Drop(fields, key)) && !HasKey(Drop(fields, key), key)
    ensures forall i :: 0 <= i < |Drop(fields, key)| ==> HasKey(fields, Drop(fields, key)[i].key)
    decreases |fields|
  {
    if fields != [] {
      var rest := fields[1..];
      TailKeys(fields);
      DropKeys(rest, key);
      var more := Drop(rest, key);
      hide Drop, HasKey, DistinctKeys;
      DropCons(fields, key);
      if fields[0].key != key { ConsKeys(fields[0], more, fields, key); }
    }
  }

  lemma ReplaceDistinct(j: Json, name: string, value: Option<Json>)
    requires j.Obj? && DistinctKeys(j.fields)
    ensures DistinctKeys(Replace(j, name, value).value.fields)
  {
    DropKeys(j.fields, Encode(name));
  }

  // ----- comparing -----

  predicate LiteralToken(raw: string) { raw == "null" || raw == "true" || raw == "false" }

  /** Number tokens are equal when they have the same magnitude, an opaque classification. */
  predicate PrimEq(magnitude: string -> int, a: string, b: string) {
    if LiteralToken(a) || LiteralToken(b) then a == b else magnitude(a) == magnitude(b)
  }

  /** `semantically_eq`: blind to member order and number spelling, exact on code units. */
  predicate SemEq(magnitude: string -> int, a: Json, b: Json)
    decreases a
  {
    match a
    case Prim(x) => b.Prim? && PrimEq(magnitude, x, b.raw)
    case Str(_) => a == b
    case Arr(xs) => b.Arr? && |b.items| == |xs| && forall k :: 0 <= k < |xs| ==> SemEq(magnitude, xs[k], b.items[k])
    case Obj(fs) =>
      && b.Obj? && |b.fields| == |fs|
      && forall k :: 0 <= k < |fs| ==> FieldIn(magnitude, fs[k], b.fields)
  }

  /** Some field has this key and an equal value. */
  predicate FieldIn(magnitude: string -> int, f: Field, fields: seq<Field>)
    decreases f
  {
    exists l :: 0 <= l < |fields| && fields[l].key == f.key && SemEq(magnitude, f.value, fields[l].value)
  }

  lemma {:induction false} SemEqReflexive(magnitude: string -> int, a: Json)
    ensures SemEq(magnitude, a, a)
    decreases a
  {
    match a
    case Prim(_) =>
    case Str(_) =>
    case Arr(xs) => forall k | 0 <= k < |xs| ensures SemEq(magnitude, xs[k], xs[k]) { SemEqReflexive(magnitude, xs[k]); }
    case Obj(fs) => forall k | 0 <= k < |fs| ensures FieldIn(magnitude, fs[k], fs) { SemEqReflexive(magnitude, fs[k].value); }
  }

  lemma {:induction false} SemEqTransitive(magnitude: string -> int, a: Json, b: Json, c: Json)
    requires SemEq(magnitude, a, b) && SemEq(magnitude, b, c)
    ensures SemEq(magnitude, a, c)
    decreases a
  {
    match a
    case Prim(_) =>
    case Str(_) =>
    case Arr(xs) =>
      forall k | 0 <= k < |xs| ensures SemEq(magnitude, xs[k], c.items[k]) { SemEqTransitive(magnitude, xs[k], b.items[k], c.items[k]); }
    case Obj(fs) =>
      forall k | 0 <= k < |fs| ensures FieldIn(magnitude, fs[k], c.fields) {
        assert FieldIn(magnitude, fs[k], b.fields);
        var l :| 0 <= l < |b.fields| && b.fields[l].key == fs[k].key && SemEq(magnitude, fs[k].value, b.fields[l].value);
        assert FieldIn(magnitude, b.fields[l], c.fields);
        var m :| 0 <= m < |c.fields| && c.fields[m].key == b.fields[l].key && SemEq(magnitude, b.fields[l].value, c.fields[m].value);
        SemEqTransitive(magnitude, fs[k].value, b.fields[l].value, c.fields[m].value);
      }
  }

  /** Both absent, or both present and equal. */
  predicate OptEq(magnitude: string -> int, a: Option<Json>, b: Option<Json>) {
    match (a, b)
    case (None, None) => true
    case (Some(x), Some(y)) => SemEq(magnitude, x, y)
    case _ => false
  }

  lemma OptEqTransitive(magnitude: string -> int, a: Option<Json>, b: Option<Json>, c: Option<Json>)
    requires OptEq(magnitude, a, b) && OptEq(magnitude, b, c)
    ensures OptEq(magnitude, a, c)
  {
    if a.Some? { SemEqTransitive(magnitude, a.value, b.value, c.value); }
  }

  lemma OptEqReflexive(magnitude: string -> int, a: Option<Json>)
    ensures OptEq(magnitude, a, a)
  {
    if a.Some? { SemEqReflexive(magnitude, a.value); }
  }

  function KeySet(fields: seq<Field>): set<seq<Unit>> { set i | 0 <= i < |fields| :: fields[i].key }

  lemma {:induction false} KeySetSize(fields: seq<Field>)
    ensures |KeySet(fields)| <= |fields|
    ensures DistinctKeys(fields) ==> |KeySet(fields)| == |fields|
    decreases |fields|
  {
    if fields != [] {
      var n := |fields| - 1;
      var init := fields[..n];
      KeySetSize(init);
      assert KeySet(fields) == KeySet(init) + {fields[n].key} by {
        forall k | k in KeySet(fields) ensures k in KeySet(init) + {fields[n].key} {
          var i :| 0 <= i < |fields| && fields[i].key == k;
          assert i < n ==> init[i].key == k;
        }
        assert forall i :: 0 <= i < n ==> init[i] == fields[i];
      }
      if DistinctKeys(fields) { assert fields[n].key !in KeySet(init); }
    }
  }

  lemma SubsetSize<T>(a: set<T>, b: set<T>)
    requires a <= b
    ensures |a| <= |b|
  {
    assert b == a + (b - a);
  }

  /** Equal objects have the same keys. */
  lemma SemEqKeys(magnitude: string -> int, a: Json, b: Json, key: seq<Unit>)
    requires a.Obj? && SemEq(magnitude, a, b) && DistinctKeys(a.fields)
    ensures HasKey(a.fields, key) <==> HasKey(b.fields, key)
  {
    var ka, kb := KeySet(a.fields), KeySet(b.fields);
    forall k | k in ka ensures k in kb {
      var i :| 0 <= i < |a.fields| && a.fields[i].key == k;
      assert FieldIn(magnitude, a.fields[i], b.fields);
    }
    KeySetSize(a.fields);
    KeySetSize(b.fields);
    if key in kb && key !in ka {
      assert ka <= kb - {key};
      SubsetSize(ka, kb - {key});
    }
    assert forall fs: seq<Field> :: HasKey(fs, key) <==> key in KeySet(fs);
  }

  /** Equal objects have equal fields, name by name. */
  lemma SemEqGet(magnitude: string -> int, a: Json, b: Json, name: string)
    requires a.Obj? && SemEq(magnitude, a, b) && DistinctKeys(a.fields) && DistinctKeys(b.fields)
    ensures OptEq(magnitude, Get(a, name), Get(b, name))
  {
    var key := Encode(name);
    SemEqKeys(magnitude, a, b, key);
    FindIn(a.fields, key);
    FindIn(b.fields, key);
    if HasKey(a.fields, key) {
      var i :| 0 <= i < |a.fields| && a.fields[i] == Field(key, Find(a.fields, key).value);
      assert FieldIn(magnitude, a.fields[i], b.fields);
      var l :| 0 <= l < |b.fields| && b.fields[l].key == a.fields[i].key && SemEq(magnitude, a.fields[i].value, b.fields[l].value);
      var m :| 0 <= m < |b.fields| && b.fields[m] == Field(key, Find(b.fields, key).value);
      assert l == m;
    }
  }
}
