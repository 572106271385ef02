/** The JSON value a source text denotes: number and literal tokens verbatim, strings and keys
    as code units, objects as an ordered list of fields. */
module JsonValue {
  import opened Utf16

  datatype Option<+T> = None | Some(value: T) {
    predicate IsFailure() { None? }

    function PropagateFailure<U>(): Option<U>
      requires None?
    {
      None
    }

    function Extract(): T
      requires Some?
    {
      value
    }
  }

  datatype Json =
    | Prim(raw: string)
    | Str(units: seq<Unit>)
    | Arr(items: seq<Json>)
    | Obj(fields: seq<Field>)

  datatype Field = Field(key: seq<Unit>, value: Json)

  predicate HasKey(fields: seq<Field>, key: seq<Unit>) {
    exists i :: 0 <= i < |fields| && fields[i].key == key
  }

  /** No object holds the same key twice. */
  predicate DistinctKeys(fields: seq<Field>) {
    forall i, j :: 0 <= i < j < |fields| ==> fields[i].key != fields[j].key
  }

  /** Last duplicate wins: its value lands at the first duplicate's position. */
  function Put(fields: seq<Field>, key: seq<Unit>, value: Json): seq<Field> {
    if fields == [] then [Field(key, value)]
    else if fields[0].key == key then [Field(key, value)] + fields[1..]
    else [fields[0]] + Put(fields[1..], key, value)
  }

  lemma {:induction false} PutFresh(fields: seq<Field>, key: seq<Unit>, value: Json)
    requires !HasKey(fields, key)
    ensures Put(fields, key, value) == fields + [Field(key, value)]
  {
    if fields == [] {
    } else {
      assert fields[0].key != key;
      assert forall i :: 0 <= i < |fields[1..]| ==> fields[1..][i] == fields[i + 1];
      PutFresh(fields[1..], key, value);
      assert fields == [fields[0]] + fields[1..];
    }
  }

  /** `p` is the first position holding `key`. */
  predicate FirstAt(fields: seq<Field>, key: seq<Unit>, p: nat) {
    p < |fields| && fields[p].key == key && forall i :: 0 <= i < p ==> fields[i].key != key
  }

  lemma {:induction false} PutExisting(fields: seq<Field>, key: seq<Unit>, value: Json, p: nat)
    requires FirstAt(fields, key, p)
    ensures Put(fields, key, value) == fields[p := Field(key, value)]
  {
    if p == 0 {
      assert fields[0 := Field(key, value)] == [Field(key, value)] + fields[1..];
    } else {
      assert fields[0].key != key;
      assert FirstAt(fields[1..], key, p - 1);
      PutExisting(fields[1..], key, value, p - 1);
      assert fields[p := Field(key, value)] == [fields[0]] + fields[1..][p - 1 := Field(key, value)];
    }
  }

  lemma FirstExists(fields: seq<Field>, key: seq<Unit>) returns (p: nat)
    requires HasKey(fields, key)
    ensures FirstAt(fields, key, p)
  {
    p := 0;
    while fields[p].key != key
      invariant p < |fields|
      invariant forall i :: 0 <= i < p ==> fields[i].key != key
      decreases |fields| - p
    {
      assert exists i :: p < i < |fields| && fields[i].key == key;
      p := p + 1;
    }
  }

  lemma PutDistinct(fields: seq<Field>, key: seq<Unit>, value: Json)
    requires DistinctKeys(fields)
    ensures DistinctKeys(Put(fields, key, value))
  {
    if HasKey(fields, key) {
      var p := FirstExists(fields, key);
      PutExisting(fields, key, value, p);
    } else {
      PutFresh(fields, key, value);
    }
  }
}
