/** When two items count as the same. */
module ItemIdentity {
  // What a stored item and a replayed one must share to count as the same, field by field; the comparison
  // of the session decides exactly this.

  import opened Utf16
  import opened JsonValue
  import opened Payload
  import opened Conversation

  // ----- objects, field by field -----

  /** No object in the value repeats a key, as in any parsed document. */
  predicate Distinct(j: Json)
    decreases j
  {
    match j
    case Prim(_) => true
    case Str(_) => true
    case Arr(items) => forall k :: 0 <= k < |items| ==> Distinct(items[k])
    case Obj(fields) => DistinctKeys(fields) && forall k :: 0 <= k < |fields| ==> Distinct(fields[k].value)
  }

  /** The field of this key; only objects have fields. */
  function Named(j: Json, key: seq<Unit>): Option<Json> { if j.Obj? then Find(j.fields, key) else None }

  predicate Among(names: seq<string>, key: seq<Unit>) { exists i :: 0 <= i < |names| && key == Encode(names[i]) }

  /** A field, unless it is one of those left out. */
  function Seen(j: Json, but: seq<string>, key: seq<Unit>): Option<Json> { if Among(but, key) then None else Named(j, key) }

  /** Two objects agree on every field, apart from those left out of each. */
  ghost predicate AgreeBut(m: string -> int, a: Json, but: seq<string>, b: Json, but': seq<string>) {
    a.Obj? && b.Obj? && forall key: seq<Unit> :: OptEq(m, Seen(a, but, key), Seen(b, but', key))
  }

  lemma AgreeTransitive(m: string -> int, a: Json, x: seq<string>, b: Json, y: seq<string>, c: Json, z: seq<string>)
    requires AgreeBut(m, a, x, b, y) && AgreeBut(m, b, y, c, z)
    ensures AgreeBut(m, a, x, c, z)
  {
    hide OptEq, Seen;
    forall key: seq<Unit> ensures OptEq(m, Seen(a, x, key), Seen(c, z, key)) {
      OptEqTransitive(m, Seen(a, x, key), Seen(b, y, key), Seen(c, z, key));
    }
  }

  lemma AgreeReflexive(m: string -> int, a: Json, but: seq<string>)
    requires a.Obj?
    ensures AgreeBut(m, a, but, a, but)
  {
    hide OptEq, Seen;
    forall key: seq<Unit> ensures OptEq(m, Seen(a, but, key), Seen(a, but, key)) { OptEqReflexive(m, Seen(a, but, key)); }
  }

  /** Agreeing on everything of the same key. */
  lemma FindUnique(fields: seq<Field>, i: nat)
    requires DistinctKeys(fields) && i < |fields|
    ensures Find(fields, fields[i].key) == Some(fields[i].value)
  {
    FindIn(fields, fields[i].key);
    var l :| 0 <= l < |fields| && fields[l] == Field(fields[i].key, Find(fields, fields[i].key).value);
    assert l == i;
  }

  ghost predicate FieldsEqual(m: string -> int, a: seq<Field>, b: seq<Field>) {
    forall key: seq<Unit> :: OptEq(m, Find(a, key), Find(b, key))
  }

  /** Semantic equality of objects is equality field by field. */
  lemma ObjectsEqualIff(m: string -> int, a: Json, b: Json)
    requires a.Obj? && b.Obj? && DistinctKeys(a.fields) && DistinctKeys(b.fields)
    ensures SemEq(m, a, b) <==> FieldsEqual(m, a.fields, b.fields)
  {
    hide SemEq, Find, OptEq, DistinctKeys;
    if SemEq(m, a, b) {
      forall key: seq<Unit> ensures OptEq(m, Find(a.fields, key), Find(b.fields, key)) { EqualObjectsFind(m, a, b, key); }
    }
    if FieldsEqual(m, a.fields, b.fields) { FindsMakeEqual(m, a, b); }
  }

  lemma EqualObjectsFind(m: string -> int, a: Json, b: Json, key: seq<Unit>)
    requires a.Obj? && SemEq(m, a, b) && DistinctKeys(a.fields) && DistinctKeys(b.fields)
    ensures OptEq(m, Find(a.fields, key), Find(b.fields, key))
  {
    SemEqKeys(m, a, b, key);
    FindIn(a.fields, key);
    FindIn(b.fields, key);
    if HasKey(a.fields, key) {
      var i :| 0 <= i < |a.fields| && a.fields[i] == Field(key, Find(a.fields, key).value);
      assert FieldIn(m, a.fields[i], b.fields);
      var l :| 0 <= l < |b.fields| && b.fields[l].key == a.fields[i].key && SemEq(m, a.fields[i].value, b.fields[l].value);
      FindUnique(b.fields, l);
    }
  }

  lemma FindsMakeEqual(m: string -> int, a: Json, b: Json)
    requires a.Obj? && b.Obj? && DistinctKeys(a.fields) && DistinctKeys(b.fields)
    requires FieldsEqual(m, a.fields, b.fields)
    ensures SemEq(m, a, b)
  {
    hide SemEq, DistinctKeys, Find;
    forall k | 0 <= k < |a.fields| ensures FieldIn(m, a.fields[k], b.fields) {
      FindUnique(a.fields, k);
      var key := a.fields[k].key;
      assert OptEq(m, Find(a.fields, key), Find(b.fields, key));
      FindIn(b.fields, key);
    }
    SameSize(m, a.fields, b.fields);
    ObjectsEqual(m, a, b);
  }

  lemma ObjectsEqual(m: string -> int, a: Json, b: Json)
    requires a.Obj? && b.Obj? && |a.fields| == |b.fields| && forall k :: 0 <= k < |a.fields| ==> FieldIn(m, a.fields[k], b.fields)
    ensures SemEq(m, a, b)
  {
    hide FieldIn;
  }

  lemma SameSize(m: string -> int, a: seq<Field>, b: seq<Field>)
    requires DistinctKeys(a) && DistinctKeys(b)
    requires FieldsEqual(m, a, b)
    ensures |a| == |b|
  {
    hide SemEq, DistinctKeys, Find;
    forall key: seq<Unit> ensures key in KeySet(a) <==> key in KeySet(b) {
      FindIn(a, key);
      FindIn(b, key);
      assert OptEq(m, Find(a, key), Find(b, key));
      assert HasKey(a, key) <==> key in KeySet(a);
      assert HasKey(b, key) <==> key in KeySet(b);
    }
    assert KeySet(a) == KeySet(b);
    KeySetSize(a);
    KeySetSize(b);
  }

  // ----- removing fields -----

  lemma {:induction false} WithoutFinds(j: Json, names: seq<string>)
    ensures Without(j, names).Some? <==> j.Obj? || names == []
    ensures Without(j, names).Some? && j.Obj? ==>
              var r := Without(j, names).value;
              && r.Obj? && (forall key: seq<Unit> :: Find(r.fields, key) == Seen(j, names, key))
              && (DistinctKeys(j.fields) ==> DistinctKeys(r.fields))
    decreases |names|
  {
    if names == [] {
    } else if j.Obj? {
      hide Find, Drop, DistinctKeys, Without;
      var r := Obj(Drop(j.fields, Encode(names[0])) + []);
      assert r.fields == Drop(j.fields, Encode(names[0]));
      WithoutUnfolds(j, names);
      WithoutFinds(r, names[1..]);
      forall key: seq<Unit> ensures Seen(r, names[1..], key) == Seen(j, names, key) {
        FindDrop(j.fields, Encode(names[0]), key);
        AmongCons(names, key);
      }
      if DistinctKeys(j.fields) { DropKeys(j.fields, Encode(names[0])); }
    }
  }

  lemma WithoutUnfolds(j: Json, names: seq<string>)
    requires names != [] && j.Obj?
    ensures Without(j, names) == Without(Obj(Drop(j.fields, Encode(names[0])) + []), names[1..])
  {
    hide Drop;
  }

  lemma AmongCons(names: seq<string>, key: seq<Unit>)
    requires names != []
    ensures Among(names, key) <==> key == Encode(names[0]) || Among(names[1..], key)
  {
    hide Encode;
    if Among(names, key) && key != Encode(names[0]) {
      var i :| 0 <= i < |names| && key == Encode(names[i]);
      assert names[1..][i - 1] == names[i];
    }
    if Among(names[1..], key) {
      var i :| 0 <= i < |names[1..]| && key == Encode(names[1..][i]);
      assert names[i + 1] == names[1..][i];
    }
  }

  /** Two objects with fields removed are equal exactly when they agree on the rest. */
  lemma WithoutEqualIff(m: string -> int, a: Json, but: seq<string>, b: Json, but': seq<string>)
    requires a.Obj? && b.Obj? && DistinctKeys(a.fields) && DistinctKeys(b.fields)
    ensures Without(a, but).Some? && Without(b, but').Some?
    ensures SemEq(m, Without(a, but).value, Without(b, but').value) <==> AgreeBut(m, a, but, b, but')
  {
    WithoutFinds(a, but);
    WithoutFinds(b, but');
    var x, y := Without(a, but).value, Without(b, but').value;
    hide SemEq, Find, Without, Seen, DistinctKeys, OptEq;
    ObjectsEqualIff(m, x, y);
    if AgreeBut(m, a, but, b, but') {
      forall key: seq<Unit> ensures OptEq(m, Find(x.fields, key), Find(y.fields, key)) { assert OptEq(m, Seen(a, but, key), Seen(b, but', key)); }
    }
    if SemEq(m, x, y) {
      forall key: seq<Unit> ensures OptEq(m, Seen(a, but, key), Seen(b, but', key)) { assert OptEq(m, Find(x.fields, key), Find(y.fields, key)); }
    }
  }

  /** Setting one field on top. */
  lemma ReplaceFinds(j: Json, name: string, value: Option<Json>)
    requires j.Obj?
    ensures var r := Replace(j, name, value);
            && r.Some? && r.value.Obj?
            && (forall key: seq<Unit> :: Find(r.value.fields, key) == if key == Encode(name) then value else Find(j.fields, key))
            && (DistinctKeys(j.fields) ==> DistinctKeys(r.value.fields))
  {
    var last := if value.Some? then [Field(Encode(name), value.value)] else [];
    if DistinctKeys(j.fields) { ReplaceDistinct(j, name, value); }
    hide Encode, DistinctKeys;
    forall key: seq<Unit> ensures Find(Drop(j.fields, Encode(name)) + last, key) == if key == Encode(name) then value else Find(j.fields, key) {
      FindDrop(j.fields, Encode(name), key);
      FindAppend(Drop(j.fields, Encode(name)), last, key);
    }
  }

  // ----- items -----

  /** The value of a member under a name. */
  function Member(j: Json, name: string): Option<Json> { Named(j, Encode(name)) }

  function Elements(v: Option<Json>): Option<seq<Json>> { if v.Some? && v.value.Arr? then Some(v.value.items) else None }

  function Spelled(v: Option<Json>): Option<string> { if v.Some? && v.value.Str? then Some(Display(v.value.units)) else None }

  datatype Kind = MessageItem | CallItem | OtherItem

  /** A message is typed so, or has no type and the assistant's role. */
  function KindOf(item: Json): Kind {
    var kind := Spelled(Member(item, "type"));
    if kind == Some("message") || (kind == None && Spelled(Member(item, "role")) == Some("assistant")) then MessageItem
    else if kind == Some("function_call") then CallItem
    else OtherItem
  }

  /** The parts of a message: a single object counts as one part. */
  function Parts(item: Json): Option<seq<Json>> {
    var content := Member(item, "content");
    if content.Some? && content.value.Obj? then Some([content.value]) else Elements(content)
  }

  /** What does not count in a part: annotations and log probabilities of output text, or of the single part. */
  function Uncounted(item: Json, part: Json): seq<string> {
    var single := Member(item, "content").Some? && Member(item, "content").value.Obj?;
    if single || Spelled(Member(part, "type")) == Some("output_text") then ["annotations", "logprobs"] else []
  }

  ghost predicate SamePart(m: string -> int, x: Json, but: seq<string>, y: Json, but': seq<string>) {
    if x.Obj? && y.Obj? then AgreeBut(m, x, but, y, but') else SemEq(m, x, y)
  }

  ghost predicate SameParts(m: string -> int, a: Json, b: Json) {
    match (Parts(a), Parts(b))
    case (Some(xs), Some(ys)) =>
      |xs| == |ys| && forall k :: 0 <= k < |xs| ==> SamePart(m, xs[k], Uncounted(a, xs[k]), ys[k], Uncounted(b, ys[k]))
    case (None, None) => OptEq(m, Member(a, "content"), Member(b, "content"))
    case _ => false
  }

  /** Messages agree on everything but id, status, type and content, and part by part on the content; calls on
      everything but id and status; other items are equal. */
  ghost predicate SameResponseItem(m: string -> int, a: Json, b: Json) {
    KindOf(a) == KindOf(b) &&
    match KindOf(a)
    case MessageItem => AgreeBut(m, a, ["id", "status", "type", "content"], b, ["id", "status", "type", "content"]) && SameParts(m, a, b)
    case CallItem => AgreeBut(m, a, ["id", "status"], b, ["id", "status"])
    case OtherItem => SemEq(m, a, b)
  }

  /** Messages of a thread agree on everything but content, and block by block on everything but cache marks. */
  ghost predicate SameThreadItem(m: string -> int, a: Json, b: Json) {
    match (Elements(Member(a, "content")), Elements(Member(b, "content")))
    case (Some(xs), Some(ys)) =>
      && AgreeBut(m, a, ["content"], b, ["content"])
      && |xs| == |ys| && forall k :: 0 <= k < |xs| ==> SamePart(m, xs[k], ["cache_control"], ys[k], ["cache_control"])
    case (None, None) => SemEq(m, a, b)
    case _ => false
  }

  /** When a replayed item counts as the stored one. */
  ghost predicate SameItem(m: string -> int, c: Capability, a: Json, b: Json) {
    match c
    case Responses => SameResponseItem(m, a, b)
    case AnthropicThread => SameThreadItem(m, a, b)
    case _ => SemEq(m, a, b)
  }

  ghost predicate SameItems(m: string -> int, c: Capability, xs: seq<Json>, ys: seq<Json>) {
    |xs| == |ys| && forall k :: 0 <= k < |xs| ==> SameItem(m, c, xs[k], ys[k])
  }

  lemma PartTransitive(m: string -> int, x: Json, i: seq<string>, y: Json, j: seq<string>, z: Json, k: seq<string>)
    requires SamePart(m, x, i, y, j) && SamePart(m, y, j, z, k)
    ensures SamePart(m, x, i, z, k)
  {
    if x.Obj? && y.Obj? && z.Obj? { AgreeTransitive(m, x, i, y, j, z, k); } else { SemEqTransitive(m, x, y, z); }
  }

  lemma PartsTransitive(m: string -> int, a: Json, b: Json, c: Json)
    requires SameParts(m, a, b) && SameParts(m, b, c)
    ensures SameParts(m, a, c)
  {
    hide SamePart, OptEq, Uncounted, Parts;
    if Parts(a).Some? {
      var xs, ys, zs := Parts(a).value, Parts(b).value, Parts(c).value;
      forall k | 0 <= k < |xs| ensures SamePart(m, xs[k], Uncounted(a, xs[k]), zs[k], Uncounted(c, zs[k])) {
        PartTransitive(m, xs[k], Uncounted(a, xs[k]), ys[k], Uncounted(b, ys[k]), zs[k], Uncounted(c, zs[k]));
      }
    } else {
      OptEqTransitive(m, Member(a, "content"), Member(b, "content"), Member(c, "content"));
    }
  }

  lemma ResponseTransitive(m: string -> int, a: Json, b: Json, c: Json)
    requires SameResponseItem(m, a, b) && SameResponseItem(m, b, c)
    ensures SameResponseItem(m, a, c)
  {
    hide AgreeBut, SameParts, SemEq, KindOf;
    match KindOf(a)
    case MessageItem =>
      var but := ["id", "status", "type", "content"];
      AgreeTransitive(m, a, but, b, but, c, but);
      PartsTransitive(m, a, b, c);
    case CallItem => AgreeTransitive(m, a, ["id", "status"], b, ["id", "status"], c, ["id", "status"]);
    case OtherItem => SemEqTransitive(m, a, b, c);
  }

  lemma ThreadTransitive(m: string -> int, a: Json, b: Json, c: Json)
    requires SameThreadItem(m, a, b) && SameThreadItem(m, b, c)
    ensures SameThreadItem(m, a, c)
  {
    hide AgreeBut, SamePart, SemEq, Member;
    match Elements(Member(a, "content"))
    case None => SemEqTransitive(m, a, b, c);
    case Some(xs) =>
      AgreeTransitive(m, a, ["content"], b, ["content"], c, ["content"]);
      var ys, zs := Elements(Member(b, "content")).value, Elements(Member(c, "content")).value;
      forall k | 0 <= k < |xs| ensures SamePart(m, xs[k], ["cache_control"], zs[k], ["cache_control"]) {
        PartTransitive(m, xs[k], ["cache_control"], ys[k], ["cache_control"], zs[k], ["cache_control"]);
      }
  }

  lemma SameItemTransitive(m: string -> int, c: Capability, x: Json, y: Json, z: Json)
    requires SameItem(m, c, x, y) && SameItem(m, c, y, z)
    ensures SameItem(m, c, x, z)
  {
    hide SameResponseItem, SameThreadItem, SemEq;
    match c
    case Responses => ResponseTransitive(m, x, y, z);
    case AnthropicThread => ThreadTransitive(m, x, y, z);
    case _ => SemEqTransitive(m, x, y, z);
  }

  lemma PartReflexive(m: string -> int, x: Json, but: seq<string>)
    ensures SamePart(m, x, but, x, but)
  {
    SemEqReflexive(m, x);
    if x.Obj? { AgreeReflexive(m, x, but); }
  }

  lemma SameSelf(m: string -> int, c: Capability, x: Json)
    ensures SameItem(m, c, x, x)
  {
    hide SemEq, SamePart, OptEq;
    SemEqReflexive(m, x);
    OptEqReflexive(m, Member(x, "content"));
    if x.Obj? {
      AgreeReflexive(m, x, ["content"]);
      AgreeReflexive(m, x, ["id", "status"]);
      AgreeReflexive(m, x, ["id", "status", "type", "content"]);
    }
    hide AgreeBut;
    if Parts(x).Some? {
      forall k | 0 <= k < |Parts(x).value| ensures var p := Parts(x).value[k]; SamePart(m, p, Uncounted(x, p), p, Uncounted(x, p)) {
        PartReflexive(m, Parts(x).value[k], Uncounted(x, Parts(x).value[k]));
      }
    }
    var blocks := Elements(Member(x, "content"));
    if blocks.Some? {
      forall k | 0 <= k < |blocks.value| ensures SamePart(m, blocks.value[k], ["cache_control"], blocks.value[k], ["cache_control"]) {
        PartReflexive(m, blocks.value[k], ["cache_control"]);
      }
    }
  }

  lemma SameItemsTransitive(m: string -> int, c: Capability, xs: seq<Json>, ys: seq<Json>, zs: seq<Json>)
    requires SameItems(m, c, xs, ys) && SameItems(m, c, ys, zs)
    ensures SameItems(m, c, xs, zs)
  {
    hide SameItem;
    forall k | 0 <= k < |xs| ensures SameItem(m, c, xs[k], zs[k]) { SameItemTransitive(m, c, xs[k], ys[k], zs[k]); }
  }

  lemma SameItemsSelf(m: string -> int, c: Capability, xs: seq<Json>)
    ensures SameItems(m, c, xs, xs)
  {
    hide SameItem;
    forall k | 0 <= k < |xs| ensures SameItem(m, c, xs[k], xs[k]) { SameSelf(m, c, xs[k]); }
  }

  lemma SameItemsAppend(m: string -> int, c: Capability, xs: seq<Json>, ys: seq<Json>, more: seq<Json>)
    requires SameItems(m, c, xs, ys)
    ensures SameItems(m, c, xs + more, ys + more)
  {
    hide SameItem;
    forall k | 0 <= k < |xs + more| ensures SameItem(m, c, (xs + more)[k], (ys + more)[k]) {
      if k >= |xs| { SameSelf(m, c, more[k - |xs|]); }
    }
  }

  // ----- the comparison decides this -----

  lemma MemberReads(j: Json, name: string)
    ensures Get(j, name) == Member(j, name)
    ensures StringAt(j, [name]) == Spelled(Member(j, name))
    ensures ItemsAt(j, [name]) == Elements(Member(j, name))
  {
    if Get(j, name).Some? { assert [name][1..] == [] && At(Get(j, name).value, []) == Some(Get(j, name).value); }
  }

  lemma DistinctMember(j: Json, key: seq<Unit>)
    requires Distinct(j) && Named(j, key).Some?
    ensures Distinct(Named(j, key).value)
  {
    FindIn(j.fields, key);
  }

  /** A part with what does not count removed. */
  function Counted(part: Json, but: seq<string>): Json
    requires but == [] || part.Obj?
  {
    WithoutFinds(part, but);
    Without(part, but).value
  }

  lemma CountedEqualIff(m: string -> int, x: Json, but: seq<string>, y: Json, but': seq<string>)
    requires Distinct(x) && Distinct(y) && (but == [] || x.Obj?) && (but' == [] || y.Obj?)
    ensures SemEq(m, Counted(x, but), Counted(y, but')) <==> SamePart(m, x, but, y, but')
  {
    if x.Obj? && y.Obj? {
      WithoutEqualIff(m, x, but, y, but');
    } else {
      WithoutFinds(x, but);
      WithoutFinds(y, but');
    }
  }

  lemma {:induction false} EachStripped(items: seq<Json>, names: seq<string>)
    requires names != []
    ensures EachWithout(items, names).Some? <==> forall k :: 0 <= k < |items| ==> items[k].Obj?
    ensures EachWithout(items, names).Some? ==>
              && |EachWithout(items, names).value| == |items|
              && forall k :: 0 <= k < |items| ==> items[k].Obj? && EachWithout(items, names).value[k] == Counted(items[k], names)
    decreases |items|
  {
    if items != [] {
      WithoutFinds(items[0], names);
      EachStripped(items[1..], names);
      assert forall k :: 0 < k < |items| ==> items[k] == items[1..][k - 1];
      if forall k :: 0 <= k < |items| ==> items[k].Obj? { assert forall k :: 0 <= k < |items[1..]| ==> items[1..][k].Obj?; }
      hide Without;
    }
  }

  lemma TypedObject(j: Json, name: string)
    ensures Spelled(Member(j, name)).Some? ==> j.Obj?
  {
  }

  /** A part of a message with what does not count of it removed. */
  function PartCounted(item: Json, part: Json): Json {
    if Uncounted(item, part) == [] || part.Obj? then Counted(part, Uncounted(item, part)) else part
  }

  function AllCounted(item: Json, parts: seq<Json>): (r: seq<Json>)
    ensures |r| == |parts| && forall k :: 0 <= k < |r| ==> r[k] == PartCounted(item, parts[k])
  {
    seq(|parts|, k requires 0 <= k < |parts| => PartCounted(item, parts[k]))
  }

  /** The normalised content of a message. */
  function ContentOf(item: Json): Option<Json> {
    if Parts(item).None? then Member(item, "content") else Some(Arr(AllCounted(item, Parts(item).value)))
  }

  /** A part with what does not count of it removed, as the source removes it. */
  lemma OnePartStripped(item: Json, part: Json)
    requires !SingleContent(item)
    ensures (if StringAt(part, ["type"]) == Some("output_text") then Without(part, ["annotations", "logprobs"]) else Some(part))
              == Some(PartCounted(item, part))
  {
    MemberReads(part, "type");
    TypedObject(part, "type");
    WithoutFinds(part, ["annotations", "logprobs"]);
    hide Member, StringAt;
  }

  lemma StripNext(parts: seq<Json>, first: Json)
    requires parts != []
    requires (if StringAt(parts[0], ["type"]) == Some("output_text") then Without(parts[0], ["annotations", "logprobs"]) else Some(parts[0])) == Some(first)
    ensures StripOutputText(parts[1..]).Some? ==> StripOutputText(parts) == Some([first] + StripOutputText(parts[1..]).value)
  {
    hide Without, StringAt;
  }

  predicate SingleContent(item: Json) { Member(item, "content").Some? && Member(item, "content").value.Obj? }

  lemma AllCountedCons(item: Json, parts: seq<Json>)
    requires parts != []
    ensures AllCounted(item, parts) == [PartCounted(item, parts[0])] + AllCounted(item, parts[1..])
  {
    hide PartCounted;
  }

  lemma {:induction false} OutputTextStripped(item: Json, parts: seq<Json>)
    requires !SingleContent(item)
    ensures StripOutputText(parts) == Some(AllCounted(item, parts))
    decreases |parts|
  {
    hide Without, Member, StringAt, StripOutputText, PartCounted, AllCounted, SingleContent;
    if parts != [] {
      OutputTextStripped(item, parts[1..]);
      OnePartStripped(item, parts[0]);
      StripNext(parts, PartCounted(item, parts[0]));
      AllCountedCons(item, parts);
    } else {
      NothingStripped(item);
    }
  }

  lemma NothingStripped(item: Json)
    ensures StripOutputText([]) == Some([]) && AllCounted(item, []) == []
  {
  }

  lemma ContentEqualIff(m: string -> int, a: Json, b: Json)
    requires Distinct(a) && Distinct(b)
    ensures OptEq(m, ContentOf(a), ContentOf(b)) <==> SameParts(m, a, b)
  {
    PartsDistinct(a);
    PartsDistinct(b);
    if Parts(a).Some? && Parts(b).Some? {
      var xs, ys := Parts(a).value, Parts(b).value;
      hide SamePart, SemEq, Uncounted, Counted, Distinct, Parts, Member, AllCounted;
      var p, q := ContentOf(a).value.items, ContentOf(b).value.items;
      ArraysEqual(m, p, q);
      if |xs| == |ys| {
        forall k | 0 <= k < |xs| ensures SemEq(m, p[k], q[k]) <==> SamePart(m, xs[k], Uncounted(a, xs[k]), ys[k], Uncounted(b, ys[k])) {
          CountedEqualIff(m, xs[k], Uncounted(a, xs[k]), ys[k], Uncounted(b, ys[k]));
        }
      }
    } else {
      hide SamePart, Uncounted, Counted, Distinct;
    }
  }

  lemma ArraysEqual(m: string -> int, xs: seq<Json>, ys: seq<Json>)
    ensures SemEq(m, Arr(xs), Arr(ys)) <==> |xs| == |ys| && forall k :: 0 <= k < |xs| ==> SemEq(m, xs[k], ys[k])
  {
  }

  /** Parts are values of the document, and what does not count is left out of objects only. */
  lemma PartsDistinct(item: Json)
    requires Distinct(item)
    ensures Parts(item).Some? ==>
              forall k :: 0 <= k < |Parts(item).value| ==>
                var p := Parts(item).value[k]; Distinct(p) && (Uncounted(item, p) == [] || p.Obj?)
  {
    if Member(item, "content").Some? { DistinctMember(item, Encode("content")); }
    hide Encode, Find;
    if Parts(item).Some? {
      forall k | 0 <= k < |Parts(item).value| ensures var p := Parts(item).value[k]; Distinct(p) && (Uncounted(item, p) == [] || p.Obj?) {
        TypedObject(Parts(item).value[k], "type");
      }
    }
  }

  /** A message without id and status and typed as one. */
  lemma Enveloped(item: Json)
    requires Distinct(item) && item.Obj?
    ensures Without(item, ["id", "status"]).Some? && Replace(Without(item, ["id", "status"]).value, "type", Some(Text("message"))).Some?
    ensures var r := Replace(Without(item, ["id", "status"]).value, "type", Some(Text("message"))).value;
            && r.Obj? && DistinctKeys(r.fields)
            && forall key: seq<Unit> :: Find(r.fields, key) ==
                 if key == Encode("type") then Some(Text("message")) else Seen(item, ["id", "status"], key)
  {
    WithoutFinds(item, ["id", "status"]);
    ReplaceFinds(Without(item, ["id", "status"]).value, "type", Some(Text("message")));
    hide Encode, Find, Replace, Without, DistinctKeys, Text;
  }

  /** The content of a message, replaced by what counts of it. */
  lemma ContentReplaced(item: Json, message: Json)
    requires message.Obj? && Get(message, "content") == Member(item, "content")
    ensures (match (ItemsAt(message, ["content"]), Get(message, "content"))
             case (Some(parts), _) => (var stripped :- StripOutputText(parts); Replace(message, "content", Some(Arr(stripped))))
             case (None, Some(part)) =>
               if part.Obj? then (var stripped :- Without(part, ["annotations", "logprobs"]); Replace(message, "content", Some(Arr([stripped]))))
               else Some(message)
             case (None, None) => Some(message))
            == if Parts(item).Some? then Replace(message, "content", ContentOf(item)) else Some(message)
  {
    MemberReads(message, "content");
    var content := Member(item, "content");
    hide Encode, Find, Replace, Without, StringAt, ItemsAt, Get, StripOutputText, Counted;
    if Elements(content).Some? {
      OutputTextStripped(item, content.value.items);
      assert Parts(item) == Some(content.value.items);
    } else if content.Some? && content.value.Obj? {
      SinglePart(item);
      WithoutFinds(content.value, ["annotations", "logprobs"]);
    }
  }

  lemma SinglePart(item: Json)
    requires Member(item, "content").Some? && Member(item, "content").value.Obj?
    ensures var part := Member(item, "content").value;
            Without(part, ["annotations", "logprobs"]).Some? && ContentOf(item) == Some(Arr([Without(part, ["annotations", "logprobs"]).value]))
  {
    hide PartCounted, Member, Without, Find, Encode;
    var part := Member(item, "content").value;
    SingleCounted(item);
    assert AllCounted(item, [part]) == [PartCounted(item, part)];
  }

  lemma SingleCounted(item: Json)
    requires Member(item, "content").Some? && Member(item, "content").value.Obj?
    ensures var part := Member(item, "content").value;
            Without(part, ["annotations", "logprobs"]).Some? && PartCounted(item, part) == Without(part, ["annotations", "logprobs"]).value
  {
    hide Find, Encode, Without, Display, Member;
    WithoutFinds(Member(item, "content").value, ["annotations", "logprobs"]);
  }

  lemma MessageCompared(item: Json)
    requires KindOf(item) == MessageItem
    ensures item.Obj?
    ensures ComparableResponse(item) == (var stripped :- Without(item, ["id", "status"]); ComparableMessage(stripped))
  {
    MemberReads(item, "type");
    MemberReads(item, "role");
    TypedObject(item, "type");
    TypedObject(item, "role");
    hide Without, ComparableMessage, StringAt, Member;
  }

  ghost predicate MessageFinds(item: Json, r: Json) {
    r.Obj? && DistinctKeys(r.fields) &&
    forall key: seq<Unit> :: Find(r.fields, key) ==
      if key == Encode("content") then ContentOf(item)
      else if key == Encode("type") then Some(Text("message"))
      else Seen(item, ["id", "status", "type", "content"], key)
  }

  lemma ContentOnTop(item: Json, message: Json)
    requires message.Obj? && DistinctKeys(message.fields)
    requires forall key: seq<Unit> :: Find(message.fields, key) ==
               if key == Encode("type") then Some(Text("message")) else Seen(item, ["id", "status"], key)
    ensures var r := if Parts(item).Some? then Replace(message, "content", ContentOf(item)) else Some(message);
            r.Some? && MessageFinds(item, r.value)
    ensures Find(message.fields, Encode("content")) == Member(item, "content")
  {
    NamesApart();
    SeenFour(item);
    hide Encode, Find, Replace, DistinctKeys, Text, ContentOf, Parts, Seen;
    if Parts(item).Some? { ReplaceFinds(message, "content", ContentOf(item)); } else { BareContent(item); }
  }

  lemma SeenFour(item: Json)
    ensures forall key: seq<Unit> :: Seen(item, ["id", "status", "type", "content"], key) ==
              if key == Encode("type") || key == Encode("content") then None else Seen(item, ["id", "status"], key)
    ensures Seen(item, ["id", "status"], Encode("content")) == Member(item, "content")
  {
    NamesApart();
    FourNames();
    hide Encode, Among, Named;
  }

  /** The fields of a message as it is compared. */
  lemma MessageFields(item: Json)
    requires Distinct(item) && KindOf(item) == MessageItem
    ensures item.Obj? && ComparableResponse(item).Some? && MessageFinds(item, ComparableResponse(item).value)
  {
    MessageCompared(item);
    Enveloped(item);
    var message := Replace(Without(item, ["id", "status"]).value, "type", Some(Text("message"))).value;
    hide Encode, Find, Replace, Without, DistinctKeys, Text, StringAt, ItemsAt, StripOutputText, ContentOf, KindOf, Among, Distinct, Parts, MessageFinds, ComparableResponse;
    ContentOnTop(item, message);
    ContentReplaced(item, message);
  }

  lemma BareContent(item: Json)
    requires Parts(item).None?
    ensures ContentOf(item) == Member(item, "content")
  {
  }

  lemma FourNames()
    ensures forall key: seq<Unit> :: Among(["id", "status", "type", "content"], key) <==>
              key == Encode("id") || key == Encode("status") || key == Encode("type") || key == Encode("content")
    ensures forall key: seq<Unit> :: Among(["id", "status"], key) <==> key == Encode("id") || key == Encode("status")
  {
    hide Encode;
    var four, two := ["id", "status", "type", "content"], ["id", "status"];
    assert four[0] == "id" && four[1] == "status" && four[2] == "type" && four[3] == "content";
    assert two[0] == "id" && two[1] == "status";
  }

  lemma NamesApart()
    ensures Encode("id") != Encode("type") && Encode("status") != Encode("type") && Encode("content") != Encode("type")
    ensures Encode("id") != Encode("content") && Encode("status") != Encode("content")
    ensures Encode("message") != Encode("function_call")
  {
    if Encode("id") == Encode("type") { EncodeInjective("id", "type"); }
    if Encode("status") == Encode("type") { EncodeInjective("status", "type"); }
    if Encode("content") == Encode("type") { EncodeInjective("content", "type"); }
    if Encode("id") == Encode("content") { EncodeInjective("id", "content"); }
    if Encode("status") == Encode("content") { EncodeInjective("status", "content"); }
    if Encode("message") == Encode("function_call") { EncodeInjective("message", "function_call"); }
  }

  /** Messages agree on everything exactly when they agree on the content and on what is not replaced. */
  lemma FieldsOrParts(m: string -> int, a: Json, x: Json, b: Json, y: Json)
    requires a.Obj? && b.Obj? && MessageFinds(a, x) && MessageFinds(b, y)
    ensures var but := ["id", "status", "type", "content"];
            FieldsEqual(m, x.fields, y.fields) <==> AgreeBut(m, a, but, b, but) && OptEq(m, ContentOf(a), ContentOf(b))
  {
    var but := ["id", "status", "type", "content"];
    NamesApart();
    FourNames();
    NothingEqual(m);
    OptEqReflexive(m, Some(Text("message")));
    hide SemEq, OptEq, Find, ContentOf, DistinctKeys, Encode, Text, Among, Named;
    if AgreeBut(m, a, but, b, but) && OptEq(m, ContentOf(a), ContentOf(b)) {
      forall key: seq<Unit> ensures OptEq(m, Find(x.fields, key), Find(y.fields, key)) { assert OptEq(m, Seen(a, but, key), Seen(b, but, key)); }
    }
    if FieldsEqual(m, x.fields, y.fields) {
      assert OptEq(m, Find(x.fields, Encode("content")), Find(y.fields, Encode("content")));
      forall key: seq<Unit> ensures OptEq(m, Seen(a, but, key), Seen(b, but, key)) { assert OptEq(m, Find(x.fields, key), Find(y.fields, key)); }
    }
  }

  lemma MessagesEqualIff(m: string -> int, a: Json, b: Json)
    requires Distinct(a) && Distinct(b) && KindOf(a) == KindOf(b) == MessageItem
    ensures ComparableResponse(a).Some? && ComparableResponse(b).Some?
    ensures SemEq(m, ComparableResponse(a).value, ComparableResponse(b).value) <==> SameResponseItem(m, a, b)
  {
    MessageFields(a);
    MessageFields(b);
    ContentEqualIff(m, a, b);
    var x, y := ComparableResponse(a).value, ComparableResponse(b).value;
    hide SemEq, OptEq, Find, ComparableResponse, KindOf, ContentOf, SameParts, DistinctKeys, Encode, Text, AgreeBut, Distinct, FieldsEqual;
    FieldsOrParts(m, a, x, b, y);
    ObjectsEqualIff(m, x, y);
  }

  lemma NothingEqual(m: string -> int)
    ensures OptEq(m, None, None)
  {
  }

  lemma CallFields(item: Json)
    requires KindOf(item) == CallItem
    ensures item.Obj? && ComparableResponse(item) == Without(item, ["id", "status"]) && ComparableResponse(item).Some?
  {
    MemberReads(item, "type");
    TypedObject(item, "type");
    WithoutFinds(item, ["id", "status"]);
  }

  lemma OtherFields(item: Json)
    requires KindOf(item) == OtherItem
    ensures ComparableResponse(item) == Some(item)
  {
    MemberReads(item, "type");
    MemberReads(item, "role");
  }

  /** The type of a compared item tells its kind. */
  lemma ComparedType(item: Json)
    requires Distinct(item)
    ensures ComparableResponse(item).Some?
    ensures var r := ComparableResponse(item).value;
            && (KindOf(item) == MessageItem ==> Member(r, "type") == Some(Text("message")))
            && (KindOf(item) != MessageItem ==> Member(r, "type") == Member(item, "type"))
            && (r.Obj? ==> DistinctKeys(r.fields))
  {
    hide KindOf, ComparableResponse, Find, Encode, Without, ContentOf, Text, DistinctKeys;
    NamesApart();
    FourNames();
    match KindOf(item)
    case MessageItem => MessageFields(item);
    case CallItem =>
      CallFields(item);
      WithoutFinds(item, ["id", "status"]);
    case OtherItem => OtherFields(item);
  }

  /** Items that compare equal are of one kind. */
  lemma EqualKinds(m: string -> int, a: Json, b: Json)
    requires Distinct(a) && Distinct(b) && ComparableResponse(a).Some? && ComparableResponse(b).Some?
    requires SemEq(m, ComparableResponse(a).value, ComparableResponse(b).value)
    ensures KindOf(a) == KindOf(b)
  {
    hide ComparableResponse, SemEq, Distinct, Encode, Display, Find, DistinctKeys, KindOf, Named;
    ComparedType(a);
    ComparedType(b);
    KindTyped(a);
    KindTyped(b);
    TypesEqual(m, ComparableResponse(a).value, ComparableResponse(b).value);
    EncodeDisplay("message");
    EncodeDisplay("function_call");
  }

  lemma EncodeDisplay(s: string)
    ensures Display(Encode(s)) == s
  {
    EncodeDecode(s);
    RepairProperties(Encode(s));
  }

  lemma KindTyped(item: Json)
    ensures KindOf(item) == CallItem ==> Spelled(Member(item, "type")) == Some("function_call")
    ensures Spelled(Member(item, "type")) == Some("function_call") ==> KindOf(item) == CallItem
    ensures Spelled(Member(item, "type")) == Some("message") ==> KindOf(item) == MessageItem
  {
  }

  lemma TypesEqual(m: string -> int, x: Json, y: Json)
    requires SemEq(m, x, y) && (x.Obj? ==> DistinctKeys(x.fields)) && (y.Obj? ==> DistinctKeys(y.fields))
    ensures Spelled(Member(x, "type")) == Spelled(Member(y, "type"))
  {
    if x.Obj? { EqualObjectsFind(m, x, y, Encode("type")); }
  }

  lemma ResponsesEqualIff(m: string -> int, a: Json, b: Json)
    requires Distinct(a) && Distinct(b)
    ensures ComparableResponse(a).Some? && ComparableResponse(b).Some?
    ensures SemEq(m, ComparableResponse(a).value, ComparableResponse(b).value) <==> SameResponseItem(m, a, b)
  {
    ComparedType(a);
    ComparedType(b);
    if KindOf(a) != KindOf(b) {
      if SemEq(m, ComparableResponse(a).value, ComparableResponse(b).value) { EqualKinds(m, a, b); }
    } else {
      match KindOf(a)
      case MessageItem => MessagesEqualIff(m, a, b);
      case CallItem =>
        CallFields(a);
        CallFields(b);
        WithoutEqualIff(m, a, ["id", "status"], b, ["id", "status"]);
      case OtherItem =>
        OtherFields(a);
        OtherFields(b);
    }
  }

  /** An item that can be compared: a thread's content blocks are objects. */
  predicate Comparably(c: Capability, item: Json) {
    c == AnthropicThread && Elements(Member(item, "content")).Some? ==>
      forall k :: 0 <= k < |Elements(Member(item, "content")).value| ==> Elements(Member(item, "content")).value[k].Obj?
  }

  lemma ThreadFields(item: Json)
    requires Distinct(item)
    ensures ComparableThread(item).Some? <==> Comparably(AnthropicThread, item)
    ensures Elements(Member(item, "content")).None? ==> ComparableThread(item) == Some(item)
    ensures Elements(Member(item, "content")).Some? && ComparableThread(item).Some? ==>
              var r, blocks := ComparableThread(item).value, Elements(Member(item, "content")).value;
              && item.Obj? && r.Obj? && DistinctKeys(r.fields) && EachWithout(blocks, ["cache_control"]).Some?
              && forall key: seq<Unit> :: Find(r.fields, key) ==
                   if key == Encode("content") then Some(Arr(EachWithout(blocks, ["cache_control"]).value)) else Seen(item, ["content"], key)
  {
    MemberReads(item, "content");
    if Elements(Member(item, "content")).Some? {
      var blocks := Elements(Member(item, "content")).value;
      EachStripped(blocks, ["cache_control"]);
      if EachWithout(blocks, ["cache_control"]).Some? {
        ReplaceFinds(item, "content", Some(Arr(EachWithout(blocks, ["cache_control"]).value)));
        OneName("content");
      }
      hide Encode, Find, Replace, EachWithout, DistinctKeys, ItemsAt, Counted, Among;
    }
  }

  lemma OneName(name: string)
    ensures forall key: seq<Unit> :: Among([name], key) <==> key == Encode(name)
  {
    hide Encode;
    assert [name][0] == name;
  }

  predicate AllObjects(items: seq<Json>) { forall k :: 0 <= k < |items| ==> items[k].Obj? }

  /** Lists with the same removal on every element are equal when their elements agree on the rest. */
  lemma RemovedEqualIff(m: string -> int, xs: seq<Json>, ys: seq<Json>, name: string)
    requires AllObjects(xs) && AllObjects(ys) && AllDistinct(xs) && AllDistinct(ys)
    ensures EachWithout(xs, [name]).Some? && EachWithout(ys, [name]).Some?
    ensures SemEq(m, Arr(EachWithout(xs, [name]).value), Arr(EachWithout(ys, [name]).value)) <==>
              |xs| == |ys| && forall k :: 0 <= k < |xs| ==> SamePart(m, xs[k], [name], ys[k], [name])
  {
    hide SemEq, SamePart, EachWithout, Counted, Distinct, Without;
    EachStripped(xs, [name]);
    EachStripped(ys, [name]);
    var p, q := EachWithout(xs, [name]).value, EachWithout(ys, [name]).value;
    ArraysEqual(m, p, q);
    if |xs| == |ys| {
      forall k | 0 <= k < |xs| ensures SemEq(m, p[k], q[k]) <==> SamePart(m, xs[k], [name], ys[k], [name]) {
        CountedEqualIff(m, xs[k], [name], ys[k], [name]);
      }
    }
  }

  lemma BlocksDistinct(item: Json)
    requires Distinct(item) && Elements(Member(item, "content")).Some?
    ensures forall k :: 0 <= k < |Elements(Member(item, "content")).value| ==> Distinct(Elements(Member(item, "content")).value[k])
  {
    DistinctMember(item, Encode("content"));
  }

  lemma RootDistinct(j: Json)
    requires Distinct(j) && j.Obj?
    ensures DistinctKeys(j.fields)
  {
  }

  lemma ThreadsEqualIff(m: string -> int, a: Json, b: Json)
    requires Distinct(a) && Distinct(b) && Comparably(AnthropicThread, a) && Comparably(AnthropicThread, b)
    ensures ComparableThread(a).Some? && ComparableThread(b).Some?
    ensures SemEq(m, ComparableThread(a).value, ComparableThread(b).value) <==> SameThreadItem(m, a, b)
  {
    hide ComparableThread, SemEq, OptEq, Find, DistinctKeys, Encode, Among, EachWithout, SamePart, Distinct;
    ThreadFields(a);
    ThreadFields(b);
    var x, y := ComparableThread(a).value, ComparableThread(b).value;
    var ea, eb := Elements(Member(a, "content")), Elements(Member(b, "content"));
    if ea.Some? && eb.Some? {
      BlocksDistinct(a);
      BlocksDistinct(b);
      RemovedEqualIff(m, ea.value, eb.value, "cache_control");
      ObjectsEqualIff(m, x, y);
      OneName("content");
      FieldsOrContent(m, a, x, b, y, Arr(EachWithout(ea.value, ["cache_control"]).value), Arr(EachWithout(eb.value, ["cache_control"]).value));
    } else if ea.Some? || eb.Some? {
      if a.Obj? { RootDistinct(a); }
      if b.Obj? { RootDistinct(b); }
      if SemEq(m, x, y) { ContentsEqual(m, x, y); }
    }
  }

  /** Objects agree on everything exactly when they agree on the content and on the rest. */
  lemma FieldsOrContent(m: string -> int, a: Json, x: Json, b: Json, y: Json, p: Json, q: Json)
    requires a.Obj? && b.Obj? && x.Obj? && y.Obj?
    requires forall key: seq<Unit> :: Find(x.fields, key) == if key == Encode("content") then Some(p) else Seen(a, ["content"], key)
    requires forall key: seq<Unit> :: Find(y.fields, key) == if key == Encode("content") then Some(q) else Seen(b, ["content"], key)
    ensures FieldsEqual(m, x.fields, y.fields) <==> AgreeBut(m, a, ["content"], b, ["content"]) && SemEq(m, p, q)
  {
    hide SemEq, Find, Encode, Among;
    OneName("content");
    NothingEqual(m);
    if AgreeBut(m, a, ["content"], b, ["content"]) && SemEq(m, p, q) {
      forall key: seq<Unit> ensures OptEq(m, Find(x.fields, key), Find(y.fields, key)) { assert OptEq(m, Seen(a, ["content"], key), Seen(b, ["content"], key)); }
    }
    if FieldsEqual(m, x.fields, y.fields) {
      assert OptEq(m, Find(x.fields, Encode("content")), Find(y.fields, Encode("content")));
      forall key: seq<Unit> ensures OptEq(m, Seen(a, ["content"], key), Seen(b, ["content"], key)) { assert OptEq(m, Find(x.fields, key), Find(y.fields, key)); }
    }
  }

  lemma ContentsEqual(m: string -> int, x: Json, y: Json)
    requires SemEq(m, x, y) && (x.Obj? ==> DistinctKeys(x.fields)) && (y.Obj? ==> DistinctKeys(y.fields))
    ensures Elements(Member(x, "content")).Some? <==> Elements(Member(y, "content")).Some?
  {
    if x.Obj? { EqualObjectsFind(m, x, y, Encode("content")); }
  }

  /** The comparison never fails on an item that can be compared, and it decides exactly whether two such items count as the same. */
  lemma ComparableIff(m: string -> int, c: Capability, a: Json, b: Json)
    requires Distinct(a) && Distinct(b)
    ensures Comparable(c, a).Some? <==> Comparably(c, a)
    ensures Comparably(c, a) && Comparably(c, b) ==>
              Comparable(c, b).Some? && (SemEq(m, Comparable(c, a).value, Comparable(c, b).value) <==> SameItem(m, c, a, b))
  {
    hide SemEq, ComparableThread, ComparableResponse, SameThreadItem, SameResponseItem, Distinct;
    match c
    case Responses => ResponsesEqualIff(m, a, b);
    case AnthropicThread =>
      ThreadFields(a);
      if Comparably(c, a) && Comparably(c, b) { ThreadsEqualIff(m, a, b); }
    case _ =>
  }

  predicate AllDistinct(items: seq<Json>) { forall k :: 0 <= k < |items| ==> Distinct(items[k]) }

  predicate AllComparable(c: Capability, items: seq<Json>) { forall k :: 0 <= k < |items| ==> Comparably(c, items[k]) }

  /** A prefix matches exactly when all items of both sides can be compared and count as the same, one by one. */
  lemma {:induction false} PrefixIff(m: string -> int, c: Capability, prefix: seq<Json>, current: seq<Json>)
    requires |prefix| <= |current| && AllDistinct(prefix) && AllDistinct(current)
    ensures PrefixMatches(m, prefix, current, c) == Some(true) <==>
              AllComparable(c, prefix) && AllComparable(c, current[..|prefix|]) && SameItems(m, c, prefix, current[..|prefix|])
    decreases |prefix|
  {
    hide Comparable, SemEq, SameItem, Comparably, Distinct;
    if prefix != [] {
      var p, q := prefix[1..], current[1..];
      PrefixIff(m, c, p, q);
      ComparableIff(m, c, prefix[0], current[0]);
      ComparableIff(m, c, current[0], prefix[0]);
      var first := current[..|prefix|];
      assert first[1..] == q[..|p|] && first[0] == current[0];
      assert forall k :: 0 < k < |prefix| ==> prefix[k] == p[k - 1] && first[k] == q[..|p|][k - 1];
      assert AllComparable(c, prefix) <==> Comparably(c, prefix[0]) && AllComparable(c, p) by { AllCons(c, prefix); }
      assert AllComparable(c, first) <==> Comparably(c, first[0]) && AllComparable(c, q[..|p|]) by { AllCons(c, first); }
      assert SameItems(m, c, prefix, first) <==> SameItem(m, c, prefix[0], first[0]) && SameItems(m, c, p, q[..|p|]) by { SameCons(m, c, prefix, first); }
    }
  }

  lemma AllCons(c: Capability, items: seq<Json>)
    requires items != []
    ensures AllComparable(c, items) <==> Comparably(c, items[0]) && AllComparable(c, items[1..])
  {
    hide Comparably;
    assert forall k :: 0 < k < |items| ==> items[k] == items[1..][k - 1];
  }

  lemma SameCons(m: string -> int, c: Capability, xs: seq<Json>, ys: seq<Json>)
    requires xs != [] && |xs| == |ys|
    ensures SameItems(m, c, xs, ys) <==> SameItem(m, c, xs[0], ys[0]) && SameItems(m, c, xs[1..], ys[1..])
  {
    hide SameItem;
    assert forall k :: 0 < k < |xs| ==> xs[k] == xs[1..][k - 1] && ys[k] == ys[1..][k - 1];
  }
}
