/** The explicit-stack JSON writer. */
module ExactJson {
  // The explicit-stack JSON writer over a flat node table: number re-rendering, JavaScript key
  // order, shallow field overlays, string overrides, and the final well-formedness pass.

  import opened Sequences
  import opened Utf16
  import opened JsonValue
  import opened FlatTable
  import opened PointerIndex
  import opened KeyOrder
  import opened JsonPrint
  import opened ResponseJson
  import G = JsonGrammar
  import D = JsonDescent
  import P = Payload

  /** `number` renders a number token, or fails on one the codec cannot represent. */
  datatype Policy = Policy(javascript: bool, number: string -> Option<string>, normalize: bool)

  // ----- the canonical form of a tree -----

  const LITERALS := {"null", "true", "false"}

  function Rendered(p: Policy, raw: string): Option<string> {
    if raw == "null" || raw == "true" || raw == "false" then Some(raw) else p.number(raw)
  }

  /** Every number of the tree can be rendered. */
  predicate Writable(p: Policy, j: Json) {
    match j
    case Prim(raw) => raw in LITERALS || p.number(raw).Some?
    case Str(_) => true
    case Arr(items) => forall k :: 0 <= k < |items| ==> Writable(p, items[k])
    case Obj(fields) => forall k :: 0 <= k < |fields| ==> Writable(p, fields[k].value)
  }

  function Keys(fields: seq<Field>): (keys: seq<seq<Unit>>)
    ensures |keys| == |fields| && forall k :: 0 <= k < |keys| ==> keys[k] == fields[k].key
  {
    seq(|fields|, k requires 0 <= k < |fields| => fields[k].key)
  }

  function StringUnits(p: Policy, us: seq<Unit>): seq<Unit> { if p.normalize then Repair(us) else us }

  /** Numbers re-rendered, string values repaired on request, fields in emission order. */
  function Canonical(p: Policy, j: Json): Json {
    match j
    case Prim(raw) => Prim(if Rendered(p, raw).Some? then Rendered(p, raw).value else "")
    case Str(us) => Str(StringUnits(p, us))
    case Arr(items) => Arr(seq(|items|, k requires 0 <= k < |items| => Canonical(p, items[k])))
    case Obj(fields) =>
      Obj(Arranged(p.javascript,
                   seq(|fields|, k requires 0 <= k < |fields| => Field(fields[k].key, Canonical(p, fields[k].value)))))
  }

  function Arranged(javascript: bool, fields: seq<Field>): seq<Field> {
    Pick(fields, Emission(javascript, Keys(fields)))
  }

  /** What the renderer prints for a number is a JSON token. */
  ghost predicate RendersTokens(p: Policy) {
    forall raw :: p.number(raw).Some? ==> IsToken(p.number(raw).value)
  }

  lemma ArrangedRegular(javascript: bool, fields: seq<Field>)
    requires RegularFields(fields)
    ensures RegularFields(Arranged(javascript, fields))
  {
    EmissionDistinct(javascript, Keys(fields));
  }

  lemma {:induction false} CanonicalRegular(p: Policy, j: Json)
    requires RendersTokens(p) && Regular(j) && Writable(p, j)
    ensures Regular(Canonical(p, j))
    decreases j
  {
    match j
    case Prim(raw) =>
    case Str(_) =>
    case Arr(items) =>
      forall k | 0 <= k < |items| ensures Regular(Canonical(p, items[k])) { CanonicalRegular(p, items[k]); }
    case Obj(fields) =>
      forall k | 0 <= k < |fields| ensures Regular(Canonical(p, fields[k].value)) { CanonicalRegular(p, fields[k].value); }
      ArrangedRegular(p.javascript, seq(|fields|, k requires 0 <= k < |fields| => Field(fields[k].key, Canonical(p, fields[k].value))));
  }

  // ----- the work stack -----

  datatype Work = WNode(id: nat) | WByte(byte: char) | WString(units: seq<Unit>) | WRaw(text: string)

  /** The table being written; `exact` holds the exact strings with the overrides on top. */
  datatype Job = Job(nodes: seq<FlatNode>, exact: map<nat, seq<Unit>>, policy: Policy)

  ghost predicate InTable(job: Job, id: nat) { Acyclic(job.nodes) && id < |job.nodes| }

  ghost function Tree(job: Job, id: nat): Json {
    if InTable(job, id) then TreeOf(job.nodes, job.exact, id) else Prim("null")
  }

  ghost function NodeText(job: Job, id: nat): string { Print(Canonical(job.policy, Tree(job, id))) }

  ghost predicate Fits(job: Job, id: nat) { Writable(job.policy, Tree(job, id)) }

  /** What one work item still has to write. */
  ghost function Emit(job: Job, w: Work): string {
    match w
    case WNode(id) => NodeText(job, id)
    case WByte(c) => [c]
    case WString(us) => Quote(us)
    case WRaw(text) => text
  }

  ghost predicate Ok(job: Job, w: Work) {
    w.WNode? ==> InTable(job, w.id) && Fits(job, w.id)
  }

  ghost function EmitAll(job: Job, stack: seq<Work>): string {
    if stack == [] then "" else Emit(job, stack[|stack| - 1]) + EmitAll(job, stack[..|stack| - 1])
  }

  ghost predicate OkAll(job: Job, stack: seq<Work>) {
    stack == [] || (Ok(job, stack[|stack| - 1]) && OkAll(job, stack[..|stack| - 1]))
  }

  ghost predicate Known(job: Job, stack: seq<Work>) {
    forall k :: 0 <= k < |stack| && stack[k].WNode? ==> InTable(job, stack[k].id)
  }

  /** The text the nodes on the stack will expand to: the termination measure. */
  ghost function NodeChars(job: Job, stack: seq<Work>): nat {
    if stack == [] then 0
    else (if stack[|stack| - 1].WNode? then |Emit(job, stack[|stack| - 1])| else 0) + NodeChars(job, stack[..|stack| - 1])
  }

  ghost predicate Pushes(job: Job, before: seq<Work>, after: seq<Work>, text: string, chars: nat, fits: bool) {
    && EmitAll(job, after) == text + EmitAll(job, before)
    && NodeChars(job, after) == chars + NodeChars(job, before)
    && (OkAll(job, after) <==> fits && OkAll(job, before))
    && (Known(job, before) ==> Known(job, after))
  }

  lemma Push(job: Job, start: seq<Work>, stack: seq<Work>, text: string, chars: nat, fits: bool, w: Work)
    requires Pushes(job, start, stack, text, chars, fits) && (w.WNode? ==> InTable(job, w.id))
    ensures Pushes(job, start, stack + [w], Emit(job, w) + text, (if w.WNode? then |Emit(job, w)| else 0) + chars, Ok(job, w) && fits)
  {
    assert (stack + [w])[..|stack|] == stack;
    Regroup(Emit(job, w), text, EmitAll(job, start));
  }

  // ----- pushing a container -----

  ghost function Texts(job: Job, items: seq<nat>): seq<string> {
    seq(|items|, k requires 0 <= k < |items| => NodeText(job, items[k]))
  }

  /** The text from item `i` on, with the comma before it. */
  ghost function ItemTail(texts: seq<string>, i: nat): string
    requires i <= |texts|
  {
    if 0 < i < |texts| then "," + JoinItems(texts[i..]) else JoinItems(texts[i..])
  }

  lemma ItemTailStep(texts: seq<string>, i: nat)
    requires 0 < i <= |texts|
    ensures texts[i - 1] + ItemTail(texts, i) == JoinItems(texts[i - 1..])
  {
    var rest := texts[i - 1..];
    assert rest[0] == texts[i - 1] && rest[1..] == texts[i..];
    if i < |texts| { Regroup(texts[i - 1], ",", JoinItems(texts[i..])); } else { assert JoinItems(texts[i..]) == "]"; }
  }

  ghost predicate FitFrom(job: Job, items: seq<nat>, i: int) {
    forall k :: i <= k < |items| && 0 <= k ==> Fits(job, items[k])
  }

  lemma PushItem(job: Job, start: seq<Work>, stack: seq<Work>, items: seq<nat>, i: nat, chars: nat) returns (chars': nat)
    requires i < |items| && InTable(job, items[i])
    requires Pushes(job, start, stack, ItemTail(Texts(job, items), i + 1), chars, FitFrom(job, items, i + 1))
    requires chars < |ItemTail(Texts(job, items), i + 1)|
    ensures var r := stack + [WNode(items[i])];
            Pushes(job, start, if i > 0 then r + [WByte(',')] else r, ItemTail(Texts(job, items), i), chars', FitFrom(job, items, i))
    ensures chars' < |ItemTail(Texts(job, items), i)|
  {
    hide NodeText, JoinItems, Fits, Pushes;
    var texts := Texts(job, items);
    ItemTailStep(texts, i + 1);
    Push(job, start, stack, ItemTail(texts, i + 1), chars, FitFrom(job, items, i + 1), WNode(items[i]));
    chars' := |texts[i]| + chars;
    assert FitFrom(job, items, i) <==> Fits(job, items[i]) && FitFrom(job, items, i + 1);
    if i > 0 {
      Push(job, start, stack + [WNode(items[i])], JoinItems(texts[i..]), chars', FitFrom(job, items, i), WByte(','));
    }
  }

  /** The work items of an array node. */
  method PushItems(stack: seq<Work>, items: seq<nat>, ghost job: Job) returns (r: seq<Work>, ghost chars: nat)
    requires forall k :: 0 <= k < |items| ==> InTable(job, items[k])
    ensures Pushes(job, stack, r, "[" + JoinItems(Texts(job, items)), chars, FitFrom(job, items, 0))
    ensures chars < |"[" + JoinItems(Texts(job, items))|
  {
    ghost var texts := Texts(job, items);
    var i: nat := |items|;
    assert ItemTail(texts, i) == "]" + "" by { assert texts[i..] == []; }
    assert Pushes(job, stack, stack, "", 0, true);
    hide Texts, JoinItems, Pushes, Fits;
    Push(job, stack, stack, "", 0, true, WByte(']'));
    r, chars := stack + [WByte(']')], 0;
    while i > 0
      invariant i <= |items|
      invariant Pushes(job, stack, r, ItemTail(texts, i), chars, FitFrom(job, items, i))
      invariant chars < |ItemTail(texts, i)|
    {
      hide ItemTail;
      i := i - 1;
      chars := PushItem(job, stack, r, items, i, chars);
      r := r + [WNode(items[i])];
      if i > 0 {
        r := r + [WByte(',')];
      }
    }
    assert texts[0..] == texts;
    Push(job, stack, r, JoinItems(texts), chars, FitFrom(job, items, 0), WByte('['));
    r := r + [WByte('[')];
  }

  /** A field to write: its key, and a node or a replacement text. */
  datatype Piece = Piece(key: seq<Unit>, value: Work)

  ghost predicate GoodPiece(job: Job, piece: Piece) {
    piece.value.WRaw? || (piece.value.WNode? && InTable(job, piece.value.id))
  }

  ghost function Slots(job: Job, pieces: seq<Piece>): seq<Slot> {
    seq(|pieces|, k requires 0 <= k < |pieces| => Slot(pieces[k].key, Emit(job, pieces[k].value)))
  }

  ghost function FieldTail(slots: seq<Slot>, i: nat): string
    requires i <= |slots|
  {
    if 0 < i < |slots| then "," + JoinFields(slots[i..]) else JoinFields(slots[i..])
  }

  lemma FieldTailStep(slots: seq<Slot>, i: nat)
    requires 0 < i <= |slots|
    ensures var s := slots[i - 1];
            Quote(s.key) + (":" + (s.text + FieldTail(slots, i))) == JoinFields(slots[i - 1..])
  {
    var rest, s := slots[i - 1..], slots[i - 1];
    assert rest[0] == s && rest[1..] == slots[i..];
    Regroup(Quote(s.key), ":", s.text + FieldTail(slots, i));
    Regroup(Quote(s.key) + ":", s.text, FieldTail(slots, i));
    if i < |slots| { Regroup(SlotText(s), ",", JoinFields(slots[i..])); } else { assert JoinFields(slots[i..]) == "}"; }
  }

  ghost predicate PiecesFit(job: Job, pieces: seq<Piece>, i: int) {
    forall k :: i <= k < |pieces| && 0 <= k ==> Ok(job, pieces[k].value)
  }

  lemma PushPiece(job: Job, start: seq<Work>, stack: seq<Work>, pieces: seq<Piece>, i: nat, chars: nat) returns (chars': nat)
    requires i < |pieces| && GoodPiece(job, pieces[i])
    requires Pushes(job, start, stack, FieldTail(Slots(job, pieces), i + 1), chars, PiecesFit(job, pieces, i + 1))
    requires chars < |FieldTail(Slots(job, pieces), i + 1)|
    ensures var r := stack + [pieces[i].value] + [WByte(':')] + [WString(pieces[i].key)];
            Pushes(job, start, if i > 0 then r + [WByte(',')] else r, FieldTail(Slots(job, pieces), i), chars', PiecesFit(job, pieces, i))
    ensures chars' < |FieldTail(Slots(job, pieces), i)|
  {
    hide NodeText, JoinFields, Fits, Pushes, Quote, InTable;
    var slots, piece := Slots(job, pieces), pieces[i];
    var s, tail := slots[i], FieldTail(slots, i + 1);
    FieldTailStep(slots, i + 1);
    var fits := Ok(job, piece.value) && PiecesFit(job, pieces, i + 1);
    assert PiecesFit(job, pieces, i) <==> fits;
    Push(job, start, stack, tail, chars, PiecesFit(job, pieces, i + 1), piece.value);
    chars' := (if piece.value.WNode? then |s.text| else 0) + chars;
    Push(job, start, stack + [piece.value], s.text + tail, chars', fits, WByte(':'));
    Push(job, start, stack + [piece.value] + [WByte(':')], ":" + (s.text + tail), chars', fits, WString(piece.key));
    if i > 0 {
      Push(job, start, stack + [piece.value] + [WByte(':')] + [WString(piece.key)], JoinFields(slots[i..]), chars', fits, WByte(','));
    }
  }

  /** The work items of an object node, its fields already in emission order. */
  method PushPieces(stack: seq<Work>, pieces: seq<Piece>, ghost job: Job) returns (r: seq<Work>, ghost chars: nat)
    requires forall k :: 0 <= k < |pieces| ==> GoodPiece(job, pieces[k])
    ensures Pushes(job, stack, r, "{" + JoinFields(Slots(job, pieces)), chars, PiecesFit(job, pieces, 0))
    ensures chars < |"{" + JoinFields(Slots(job, pieces))|
  {
    ghost var slots := Slots(job, pieces);
    var i: nat := |pieces|;
    assert FieldTail(slots, i) == "}" + "" by { assert slots[i..] == []; }
    assert Pushes(job, stack, stack, "", 0, true);
    hide Slots, JoinFields, Pushes, Ok;
    Push(job, stack, stack, "", 0, true, WByte('}'));
    r, chars := stack + [WByte('}')], 0;
    while i > 0
      invariant i <= |pieces|
      invariant Pushes(job, stack, r, FieldTail(slots, i), chars, PiecesFit(job, pieces, i))
      invariant chars < |FieldTail(slots, i)|
    {
      hide FieldTail;
      i := i - 1;
      chars := PushPiece(job, stack, r, pieces, i, chars);
      r := r + [pieces[i].value];
      r := r + [WByte(':')];
      r := r + [WString(pieces[i].key)];
      if i > 0 {
        r := r + [WByte(',')];
      }
    }
    assert slots[0..] == slots;
    Push(job, stack, r, JoinFields(slots), chars, PiecesFit(job, pieces, 0), WByte('{'));
    r := r + [WByte('{')];
  }

  // ----- field overlays -----

  /** A shallow field to replace or append: its name and its JSON source text. */
  datatype Overlay = Overlay(name: string, source: string)

  /** The candidate's name is the key, which must be well-formed to be compared at all. */
  predicate Matches(o: Overlay, key: seq<Unit>) { WellFormed(key) && o.name == Decode(key) }

  lemma MatchesIff(o: Overlay, key: seq<Unit>)
    ensures Matches(o, key) <==> Encode(o.name) == key
  {
    EncodeDecode(o.name);
    if WellFormed(key) { DecodeEncode(key); }
  }

  /** The first pending overlay with this name, or the length. */
  function FirstNamed(pending: seq<Overlay>, key: seq<Unit>): (k: nat)
    ensures k <= |pending| && (k < |pending| ==> Matches(pending[k], key))
    ensures forall l :: 0 <= l < k ==> !Matches(pending[l], key)
  {
    if pending == [] then 0 else if Matches(pending[0], key) then 0 else 1 + FirstNamed(pending[1..], key)
  }

  function Remove<T>(s: seq<T>, k: nat): seq<T>
    requires k < |s|
  {
    s[..k] + s[k + 1..]
  }

  function Appended(pending: seq<Overlay>): seq<Piece> {
    seq(|pending|, k requires 0 <= k < |pending| => Piece(Encode(pending[k].name), WRaw(pending[k].source)))
  }

  /** Each field takes the first pending overlay of its name; the rest are appended. */
  function Overlaid(entries: seq<Entry>, pending: seq<Overlay>): seq<Piece>
    decreases |entries|
  {
    if entries == [] then Appended(pending)
    else
      var key := entries[0].units;
      var k := FirstNamed(pending, key);
      if k < |pending| then [Piece(key, WRaw(pending[k].source))] + Overlaid(entries[1..], Remove(pending, k))
      else [Piece(key, WNode(entries[0].node))] + Overlaid(entries[1..], pending)
  }

  lemma {:induction false} OverlaidGood(job: Job, entries: seq<Entry>, pending: seq<Overlay>)
    requires forall k :: 0 <= k < |entries| ==> InTable(job, entries[k].node)
    ensures forall k :: 0 <= k < |Overlaid(entries, pending)| ==> GoodPiece(job, Overlaid(entries, pending)[k])
    decreases |entries|
  {
    if entries != [] {
      var k := FirstNamed(pending, entries[0].units);
      OverlaidGood(job, entries[1..], if k < |pending| then Remove(pending, k) else pending);
    }
  }

  /** The fields of an object node against the pending overlays, in one pass. */
  method OverlayEntries(entries: seq<Entry>, overrides: seq<Overlay>) returns (pieces: seq<Piece>)
    ensures pieces == Overlaid(entries, overrides)
  {
    pieces := [];
    var pending, i := overrides, 0;
    assert entries[0..] == entries;
    while i < |entries|
      invariant i <= |entries|
      invariant pieces + Overlaid(entries[i..], pending) == Overlaid(entries, overrides)
    {
      var entry := entries[i];
      var k := FirstNamed(pending, entry.units);
      assert entries[i..][0] == entry && entries[i..][1..] == entries[i + 1..];
      if k < |pending| {
        Regroup(pieces, [Piece(entry.units, WRaw(pending[k].source))], Overlaid(entries[i + 1..], Remove(pending, k)));
        pieces := pieces + [Piece(entry.units, WRaw(pending[k].source))];
        pending := Remove(pending, k);
      } else {
        Regroup(pieces, [Piece(entry.units, WNode(entry.node))], Overlaid(entries[i + 1..], pending));
        pieces := pieces + [Piece(entry.units, WNode(entry.node))];
      }
      i := i + 1;
    }
    assert entries[i..] == [];
    pieces := pieces + Appended(pending);
  }

  function PieceKeys(pieces: seq<Piece>): (keys: seq<seq<Unit>>)
    ensures |keys| == |pieces| && forall k :: 0 <= k < |keys| ==> keys[k] == pieces[k].key
  {
    seq(|pieces|, k requires 0 <= k < |pieces| => pieces[k].key)
  }

  /** The pieces of an object in the order they are written. */
  function Sorted(javascript: bool, pieces: seq<Piece>): seq<Piece> {
    Pick(pieces, Emission(javascript, PieceKeys(pieces)))
  }

  ghost function ObjectText(job: Job, entries: seq<Entry>, fields: seq<Overlay>): string {
    "{" + JoinFields(Slots(job, Sorted(job.policy.javascript, Overlaid(entries, fields))))
  }

  /** Only nodes that are not replaced have to render. */
  ghost predicate ObjectFits(job: Job, entries: seq<Entry>, fields: seq<Overlay>) {
    PiecesFit(job, Sorted(job.policy.javascript, Overlaid(entries, fields)), 0)
  }

  ghost function RootText(job: Job, root: nat, fields: seq<Overlay>): string
    requires InTable(job, root)
  {
    if job.nodes[root].Object? then ObjectText(job, job.nodes[root].fields, fields) else NodeText(job, root)
  }

  ghost predicate RootFits(job: Job, root: nat, fields: seq<Overlay>)
    requires InTable(job, root)
  {
    if job.nodes[root].Object? then ObjectFits(job, job.nodes[root].fields, fields) else Fits(job, root)
  }

  // ----- one node unfolds into its work items -----

  lemma TreeArray(job: Job, id: nat)
    requires InTable(job, id) && job.nodes[id].Array?
    ensures forall k :: 0 <= k < |job.nodes[id].items| ==> InTable(job, job.nodes[id].items[k])
    ensures Tree(job, id) ==
            Arr(seq(|job.nodes[id].items|, k requires 0 <= k < |job.nodes[id].items| => Tree(job, job.nodes[id].items[k])))
  {
    assert Children(job.nodes[id], id, |job.nodes|);
  }

  lemma TreeObject(job: Job, id: nat)
    requires InTable(job, id) && job.nodes[id].Object?
    ensures forall k :: 0 <= k < |job.nodes[id].fields| ==> InTable(job, job.nodes[id].fields[k].node)
    ensures Tree(job, id).Obj? && |Tree(job, id).fields| == |job.nodes[id].fields|
    ensures forall k :: 0 <= k < |job.nodes[id].fields| ==>
              Tree(job, id).fields[k] == Field(job.nodes[id].fields[k].units, Tree(job, job.nodes[id].fields[k].node))
  {
    assert Children(job.nodes[id], id, |job.nodes|);
  }

  lemma ArrayUnfolds(job: Job, id: nat)
    requires InTable(job, id) && job.nodes[id].Array?
    ensures NodeText(job, id) == "[" + JoinItems(Texts(job, job.nodes[id].items))
    ensures Fits(job, id) <==> FitFrom(job, job.nodes[id].items, 0)
  {
    TreeArray(job, id);
    hide TreeOf, Tree, JoinItems, InTable;
    var items := job.nodes[id].items;
    var vals := Canonical(job.policy, Tree(job, id)).items;
    assert forall k :: 0 <= k < |items| ==> Print(vals[k]) == NodeText(job, items[k]);
    assert seq(|vals|, k requires 0 <= k < |vals| => Print(vals[k])) == Texts(job, items);
    assert forall k :: 0 <= k < |items| ==> (Fits(job, items[k]) <==> Writable(job.policy, Tree(job, id).items[k]));
  }

  lemma {:induction false} OverlaidPlain(entries: seq<Entry>)
    ensures |Overlaid(entries, [])| == |entries|
    ensures forall k :: 0 <= k < |entries| ==> Overlaid(entries, [])[k] == Piece(entries[k].units, WNode(entries[k].node))
    decreases |entries|
  {
    if entries != [] { OverlaidPlain(entries[1..]); }
  }

  /** The fields of an object node, canonical and still in source order. */
  ghost function Base(job: Job, entries: seq<Entry>): (r: seq<Field>)
    ensures |r| == |entries|
  {
    seq(|entries|, k requires 0 <= k < |entries| => Field(entries[k].units, Canonical(job.policy, Tree(job, entries[k].node))))
  }

  lemma CanonicalObject(job: Job, id: nat)
    requires InTable(job, id) && job.nodes[id].Object?
    ensures Canonical(job.policy, Tree(job, id)) == Obj(Arranged(job.policy.javascript, Base(job, job.nodes[id].fields)))
    ensures Fits(job, id) <==> forall k :: 0 <= k < |job.nodes[id].fields| ==> Fits(job, job.nodes[id].fields[k].node)
  {
    TreeObject(job, id);
    hide TreeOf, Tree, InTable, Arranged;
    var fields := Tree(job, id).fields;
    assert seq(|fields|, k requires 0 <= k < |fields| => Field(fields[k].key, Canonical(job.policy, fields[k].value)))
        == Base(job, job.nodes[id].fields);
    assert forall k :: 0 <= k < |fields| ==> (Fits(job, job.nodes[id].fields[k].node) <==> Writable(job.policy, fields[k].value));
  }

  lemma ObjectUnfolds(job: Job, id: nat)
    requires InTable(job, id) && job.nodes[id].Object?
    ensures NodeText(job, id) == ObjectText(job, job.nodes[id].fields, [])
    ensures Fits(job, id) <==> ObjectFits(job, job.nodes[id].fields, [])
  {
    var entries := job.nodes[id].fields;
    var pieces, base := Overlaid(entries, []), Base(job, entries);
    TreeObject(job, id);
    CanonicalObject(job, id);
    OverlaidPlain(entries);
    var order := Emission(job.policy.javascript, Keys(base));
    hide TreeOf, Tree, InTable, JoinFields, Canonical, Overlaid, Emission, Writable;
    assert PieceKeys(pieces) == Keys(base);
    var sorted := Sorted(job.policy.javascript, pieces);
    var fields := Arranged(job.policy.javascript, base);
    assert forall k :: 0 <= k < |order| ==> sorted[k] == pieces[order[k]] && fields[k] == base[order[k]];
    assert seq(|fields|, k requires 0 <= k < |fields| => Slot(fields[k].key, Print(fields[k].value))) == Slots(job, sorted);
    SortedFit(job, pieces);
    assert forall k :: 0 <= k < |entries| ==> (Ok(job, pieces[k].value) <==> Fits(job, entries[k].node));
  }

  /** Sorting neither drops nor adds a piece. */
  lemma SortedFit(job: Job, pieces: seq<Piece>)
    ensures PiecesFit(job, Sorted(job.policy.javascript, pieces), 0) <==> forall k :: 0 <= k < |pieces| ==> Ok(job, pieces[k].value)
  {
    hide Ok;
    var order := Emission(job.policy.javascript, PieceKeys(pieces));
    var sorted := Sorted(job.policy.javascript, pieces);
    if PiecesFit(job, sorted, 0) {
      forall k | 0 <= k < |pieces| ensures Ok(job, pieces[k].value) {
        assert k in order by { if !job.policy.javascript { assert order[k] == k; } }
        var a :| 0 <= a < |order| && order[a] == k;
        assert Ok(job, sorted[a].value);
      }
    }
  }

  // ----- the writer -----

  lemma Popped(job: Job, stack: seq<Work>, w: Work, rest: seq<Work>)
    requires stack != [] && w == stack[|stack| - 1] && rest == stack[..|stack| - 1]
    ensures EmitAll(job, stack) == Emit(job, w) + EmitAll(job, rest)
    ensures OkAll(job, stack) <==> Ok(job, w) && OkAll(job, rest)
    ensures NodeChars(job, stack) == (if w.WNode? then |Emit(job, w)| else 0) + NodeChars(job, rest)
    ensures Known(job, stack) ==> Known(job, rest) && (w.WNode? ==> InTable(job, w.id))
  {
  }

  /** `out` and the stack still write the goal, and can finish exactly when the goal fits. */
  ghost predicate Writing(job: Job, out: string, stack: seq<Work>, goal: string, fits: bool) {
    out + EmitAll(job, stack) == goal && (OkAll(job, stack) <==> fits)
  }

  lemma Wrote(job: Job, out: string, stack: seq<Work>, w: Work, rest: seq<Work>, goal: string, fits: bool)
    requires stack != [] && w == stack[|stack| - 1] && rest == stack[..|stack| - 1]
    requires Writing(job, out, stack, goal, fits) && Known(job, stack)
    ensures Known(job, rest) && (w.WNode? ==> InTable(job, w.id))
    ensures Ok(job, w) ==> Writing(job, out + Emit(job, w), rest, goal, fits)
    ensures !Ok(job, w) ==> !fits
    ensures NodeChars(job, rest) <= NodeChars(job, stack)
  {
    Popped(job, stack, w, rest);
    Regroup(out, Emit(job, w), EmitAll(job, rest));
  }

  /** Replacing a container by its work items changes nothing but the measure. */
  lemma Expanded(job: Job, out: string, stack: seq<Work>, id: nat, rest: seq<Work>, after: seq<Work>, chars: nat, goal: string, fits: bool)
    requires stack != [] && WNode(id) == stack[|stack| - 1] && rest == stack[..|stack| - 1]
    requires Writing(job, out, stack, goal, fits) && Known(job, stack)
    requires InTable(job, id) && Pushes(job, rest, after, RootText(job, id, []), chars, RootFits(job, id, [])) && chars < |RootText(job, id, [])|
    ensures Writing(job, out, after, goal, fits) && Known(job, after)
    ensures NodeChars(job, after) < NodeChars(job, stack)
  {
    Begin(job, id);
    Popped(job, stack, WNode(id), rest);
  }

  lemma Leaf(job: Job, id: nat)
    requires InTable(job, id)
    ensures job.nodes[id].Primitive? ==>
              var raw := job.nodes[id].raw;
              && (Fits(job, id) <==> Rendered(job.policy, raw).Some?)
              && (Fits(job, id) ==> NodeText(job, id) == Rendered(job.policy, raw).value)
    ensures job.nodes[id].String? ==>
              Fits(job, id) && NodeText(job, id) == Quote(StringUnits(job.policy, UnitsOf(job.exact, id, job.nodes[id].text)))
  {
  }

  lemma Begin(job: Job, root: nat)
    requires InTable(job, root)
    ensures Writing(job, "", [WNode(root)], RootText(job, root, []), RootFits(job, root, [])) && Known(job, [WNode(root)])
    ensures NodeText(job, root) == RootText(job, root, []) && (Fits(job, root) <==> RootFits(job, root, []))
  {
    if job.nodes[root].Object? { ObjectUnfolds(job, root); }
    var stack := [WNode(root)];
    Popped(job, stack, WNode(root), []);
    assert NodeText(job, root) + "" == NodeText(job, root);
    assert "" + EmitAll(job, stack) == EmitAll(job, stack);
  }

  predicate Container(n: FlatNode) { n.Array? || n.Object? }

  /** A work item that is not a container goes straight to the output, unless it is a number without a rendering. */
  method WriteLeaf(out: string, work: Work, doc: FlatDocument, p: Policy, overrides: map<nat, seq<Unit>>) returns (r: Option<string>)
    requires work.WNode? ==> InTable(Job(doc.nodes, doc.nodeExactStrings + overrides, p), work.id) && !Container(doc.nodes[work.id])
    ensures var job := Job(doc.nodes, doc.nodeExactStrings + overrides, p);
            (r.Some? <==> Ok(job, work)) && (r.Some? ==> r.value == out + Emit(job, work))
  {
    ghost var job := Job(doc.nodes, doc.nodeExactStrings + overrides, p);
    hide NodeText, Fits, Tree, TreeOf, Children;
    match work
    case WByte(byte) => return Some(out + [byte]);
    case WRaw(source) => return Some(out + source);
    case WString(units) =>
      var text := WriteString(out, units);
      return Some(text);
    case WNode(id) =>
      Leaf(job, id);
      if doc.nodes[id].Primitive? {
        var token := Rendered(p, doc.nodes[id].raw);
        return if token.Some? then Some(out + token.value) else None;
      }
      var units := if id in overrides then overrides[id] else UnitsOf(doc.nodeExactStrings, id, doc.nodes[id].text);
      if p.normalize {
        units := ToWellFormed(units);
      }
      var text := WriteString(out, units);
      return Some(text);
  }

  /** A container is replaced by its work items; an object takes all pending overlays. */
  method Expand(rest: seq<Work>, id: nat, doc: FlatDocument, p: Policy, pending: seq<Overlay>, ghost job: Job)
      returns (stack: seq<Work>, ghost chars: nat)
    requires InTable(job, id) && job.nodes == doc.nodes && job.policy == p && Container(doc.nodes[id])
    ensures Pushes(job, rest, stack, RootText(job, id, pending), chars, RootFits(job, id, pending))
    ensures chars < |RootText(job, id, pending)|
  {
    hide NodeText, Fits, Tree, TreeOf, Pushes, Children, Overlaid, JoinFields, JoinItems;
    if doc.nodes[id].Array? {
      TreeArray(job, id);
      ArrayUnfolds(job, id);
      stack, chars := PushItems(rest, doc.nodes[id].items, job);
    } else {
      TreeObject(job, id);
      var pieces := OverlayEntries(doc.nodes[id].fields, pending);
      OverlaidGood(job, doc.nodes[id].fields, pending);
      stack, chars := PushPieces(rest, Sorted(p.javascript, pieces), job);
    }
  }

  /** `serialize_json_node_with_policy`: fails exactly when overlays meet a root that is not an
      object or a number left in place has no rendering; otherwise writes the canonical text. */
  method Serialize(doc: FlatDocument, root: nat, p: Policy, fields: seq<Overlay>, overrides: map<nat, seq<Unit>>)
      returns (r: Option<string>)
    requires InTable(Job(doc.nodes, doc.nodeExactStrings + overrides, p), root)
    ensures var job := Job(doc.nodes, doc.nodeExactStrings + overrides, p);
            && (r.Some? <==> (fields == [] || doc.nodes[root].Object?) && RootFits(job, root, fields))
            && (r.Some? ==> r.value == RootText(job, root, fields))
  {
    if fields != [] && !doc.nodes[root].Object? {
      return None;
    }
    ghost var job := Job(doc.nodes, doc.nodeExactStrings + overrides, p);
    Begin(job, root);
    hide NodeText, Fits, Known, EmitAll, OkAll, NodeChars, Writing, RootText, RootFits, Pushes, InTable, Emit, Ok;
    ghost var goal, fits := RootText(job, root, fields), RootFits(job, root, fields);
    var pending, out, stack := fields, "", [WNode(root)];
    while stack != []
      invariant Known(job, stack)
      invariant pending == [] ==> Writing(job, out, stack, goal, fits)
      invariant pending != [] ==> pending == fields && stack == [WNode(root)] && out == ""
      decreases |pending|, NodeChars(job, stack), |stack|
    {
      ghost var before := stack;
      var work := stack[|stack| - 1];
      stack := stack[..|stack| - 1];
      KnownTop(job, before);
      if work.WNode? && Container(doc.nodes[work.id]) {
        ghost var rest, chars := stack, 0;
        stack, chars := Expand(stack, work.id, doc, p, pending, job);
        if pending == [] {
          Expanded(job, out, before, work.id, rest, stack, chars, goal, fits);
        } else {
          Opened(job, root, fields, stack, chars);
        }
        pending := if doc.nodes[work.id].Object? then [] else pending;
      } else {
        Wrote(job, out, before, work, stack, goal, fits);
        var text := WriteLeaf(out, work, doc, p, overrides);
        if text.None? {
          return None;
        }
        out := text.value;
      }
    }
    Empty(job, out, goal, fits);
    r := Some(out);
  }

  lemma KnownTop(job: Job, stack: seq<Work>)
    requires Known(job, stack) && stack != []
    ensures stack[|stack| - 1].WNode? ==> InTable(job, stack[|stack| - 1].id) && stack[|stack| - 1].id < |job.nodes|
  {
  }

  lemma Empty(job: Job, out: string, goal: string, fits: bool)
    requires Writing(job, out, [], goal, fits)
    ensures out == goal && fits
  {
  }

  lemma Opened(job: Job, root: nat, fields: seq<Overlay>, stack: seq<Work>, chars: nat)
    requires InTable(job, root) && job.nodes[root].Object?
    requires Pushes(job, [], stack, RootText(job, root, fields), chars, RootFits(job, root, fields))
    ensures Writing(job, "", stack, RootText(job, root, fields), RootFits(job, root, fields)) && Known(job, stack)
  {
  }

  // ----- what the canonical form keeps -----

  /** Every position once; under JavaScript, array indices ascending and then the names in source order. */
  ghost predicate Enumerates(javascript: bool, keys: seq<seq<Unit>>, order: seq<nat>) {
    && |order| == |keys|
    && (forall a :: 0 <= a < |order| ==> order[a] < |keys|)
    && (forall i: nat :: i < |keys| ==> i in order)
    && forall a, b :: 0 <= a < b < |order| ==>
         var i, j := order[a], order[b];
         && i != j
         && (!javascript ==> i < j)
         && (javascript && ArrayIndex(keys[j]).Some? ==> ArrayIndex(keys[i]).Some? && ArrayIndex(keys[i]).value <= ArrayIndex(keys[j]).value)
         && (javascript && ArrayIndex(keys[i]).None? && ArrayIndex(keys[j]).None? ==> i < j)
  }

  lemma EmissionEnumerates(javascript: bool, keys: seq<seq<Unit>>)
    ensures Enumerates(javascript, keys, Emission(javascript, keys))
  {
    if javascript { OrderIsEnumeration(keys); }
    var order := Emission(javascript, keys);
    forall i: nat | i < |keys| ensures i in order { if !javascript { assert order[i] == i; } }
  }

  /** `c` differs from `j` only in number tokens, repaired string values and the order of fields; a literal is itself. */
  ghost predicate Alike(p: Policy, j: Json, c: Json)
    decreases j
  {
    match j
    case Prim(raw) => if raw in LITERALS then c == j else c.Prim? && p.number(raw) == Some(c.raw)
    case Str(us) => c == Str(if p.normalize then Repair(us) else us)
    case Arr(items) => c.Arr? && |c.items| == |items| && forall k :: 0 <= k < |items| ==> Alike(p, items[k], c.items[k])
    case Obj(fields) =>
      && c.Obj? && |c.fields| == |fields|
      && exists order :: Enumerates(p.javascript, Keys(fields), order) &&
           forall k :: 0 <= k < |fields| ==>
             c.fields[k].key == fields[order[k]].key && Alike(p, fields[order[k]].value, c.fields[k].value)
  }

  lemma AlikeObjects(p: Policy, fields: seq<Field>, c: Json) returns (order: seq<nat>)
    requires Alike(p, Obj(fields), c)
    ensures c.Obj? && AlikeFields(p, fields, c.fields, order)
  {
    order :| Enumerates(p.javascript, Keys(fields), order) &&
             forall k :: 0 <= k < |fields| ==>
               c.fields[k].key == fields[order[k]].key && Alike(p, fields[order[k]].value, c.fields[k].value);
  }

  lemma {:induction false} CanonicalAlike(p: Policy, j: Json)
    requires Writable(p, j)
    ensures Alike(p, j, Canonical(p, j))
    decreases j
  {
    match j
    case Prim(_) =>
    case Str(_) =>
    case Arr(items) =>
      forall k | 0 <= k < |items| ensures Alike(p, items[k], Canonical(p, items[k])) { CanonicalAlike(p, items[k]); }
    case Obj(fields) =>
      forall k | 0 <= k < |fields| ensures Alike(p, fields[k].value, Canonical(p, fields[k].value)) { CanonicalAlike(p, fields[k].value); }
      hide Canonical;
      var order := Emission(p.javascript, Keys(fields));
      EmissionEnumerates(p.javascript, Keys(fields));
      CanonicalFields(p, fields);
      assert forall k :: 0 <= k < |fields| ==> Alike(p, fields[order[k]].value, Canonical(p, fields[order[k]].value));
  }

  // ----- alike at every depth -----

  /** A step into a tree. */
  datatype Hop = Key(units: seq<Unit>) | Item(index: nat)

  function Down(j: Json, path: seq<Hop>): Option<Json>
    decreases |path|
  {
    if path == [] then Some(j)
    else match path[0]
      case Key(units) =>
        if !j.Obj? then None
        else
          var child :- P.Find(j.fields, units);
          Down(child, path[1..])
      case Item(k) => if j.Arr? && k < |j.items| then Down(j.items[k], path[1..]) else None
  }

  /** `c` holds the fields of an object in some order, each alike. */
  ghost predicate AlikeFields(p: Policy, fields: seq<Field>, c: seq<Field>, order: seq<nat>) {
    && |c| == |fields| && Enumerates(p.javascript, Keys(fields), order)
    && forall k :: 0 <= k < |fields| ==> c[k].key == fields[order[k]].key && Alike(p, fields[order[k]].value, c[k].value)
  }

  lemma ReorderedFinds(fields: seq<Field>, c: seq<Field>, order: seq<nat>, i: nat, k: nat)
    requires DistinctKeys(fields) && |c| == |order| == |fields| && i < |fields| && k < |order| && order[k] == i
    requires forall a :: 0 <= a < |order| ==> order[a] < |fields| && c[a].key == fields[order[a]].key
    requires forall a, b :: 0 <= a < b < |order| ==> order[a] != order[b]
    ensures P.Find(c, fields[i].key) == Some(c[k].value)
  {
    var key := fields[i].key;
    P.FindIn(c, key);
    hide P.Find;
    assert c[k].key == key;
    assert HasKey(c, key);
    var l :| 0 <= l < |c| && c[l] == Field(key, P.Find(c, key).value);
    assert fields[order[l]].key == fields[order[k]].key;
    assert order[l] == order[k];
  }

  /** A field of one object is the field of that name of an alike one. */
  lemma FieldAlike(p: Policy, fields: seq<Field>, c: seq<Field>, order: seq<nat>, key: seq<Unit>)
    requires DistinctKeys(fields) && AlikeFields(p, fields, c, order) && P.Find(fields, key).Some?
    ensures P.Find(c, key).Some? && Alike(p, P.Find(fields, key).value, P.Find(c, key).value)
  {
    P.FindIn(fields, key);
    var i: nat :| i < |fields| && fields[i] == Field(key, P.Find(fields, key).value);
    assert i < |Keys(fields)| && i in order;
    var k: nat :| k < |order| && order[k] == i;
    EnumeratesApart(p.javascript, Keys(fields), order);
    hide Alike, Enumerates, DistinctKeys, P.Find;
    ReorderedFinds(fields, c, order, i, k);
  }

  lemma EnumeratesApart(javascript: bool, keys: seq<seq<Unit>>, order: seq<nat>)
    requires Enumerates(javascript, keys, order)
    ensures forall a, b :: 0 <= a < b < |order| ==> order[a] != order[b]
  {
  }

  /** What a path leads to in a tree, it leads to in an alike tree, alike; so a literal anywhere stays that literal. */
  lemma {:induction false} AlikeDown(p: Policy, j: Json, c: Json, path: seq<Hop>)
    requires Alike(p, j, c) && Regular(j) && Down(j, path).Some?
    ensures Down(c, path).Some? && Alike(p, Down(j, path).value, Down(c, path).value)
    ensures forall raw :: raw in ["null", "true", "false"] && Down(j, path) == Some(Prim(raw)) ==> Down(c, path) == Some(Prim(raw))
    decreases |path|
  {
    hide IsToken, Enumerates, DistinctKeys, P.Find;
    if path != [] {
      match path[0]
      case Item(k) => AlikeDown(p, j.items[k], c.items[k], path[1..]);
      case Key(units) =>
        var fields := j.fields;
        var order := AlikeObjects(p, fields, c);
        FieldAlike(p, fields, c.fields, order, units);
        FoundRegular(fields, units);
        AlikeDown(p, P.Find(fields, units).value, P.Find(c.fields, units).value, path[1..]);
    }
  }

  lemma FoundRegular(fields: seq<Field>, key: seq<Unit>)
    requires Regular(Obj(fields)) && P.Find(fields, key).Some?
    ensures Regular(P.Find(fields, key).value)
  {
    P.FindIn(fields, key);
  }

  lemma CanonicalFields(p: Policy, fields: seq<Field>)
    ensures var order, c := Emission(p.javascript, Keys(fields)), Canonical(p, Obj(fields));
            && c.Obj? && |c.fields| == |fields|
            && forall k :: 0 <= k < |fields| ==>
                 c.fields[k] == Field(fields[order[k]].key, Canonical(p, fields[order[k]].value))
  {
    var mapped := seq(|fields|, k requires 0 <= k < |fields| => Field(fields[k].key, Canonical(p, fields[k].value)));
    assert Keys(mapped) == Keys(fields);
  }

  /** A position that precedes the first one goes in front. */
  lemma InsertFirst(keys: seq<seq<Unit>>, i: nat, order: seq<nat>)
    requires i < |keys| && forall k :: 0 <= k < |order| ==> order[k] < |keys|
    requires order != [] ==> Precedes(keys, i, order[0])
    ensures InsertPosition(keys, i, order) == [i] + order
  {
    hide Precedes;
  }

  /** Sorted keys stay where they are. */
  lemma {:induction false} OrderOfSorted(keys: seq<seq<Unit>>, from: nat)
    requires from <= |keys| && forall a, b :: 0 <= a < b < |keys| ==> Precedes(keys, a, b)
    ensures OrderFrom(keys, from) == seq(|keys| - from, k => from + k)
    decreases |keys| - from
  {
    hide Precedes;
    var all := seq(|keys| - from, k => from + k);
    if from < |keys| {
      OrderOfSorted(keys, from + 1);
      var rest := seq(|keys| - (from + 1), k => from + 1 + k);
      assert rest != [] ==> rest[0] == from + 1 && Precedes(keys, from, from + 1);
      InsertFirst(keys, from, rest);
      assert [from] + rest == all;
    } else {
      assert all == [];
    }
  }

  lemma EmissionStable(javascript: bool, keys: seq<seq<Unit>>)
    ensures var sorted := Pick(keys, Emission(javascript, keys)); Emission(javascript, sorted) == Identity(|keys|)
  {
    var order := Emission(javascript, keys);
    var sorted := Pick(keys, order);
    if javascript {
      OrderFromOrdered(keys, 0);
      forall a, b | 0 <= a < b < |sorted| ensures Precedes(sorted, a, b) {
        assert Precedes(keys, order[a], order[b]);
      }
      OrderOfSorted(sorted, 0);
    }
  }

  /** Renderings render to themselves. */
  ghost predicate RendersStably(p: Policy) {
    forall raw :: p.number(raw).Some? ==> Rendered(p, p.number(raw).value) == p.number(raw)
  }

  /** The canonical form is a fixed point: writing a written document again changes nothing. */
  lemma {:induction false} CanonicalIdempotent(p: Policy, j: Json)
    requires RendersStably(p) && Writable(p, j)
    ensures Canonical(p, Canonical(p, j)) == Canonical(p, j)
    decreases j
  {
    match j
    case Prim(_) =>
    case Str(us) =>
      RepairProperties(us);
      RepairProperties(Repair(us));
    case Arr(items) =>
      var c := Canonical(p, j).items;
      forall k | 0 <= k < |items| ensures Canonical(p, c[k]) == c[k] { CanonicalIdempotent(p, items[k]); }
      assert Canonical(p, Arr(c)).items == c;
    case Obj(fields) =>
      forall k | 0 <= k < |fields| ensures var v := Canonical(p, fields[k].value); Canonical(p, v) == v {
        CanonicalIdempotent(p, fields[k].value);
      }
      ObjectIdempotent(p, fields);
  }

  lemma ObjectIdempotent(p: Policy, fields: seq<Field>)
    requires forall k :: 0 <= k < |fields| ==> var v := Canonical(p, fields[k].value); Canonical(p, v) == v
    ensures Canonical(p, Canonical(p, Obj(fields))) == Canonical(p, Obj(fields))
  {
    CanonicalFields(p, fields);
    assert Canonical(p, Obj(fields)).Obj?;
    var c := Canonical(p, Obj(fields)).fields;
    CanonicalFields(p, c);
    assert Canonical(p, Obj(c)).Obj?;
    EmissionStable(p.javascript, Keys(fields));
    hide Canonical;
    assert Keys(c) == Pick(Keys(fields), Emission(p.javascript, Keys(fields)));
    assert Canonical(p, Obj(c)).fields == c;
  }

  // ----- parsing what was written -----

  lemma {:induction false} RegularWithStrings(nodes: seq<FlatNode>, exact: map<nat, seq<Unit>>, exact': map<nat, seq<Unit>>, id: nat)
    requires Acyclic(nodes) && id < |nodes| && Regular(TreeOf(nodes, exact, id))
    ensures Regular(TreeOf(nodes, exact', id))
    decreases |nodes| - id
  {
    assert Children(nodes[id], id, |nodes|);
    match nodes[id]
    case Primitive(_) =>
    case String(_) =>
    case Array(items) =>
      var vals := TreeOf(nodes, exact, id).items;
      forall k | 0 <= k < |items| ensures Regular(TreeOf(nodes, exact', items[k])) {
        assert Regular(vals[k]);
        RegularWithStrings(nodes, exact, exact', items[k]);
      }
    case Object(entries) =>
      var fields, fields' := TreeOf(nodes, exact, id).fields, TreeOf(nodes, exact', id).fields;
      forall k | 0 <= k < |entries| ensures Regular(TreeOf(nodes, exact', entries[k].node)) {
        assert Regular(fields[k].value);
        RegularWithStrings(nodes, exact, exact', entries[k].node);
      }
      assert forall k :: 0 <= k < |entries| ==> fields'[k].key == fields[k].key;
  }

  lemma FaithfulRegular(src: string, doc: FlatDocument, overrides: map<nat, seq<Unit>>, p: Policy, id: nat)
    requires Faithful(src, doc) && id < |doc.nodes|
    ensures var job := Job(doc.nodes, doc.nodeExactStrings + overrides, p); InTable(job, id) && Regular(Tree(job, id))
  {
    hide D.ParseText, TreeOf, SpansNest, IndexAgrees, Regular;
    assert SpanReads(src, doc, id);
    ParsedIsRegular(src[doc.nodeSourceSpans[id].start..doc.nodeSourceSpans[id].end]);
    RegularWithStrings(doc.nodes, doc.nodeExactStrings, doc.nodeExactStrings + overrides, id);
  }

  /** The written text of any node of a parsed document parses back to the canonical form of that node's tree. */
  lemma WrittenReads(src: string, doc: FlatDocument, id: nat, p: Policy, overrides: map<nat, seq<Unit>>)
    requires Faithful(src, doc) && id < |doc.nodes| && RendersTokens(p)
    requires InTable(Job(doc.nodes, doc.nodeExactStrings + overrides, p), id)
    requires RootFits(Job(doc.nodes, doc.nodeExactStrings + overrides, p), id, [])
    ensures var job := Job(doc.nodes, doc.nodeExactStrings + overrides, p);
            && Reads(RootText(job, id, []), Canonical(p, Tree(job, id)))
            && Alike(p, Tree(job, id), Canonical(p, Tree(job, id)))
  {
    var job := Job(doc.nodes, doc.nodeExactStrings + overrides, p);
    FaithfulRegular(src, doc, overrides, p, id);
    Begin(job, id);
    CanonicalRegular(p, Tree(job, id));
    CanonicalAlike(p, Tree(job, id));
    PrintReads(Canonical(p, Tree(job, id)));
  }

  // ----- overlays touch the root only -----

  ghost predicate DistinctNames(fields: seq<Overlay>) {
    forall a, b :: 0 <= a < b < |fields| ==> fields[a].name != fields[b].name
  }

  /** The value a replacement text denotes. */
  ghost function SourceValue(source: string): Json {
    if D.ParseText(source).Some? then D.ParseText(source).value else Prim("null")
  }

  ghost function OverlayFields(fields: seq<Overlay>): (r: seq<Field>)
    ensures |r| == |fields|
  {
    seq(|fields|, k requires 0 <= k < |fields| => Field(Encode(fields[k].name), SourceValue(fields[k].source)))
  }

  ghost function PieceValue(job: Job, w: Work): Json {
    if w.WNode? then Canonical(job.policy, Tree(job, w.id)) else if w.WRaw? then SourceValue(w.text) else Prim("null")
  }

  ghost function PieceFields(job: Job, pieces: seq<Piece>): (r: seq<Field>)
    ensures |r| == |pieces|
  {
    seq(|pieces|, k requires 0 <= k < |pieces| => Field(pieces[k].key, PieceValue(job, pieces[k].value)))
  }

  lemma OverlayDistinct(fields: seq<Overlay>)
    requires DistinctNames(fields)
    ensures DistinctKeys(OverlayFields(fields))
  {
    var r := OverlayFields(fields);
    forall a, b | 0 <= a < b < |r| ensures r[a].key != r[b].key {
      if r[a].key == r[b].key { EncodeInjective(fields[a].name, fields[b].name); }
    }
  }

  /** Putting distinct fields on top of a list treats its first field apart from the rest. */
  lemma PutCons(f: Field, rest: seq<Field>, o: Field)
    ensures Put([f] + rest, o.key, o.value) == if f.key == o.key then [o] + rest else [f] + Put(rest, o.key, o.value)
  {
    assert ([f] + rest)[1..] == rest;
  }

  lemma {:induction false} PutAllHead(f: Field, rest: seq<Field>, over: seq<Field>, k: nat)
    requires DistinctKeys(over) && k <= |over| && (k < |over| ==> over[k].key == f.key)
    requires k == |over| ==> !HasKey(over, f.key)
    ensures PutAll([f] + rest, over) == if k < |over| then [over[k]] + PutAll(rest, Remove(over, k)) else [f] + PutAll(rest, over)
    decreases |over|
  {
    hide Put;
    if over != [] {
      var o, over' := over[0], over[1..];
      PutCons(f, rest, o);
      assert forall l :: 0 <= l < |over'| ==> over'[l] == over[l + 1];
      if k == 0 {
        assert Remove(over, 0) == over';
        PutAllHead(o, rest, over', |over'|);
      } else {
        PutAllHead(f, Put(rest, o.key, o.value), over', k - 1);
        if k < |over| {
          assert Remove(over, k) == [o] + Remove(over', k - 1);
          assert Remove(over, k)[1..] == Remove(over', k - 1);
        }
      }
    }
  }

  lemma OverlayRemove(pending: seq<Overlay>, k: nat)
    requires k < |pending| && DistinctNames(pending)
    ensures DistinctNames(Remove(pending, k)) && OverlayFields(Remove(pending, k)) == Remove(OverlayFields(pending), k)
  {
  }

  lemma FirstNamedKey(pending: seq<Overlay>, key: seq<Unit>)
    ensures var k, over := FirstNamed(pending, key), OverlayFields(pending);
            (k < |over| ==> over[k].key == key) && (k == |over| ==> !HasKey(over, key))
  {
    hide Matches;
    forall l | 0 <= l < |pending| ensures Matches(pending[l], key) <==> OverlayFields(pending)[l].key == key {
      MatchesIff(pending[l], key);
    }
  }

  lemma OverlaidHead(entries: seq<Entry>, pending: seq<Overlay>)
    requires entries != []
    ensures var key, k := entries[0].units, FirstNamed(pending, entries[0].units);
            Overlaid(entries, pending) ==
            if k < |pending| then [Piece(key, WRaw(pending[k].source))] + Overlaid(entries[1..], Remove(pending, k))
            else [Piece(key, WNode(entries[0].node))] + Overlaid(entries[1..], pending)
  {
  }

  lemma OverlayNone(job: Job, pending: seq<Overlay>)
    requires DistinctNames(pending)
    ensures PieceFields(job, Overlaid([], pending)) == PutAll(Base(job, []), OverlayFields(pending))
  {
    var over := OverlayFields(pending);
    OverlayDistinct(pending);
    assert [] + over == over;
    PutAllFresh([], over);
    assert PieceFields(job, Appended(pending)) == over;
  }

  /** Overlaying is `Put` in sequence: replace in place, append what is new. */
  lemma {:induction false} OverlayIsPut(job: Job, entries: seq<Entry>, pending: seq<Overlay>)
    requires DistinctNames(pending)
    ensures PieceFields(job, Overlaid(entries, pending)) == PutAll(Base(job, entries), OverlayFields(pending))
    decreases |entries|
  {
    if entries == [] {
      OverlayNone(job, pending);
    } else {
      hide Canonical, Tree, PutAll, Overlaid, FirstNamed, DistinctNames, DistinctKeys, HasKey, PieceFields, Encode;
      var e, over := entries[0], OverlayFields(pending);
      var f := Field(e.units, Canonical(job.policy, Tree(job, e.node)));
      var k := FirstNamed(pending, e.units);
      OverlayDistinct(pending);
      FirstNamedKey(pending, e.units);
      assert Base(job, entries) == [f] + Base(job, entries[1..]);
      PutAllHead(f, Base(job, entries[1..]), over, k);
      OverlaidHead(entries, pending);
      if k < |pending| {
        OverlayRemove(pending, k);
        OverlayIsPut(job, entries[1..], Remove(pending, k));
        PieceHead(job, Piece(e.units, WRaw(pending[k].source)), Overlaid(entries[1..], Remove(pending, k)));
      } else {
        OverlayIsPut(job, entries[1..], pending);
        PieceHead(job, Piece(e.units, WNode(e.node)), Overlaid(entries[1..], pending));
      }
    }
  }

  lemma PieceHead(job: Job, piece: Piece, rest: seq<Piece>)
    ensures PieceFields(job, [piece] + rest) == [Field(piece.key, PieceValue(job, piece.value))] + PieceFields(job, rest)
  {
  }

  lemma {:induction false} PutAllDistinct(done: seq<Field>, fields: seq<Field>)
    requires DistinctKeys(done)
    ensures DistinctKeys(PutAll(done, fields))
    decreases |fields|
  {
    if fields != [] {
      PutDistinct(done, fields[0].key, fields[0].value);
      PutAllDistinct(Put(done, fields[0].key, fields[0].value), fields[1..]);
    }
  }

  /** A piece in its place in the emission order is the field in that place. */
  lemma SlotAt(job: Job, pieces: seq<Piece>, k: nat)
    requires forall l :: 0 <= l < |pieces| ==> Reads(Emit(job, pieces[l].value), PieceValue(job, pieces[l].value))
    requires k < |pieces|
    ensures var slots, arranged := Slots(job, Sorted(job.policy.javascript, pieces)), Arranged(job.policy.javascript, PieceFields(job, pieces));
            |slots| == |arranged| == |pieces| && slots[k].key == arranged[k].key && Reads(slots[k].text, arranged[k].value)
  {
    hide Emit, PieceValue, Reads, Emission;
    var fields := PieceFields(job, pieces);
    assert PieceKeys(pieces) == Keys(fields);
  }

  lemma ArrangedDistinct(javascript: bool, fields: seq<Field>)
    requires DistinctKeys(fields)
    ensures DistinctKeys(Arranged(javascript, fields))
  {
    EmissionDistinct(javascript, Keys(fields));
    hide Emission, Keys;
  }

  lemma SortedReads(job: Job, pieces: seq<Piece>)
    requires forall k :: 0 <= k < |pieces| ==> Reads(Emit(job, pieces[k].value), PieceValue(job, pieces[k].value))
    requires DistinctKeys(PieceFields(job, pieces))
    ensures Reads("{" + JoinFields(Slots(job, Sorted(job.policy.javascript, pieces))), Obj(Arranged(job.policy.javascript, PieceFields(job, pieces))))
  {
    hide Emit, PieceValue, Reads, Slots, Sorted, Arranged, PieceFields, JoinFields, PutAll, DistinctKeys;
    var slots, arranged := Slots(job, Sorted(job.policy.javascript, pieces)), Arranged(job.policy.javascript, PieceFields(job, pieces));
    LengthsAgree(job, pieces);
    forall k | 0 <= k < |slots| ensures slots[k].key == arranged[k].key && Reads(slots[k].text, arranged[k].value) { SlotAt(job, pieces, k); }
    ArrangedDistinct(job.policy.javascript, PieceFields(job, pieces));
    ObjectReads(slots, arranged);
    NothingBefore(arranged);
  }

  lemma LengthsAgree(job: Job, pieces: seq<Piece>)
    ensures |Slots(job, Sorted(job.policy.javascript, pieces))| == |pieces| == |Arranged(job.policy.javascript, PieceFields(job, pieces))|
  {
    hide Emission;
  }

  lemma NothingBefore(fields: seq<Field>)
    requires DistinctKeys(fields)
    ensures PutAll([], fields) == fields
  {
    hide PutAll;
    assert [] + fields == fields;
    PutAllFresh([], fields);
  }

  lemma {:induction false} OverlaidSources(job: Job, entries: seq<Entry>, pending: seq<Overlay>)
    requires forall k :: 0 <= k < |entries| ==> InTable(job, entries[k].node) && Regular(Tree(job, entries[k].node))
    requires forall k :: 0 <= k < |pending| ==> D.ParseText(pending[k].source).Some?
    requires RendersTokens(job.policy)
    ensures forall k :: 0 <= k < |Overlaid(entries, pending)| && Ok(job, Overlaid(entries, pending)[k].value) ==>
              Reads(Emit(job, Overlaid(entries, pending)[k].value), PieceValue(job, Overlaid(entries, pending)[k].value))
    decreases |entries|
  {
    hide D.ParseText, Regular, Tree, Canonical, Print, InTable, RendersTokens;
    if entries != [] {
      var e := entries[0];
      if Fits(job, e.node) {
        CanonicalRegular(job.policy, Tree(job, e.node));
        PrintReads(Canonical(job.policy, Tree(job, e.node)));
      }
      var k := FirstNamed(pending, e.units);
      OverlaidSources(job, entries[1..], if k < |pending| then Remove(pending, k) else pending);
    }
  }

  /** Distinct overlays replace or append fields of the root and nothing below it: the output parses to
      the root's canonical fields with the overlays put on top, in emission order. */
  lemma OverlayReads(src: string, doc: FlatDocument, root: nat, p: Policy, fields: seq<Overlay>, overrides: map<nat, seq<Unit>>)
    requires Faithful(src, doc) && root < |doc.nodes| && doc.nodes[root].Object? && RendersTokens(p) && DistinctNames(fields)
    requires forall k :: 0 <= k < |fields| ==> D.ParseText(fields[k].source).Some?
    requires InTable(Job(doc.nodes, doc.nodeExactStrings + overrides, p), root)
    requires RootFits(Job(doc.nodes, doc.nodeExactStrings + overrides, p), root, fields)
    ensures var job := Job(doc.nodes, doc.nodeExactStrings + overrides, p);
            Reads(RootText(job, root, fields), Obj(Arranged(p.javascript, PutAll(Base(job, doc.nodes[root].fields), OverlayFields(fields)))))
  {
    var job := Job(doc.nodes, doc.nodeExactStrings + overrides, p);
    var entries := doc.nodes[root].fields;
    TreeObject(job, root);
    forall k | 0 <= k < |entries| ensures Regular(Tree(job, entries[k].node)) { FaithfulRegular(src, doc, overrides, p, entries[k].node); }
    FaithfulRegular(src, doc, overrides, p, root);
    BaseDistinct(job, root);
    hide Faithful, D.ParseText, Tree, Regular, InTable, Overlaid, Arranged, PutAll, RendersTokens, Ok;
    var pieces := Overlaid(entries, fields);
    OverlaidSources(job, entries, fields);
    SortedFit(job, pieces);
    OverlayIsPut(job, entries, fields);
    PutAllDistinct(Base(job, entries), OverlayFields(fields));
    SortedReads(job, pieces);
  }

  lemma BaseDistinct(job: Job, root: nat)
    requires InTable(job, root) && job.nodes[root].Object? && Regular(Tree(job, root))
    ensures DistinctKeys(Base(job, job.nodes[root].fields))
  {
    TreeObject(job, root);
    var fields, base := Tree(job, root).fields, Base(job, job.nodes[root].fields);
    assert forall k :: 0 <= k < |base| ==> base[k].key == fields[k].key;
  }

  // ----- the final well-formedness pass -----

  predicate Scalar(j: Json) { j.Prim? || j.Str? }

  /** Every string value is well-formed UTF-16; keys are not looked at. */
  predicate AllWellFormed(j: Json) {
    match j
    case Prim(_) => true
    case Str(us) => WellFormed(us)
    case Arr(items) => forall k :: 0 <= k < |items| ==> AllWellFormed(items[k])
    case Obj(fields) => forall k :: 0 <= k < |fields| ==> AllWellFormed(fields[k].value)
  }

  ghost predicate PendingWellFormed(job: Job, pending: seq<nat>) {
    forall k :: 0 <= k < |pending| ==> AllWellFormed(Tree(job, pending[k]))
  }

  /** How many nodes are still to visit. */
  ghost function Remaining(job: Job, pending: seq<nat>): nat {
    if pending == [] then 0 else Weight(Tree(job, pending[|pending| - 1])) + Remaining(job, pending[..|pending| - 1])
  }

  ghost function Weight(j: Json): nat {
    match j
    case Prim(_) => 1
    case Str(_) => 1
    case Arr(items) => 1 + TotalWeight(items)
    case Obj(fields) => 1 + FieldsWeight(fields)
  }

  ghost function TotalWeight(items: seq<Json>): nat
  {
    if items == [] then 0 else TotalWeight(items[..|items| - 1]) + Weight(items[|items| - 1])
  }

  ghost function FieldsWeight(fields: seq<Field>): nat
  {
    if fields == [] then 0 else FieldsWeight(fields[..|fields| - 1]) + Weight(fields[|fields| - 1].value)
  }

  ghost function Trees(job: Job, ids: seq<nat>): (r: seq<Json>)
    ensures |r| == |ids| && forall k :: 0 <= k < |r| ==> r[k] == Tree(job, ids[k])
  {
    seq(|ids|, k requires 0 <= k < |ids| => Tree(job, ids[k]))
  }

  lemma {:induction false} RemainingAll(job: Job, pending: seq<nat>, ids: seq<nat>)
    ensures Remaining(job, pending + ids) == Remaining(job, pending) + TotalWeight(Trees(job, ids))
    decreases |ids|
  {
    hide Tree, Weight;
    if ids == [] {
      assert pending + ids == pending;
    } else {
      var n := |ids| - 1;
      RemainingAll(job, pending, ids[..n]);
      assert (pending + ids)[..|pending| + n] == pending + ids[..n];
      assert Trees(job, ids)[..n] == Trees(job, ids[..n]);
    }
  }

  lemma {:induction false} FieldsWeightIs(fields: seq<Field>, vals: seq<Json>)
    requires |fields| == |vals| && forall k :: 0 <= k < |vals| ==> vals[k] == fields[k].value
    ensures FieldsWeight(fields) == TotalWeight(vals)
    decreases |fields|
  {
    if fields != [] { FieldsWeightIs(fields[..|fields| - 1], vals[..|vals| - 1]); }
  }

  function NodesOf(entries: seq<Entry>): (ids: seq<nat>)
    ensures |ids| == |entries| && forall k :: 0 <= k < |ids| ==> ids[k] == entries[k].node
  {
    seq(|entries|, k requires 0 <= k < |entries| => entries[k].node)
  }

  lemma Visit(job: Job, pending: seq<nat>, id: nat, rest: seq<nat>)
    requires pending != [] && id == pending[|pending| - 1] && rest == pending[..|pending| - 1] && InTable(job, id)
    ensures Remaining(job, rest) < Remaining(job, pending)
    ensures PendingWellFormed(job, pending) <==> AllWellFormed(Tree(job, id)) && PendingWellFormed(job, rest)
    ensures job.nodes[id].Primitive? ==> AllWellFormed(Tree(job, id))
    ensures job.nodes[id].String? ==> (AllWellFormed(Tree(job, id)) <==> WellFormed(UnitsOf(job.exact, id, job.nodes[id].text)))
  {
    assert pending == rest + [id];
  }

  lemma WellFormedChildren(job: Job, id: nat, ids: seq<nat>)
    requires InTable(job, id)
    requires (job.nodes[id].Array? && ids == job.nodes[id].items) || (job.nodes[id].Object? && ids == NodesOf(job.nodes[id].fields))
    ensures forall k :: 0 <= k < |ids| ==> InTable(job, ids[k])
    ensures PendingWellFormed(job, ids) <==> AllWellFormed(Tree(job, id))
    ensures Weight(Tree(job, id)) == 1 + TotalWeight(Trees(job, ids))
  {
    var j := Tree(job, id);
    if job.nodes[id].Array? {
      TreeArray(job, id);
      assert j.items == Trees(job, ids);
      assert forall k :: 0 <= k < |ids| ==> j.items[k] == Tree(job, ids[k]);
    } else {
      TreeObject(job, id);
      FieldsWeightIs(j.fields, Trees(job, ids));
      assert forall k :: 0 <= k < |ids| ==> j.fields[k].value == Tree(job, ids[k]);
    }
  }

  lemma VisitChildren(job: Job, id: nat, rest: seq<nat>, ids: seq<nat>)
    requires InTable(job, id)
    requires (job.nodes[id].Array? && ids == job.nodes[id].items) || (job.nodes[id].Object? && ids == NodesOf(job.nodes[id].fields))
    ensures forall k :: 0 <= k < |ids| ==> InTable(job, ids[k])
    ensures Remaining(job, rest + ids) < Remaining(job, rest) + Weight(Tree(job, id))
    ensures PendingWellFormed(job, rest + ids) <==> AllWellFormed(Tree(job, id)) && PendingWellFormed(job, rest)
  {
    WellFormedChildren(job, id, ids);
    RemainingAll(job, rest, ids);
    hide Tree, InTable, AllWellFormed, Weight;
    var all := rest + ids;
    assert forall k :: 0 <= k < |rest| ==> all[k] == rest[k];
    assert forall k :: 0 <= k < |ids| ==> all[|rest| + k] == ids[k];
  }

  /** The detector: some string value reachable from the root is ill-formed. */
  method Malformed(doc: FlatDocument, root: nat, ghost job: Job) returns (malformed: bool)
    requires job.nodes == doc.nodes && job.exact == doc.nodeExactStrings && InTable(job, root)
    ensures malformed <==> !AllWellFormed(Tree(job, root))
  {
    var pending := [root];
    assert PendingWellFormed(job, pending) <==> AllWellFormed(Tree(job, root)) by { assert pending[0] == root; }
    while pending != []
      invariant forall k :: 0 <= k < |pending| ==> InTable(job, pending[k])
      invariant PendingWellFormed(job, pending) <==> AllWellFormed(Tree(job, root))
      decreases Remaining(job, pending)
    {
      hide Tree, PendingWellFormed, AllWellFormed, Weight, TotalWeight;
      ghost var before := pending;
      var id := pending[|pending| - 1];
      pending := pending[..|pending| - 1];
      Visit(job, before, id, pending);
      match doc.nodes[id]
      case Primitive(_) =>
      case String(text) =>
        if !WellFormed(UnitsOf(doc.nodeExactStrings, id, text)) {
          return true;
        }
      case Array(items) =>
        VisitChildren(job, id, pending, items);
        pending := pending + items;
      case Object(entries) =>
        VisitChildren(job, id, pending, NodesOf(entries));
        pending := pending + NodesOf(entries);
    }
    malformed := false;
  }

  predicate NothingToRepair(j: Json) { Scalar(j) || AllWellFormed(j) }

  datatype Outcome = Invalid | Unchanged | Rewritten(text: string)

  /** A rendering that never fails, as JavaScript's, can write every tree. */
  lemma {:induction false} TotalWrites(p: Policy, j: Json)
    requires forall raw :: p.number(raw).Some?
    ensures Writable(p, j)
    decreases j
  {
    match j
    case Prim(_) =>
    case Str(_) =>
    case Arr(items) => forall k | 0 <= k < |items| ensures Writable(p, items[k]) { TotalWrites(p, items[k]); }
    case Obj(fields) => forall k | 0 <= k < |fields| ensures Writable(p, fields[k].value) { TotalWrites(p, fields[k].value); }
  }

  /** `normalize_native_generation_json_body`: untouched exactly when the protocol is not a Claude one,
      the root is a scalar or no string value is ill-formed; otherwise the canonical repaired document,
      or a failure exactly when some number cannot be rendered. */
  method NormalizeBody(body: string, claude: bool, number: string -> Option<string>) returns (r: Outcome)
    requires RendersTokens(Policy(true, number, true))
    ensures r.Invalid? <==>
              claude && (!G.IsJsonText(body) || (D.ParseText(body).Some? && var j := D.ParseText(body).value; !NothingToRepair(j) && !Writable(Policy(true, number, true), j)))
    ensures r.Unchanged? <==> (!claude || (D.ParseText(body).Some? && NothingToRepair(D.ParseText(body).value)))
    ensures r.Rewritten? ==>
              && D.ParseText(body).Some?
              && Reads(r.text, Canonical(Policy(true, number, true), D.ParseText(body).value))
              && Alike(Policy(true, number, true), D.ParseText(body).value, Canonical(Policy(true, number, true), D.ParseText(body).value))
  {
    hide D.ParseText, G.IsJsonText, AllWellFormed, TreeOf, SpansNest, IndexAgrees, Children, RootText, Canonical, Reads, Alike;
    D.AcceptsExactlyJson(body);
    if !claude {
      return Unchanged;
    }
    var parsed := ParseDocument(body);
    if parsed.None? {
      return Invalid;
    }
    var doc, p := parsed.value, Policy(true, number, true);
    ghost var job := Job(doc.nodes, doc.nodeExactStrings, p);
    assert doc.nodeExactStrings + map[] == doc.nodeExactStrings;
    RootKind(job, doc.root);
    if !Container(doc.nodes[doc.root]) {
      return Unchanged;
    }
    var malformed := Malformed(doc, doc.root, job);
    if !malformed {
      return Unchanged;
    }
    var text := Serialize(doc, doc.root, p, [], map[]);
    Begin(job, doc.root);
    if text.None? {
      return Invalid;
    }
    WrittenReads(body, doc, doc.root, p, map[]);
    r := Rewritten(text.value);
  }

  lemma RootKind(job: Job, id: nat)
    requires InTable(job, id)
    ensures Container(job.nodes[id]) <==> !Scalar(Tree(job, id))
  {
  }

  /** A repaired document has only well-formed string values. */
  lemma {:induction false} RepairedWellFormed(p: Policy, j: Json)
    requires p.normalize
    ensures AllWellFormed(Canonical(p, j))
    decreases j
  {
    match j
    case Prim(_) =>
    case Str(us) => RepairProperties(us);
    case Arr(items) =>
      forall k | 0 <= k < |items| ensures AllWellFormed(Canonical(p, items[k])) { RepairedWellFormed(p, items[k]); }
    case Obj(fields) =>
      forall k | 0 <= k < |fields| ensures AllWellFormed(Canonical(p, fields[k].value)) { RepairedWellFormed(p, fields[k].value); }
      CanonicalFields(p, fields);
  }

  /** The rewritten body has the same shape and keys, only well-formed string values, each of its
      old length; a second pass leaves it alone. */
  method NormalizeTwice(body: string, number: string -> Option<string>) returns (once: Outcome, twice: Outcome)
    requires RendersTokens(Policy(true, number, true))
    ensures once.Rewritten? ==>
              && D.ParseText(body).Some? && D.ParseText(once.text).Some?
              && Alike(Policy(true, number, true), D.ParseText(body).value, D.ParseText(once.text).value)
              && AllWellFormed(D.ParseText(once.text).value)
              && twice == Unchanged
  {
    hide D.ParseText, G.IsJsonText, AllWellFormed, Canonical, Alike;
    once := NormalizeBody(body, true, number);
    if once.Rewritten? {
      D.AcceptsExactlyJson(once.text);
      ghost var j := D.ParseText(body).value;
      CanonicalAlike(Policy(true, number, true), j);
      RepairedWellFormed(Policy(true, number, true), j);
      twice := NormalizeBody(once.text, true, number);
    } else {
      twice := once;
    }
  }
}
