/** Exact texts onto encoded fields. */
module OverrideMap {
  // `map_message_text_overrides`: each exact text goes to its own encoded field, and none is lost.

  import opened Utf16
  import opened Sequences
  import opened JsonValue
  import opened Messages
  import opened TextOverrides
  import J = JsonPointer
  import D = JsonDescent
  import I = PointerIndex
  import F = FlatTable
  import R = ResponseJson
  import P = Payload

  // ----- groups -----

  /** Sources and fields are matched by role and text. */
  datatype Key = Key(role: string, text: string)

  function KeyOf(s: Source): Key { Key(s.role, s.text) }

  function Group(sources: seq<Source>, g: Key): seq<Source> {
    if sources == [] then []
    else
      var last := sources[|sources| - 1];
      Group(sources[..|sources| - 1], g) + if KeyOf(last) == g then [last] else []
  }

  function Matching(slots: seq<Slot>, g: Key): seq<Slot> {
    if slots == [] then []
    else
      var last := slots[|slots| - 1];
      Matching(slots[..|slots| - 1], g) + if Key(last.role, last.text) == g then [last] else []
  }

  /** How many earlier sources share this one's group. */
  function Occurrence(sources: seq<Source>, n: nat): nat
    requires n < |sources|
  {
    |Group(sources[..n], KeyOf(sources[n]))|
  }

  lemma {:induction false} GroupAt(sources: seq<Source>, n: nat)
    requires n < |sources|
    ensures var g := Group(sources, KeyOf(sources[n])); Occurrence(sources, n) < |g| && g[Occurrence(sources, n)] == sources[n]
    decreases |sources|
  {
    var k := |sources| - 1;
    if n < k {
      assert sources[..k][..n] == sources[..n];
      GroupAt(sources[..k], n);
    }
  }

  lemma {:induction false} GroupNth(sources: seq<Source>, g: Key, k: nat) returns (n: nat)
    requires k < |Group(sources, g)|
    ensures n < |sources| && KeyOf(sources[n]) == g && Occurrence(sources, n) == k
    decreases |sources|
  {
    var last := |sources| - 1;
    if k < |Group(sources[..last], g)| {
      n := GroupNth(sources[..last], g, k);
      assert sources[..last][..n] == sources[..n];
    } else {
      n := last;
    }
  }

  lemma {:induction false} GroupGrows(sources: seq<Source>, a: nat, b: nat, g: Key)
    requires a <= b <= |sources|
    ensures |Group(sources[..a], g)| <= |Group(sources[..b], g)|
    decreases b
  {
    if a < b {
      GroupGrows(sources, a, b - 1, g);
      assert sources[..b][..b - 1] == sources[..b - 1];
    }
  }

  lemma EarlierOccurrence(sources: seq<Source>, m: nat, n: nat)
    requires m < n < |sources| && KeyOf(sources[m]) == KeyOf(sources[n])
    ensures Occurrence(sources, m) < Occurrence(sources, n)
  {
    var g := KeyOf(sources[m]);
    assert sources[..m + 1][..m] == sources[..m];
    GroupGrows(sources, m + 1, n, g);
  }

  lemma {:induction false} MatchingFrom(slots: seq<Slot>, g: Key, k: nat) returns (j: nat)
    requires k < |Matching(slots, g)|
    ensures j < |slots| && slots[j] == Matching(slots, g)[k] && Key(slots[j].role, slots[j].text) == g
    decreases |slots|
  {
    var last := |slots| - 1;
    if k < |Matching(slots[..last], g)| { j := MatchingFrom(slots[..last], g, k); } else { j := last; }
  }

  lemma {:induction false} MatchingDistinct(slots: seq<Slot>, g: Key)
    requires DistinctPaths(slots)
    ensures DistinctPaths(Matching(slots, g))
    decreases |slots|
  {
    if slots != [] {
      var n := |slots| - 1;
      var before := slots[..n];
      assert forall i :: 0 <= i < n ==> before[i] == slots[i];
      MatchingDistinct(before, g);
      forall k | 0 <= k < |Matching(before, g)| ensures Matching(before, g)[k].path != slots[n].path {
        var j := MatchingFrom(before, g, k);
      }
    }
  }

  // ----- the field of a source -----

  /** The field with a source's role and text and the same number of predecessors. */
  function PointerOf(sources: seq<Source>, slots: seq<Slot>, n: nat): string
    requires n < |sources|
  {
    var matching := Matching(slots, KeyOf(sources[n]));
    if Occurrence(sources, n) < |matching| then Slashed(matching[Occurrence(sources, n)].path) else ""
  }

  /** A group that carries exact units has as many fields as sources. */
  predicate Balanced(sources: seq<Source>, slots: seq<Slot>, n: nat)
    requires n < |sources|
  {
    sources[n].units.Some? ==> |Group(sources, KeyOf(sources[n]))| == |Matching(slots, KeyOf(sources[n]))|
  }

  predicate AllUnslashed(slots: seq<Slot>) { forall k :: 0 <= k < |slots| ==> Unslashed(slots[k].path) }

  /** Distinct sources go to distinct fields. */
  lemma PointersDistinct(sources: seq<Source>, slots: seq<Slot>, m: nat, n: nat)
    requires m < |sources| && n < |sources| && m != n && sources[m].units.Some? && sources[n].units.Some?
    requires DistinctPaths(slots) && AllUnslashed(slots) && Balanced(sources, slots, m) && Balanced(sources, slots, n)
    ensures PointerOf(sources, slots, m) != PointerOf(sources, slots, n)
  {
    GroupAt(sources, m);
    GroupAt(sources, n);
    var g, h := KeyOf(sources[m]), KeyOf(sources[n]);
    var k, l := Occurrence(sources, m), Occurrence(sources, n);
    var i := MatchingFrom(slots, g, k);
    var j := MatchingFrom(slots, h, l);
    hide Group, Matching, Occurrence, Slashed;
    if g == h {
      if m < n { EarlierOccurrence(sources, m, n); } else { EarlierOccurrence(sources, n, m); }
      MatchingDistinct(slots, g);
    }
    if Slashed(slots[i].path) == Slashed(slots[j].path) { SlashedInjective(slots[i].path, slots[j].path); }
  }

  /** The first `n` sources put on their fields. */
  function Assigned(sources: seq<Source>, slots: seq<Slot>, n: nat): Overrides
    requires n <= |sources|
  {
    if n == 0 then map[]
    else
      var before := Assigned(sources, slots, n - 1);
      if sources[n - 1].units.Some? then before[PointerOf(sources, slots, n - 1) := sources[n - 1].units.value] else before
  }

  function Carrying(sources: seq<Source>): nat {
    if sources == [] then 0 else Carrying(sources[..|sources| - 1]) + if sources[|sources| - 1].units.Some? then 1 else 0
  }

  predicate Sent(sources: seq<Source>, slots: seq<Slot>, i: nat, p: string)
    requires i < |sources|
  {
    sources[i].units.Some? && PointerOf(sources, slots, i) == p
  }

  predicate AllBalanced(sources: seq<Source>, slots: seq<Slot>) { forall n: nat :: n < |sources| ==> Balanced(sources, slots, n) }

  ghost predicate Reached(sources: seq<Source>, slots: seq<Slot>, n: nat, p: string)
    requires n <= |sources|
  {
    exists i: nat :: i < n && Sent(sources, slots, i, p)
  }

  predicate Holds(sources: seq<Source>, slots: seq<Slot>, m: Overrides, i: nat)
    requires i < |sources|
  {
    sources[i].units.Some? ==> PointerOf(sources, slots, i) in m && m[PointerOf(sources, slots, i)] == sources[i].units.value
  }

  /** Every carried text is on its own field, nothing else is, and there are as many as carriers. */
  lemma {:induction false} AssignedMeans(sources: seq<Source>, slots: seq<Slot>, n: nat)
    requires n <= |sources| && DistinctPaths(slots) && AllUnslashed(slots) && AllBalanced(sources, slots)
    ensures forall p :: p in Assigned(sources, slots, n) <==> Reached(sources, slots, n, p)
    ensures forall i: nat :: i < n ==> Holds(sources, slots, Assigned(sources, slots, n), i)
    ensures |Assigned(sources, slots, n)| == Carrying(sources[..n])
    decreases n
  {
    hide PointerOf, DistinctPaths, AllUnslashed, AllBalanced, Holds, Reached;
    NoneReached(sources, slots);
    if n > 0 {
      AssignedMeans(sources, slots, n - 1);
      assert sources[..n][..n - 1] == sources[..n - 1];
      var before, m, last := Assigned(sources, slots, n - 1), Assigned(sources, slots, n), PointerOf(sources, slots, n - 1);
      forall p ensures p in m <==> Reached(sources, slots, n, p) { ReachedNext(sources, slots, n, p); }
      forall i: nat | i < n ensures Holds(sources, slots, m, i) { HoldsNext(sources, slots, before, n, i); }
      if sources[n - 1].units.Some? { NotReached(sources, slots, n - 1); }
    }
  }

  lemma NoneReached(sources: seq<Source>, slots: seq<Slot>)
    ensures forall p :: !Reached(sources, slots, 0, p)
  {
  }

  lemma ReachedNext(sources: seq<Source>, slots: seq<Slot>, n: nat, p: string)
    requires 0 < n <= |sources|
    ensures Reached(sources, slots, n, p) <==> Reached(sources, slots, n - 1, p) || Sent(sources, slots, n - 1, p)
  {
    hide PointerOf, Sent;
  }

  lemma NotReached(sources: seq<Source>, slots: seq<Slot>, n: nat)
    requires n < |sources| && sources[n].units.Some? && DistinctPaths(slots) && AllUnslashed(slots) && AllBalanced(sources, slots)
    ensures !Reached(sources, slots, n, PointerOf(sources, slots, n))
  {
    hide PointerOf, DistinctPaths, AllUnslashed, AllBalanced;
    forall i: nat | i < n && sources[i].units.Some? ensures PointerOf(sources, slots, i) != PointerOf(sources, slots, n) {
      SentApart(sources, slots, i, n);
    }
  }

  lemma HoldsNext(sources: seq<Source>, slots: seq<Slot>, before: Overrides, n: nat, i: nat)
    requires i < n <= |sources| && DistinctPaths(slots) && AllUnslashed(slots) && AllBalanced(sources, slots)
    requires i < n - 1 ==> Holds(sources, slots, before, i)
    ensures var last := sources[n - 1];
            Holds(sources, slots, if last.units.Some? then before[PointerOf(sources, slots, n - 1) := last.units.value] else before, i)
  {
    hide PointerOf, DistinctPaths, AllUnslashed, AllBalanced;
    if i < n - 1 && sources[i].units.Some? && sources[n - 1].units.Some? { SentApart(sources, slots, i, n - 1); }
  }

  lemma SentApart(sources: seq<Source>, slots: seq<Slot>, m: nat, n: nat)
    requires m < |sources| && n < |sources| && m != n && sources[m].units.Some? && sources[n].units.Some?
    requires DistinctPaths(slots) && AllUnslashed(slots) && AllBalanced(sources, slots)
    ensures PointerOf(sources, slots, m) != PointerOf(sources, slots, n)
  {
    hide Balanced, PointerOf;
    PointersDistinct(sources, slots, m, n);
  }

  // ----- the whole mapping -----

  /** The document is the scan of the body. */
  ghost predicate Scans(doc: R.FlatDocument, body: Json) { R.Rooted(doc) && F.TreeOf(doc.nodes, doc.nodeExactStrings, doc.root) == body }

  /** `kind_at` gives a string. */
  predicate NamesString(doc: R.FlatDocument, pointer: string)
    requires R.Rooted(doc)
  {
    var id := R.NodeAt(doc, pointer);
    id.Some? && id.value < |doc.nodes| && doc.nodes[id.value].String?
  }

  /** A rendered pointer names a string exactly when its path leads to one in the body, whatever keys it holds. */
  lemma NamesStringIff(src: string, doc: R.FlatDocument, body: Json, path: seq<string>)
    requires R.Faithful(src, doc) && D.ParseText(src) == Some(body)
    ensures Scans(doc, body)
    ensures NamesString(doc, J.Pointer(path)) <==> I.AtPath(body, path).Some? && I.AtPath(body, path).value.Str?
  {
    hide J.Pointer, D.ParseText, I.AtPath, I.Walk, R.SpansNest, R.SpanReads, R.IndexAgrees, R.NodeAt;
    R.NodeAtReads(src, doc, path);
    var id := R.NodeAt(doc, J.Pointer(path));
    if id.Some? { assert doc.nodes[id.value].String? <==> F.TreeOf(doc.nodes, doc.nodeExactStrings, id.value).Str?; }
  }

  /** The overrides that name no canonical text block. */
  function Passing(overrides: Overrides): Overrides { map p | p in overrides && InputPointer(p).None? :: overrides[p] }

  predicate PassingFit(family: Family, doc: R.FlatDocument, overrides: Overrides)
    requires R.Rooted(doc)
  {
    forall p :: p in Passing(overrides) ==> family == AnthropicMessages && NamesString(doc, p)
  }

  predicate AllTarget(messages: seq<Message>, overrides: Overrides) { forall p :: p in overrides ==> Targets(messages, p) }

  /** When the mapping succeeds. */
  predicate Accepted(messages: seq<Message>, family: Family, body: Json, doc: R.FlatDocument, overrides: Overrides)
    requires R.Rooted(doc)
  {
    && AllTarget(messages, overrides)
    && Sources(messages, family, overrides).Ok?
    && AllBalanced(Sources(messages, family, overrides).value, EncodedFields(family, body))
    && PassingFit(family, doc, overrides)
  }

  lemma EncodedShape(family: Family, body: Json)
    ensures DistinctPaths(EncodedFields(family, body)) && AllUnslashed(EncodedFields(family, body))
    ensures family == AnthropicMessages ==> forall k :: 0 <= k < |EncodedFields(family, body)| ==> InputPointer(Slashed(EncodedFields(family, body)[k].path)).Some?
  {
    var list := P.ItemsAt(body, [ListName(family)]);
    if list.Some? {
      FieldPaths(family, list.value);
      var slots := FieldsOf(family, list.value);
      hide FieldsOf, FromMessage, InputPointer, Slashed, Unslashed;
      forall k | 0 <= k < |slots| ensures Unslashed(slots[k].path) && (family == AnthropicMessages ==> InputPointer(Slashed(slots[k].path)).Some?) {
        assert FromSome(family, slots[k].path, |list.value|);
        var n: nat :| n < |list.value| && FromMessage(family, slots[k].path, n);
        PathShape(family, slots[k].path, n);
      }
    }
  }

  /** No exact text is lost: each carried text is on the field that has its role, its text and as many
      predecessors; each passing override is kept; and the result holds nothing else. */
  lemma NothingLost(messages: seq<Message>, family: Family, body: Json, doc: R.FlatDocument, overrides: Overrides)
    requires R.Rooted(doc) && Accepted(messages, family, body, doc, overrides)
    ensures var sources, slots := Sources(messages, family, overrides).value, EncodedFields(family, body);
            var result := Assigned(sources, slots, |sources|) + Passing(overrides);
            && |result| == Carrying(sources) + |Passing(overrides)|
            && (forall p :: p in Passing(overrides) ==> result[p] == overrides[p])
            && (forall n: nat :: n < |sources| ==> Holds(sources, slots, result, n))
            && (forall m: nat, n: nat :: m < |sources| && n < |sources| ==> Apart(sources, slots, m, n))
  {
    var sources, slots := Sources(messages, family, overrides).value, EncodedFields(family, body);
    hide Sources, EncodedFields, AllTarget, PassingFit, Assigned, Reached, Passing, DistinctPaths, AllUnslashed, AllBalanced, Holds, Apart, Carrying;
    EncodedShape(family, body);
    AssignedMeans(sources, slots, |sources|);
    assert sources[..|sources|] == sources;
    var placed, passing := Assigned(sources, slots, |sources|), Passing(overrides);
    forall p | p in placed ensures p !in passing { PassesApart(family, body, doc, overrides, sources, p); }
    UnionSize(placed, passing);
    PassingMeans(overrides);
    forall n: nat | n < |sources| ensures Holds(sources, slots, placed + passing, n) { HoldsMore(sources, slots, placed, passing, n); }
    forall m: nat, n: nat | m < |sources| && n < |sources| ensures Apart(sources, slots, m, n) { CarriersApart(sources, slots, m, n); }
  }

  /** Two carriers that are not the same go to different fields. */
  predicate Apart(sources: seq<Source>, slots: seq<Slot>, m: nat, n: nat)
    requires m < |sources| && n < |sources|
  {
    m != n && sources[m].units.Some? && sources[n].units.Some? ==> PointerOf(sources, slots, m) != PointerOf(sources, slots, n)
  }

  lemma CarriersApart(sources: seq<Source>, slots: seq<Slot>, m: nat, n: nat)
    requires m < |sources| && n < |sources| && DistinctPaths(slots) && AllUnslashed(slots) && AllBalanced(sources, slots)
    ensures Apart(sources, slots, m, n)
  {
    hide PointerOf, DistinctPaths, AllUnslashed, AllBalanced;
    if m != n && sources[m].units.Some? && sources[n].units.Some? { SentApart(sources, slots, m, n); }
  }

  lemma HoldsMore(sources: seq<Source>, slots: seq<Slot>, m: Overrides, more: Overrides, n: nat)
    requires n < |sources| && Holds(sources, slots, m, n) && m.Keys !! more.Keys
    ensures Holds(sources, slots, m + more, n)
  {
    hide PointerOf;
  }

  lemma UnionSize(m: Overrides, more: Overrides)
    requires m.Keys !! more.Keys
    ensures |m + more| == |m| + |more|
  {
    assert (m + more).Keys == m.Keys + more.Keys;
  }

  lemma PassingMeans(overrides: Overrides)
    ensures forall p :: p in Passing(overrides) ==> p in overrides && Passing(overrides)[p] == overrides[p]
  {
    hide InputPointer;
  }

  /** A field of an Anthropic body is named like a canonical block, so no passing override names it. */
  lemma PassesApart(family: Family, body: Json, doc: R.FlatDocument, overrides: Overrides, sources: seq<Source>, p: string)
    requires R.Rooted(doc) && PassingFit(family, doc, overrides) && AllBalanced(sources, EncodedFields(family, body))
    requires Reached(sources, EncodedFields(family, body), |sources|, p)
    ensures p !in Passing(overrides)
  {
    var slots := EncodedFields(family, body);
    EncodedShape(family, body);
    hide EncodedFields, PointerOf, InputPointer, NamesString, Slashed;
    var i: nat :| i < |sources| && Sent(sources, slots, i, p);
    assert Balanced(sources, slots, i);
    FieldOfSource(sources, slots, i);
  }

  /** The field of a source has its role and text. */
  lemma FieldOfSource(sources: seq<Source>, slots: seq<Slot>, n: nat)
    requires n < |sources| && sources[n].units.Some? && Balanced(sources, slots, n)
    ensures exists j: nat :: j < |slots| && PointerOf(sources, slots, n) == Slashed(slots[j].path) && Key(slots[j].role, slots[j].text) == KeyOf(sources[n])
  {
    GroupAt(sources, n);
    var j := MatchingFrom(slots, KeyOf(sources[n]), Occurrence(sources, n));
  }

  // ----- no override is dropped on the way -----

  lemma {:induction false} BlockFound(blocks: seq<ContentBlock>, role: string, family: Family, message: nat, overrides: Overrides, b: nat) returns (n: nat)
    requires b < |blocks| && (blocks[b].Text? || blocks[b].TextJsUtf16?) && BlockSources(blocks, role, family, message, overrides).Ok?
    requires Slashed(BlockPath(message, b)) in overrides
    ensures var found := BlockSources(blocks, role, family, message, overrides).value;
            n < |found| && found[n].message == message && found[n].block == b && found[n].units == Some(overrides[Slashed(BlockPath(message, b))])
    decreases |blocks|
  {
    hide Slashed, BlockPath, Display;
    var last := |blocks| - 1;
    if b < last {
      n := BlockFound(blocks[..last], role, family, message, overrides, b);
    } else {
      n := |BlockSources(blocks[..last], role, family, message, overrides).value|;
    }
  }

  /** Every override that names a canonical block is the units of a source. */
  lemma {:induction false} OverrideFound(messages: seq<Message>, family: Family, overrides: Overrides, a: nat, b: nat) returns (n: nat)
    requires Sources(messages, family, overrides).Ok? && Slashed(BlockPath(a, b)) in overrides && a < |messages| && b < |messages[a].content|
    requires messages[a].content[b].Text? || messages[a].content[b].TextJsUtf16?
    ensures var found := Sources(messages, family, overrides).value;
            n < |found| && found[n].message == a && found[n].block == b && found[n].units == Some(overrides[Slashed(BlockPath(a, b))])
    decreases |messages|
  {
    hide Slashed, BlockPath, BlockSources;
    var last := |messages| - 1;
    if a < last {
      n := OverrideFound(messages[..last], family, overrides, a, b);
    } else {
      var k := BlockFound(messages[last].content, RoleName(messages[last].role, family), family, last, overrides, b);
      n := |Sources(messages[..last], family, overrides).value| + k;
    }
  }

  /** Whatever its pointer, an override of an accepted request is in the result: under its own pointer if it
      names no canonical block, and otherwise on the field of the block it names. */
  lemma OverrideKept(messages: seq<Message>, family: Family, body: Json, doc: R.FlatDocument, overrides: Overrides, p: string) returns (q: string)
    requires R.Rooted(doc) && Accepted(messages, family, body, doc, overrides) && p in overrides
    ensures var sources, slots := Sources(messages, family, overrides).value, EncodedFields(family, body);
            var result := Assigned(sources, slots, |sources|) + Passing(overrides);
            && q in result && result[q] == overrides[p]
            && (InputPointer(p).None? ==> q == p)
            && (InputPointer(p).Some? ==> exists n: nat :: n < |sources| && q == PointerOf(sources, slots, n) && (sources[n].message, sources[n].block) == InputPointer(p).value)
  {
    var sources, slots := Sources(messages, family, overrides).value, EncodedFields(family, body);
    NothingLost(messages, family, body, doc, overrides);
    PassingMeans(overrides);
    assert Targets(messages, p);
    hide Sources, EncodedFields, Assigned, PointerOf, Slashed, BlockPath, Group, Matching;
    if InputPointer(p).None? {
      q := p;
    } else {
      var (a, b) := InputPointer(p).value;
      InputPointerIff(p, a, b);
      hide InputPointer;
      var n := OverrideFound(messages, family, overrides, a, b);
      q := PointerOf(sources, slots, n);
      assert Holds(sources, slots, Assigned(sources, slots, |sources|) + Passing(overrides), n);
    }
  }

  // ----- the code -----

  datatype Place = Place(message: nat, block: nat)

  function Named(p: Place): string { Slashed(BlockPath(p.message, p.block)) }

  predicate Earlier(p: Place, message: nat, block: nat) { p.message < message || (p.message == message && p.block < block) }

  /** The overrides of one place, unless the place has been visited. */
  predicate PendingAt(positions: map<Place, seq<Unit>>, overrides: Overrides, message: nat, block: nat, p: Place) {
    && (p in positions <==> Named(p) in overrides && !Earlier(p, message, block))
    && (p in positions ==> positions[p] == overrides[Named(p)])
  }

  ghost predicate Pending(positions: map<Place, seq<Unit>>, overrides: Overrides, message: nat, block: nat) {
    forall p: Place :: PendingAt(positions, overrides, message, block, p)
  }

  /** The overrides seen so far, sorted into places and passing pointers. */
  ghost predicate Scanned(positions: map<Place, seq<Unit>>, passing: set<string>, overrides: Overrides, seen: set<string>) {
    && (forall p: Place :: p in positions <==> Named(p) in seen && Named(p) in overrides)
    && (forall p: Place :: p in positions ==> Named(p) in overrides && positions[p] == overrides[Named(p)])
    && (forall p :: p in passing <==> p in seen && p in overrides && InputPointer(p).None?)
  }

  lemma NamedIff(p: string, at: Place)
    ensures InputPointer(p) == Some((at.message, at.block)) <==> p == Named(at)
  {
    InputPointerIff(p, at.message, at.block);
  }

  lemma ScanNext(positions: map<Place, seq<Unit>>, passing: set<string>, overrides: Overrides, seen: set<string>, p: string)
    requires Scanned(positions, passing, overrides, seen) && p in overrides
    ensures var at := InputPointer(p);
            if at.Some? then Scanned(positions[Place(at.value.0, at.value.1) := overrides[p]], passing, overrides, seen + {p})
            else Scanned(positions, passing + {p}, overrides, seen + {p})
  {
    hide InputPointer, Named;
    var at := InputPointer(p);
    forall q: Place ensures Named(q) == p <==> at == Some((q.message, q.block)) { NamedIff(p, q); }
  }

  lemma ScanStart(overrides: Overrides)
    ensures Scanned(map[], {}, overrides, {})
  {
    hide InputPointer, Named;
  }

  lemma ScanEnd(positions: map<Place, seq<Unit>>, passing: set<string>, overrides: Overrides)
    requires Scanned(positions, passing, overrides, overrides.Keys)
    ensures Pending(positions, overrides, 0, 0) && passing == Passing(overrides).Keys
  {
    hide InputPointer, Named;
    assert passing == Passing(overrides).Keys;
  }

  method ScanOverrides(messages: seq<Message>, overrides: Overrides) returns (ok: bool, positions: map<Place, seq<Unit>>, passing: set<string>)
    ensures ok <==> AllTarget(messages, overrides)
    ensures ok ==> Pending(positions, overrides, 0, 0) && passing == Passing(overrides).Keys
  {
    hide InputPointer, Scanned, Named, Pending, Targets, Passing;
    positions, passing := map[], {};
    ScanStart(overrides);
    var todo := overrides.Keys;
    ghost var seen: set<string> := {};
    while todo != {}
      invariant seen == overrides.Keys - todo && todo <= overrides.Keys
      invariant Scanned(positions, passing, overrides, seen)
      invariant forall p :: p in seen ==> Targets(messages, p)
      decreases |todo|
    {
      var p :| p in todo;
      ScanNext(positions, passing, overrides, seen, p);
      var at := InputPointer(p);
      if !Targets(messages, p) {
        return false, positions, passing;
      }
      if at.Some? {
        positions := positions[Place(at.value.0, at.value.1) := overrides[p]];
      } else {
        passing := passing + {p};
      }
      todo, seen := todo - {p}, seen + {p};
    }
    assert seen == overrides.Keys;
    ScanEnd(positions, passing, overrides);
    ok := true;
  }

  ghost predicate Grouped(groups: map<Key, seq<Source>>, sources: seq<Source>) {
    forall g: Key :: (g in groups <==> Group(sources, g) != []) && (g in groups ==> groups[g] == Group(sources, g))
  }

  function Extended(groups: map<Key, seq<Source>>, s: Source): map<Key, seq<Source>> {
    groups[KeyOf(s) := (if KeyOf(s) in groups then groups[KeyOf(s)] else []) + [s]]
  }

  lemma GroupedNext(groups: map<Key, seq<Source>>, sources: seq<Source>, s: Source)
    requires Grouped(groups, sources)
    ensures Grouped(Extended(groups, s), sources + [s])
  {
    assert (sources + [s])[..|sources|] == sources;
    forall g: Key ensures Group(sources + [s], g) == Group(sources, g) + if KeyOf(s) == g then [s] else [] {}
    hide Group;
  }

  lemma Visited(positions: map<Place, seq<Unit>>, overrides: Overrides, message: nat, block: nat)
    requires Pending(positions, overrides, message, block)
    ensures Pending(positions - {Place(message, block)}, overrides, message, block + 1)
    ensures (if Place(message, block) in positions then Some(positions[Place(message, block)]) else None) == Requested(overrides, message, block)
  {
    assert PendingAt(positions, overrides, message, block, Place(message, block));
    hide Named;
    var next, left := block + 1, positions - {Place(message, block)};
    forall p: Place ensures PendingAt(left, overrides, message, next, p) {
      assert PendingAt(positions, overrides, message, block, p);
    }
  }

  lemma NamedIsText(messages: seq<Message>, overrides: Overrides, family: Family, message: nat, block: nat)
    requires AllTarget(messages, overrides) && message < |messages| && block < |messages[message].content|
    ensures Named(Place(message, block)) in overrides ==> ContributedText(messages[message].content[block], family).Some?
  {
    var p := Named(Place(message, block));
    NamedIff(p, Place(message, block));
    hide InputPointer;
    if p in overrides { assert Targets(messages, p); }
  }

  /** The sources of one message: units from the carrier or from the override that names the block. */
  method CollectMessage(messages: seq<Message>, family: Family, mi: nat, held: map<Place, seq<Unit>>, before: map<Key, seq<Source>>,
                        ghost overrides: Overrides, ghost sources: seq<Source>)
    returns (ok: bool, positions: map<Place, seq<Unit>>, groups: map<Key, seq<Source>>)
    requires mi < |messages| && AllTarget(messages, overrides) && Pending(held, overrides, mi, 0) && Grouped(before, sources)
    ensures var r := BlockSources(messages[mi].content, RoleName(messages[mi].role, family), family, mi, overrides);
            && (ok <==> r.Ok?)
            && (ok ==> Grouped(groups, sources + r.value) && Pending(positions, overrides, mi + 1, 0))
  {
    hide Pending, Grouped, Group, ContributedText, Requested;
    var role, blocks := RoleName(messages[mi].role, family), messages[mi].content;
    positions, groups := held, before;
    var bi := 0;
    ghost var found: seq<Source> := [];
    assert sources + [] == sources;
    while bi < |blocks|
      invariant bi <= |blocks|
      invariant BlockSources(blocks[..bi], role, family, mi, overrides) == Ok(found)
      invariant Grouped(groups, sources + found) && Pending(positions, overrides, mi, bi)
    {
      var here := Place(mi, bi);
      Visited(positions, overrides, mi, bi);
      var requested := if here in positions then Some(positions[here]) else None;
      NextSources(blocks, role, family, mi, overrides, bi);
      if ContributedText(blocks[bi], family).Some? {
        positions := positions - {here};
        var s := SourceAt(blocks[bi], role, family, mi, bi, requested);
        if s.Invalid? {
          return false, positions, groups;
        }
        GroupedNext(groups, sources + found, s.value.value);
        groups := Extended(groups, s.value.value);
        Regroup(sources, found, [s.value.value]);
        found := found + [s.value.value];
      } else {
        NamedIsText(messages, overrides, family, mi, bi);
        NotPending(positions, overrides, mi, bi);
        assert positions - {here} == positions;
        assert found + [] == found;
      }
      bi := bi + 1;
    }
    assert blocks[..bi] == blocks;
    MessageVisited(messages, positions, overrides, mi);
    ok := true;
  }

  lemma NotPending(positions: map<Place, seq<Unit>>, overrides: Overrides, message: nat, block: nat)
    requires Pending(positions, overrides, message, block) && Named(Place(message, block)) !in overrides
    ensures Place(message, block) !in positions
  {
    assert PendingAt(positions, overrides, message, block, Place(message, block));
  }

  lemma NextSources(blocks: seq<ContentBlock>, role: string, family: Family, message: nat, overrides: Overrides, n: nat)
    requires n < |blocks| && BlockSources(blocks[..n], role, family, message, overrides).Ok?
    ensures var last := SourceAt(blocks[n], role, family, message, n, Requested(overrides, message, n));
            && (last.Invalid? ==> BlockSources(blocks, role, family, message, overrides).Invalid?)
            && (last.Ok? ==> BlockSources(blocks[..n + 1], role, family, message, overrides)
                               == Ok(BlockSources(blocks[..n], role, family, message, overrides).value + if last.value.Some? then [last.value.value] else []))
  {
    hide SourceAt, Requested;
    assert blocks[..n + 1][..n] == blocks[..n];
    if SourceAt(blocks[n], role, family, message, n, Requested(overrides, message, n)).Invalid? {
      BlocksInvalid(blocks, role, family, message, overrides, n + 1);
    }
  }

  lemma {:induction false} BlocksInvalid(blocks: seq<ContentBlock>, role: string, family: Family, message: nat, overrides: Overrides, n: nat)
    requires n <= |blocks| && BlockSources(blocks[..n], role, family, message, overrides).Invalid?
    ensures BlockSources(blocks, role, family, message, overrides).Invalid?
    decreases |blocks|
  {
    hide SourceAt, Requested;
    if n < |blocks| {
      var k := |blocks| - 1;
      assert blocks[..k][..n] == blocks[..n];
      BlocksInvalid(blocks[..k], role, family, message, overrides, n);
    } else {
      assert blocks[..n] == blocks;
    }
  }

  lemma {:induction false} SourcesInvalid(messages: seq<Message>, family: Family, overrides: Overrides, n: nat)
    requires n <= |messages| && Sources(messages[..n], family, overrides).Invalid?
    ensures Sources(messages, family, overrides).Invalid?
    decreases |messages|
  {
    hide BlockSources;
    if n < |messages| {
      var k := |messages| - 1;
      assert messages[..k][..n] == messages[..n];
      SourcesInvalid(messages[..k], family, overrides, n);
    } else {
      assert messages[..n] == messages;
    }
  }

  /** Past the last block of a message nothing of it is pending. */
  lemma MessageVisited(messages: seq<Message>, positions: map<Place, seq<Unit>>, overrides: Overrides, message: nat)
    requires message < |messages| && AllTarget(messages, overrides) && Pending(positions, overrides, message, |messages[message].content|)
    ensures Pending(positions, overrides, message + 1, 0)
  {
    var next := message + 1;
    forall p: Place ensures PendingAt(positions, overrides, next, 0, p) {
      assert PendingAt(positions, overrides, message, |messages[message].content|, p);
      if Named(p) in overrides { assert Targets(messages, Named(p)); }
      NamedIff(Named(p), p);
      hide InputPointer, Named;
    }
  }

  lemma AllVisited(messages: seq<Message>, positions: map<Place, seq<Unit>>, overrides: Overrides)
    requires AllTarget(messages, overrides) && Pending(positions, overrides, |messages|, 0)
    ensures positions == map[]
  {
    forall p: Place ensures p !in positions {
      assert PendingAt(positions, overrides, |messages|, 0, p);
      if Named(p) in overrides { assert Targets(messages, Named(p)); }
      NamedIff(Named(p), p);
      hide InputPointer, Named;
    }
  }

  /** All sources by group; every override that names a block has then been used. */
  method CollectSources(messages: seq<Message>, family: Family, held: map<Place, seq<Unit>>, ghost overrides: Overrides)
    returns (ok: bool, left: map<Place, seq<Unit>>, groups: map<Key, seq<Source>>)
    requires AllTarget(messages, overrides) && Pending(held, overrides, 0, 0)
    ensures ok <==> Sources(messages, family, overrides).Ok?
    ensures ok ==> Grouped(groups, Sources(messages, family, overrides).value) && left == map[]
  {
    hide Pending, BlockSources, AllTarget, Group, Grouped, Sources;
    left, groups := held, map[];
    var mi := 0;
    ghost var found: seq<Source> := [];
    NoGroups();
    NoSources(family, overrides);
    while mi < |messages|
      invariant mi <= |messages|
      invariant Sources(messages[..mi], family, overrides) == Ok(found)
      invariant Grouped(groups, found) && Pending(left, overrides, mi, 0)
    {
      NextMessage(messages, family, overrides, mi);
      var fine, positions, grown := CollectMessage(messages, family, mi, left, groups, overrides, found);
      if !fine {
        return false, left, groups;
      }
      left, groups := positions, grown;
      found := found + BlockSources(messages[mi].content, RoleName(messages[mi].role, family), family, mi, overrides).value;
      mi := mi + 1;
    }
    assert messages[..mi] == messages;
    AllVisited(messages, left, overrides);
    ok := true;
  }

  lemma NextMessage(messages: seq<Message>, family: Family, overrides: Overrides, n: nat)
    requires n < |messages| && Sources(messages[..n], family, overrides).Ok?
    ensures var last := BlockSources(messages[n].content, RoleName(messages[n].role, family), family, n, overrides);
            && (last.Invalid? ==> Sources(messages, family, overrides).Invalid?)
            && (last.Ok? ==> Sources(messages[..n + 1], family, overrides) == Ok(Sources(messages[..n], family, overrides).value + last.value))
  {
    hide BlockSources;
    assert messages[..n + 1][..n] == messages[..n];
    if BlockSources(messages[n].content, RoleName(messages[n].role, family), family, n, overrides).Invalid? {
      SourcesInvalid(messages, family, overrides, n + 1);
    }
  }

  lemma NoSources(family: Family, overrides: Overrides)
    ensures Sources([], family, overrides) == Ok([])
  {
  }

  lemma NoGroups()
    ensures Grouped(map[], [])
  {
  }

  // ----- filling the fields, group by group -----

  method MatchingSlots(slots: seq<Slot>, g: Key) returns (r: seq<Slot>)
    ensures r == Matching(slots, g)
  {
    r := [];
    var k := 0;
    while k < |slots|
      invariant k <= |slots|
      invariant r == Matching(slots[..k], g)
    {
      assert slots[..k + 1][..k] == slots[..k];
      if slots[k].role == g.role && slots[k].text == g.text {
        r := r + [slots[k]];
      }
      k := k + 1;
    }
    assert slots[..k] == slots;
  }

  /** The sources handled so far: those of finished groups, and the first `k` of the group in hand. */
  predicate Handled(sources: seq<Source>, done: set<Key>, g: Key, k: nat, n: nat)
    requires n < |sources|
  {
    KeyOf(sources[n]) in done || (KeyOf(sources[n]) == g && Occurrence(sources, n) < k)
  }

  ghost predicate From(sources: seq<Source>, slots: seq<Slot>, done: set<Key>, g: Key, k: nat, p: string) {
    exists n: nat :: n < |sources| && Handled(sources, done, g, k, n) && Sent(sources, slots, n, p)
  }

  ghost predicate Filled(sources: seq<Source>, slots: seq<Slot>, done: set<Key>, g: Key, k: nat, result: Overrides) {
    && (forall n: nat :: n < |sources| && Handled(sources, done, g, k, n) ==> Holds(sources, slots, result, n) && Balanced(sources, slots, n))
    && (forall p :: p in result ==> From(sources, slots, done, g, k, p))
  }

  /** The group in hand has as many fields as sources. */
  predicate Even(sources: seq<Source>, slots: seq<Slot>, g: Key) { |Group(sources, g)| == |Matching(slots, g)| }

  /** Filling the `n`-th source's field keeps what the handled sources hold. */
  lemma FillHolds(sources: seq<Source>, slots: seq<Slot>, done: set<Key>, g: Key, k: nat, result: Overrides, n: nat, m: nat)
    requires Filled(sources, slots, done, g, k, result) && n < |sources| && KeyOf(sources[n]) == g && Occurrence(sources, n) == k
    requires m < |sources| && Handled(sources, done, g, k + 1, m) && Balanced(sources, slots, n) && DistinctPaths(slots) && AllUnslashed(slots)
    ensures Balanced(sources, slots, m)
    ensures Holds(sources, slots, if sources[n].units.Some? then result[PointerOf(sources, slots, n) := sources[n].units.value] else result, m)
  {
    hide Balanced, PointerOf, DistinctPaths, AllUnslashed, Occurrence;
    if m != n {
      if KeyOf(sources[m]) == g { SameTurn(sources, m, n); }
      assert Handled(sources, done, g, k, m);
      if sources[m].units.Some? && sources[n].units.Some? { PointersDistinct(sources, slots, m, n); }
    }
  }

  lemma FillFrom(sources: seq<Source>, slots: seq<Slot>, done: set<Key>, g: Key, k: nat, p: string)
    requires From(sources, slots, done, g, k, p)
    ensures From(sources, slots, done, g, k + 1, p)
  {
    hide Occurrence, Sent;
    var m: nat :| m < |sources| && Handled(sources, done, g, k, m) && Sent(sources, slots, m, p);
    assert Handled(sources, done, g, k + 1, m);
  }

  /** The source the next field is for. */
  lemma FillSource(sources: seq<Source>, slots: seq<Slot>, done: set<Key>, g: Key, k: nat) returns (n: nat)
    requires Even(sources, slots, g) && k < |Group(sources, g)|
    ensures n < |sources| && KeyOf(sources[n]) == g && Occurrence(sources, n) == k && Balanced(sources, slots, n)
    ensures k < |Matching(slots, g)| && sources[n] == Group(sources, g)[k] && PointerOf(sources, slots, n) == Slashed(Matching(slots, g)[k].path)
    ensures Handled(sources, done, g, k + 1, n)
    ensures sources[n].units.Some? ==> Sent(sources, slots, n, Slashed(Matching(slots, g)[k].path))
  {
    hide Group, Matching, Occurrence, Slashed;
    n := GroupNth(sources, g, k);
    GroupAt(sources, n);
  }

  lemma FillSent(sources: seq<Source>, slots: seq<Slot>, done: set<Key>, g: Key, k: nat, n: nat, p: string)
    requires n < |sources| && Handled(sources, done, g, k, n) && Sent(sources, slots, n, p)
    ensures From(sources, slots, done, g, k, p)
  {
    hide Occurrence, Sent, Handled;
  }

  lemma FillNext(sources: seq<Source>, slots: seq<Slot>, done: set<Key>, g: Key, k: nat, result: Overrides)
    requires Filled(sources, slots, done, g, k, result) && Even(sources, slots, g) && k < |Group(sources, g)|
    requires DistinctPaths(slots) && AllUnslashed(slots)
    ensures var item, slot := Group(sources, g)[k], Matching(slots, g)[k];
            Filled(sources, slots, done, g, k + 1, if item.units.Some? then result[Slashed(slot.path) := item.units.value] else result)
  {
    hide Group, Matching, PointerOf, Slashed, Even, DistinctPaths, AllUnslashed, Balanced, Occurrence, Holds, From, Sent, Handled;
    var n := FillSource(sources, slots, done, g, k);
    var item, slot := Group(sources, g)[k], Matching(slots, g)[k];
    var next, result' := k + 1, if item.units.Some? then result[Slashed(slot.path) := item.units.value] else result;
    forall m: nat | m < |sources| && Handled(sources, done, g, next, m) ensures Holds(sources, slots, result', m) && Balanced(sources, slots, m) {
      FillHolds(sources, slots, done, g, k, result, n, m);
    }
    forall p | p in result' ensures From(sources, slots, done, g, next, p) {
      if p in result { FillFrom(sources, slots, done, g, k, p); } else { FillSent(sources, slots, done, g, next, n, p); }
    }
  }

  lemma SameTurn(sources: seq<Source>, m: nat, n: nat)
    requires m < |sources| && n < |sources| && m != n && KeyOf(sources[m]) == KeyOf(sources[n])
    ensures Occurrence(sources, m) != Occurrence(sources, n)
  {
    if m < n { EarlierOccurrence(sources, m, n); } else { EarlierOccurrence(sources, n, m); }
  }

  /** A finished group joins the finished ones, whichever group comes next. */
  lemma FillDone(sources: seq<Source>, slots: seq<Slot>, done: set<Key>, g: Key, h: Key, result: Overrides)
    requires Filled(sources, slots, done, g, |Group(sources, g)|, result)
    ensures Filled(sources, slots, done + {g}, h, 0, result)
  {
    var all := |Group(sources, g)|;
    forall n: nat | n < |sources| && Handled(sources, done + {g}, h, 0, n) ensures Handled(sources, done, g, all, n) { GroupAt(sources, n); }
    forall n: nat | n < |sources| && Handled(sources, done, g, all, n) ensures Handled(sources, done + {g}, h, 0, n) {}
    hide Handled, Holds, Balanced, Sent;
    forall p | p in result ensures From(sources, slots, done + {g}, h, 0, p) {
      assert From(sources, slots, done, g, all, p);
      var n: nat :| n < |sources| && Handled(sources, done, g, all, n) && Sent(sources, slots, n, p);
      assert Handled(sources, done + {g}, h, 0, n);
    }
  }

  /** A group that carries nothing is finished as it stands. */
  lemma FillSkip(sources: seq<Source>, slots: seq<Slot>, done: set<Key>, g: Key, result: Overrides)
    requires Filled(sources, slots, done, g, 0, result) && forall k :: 0 <= k < |Group(sources, g)| ==> Group(sources, g)[k].units.None?
    ensures Filled(sources, slots, done, g, |Group(sources, g)|, result)
  {
    var all := |Group(sources, g)|;
    forall n: nat | n < |sources| && Handled(sources, done, g, all, n) ensures Holds(sources, slots, result, n) && Balanced(sources, slots, n) {
      if KeyOf(sources[n]) in done { assert Handled(sources, done, g, 0, n); } else { GroupAt(sources, n); }
    }
    forall p | p in result ensures From(sources, slots, done, g, all, p) {
      assert From(sources, slots, done, g, 0, p);
      var n: nat :| n < |sources| && Handled(sources, done, g, 0, n) && Sent(sources, slots, n, p);
      assert Handled(sources, done, g, all, n);
    }
  }

  /** When every group is finished the result is the assignment of all sources. */
  lemma FillAll(sources: seq<Source>, slots: seq<Slot>, done: set<Key>, g: Key, result: Overrides)
    requires Filled(sources, slots, done, g, 0, result) && forall n: nat :: n < |sources| ==> KeyOf(sources[n]) in done
    requires DistinctPaths(slots) && AllUnslashed(slots)
    ensures AllBalanced(sources, slots) && result == Assigned(sources, slots, |sources|)
  {
    hide Balanced, PointerOf, Occurrence, DistinctPaths, AllUnslashed, Assigned;
    forall n: nat | n < |sources| ensures Holds(sources, slots, result, n) && Balanced(sources, slots, n) { assert Handled(sources, done, g, 0, n); }
    AssignedMeans(sources, slots, |sources|);
    var all := Assigned(sources, slots, |sources|);
    forall p ensures p in result <==> p in all {
      if p in result { assert From(sources, slots, done, g, 0, p); }
      if p in all {
        assert Reached(sources, slots, |sources|, p);
        var n: nat :| n < |sources| && Sent(sources, slots, n, p);
        assert Holds(sources, slots, result, n);
      }
    }
    forall p | p in all ensures result[p] == all[p] {
      assert Reached(sources, slots, |sources|, p);
      var n: nat :| n < |sources| && Sent(sources, slots, n, p);
      assert Holds(sources, slots, result, n) && Holds(sources, slots, all, n);
    }
  }

  /** One group onto its fields. */
  method FillGroup(items: seq<Source>, matching: seq<Slot>, before: Overrides,
                   ghost sources: seq<Source>, ghost slots: seq<Slot>, ghost done: set<Key>, ghost g: Key) returns (result: Overrides)
    requires items == Group(sources, g) && matching == Matching(slots, g) && |items| == |matching|
    requires Filled(sources, slots, done, g, 0, before) && DistinctPaths(slots) && AllUnslashed(slots)
    ensures Filled(sources, slots, done, g, |Group(sources, g)|, result)
  {
    hide Filled, DistinctPaths, AllUnslashed, Group, Matching, Slashed;
    result := before;
    var k := 0;
    while k < |items|
      invariant k <= |items|
      invariant Filled(sources, slots, done, g, k, result)
    {
      FillNext(sources, slots, done, g, k, result);
      if items[k].units.Some? {
        result := result[Slashed(matching[k].path) := items[k].units.value];
      }
      k := k + 1;
    }
  }

  method AnyUnits(items: seq<Source>) returns (r: bool)
    ensures r <==> exists k :: 0 <= k < |items| && items[k].units.Some?
  {
    r := false;
    var k := 0;
    while k < |items|
      invariant k <= |items| && (r <==> exists l :: 0 <= l < k && items[l].units.Some?)
    {
      r := r || items[k].units.Some?;
      k := k + 1;
    }
  }

  lemma Unbalanced(sources: seq<Source>, slots: seq<Slot>, g: Key, k: nat)
    requires k < |Group(sources, g)| && Group(sources, g)[k].units.Some? && !Even(sources, slots, g)
    ensures !AllBalanced(sources, slots)
  {
    var n := GroupNth(sources, g, k);
    GroupAt(sources, n);
    assert !Balanced(sources, slots, n);
  }

  lemma NothingFilled(sources: seq<Source>, slots: seq<Slot>, g: Key)
    ensures Filled(sources, slots, {}, g, 0, map[])
  {
  }

  method FillFields(groups: map<Key, seq<Source>>, slots: seq<Slot>, ghost sources: seq<Source>) returns (ok: bool, result: Overrides)
    requires Grouped(groups, sources) && DistinctPaths(slots) && AllUnslashed(slots)
    ensures ok <==> AllBalanced(sources, slots)
    ensures ok ==> result == Assigned(sources, slots, |sources|)
  {
    hide Filled, DistinctPaths, AllUnslashed, Group, Matching, AllBalanced, Grouped, Assigned;
    result := map[];
    var todo := groups.Keys;
    ghost var done: set<Key> := {};
    ghost var any := Key("", "");
    NothingFilled(sources, slots, any);
    while todo != {}
      invariant done == groups.Keys - todo && todo <= groups.Keys
      invariant Filled(sources, slots, done, any, 0, result)
      decreases |todo|
    {
      var g :| g in todo;
      GroupOf(groups, sources, g);
      var items := groups[g];
      FillStart(sources, slots, done, any, g, result);
      var carries := AnyUnits(items);
      if carries {
        var matching := MatchingSlots(slots, g);
        if |matching| != |items| {
          ghost var k :| 0 <= k < |items| && items[k].units.Some?;
          Unbalanced(sources, slots, g, k);
          return false, result;
        }
        result := FillGroup(items, matching, result, sources, slots, done, g);
      } else {
        FillSkip(sources, slots, done, g, result);
      }
      FillDone(sources, slots, done, g, any, result);
      todo, done := todo - {g}, done + {g};
    }
    assert done == groups.Keys;
    forall n: nat | n < |sources| ensures KeyOf(sources[n]) in done { KeyGrouped(groups, sources, n); }
    FillAll(sources, slots, done, any, result);
    ok := true;
  }

  lemma GroupOf(groups: map<Key, seq<Source>>, sources: seq<Source>, g: Key)
    requires Grouped(groups, sources) && g in groups
    ensures groups[g] == Group(sources, g)
  {
    hide Group;
  }

  lemma KeyGrouped(groups: map<Key, seq<Source>>, sources: seq<Source>, n: nat)
    requires Grouped(groups, sources) && n < |sources|
    ensures KeyOf(sources[n]) in groups
  {
    GroupAt(sources, n);
    hide Group;
  }

  lemma FillStart(sources: seq<Source>, slots: seq<Slot>, done: set<Key>, g: Key, h: Key, result: Overrides)
    requires Filled(sources, slots, done, g, 0, result)
    ensures Filled(sources, slots, done, h, 0, result)
  {
    hide Holds, Balanced, Sent, Occurrence;
    forall p | p in result ensures From(sources, slots, done, h, 0, p) {
      assert From(sources, slots, done, g, 0, p);
      var n: nat :| n < |sources| && Handled(sources, done, g, 0, n) && Sent(sources, slots, n, p);
      assert Handled(sources, done, h, 0, n);
    }
    forall n: nat | n < |sources| && Handled(sources, done, h, 0, n) ensures Holds(sources, slots, result, n) && Balanced(sources, slots, n) {
      assert Handled(sources, done, g, 0, n);
    }
  }

  /** `map_message_text_overrides`. The codecs write four families; no other reaches this code. The check that
      no override is left over can never fail, because a named block is a text block and so a source. */
  method MapMessageTextOverrides(messages: seq<Message>, protocol: Family, body: Json, doc: R.FlatDocument, overrides: Overrides) returns (r: Result<Overrides>)
    requires Scans(doc, body) && NativeFamily(protocol) != GeminiInteractions
    ensures r.Ok? <==> Accepted(messages, NativeFamily(protocol), body, doc, overrides)
    ensures r.Ok? ==>
              var sources := Sources(messages, NativeFamily(protocol), overrides).value;
              r.value == Assigned(sources, EncodedFields(NativeFamily(protocol), body), |sources|) + Passing(overrides)
  {
    hide Sources, EncodedFields, AllTarget, AllBalanced, Assigned, Pending, Grouped, InputPointer, NamesString;
    var family := NativeFamily(protocol);
    var scanned, positions, passing := ScanOverrides(messages, overrides);
    if !scanned {
      return Invalid;
    }
    var collected, left, groups := CollectSources(messages, family, positions, overrides);
    if !collected {
      return Invalid;
    }
    assert left == map[];
    var slots := EncodedTextFields(family, body);
    EncodedShape(family, body);
    ghost var sources := Sources(messages, family, overrides).value;
    var filled, result := FillFields(groups, slots, sources);
    if !filled {
      return Invalid;
    }
    var kept := PassThrough(family, doc, overrides, passing);
    if kept.Invalid? {
      return Invalid;
    }
    r := Ok(result + kept.value);
  }

  method PassThrough(family: Family, doc: R.FlatDocument, overrides: Overrides, passing: set<string>) returns (r: Result<Overrides>)
    requires R.Rooted(doc) && passing == Passing(overrides).Keys
    ensures r.Ok? <==> PassingFit(family, doc, overrides)
    ensures r.Ok? ==> r.value == Passing(overrides)
  {
    hide InputPointer, R.NodeAt;
    PassingMeans(overrides);
    var kept: Overrides, todo := map[], passing;
    while todo != {}
      invariant todo <= passing && kept.Keys == passing - todo
      invariant forall p :: p in kept ==> kept[p] == overrides[p] && family == AnthropicMessages && NamesString(doc, p)
      decreases |todo|
    {
      var p :| p in todo;
      var id := R.NodeIdAt(doc, p);
      if family != AnthropicMessages || id.None? || id.value >= |doc.nodes| || !doc.nodes[id.value].String? {
        return Invalid;
      }
      kept := kept[p := overrides[p]];
      todo := todo - {p};
    }
    r := Ok(kept);
  }
}
