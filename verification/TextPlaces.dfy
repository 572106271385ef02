/** Which blocks are sources, which fields are slots, and which slot is a source's. */
module TextPlaces {
  // Sources and slots of the override mapping in the words of the wire formats: names, kinds and positions,
  // without the functions that collect them.

  import opened Utf16
  import opened DecimalText
  import opened JsonValue
  import opened Messages
  import opened TextOverrides
  import O = OverrideMap
  import P = Payload
  import Sequences

  // ----- sources -----

  /** A member that is a string with this display text. */
  predicate Says(j: Json, name: string, text: string) {
    var v := P.Get(j, name);
    v.Some? && v.value.Str? && Display(v.value.units) == text
  }

  lemma SaysReads(j: Json, name: string, text: string)
    ensures P.StringAt(j, [name]) == Some(text) <==> Says(j, name, text)
  {
    if P.Get(j, name).Some? { assert [name][1..] == [] && P.At(P.Get(j, name).value, []) == Some(P.Get(j, name).value); }
  }

  /** The text that a block puts on the wire of a family. */
  predicate Shows(b: ContentBlock, family: Family, text: string) {
    match b
    case Text(t, _, _) => t == text
    case TextJsUtf16(t, _, _, _) => t == text
    case Thinking(t, _) => family == GeminiGenerateContent && t == text
    case ProviderContent(protocol, value) =>
      family == AnthropicMessages && protocol == AnthropicMessages && Says(value, "type", "text") && Says(value, "text", text)
    case _ => false
  }

  /** How a family calls a role. */
  predicate Called(role: Role, family: Family, name: string) {
    || (role == User && name == "user")
    || (role == System && name == "system")
    || (role == Assistant && family == GeminiGenerateContent && name == "model")
    || (role == Assistant && family != GeminiGenerateContent && name == "assistant")
  }

  /** The override that names a block. */
  function Asked(overrides: Overrides, message: nat, block: nat): Option<seq<Unit>> {
    var p := "/messages/" + ToText(message) + "/content/" + ToText(block) + "/text";
    if p in overrides then Some(overrides[p]) else None
  }

  /** The units a block is to be written with: its own, or those asked for. */
  function Wanted(b: ContentBlock, asked: Option<seq<Unit>>): Option<seq<Unit>> { if b.TextJsUtf16? then Some(b.units) else asked }

  /** A block whose own units differ from those asked for, or whose units do not spell its text. */
  ghost predicate Clashes(b: ContentBlock, family: Family, asked: Option<seq<Unit>>) {
    exists text ::
      && Shows(b, family, text)
      && (|| (b.TextJsUtf16? && asked.Some? && asked.value != b.units)
          || (Wanted(b, asked).Some? && Display(Wanted(b, asked).value) != text))
  }

  predicate InRange(messages: seq<Message>, message: nat, block: nat) { message < |messages| && block < |messages[message].content| }

  /** The source that a block is. */
  predicate IsSource(messages: seq<Message>, family: Family, overrides: Overrides, s: Source) {
    && InRange(messages, s.message, s.block)
    && Called(messages[s.message].role, family, s.role)
    && Shows(messages[s.message].content[s.block], family, s.text)
    && s.units == Wanted(messages[s.message].content[s.block], Asked(overrides, s.message, s.block))
  }

  lemma AskedIs(overrides: Overrides, message: nat, block: nat)
    ensures Requested(overrides, message, block) == Asked(overrides, message, block)
  {
    var a, b := ToText(message), ToText(block);
    hide ToText;
    var parts := ["messages", a, "content", b, "text"];
    assert parts[1..][1..][1..][1..] == ["text"];
    assert Sequences.Join(["text"], '/') == "text";
    assert parts[1..][1..][1..] == [b, "text"];
    assert parts[1..][1..] == ["content", b, "text"];
    assert parts[1..] == [a, "content", b, "text"];
    assert Sequences.Join([b, "text"], '/') == b + "/text";
    assert Sequences.Join(["content", b, "text"], '/') == "content" + ['/'] + (b + "/text");
    assert Sequences.Join([a, "content", b, "text"], '/') == a + ['/'] + ("content" + ['/'] + (b + "/text"));
    assert Slashed(parts) == "/" + ("messages" + ['/'] + (a + ['/'] + ("content" + ['/'] + (b + "/text"))));
    assert Slashed(parts) == "/messages/" + a + "/content/" + b + "/text";
  }

  lemma CalledIff(role: Role, family: Family, name: string)
    ensures RoleName(role, family) == name <==> Called(role, family, name)
  {
  }

  lemma ShowsIff(b: ContentBlock, family: Family, text: string)
    ensures ContributedText(b, family) == Some(text) <==> Shows(b, family, text)
  {
    if b.ProviderContent? {
      SaysReads(b.value, "type", "text");
      SaysReads(b.value, "text", text);
    }
    hide P.StringAt, Says;
  }

  /** One block is refused exactly when it clashes. */
  lemma SourceClashIff(b: ContentBlock, role: string, family: Family, message: nat, block: nat, asked: Option<seq<Unit>>)
    ensures SourceAt(b, role, family, message, block, asked).Invalid? <==> Clashes(b, family, asked)
  {
    hide ContributedText, Shows, Display;
    var text := ContributedText(b, family);
    forall t ensures text == Some(t) <==> Shows(b, family, t) { ShowsIff(b, family, t); }
    if text.Some? { assert Shows(b, family, text.value); }
  }

  /** Otherwise it is the source it shows, if any. */
  lemma SourceAtIff(b: ContentBlock, role: string, family: Family, message: nat, block: nat, asked: Option<seq<Unit>>, s: Source)
    requires SourceAt(b, role, family, message, block, asked).Ok?
    ensures SourceAt(b, role, family, message, block, asked).value == Some(s) <==>
              s.role == role && s.message == message && s.block == block && Shows(b, family, s.text) && s.units == Wanted(b, asked)
  {
    hide ContributedText, Shows, Display;
    ShowsIff(b, family, s.text);
  }

  predicate Earlier(s: Source, t: Source) { s.message < t.message || (s.message == t.message && s.block < t.block) }

  ghost predicate Ordered(sources: seq<Source>) { forall i, j :: 0 <= i < j < |sources| ==> Earlier(sources[i], sources[j]) }

  ghost predicate BlockSource(blocks: seq<ContentBlock>, role: string, family: Family, message: nat, overrides: Overrides, s: Source) {
    && s.message == message && s.block < |blocks| && s.role == role
    && Shows(blocks[s.block], family, s.text) && s.units == Wanted(blocks[s.block], Asked(overrides, message, s.block))
  }

  ghost predicate BlockClash(blocks: seq<ContentBlock>, family: Family, message: nat, overrides: Overrides, k: nat) {
    k < |blocks| && Clashes(blocks[k], family, Asked(overrides, message, k))
  }

  /** What the last block adds. */
  lemma BlockSourcesNext(blocks: seq<ContentBlock>, role: string, family: Family, message: nat, overrides: Overrides)
    requires blocks != []
    ensures var n := |blocks| - 1;
            var before := BlockSources(blocks[..n], role, family, message, overrides);
            var last := SourceAt(blocks[n], role, family, message, n, Asked(overrides, message, n));
            BlockSources(blocks, role, family, message, overrides) ==
              if before.Invalid? || last.Invalid? then Invalid
              else if last.value.Some? then Ok(before.value + [last.value.value])
              else before
  {
    hide SourceAt, Asked, Requested;
    var n := |blocks| - 1;
    AskedIs(overrides, message, n);
    var before := BlockSources(blocks[..n], role, family, message, overrides);
    assert before.Ok? ==> before.value + [] == before.value;
  }

  lemma {:induction false} BlocksClashIff(blocks: seq<ContentBlock>, role: string, family: Family, message: nat, overrides: Overrides)
    ensures BlockSources(blocks, role, family, message, overrides).Invalid? <==> exists k: nat :: BlockClash(blocks, family, message, overrides, k)
    decreases |blocks|
  {
    if blocks != [] {
      hide SourceAt, Asked, Shows, Clashes, Wanted, BlockSources, BlockClash;
      var n := |blocks| - 1;
      BlocksClashIff(blocks[..n], role, family, message, overrides);
      BlockSourcesNext(blocks, role, family, message, overrides);
      SourceClashIff(blocks[n], role, family, message, n, Asked(overrides, message, n));
      BlockClashNext(blocks, family, message, overrides, n);
      if k: nat :| BlockClash(blocks[..n], family, message, overrides, k) { BlockClashNext(blocks, family, message, overrides, k); }
      if k: nat :| BlockClash(blocks, family, message, overrides, k) { BlockClashNext(blocks, family, message, overrides, k); }
    }
  }

  lemma BlockClashNext(blocks: seq<ContentBlock>, family: Family, message: nat, overrides: Overrides, k: nat)
    requires blocks != []
    ensures var n := |blocks| - 1;
            BlockClash(blocks, family, message, overrides, k) <==>
              BlockClash(blocks[..n], family, message, overrides, k) || (k == n && Clashes(blocks[n], family, Asked(overrides, message, n)))
  {
    hide Clashes, Asked;
  }

  lemma {:induction false} BlockSourcesAre(blocks: seq<ContentBlock>, role: string, family: Family, message: nat, overrides: Overrides)
    requires BlockSources(blocks, role, family, message, overrides).Ok?
    ensures Ordered(BlockSources(blocks, role, family, message, overrides).value)
    ensures forall s :: s in BlockSources(blocks, role, family, message, overrides).value <==> BlockSource(blocks, role, family, message, overrides, s)
    decreases |blocks|
  {
    if blocks != [] {
      hide SourceAt, Asked, Shows, Clashes, Wanted, BlockSources, BlockSource, Ordered;
      var n := |blocks| - 1;
      BlockSourcesNext(blocks, role, family, message, overrides);
      BlockSourcesAre(blocks[..n], role, family, message, overrides);
      var last := SourceAt(blocks[n], role, family, message, n, Asked(overrides, message, n)).value;
      if last.Some? { SourceAtIff(blocks[n], role, family, message, n, Asked(overrides, message, n), last.value); }
      var before, all := BlockSources(blocks[..n], role, family, message, overrides).value, BlockSources(blocks, role, family, message, overrides).value;
      forall s ensures s in all <==> BlockSource(blocks, role, family, message, overrides, s) {
        BlockSourceNext(blocks, role, family, message, overrides, s);
        SourceAtIff(blocks[n], role, family, message, n, Asked(overrides, message, n), s);
      }
      BlocksOrdered(blocks, role, family, message, overrides, before, all);
    }
  }

  lemma BlockSourceNext(blocks: seq<ContentBlock>, role: string, family: Family, message: nat, overrides: Overrides, s: Source)
    requires blocks != []
    ensures var n := |blocks| - 1;
            BlockSource(blocks, role, family, message, overrides, s) <==>
              || BlockSource(blocks[..n], role, family, message, overrides, s)
              || (s.block == n && s.message == message && s.role == role && Shows(blocks[n], family, s.text) && s.units == Wanted(blocks[n], Asked(overrides, message, n)))
  {
    hide Asked, Shows, Wanted;
  }

  lemma BlocksOrdered(blocks: seq<ContentBlock>, role: string, family: Family, message: nat, overrides: Overrides, before: seq<Source>, all: seq<Source>)
    requires blocks != [] && Ordered(before) && (all == before || (|all| == |before| + 1 && all[..|before|] == before))
    requires forall s :: s in before ==> BlockSource(blocks[..|blocks| - 1], role, family, message, overrides, s)
    requires |all| > |before| ==> all[|before|].message == message && all[|before|].block == |blocks| - 1
    ensures Ordered(all)
  {
    hide Asked, Shows, Wanted;
    forall i, j | 0 <= i < j < |all| ensures Earlier(all[i], all[j]) {
      assert i < |before| ==> all[i] == all[..|before|][i] == before[i];
      if j < |before| { assert all[j] == all[..|before|][j] == before[j]; } else { assert before[i] in before; }
    }
  }

  /** A block somewhere that clashes. */
  ghost predicate ClashAt(messages: seq<Message>, family: Family, overrides: Overrides, m: nat, k: nat) {
    m < |messages| && BlockClash(messages[m].content, family, m, overrides, k)
  }

  lemma MessageSources(messages: seq<Message>, family: Family, overrides: Overrides, s: Source)
    requires messages != []
    ensures var n := |messages| - 1;
            IsSource(messages, family, overrides, s) <==>
              || IsSource(messages[..n], family, overrides, s)
              || BlockSource(messages[n].content, RoleName(messages[n].role, family), family, n, overrides, s)
  {
    var n := |messages| - 1;
    CalledIff(messages[n].role, family, s.role);
    hide Asked, Shows, Called, RoleName, Wanted;
  }

  lemma MessageClashes(messages: seq<Message>, family: Family, overrides: Overrides)
    requires messages != []
    ensures var n := |messages| - 1;
            (exists m: nat, k: nat :: ClashAt(messages, family, overrides, m, k)) <==>
              || (exists m: nat, k: nat :: ClashAt(messages[..n], family, overrides, m, k))
              || (exists k: nat :: BlockClash(messages[n].content, family, n, overrides, k))
  {
    var n := |messages| - 1;
    hide BlockClash;
    if m: nat, k: nat :| ClashAt(messages, family, overrides, m, k) {
      if m < n { assert ClashAt(messages[..n], family, overrides, m, k); } else { assert BlockClash(messages[n].content, family, n, overrides, k); }
    }
    if m: nat, k: nat :| ClashAt(messages[..n], family, overrides, m, k) { assert ClashAt(messages, family, overrides, m, k); }
    if k: nat :| BlockClash(messages[n].content, family, n, overrides, k) { assert ClashAt(messages, family, overrides, n, k); }
  }

  /** The sources are exactly the blocks that show a text, each with its role, text and units, in the order of the
      conversation; collecting them fails exactly when some block clashes. */
  lemma {:induction false} SourcesAre(messages: seq<Message>, family: Family, overrides: Overrides)
    ensures var r := Sources(messages, family, overrides);
            && (r.Invalid? <==> exists m: nat, k: nat :: ClashAt(messages, family, overrides, m, k))
            && (r.Ok? ==> Ordered(r.value) && forall s :: s in r.value <==> IsSource(messages, family, overrides, s))
    decreases |messages|
  {
    if messages == [] {
    } else {
      var n := |messages| - 1;
      var role := RoleName(messages[n].role, family);
      SourcesAre(messages[..n], family, overrides);
      BlocksClashIff(messages[n].content, role, family, n, overrides);
      if BlockSources(messages[n].content, role, family, n, overrides).Ok? { BlockSourcesAre(messages[n].content, role, family, n, overrides); }
      MessageClashes(messages, family, overrides);
      hide BlockSources, BlockSource, IsSource, BlockClash, ClashAt, Ordered;
      var r := Sources(messages, family, overrides);
      if r.Ok? {
        var before, last := Sources(messages[..n], family, overrides).value, BlockSources(messages[n].content, role, family, n, overrides).value;
        forall s ensures s in r.value <==> IsSource(messages, family, overrides, s) { MessageSources(messages, family, overrides, s); }
        SourcesOrdered(messages, family, overrides, before, last);
      }
    }
  }

  lemma SourcesOrdered(messages: seq<Message>, family: Family, overrides: Overrides, before: seq<Source>, last: seq<Source>)
    requires messages != [] && Ordered(before) && Ordered(last)
    requires forall s :: s in before ==> IsSource(messages[..|messages| - 1], family, overrides, s)
    requires var n := |messages| - 1;
             forall s :: s in last ==> BlockSource(messages[n].content, RoleName(messages[n].role, family), family, n, overrides, s)
    ensures Ordered(before + last)
  {
    var all := before + last;
    hide Asked, Shows, Called, RoleName, Wanted;
    forall i, j | 0 <= i < j < |all| ensures Earlier(all[i], all[j]) {
      if i < |before| <= j {
        assert all[i] == before[i] && all[j] == last[j - |before|];
        assert all[i] in before && all[j] in last;
      }
    }
  }

  // ----- slots -----

  /** Where a family keeps its messages, and a message its parts. */
  function Outer(family: Family): string {
    match family
    case OpenAiResponses => "input"
    case GeminiGenerateContent => "contents"
    case _ => "messages"
  }

  function Inner(family: Family): string { if family.GeminiGenerateContent? then "parts" else "content" }

  /** A part that carries text on the wire of a family. */
  predicate Textual(family: Family, part: Json) {
    match family
    case GeminiGenerateContent => true
    case OpenAiResponses => Says(part, "type", "input_text") || Says(part, "type", "output_text")
    case _ => Says(part, "type", "text")
  }

  predicate RoleIs(message: Json, role: string) {
    Says(message, "role", role) || (role == "" && !(P.Get(message, "role").Some? && P.Get(message, "role").value.Str?))
  }

  /** The slot of the `k`-th part. */
  predicate PartSlot(family: Family, role: string, base: seq<string>, parts: seq<Json>, k: nat, slot: Slot) {
    && k < |parts| && Textual(family, parts[k]) && Says(parts[k], "text", slot.text)
    && slot.role == role && slot.path == base + [ToText(k), "text"]
  }

  /** A message that is read at all: on the Responses wire only those typed so. */
  predicate Read(family: Family, message: Json) { family == OpenAiResponses ==> Says(message, "type", "message") }

  /** The slot of a whole content, on the Chat wire alone. */
  predicate WholeSlot(family: Family, message: Json, m: nat, slot: Slot) {
    family == OpenAiChat && Says(message, "content", slot.text) && RoleIs(message, slot.role) && slot.path == ["messages", ToText(m), "content"]
  }

  ghost predicate MessageSlot(family: Family, message: Json, m: nat, slot: Slot) {
    var parts := P.Get(message, Inner(family));
    || WholeSlot(family, message, m, slot)
    || (&& Read(family, message) && parts.Some? && parts.value.Arr? && RoleIs(message, slot.role)
        && exists k: nat :: PartSlot(family, slot.role, [Outer(family), ToText(m), Inner(family)], parts.value.items, k, slot))
  }

  /** The slot is one of the body's. */
  ghost predicate IsSlot(family: Family, body: Json, m: nat, slot: Slot) {
    var list := P.Get(body, Outer(family));
    list.Some? && list.value.Arr? && m < |list.value.items| && MessageSlot(family, list.value.items[m], m, slot)
  }

  lemma PartFieldIff(family: Family, role: string, base: seq<string>, part: Json, k: nat, slot: Slot)
    ensures PartField(family, role, base, part, k) == Some(slot) <==>
              Textual(family, part) && Says(part, "text", slot.text) && slot.role == role && slot.path == base + [ToText(k), "text"]
  {
    SaysReads(part, "type", "input_text");
    SaysReads(part, "type", "output_text");
    SaysReads(part, "type", "text");
    SaysReads(part, "text", slot.text);
    hide P.StringAt, Says, ToText;
  }

  lemma PartSlotSplit(family: Family, role: string, base: seq<string>, parts: seq<Json>, k: nat, slot: Slot)
    requires parts != []
    ensures var n := |parts| - 1;
            PartSlot(family, role, base, parts, k, slot) <==>
              PartSlot(family, role, base, parts[..n], k, slot) || (k == n && PartField(family, role, base, parts[n], n) == Some(slot))
  {
    var n := |parts| - 1;
    if k == n { PartFieldIff(family, role, base, parts[n], n, slot); }
    hide PartField, Textual, Says, ToText;
    if k < n { assert parts[..n][k] == parts[k]; }
  }

  lemma PartFieldsSnoc(family: Family, role: string, base: seq<string>, parts: seq<Json>, slot: Slot)
    requires parts != []
    ensures var n := |parts| - 1;
            slot in PartFields(family, role, base, parts) <==>
              slot in PartFields(family, role, base, parts[..n]) || PartField(family, role, base, parts[n], n) == Some(slot)
  {
    hide PartField;
  }

  lemma {:induction false} PartFieldsAre(family: Family, role: string, base: seq<string>, parts: seq<Json>, slot: Slot)
    ensures slot in PartFields(family, role, base, parts) <==> exists k: nat :: PartSlot(family, role, base, parts, k, slot)
    decreases |parts|
  {
    if parts != [] {
      var n := |parts| - 1;
      PartFieldsAre(family, role, base, parts[..n], slot);
      PartFieldsSnoc(family, role, base, parts, slot);
      forall k: nat ensures PartSlot(family, role, base, parts, k, slot) <==>
          PartSlot(family, role, base, parts[..n], k, slot) || (k == n && PartField(family, role, base, parts[n], n) == Some(slot)) {
        PartSlotSplit(family, role, base, parts, k, slot);
      }
      hide PartField, PartFields, PartSlot;
      if PartField(family, role, base, parts[n], n) == Some(slot) { assert PartSlot(family, role, base, parts, n, slot); }
      if k: nat :| PartSlot(family, role, base, parts[..n], k, slot) { assert PartSlot(family, role, base, parts, k, slot); }
    }
  }

  lemma RoleIff(message: Json, role: string)
    ensures RoleOf(message) == role <==> RoleIs(message, role)
  {
    SaysReads(message, "role", role);
    StringReads(message, "role");
    hide P.StringAt, Display;
  }

  lemma StringReads(j: Json, name: string)
    ensures P.StringAt(j, [name]).Some? <==> P.Get(j, name).Some? && P.Get(j, name).value.Str?
  {
    if P.Get(j, name).Some? { assert [name][1..] == [] && P.At(P.Get(j, name).value, []) == Some(P.Get(j, name).value); }
  }

  lemma MessageFieldsIff(family: Family, message: Json, m: nat, slot: Slot)
    requires family in {AnthropicMessages, OpenAiChat, OpenAiResponses, GeminiGenerateContent}
    ensures slot in MessageFields(family, message, m) <==> MessageSlot(family, message, m, slot)
  {
    hide P.StringAt, P.Get, PartFields, PartSlot, RoleOf, RoleIs, Display, ToText;
    var base := [Outer(family), ToText(m), Inner(family)];
    var content := P.Get(message, Inner(family));
    RoleIff(message, slot.role);
    SaysReads(message, "type", "message");
    if content.Some? && content.value.Arr? {
      PartFieldsAre(family, RoleOf(message), base, content.value.items, slot);
      PartRole(family, RoleOf(message), base, content.value.items, slot);
    }
    MessageFieldsAre(family, message, m);
  }

  lemma PartRole(family: Family, role: string, base: seq<string>, parts: seq<Json>, slot: Slot)
    ensures forall k: nat :: PartSlot(family, role, base, parts, k, slot) ==> slot.role == role
    ensures slot.role == role || !exists k: nat :: PartSlot(family, role, base, parts, k, slot)
  {
    hide Textual, Says, ToText;
  }

  lemma ListIs(family: Family, body: Json)
    requires family in {AnthropicMessages, OpenAiChat, OpenAiResponses, GeminiGenerateContent}
    ensures var list := P.Get(body, Outer(family));
            EncodedFields(family, body) == if list.Some? && list.value.Arr? then FieldsOf(family, list.value.items) else []
  {
    var name := Outer(family);
    assert name == ListName(family);
    if P.Get(body, name).Some? { assert [name][1..] == [] && P.At(P.Get(body, name).value, []) == Some(P.Get(body, name).value); }
    hide FieldsOf;
  }

  ghost predicate FieldOf(family: Family, messages: seq<Json>, m: nat, slot: Slot) { m < |messages| && slot in MessageFields(family, messages[m], m) }

  lemma FieldsSnoc(family: Family, messages: seq<Json>)
    requires messages != []
    ensures FieldsOf(family, messages) == FieldsOf(family, messages[..|messages| - 1]) + MessageFields(family, messages[|messages| - 1], |messages| - 1)
  {
    hide MessageFields;
  }

  lemma FieldOfSplit(family: Family, messages: seq<Json>, m: nat, slot: Slot)
    requires messages != []
    ensures var n := |messages| - 1;
            FieldOf(family, messages, m, slot) <==> FieldOf(family, messages[..n], m, slot) || (m == n && slot in MessageFields(family, messages[n], n))
  {
    hide MessageFields;
  }

  lemma {:induction false} FieldsOfAre(family: Family, messages: seq<Json>, slot: Slot)
    ensures slot in FieldsOf(family, messages) <==> exists m: nat :: FieldOf(family, messages, m, slot)
    decreases |messages|
  {
    if messages != [] {
      var n := |messages| - 1;
      FieldsOfAre(family, messages[..n], slot);
      FieldsSnoc(family, messages);
      forall m: nat ensures FieldOf(family, messages, m, slot) <==>
                              FieldOf(family, messages[..n], m, slot) || (m == n && slot in MessageFields(family, messages[n], n)) {
        FieldOfSplit(family, messages, m, slot);
      }
      hide MessageFields, FieldsOf, FieldOf;
      if m: nat :| FieldOf(family, messages[..n], m, slot) { assert FieldOf(family, messages, m, slot); }
      if slot in MessageFields(family, messages[n], n) { assert FieldOf(family, messages, n, slot); }
    }
  }

  /** The slots are exactly the text fields of the body, each with its role, its text and its place. */
  lemma EncodedFieldIff(family: Family, body: Json, slot: Slot)
    requires family in {AnthropicMessages, OpenAiChat, OpenAiResponses, GeminiGenerateContent}
    ensures slot in EncodedFields(family, body) <==> exists m: nat :: IsSlot(family, body, m, slot)
  {
    ListIs(family, body);
    var list := P.Get(body, Outer(family));
    hide FieldsOf, MessageFields, MessageSlot, EncodedFields, P.Get, Outer;
    if list.Some? && list.value.Arr? {
      var items := list.value.items;
      FieldsOfAre(family, items, slot);
      forall m: nat ensures FieldOf(family, items, m, slot) <==> IsSlot(family, body, m, slot) {
        if m < |items| { MessageFieldsIff(family, items[m], m, slot); }
      }
    }
  }

  /** One path comes before another: in an earlier message, or in an earlier part of the same one. */
  ghost predicate Precedes(p: seq<string>, q: seq<string>) {
    && |p| >= 2 && |q| >= 2
    && exists m: nat, n: nat :: p[1] == ToText(m) && q[1] == ToText(n) && (m < n || (m == n && PartPrecedes(p, q)))
  }

  ghost predicate PartPrecedes(p: seq<string>, q: seq<string>) {
    |p| == 5 && |q| == 5 && exists a: nat, b: nat :: p[3] == ToText(a) && q[3] == ToText(b) && a < b
  }

  lemma {:induction false} PartsOrdered(family: Family, role: string, base: seq<string>, parts: seq<Json>, i: nat, j: nat)
    requires |base| == 3 && i < j < |PartFields(family, role, base, parts)|
    ensures var fields := PartFields(family, role, base, parts);
            && |fields[i].path| == 5 && |fields[j].path| == 5 && fields[i].path[..3] == base && fields[j].path[..3] == base
            && PartPrecedes(fields[i].path, fields[j].path)
    decreases |parts|
  {
    var n := |parts| - 1;
    var before := PartFields(family, role, base, parts[..n]);
    hide PartField, ToText;
    if j < |before| {
      PartsOrdered(family, role, base, parts[..n], i, j);
    } else {
      PartPaths(family, role, base, parts[..n]);
      assert PartPath(base, before[i].path, n);
      var k: nat :| k < n && before[i].path == base + [ToText(k), "text"];
      LastField(family, role, base, parts);
    }
  }

  lemma LastField(family: Family, role: string, base: seq<string>, parts: seq<Json>)
    requires parts != [] && PartField(family, role, base, parts[|parts| - 1], |parts| - 1).Some?
    ensures PartField(family, role, base, parts[|parts| - 1], |parts| - 1).value.path == base + [ToText(|parts| - 1), "text"]
  {
    hide ToText, TextPart;
  }

  lemma MessageOrdered(family: Family, message: Json, m: nat, i: nat, j: nat)
    requires i < j < |MessageFields(family, message, m)|
    ensures var fields := MessageFields(family, message, m); Precedes(fields[i].path, fields[j].path)
  {
    var base := [ListName(family), ToText(m), PartsName(family)];
    var content := P.Get(message, PartsName(family));
    MessageFieldsAre(family, message, m);
    hide PartFields, ToText, P.Get, P.StringAt, RoleOf, PartPrecedes, MessageFields;
    PartsOrdered(family, RoleOf(message), base, content.value.items, i, j);
    var fields := MessageFields(family, message, m);
    assert fields[i].path[1] == fields[i].path[..3][1] == base[1] && fields[j].path[1] == fields[j].path[..3][1] == base[1];
  }

  /** The slots are listed in the order of the body. */
  lemma {:induction false} SlotsOrdered(family: Family, messages: seq<Json>, i: nat, j: nat)
    requires i < j < |FieldsOf(family, messages)|
    ensures Precedes(FieldsOf(family, messages)[i].path, FieldsOf(family, messages)[j].path)
    decreases |messages|
  {
    hide MessageFields, ToText, Precedes, FromMessage, FromSome;
    var n := |messages| - 1;
    FieldsSnoc(family, messages);
    var before, last := FieldsOf(family, messages[..n]), MessageFields(family, messages[n], n);
    hide FieldsOf;
    if j < |before| {
      SlotsOrdered(family, messages[..n], i, j);
    } else if i >= |before| {
      MessageOrdered(family, messages[n], n, i - |before|, j - |before|);
    } else {
      FromEarlier(family, messages, i, j - |before|);
    }
  }

  lemma FromEarlier(family: Family, messages: seq<Json>, i: nat, j: nat)
    requires messages != []
    requires i < |FieldsOf(family, messages[..|messages| - 1])| && j < |MessageFields(family, messages[|messages| - 1], |messages| - 1)|
    ensures Precedes(FieldsOf(family, messages[..|messages| - 1])[i].path, MessageFields(family, messages[|messages| - 1], |messages| - 1)[j].path)
  {
    hide MessageFields, FieldsOf, ToText, Precedes, FromMessage, DistinctPaths;
    var n := |messages| - 1;
    var before, last := FieldsOf(family, messages[..n]), MessageFields(family, messages[n], n);
    FieldPaths(family, messages[..n]);
    MessagePaths(family, messages[n], n);
    assert FromSome(family, before[i].path, n);
    var m: nat :| m < n && FromMessage(family, before[i].path, m);
    AcrossMessages(family, before[i].path, m, last[j].path, n);
  }

  lemma AcrossMessages(family: Family, p: seq<string>, m: nat, q: seq<string>, n: nat)
    requires FromMessage(family, p, m) && FromMessage(family, q, n) && m < n
    ensures Precedes(p, q)
  {
    hide ToText, PartPrecedes;
    assert p[1] == ToText(m) && q[1] == ToText(n);
  }

  // ----- the slot of a source -----

  /** The earlier sources with the role and text of this one. */
  ghost function Likes(sources: seq<Source>, n: nat): set<nat>
    requires n < |sources|
  {
    set i: nat | i < n && sources[i].role == sources[n].role && sources[i].text == sources[n].text
  }

  ghost function SlotLikes(slots: seq<Slot>, j: nat): set<nat>
    requires j < |slots|
  {
    set i: nat | i < j && slots[i].role == slots[j].role && slots[i].text == slots[j].text
  }

  ghost function Grouped(sources: seq<Source>, g: O.Key): set<nat> { set i: nat | i < |sources| && sources[i].role == g.role && sources[i].text == g.text }

  ghost function Matched(slots: seq<Slot>, g: O.Key): set<nat> { set i: nat | i < |slots| && slots[i].role == g.role && slots[i].text == g.text }

  lemma {:induction false} GroupSize(sources: seq<Source>, g: O.Key)
    ensures |O.Group(sources, g)| == |Grouped(sources, g)|
    decreases |sources|
  {
    if sources != [] {
      var n := |sources| - 1;
      GroupSize(sources[..n], g);
      var more: set<nat> := if O.KeyOf(sources[n]) == g then {n} else {};
      assert Grouped(sources, g) == Grouped(sources[..n], g) + more;
    }
  }

  lemma {:induction false} MatchedSize(slots: seq<Slot>, g: O.Key)
    ensures |O.Matching(slots, g)| == |Matched(slots, g)|
    decreases |slots|
  {
    if slots != [] {
      var n := |slots| - 1;
      MatchedSize(slots[..n], g);
      var more: set<nat> := if O.Key(slots[n].role, slots[n].text) == g then {n} else {};
      assert Matched(slots, g) == Matched(slots[..n], g) + more;
    }
  }

  lemma {:induction false} MatchingNth(slots: seq<Slot>, g: O.Key, k: nat) returns (j: nat)
    requires k < |O.Matching(slots, g)|
    ensures j < |slots| && slots[j] == O.Matching(slots, g)[k] && O.Key(slots[j].role, slots[j].text) == g
    ensures |O.Matching(slots[..j], g)| == k
    decreases |slots|
  {
    var n := |slots| - 1;
    if k < |O.Matching(slots[..n], g)| {
      j := MatchingNth(slots[..n], g, k);
      assert slots[..n][..j] == slots[..j];
    } else {
      j := n;
    }
  }

  /** The pointer of a source is that of the slot with its role and its text and as many such slots before it as there
      are such sources before the source. */
  lemma PointerIs(sources: seq<Source>, slots: seq<Slot>, n: nat) returns (j: nat)
    requires n < |sources| && sources[n].units.Some? && O.Balanced(sources, slots, n)
    ensures j < |slots| && O.PointerOf(sources, slots, n) == Slashed(slots[j].path)
    ensures slots[j].role == sources[n].role && slots[j].text == sources[n].text
    ensures |SlotLikes(slots, j)| == |Likes(sources, n)|
  {
    var g := O.KeyOf(sources[n]);
    O.GroupAt(sources, n);
    j := MatchingNth(slots, g, O.Occurrence(sources, n));
    GroupSize(sources[..n], g);
    MatchedSize(slots[..j], g);
    assert Likes(sources, n) == Grouped(sources[..n], g);
    assert SlotLikes(slots, j) == Matched(slots[..j], g);
  }

  /** Sources with exact units are as many as the slots of their role and text. */
  lemma BalancedIff(sources: seq<Source>, slots: seq<Slot>, n: nat)
    requires n < |sources|
    ensures O.Balanced(sources, slots, n) <==>
              (sources[n].units.Some? ==> |Grouped(sources, O.Key(sources[n].role, sources[n].text))| == |Matched(slots, O.Key(sources[n].role, sources[n].text))|)
  {
    GroupSize(sources, O.KeyOf(sources[n]));
    MatchedSize(slots, O.KeyOf(sources[n]));
  }
}
