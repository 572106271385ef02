/** Moving exact text units from canonical blocks onto the text fields of an encoded request body. */
module TextOverrides {
  import opened Utf16
  import opened Sequences
  import opened JsonGrammar
  import opened DecimalText
  import opened JsonValue
  import opened Messages
  import J = JsonPointer
  import P = Payload

  // ----- pointers -----

  /** A pointer whose segments need no escape. */
  function Slashed(path: seq<string>): string { "/" + Join(path, '/') }

  predicate Unslashed(path: seq<string>) { path != [] && forall k :: 0 <= k < |path| ==> '/' !in path[k] }

  lemma SlashedSplits(path: seq<string>)
    requires Unslashed(path)
    ensures Slashed(path)[0] == '/' && Split(Slashed(path)[1..], '/') == path
  {
    SplitJoin(path, '/');
    assert Slashed(path)[1..] == Join(path, '/');
  }

  lemma SlashedInjective(p: seq<string>, q: seq<string>)
    requires Unslashed(p) && Unslashed(q) && Slashed(p) == Slashed(q)
    ensures p == q
  {
    SlashedSplits(p);
    SlashedSplits(q);
  }

  function BlockPath(message: nat, block: nat): seq<string> { ["messages", ToText(message), "content", ToText(block), "text"] }

  /** `input_text_pointer` */
  function InputPointer(pointer: string): Option<(nat, nat)> {
    if pointer == "" || pointer[0] != '/' then None
    else
      var tokens := Split(pointer[1..], '/');
      if |tokens| != 5 || tokens[0] != "messages" || tokens[2] != "content" || tokens[4] != "text" then None
      else
        var message, block := J.ParseIndex(tokens[1]), J.ParseIndex(tokens[3]);
        if message.Some? && block.Some? then Some((message.value, block.value)) else None
  }

  lemma {:induction false} DigitsUnslashed(s: string)
    requires AllDigits(s)
    ensures '/' !in s
    decreases |s|
  {
    if s != [] {
      DigitsUnslashed(s[1..]);
      assert s == [s[0]] + s[1..];
    }
  }

  lemma BlockPathUnslashed(message: nat, block: nat)
    ensures Unslashed(BlockPath(message, block))
  {
    DigitsUnslashed(ToText(message));
    DigitsUnslashed(ToText(block));
    hide ToText;
  }

  /** The pointers of canonical text blocks are exactly those that name a message and a block. */
  lemma InputPointerIff(pointer: string, message: nat, block: nat)
    ensures InputPointer(pointer) == Some((message, block)) <==> pointer == Slashed(BlockPath(message, block))
  {
    BlockPathUnslashed(message, block);
    SlashedSplits(BlockPath(message, block));
    J.IndexOfText(message);
    J.IndexOfText(block);
    if InputPointer(pointer) == Some((message, block)) {
      var tokens := Split(pointer[1..], '/');
      J.IndexText(tokens[1]);
      J.IndexText(tokens[3]);
      assert tokens == BlockPath(message, block);
      JoinSplit(pointer[1..]);
      assert pointer == "/" + pointer[1..];
    }
  }

  lemma {:induction false} JoinSplit(s: string)
    ensures Join(Split(s, '/'), '/') == s
    decreases |s|
  {
    if s != [] {
      JoinSplit(s[1..]);
      var rest := Split(s[1..], '/');
      if s[0] == '/' {
        assert ([[]] + rest)[1..] == rest;
        assert s == "/" + s[1..];
      } else {
        JoinLonger(s[0], rest);
        assert s == [s[0]] + s[1..];
      }
    }
  }

  lemma JoinLonger(c: char, parts: seq<string>)
    requires parts != []
    ensures Join([[c] + parts[0]] + parts[1..], '/') == [c] + Join(parts, '/')
  {
    var longer := [[c] + parts[0]] + parts[1..];
    assert longer[1..] == parts[1..];
    if |parts| > 1 {
      assert Join(parts, '/') == parts[0] + ['/'] + Join(parts[1..], '/');
      assert Join(longer, '/') == [c] + (parts[0] + ['/'] + Join(parts[1..], '/'));
    }
  }

  // ----- sources -----

  datatype Source = Source(role: string, text: string, message: nat, block: nat, units: Option<seq<Unit>>)

  function RoleName(role: Role, family: Family): string {
    match role
    case Assistant => if family == GeminiGenerateContent then "model" else "assistant"
    case User => "user"
    case System => "system"
  }

  /** `source_text_contributor_text` */
  function ContributedText(b: ContentBlock, family: Family): Option<string> {
    match b
    case Text(text, _, _) => Some(text)
    case TextJsUtf16(text, _, _, _) => Some(text)
    case Thinking(text, _) => if family == GeminiGenerateContent then Some(text) else None
    case ProviderContent(protocol, value) =>
      if family == AnthropicMessages && protocol == AnthropicMessages && P.StringAt(value, ["type"]) == Some("text") then P.StringAt(value, ["text"])
      else None
    case _ => None
  }

  type Overrides = map<string, seq<Unit>>

  function Requested(overrides: Overrides, message: nat, block: nat): Option<seq<Unit>> {
    var p := Slashed(BlockPath(message, block));
    if p in overrides then Some(overrides[p]) else None
  }

  /** One block: no source, a source, or a refusal because its carrier and its override disagree, or
      because the units do not spell its text. */
  function SourceAt(b: ContentBlock, role: string, family: Family, message: nat, block: nat, requested: Option<seq<Unit>>): Result<Option<Source>> {
    var text := ContributedText(b, family);
    if text.None? then Ok(None)
    else
      var carried := if b.TextJsUtf16? then Some(b.units) else None;
      var units := if carried.Some? then carried else requested;
      if requested.Some? && carried.Some? && requested != carried then Invalid
      else if units.Some? && Display(units.value) != text.value then Invalid
      else Ok(Some(Source(role, text.value, message, block, units)))
  }

  function BlockSources(blocks: seq<ContentBlock>, role: string, family: Family, message: nat, overrides: Overrides): Result<seq<Source>> {
    if blocks == [] then Ok([])
    else
      var n := |blocks| - 1;
      var before := BlockSources(blocks[..n], role, family, message, overrides);
      var last := SourceAt(blocks[n], role, family, message, n, Requested(overrides, message, n));
      if before.Invalid? || last.Invalid? then Invalid
      else Ok(before.value + if last.value.Some? then [last.value.value] else [])
  }

  function Sources(messages: seq<Message>, family: Family, overrides: Overrides): Result<seq<Source>> {
    if messages == [] then Ok([])
    else
      var n := |messages| - 1;
      var before := Sources(messages[..n], family, overrides);
      var last := BlockSources(messages[n].content, RoleName(messages[n].role, family), family, n, overrides);
      if before.Invalid? || last.Invalid? then Invalid else Ok(before.value + last.value)
  }

  /** An override that names a text block names one that is there. */
  predicate Targets(messages: seq<Message>, pointer: string) {
    var at := InputPointer(pointer);
    at.Some? ==>
      && at.value.0 < |messages| && at.value.1 < |messages[at.value.0].content|
      && var b := messages[at.value.0].content[at.value.1]; b.Text? || b.TextJsUtf16?
  }

  // ----- encoded fields -----

  datatype Slot = Slot(role: string, text: string, path: seq<string>)

  function ListName(family: Family): string {
    if family == OpenAiResponses then "input" else if family == GeminiGenerateContent then "contents" else "messages"
  }

  function PartsName(family: Family): string { if family == GeminiGenerateContent then "parts" else "content" }

  predicate TextPart(family: Family, part: Json) {
    var kind := P.StringAt(part, ["type"]);
    if family == GeminiGenerateContent then true
    else if family == OpenAiResponses then kind == Some("input_text") || kind == Some("output_text")
    else kind == Some("text")
  }

  function PartField(family: Family, role: string, base: seq<string>, part: Json, k: nat): Option<Slot> {
    if !TextPart(family, part) then None
    else
      var text :- P.StringAt(part, ["text"]);
      Some(Slot(role, text, base + [ToText(k), "text"]))
  }

  function PartFields(family: Family, role: string, base: seq<string>, parts: seq<Json>): seq<Slot> {
    if parts == [] then []
    else
      var n := |parts| - 1;
      var last := PartField(family, role, base, parts[n], n);
      PartFields(family, role, base, parts[..n]) + if last.Some? then [last.value] else []
  }

  function RoleOf(message: Json): string { var r := P.StringAt(message, ["role"]); if r.Some? then r.value else "" }

  function MessageFields(family: Family, message: Json, k: nat): seq<Slot> {
    var base := [ListName(family), ToText(k), PartsName(family)];
    var content := P.Get(message, PartsName(family));
    if content.None? || (family == OpenAiResponses && P.StringAt(message, ["type"]) != Some("message")) then []
    else if content.value.Arr? then PartFields(family, RoleOf(message), base, content.value.items)
    else if family == OpenAiChat && content.value.Str? then [Slot(RoleOf(message), Display(content.value.units), base)]
    else []
  }

  function FieldsOf(family: Family, messages: seq<Json>): seq<Slot> {
    if messages == [] then []
    else
      var n := |messages| - 1;
      FieldsOf(family, messages[..n]) + MessageFields(family, messages[n], n)
  }

  function EncodedFields(family: Family, body: Json): seq<Slot> {
    var list := P.ItemsAt(body, [ListName(family)]);
    if list.Some? then FieldsOf(family, list.value) else []
  }

  lemma MessageFieldsAre(family: Family, message: Json, k: nat)
    ensures var base := [ListName(family), ToText(k), PartsName(family)];
            var content := P.Get(message, PartsName(family));
            MessageFields(family, message, k) ==
              if content.None? || (family == OpenAiResponses && P.StringAt(message, ["type"]) != Some("message")) then []
              else if content.value.Arr? then PartFields(family, RoleOf(message), base, content.value.items)
              else if family == OpenAiChat && content.value.Str? then [Slot(RoleOf(message), Display(content.value.units), base)]
              else []
  {
    hide PartFields, ToText, RoleOf, Display, P.Get, P.StringAt;
  }

  /** `encoded_text_fields` */
  method EncodedTextFields(family: Family, body: Json) returns (fields: seq<Slot>)
    ensures fields == EncodedFields(family, body)
  {
    hide PartFields, MessageFields, ToText, RoleOf, Display, P.Get, P.StringAt;
    fields := [];
    var list := P.ItemsAt(body, [ListName(family)]);
    if list.None? {
      return;
    }
    var mi := 0;
    while mi < |list.value|
      invariant mi <= |list.value|
      invariant fields == FieldsOf(family, list.value[..mi])
    {
      assert list.value[..mi + 1][..mi] == list.value[..mi];
      var message := list.value[mi];
      var base := [ListName(family), ToText(mi), PartsName(family)];
      MessageFieldsAre(family, message, mi);
      var content := P.Get(message, PartsName(family));
      if content.Some? && !(family == OpenAiResponses && P.StringAt(message, ["type"]) != Some("message")) {
        if content.value.Arr? {
          var more := EncodedParts(family, RoleOf(message), base, content.value.items);
          fields := fields + more;
        } else if family == OpenAiChat && content.value.Str? {
          fields := fields + [Slot(RoleOf(message), Display(content.value.units), base)];
        }
      }
      mi := mi + 1;
    }
    assert list.value[..mi] == list.value;
  }

  method EncodedParts(family: Family, role: string, base: seq<string>, parts: seq<Json>) returns (fields: seq<Slot>)
    ensures fields == PartFields(family, role, base, parts)
  {
    fields := [];
    var k := 0;
    while k < |parts|
      invariant k <= |parts|
      invariant fields == PartFields(family, role, base, parts[..k])
    {
      hide PartField;
      assert parts[..k + 1][..k] == parts[..k];
      var f := PartField(family, role, base, parts[k], k);
      if f.Some? {
        fields := fields + [f.value];
      }
      k := k + 1;
    }
    assert parts[..k] == parts;
  }

  // ----- distinct pointers -----

  lemma TextInjective(m: nat, n: nat)
    requires ToText(m) == ToText(n)
    ensures m == n
  {
    TextRoundTrip(m);
    TextRoundTrip(n);
  }

  predicate DistinctPaths(fields: seq<Slot>) { forall i, j :: 0 <= i < j < |fields| ==> fields[i].path != fields[j].path }

  ghost predicate PartPath(base: seq<string>, path: seq<string>, n: nat) {
    exists k: nat :: k < n && path == base + [ToText(k), "text"]
  }

  /** The fields of the parts of a message: a path each, with the part's index in it. */
  lemma {:induction false} PartPaths(family: Family, role: string, base: seq<string>, parts: seq<Json>)
    ensures forall i :: 0 <= i < |PartFields(family, role, base, parts)| ==> PartPath(base, PartFields(family, role, base, parts)[i].path, |parts|)
    ensures DistinctPaths(PartFields(family, role, base, parts))
    decreases |parts|
  {
    if parts != [] {
      var n := |parts| - 1;
      PartPaths(family, role, base, parts[..n]);
      var before, all := PartFields(family, role, base, parts[..n]), PartFields(family, role, base, parts);
      hide TextPart, ToText;
      forall i | 0 <= i < |all| ensures PartPath(base, all[i].path, |parts|) {
        if i < |before| {
          assert PartPath(base, before[i].path, n);
        } else {
          assert n < |parts| && all[i].path == base + [ToText(n), "text"];
        }
      }
      if |all| > |before| {
        forall i | 0 <= i < |before| ensures all[i].path != all[|before|].path {
          assert PartPath(base, before[i].path, n);
          var k: nat :| k < n && before[i].path == base + [ToText(k), "text"];
          assert before[i].path[|base|] == ToText(k) && all[|before|].path[|base|] == ToText(n);
          if ToText(k) == ToText(n) { TextInjective(k, n); }
        }
      }
    }
  }

  lemma MessagePaths(family: Family, message: Json, n: nat)
    ensures DistinctPaths(MessageFields(family, message, n))
    ensures forall i :: 0 <= i < |MessageFields(family, message, n)| ==> FromMessage(family, MessageFields(family, message, n)[i].path, n)
  {
    var base := [ListName(family), ToText(n), PartsName(family)];
    var content := P.Get(message, PartsName(family));
    if content.Some? && content.value.Arr? {
      PartPaths(family, RoleOf(message), base, content.value.items);
      var fields := PartFields(family, RoleOf(message), base, content.value.items);
      hide PartFields, ToText, TextPart;
      forall i | 0 <= i < |fields| ensures FromMessage(family, fields[i].path, n) {
        assert PartPath(base, fields[i].path, |content.value.items|);
        var k: nat :| k < |content.value.items| && fields[i].path == base + [ToText(k), "text"];
        PathFrom(family, n, k);
      }
    } else {
      hide ToText;
    }
  }

  /** A field path of the `n`-th message of a body. */
  ghost predicate FromMessage(family: Family, path: seq<string>, n: nat) {
    var base := [ListName(family), ToText(n), PartsName(family)];
    (path == base && family == OpenAiChat) || exists k: nat :: path == base + [ToText(k), "text"]
  }

  lemma PathFrom(family: Family, n: nat, k: nat)
    ensures FromMessage(family, [ListName(family), ToText(n), PartsName(family)] + [ToText(k), "text"], n)
  {
    hide ToText;
  }

  ghost predicate FromSome(family: Family, path: seq<string>, n: nat) { exists m: nat :: m < n && FromMessage(family, path, m) }

  lemma {:induction false} FieldPaths(family: Family, messages: seq<Json>)
    ensures DistinctPaths(FieldsOf(family, messages))
    ensures forall i :: 0 <= i < |FieldsOf(family, messages)| ==> FromSome(family, FieldsOf(family, messages)[i].path, |messages|)
    decreases |messages|
  {
    if messages != [] {
      var n := |messages| - 1;
      FieldPaths(family, messages[..n]);
      MessagePaths(family, messages[n], n);
      var before, last := FieldsOf(family, messages[..n]), MessageFields(family, messages[n], n);
      hide MessageFields, FromMessage;
      forall i, j | 0 <= i < |before| && 0 <= j < |last| ensures before[i].path != last[j].path {
        assert FromSome(family, before[i].path, n);
        var m: nat :| m < n && FromMessage(family, before[i].path, m);
        OtherMessage(family, before[i].path, m, last[j].path, n);
      }
      var all := FieldsOf(family, messages);
      assert all == before + last;
      forall i | 0 <= i < |all| ensures FromSome(family, all[i].path, |messages|) {
        if i < |before| { assert FromSome(family, before[i].path, n); } else { assert FromMessage(family, last[i - |before|].path, n); }
      }
    }
  }

  lemma OtherMessage(family: Family, p: seq<string>, m: nat, q: seq<string>, n: nat)
    requires FromMessage(family, p, m) && FromMessage(family, q, n) && m != n
    ensures p != q
  {
    hide ToText;
    assert p[1] == ToText(m) && q[1] == ToText(n);
    if ToText(m) == ToText(n) { TextInjective(m, n); }
  }

  /** Field paths need no escape, and those of an Anthropic body have the shape of canonical block pointers. */
  lemma PathShape(family: Family, path: seq<string>, n: nat)
    requires FromMessage(family, path, n)
    ensures Unslashed(path)
    ensures family == AnthropicMessages ==> InputPointer(Slashed(path)).Some?
  {
    DigitsUnslashed(ToText(n));
    hide ToText, InputPointer;
    if !(path == [ListName(family), ToText(n), PartsName(family)] && family == OpenAiChat) {
      var k: nat :| path == [ListName(family), ToText(n), PartsName(family)] + [ToText(k), "text"];
      DigitsUnslashed(ToText(k));
      if family == AnthropicMessages {
        assert path == BlockPath(n, k);
        InputPointerIff(Slashed(path), n, k);
      }
    }
  }
}
