/** What moving a history to another family loses. */
module ReplayLoss {
  // Field by field: what a lossy replay keeps of each block, when exactly it drops something, and that
  // rejection accepts exactly what loses nothing.

  import opened Utf16
  import opened JsonValue
  import opened Messages
  import opened Replay
  import P = Payload

  /** An optional field stays, or is dropped exactly under this condition. */
  predicate Loses<T(==)>(before: Option<T>, after: Option<T>, when: bool) {
    (after == before || after.None?) && (after != before <==> before.Some? && when)
  }

  /** The block is told to come from a family that is not the target's. */
  predicate Abroad(source: Option<Family>, target: Family) {
    exists s :: source == Some(s) && NativeFamily(s) != target
  }

  /** The units of a text member that can be shown. */
  predicate Shows(value: Json, name: string, text: string) {
    && P.Get(value, name).Some? && P.Get(value, name).value == Str(Encode(text))
  }

  predicate TypeIs(value: Json, kind: string) {
    P.Get(value, "type").Some? && P.Get(value, "type").value.Str? && Display(P.Get(value, "type").value.units) == kind
  }

  /** A text keeps its text; citations leave the Anthropic family with everything attached, a signature leaves
      the Gemini one alone. */
  ghost predicate TextKept(c: Context, b: ContentBlock, abroad: bool, r: Option<ContentBlock>)
    requires b.Text?
  {
    && r.Some? && r.value.Text? && r.value.text == b.text
    && Loses(b.citations, r.value.citations, abroad || c.target != AnthropicMessages)
    && Loses(b.thoughtSignature, r.value.thoughtSignature, abroad || c.target != GeminiGenerateContent || b.citations.Some?)
  }

  /** An exact text keeps text and units, and loses one layer at a time, citations first. */
  ghost predicate ExactTextKept(c: Context, b: ContentBlock, abroad: bool, r: Option<ContentBlock>)
    requires b.TextJsUtf16?
  {
    && r.Some? && r.value.TextJsUtf16? && r.value.text == b.text && r.value.units == b.units
    && Loses(b.citations, r.value.citations, abroad || c.target != AnthropicMessages)
    && Loses(b.thoughtSignature, r.value.thoughtSignature,
             (abroad || c.target != GeminiGenerateContent) && r.value.citations == b.citations)
  }

  ghost predicate ThinkingKept(c: Context, b: ContentBlock, abroad: bool, r: Option<ContentBlock>)
    requires b.Thinking?
  {
    && (r.None? <==> c.target == AnthropicMessages && (abroad || (b.signature.None? && c.foreignReasoning)))
    && (r.Some? ==>
          && r.value.Thinking? && r.value.text == b.text
          && Loses(b.signature, r.value.signature, abroad || c.target !in {AnthropicMessages, GeminiGenerateContent}))
  }

  /** A call keeps id, name and input. */
  ghost predicate ToolUseKept(c: Context, b: ContentBlock, abroad: bool, r: Option<ContentBlock>)
    requires b.ToolUse?
  {
    && r.Some? && r.value.ToolUse? && r.value.id == b.id && r.value.name == b.name && r.value.input == b.input
    && Loses(b.providerId, r.value.providerId, abroad)
    && Loses(b.caller, r.value.caller, abroad || c.target != AnthropicMessages)
    && Loses(b.toolsetName, r.value.toolsetName, abroad || c.target != AnthropicMessages)
    && Loses(b.thoughtSignature, r.value.thoughtSignature, abroad || c.target != GeminiGenerateContent)
  }

  /** A tool result keeps everything but its toolset. */
  ghost predicate ToolResultKept(c: Context, b: ContentBlock, abroad: bool, r: Option<ContentBlock>)
    requires b.ToolResult?
  {
    && r.Some? && r.value.ToolResult? && r.value.(toolsetName := b.toolsetName) == b
    && Loses(b.toolsetName, r.value.toolsetName, abroad || c.target != AnthropicMessages)
  }

  /** Typed native content stays as it is or goes altogether. */
  ghost predicate NativeKept(world: World, c: Context, b: ContentBlock, abroad: bool, r: Option<ContentBlock>)
    requires b.Native?
  {
    var format := b.native.format;
    var google := format in {"google.interactions.computer_call.v1", "google.interactions.computer_result.v1"};
    && (r.None? || r == Some(b))
    && (r.Some? <==>
          || (c.target == GeminiInteractions && !abroad && google)
          || (c.target == OpenAiResponses && format == world.openai.output && format != world.openai.call))
  }

  /** The tool result another family's native one stands for. */
  ghost predicate Portable(world: World, value: Json, r: ContentBlock) {
    && r.ToolResult? && r.toolUseId != "" && Shows(value, "tool_use_id", r.toolUseId)
    && P.Get(value, "content").Some?
    && var content := P.Get(value, "content").value;
    && r.content == (if content.Str? then content else P.Text(world.sourceOf(content)))
    && r.blocks == (if content.Arr? then Some(content) else None)
    && (r.isError == Some(true) <==> P.Get(value, "is_error") == Some(Prim("true")))
    && (r.isError == Some(false) <==> P.Get(value, "is_error") == Some(Prim("false")))
    && r.cacheReference.None? && r.toolsetName.None?
  }

  /** Content of the target's own family stays, under that family's name.  Of another family's, a text
      gives its own text and an Anthropic tool result its own id, content and flag. */
  ghost predicate ProviderKept(world: World, c: Context, b: ContentBlock, r: Option<ContentBlock>)
    requires b.ProviderContent?
  {
    var computer := TypeIs(b.value, "computer_call") || TypeIs(b.value, "computer_call_output");
    var home := NativeFamily(b.protocol) == c.target;
    var result := !TypeIs(b.value, "text") && NativeFamily(b.protocol) == AnthropicMessages && TypeIs(b.value, "tool_result");
    && (computer ==> r.None?)
    && (!computer && home ==> r == Some(ProviderContent(c.target, b.value)))
    && (!computer && !home ==>
          && (r.Some? <==>
                || (TypeIs(b.value, "text") && exists text :: Shows(b.value, "text", text))
                || (result && P.Get(b.value, "content").Some? && exists id :: id != "" && Shows(b.value, "tool_use_id", id)))
          && (r.Some? && TypeIs(b.value, "text") ==>
                r.value.Text? && r.value == Text(r.value.text, None, None) && Shows(b.value, "text", r.value.text))
          && (r.Some? && result ==> Portable(world, b.value, r.value)))
  }

  /** What a lossy pass makes of a block. */
  ghost predicate Preserves(world: World, c: Context, b: ContentBlock, abroad: bool, r: Option<ContentBlock>) {
    match b
    case Text(_, _, _) => TextKept(c, b, abroad, r)
    case TextJsUtf16(_, _, _, _) => ExactTextKept(c, b, abroad, r)
    case Thinking(_, _) => ThinkingKept(c, b, abroad, r)
    case ToolUse(_, _, _, _, _, _, _) => ToolUseKept(c, b, abroad, r)
    case ToolResult(_, _, _, _, _, _) => ToolResultKept(c, b, abroad, r)
    case RedactedThinking(_) => r == if c.target == AnthropicMessages && !abroad then Some(b) else None
    case Native(_) => NativeKept(world, c, b, abroad, r)
    case ProviderContent(_, _) => ProviderKept(world, c, b, r)
    case Image(_) => r == Some(b)
    case Document(_, _) => r == Some(b)
  }

  lemma AbroadIsForeign(source: Option<Family>, target: Family)
    ensures Abroad(source, target) <==> Foreign(source, target)
  {
  }

  lemma NameReads(value: Json, name: string)
    ensures P.UnitsAt(value, [name]) == (if P.Get(value, name).Some? && P.Get(value, name).value.Str? then Some(P.Get(value, name).value.units) else None)
    ensures P.StringAt(value, [name]) == (if P.Get(value, name).Some? && P.Get(value, name).value.Str? then Some(Display(P.Get(value, name).value.units)) else None)
  {
    if P.Get(value, name).Some? { assert [name][1..] == [] && P.At(P.Get(value, name).value, []) == Some(P.Get(value, name).value); }
  }

  lemma TypeRead(value: Json, kind: string)
    ensures TypeIs(value, kind) <==> P.StringAt(value, ["type"]) == Some(kind)
  {
    hide P.Get, Display;
    NameReads(value, "type");
  }

  /** Well-formed units are those of exactly one text, the one displayed. */
  lemma ShownText(value: Json, name: string)
    ensures var units := P.UnitsAt(value, [name]);
            && ((exists text :: Shows(value, name, text)) <==> units.Some? && WellFormed(units.value))
            && (units.Some? && WellFormed(units.value) ==> Shows(value, name, Display(units.value)))
            && forall text :: Shows(value, name, text) ==> text == Display(units.value)
  {
    hide P.Get;
    NameReads(value, name);
    var units := P.UnitsAt(value, [name]);
    if units.Some? && WellFormed(units.value) {
      DisplayWellFormed(units.value);
      assert Shows(value, name, Display(units.value));
    }
    forall text | Shows(value, name, text) ensures WellFormed(units.value) && text == Display(units.value) { DisplayOfEncode(text); }
  }

  lemma DisplayWellFormed(us: seq<Unit>)
    requires WellFormed(us)
    ensures Encode(Display(us)) == us
  {
    RepairProperties(us);
    DecodeEncode(us);
  }

  lemma DisplayOfEncode(text: string)
    ensures WellFormed(Encode(text)) && Display(Encode(text)) == text
  {
    EncodeDecode(text);
    RepairProperties(Encode(text));
  }

  lemma ProviderLoss(world: World, c: Context, b: ContentBlock)
    requires b.ProviderContent?
    ensures ProviderKept(world, c, b, Lossy(world, c, b, None))
  {
    hide P.Get, P.StringAt, P.UnitsAt, Display, WellFormed, Encode;
    TypeRead(b.value, "text");
    TypeRead(b.value, "tool_result");
    TypeRead(b.value, "computer_call");
    TypeRead(b.value, "computer_call_output");
    ShownText(b.value, "text");
    ShownText(b.value, "tool_use_id");
    hide TypeIs, Shows;
  }

  function Lossy(world: World, c: Context, b: ContentBlock, source: Option<Family>): Option<ContentBlock> {
    var r := Normalize(world, c, b, source, DropIncompatible);
    if r.Ok? then r.value else None
  }

  /** A lossy pass never fails; what it gives differs from the block only in these fields, each dropped
      exactly under its condition. */
  lemma LossyKeeps(world: World, c: Context, b: ContentBlock, source: Option<Family>)
    ensures var r := Normalize(world, c, b, source, DropIncompatible);
            r.Ok? && Preserves(world, c, b, Abroad(source, c.target), r.value)
  {
    AbroadIsForeign(source, c.target);
    if b.ProviderContent? {
      ProviderLoss(world, c, b);
      hide ProviderKept, DecideProvider;
    } else {
      hide ProviderKept;
    }
  }

  /** Rejection accepts a block exactly when a lossy pass would change nothing but the name of its family. */
  lemma RejectKeepsAll(world: World, c: Context, b: ContentBlock, source: Option<Family>)
    ensures var strict, lossy := Normalize(world, c, b, source, Reject), Normalize(world, c, b, source, DropIncompatible);
            var same := if b.ProviderContent? then b.(protocol := NativeFamily(b.protocol)) else b;
            && (strict.Ok? <==> lossy == Ok(Some(same)))
            && (strict.Ok? ==> strict == lossy)
  {
    hide P.StringAt, P.UnitsAt, P.Get;
  }

  /** A message holds another family's reasoning exactly when some provider content in it does. */
  lemma ContextMeans(blocks: seq<ContentBlock>, target: Family)
    ensures var c := ForMessage(blocks, target);
            && c.target == NativeFamily(target)
            && (c.foreignReasoning <==>
                  exists k :: 0 <= k < |blocks| && blocks[k].ProviderContent? && NativeFamily(blocks[k].protocol) != NativeFamily(target)
                    && (TypeIs(blocks[k].value, "reasoning") || TypeIs(blocks[k].value, "chat_reasoning")))
  {
    forall k | 0 <= k < |blocks| && blocks[k].ProviderContent? ensures ForeignReasoning(blocks[k], NativeFamily(target)) <==>
        NativeFamily(blocks[k].protocol) != NativeFamily(target) && (TypeIs(blocks[k].value, "reasoning") || TypeIs(blocks[k].value, "chat_reasoning"))
    {
      TypeRead(blocks[k].value, "reasoning");
      TypeRead(blocks[k].value, "chat_reasoning");
    }
  }

  /** Between two families, what each block of a request becomes is exactly what its message's context lets it keep. */
  lemma AdaptLoses(world: World, r: Request, source: Family, target: Family, a: nat, j: nat)
    requires NativeFamily(source) != NativeFamily(target) && r.continuation.None?
    requires a < |r.messages| && j < |r.messages[a].content|
    ensures var want := Wanted(world, r, source, target, DropIncompatible);
            && want.Ok? && |want.value| == |r.messages| && |want.value[a]| == |r.messages[a].content|
            && var c := ForMessage(r.messages[a].content, target);
            Preserves(world, c, r.messages[a].content[j], Abroad(Some(source), c.target), want.value[a][j])
  {
    hide Row, Rows, ForMessage, Normalize, Preserves;
    RowsDrop(world, r.messages, source, target);
    RowsAt(world, r.messages, source, target, DropIncompatible, a);
    var blocks := r.messages[a].content;
    var c := ForMessage(blocks, target);
    RowLength(world, c, blocks, source, DropIncompatible);
    RowAt(world, c, blocks, source, DropIncompatible, j);
    LossyKeeps(world, c, blocks[j], Some(source));
  }

  /** Where the messages that are left come from. */
  ghost predicate Origins(messages: seq<Message>, rows: seq<seq<Option<ContentBlock>>>, out: seq<Message>, origins: seq<nat>)
    requires |rows| == |messages|
  {
    && |origins| == |out|
    && (forall k, l :: 0 <= k < l < |origins| ==> origins[k] < origins[l])
    && (forall k :: 0 <= k < |origins| ==> origins[k] < |messages| && out[k] == messages[origins[k]].(content := Kept(rows[origins[k]])))
    && (forall a: nat :: a < |messages| ==> (a in origins <==> Kept(rows[a]) != [] || messages[a].nativeOptions != []))
  }

  /** The last message goes. */
  lemma OriginsStay(messages: seq<Message>, rows: seq<seq<Option<ContentBlock>>>, out: seq<Message>, before: seq<nat>)
    requires messages != [] && |rows| == |messages| && Kept(rows[|rows| - 1]) == [] && messages[|messages| - 1].nativeOptions == []
    requires Origins(messages[..|messages| - 1], rows[..|messages| - 1], out, before)
    ensures Origins(messages, rows, out, before)
  {
    hide Kept;
    var n := |messages| - 1;
    forall a: nat | a < |messages| ensures a in before <==> Kept(rows[a]) != [] || messages[a].nativeOptions != [] {
      if a < n { assert rows[..n][a] == rows[a] && messages[..n][a] == messages[a]; }
    }
  }

  /** The last message stays. */
  lemma OriginsAdd(messages: seq<Message>, rows: seq<seq<Option<ContentBlock>>>, out: seq<Message>, before: seq<nat>)
    requires messages != [] && |rows| == |messages| && (Kept(rows[|rows| - 1]) != [] || messages[|messages| - 1].nativeOptions != [])
    requires Origins(messages[..|messages| - 1], rows[..|messages| - 1], out, before)
    ensures var n := |messages| - 1;
            Origins(messages, rows, out + [messages[n].(content := Kept(rows[n]))], before + [n])
  {
    hide Kept;
    var n := |messages| - 1;
    var origins := before + [n];
    assert forall k :: 0 <= k < |before| ==> before[k] < n && origins[k] == before[k];
    forall a: nat | a < |messages| ensures a in origins <==> Kept(rows[a]) != [] || messages[a].nativeOptions != [] {
      if a < n { assert rows[..n][a] == rows[a] && messages[..n][a] == messages[a]; }
    }
  }

  lemma NoneLeft()
    ensures Origins([], [], Survivors([], []), [])
  {
  }

  lemma SurvivorsNext(messages: seq<Message>, rows: seq<seq<Option<ContentBlock>>>)
    requires messages != [] && |rows| == |messages|
    ensures var n := |messages| - 1;
            var before := Survivors(messages[..n], rows[..n]);
            Survivors(messages, rows) ==
              if Kept(rows[n]) != [] || messages[n].nativeOptions != [] then before + [messages[n].(content := Kept(rows[n]))] else before
  {
    hide Kept;
    var before := Survivors(messages[..|messages| - 1], rows[..|messages| - 1]);
    assert before + [] == before;
  }

  /** The messages that are left come in their old order, each as it was but for its blocks; exactly those
      with neither blocks nor native options are gone. */
  lemma {:induction false} SurvivorsAre(messages: seq<Message>, rows: seq<seq<Option<ContentBlock>>>) returns (origins: seq<nat>)
    requires |rows| == |messages|
    ensures Origins(messages, rows, Survivors(messages, rows), origins)
    decreases |messages|
  {
    hide Kept, Origins, Survivors;
    if messages == [] {
      origins := [];
      assert rows == [];
      NoneLeft();
    } else {
      var n := |messages| - 1;
      var before := SurvivorsAre(messages[..n], rows[..n]);
      SurvivorsNext(messages, rows);
      var out := Survivors(messages[..n], rows[..n]);
      if Kept(rows[n]) != [] || messages[n].nativeOptions != [] {
        OriginsAdd(messages, rows, out, before);
        origins := before + [n];
      } else {
        OriginsStay(messages, rows, out, before);
        origins := before;
      }
    }
  }
}
