/** Assembly of a streamed response. */
module StreamAssembly {
  // Assembly of a response from interleaved stream events.

  import opened Utf16
  import opened JsonValue
  import opened Messages
  import P = Payload

  datatype Stop = EndTurn | ToolStop | MaxTokens | StopSequence | Refusal | OtherStop(reason: string)

  type Error = string

  datatype StreamEvent =
    | Start(model: string, responseId: Option<string>)
    | TextDelta(block: nat, text: string)
    | TextDeltaJsUtf16(block: nat, text: string, units: seq<Unit>)
    | ReasoningDelta(block: nat, text: string)
    | ThoughtSignature(block: nat, signature: string)
    | Redacted(block: nat, data: string)
    | NativeItem(block: nat, native: Extension)
    | Provider(block: nat, protocol: Family, value: Json)
    | ToolCallDelta(block: nat, id: string, providerId: Option<string>, caller: Option<Json>,
                    toolsetName: Option<string>, name: string, fragment: seq<Unit>)
    | BlockEnd(block: nat)
    | Inference(report: Json)
    | WebSearch(citations: seq<Json>, metadata: Json)
    | FileSearch(queries: seq<string>, hits: seq<Json>, metadata: Json)
    | End(stop: Stop, usage: Json, inference: Json)
    | ProviderEvent(protocol: Family, payload: Json)
    | Observational

  datatype Tool = Tool(id: string, providerId: Option<string>, caller: Option<Json>, toolsetName: Option<string>, name: string, arguments: seq<Unit>)

  datatype Block = Block(
    text: Option<string>, units: Option<seq<Unit>>, citations: Option<Option<Json>>, thinking: Option<string>,
    signature: Option<string>, tool: Option<Tool>, native: Option<ContentBlock>, companion: Option<ContentBlock>, ended: bool)

  function NewBlock(): Block { Block(None, None, None, None, None, None, None, None, false) }

  datatype Merge = Merged(value: Json) | Failed(error: Error)

  /** What the accumulator takes from elsewhere: reading tool JSON, the connector accumulator's answer to the
      payloads pushed so far, the merging of search metadata, and its default. */
  datatype World = World(
    parse: seq<Unit> -> Option<Json>, connect: seq<Json> -> Option<(nat, ContentBlock)>, merge: (Json, Json) -> Merge, noMetadata: Json)

  // ----- one block -----

  /** `Block::content` */
  function Content(world: World, b: Block, terminal: bool, nativeTerminal: bool): Option<ContentBlock> {
    if b.native.Some? then
      if b.native.value.Native? && !nativeTerminal then None else b.native
    else if b.tool.Some? then
      var tool := b.tool.value;
      if tool.id == "" || tool.name == "" || (!b.ended && !terminal) then None
      else
        var input :- if tool.arguments == [] then Some(Obj([])) else world.parse(tool.arguments);
        Some(ToolUse(tool.id, tool.name, input, tool.providerId, tool.caller, tool.toolsetName, b.signature))
    else if b.thinking.Some? then Some(Thinking(b.thinking.value, b.signature))
    else
      var text :- b.text;
      Some(if b.units.Some? then TextJsUtf16(text, b.units.value, b.signature, b.citations) else Text(text, b.signature, b.citations))
  }

  function OrBlank(s: Option<string>): string { if s.Some? then s.value else "" }

  predicate OnlyFields(value: Json, names: seq<string>) {
    value.Obj? && forall k :: 0 <= k < |value.fields| ==> exists n :: 0 <= n < |names| && value.fields[k].key == Encode(names[n])
  }

  /** Anthropic text content that is nothing but text and citations: its units and the citations field. */
  function TextProjection(protocol: Family, value: Json): Option<(seq<Unit>, Option<Option<Json>>)> {
    if protocol != AnthropicMessages || P.StringAt(value, ["type"]) != Some("text") || !OnlyFields(value, ["type", "text", "citations"]) then None
    else
      var units :- P.UnitsAt(value, ["text"]);
      var field := P.Get(value, "citations");
      Some((units, if field.None? then None else if field.value == Prim("null") then Some(None) else Some(field)))
  }

  const PHASE := "responses_message_phase"

  function WithProvider(b: Block, protocol: Family, value: Json): Block {
    if protocol == OpenAiResponses && P.StringAt(value, ["type"]) == Some(PHASE) then b.(companion := Some(ProviderContent(protocol, value)))
    else
      var text := TextProjection(protocol, value);
      if text.Some? then
        b.(text := Some(Display(text.value.0)), units := if WellFormed(text.value.0) then None else Some(text.value.0), citations := text.value.1)
      else b.(native := Some(ProviderContent(protocol, value)))
  }

  function WithTool(b: Block, e: StreamEvent): Block
    requires e.ToolCallDelta?
  {
    var held := if b.tool.Some? then b.tool.value else Tool(e.id, None, None, None, e.name, []);
    b.(tool := Some(Tool(
      if e.id != "" then e.id else held.id,
      if e.providerId.Some? then e.providerId else held.providerId,
      if e.caller.Some? then e.caller else held.caller,
      if e.toolsetName.Some? then e.toolsetName else held.toolsetName,
      if e.name != "" then e.name else held.name,
      held.arguments + e.fragment)))
  }

  /** The units of a block's text so far. */
  function TextUnits(b: Block): seq<Unit> { if b.units.Some? then b.units.value else Encode(OrBlank(b.text)) }

  predicate BlockEvent(e: StreamEvent) {
    || e.TextDelta? || e.TextDeltaJsUtf16? || e.ReasoningDelta? || e.ThoughtSignature? || e.Redacted? || e.NativeItem?
    || e.Provider? || e.ToolCallDelta? || e.BlockEnd?
  }

  function NextBlock(b: Block, e: StreamEvent): Block
    requires BlockEvent(e)
  {
    match e
    case TextDelta(_, text) =>
      if b.units.Some? then b.(units := Some(TextUnits(b) + Encode(text)), text := Some(Display(TextUnits(b) + Encode(text))))
      else b.(text := Some(OrBlank(b.text) + text))
    case TextDeltaJsUtf16(_, _, units) => b.(units := Some(TextUnits(b) + units), text := Some(Display(TextUnits(b) + units)))
    case ReasoningDelta(_, text) => b.(thinking := Some(OrBlank(b.thinking) + text))
    case ThoughtSignature(_, signature) => b.(signature := Some(OrBlank(b.signature) + signature))
    case Redacted(_, data) => b.(native := Some(RedactedThinking(data)))
    case NativeItem(_, native) => b.(native := Some(Native(native)), ended := true)
    case Provider(_, protocol, value) => WithProvider(b, protocol, value)
    case ToolCallDelta(_, _, _, _, _, _, _) => WithTool(b, e)
    case BlockEnd(_) => b.(ended := true)
  }

  // ----- search results -----

  function ExtendUnique<T(==)>(current: seq<T>, incoming: seq<T>): seq<T> {
    if incoming == [] then current
    else
      var before := ExtendUnique(current, incoming[..|incoming| - 1]);
      var last := incoming[|incoming| - 1];
      if last in before then before else before + [last]
  }

  predicate NoRepeats<T(==)>(s: seq<T>) { forall i, j :: 0 <= i < j < |s| ==> s[i] != s[j] }

  /** `extend_unique` keeps what is there, adds exactly what is missing, and never repeats itself. */
  lemma {:induction false} ExtendUniqueMeans<T>(current: seq<T>, incoming: seq<T>)
    ensures current <= ExtendUnique(current, incoming)
    ensures forall x :: x in ExtendUnique(current, incoming) <==> x in current || x in incoming
    ensures NoRepeats(current) ==> NoRepeats(ExtendUnique(current, incoming))
    decreases |incoming|
  {
    if incoming != [] {
      var n := |incoming| - 1;
      ExtendUniqueMeans(current, incoming[..n]);
      assert incoming == incoming[..n] + [incoming[n]];
    }
  }

  /** Receiving the same results again changes nothing. */
  lemma {:induction false} ExtendUniqueAgain<T>(current: seq<T>, incoming: seq<T>)
    requires forall x :: x in incoming ==> x in current
    ensures ExtendUnique(current, incoming) == current
    decreases |incoming|
  {
    if incoming != [] {
      ExtendUniqueAgain(current, incoming[..|incoming| - 1]);
      assert incoming[|incoming| - 1] in incoming;
    }
  }

  method ExtendInPlace<T(==)>(current: seq<T>, incoming: seq<T>) returns (r: seq<T>)
    ensures r == ExtendUnique(current, incoming)
  {
    r := current;
    var i := 0;
    while i < |incoming|
      invariant i <= |incoming|
      invariant r == ExtendUnique(current, incoming[..i])
    {
      assert incoming[..i + 1][..i] == incoming[..i];
      if incoming[i] !in r {
        r := r + [incoming[i]];
      }
      i := i + 1;
    }
    assert incoming[..i] == incoming;
  }

  datatype Web = Web(citations: seq<Json>, metadata: Json)

  datatype Files = Files(queries: seq<string>, hits: seq<Json>, metadata: Json)

  // ----- the accumulator -----

  datatype Assembly = Assembly(
    blocks: map<nat, Block>, completed: seq<nat>, connectors: seq<Json>, events: seq<StreamEvent>, model: string,
    responseId: Option<string>, stop: Option<Stop>, usage: Option<Json>, inference: Option<Json>, web: Option<Web>, files: Option<Files>, error: Option<Error>)

  function Fresh(): Assembly { Assembly(map[], [], [], [], "", None, None, None, None, None, None, None) }

  function Entry(blocks: map<nat, Block>, i: nat): Block { if i in blocks then blocks[i] else NewBlock() }

  function Completed(order: seq<nat>, i: nat): seq<nat> { if i in order then order else order + [i] }

  function MergedWith(world: World, held: Json, more: Json): Json {
    match world.merge(held, more)
    case Merged(value) => value
    case Failed(_) => held
  }

  function ErrorOf(world: World, held: Json, more: Json, error: Option<Error>): Option<Error> {
    match world.merge(held, more)
    case Merged(_) => error
    case Failed(e) => if error.None? then Some(e) else error
  }

  function WithConnector(world: World, s: Assembly, payload: Json): Assembly {
    var r := world.connect(s.connectors + [payload]);
    var s' := s.(connectors := s.connectors + [payload]);
    if r.None? then s'
    else
      var (i, native) := r.value;
      s'.(blocks := s.blocks[i := Entry(s.blocks, i).(native := Some(native), ended := true)], completed := Completed(s.completed, i))
  }

  /** `observe` without the log. */
  function Take(world: World, s: Assembly, e: StreamEvent): Assembly {
    if BlockEvent(e) then
      s.(blocks := s.blocks[e.block := NextBlock(Entry(s.blocks, e.block), e)],
         completed := if e.BlockEnd? then Completed(s.completed, e.block) else s.completed)
    else match e
    case Start(model, responseId) => s.(model := model, responseId := responseId)
    case Inference(report) => s.(inference := Some(report))
    case WebSearch(citations, metadata) =>
      var held := if s.web.Some? then s.web.value else Web([], world.noMetadata);
      s.(web := Some(Web(ExtendUnique(held.citations, citations), MergedWith(world, held.metadata, metadata))),
         error := ErrorOf(world, held.metadata, metadata, s.error))
    case FileSearch(queries, hits, metadata) =>
      var held := if s.files.Some? then s.files.value else Files([], [], world.noMetadata);
      s.(files := Some(Files(ExtendUnique(held.queries, queries), ExtendUnique(held.hits, hits), MergedWith(world, held.metadata, metadata))),
         error := ErrorOf(world, held.metadata, metadata, s.error))
    case End(stop, usage, inference) => s.(stop := Some(stop), usage := Some(usage), inference := Some(inference))
    case ProviderEvent(protocol, payload) => if protocol == AnthropicMessages then WithConnector(world, s, payload) else s
    case _ => s
  }

  function Step(world: World, s: Assembly, e: StreamEvent): Assembly { Take(world, s, e).(events := s.events + [e]) }

  function Discard(s: Assembly, model: string, discarded: set<nat>): Assembly {
    s.(model := model, blocks := s.blocks - discarded, completed := Without(s.completed, discarded))
  }

  function Without(order: seq<nat>, discarded: set<nat>): seq<nat> {
    if order == [] then []
    else Without(order[..|order| - 1], discarded) + if order[|order| - 1] in discarded then [] else [order[|order| - 1]]
  }

  class StreamAccumulator {
    var blocks: map<nat, Block>
    var completedOrder: seq<nat>
    var connectors: seq<Json>
    var events: seq<StreamEvent>
    var model: string
    var responseId: Option<string>
    var stopReason: Option<Stop>
    var usage: Option<Json>
    var inference: Option<Json>
    var webSearch: Option<Web>
    var fileSearch: Option<Files>
    var projectionError: Option<Error>

    function View(): Assembly
      reads this
    {
      Assembly(blocks, completedOrder, connectors, events, model, responseId, stopReason, usage, inference, webSearch, fileSearch, projectionError)
    }

    constructor ()
      ensures View() == Fresh()
    {
      blocks, completedOrder, connectors, events, model, responseId := map[], [], [], [], "", None;
      stopReason, usage, inference, webSearch, fileSearch, projectionError := None, None, None, None, None, None;
    }

    method Complete(i: nat)
      modifies this`completedOrder
      ensures completedOrder == Completed(old(completedOrder), i)
      ensures completedOrder == if i in old(completedOrder) then old(completedOrder) else old(completedOrder) + [i]
    {
      if i !in completedOrder {
        completedOrder := completedOrder + [i];
      }
    }

    method FailProjection(error: Error)
      modifies this`projectionError
      ensures projectionError == if old(projectionError).None? then Some(error) else old(projectionError)
    {
      if projectionError.None? {
        projectionError := Some(error);
      }
    }

    /** The event kinds that name a block. */
    method ObserveBlock(e: StreamEvent)
      requires BlockEvent(e)
      modifies this`blocks, this`completedOrder
      ensures blocks == old(blocks)[e.block := NextBlock(Entry(old(blocks), e.block), e)]
      ensures completedOrder == if e.BlockEnd? then Completed(old(completedOrder), e.block) else old(completedOrder)
    {
      hide Display, Encode, TextProjection, WellFormed;
      var b := Entry(blocks, e.block);
      match e {
        case TextDelta(_, text) =>
          if b.units.Some? {
            var units := b.units.value + Encode(text);
            b := b.(units := Some(units), text := Some(Display(units)));
          } else {
            b := b.(text := Some(OrBlank(b.text) + text));
          }
        case TextDeltaJsUtf16(_, _, more) =>
          if b.units.None? {
            b := b.(units := Some(Encode(OrBlank(b.text))), text := None);
          }
          var units := b.units.value + more;
          b := b.(units := Some(units), text := Some(Display(units)));
        case ReasoningDelta(_, text) => b := b.(thinking := Some(OrBlank(b.thinking) + text));
        case ThoughtSignature(_, signature) => b := b.(signature := Some(OrBlank(b.signature) + signature));
        case Redacted(_, data) => b := b.(native := Some(RedactedThinking(data)));
        case NativeItem(_, native) => b := b.(native := Some(Native(native)), ended := true);
        case Provider(_, protocol, value) => b := WithProvider(b, protocol, value);
        case ToolCallDelta(_, id, providerId, caller, toolsetName, name, fragment) =>
          var tool := if b.tool.Some? then b.tool.value else Tool(id, None, None, None, name, []);
          if id != "" {
            tool := tool.(id := id);
          }
          if name != "" {
            tool := tool.(name := name);
          }
          if providerId.Some? {
            tool := tool.(providerId := providerId);
          }
          if caller.Some? {
            tool := tool.(caller := caller);
          }
          if toolsetName.Some? {
            tool := tool.(toolsetName := toolsetName);
          }
          b := b.(tool := Some(tool.(arguments := tool.arguments + fragment)));
        case BlockEnd(_) =>
          b := b.(ended := true);
          Complete(e.block);
      }
      blocks := blocks[e.block := b];
    }

    /** The search events: their references are joined without repetition, their metadata merged. */
    method ObserveSearch(world: World, e: StreamEvent)
      requires e.WebSearch? || e.FileSearch?
      modifies this`webSearch, this`fileSearch, this`projectionError
      ensures View() == Take(world, old(View()), e)
    {
      hide NextBlock, ExtendUnique, Entry, WithConnector;
      match e {
        case WebSearch(citations, metadata) =>
          var current := if webSearch.Some? then webSearch.value else Web([], world.noMetadata);
          var merged := ExtendInPlace(current.citations, citations);
          current := current.(citations := merged);
          match world.merge(current.metadata, metadata) {
            case Merged(value) => current := current.(metadata := value);
            case Failed(error) => FailProjection(error);
          }
          webSearch := Some(current);
        case FileSearch(queries, hits, metadata) =>
          var current := if fileSearch.Some? then fileSearch.value else Files([], [], world.noMetadata);
          var allQueries := ExtendInPlace(current.queries, queries);
          var allHits := ExtendInPlace(current.hits, hits);
          current := current.(queries := allQueries, hits := allHits);
          match world.merge(current.metadata, metadata) {
            case Merged(value) => current := current.(metadata := value);
            case Failed(error) => FailProjection(error);
          }
          fileSearch := Some(current);
      }
    }

    /** An Anthropic event passed through: it may complete a connector's block. */
    method ObserveConnector(world: World, payload: Json)
      modifies this`connectors, this`blocks, this`completedOrder
      ensures View() == WithConnector(world, old(View()), payload)
    {
      hide Entry, Completed;
      connectors := connectors + [payload];
      var r := world.connect(connectors);
      if r.Some? {
        var (i, native) := r.value;
        blocks := blocks[i := Entry(blocks, i).(native := Some(native), ended := true)];
        Complete(i);
      }
    }

    /** `observe` */
    method Observe(world: World, e: StreamEvent)
      modifies this
      ensures View() == Step(world, old(View()), e)
    {
      hide NextBlock, ExtendUnique, Entry, WithConnector, MergedWith, ErrorOf, Completed;
      if BlockEvent(e) {
        ObserveBlock(e);
      } else if e.WebSearch? || e.FileSearch? {
        ObserveSearch(world, e);
      } else {
        match e {
          case Start(m, id) => model, responseId := m, id;
          case Inference(report) => inference := Some(report);
          case End(stop, used, report) => stopReason, usage, inference := Some(stop), Some(used), Some(report);
          case ProviderEvent(protocol, payload) =>
            if protocol == AnthropicMessages {
              ObserveConnector(world, payload);
            }
          case _ =>
        }
      }
      events := events + [e];
    }

    /** `apply_server_fallback` */
    method ApplyServerFallback(toModel: string, discarded: set<nat>)
      modifies this
      ensures View() == Discard(old(View()), toModel, discarded)
    {
      model := toModel;
      blocks := blocks - discarded;
      var kept: seq<nat>, k := [], 0;
      while k < |completedOrder|
        invariant k <= |completedOrder|
        invariant kept == Without(completedOrder[..k], discarded)
      {
        assert completedOrder[..k + 1][..k] == completedOrder[..k];
        if completedOrder[k] !in discarded {
          kept := kept + [completedOrder[k]];
        }
        k := k + 1;
      }
      assert completedOrder[..k] == completedOrder;
      completedOrder := kept;
    }

    /** `observe_batch`: every good event is observed, and the first error, the accumulator's own included, is returned. */
    method ObserveBatch(world: World, batch: seq<Arrival>, used: Json, report: Json) returns (error: Option<Error>)
      modifies this
      ensures View() == Observed(world, old(View()), batch).(usage := Some(used), inference := Some(report))
      ensures error == FirstError(world, old(View()), batch)
    {
      hide Step;
      error := projectionError;
      var k := 0;
      while k < |batch|
        invariant k <= |batch|
        invariant View() == Observed(world, old(View()), batch[..k])
        invariant error == FirstError(world, old(View()), batch[..k])
      {
        assert batch[..k + 1][..k] == batch[..k];
        match batch[k] {
          case Good(e) =>
            Observe(world, e);
            if error.None? {
              error := projectionError;
            }
          case Bad(e) =>
            if error.None? {
              error := Some(e);
            }
        }
        k := k + 1;
      }
      assert batch[..k] == batch;
      usage, inference := Some(used), Some(report);
    }
  }

  datatype Arrival = Good(event: StreamEvent) | Bad(error: Error)

  function Observed(world: World, s: Assembly, batch: seq<Arrival>): Assembly {
    if batch == [] then s
    else
      var before, last := Observed(world, s, batch[..|batch| - 1]), batch[|batch| - 1];
      if last.Good? then Step(world, before, last.event) else before
  }

  function FirstError(world: World, s: Assembly, batch: seq<Arrival>): Option<Error> {
    if batch == [] then s.error
    else
      var before, last := FirstError(world, s, batch[..|batch| - 1]), batch[|batch| - 1];
      if before.Some? then before else if last.Bad? then Some(last.error) else Observed(world, s, batch).error
  }

  /** A batch is clean exactly when every event was good and nothing failed to merge. */
  lemma {:induction false} CleanBatch(world: World, s: Assembly, batch: seq<Arrival>)
    ensures FirstError(world, s, batch).None? <==> Observed(world, s, batch).error.None? && forall k :: 0 <= k < |batch| ==> batch[k].Good?
    decreases |batch|
  {
    hide Step;
    if batch != [] {
      var n := |batch| - 1;
      CleanBatch(world, s, batch[..n]);
      var before := Observed(world, s, batch[..n]);
      if batch[n].Good? { ErrorsStay(world, before, batch[n].event); }
      assert forall k :: 0 <= k < n ==> batch[k] == batch[..n][k];
    }
  }

  lemma ErrorsStay(world: World, s: Assembly, e: StreamEvent)
    ensures s.error.Some? ==> Step(world, s, e).error == s.error
  {
    hide NextBlock, ExtendUnique;
  }
}
