/** What a streamed block's content is, whatever was streamed. */
module StreamContent {
  // Every field of a block and the whole content of a snapshot, told from the run alone.

  import opened Utf16
  import opened Utf8
  import opened Sequences
  import opened JsonValue
  import opened Messages
  import opened StreamAssembly
  import opened StreamRuns
  import P = Payload

  // ----- provider content -----

  /** Content that only announces the phase of an OpenAI Responses message. */
  predicate Phase(x: Input, i: nat) {
    && Names(x, i) && x.event.Provider? && x.event.protocol == OpenAiResponses
    && P.StringAt(x.event.value, ["type"]) == Some("responses_message_phase")
  }

  /** Anthropic text content replaces a block's text exactly when it holds its type, its text and perhaps
      citations, and nothing else; absent, null and present citations stay apart. */
  lemma ProjectionIff(protocol: Family, value: Json, units: seq<Unit>, citations: Option<Option<Json>>)
    ensures TextProjection(protocol, value) == Some((units, citations)) <==>
              && protocol == AnthropicMessages
              && P.StringAt(value, ["type"]) == Some("text") && P.Get(value, "text") == Some(Str(units))
              && (forall k :: 0 <= k < |value.fields| ==> value.fields[k].key in {Encode("type"), Encode("text"), Encode("citations")})
              && (citations == None <==> P.Get(value, "citations").None?)
              && (citations == Some(None) <==> P.Get(value, "citations") == Some(Prim("null")))
              && (citations.Some? && citations.value.Some? ==> citations.value == P.Get(value, "citations"))
  {
    hide P.Get, P.StringAt, P.UnitsAt, Encode;
    TextRead(value);
    if P.StringAt(value, ["type"]).Some? {
      TypedObject(value);
      OnlyThree(value);
      hide OnlyFields;
    }
  }

  lemma TextRead(value: Json)
    ensures P.UnitsAt(value, ["text"]) == if P.Get(value, "text").Some? && P.Get(value, "text").value.Str? then Some(P.Get(value, "text").value.units) else None
  {
    if P.Get(value, "text").Some? { assert ["text"][1..] == [] && P.At(P.Get(value, "text").value, []) == P.Get(value, "text"); }
  }

  lemma TypedObject(value: Json)
    requires P.StringAt(value, ["type"]).Some?
    ensures value.Obj?
  {
  }

  lemma OnlyThree(value: Json)
    requires value.Obj?
    ensures OnlyFields(value, ["type", "text", "citations"]) <==>
              forall k :: 0 <= k < |value.fields| ==> value.fields[k].key in {Encode("type"), Encode("text"), Encode("citations")}
  {
    hide Encode;
    var names := ["type", "text", "citations"];
    assert names[0] == "type" && names[1] == "text" && names[2] == "citations";
  }

  // ----- the fields of a block -----

  /** The Anthropic events passed through so far, in order. */
  function Payloads(run: seq<Input>): seq<Json> {
    if run == [] then []
    else Payloads(run[..|run| - 1]) + if Connecting(run[|run| - 1]) then [run[|run| - 1].event.payload] else []
  }

  lemma {:induction false} PayloadsAre(world: World, run: seq<Input>)
    ensures After(world, run).connectors == Payloads(run)
    decreases |run|
  {
    hide Next;
    if run != [] {
      PayloadsAre(world, run[..|run| - 1]);
      ConnectorsNext(world, After(world, run[..|run| - 1]), run[|run| - 1]);
    }
  }

  /** All reasoning of a block since it was last discarded, run together; none if it has had none. */
  function Reasoning(run: seq<Input>, i: nat): Option<string> {
    if run == [] then None
    else
      var before, x := run[..|run| - 1], run[|run| - 1];
      if Drops(x, i) then None
      else if Names(x, i) && x.event.ReasoningDelta? then Some(OrEmpty(Reasoning(before, i)) + x.event.text)
      else Reasoning(before, i)
  }

  /** The native, redacted or provider content an input gives a block. */
  function Given(world: World, connectors: seq<Json>, x: Input, i: nat): Option<ContentBlock> {
    if Connects(world, connectors, x, i) then Some(world.connect(connectors + [x.event.payload]).value.1)
    else if !Names(x, i) then None
    else if x.event.Redacted? then Some(RedactedThinking(x.event.data))
    else if x.event.NativeItem? then Some(Native(x.event.native))
    else if x.event.Provider? && !Phase(x, i) && TextProjection(x.event.protocol, x.event.value).None? then
      Some(ProviderContent(x.event.protocol, x.event.value))
    else None
  }

  /** The last such content since the block was last discarded. */
  function LastNative(world: World, run: seq<Input>, i: nat): Option<ContentBlock> {
    if run == [] then None
    else
      var before, x := run[..|run| - 1], run[|run| - 1];
      var given := Given(world, Payloads(before), x, i);
      if Drops(x, i) then None else if given.Some? then given else LastNative(world, before, i)
  }

  /** The last phase told since the block was last discarded. */
  function LastPhase(run: seq<Input>, i: nat): Option<ContentBlock> {
    if run == [] || Drops(run[|run| - 1], i) then None
    else if Phase(run[|run| - 1], i) then Some(ProviderContent(OpenAiResponses, run[|run| - 1].event.value))
    else LastPhase(run[..|run| - 1], i)
  }

  /** Since it was last discarded the block was ended, given typed native content, or completed by a connector. */
  predicate Ended(world: World, run: seq<Input>, i: nat) {
    if run == [] then false
    else
      var before, x := run[..|run| - 1], run[|run| - 1];
      !Drops(x, i) && ((Names(x, i) && (x.event.BlockEnd? || x.event.NativeItem?)) || Connects(world, Payloads(before), x, i) || Ended(world, before, i))
  }

  lemma PhaseIs(x: Input, i: nat)
    requires Names(x, i) && x.event.Provider?
    ensures Phase(x, i) <==> x.event.protocol == OpenAiResponses && P.StringAt(x.event.value, ["type"]) == Some(PHASE)
  {
  }

  /** In every run: a block's reasoning, native content, companion and end are these. */
  lemma {:induction false} FieldsAssemble(world: World, run: seq<Input>, i: nat)
    ensures var b := BlockAt(world, run, i);
            && b.thinking == Reasoning(run, i) && b.native == LastNative(world, run, i)
            && b.companion == LastPhase(run, i) && (b.ended <==> Ended(world, run, i))
    decreases |run|
  {
    hide After, Display, Encode, TextProjection, P.StringAt;
    if run == [] {
      NothingTold(world, i);
    } else {
      var before, x := run[..|run| - 1], run[|run| - 1];
      FieldsAssemble(world, before, i);
      PayloadsAre(world, before);
      BlockNext(world, run, i);
      hide BlockAt;
      if Names(x, i) && x.event.Provider? { PhaseIs(x, i); }
    }
  }

  // ----- what a tool call carries beside id, name and fragments -----

  function LastProviderId(run: seq<Input>, i: nat): Option<string> {
    if run == [] || Drops(run[|run| - 1], i) then None
    else if Calls(run[|run| - 1], i) && run[|run| - 1].event.providerId.Some? then run[|run| - 1].event.providerId
    else LastProviderId(run[..|run| - 1], i)
  }

  function LastCaller(run: seq<Input>, i: nat): Option<Json> {
    if run == [] || Drops(run[|run| - 1], i) then None
    else if Calls(run[|run| - 1], i) && run[|run| - 1].event.caller.Some? then run[|run| - 1].event.caller
    else LastCaller(run[..|run| - 1], i)
  }

  function LastToolset(run: seq<Input>, i: nat): Option<string> {
    if run == [] || Drops(run[|run| - 1], i) then None
    else if Calls(run[|run| - 1], i) && run[|run| - 1].event.toolsetName.Some? then run[|run| - 1].event.toolsetName
    else LastToolset(run[..|run| - 1], i)
  }

  /** The call of a block as its deltas tell it. */
  function LastCall(run: seq<Input>, i: nat): Option<Tool> {
    var arguments :- Fragments(run, i);
    Some(Tool(LastId(run, i), LastProviderId(run, i), LastCaller(run, i), LastToolset(run, i), LastName(run, i), arguments))
  }

  ghost predicate NoCallYet(run: seq<Input>, i: nat) {
    LastProviderId(run, i).None? && LastCaller(run, i).None? && LastToolset(run, i).None?
  }

  /** In every run the call holds its last non-empty id and name, the last of each other field, and all its fragments. */
  lemma {:induction false} CallAssembles(world: World, run: seq<Input>, i: nat)
    ensures BlockAt(world, run, i).tool == LastCall(run, i)
    ensures LastCall(run, i).None? ==> NoCallYet(run, i)
    decreases |run|
  {
    hide After, Display, Encode, TextProjection, P.StringAt;
    ToolAssembles(world, run, i);
    if run == [] {
      NothingTold(world, i);
    } else {
      var before, x := run[..|run| - 1], run[|run| - 1];
      CallAssembles(world, before, i);
      ToolAssembles(world, before, i);
      BlockNext(world, run, i);
      ToolOfBlock(world, run, i);
      hide BlockAt, ToolOf;
    }
  }

  lemma ToolOfBlock(world: World, run: seq<Input>, i: nat)
    ensures ToolOf(After(world, run), i) == BlockAt(world, run, i).tool
  {
    hide After;
  }

  // ----- the content of a block -----

  /** The content a run gives a block: its last native content, typed content only once the turn has ended
      for it; or else its call, complete and parsed; or else its reasoning; or else its text. */
  function ContentOf(world: World, run: seq<Input>, i: nat): Option<ContentBlock> {
    var native, call, stop := LastNative(world, run, i), LastCall(run, i), StopOf(run);
    if native.Some? then
      if native.value.Native? && stop !in {Some(ToolStop), Some(EndTurn), Some(OtherStop("requires_action"))} then None else native
    else if call.Some? then
      var arguments := call.value.arguments;
      var input := if arguments == [] then Some(Obj([])) else world.parse(arguments);
      if call.value.id == "" || call.value.name == "" || !(Ended(world, run, i) || stop.Some?) || input.None? then None
      else Some(ToolUse(call.value.id, call.value.name, input.value, call.value.providerId, call.value.caller,
                        call.value.toolsetName, Signature(run, i)))
    else if Reasoning(run, i).Some? then Some(Thinking(Reasoning(run, i).value, Signature(run, i)))
    else TextContent(run, i)
  }

  /** In every run that is the content. */
  lemma ContentAssembles(world: World, run: seq<Input>, i: nat)
    ensures ContentAt(world, After(world, run), i) == ContentOf(world, run, i)
  {
    hide After, LastNative, Ended, LastCall, Reasoning, StopOf, Signature, TextContent, Plain, BlockAt, ContentAt;
    FieldsAssemble(world, run, i);
    CallAssembles(world, run, i);
    SignatureAssembles(world, run, i);
    StopIs(world, run);
    PlainIff(world, run, i);
    AtBlock(world, run, i);
    if Plain(world, run, i) { PlainContent(world, run, i); }
  }

  lemma AtBlock(world: World, run: seq<Input>, i: nat)
    ensures ContentAt(world, After(world, run), i) == Content(world, BlockAt(world, run, i), After(world, run).stop.Some?, NativeTerminal(After(world, run).stop))
  {
    hide After, Content;
    FoundContent(world, After(world, run), i);
  }

  // ----- the content of a snapshot -----

  /** What a block puts into the message: its content, and its companion right after it. */
  function Piece(world: World, s: Assembly, i: nat): seq<ContentBlock>
    requires i in s.blocks
  {
    Single(ContentAt(world, s, i)) + Single(s.blocks[i].companion)
  }

  /** How many blocks the first `k` indices put there. */
  function Offset(world: World, s: Assembly, keys: seq<nat>, k: nat): nat
    requires k <= |keys| && forall l :: 0 <= l < |keys| ==> keys[l] in s.blocks
  {
    if k == 0 then 0 else Offset(world, s, keys, k - 1) + |Piece(world, s, keys[k - 1])|
  }

  lemma {:induction false} OffsetsAgree(world: World, s: Assembly, keys: seq<nat>, n: nat, k: nat)
    requires k <= n <= |keys| && forall l :: 0 <= l < |keys| ==> keys[l] in s.blocks
    ensures Offset(world, s, keys[..n], k) == Offset(world, s, keys, k)
    decreases k
  {
    hide Piece;
    if k > 0 { OffsetsAgree(world, s, keys, n, k - 1); }
  }

  ghost predicate PieceIn(world: World, s: Assembly, keys: seq<nat>, content: seq<ContentBlock>, k: nat)
    requires k < |keys| && forall l :: 0 <= l < |keys| ==> keys[l] in s.blocks
  {
    var from, to := Offset(world, s, keys, k), Offset(world, s, keys, k + 1);
    from <= to <= |content| && content[from..to] == Piece(world, s, keys[k])
  }

  lemma ListNext(world: World, s: Assembly, keys: seq<nat>)
    requires keys != [] && forall k :: 0 <= k < |keys| ==> keys[k] in s.blocks
    ensures var n := |keys| - 1;
            List(world, s, keys).content == List(world, s, keys[..n]).content + Piece(world, s, keys[n])
  {
    hide ContentAt, IsUnfinished, IsIncomplete;
    var n := |keys| - 1;
    Regroup(List(world, s, keys[..n]).content, Single(ContentAt(world, s, keys[n])), Single(s.blocks[keys[n]].companion));
  }

  lemma PieceStays(world: World, s: Assembly, keys: seq<nat>, before: seq<ContentBlock>, last: seq<ContentBlock>, k: nat)
    requires k < |keys| - 1 && forall l :: 0 <= l < |keys| ==> keys[l] in s.blocks
    requires PieceIn(world, s, keys[..|keys| - 1], before, k)
    ensures PieceIn(world, s, keys, before + last, k)
  {
    hide Piece, Offset;
    var n := |keys| - 1;
    OffsetsAgree(world, s, keys, n, k);
    OffsetsAgree(world, s, keys, n, k + 1);
    var from, to := Offset(world, s, keys, k), Offset(world, s, keys, k + 1);
    assert (before + last)[from..to] == before[from..to];
  }

  /** The pieces lie one after the other and fill the message. */
  lemma {:induction false} ListingContent(world: World, s: Assembly, keys: seq<nat>)
    requires forall k :: 0 <= k < |keys| ==> keys[k] in s.blocks
    ensures |List(world, s, keys).content| == Offset(world, s, keys, |keys|)
    ensures forall k :: 0 <= k < |keys| ==> PieceIn(world, s, keys, List(world, s, keys).content, k)
    decreases |keys|
  {
    hide ContentAt, IsUnfinished, IsIncomplete, PieceIn, Piece, List;
    if keys != [] {
      var n := |keys| - 1;
      var before, last := List(world, s, keys[..n]).content, Piece(world, s, keys[n]);
      ListingContent(world, s, keys[..n]);
      ListNext(world, s, keys);
      OffsetsAgree(world, s, keys, n, n);
      forall k | 0 <= k < |keys| ensures PieceIn(world, s, keys, before + last, k) {
        if k < n { PieceStays(world, s, keys, before, last, k); } else { PieceLast(world, s, keys, before); }
      }
    } else {
      NothingListed(world, s);
    }
  }

  lemma NothingListed(world: World, s: Assembly)
    ensures List(world, s, []).content == []
  {
  }

  lemma PieceLast(world: World, s: Assembly, keys: seq<nat>, before: seq<ContentBlock>)
    requires keys != [] && (forall l :: 0 <= l < |keys| ==> keys[l] in s.blocks) && |before| == Offset(world, s, keys, |keys| - 1)
    ensures PieceIn(world, s, keys, before + Piece(world, s, keys[|keys| - 1]), |keys| - 1)
  {
    hide Piece;
    var last := Piece(world, s, keys[|keys| - 1]);
    assert (before + last)[|before|..|before| + |last|] == last;
  }

  /** What is told of an incomplete tool: its last name, the length of its fragments' text, and whether it can still go on. */
  predicate ToldOf(world: World, s: Assembly, e: Incomplete) {
    && e.block in s.blocks && s.blocks[e.block].tool.Some? && ContentAt(world, s, e.block).None?
    && e.name == s.blocks[e.block].tool.value.name
    && e.inputBytes == |Bytes(Display(s.blocks[e.block].tool.value.arguments))|
    && (e.ended <==> s.stop.Some? || s.blocks[e.block].ended)
  }

  lemma {:induction false} IncompleteAre(world: World, s: Assembly, keys: seq<nat>)
    requires forall k :: 0 <= k < |keys| ==> keys[k] in s.blocks
    ensures forall k :: 0 <= k < |List(world, s, keys).incomplete| ==> ToldOf(world, s, List(world, s, keys).incomplete[k])
    decreases |keys|
  {
    hide ContentAt, IsUnfinished, Bytes, Display;
    if keys != [] { IncompleteAre(world, s, keys[..|keys| - 1]); }
  }

  /** A snapshot's message: block by block in index order, each block's content followed by its companion, and
      nothing else; beside it each block's content by its index, and what is told of incomplete tools. */
  lemma SnapshotContent(world: World, s: Assembly)
    ensures var r, keys := TakeSnapshot(world, s), Ascending(s.blocks.Keys);
            && (forall i :: i in s.blocks <==> i in keys) && (forall i, j :: 0 <= i < j < |keys| ==> keys[i] < keys[j])
            && (forall k :: 0 <= k < |keys| ==> keys[k] in s.blocks && PieceIn(world, s, keys, r.listing.content, k))
            && |r.listing.content| == Offset(world, s, keys, |keys|)
            && (forall i :: i in r.indexed <==> i in s.blocks && ContentAt(world, s, i).Some?)
            && (forall i :: i in r.indexed ==> Some(r.indexed[i]) == ContentAt(world, s, i))
            && (forall k :: 0 <= k < |r.listing.incomplete| ==> ToldOf(world, s, r.listing.incomplete[k]))
  {
    var keys := Ascending(s.blocks.Keys);
    AscendingKeys(s.blocks.Keys);
    assert forall k :: 0 <= k < |keys| ==> keys[k] in keys;
    ListingContent(world, s, keys);
    IncompleteAre(world, s, keys);
    hide ContentAt, List, PieceIn, ToldOf, Offset;
  }

  // ----- everything else a run tells -----

  /** The model of the last start or fallback. */
  function ModelOf(run: seq<Input>): string {
    if run == [] then ""
    else
      var x := run[|run| - 1];
      if x.Fallback? then x.model else if x.event.Start? then x.event.model else ModelOf(run[..|run| - 1])
  }

  /** The response id of the last start, which may have none. */
  function ResponseIdOf(run: seq<Input>): Option<string> {
    if run == [] then None
    else
      var x := run[|run| - 1];
      if x.Event? && x.event.Start? then x.event.responseId else ResponseIdOf(run[..|run| - 1])
  }

  function UsageOf(run: seq<Input>): Option<Json> {
    if run == [] then None
    else
      var x := run[|run| - 1];
      if x.Event? && x.event.End? then Some(x.event.usage) else UsageOf(run[..|run| - 1])
  }

  /** The last inference report, an end's included. */
  function InferenceOf(run: seq<Input>): Option<Json> {
    if run == [] then None
    else
      var x := run[|run| - 1];
      if x.Event? && x.event.End? then Some(x.event.inference)
      else if x.Event? && x.event.Inference? then Some(x.event.report) else InferenceOf(run[..|run| - 1])
  }

  lemma {:induction false} FactsAssemble(world: World, run: seq<Input>)
    ensures var s := After(world, run);
            && s.model == ModelOf(run) && s.responseId == ResponseIdOf(run) && s.usage == UsageOf(run) && s.inference == InferenceOf(run)
    decreases |run|
  {
    hide NextBlock, ExtendUnique, MergedWith, ErrorOf, Without, Entry, Completed;
    if run != [] { FactsAssemble(world, run[..|run| - 1]); }
  }

  /** Since it was last discarded the block was ended or completed by a connector. */
  predicate Closed(world: World, run: seq<Input>, i: nat) {
    if run == [] then false
    else
      var before, x := run[..|run| - 1], run[|run| - 1];
      !Drops(x, i) && ((Names(x, i) && x.event.BlockEnd?) || Connects(world, Payloads(before), x, i) || Closed(world, before, i))
  }

  lemma {:induction false} WithoutMeans(order: seq<nat>, discarded: set<nat>)
    ensures forall i :: i in Without(order, discarded) <==> i in order && i !in discarded
    ensures NoRepeats(order) ==> NoRepeats(Without(order, discarded))
    decreases |order|
  {
    if order != [] {
      var n := |order| - 1;
      WithoutMeans(order[..n], discarded);
      assert order == order[..n] + [order[n]];
    }
  }

  lemma CompletedNext(world: World, s: Assembly, x: Input, i: nat)
    requires NoRepeats(s.completed)
    ensures var t := Next(world, s, x);
            && NoRepeats(t.completed)
            && (i in t.completed <==> !Drops(x, i) && ((Names(x, i) && x.event.BlockEnd?) || Connects(world, s.connectors, x, i) || i in s.completed))
  {
    hide NextBlock, ExtendUnique, MergedWith, ErrorOf, Entry, Without;
    if x.Fallback? { WithoutMeans(s.completed, x.discarded); }
  }

  /** In every run the completion order lists exactly the closed blocks, each once. */
  lemma {:induction false} CompletedAssembles(world: World, run: seq<Input>, i: nat)
    ensures NoRepeats(After(world, run).completed) && (i in After(world, run).completed <==> Closed(world, run, i))
    decreases |run|
  {
    hide Next, NoRepeats, Connects, Drops, Names;
    if run == [] {
      assert NoRepeats<nat>([]) by { NothingRepeats(); }
    } else {
      var before := run[..|run| - 1];
      CompletedAssembles(world, before, i);
      PayloadsAre(world, before);
      CompletedNext(world, After(world, before), run[|run| - 1], i);
    }
  }

  lemma NothingRepeats()
    ensures NoRepeats<nat>([])
  {
  }

  /** Some search event of the run reported it. */
  ghost predicate Cited(run: seq<Input>, citation: Json) {
    exists k :: 0 <= k < |run| && run[k].Event? && run[k].event.WebSearch? && citation in run[k].event.citations
  }

  ghost predicate Queried(run: seq<Input>, query: string) {
    exists k :: 0 <= k < |run| && run[k].Event? && run[k].event.FileSearch? && query in run[k].event.queries
  }

  ghost predicate Matched(run: seq<Input>, hit: Json) {
    exists k :: 0 <= k < |run| && run[k].Event? && run[k].event.FileSearch? && hit in run[k].event.hits
  }

  function CitationsOf(s: Assembly): seq<Json> { if s.web.Some? then s.web.value.citations else [] }

  function QueriesOf(s: Assembly): seq<string> { if s.files.Some? then s.files.value.queries else [] }

  function HitsOf(s: Assembly): seq<Json> { if s.files.Some? then s.files.value.hits else [] }

  lemma SearchNext(world: World, s: Assembly, x: Input)
    ensures var t := Next(world, s, x);
            && CitationsOf(t) == (if x.Event? && x.event.WebSearch? then ExtendUnique(CitationsOf(s), x.event.citations) else CitationsOf(s))
            && QueriesOf(t) == (if x.Event? && x.event.FileSearch? then ExtendUnique(QueriesOf(s), x.event.queries) else QueriesOf(s))
            && HitsOf(t) == (if x.Event? && x.event.FileSearch? then ExtendUnique(HitsOf(s), x.event.hits) else HitsOf(s))
  {
    hide NextBlock, ExtendUnique, MergedWith, ErrorOf, Without, Entry, Completed;
  }

  /** In every run the collected search results are exactly those some event reported, each once. */
  lemma {:induction false} SearchAssembles(world: World, run: seq<Input>)
    ensures var s := After(world, run);
            && NoRepeats(CitationsOf(s)) && NoRepeats(QueriesOf(s)) && NoRepeats(HitsOf(s))
            && (forall c :: c in CitationsOf(s) <==> Cited(run, c))
            && (forall q :: q in QueriesOf(s) <==> Queried(run, q))
            && (forall h :: h in HitsOf(s) <==> Matched(run, h))
    decreases |run|
  {
    hide Next, ExtendUnique, CitationsOf, QueriesOf, HitsOf, NoRepeats;
    if run == [] {
      NothingFound();
    } else {
      var n := |run| - 1;
      var before, x := run[..n], run[n];
      var s := After(world, before);
      SearchAssembles(world, before);
      SearchNext(world, s, x);
      SearchedNext(run);
      hide After, Cited, Queried, Matched;
      if x.Event? && x.event.WebSearch? { ExtendUniqueMeans(CitationsOf(s), x.event.citations); }
      if x.Event? && x.event.FileSearch? {
        ExtendUniqueMeans(QueriesOf(s), x.event.queries);
        ExtendUniqueMeans(HitsOf(s), x.event.hits);
      }
    }
  }

  lemma NothingFound()
    ensures CitationsOf(Fresh()) == [] && QueriesOf(Fresh()) == [] && HitsOf(Fresh()) == []
    ensures NoRepeats<Json>([]) && NoRepeats<string>([])
  {
  }

  lemma SearchedNext(run: seq<Input>)
    requires run != []
    ensures var before, x := run[..|run| - 1], run[|run| - 1];
            && (forall c :: Cited(run, c) <==> Cited(before, c) || (x.Event? && x.event.WebSearch? && c in x.event.citations))
            && (forall q :: Queried(run, q) <==> Queried(before, q) || (x.Event? && x.event.FileSearch? && q in x.event.queries))
            && (forall h :: Matched(run, h) <==> Matched(before, h) || (x.Event? && x.event.FileSearch? && h in x.event.hits))
  {
    var before := run[..|run| - 1];
    assert forall k :: 0 <= k < |before| ==> before[k] == run[k];
  }

  // ----- batches -----

  /** The good events of a batch, in order. */
  function Goods(batch: seq<Arrival>): seq<Input> {
    if batch == [] then []
    else Goods(batch[..|batch| - 1]) + if batch[|batch| - 1].Good? then [Event(batch[|batch| - 1].event)] else []
  }

  /** Observing a batch is observing its good events, whatever failed between them. */
  lemma {:induction false} BatchObserves(world: World, run: seq<Input>, batch: seq<Arrival>)
    ensures Observed(world, After(world, run), batch) == After(world, run + Goods(batch))
    decreases |batch|
  {
    hide Step;
    if batch == [] {
      assert run + Goods(batch) == run;
    } else {
      var n := |batch| - 1;
      BatchObserves(world, run, batch[..n]);
      var told := run + Goods(batch[..n]);
      if batch[n].Good? {
        var x := Event(batch[n].event);
        assert run + Goods(batch) == told + [x];
        LastInput(told, x);
        assert After(world, told + [x]) == Next(world, After(world, told), x);
      } else {
        assert run + Goods(batch) == told;
      }
    }
  }

  /** Nothing has failed in the first `k` arrivals. */
  ghost predicate CleanUpTo(world: World, s: Assembly, batch: seq<Arrival>, k: nat)
    requires k <= |batch|
  {
    Observed(world, s, batch[..k]).error.None? && forall j :: 0 <= j < k ==> batch[j].Good?
  }

  /** The error of a batch is the first one: the accumulator's own, or that of the first arrival that is bad or
      fails to merge. */
  lemma {:induction false} FirstErrorIs(world: World, s: Assembly, batch: seq<Arrival>, k: nat)
    requires k < |batch| && CleanUpTo(world, s, batch, k)
    ensures batch[k].Bad? ==> FirstError(world, s, batch) == Some(batch[k].error)
    ensures batch[k].Good? && Observed(world, s, batch[..k + 1]).error.Some? ==> FirstError(world, s, batch) == Observed(world, s, batch[..k + 1]).error
    decreases |batch|
  {
    hide Step;
    var n := |batch| - 1;
    if k < n {
      assert batch[..n][..k] == batch[..k] && batch[..n][..k + 1] == batch[..k + 1];
      FirstErrorIs(world, s, batch[..n], k);
    } else {
      assert batch[..k + 1] == batch;
      CleanBatch(world, s, batch[..k]);
    }
  }

  lemma {:induction false} OwnErrorStays(world: World, s: Assembly, batch: seq<Arrival>)
    requires s.error.Some?
    ensures FirstError(world, s, batch) == s.error
    decreases |batch|
  {
    hide Step;
    if batch != [] { OwnErrorStays(world, s, batch[..|batch| - 1]); }
  }
}
