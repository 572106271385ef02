/** Runs of stream events. */
module StreamRuns {
  // What any run of stream events, server fallbacks included, assembles.

  import opened Utf16
  import opened Utf8
  import opened Sequences
  import opened JsonValue
  import opened Messages
  import opened StreamAssembly
  import P = Payload

  datatype Input = Event(event: StreamEvent) | Fallback(model: string, discarded: set<nat>)

  function Next(world: World, s: Assembly, x: Input): Assembly {
    match x
    case Event(e) => Step(world, s, e)
    case Fallback(model, discarded) => Discard(s, model, discarded)
  }

  function After(world: World, run: seq<Input>): Assembly {
    if run == [] then Fresh() else Next(world, After(world, run[..|run| - 1]), run[|run| - 1])
  }

  // ----- isolation of blocks -----

  predicate Connecting(x: Input) { x.Event? && x.event.ProviderEvent? && x.event.protocol == AnthropicMessages }

  predicate Names(x: Input, i: nat) { x.Event? && BlockEvent(x.event) && x.event.block == i }

  /** The inputs a block may depend on: events naming it, connector payloads and fallbacks. */
  predicate Concerns(x: Input, i: nat) { Names(x, i) || Connecting(x) || x.Fallback? }

  function Restricted(run: seq<Input>, i: nat): seq<Input> {
    if run == [] then []
    else Restricted(run[..|run| - 1], i) + if Concerns(run[|run| - 1], i) then [run[|run| - 1]] else []
  }

  function Find(s: Assembly, i: nat): Option<Block> { if i in s.blocks then Some(s.blocks[i]) else None }

  lemma LastInput(run: seq<Input>, x: Input)
    ensures var all := run + [x]; all[..|all| - 1] == run && all[|all| - 1] == x
  {
  }

  function OrNew(b: Option<Block>): Block { if b.Some? then b.value else NewBlock() }

  predicate Drops(x: Input, i: nat) { x.Fallback? && i in x.discarded }

  /** What an input makes of a block, given the connector payloads before it. */
  function FindNext(world: World, connectors: seq<Json>, held: Option<Block>, x: Input, i: nat): Option<Block> {
    var b := OrNew(held);
    if Names(x, i) then Some(NextBlock(b, x.event))
    else if Drops(x, i) then None
    else if Connects(world, connectors, x, i) then
      Some(b.(native := Some(world.connect(connectors + [x.event.payload]).value.1), ended := true))
    else held
  }

  /** A connector payload completes the block. */
  predicate Connects(world: World, connectors: seq<Json>, x: Input, i: nat) {
    Connecting(x) && var r := world.connect(connectors + [x.event.payload]); r.Some? && r.value.0 == i
  }

  /** An input's effect on a block depends on that block and the connectors alone. */
  lemma FoundNext(world: World, s: Assembly, x: Input, i: nat)
    ensures Find(Next(world, s, x), i) == FindNext(world, s.connectors, Find(s, i), x, i)
  {
    hide NextBlock, ExtendUnique, MergedWith, ErrorOf, Completed, Without;
    if x.Event? && !BlockEvent(x.event) { OtherEvent(world, s, x.event, i); }
  }

  lemma OtherEvent(world: World, s: Assembly, e: StreamEvent, i: nat)
    requires !BlockEvent(e)
    ensures Find(Step(world, s, e), i) == FindNext(world, s.connectors, Find(s, i), Event(e), i)
  {
    hide NextBlock, ExtendUnique, MergedWith, ErrorOf, Completed, Without;
  }

  lemma ConnectorsNext(world: World, s: Assembly, x: Input)
    ensures Next(world, s, x).connectors == s.connectors + if Connecting(x) then [x.event.payload] else []
  {
    hide NextBlock, ExtendUnique, MergedWith, ErrorOf, Completed, Without, Entry;
  }

  /** A block is the same whether or not the inputs that do not concern it are there. */
  lemma {:induction false} Isolation(world: World, run: seq<Input>, i: nat)
    ensures Find(After(world, run), i) == Find(After(world, Restricted(run, i)), i)
    ensures After(world, run).connectors == After(world, Restricted(run, i)).connectors
    decreases |run|
  {
    hide Next, NextBlock;
    if run != [] {
      var before, x := run[..|run| - 1], run[|run| - 1];
      var s, t := After(world, before), After(world, Restricted(before, i));
      Isolation(world, before, i);
      FoundNext(world, s, x, i);
      ConnectorsNext(world, s, x);
      LastInput(Restricted(before, i), x);
      if Concerns(x, i) {
        FoundNext(world, t, x, i);
        ConnectorsNext(world, t, x);
      } else {
        assert Restricted(run, i) == Restricted(before, i);
      }
    }
  }

  /** The stop reason of the last end event. */
  function StopOf(run: seq<Input>): Option<Stop> {
    if run == [] then None
    else
      var x := run[|run| - 1];
      if x.Event? && x.event.End? then Some(x.event.stop) else StopOf(run[..|run| - 1])
  }

  lemma {:induction false} StopIs(world: World, run: seq<Input>)
    ensures After(world, run).stop == StopOf(run)
    decreases |run|
  {
    if run != [] {
      StopIs(world, run[..|run| - 1]);
      hide NextBlock, ExtendUnique, MergedWith, ErrorOf;
    }
  }

  predicate NativeTerminal(stop: Option<Stop>) {
    stop in {Some(ToolStop), Some(EndTurn), Some(OtherStop("requires_action"))}
  }

  /** `content_at` */
  function ContentAt(world: World, s: Assembly, i: nat): Option<ContentBlock> {
    var b :- Find(s, i);
    Content(world, b, s.stop.Some?, NativeTerminal(s.stop))
  }

  /** Interleaving other blocks changes nothing: two runs that agree on what concerns a block and on
      how they stop give it the same content. */
  lemma Interleaving(world: World, run: seq<Input>, other: seq<Input>, i: nat)
    requires Restricted(run, i) == Restricted(other, i) && StopOf(run) == StopOf(other)
    ensures ContentAt(world, After(world, run), i) == ContentAt(world, After(world, other), i)
  {
    Isolation(world, run, i);
    Isolation(world, other, i);
    StopIs(world, run);
    StopIs(world, other);
  }

  // ----- text -----

  predicate TextFor(x: Input, i: nat) { Names(x, i) && (x.event.TextDelta? || x.event.TextDeltaJsUtf16?) }

  function UnitsOf(x: Input): seq<Unit>
    requires x.Event? && (x.event.TextDelta? || x.event.TextDeltaJsUtf16?)
  {
    if x.event.TextDelta? then Encode(x.event.text) else x.event.units
  }

  /** The text and citations of provider content that replaces a block's text. */
  function Projected(x: Input, i: nat): Option<(seq<Unit>, Option<Option<Json>>)> {
    if !Names(x, i) || !x.event.Provider? || (x.event.protocol == OpenAiResponses && P.StringAt(x.event.value, ["type"]) == Some(PHASE)) then None
    else TextProjection(x.event.protocol, x.event.value)
  }

  function OrEmpty<T>(s: Option<seq<T>>): seq<T> { if s.Some? then s.value else [] }

  /** The units of a block's text since it was last discarded: those of the last replacement and of all
      deltas after it, run together; none if it has had no text. */
  function AllUnits(run: seq<Input>, i: nat): Option<seq<Unit>> {
    if run == [] then None
    else
      var before, x := run[..|run| - 1], run[|run| - 1];
      if Drops(x, i) then None
      else if Projected(x, i).Some? then Some(Projected(x, i).value.0)
      else if TextFor(x, i) then Some(OrEmpty(AllUnits(before, i)) + UnitsOf(x))
      else AllUnits(before, i)
  }

  /** Since the last discard, the last replacement was ill-formed or some delta after it carried its own units. */
  predicate Exact(run: seq<Input>, i: nat) {
    if run == [] then false
    else
      var before, x := run[..|run| - 1], run[|run| - 1];
      if Drops(x, i) then false
      else if Projected(x, i).Some? then !WellFormed(Projected(x, i).value.0)
      else (TextFor(x, i) && x.event.TextDeltaJsUtf16?) || Exact(before, i)
  }

  /** The citations of the last replacement, and the signature deltas run together, since the last discard. */
  function Citations(run: seq<Input>, i: nat): Option<Option<Json>> {
    if run == [] || Drops(run[|run| - 1], i) then None
    else if Projected(run[|run| - 1], i).Some? then Projected(run[|run| - 1], i).value.1
    else Citations(run[..|run| - 1], i)
  }

  function Signature(run: seq<Input>, i: nat): Option<string> {
    if run == [] then None
    else
      var before, x := run[..|run| - 1], run[|run| - 1];
      if Drops(x, i) then None
      else if Names(x, i) && x.event.ThoughtSignature? then Some(OrEmpty(Signature(before, i)) + x.event.signature)
      else Signature(before, i)
  }

  /** What a text shows instead of itself once its block has something else. */
  predicate Covers(x: Input, i: nat) {
    && Names(x, i) && Projected(x, i).None?
    && (x.event.ReasoningDelta? || x.event.Redacted? || x.event.NativeItem? || x.event.ToolCallDelta?
        || (x.event.Provider? && !(x.event.protocol == OpenAiResponses && P.StringAt(x.event.value, ["type"]) == Some(PHASE))))
  }

  /** Since the last discard the block has been given no reasoning, tool call or native content. */
  predicate Plain(world: World, run: seq<Input>, i: nat) {
    if run == [] then true
    else
      var before, x := run[..|run| - 1], run[|run| - 1];
      Drops(x, i) || (Plain(world, before, i) && !Covers(x, i) && !Connects(world, After(world, before).connectors, x, i))
  }

  lemma DisplayEncode(s: string)
    ensures Display(Encode(s)) == s
  {
    EncodeDecode(s);
    RepairProperties(Encode(s));
  }

  /** A block's text is the lossy decoding of these units, which it keeps exactly if it has to. */
  predicate Told(b: Block, units: Option<seq<Unit>>, exact: bool) {
    && b.text == (if units.Some? then Some(Display(units.value)) else None)
    && b.units == (if exact then units else None)
    && (exact ==> units.Some?)
    && (!exact && units.Some? ==> Encode(Display(units.value)) == units.value)
  }

  lemma TextTold(b: Block, x: Input, units: Option<seq<Unit>>, exact: bool, i: nat)
    requires TextFor(x, i) && Told(b, units, exact)
    ensures Told(NextBlock(b, x.event), Some(OrEmpty(units) + UnitsOf(x)), exact || x.event.TextDeltaJsUtf16?)
  {
    hide Display, Encode;
    NoText();
    if x.event.TextDelta? && !exact {
      EncodeConcat(OrBlank(b.text), x.event.text);
      DisplayEncode(OrBlank(b.text) + x.event.text);
    }
  }

  lemma NoText()
    ensures Encode("") == [] && Display([]) == ""
  {
    DisplayUnits([]);
  }

  lemma ProjectedTold(b: Block, x: Input, i: nat)
    requires Projected(x, i).Some?
    ensures Told(NextBlock(b, x.event), Some(Projected(x, i).value.0), !WellFormed(Projected(x, i).value.0))
  {
    hide Display, Encode, TextProjection, P.StringAt;
    DisplayUnits(Projected(x, i).value.0);
  }

  /** The event is no text for the block: its text stays. */
  lemma OtherTold(b: Block, x: Input, i: nat)
    requires Names(x, i) && !TextFor(x, i) && Projected(x, i).None?
    ensures NextBlock(b, x.event).text == b.text && NextBlock(b, x.event).units == b.units
  {
    hide Display, Encode, TextProjection, P.StringAt;
  }

  function BlockAt(world: World, run: seq<Input>, i: nat): Block { Entry(After(world, run).blocks, i) }

  lemma BlockNext(world: World, run: seq<Input>, i: nat)
    requires run != []
    ensures var before, x := run[..|run| - 1], run[|run| - 1];
            BlockAt(world, run, i) == OrNew(FindNext(world, After(world, before).connectors, Some(BlockAt(world, before, i)), x, i))
  {
    hide Next, NextBlock;
    FoundNext(world, After(world, run[..|run| - 1]), run[|run| - 1], i);
  }

  /** In every run a block's text is the lossy decoding of all the units it was told, however they were cut
      and whatever was interleaved; the units themselves are kept whenever the text alone would lose them. */
  lemma {:induction false} TextAssembles(world: World, run: seq<Input>, i: nat)
    ensures Told(BlockAt(world, run, i), AllUnits(run, i), Exact(run, i))
    decreases |run|
  {
    hide After, Told, Display, Encode, NextBlock, TextProjection, P.StringAt;
    if run == [] {
      NothingTold(world, i);
    } else {
      var before, x := run[..|run| - 1], run[|run| - 1];
      TextAssembles(world, before, i);
      BlockNext(world, run, i);
      var b := BlockAt(world, before, i);
      hide BlockAt;
      if Projected(x, i).Some? {
        ProjectedTold(b, x, i);
      } else if TextFor(x, i) {
        TextTold(b, x, AllUnits(before, i), Exact(before, i), i);
      } else {
        if Names(x, i) { OtherTold(b, x, i); }
        if Drops(x, i) { NothingTold(world, i); }
        ToldAlike(b, BlockAt(world, run, i), AllUnits(before, i), Exact(before, i));
      }
    }
  }

  lemma NothingTold(world: World, i: nat)
    ensures Told(NewBlock(), None, false) && BlockAt(world, [], i) == NewBlock()
  {
  }

  lemma ToldAlike(b: Block, b': Block, units: Option<seq<Unit>>, exact: bool)
    ensures Told(b, units, exact) && b'.text == b.text && b'.units == b.units ==> Told(b', units, exact)
  {
  }

  /** In every run the signature is all its deltas run together, and the citations are those of the last replacement. */
  lemma {:induction false} SignatureAssembles(world: World, run: seq<Input>, i: nat)
    ensures BlockAt(world, run, i).signature == Signature(run, i) && BlockAt(world, run, i).citations == Citations(run, i)
    decreases |run|
  {
    hide After, Display, Encode, TextProjection, P.StringAt;
    if run == [] {
      NothingTold(world, i);
    } else {
      SignatureAssembles(world, run[..|run| - 1], i);
      BlockNext(world, run, i);
      hide BlockAt;
    }
  }

  /** In every run a block shows its text exactly while it was given nothing that covers it. */
  lemma {:induction false} PlainIff(world: World, run: seq<Input>, i: nat)
    ensures var b := BlockAt(world, run, i); Plain(world, run, i) <==> b.native.None? && b.tool.None? && b.thinking.None?
    decreases |run|
  {
    hide After, Display, Encode, TextProjection, P.StringAt;
    if run == [] {
      NothingTold(world, i);
    } else {
      PlainIff(world, run[..|run| - 1], i);
      BlockNext(world, run, i);
      hide BlockAt;
    }
  }

  /** The text content of a block: all units it was told, all its signature deltas, its last citations. */
  function TextContent(run: seq<Input>, i: nat): Option<ContentBlock> {
    var units :- AllUnits(run, i);
    Some(if Exact(run, i) then TextJsUtf16(Display(units), units, Signature(run, i), Citations(run, i))
         else Text(Display(units), Signature(run, i), Citations(run, i)))
  }

  lemma FoundContent(world: World, s: Assembly, i: nat)
    ensures ContentAt(world, s, i) == Content(world, Entry(s.blocks, i), s.stop.Some?, NativeTerminal(s.stop))
  {
  }

  /** In every run a plain block's content, ended or not, is its text content. */
  lemma PlainContent(world: World, run: seq<Input>, i: nat)
    requires Plain(world, run, i)
    ensures ContentAt(world, After(world, run), i) == TextContent(run, i)
  {
    hide After, AllUnits, Exact, Signature, Citations, Plain, Display, Encode;
    TextAssembles(world, run, i);
    SignatureAssembles(world, run, i);
    PlainIff(world, run, i);
    FoundContent(world, After(world, run), i);
  }

  // ----- cuts -----

  /** The inputs that concern a block other than its text deltas. */
  function Rest(run: seq<Input>, i: nat): seq<Input> {
    if run == [] then []
    else
      var x := run[|run| - 1];
      Rest(run[..|run| - 1], i) + if Concerns(x, i) && !TextFor(x, i) then [x] else []
  }

  function Bare(b: Block): Block { b.(text := None, units := None) }

  /** An event's effect on everything but the text does not depend on the text. */
  lemma BareNext(b: Block, c: Block, e: StreamEvent)
    requires Bare(b) == Bare(c) && BlockEvent(e)
    ensures Bare(NextBlock(b, e)) == Bare(NextBlock(c, e))
    ensures e.TextDelta? || e.TextDeltaJsUtf16? ==> Bare(NextBlock(b, e)) == Bare(b)
  {
    hide Display, Encode, TextProjection, P.StringAt;
  }

  lemma BareFound(world: World, connectors: seq<Json>, b: Block, c: Block, x: Input, i: nat)
    requires Bare(b) == Bare(c)
    ensures Bare(OrNew(FindNext(world, connectors, Some(b), x, i))) == Bare(OrNew(FindNext(world, connectors, Some(c), x, i)))
    ensures !Concerns(x, i) || TextFor(x, i) ==> Bare(OrNew(FindNext(world, connectors, Some(b), x, i))) == Bare(b)
  {
    hide NextBlock;
    if Names(x, i) { BareNext(b, c, x.event); }
  }

  /** Everything but the text is the same without the text deltas. */
  lemma {:induction false} RestDecides(world: World, run: seq<Input>, i: nat)
    ensures Bare(BlockAt(world, run, i)) == Bare(BlockAt(world, Rest(run, i), i))
    ensures After(world, run).connectors == After(world, Rest(run, i)).connectors
    decreases |run|
  {
    hide Next, Bare, BlockAt, FindNext, Concerns, TextFor, Connecting;
    if run != [] {
      var before, x := run[..|run| - 1], run[|run| - 1];
      var s, t := After(world, before), After(world, Rest(before, i));
      RestDecides(world, before, i);
      BlockNext(world, run, i);
      BareFound(world, s.connectors, BlockAt(world, before, i), BlockAt(world, Rest(before, i), i), x, i);
      ConnectorsNext(world, s, x);
      TextConnects(x, i);
      LastInput(Rest(before, i), x);
      if Concerns(x, i) && !TextFor(x, i) {
        BlockNext(world, Rest(run, i), i);
        ConnectorsNext(world, t, x);
      } else {
        assert Rest(run, i) == Rest(before, i);
      }
    }
  }

  lemma TextConnects(x: Input, i: nat)
    ensures !Concerns(x, i) || TextFor(x, i) ==> !Connecting(x)
  {
  }

  /** In every run: cutting a block's text into other deltas changes nothing.  Two runs that tell a block the
      same units, agree on what else concerns it and stop alike give it the same content. */
  lemma CutsDoNotMatter(world: World, run: seq<Input>, other: seq<Input>, i: nat)
    requires AllUnits(run, i) == AllUnits(other, i) && Exact(run, i) == Exact(other, i)
    requires Rest(run, i) == Rest(other, i) && StopOf(run) == StopOf(other)
    ensures ContentAt(world, After(world, run), i) == ContentAt(world, After(world, other), i)
  {
    hide After, AllUnits, Exact, Rest, StopOf, Display, Encode;
    TextAssembles(world, run, i);
    TextAssembles(world, other, i);
    RestDecides(world, run, i);
    RestDecides(world, other, i);
    StopIs(world, run);
    StopIs(world, other);
    FoundContent(world, After(world, run), i);
    FoundContent(world, After(world, other), i);
    assert BlockAt(world, run, i) == BlockAt(world, other, i);
  }

  // ----- tools -----

  predicate Calls(x: Input, i: nat) { Names(x, i) && x.event.ToolCallDelta? }

  /** All argument fragments of a block since it was last discarded, run together; none if there was none. */
  function Fragments(run: seq<Input>, i: nat): Option<seq<Unit>> {
    if run == [] then None
    else
      var before, x := run[..|run| - 1], run[|run| - 1];
      if Drops(x, i) then None
      else if Calls(x, i) then Some((if Fragments(before, i).Some? then Fragments(before, i).value else []) + x.event.fragment)
      else Fragments(before, i)
  }

  /** The last non-empty id, and the last non-empty name, since the block was last discarded. */
  function LastId(run: seq<Input>, i: nat): string {
    if run == [] || Drops(run[|run| - 1], i) then ""
    else if Calls(run[|run| - 1], i) && run[|run| - 1].event.id != "" then run[|run| - 1].event.id
    else LastId(run[..|run| - 1], i)
  }

  function LastName(run: seq<Input>, i: nat): string {
    if run == [] || Drops(run[|run| - 1], i) then ""
    else if Calls(run[|run| - 1], i) && run[|run| - 1].event.name != "" then run[|run| - 1].event.name
    else LastName(run[..|run| - 1], i)
  }

  function ToolOf(s: Assembly, i: nat): Option<Tool> {
    var b :- Find(s, i);
    b.tool
  }

  lemma ToolKept(world: World, s: Assembly, x: Input, i: nat)
    requires !Calls(x, i) && !Drops(x, i)
    ensures ToolOf(Next(world, s, x), i) == ToolOf(s, i)
  {
    hide Next, TextProjection, Display, Encode;
    FoundNext(world, s, x, i);
  }

  lemma ToolCalled(world: World, s: Assembly, x: Input, i: nat)
    requires Calls(x, i)
    ensures ToolOf(Next(world, s, x), i) == WithTool(Entry(s.blocks, i), x.event).tool
  {
    hide Next;
    FoundNext(world, s, x, i);
  }

  /** A tool call carries its last id and name and all its fragments; before the first it carries none. */
  lemma {:induction false} ToolAssembles(world: World, run: seq<Input>, i: nat)
    ensures var tool := ToolOf(After(world, run), i);
            && (tool.Some? <==> Fragments(run, i).Some?)
            && (tool.Some? ==> tool.value.arguments == Fragments(run, i).value && tool.value.id == LastId(run, i) && tool.value.name == LastName(run, i))
            && (tool.None? ==> LastId(run, i) == "" && LastName(run, i) == "")
    decreases |run|
  {
    if run != [] {
      var before, x := run[..|run| - 1], run[|run| - 1];
      ToolAssembles(world, before, i);
      var s := After(world, before);
      if Drops(x, i) {
      } else if Calls(x, i) {
        ToolCalled(world, s, x, i);
        hide Next;
      } else {
        ToolKept(world, s, x, i);
        hide Next;
      }
    }
  }

  // ----- snapshots -----

  datatype Incomplete = Incomplete(block: nat, name: string, inputBytes: nat, ended: bool)

  datatype Listing = Listing(content: seq<ContentBlock>, unfinished: seq<nat>, incomplete: seq<Incomplete>)

  predicate IsUnfinished(world: World, s: Assembly, i: nat)
    requires i in s.blocks
  {
    (s.blocks[i].tool.Some? && ContentAt(world, s, i).None?) || (s.stop.None? && !s.blocks[i].ended && s.blocks[i].native.None?)
  }

  predicate IsIncomplete(world: World, s: Assembly, i: nat) { ToolOf(s, i).Some? && ContentAt(world, s, i).None? }

  function Single<T>(x: Option<T>): seq<T> { if x.Some? then [x.value] else [] }

  /** The projections of a snapshot over the blocks of these indices, in this order. */
  function List(world: World, s: Assembly, keys: seq<nat>): Listing
    requires forall k :: 0 <= k < |keys| ==> keys[k] in s.blocks
  {
    if keys == [] then Listing([], [], [])
    else
      var i := keys[|keys| - 1];
      var l := List(world, s, keys[..|keys| - 1]);
      Listing(
        l.content + Single(ContentAt(world, s, i)) + Single(s.blocks[i].companion),
        if IsUnfinished(world, s, i) then l.unfinished + [i] else l.unfinished,
        if IsIncomplete(world, s, i) then
          var tool := ToolOf(s, i).value;
          l.incomplete + [Incomplete(i, tool.name, |Bytes(Display(tool.arguments))|, s.stop.Some? || s.blocks[i].ended)]
        else l.incomplete)
  }

  /** `snapshot` */
  datatype Snapshot = Snapshot(listing: Listing, indexed: map<nat, ContentBlock>, events: seq<StreamEvent>, terminal: bool, stop: Stop)

  function TakeSnapshot(world: World, s: Assembly): Snapshot {
    AscendingKeys(s.blocks.Keys);
    Snapshot(
      List(world, s, Ascending(s.blocks.Keys)),
      map i | i in s.blocks && ContentAt(world, s, i).Some? :: ContentAt(world, s, i).value,
      s.events, s.stop.Some?, if s.stop.Some? then s.stop.value else OtherStop("stream_interrupted"))
  }

  /** `finish`: the snapshot, and whether it is whole. */
  function Finish(world: World, s: Assembly): (bool, Snapshot) {
    var r := TakeSnapshot(world, s);
    (s.error.None? && r.terminal && (r.listing.unfinished == [] || r.stop == MaxTokens), r)
  }

  lemma {:induction false} ListingMeans(world: World, s: Assembly, keys: seq<nat>, i: nat)
    requires forall k :: 0 <= k < |keys| ==> keys[k] in s.blocks
    ensures i in List(world, s, keys).unfinished <==> i in keys && IsUnfinished(world, s, i)
    ensures (exists k :: 0 <= k < |List(world, s, keys).incomplete| && List(world, s, keys).incomplete[k].block == i) <==> i in keys && IsIncomplete(world, s, i)
    decreases |keys|
  {
    if keys != [] {
      var n := |keys| - 1;
      ListingMeans(world, s, keys[..n], i);
      hide IsUnfinished, IsIncomplete, ContentAt;
      assert keys == keys[..n] + [keys[n]];
      var l, l' := List(world, s, keys[..n]), List(world, s, keys);
      assert forall k :: 0 <= k < |l.incomplete| ==> l'.incomplete[k] == l.incomplete[k];
      if keys[n] == i && IsIncomplete(world, s, i) { assert l'.incomplete[|l.incomplete|].block == i; }
    }
  }

  /** Every tool of a snapshot is either content or listed as incomplete, and never both. */
  lemma ToolsAccounted(world: World, s: Assembly, i: nat)
    requires ToolOf(s, i).Some?
    ensures var r := TakeSnapshot(world, s);
            i in r.indexed <==> !exists k :: 0 <= k < |r.listing.incomplete| && r.listing.incomplete[k].block == i
  {
    AscendingKeys(s.blocks.Keys);
    ListingMeans(world, s, Ascending(s.blocks.Keys), i);
    hide ContentAt, List;
  }

  /** What a finished tool block must be: native content, or a call with its last id and name and the
      JSON of all its fragments, no fragments at all standing for the empty object. */
  ghost predicate WholeTool(world: World, run: seq<Input>, b: Block, content: ContentBlock, i: nat) {
    if b.native.Some? then Some(content) == b.native
    else
      && Fragments(run, i).Some? && content.ToolUse? && content.id == LastId(run, i) != "" && content.name == LastName(run, i) != ""
      && (if Fragments(run, i).value == [] then content.input == Obj([]) else Some(content.input) == world.parse(Fragments(run, i).value))
  }

  /** If a stream finishes and did not stop on length, every tool block of it is whole. */
  lemma FinishedTools(world: World, run: seq<Input>, i: nat)
    requires var s := After(world, run); Finish(world, s).0 && s.stop != Some(MaxTokens) && ToolOf(s, i).Some?
    ensures var s := After(world, run);
            var r := Finish(world, s).1;
            i in s.blocks && i in r.indexed && WholeTool(world, run, s.blocks[i], r.indexed[i], i)
  {
    var s := After(world, run);
    hide After, List, Fragments, LastId, LastName;
    AscendingKeys(s.blocks.Keys);
    ListingMeans(world, s, Ascending(s.blocks.Keys), i);
    assert i in Ascending(s.blocks.Keys);
    assert !IsUnfinished(world, s, i);
    ToolAssembles(world, run, i);
  }

  /** The log holds every event, in order, whatever was discarded. */
  function Logged(run: seq<Input>): seq<StreamEvent> {
    if run == [] then []
    else Logged(run[..|run| - 1]) + if run[|run| - 1].Event? then [run[|run| - 1].event] else []
  }

  lemma {:induction false} LogIsComplete(world: World, run: seq<Input>)
    ensures TakeSnapshot(world, After(world, run)).events == Logged(run)
    decreases |run|
  {
    if run != [] {
      LogIsComplete(world, run[..|run| - 1]);
      hide Take;
    }
  }
}
