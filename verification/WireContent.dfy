/** What an assembled message holds, field by field. */
module WireContent {
  // Every field of the message and of each of its blocks that the observer of a streamed thread response
  // assembles, from the events alone; and how the events are read from their bodies.

  import opened Utf16
  import opened Sequences
  import opened JsonValue
  import opened JsonGrammar
  import opened DecimalText
  import opened Payload
  import opened WireAssembly
  import C = Conversation

  // ----- blocks -----

  /** All citations since the last start of the block. */
  function Cites(events: seq<WireEvent>, i: nat): seq<Json> {
    if events == [] then []
    else
      var e, before := events[|events| - 1], events[..|events| - 1];
      if e.BlockStart? && e.index == i then []
      else if e.CitationDelta? && e.index == i then Cites(before, i) + [e.citation]
      else Cites(before, i)
  }

  function ItemsOf(v: Option<Json>): seq<Json> { if v.Some? && v.value.Arr? then v.value.items else [] }

  function UnitsOf(v: Option<Json>): seq<Unit> { if v.Some? && v.value.Str? then v.value.units else [] }

  /** A field of a block: extended by its deltas, its citations followed by all further ones, its input the last
      complete one, and any other as the block started with it. */
  function FieldOf(parse: seq<Unit> -> Option<Json>, events: seq<WireEvent>, i: nat, name: string): Option<Json> {
    var start := StartBlock(events, i);
    if start.None? then None
    else if name == "text" || name == "thinking" || name == "signature" then
      var more := Deltas(events, i, name);
      if more.None? then Get(start.value, name) else Some(Str(UnitsOf(Get(start.value, name)) + more.value))
    else if name == "citations" then
      if Cites(events, i) == [] then Get(start.value, name) else Some(Arr(ItemsOf(Get(start.value, name)) + Cites(events, i)))
    else if name == "input" then ExpectedInput(parse, events, i)
    else Get(start.value, name)
  }

  ghost predicate BlockHolds(parse: seq<Unit> -> Option<Json>, events: seq<WireEvent>, i: nat, block: Json) {
    forall name :: Get(block, name) == FieldOf(parse, events, i, name)
  }

  ghost predicate Holds(parse: seq<Unit> -> Option<Json>, events: seq<WireEvent>, w: Wire, i: nat) {
    && (i in w.blocks <==> StartBlock(events, i).Some?)
    && Lookup(w.partial, i) == Fragments(events, i)
    && (i in w.blocks ==> BlockHolds(parse, events, i, w.blocks[i]))
  }

  lemma ReadsName(j: Json, name: string)
    ensures OrEmpty(UnitsAt(j, [name])) == UnitsOf(Get(j, name))
    ensures (if ItemsAt(j, [name]).Some? then ItemsAt(j, [name]).value else []) == ItemsOf(Get(j, name))
  {
    if Get(j, name).Some? { assert [name][1..] == []; assert At(Get(j, name).value, []) == Some(Get(j, name).value); }
  }

  lemma OtherKeeps(parse: seq<Unit> -> Option<Json>, events: seq<WireEvent>, w: Wire, e: WireEvent, w': Wire, i: nat)
    requires !Names(e, i) && Step(parse, w, e) == Some(w') && Holds(parse, events, w, i)
    ensures Holds(parse, events + [e], w', i)
  {
    hide Step, Get, StartBlock, Fragments, Deltas, ExpectedInput, Cites, FieldOf;
    OtherEvent(parse, events, w, e, w', i);
    OtherCites(events, e, i);
    if i in w.blocks {
      forall name ensures FieldOf(parse, events + [e], i, name) == FieldOf(parse, events, i, name) {
        SameFieldOf(parse, events, events + [e], i, name);
      }
    }
  }

  lemma SameFieldOf(parse: seq<Unit> -> Option<Json>, events: seq<WireEvent>, all: seq<WireEvent>, i: nat, name: string)
    requires StartBlock(all, i) == StartBlock(events, i) && ExpectedInput(parse, all, i) == ExpectedInput(parse, events, i)
    requires Deltas(all, i, name) == Deltas(events, i, name) && Cites(all, i) == Cites(events, i)
    ensures FieldOf(parse, all, i, name) == FieldOf(parse, events, i, name)
  {
    hide Get, StartBlock, Deltas, ExpectedInput, Cites;
  }

  lemma OtherCites(events: seq<WireEvent>, e: WireEvent, i: nat)
    requires !Names(e, i)
    ensures Cites(events + [e], i) == Cites(events, i)
  {
    Last(events, e);
  }

  /** What each kind of event that names a block does to what is told of it. */
  lemma Told(parse: seq<Unit> -> Option<Json>, events: seq<WireEvent>, e: WireEvent, i: nat, name: string)
    requires Names(e, i)
    ensures var all := events + [e];
            && StartBlock(all, i) == (if e.BlockStart? then Some(e.block) else StartBlock(events, i))
            && Cites(all, i) == (if e.BlockStart? then [] else if e.CitationDelta? then Cites(events, i) + [e.citation] else Cites(events, i))
            && Deltas(all, i, name) ==
                 (if e.BlockStart? then None
                  else if e.TextDelta? && e.field == name then Some(OrEmpty(Deltas(events, i, name)) + e.units)
                  else Deltas(events, i, name))
            && Fragments(all, i) ==
                 (if e.BlockStop? then None else if e.Fragment? then Some(OrEmpty(Fragments(events, i)) + e.units) else Fragments(events, i))
            && ExpectedInput(parse, all, i) ==
                 (if e.BlockStart? then Get(e.block, "input")
                  else if e.BlockStop? && Fragments(events, i).Some? then parse(Fragments(events, i).value)
                  else ExpectedInput(parse, events, i))
  {
    Last(events, e);
    hide Get;
  }

  lemma NamesApart()
    ensures "text" != "thinking" && "text" != "signature" && "text" != "citations" && "text" != "input"
    ensures "thinking" != "signature" && "thinking" != "citations" && "thinking" != "input"
    ensures "signature" != "citations" && "signature" != "input" && "citations" != "input"
  {
    assert |"text"| == 4 && |"thinking"| == 8 && |"signature"| == 9 && |"citations"| == 9 && |"input"| == 5;
    assert "signature"[0] == 's' && "citations"[0] == 'c';
  }

  lemma DeltaKeeps(parse: seq<Unit> -> Option<Json>, events: seq<WireEvent>, block: Json, i: nat, field: string, units: seq<Unit>, name: string)
    requires StartBlock(events, i).Some? && BlockHolds(parse, events, i, block) && TextField(field) && Extended(block, field, units).Some?
    ensures Get(Extended(block, field, units).value, name) == FieldOf(parse, events + [TextDelta(i, field, units)], i, name)
  {
    hide Get, UnitsAt, Replace, StartBlock, Cites, Deltas, ExpectedInput, Fragments, Extended, UnitsOf;
    NamesApart();
    Told(parse, events, TextDelta(i, field, units), i, name);
    ExtendedReads(block, field, units, name);
    assert Get(block, name) == FieldOf(parse, events, i, name);
    if name == field { UnitsGrow(Get(StartBlock(events, i).value, name), Deltas(events, i, name), units); }
  }

  lemma ExtendedReads(block: Json, field: string, units: seq<Unit>, name: string)
    requires Extended(block, field, units).Some?
    ensures Get(Extended(block, field, units).value, name) == if name == field then Some(Str(UnitsOf(Get(block, name)) + units)) else Get(block, name)
  {
    ReadsName(block, field);
    var more := Str(OrEmpty(UnitsAt(block, [field])) + units);
    hide Get, UnitsAt, Replace;
    ReplaceObject(block, field, Some(more));
    GetReplace(block, field, Some(more), name);
  }

  lemma UnitsGrow(start: Option<Json>, deltas: Option<seq<Unit>>, units: seq<Unit>)
    ensures UnitsOf(if deltas.None? then start else Some(Str(UnitsOf(start) + deltas.value))) + units == UnitsOf(start) + (OrEmpty(deltas) + units)
  {
    Regroup(UnitsOf(start), OrEmpty(deltas), units);
    assert [] + units == units;
  }

  lemma CitationKeeps(parse: seq<Unit> -> Option<Json>, events: seq<WireEvent>, block: Json, i: nat, citation: Json, name: string)
    requires StartBlock(events, i).Some? && BlockHolds(parse, events, i, block) && Cited(block, citation).Some?
    ensures Get(Cited(block, citation).value, name) == FieldOf(parse, events + [CitationDelta(i, citation)], i, name)
  {
    hide Get, UnitsAt, ItemsAt, Replace, StartBlock, Cites, Deltas, ExpectedInput, Fragments;
    NamesApart();
    Told(parse, events, CitationDelta(i, citation), i, name);
    CitedReads(block, citation, name);
    assert Get(block, name) == FieldOf(parse, events, i, name);
    var start := ItemsOf(Get(StartBlock(events, i).value, "citations"));
    hide ItemsOf;
    if name == "citations" { ListGrows(Get(StartBlock(events, i).value, name), Cites(events, i), citation); }
  }

  lemma CitedReads(block: Json, citation: Json, name: string)
    requires Cited(block, citation).Some?
    ensures Get(Cited(block, citation).value, name) ==
              if name == "citations" then Some(Arr(ItemsOf(Get(block, name)) + [citation])) else Get(block, name)
  {
    ReadsName(block, "citations");
    var held := ItemsAt(block, ["citations"]);
    var more := Arr((if held.Some? then held.value else []) + [citation]);
    hide Get, ItemsAt, Replace;
    ReplaceObject(block, "citations", Some(more));
    GetReplace(block, "citations", Some(more), name);
  }

  lemma ListGrows(start: Option<Json>, cites: seq<Json>, citation: Json)
    ensures ItemsOf(if cites == [] then start else Some(Arr(ItemsOf(start) + cites))) + [citation] == ItemsOf(start) + (cites + [citation])
  {
    Regroup(ItemsOf(start), cites, [citation]);
    assert [] + [citation] == [citation];
  }

  lemma StopKeeps(parse: seq<Unit> -> Option<Json>, events: seq<WireEvent>, block: Json, i: nat, input: Json, name: string)
    requires StartBlock(events, i).Some? && BlockHolds(parse, events, i, block) && Replace(block, "input", Some(input)).Some?
    requires Fragments(events, i).Some? && parse(Fragments(events, i).value) == Some(input)
    ensures Get(Replace(block, "input", Some(input)).value, name) == FieldOf(parse, events + [BlockStop(i)], i, name)
  {
    NamesApart();
    Told(parse, events, BlockStop(i), i, name);
    GetReplace(block, "input", Some(input), name);
    hide Get, Replace, StartBlock, Cites, Deltas, ExpectedInput, Fragments;
    assert Get(block, name) == FieldOf(parse, events, i, name);
  }

  /** An event that names a block and changes no field of it. */
  lemma QuietKeeps(parse: seq<Unit> -> Option<Json>, events: seq<WireEvent>, block: Json, e: WireEvent, i: nat, name: string)
    requires BlockHolds(parse, events, i, block) && Names(e, i)
    requires e.Fragment? || (e.BlockStop? && Fragments(events, i).None?)
    ensures Get(block, name) == FieldOf(parse, events + [e], i, name)
  {
    Told(parse, events, e, i, name);
    hide Get, StartBlock, Cites, Deltas, ExpectedInput, Fragments;
    assert Get(block, name) == FieldOf(parse, events, i, name);
  }

  lemma StartKeeps(parse: seq<Unit> -> Option<Json>, events: seq<WireEvent>, block: Json, i: nat, name: string)
    ensures Get(block, name) == FieldOf(parse, events + [BlockStart(i, block)], i, name)
  {
    Told(parse, events, BlockStart(i, block), i, name);
    hide Get, StartBlock, Cites, Deltas, ExpectedInput, Fragments;
  }

  lemma OwnKeeps(parse: seq<Unit> -> Option<Json>, events: seq<WireEvent>, w: Wire, e: WireEvent, w': Wire, i: nat)
    requires Names(e, i) && Step(parse, w, e) == Some(w') && Holds(parse, events, w, i) && (e.TextDelta? ==> TextField(e.field))
    ensures Holds(parse, events + [e], w', i)
  {
    Told(parse, events, e, i, "");
    hide Get, UnitsAt, Replace, StartBlock, Cites, Deltas, ExpectedInput, Fragments, FieldOf, TextField, Extended, Cited;
    if i in w'.blocks {
      forall name ensures Get(w'.blocks[i], name) == FieldOf(parse, events + [e], i, name) {
        match e
        case BlockStart(_, block) => StartKeeps(parse, events, block, i, name);
        case TextDelta(_, field, units) => DeltaKeeps(parse, events, w.blocks[i], i, field, units, name);
        case CitationDelta(_, citation) => CitationKeeps(parse, events, w.blocks[i], i, citation, name);
        case Fragment(_, _) => QuietKeeps(parse, events, w.blocks[i], e, i, name);
        case BlockStop(_) =>
          if i in w.partial {
            StopKeeps(parse, events, w.blocks[i], i, parse(w.partial[i]).value, name);
          } else {
            QuietKeeps(parse, events, w.blocks[i], e, i, name);
          }
      }
    }
  }

  lemma StepHolds(parse: seq<Unit> -> Option<Json>, events: seq<WireEvent>, w: Wire, e: WireEvent, w': Wire, i: nat)
    requires Step(parse, w, e) == Some(w') && Holds(parse, events, w, i) && (e.TextDelta? ==> TextField(e.field))
    ensures Holds(parse, events + [e], w', i)
  {
    hide Holds, Step, TextField;
    if Names(e, i) { OwnKeeps(parse, events, w, e, w', i); } else { OtherKeeps(parse, events, w, e, w', i); }
  }

  lemma NothingHeld(parse: seq<Unit> -> Option<Json>, i: nat)
    ensures Holds(parse, [], After(parse, []), i)
  {
    hide FieldOf;
  }

  lemma {:induction false} AlwaysHolds(parse: seq<Unit> -> Option<Json>, events: seq<WireEvent>, i: nat)
    requires Readable(events)
    ensures !After(parse, events).invalid ==> Holds(parse, events, After(parse, events), i)
    decreases |events|
  {
    hide Holds, Step, TextField;
    if events == [] {
      NothingHeld(parse, i);
    } else {
      var before, e := events[..|events| - 1], events[|events| - 1];
      AlwaysHolds(parse, before, i);
      assert events == before + [e];
      if !After(parse, events).invalid {
        StepKeepsValid(parse, After(parse, before), e);
        StepHolds(parse, before, After(parse, before), e, After(parse, events), i);
      }
    }
  }

  // ----- the message -----

  /** The message the last start opened. */
  function Opened(events: seq<WireEvent>): Option<Json> {
    if events == [] then None
    else
      var e := events[|events| - 1];
      if e.MessageStart? then e.message else Opened(events[..|events| - 1])
  }

  /** The last stop reason told since. */
  function LastReason(events: seq<WireEvent>): Option<Json> {
    if events == [] then None
    else
      var e := events[|events| - 1];
      if e.MessageStart? then None
      else if e.MessageDelta? && e.reason.Some? then e.reason
      else LastReason(events[..|events| - 1])
  }

  /** The last usage told since. */
  function LastUsage(events: seq<WireEvent>): Option<Json> {
    if events == [] then None
    else
      var e := events[|events| - 1];
      if e.MessageStart? then None
      else if e.MessageDelta? && e.usage.Some? then e.usage
      else LastUsage(events[..|events| - 1])
  }

  /** A field of the message: the last stop reason and usage, or as it was opened. */
  function MessageField(events: seq<WireEvent>, name: string): Option<Json> {
    if Opened(events).None? then None
    else if name == "stop_reason" && LastReason(events).Some? then LastReason(events)
    else if name == "usage" && LastUsage(events).Some? then LastUsage(events)
    else Get(Opened(events).value, name)
  }

  ghost predicate MessageHolds(events: seq<WireEvent>, message: Option<Json>) {
    && (message.Some? <==> Opened(events).Some?)
    && (message.Some? ==> forall name :: Get(message.value, name) == MessageField(events, name))
  }

  lemma SetReads(j: Json, name: string, value: Option<Json>, other: string)
    requires SetOptional(j, name, value).Some?
    ensures Get(SetOptional(j, name, value).value, other) == if other == name && value.Some? then value else Get(j, other)
  {
    hide Get, Replace;
    if value.Some? {
      assert j.Obj? by { assert Replace(j, name, value).Some?; ReplaceObject(j, name, value); }
      GetReplace(j, name, value, other);
    }
  }

  lemma ReplaceObject(j: Json, name: string, value: Option<Json>)
    requires Replace(j, name, value).Some?
    ensures j.Obj?
  {
  }

  lemma MessageKeeps(parse: seq<Unit> -> Option<Json>, events: seq<WireEvent>, w: Wire, e: WireEvent, w': Wire)
    requires Step(parse, w, e) == Some(w') && MessageHolds(events, w.message)
    ensures MessageHolds(events + [e], w'.message)
  {
    Last(events, e);
    hide Get, Replace, Extended, Cited, InOrder;
    if e.MessageDelta? && w.message.Some? {
      assert "stop_reason" != "usage" by { assert |"usage"| == 5; }
      var reasoned := SetOptional(w.message.value, "stop_reason", e.reason).value;
      hide SetOptional;
      forall name ensures Get(w'.message.value, name) == MessageField(events + [e], name) {
        SetReads(w.message.value, "stop_reason", e.reason, name);
        SetReads(reasoned, "usage", e.usage, name);
        assert Get(w.message.value, name) == MessageField(events, name);
      }
    } else if w'.message.Some? && !e.MessageStart? {
      hide SetOptional;
      forall name ensures Get(w'.message.value, name) == MessageField(events + [e], name) {
        assert Get(w.message.value, name) == MessageField(events, name);
      }
    }
  }

  lemma {:induction false} AlwaysMessage(parse: seq<Unit> -> Option<Json>, events: seq<WireEvent>)
    ensures !After(parse, events).invalid ==> MessageHolds(events, After(parse, events).message)
    decreases |events|
  {
    if events != [] {
      hide MessageHolds, Step;
      var before, e := events[..|events| - 1], events[|events| - 1];
      AlwaysMessage(parse, before);
      assert events == before + [e];
      if !After(parse, events).invalid {
        StepKeepsValid(parse, After(parse, before), e);
        MessageKeeps(parse, before, After(parse, before), e, After(parse, events));
      }
    } else {
      assert After(parse, events) == Empty();
    }
  }

  /** The whole candidate: every field of the message but its content, and every field of every block. */
  lemma CandidateHolds(parse: seq<Unit> -> Option<Json>, events: seq<WireEvent>, name: string, i: nat)
    requires Readable(events) && events != [] && events[|events| - 1] == MessageStop && !After(parse, events).invalid
    ensures Opened(events).Some? ==>
              var w := After(parse, events);
              && Offered(w).Some?
              && (name != "content" ==> Get(Offered(w).value, name) == MessageField(events, name))
              && Get(Offered(w).value, "content") == Some(Arr(InOrder(w.blocks)))
              && (i in w.blocks <==> StartBlock(events, i).Some?)
              && (i in w.blocks ==> BlockHolds(parse, events, i, w.blocks[i]))
  {
    AlwaysMessage(parse, events);
    AlwaysHolds(parse, events, i);
    hide Get, BlockHolds, StartBlock, MessageField, InOrder, Fragments;
    if Opened(events).Some? {
      StopOffers(parse, events);
      CandidateIsMessage(parse, events, name);
    }
  }

  lemma CandidateIsMessage(parse: seq<Unit> -> Option<Json>, events: seq<WireEvent>, name: string)
    requires events != [] && events[|events| - 1] == MessageStop && !After(parse, events).invalid && After(parse, events).message.Some?
    ensures Offered(After(parse, events)).Some?
    ensures name != "content" ==> Get(Offered(After(parse, events)).value, name) == Get(After(parse, events).message.value, name)
  {
    var w, prior := After(parse, events), After(parse, events[..|events| - 1]);
    assert Step(parse, prior, MessageStop) == Some(w);
    hide Get, InOrder;
    assert prior.message.Some? && prior.message.value.Obj?;
    GetReplace(prior.message.value, "content", Some(Arr(InOrder(prior.blocks))), name);
  }

  // ----- reading -----

  /** A member that is a string with this display text. */
  predicate Says(j: Json, name: string, text: string) {
    Get(j, name).Some? && Get(j, name).value.Str? && Display(Get(j, name).value.units) == text
  }

  lemma SaysReads(j: Json, name: string, text: string)
    ensures StringAt(j, [name]) == Some(text) <==> Says(j, name, text)
  {
    if Get(j, name).Some? { assert [name][1..] == []; assert At(Get(j, name).value, []) == Some(Get(j, name).value); }
  }

  /** The event's index: an unsigned 64-bit number. */
  predicate Indexes(body: Json, i: nat) {
    Get(body, "index").Some? && Get(body, "index").value.Prim? && Digits1(Get(body, "index").value.raw)
    && ValueOf(Get(body, "index").value.raw) == i && i < 0x1_0000_0000_0000_0000
  }

  lemma IndexReads(body: Json, i: nat)
    ensures UnsignedAt(body, "index") == Some(i) <==> Indexes(body, i)
  {
    hide Get, ValueOf, AllDigits;
  }

  predicate Brings(delta: Json, kind: string, field: string, units: seq<Unit>) {
    Says(delta, "type", kind) && Get(delta, field) == Some(Str(units))
  }

  /** What each event means: the type decides, and a delta goes to the field of its own kind. */
  predicate Means(body: Json, e: WireEvent) {
    match e
    case MessageStart(message) => Says(body, "type", "message_start") && message == Get(body, "message")
    case BlockStart(i, block) => Says(body, "type", "content_block_start") && Indexes(body, i) && Get(body, "content_block") == Some(block)
    case TextDelta(i, field, units) =>
      && Says(body, "type", "content_block_delta") && Indexes(body, i) && Get(body, "delta").Some?
      && var delta := Get(body, "delta").value;
      && (|| (field == "text" && Brings(delta, "text_delta", "text", units))
          || (field == "thinking" && Brings(delta, "thinking_delta", "thinking", units))
          || (field == "signature" && Brings(delta, "signature_delta", "signature", units)))
    case Fragment(i, units) =>
      && Says(body, "type", "content_block_delta") && Indexes(body, i) && Get(body, "delta").Some?
      && Brings(Get(body, "delta").value, "input_json_delta", "partial_json", units)
    case CitationDelta(i, citation) =>
      && Says(body, "type", "content_block_delta") && Indexes(body, i) && Get(body, "delta").Some?
      && Says(Get(body, "delta").value, "type", "citations_delta") && Get(Get(body, "delta").value, "citation") == Some(citation)
    case BlockStop(i) => Says(body, "type", "content_block_stop") && Indexes(body, i)
    case MessageDelta(reason, usage) =>
      && Says(body, "type", "message_delta") && usage == Get(body, "usage")
      && reason == if Get(body, "delta").Some? then Get(Get(body, "delta").value, "stop_reason") else None
    case MessageStop => Says(body, "type", "message_stop")
    case _ => false
  }

  lemma UnitsRead(j: Json, name: string, units: seq<Unit>)
    ensures UnitsAt(j, [name]) == Some(units) <==> Get(j, name) == Some(Str(units))
  {
    if Get(j, name).Some? { assert [name][1..] == []; assert At(Get(j, name).value, []) == Some(Get(j, name).value); }
  }

  lemma DeltaReads(i: nat, delta: Json, e: WireEvent)
    ensures ReadDelta(i, delta) == e && !e.Malformed? <==>
              || (e.TextDelta? && e.index == i
                  && (|| (e.field == "text" && Brings(delta, "text_delta", "text", e.units))
                      || (e.field == "thinking" && Brings(delta, "thinking_delta", "thinking", e.units))
                      || (e.field == "signature" && Brings(delta, "signature_delta", "signature", e.units))))
              || (e.Fragment? && e.index == i && Brings(delta, "input_json_delta", "partial_json", e.units))
              || (e.CitationDelta? && e.index == i && Says(delta, "type", "citations_delta") && Get(delta, "citation") == Some(e.citation))
  {
    hide Get, StringAt, UnitsAt, Says;
    NamesApart();
    KindsApart();
    SaysReads(delta, "type", "text_delta");
    SaysReads(delta, "type", "thinking_delta");
    SaysReads(delta, "type", "signature_delta");
    SaysReads(delta, "type", "input_json_delta");
    SaysReads(delta, "type", "citations_delta");
    match e
    case TextDelta(_, _, units) =>
      UnitsRead(delta, "text", units);
      UnitsRead(delta, "thinking", units);
      UnitsRead(delta, "signature", units);
    case Fragment(_, units) => UnitsRead(delta, "partial_json", units);
    case _ =>
  }

  lemma KindsApart()
    ensures "text_delta" != "thinking_delta" && "text_delta" != "signature_delta" && "text_delta" != "input_json_delta" && "text_delta" != "citations_delta"
    ensures "thinking_delta" != "signature_delta" && "thinking_delta" != "input_json_delta" && "thinking_delta" != "citations_delta"
    ensures "signature_delta" != "input_json_delta" && "signature_delta" != "citations_delta" && "input_json_delta" != "citations_delta"
    ensures "partial_json" != "text" && "partial_json" != "thinking" && "partial_json" != "signature"
    ensures "text" != "" && "thinking" != "" && "signature" != "" && "partial_json" != ""
  {
    assert "text_delta"[1] == 'e' && "thinking_delta"[1] == 'h' && "signature_delta"[0] == 's' && "input_json_delta"[1] == 'n' && "citations_delta"[0] == 'c';
    assert |"partial_json"| == 12 && |"text"| == 4 && |"thinking"| == 8 && |"signature"| == 9;
  }

  lemma TypesApart()
    ensures "message_start" != "content_block_start" && "message_start" != "content_block_delta" && "message_start" != "content_block_stop"
    ensures "message_start" != "message_delta" && "message_start" != "message_stop" && "message_delta" != "message_stop"
    ensures "content_block_start" != "content_block_delta" && "content_block_start" != "content_block_stop" && "content_block_delta" != "content_block_stop"
    ensures "message_delta" != "content_block_start" && "message_delta" != "content_block_delta" && "message_delta" != "content_block_stop"
    ensures "message_stop" != "content_block_start" && "message_stop" != "content_block_delta" && "message_stop" != "content_block_stop"
  {
    assert "message_start"[8] == 's' && "message_delta"[8] == 'd' && |"message_start"| == 13 && |"message_stop"| == 12 && |"message_delta"| == 13;
    assert "content_block_start"[14] == 's' && "content_block_delta"[14] == 'd' && |"content_block_start"| == 19 && |"content_block_delta"| == 19 && |"content_block_stop"| == 18;
  }

  /** An event body means what its type, its index and its fields say. */
  lemma ThreadReads(body: Json, e: WireEvent)
    ensures ReadThread(body) == e && !e.Malformed? && !e.Ignored? <==> Means(body, e)
  {
    hide Get, StringAt, UnitsAt, Says, At, UnsignedAt, Indexes, ReadDelta;
    TypesApart();
    SaysReads(body, "type", "message_start");
    SaysReads(body, "type", "content_block_start");
    SaysReads(body, "type", "content_block_delta");
    SaysReads(body, "type", "content_block_stop");
    SaysReads(body, "type", "message_delta");
    SaysReads(body, "type", "message_stop");
    ReasonReads(body);
    var delta := Get(body, "delta");
    DeltaKinds();
    match e
    case BlockStart(i, _) => IndexReads(body, i);
    case BlockStop(i) => IndexReads(body, i);
    case TextDelta(i, _, _) => IndexReads(body, i); if delta.Some? { DeltaReads(i, delta.value, e); }
    case Fragment(i, _) => IndexReads(body, i); if delta.Some? { DeltaReads(i, delta.value, e); }
    case CitationDelta(i, _) => IndexReads(body, i); if delta.Some? { DeltaReads(i, delta.value, e); }
    case _ =>
  }

  lemma ReasonReads(body: Json)
    ensures At(body, ["delta", "stop_reason"]) == if Get(body, "delta").Some? then Get(Get(body, "delta").value, "stop_reason") else None
  {
    hide Find, Encode;
    assert ["delta", "stop_reason"][1..] == ["stop_reason"];
    if Get(body, "delta").Some? {
      var d := Get(body, "delta").value;
      assert ["stop_reason"][1..] == [];
      if Get(d, "stop_reason").Some? { assert At(Get(d, "stop_reason").value, []) == Get(d, "stop_reason"); }
    }
  }

  /** A delta reads as a delta, of the event's own index, or as nothing that can be read. */
  lemma DeltaKinds()
    ensures forall i: nat, delta ::
              var r := ReadDelta(i, delta); r.Malformed? || ((r.TextDelta? || r.Fragment? || r.CitationDelta?) && r.index == i)
  {
    hide Get, StringAt, UnitsAt;
  }

  /** An event stops the observation exactly when it is a delta or a stop that cannot be read. */
  lemma MalformedIff(body: Json)
    ensures ReadThread(body) == Malformed <==>
              || (Says(body, "type", "content_block_stop") && UnsignedAt(body, "index").None?)
              || (Says(body, "type", "content_block_delta") && forall e: WireEvent :: !Means(body, e))
  {
    hide Get, StringAt, UnitsAt, Says, At, UnsignedAt, Means, ReadDelta;
    TypesApart();
    SaysReads(body, "type", "message_start");
    SaysReads(body, "type", "content_block_start");
    SaysReads(body, "type", "content_block_delta");
    SaysReads(body, "type", "content_block_stop");
    SaysReads(body, "type", "message_delta");
    SaysReads(body, "type", "message_stop");
    DeltaKinds();
    forall e ensures ReadThread(body) == e && !e.Malformed? && !e.Ignored? <==> Means(body, e) { ThreadReads(body, e); }
    var r := ReadThread(body);
    if !r.Malformed? && !r.Ignored? { assert Means(body, r); }
  }

  /** Of the other capabilities the completed body is read, and nothing else. */
  lemma CompletedReads(c: C.Capability, body: Json, e: WireEvent)
    requires c != C.AnthropicThread
    ensures ReadEvent(c, body) == e && e != Ignored <==>
              || (c == C.Responses && Says(body, "type", "response.completed") && e == Completed(Get(body, "response")))
              || (c == C.GeminiInteraction && Says(body, "event_type", "interaction.completed") && e == Completed(Get(body, "interaction")))
  {
    SaysReads(body, "type", "response.completed");
    SaysReads(body, "event_type", "interaction.completed");
    hide Get, StringAt, Says;
  }
}
