/** Assembly of an observed thread message. */
module WireAssembly {
  // What the observer of a streamed response assembles: an Anthropic message block by block, for a
  // thread, and the completed body of the other capabilities.

  import opened Utf16
  import opened Sequences
  import opened JsonValue
  import opened JsonGrammar
  import opened DecimalText
  import opened Payload
  import C = Conversation

  datatype WireEvent =
    | MessageStart(message: Option<Json>)
    | BlockStart(index: nat, block: Json)
    | TextDelta(index: nat, field: string, units: seq<Unit>)
    | Fragment(index: nat, units: seq<Unit>)
    | CitationDelta(index: nat, citation: Json)
    | BlockStop(index: nat)
    | MessageDelta(reason: Option<Json>, usage: Option<Json>)
    | MessageStop
    | Completed(body: Option<Json>)
    | Ignored
    | Malformed

  predicate TextField(name: string) { name == "text" || name == "thinking" || name == "signature" }

  // ----- reading an event -----

  const U64: nat := 0x1_0000_0000_0000_0000

  /** `unsigned_integer_at` */
  function UnsignedAt(body: Json, name: string): Option<nat> {
    var v :- Get(body, name);
    if v.Prim? && Digits1(v.raw) && ValueOf(v.raw) < U64 then Some(ValueOf(v.raw)) else None
  }

  function ReadDelta(index: nat, delta: Json): WireEvent {
    var kind := StringAt(delta, ["type"]);
    if kind == Some("citations_delta") then
      if Get(delta, "citation").Some? then CitationDelta(index, Get(delta, "citation").value) else Malformed
    else
      var field := if kind == Some("text_delta") then "text"
                   else if kind == Some("thinking_delta") then "thinking"
                   else if kind == Some("signature_delta") then "signature"
                   else if kind == Some("input_json_delta") then "partial_json" else "";
      var units := if field == "" then None else UnitsAt(delta, [field]);
      if units.None? then Malformed
      else if field == "partial_json" then Fragment(index, units.value)
      else TextDelta(index, field, units.value)
  }

  function ReadThread(body: Json): WireEvent {
    var kind, index := StringAt(body, ["type"]), UnsignedAt(body, "index");
    if kind == Some("message_start") then MessageStart(Get(body, "message"))
    else if kind == Some("content_block_start") then
      if index.Some? && Get(body, "content_block").Some? then BlockStart(index.value, Get(body, "content_block").value) else Ignored
    else if kind == Some("content_block_delta") then
      if index.Some? && Get(body, "delta").Some? then ReadDelta(index.value, Get(body, "delta").value) else Malformed
    else if kind == Some("content_block_stop") then if index.Some? then BlockStop(index.value) else Malformed
    else if kind == Some("message_delta") then MessageDelta(At(body, ["delta", "stop_reason"]), Get(body, "usage"))
    else if kind == Some("message_stop") then MessageStop
    else Ignored
  }

  /** What an event means to the observer of each capability. */
  function ReadEvent(c: C.Capability, body: Json): WireEvent {
    match c
    case Responses => if StringAt(body, ["type"]) == Some("response.completed") then Completed(Get(body, "response")) else Ignored
    case GeminiInteraction => if StringAt(body, ["event_type"]) == Some("interaction.completed") then Completed(Get(body, "interaction")) else Ignored
    case AnthropicThread => ReadThread(body)
    case Unsupported => Ignored
  }

  // ----- one event -----

  datatype Wire = Wire(blocks: map<nat, Json>, partial: map<nat, seq<Unit>>, message: Option<Json>, candidate: Option<Json>, invalid: bool)

  function OrEmpty(units: Option<seq<Unit>>): seq<Unit> { if units.Some? then units.value else [] }

  function Extended(block: Json, field: string, units: seq<Unit>): Option<Json> {
    Replace(block, field, Some(Str(OrEmpty(UnitsAt(block, [field])) + units)))
  }

  function Cited(block: Json, citation: Json): Option<Json> {
    var held := ItemsAt(block, ["citations"]);
    Replace(block, "citations", Some(Arr((if held.Some? then held.value else []) + [citation])))
  }

  function Lookup<T>(m: map<nat, T>, k: nat): Option<T> { if k in m then Some(m[k]) else None }

  function SetOptional(j: Json, name: string, value: Option<Json>): Option<Json> {
    if value.None? then Some(j) else Replace(j, name, value)
  }

  function Picked(m: map<nat, Json>, keys: seq<nat>): (r: seq<Json>)
    requires forall k :: 0 <= k < |keys| ==> keys[k] in m
    ensures |r| == |keys|
  {
    seq(|keys|, i requires 0 <= i < |keys| => m[keys[i]])
  }

  /** `blocks.values()` */
  function InOrder(m: map<nat, Json>): seq<Json> {
    AscendingKeys(m.Keys);
    Picked(m, Ascending(m.Keys))
  }

  /** `observe_wire`; a failure is an error the caller turns into invalidity. `parse` reads tool JSON. */
  function Step(parse: seq<Unit> -> Option<Json>, w: Wire, e: WireEvent): Option<Wire> {
    match e
    case MessageStart(message) => Some(w.(message := message))
    case BlockStart(i, block) => Some(w.(blocks := w.blocks[i := block]))
    case TextDelta(i, field, units) =>
      var block :- Lookup(w.blocks, i);
      var next :- Extended(block, field, units);
      Some(w.(blocks := w.blocks[i := next]))
    case Fragment(i, units) => Some(w.(partial := w.partial[i := OrEmpty(Lookup(w.partial, i)) + units]))
    case CitationDelta(i, citation) =>
      var block :- Lookup(w.blocks, i);
      var next :- Cited(block, citation);
      Some(w.(blocks := w.blocks[i := next]))
    case BlockStop(i) =>
      if i !in w.partial then Some(w)
      else
        var input :- parse(w.partial[i]);
        var block :- Lookup(w.blocks, i);
        var next :- Replace(block, "input", Some(input));
        Some(w.(blocks := w.blocks[i := next], partial := w.partial - {i}))
    case MessageDelta(reason, usage) =>
      if w.message.None? then Some(w)
      else
        var reasoned :- SetOptional(w.message.value, "stop_reason", reason);
        var used :- SetOptional(reasoned, "usage", usage);
        Some(w.(message := Some(used)))
    case MessageStop =>
      if w.partial != map[] then None
      else if w.message.None? then Some(w)
      else
        var candidate :- Replace(w.message.value, "content", Some(Arr(InOrder(w.blocks))));
        Some(w.(candidate := Some(candidate)))
    case Completed(body) => Some(w.(candidate := body))
    case Ignored => Some(w)
    case Malformed => None
  }

  function Next(parse: seq<Unit> -> Option<Json>, w: Wire, e: WireEvent): Wire {
    if w.invalid then w
    else
      var r := Step(parse, w, e);
      if r.Some? then r.value else w.(invalid := true)
  }

  function Empty(): Wire { Wire(map[], map[], None, None, false) }

  function After(parse: seq<Unit> -> Option<Json>, events: seq<WireEvent>): Wire {
    if events == [] then Empty() else Next(parse, After(parse, events[..|events| - 1]), events[|events| - 1])
  }

  /** The state behind an event that fails. */
  function Refused(w: Wire, e: WireEvent): Wire { if e.BlockStop? then w.(partial := w.partial - {e.index}) else w }

  lemma ReplaceAgain(j: Json, name: string, value: Option<Json>, other: string, next: Option<Json>)
    ensures Replace(j, name, value).Some? ==> Replace(Replace(j, name, value).value, other, next).Some?
  {
    hide Drop, Encode;
  }

  /** What the observer may commit at the end of the stream. */
  function Offered(w: Wire): Option<Json> { if w.invalid then None else w.candidate }

  // ----- the observer's state, updated in place -----

  /** One frame of a chunk: the end marker, something that is no JSON, or an event body. */
  datatype Frame = Done | Garbled | Event(body: Json)

  function NextFrame(c: C.Capability, parse: seq<Unit> -> Option<Json>, w: Wire, f: Frame): Wire {
    match f
    case Done => w
    case Garbled => w.(invalid := true)
    case Event(body) => Next(parse, w, ReadEvent(c, body))
  }

  function Frames(c: C.Capability, parse: seq<Unit> -> Option<Json>, w: Wire, frames: seq<Frame>): Wire
    decreases |frames|
  {
    if frames == [] then w else Frames(c, parse, NextFrame(c, parse, w, frames[0]), frames[1..])
  }

  class WireObservation {
    var blocks: map<nat, Json>
    var partial: map<nat, seq<Unit>>
    var message: Option<Json>
    var candidate: Option<Json>
    var invalid: bool

    function View(): Wire
      reads this
    {
      Wire(blocks, partial, message, candidate, invalid)
    }

    constructor ()
      ensures View() == Empty()
    {
      blocks, partial, message, candidate, invalid := map[], map[], None, None, false;
    }

    /** `observe_wire`: a failure has already taken the fragments of the block it stops, and changes nothing else. */
    method ObserveWire(c: C.Capability, parse: seq<Unit> -> Option<Json>, body: Json) returns (ok: bool)
      modifies this
      ensures ok == Step(parse, old(View()), ReadEvent(c, body)).Some?
      ensures ok ==> View() == Step(parse, old(View()), ReadEvent(c, body)).value
      ensures !ok ==> View() == Refused(old(View()), ReadEvent(c, body))
      ensures invalid == old(invalid)
    {
      hide ReadEvent, Replace, InOrder, UnitsAt, ItemsAt;
      match ReadEvent(c, body) {
      case MessageStart(m) => message := m;
      case BlockStart(i, block) => blocks := blocks[i := block];
      case TextDelta(i, field, units) =>
        if i !in blocks {
          return false;
        }
        var r := Extended(blocks[i], field, units);
        if r.None? {
          return false;
        }
        blocks := blocks[i := r.value];
      case Fragment(i, units) =>
        if i !in partial {
          partial := partial[i := []];
        }
        partial := partial[i := partial[i] + units];
      case CitationDelta(i, citation) =>
        if i !in blocks {
          return false;
        }
        var r := Cited(blocks[i], citation);
        if r.None? {
          return false;
        }
        blocks := blocks[i := r.value];
      case BlockStop(i) =>
        if i in partial {
          var units := partial[i];
          partial := partial - {i};
          var input := parse(units);
          if input.None? || i !in blocks {
            return false;
          }
          var r := Replace(blocks[i], "input", input);
          if r.None? {
            return false;
          }
          blocks := blocks[i := r.value];
        }
      case MessageDelta(reason, usage) =>
        if message.Some? {
          if reason.Some? {
            var r := Replace(message.value, "stop_reason", reason);
            if r.None? {
              return false;
            }
            ReplaceAgain(message.value, "stop_reason", reason, "usage", usage);
            message := r;
          }
          if usage.Some? {
            var r := Replace(message.value, "usage", usage);
            if r.None? {
              return false;
            }
            message := r;
          }
        }
      case MessageStop =>
        if partial != map[] {
          return false;
        }
        if message.Some? {
          var r := Replace(message.value, "content", Some(Arr(InOrder(blocks))));
          if r.None? {
            return false;
          }
          candidate := r;
        }
      case Completed(body) => candidate := body;
      case Ignored =>
      case Malformed => return false;
      }
      ok := true;
    }

    /** `bytes`: a chunk's frames, none if it could not be split; once invalid, always invalid. */
    method Bytes(c: C.Capability, parse: seq<Unit> -> Option<Json>, chunk: Option<seq<Frame>>)
      modifies this
      ensures chunk.None? ==> invalid
      ensures chunk.Some? ==>
                var w := Frames(c, parse, old(View()), chunk.value);
                Offered(View()) == Offered(w) && invalid == w.invalid && (!invalid ==> View() == w)
    {
      hide Step, ReadEvent, Refused;
      if invalid {
        if chunk.Some? { InvalidFrames(c, parse, View(), chunk.value); }
        return;
      }
      if chunk.None? {
        invalid := true;
        return;
      }
      var frames, i := chunk.value, 0;
      ghost var w := View();
      assert frames[0..] == frames;
      while i < |frames|
        invariant i <= |frames|
        invariant Frames(c, parse, w, frames[i..]) == Frames(c, parse, old(View()), frames)
        invariant invalid == w.invalid && (!invalid ==> View() == w)
      {
        assert frames[i..][0] == frames[i] && frames[i..][1..] == frames[i + 1..];
        w := NextFrame(c, parse, w, frames[i]);
        match frames[i] {
        case Done =>
        case Garbled => invalid := true;
        case Event(body) =>
          ghost var before := View();
          var ok := ObserveWire(c, parse, body);
          if !ok {
            invalid := true;
          } else if !before.invalid {
            StepKeepsValid(parse, before, ReadEvent(c, body));
          }
        }
        i := i + 1;
      }
      assert frames[i..] == [];
    }
  }

  lemma {:induction false} InvalidFrames(c: C.Capability, parse: seq<Unit> -> Option<Json>, w: Wire, frames: seq<Frame>)
    requires w.invalid
    ensures Frames(c, parse, w, frames) == w
    decreases |frames|
  {
    if frames != [] { InvalidFrames(c, parse, w, frames[1..]); }
  }

  function ReadFrame(c: C.Capability, f: Frame): WireEvent {
    match f
    case Done => Ignored
    case Garbled => Malformed
    case Event(body) => ReadEvent(c, body)
  }

  function ReadFrames(c: C.Capability, frames: seq<Frame>): (r: seq<WireEvent>)
    ensures |r| == |frames|
  {
    seq(|frames|, k requires 0 <= k < |frames| => ReadFrame(c, frames[k]))
  }

  /** The frames of any run of chunks fold to what their events fold to, and name only known text fields. */
  lemma {:induction false} FramesAreEvents(c: C.Capability, parse: seq<Unit> -> Option<Json>, events: seq<WireEvent>, frames: seq<Frame>)
    ensures Frames(c, parse, After(parse, events), frames) == After(parse, events + ReadFrames(c, frames))
    ensures Readable(ReadFrames(c, frames))
    decreases |frames|
  {
    hide ReadEvent, Step, TextField;
    forall k | 0 <= k < |frames| && frames[k].Event? ensures ReadFrame(c, frames[k]).TextDelta? ==> TextField(ReadFrame(c, frames[k]).field) {
      ReadsTextFields(c, frames[k].body);
    }
    if frames == [] {
      assert events + ReadFrames(c, frames) == events;
    } else {
      var more := events + [ReadFrame(c, frames[0])];
      assert more[..|events|] == events;
      FrameIsEvent(c, parse, After(parse, events), frames[0]);
      FramesAreEvents(c, parse, more, frames[1..]);
      assert events + ReadFrames(c, frames) == more + ReadFrames(c, frames[1..]);
    }
  }

  lemma FrameIsEvent(c: C.Capability, parse: seq<Unit> -> Option<Json>, w: Wire, f: Frame)
    ensures NextFrame(c, parse, w, f) == Next(parse, w, ReadFrame(c, f))
  {
    hide ReadEvent;
  }

  // ----- what the events say, block by block -----

  /** The last start of a block. */
  function StartBlock(events: seq<WireEvent>, i: nat): Option<Json> {
    if events == [] then None
    else
      var e := events[|events| - 1];
      if e.BlockStart? && e.index == i then Some(e.block) else StartBlock(events[..|events| - 1], i)
  }

  /** All deltas of one field since the last start of the block, run together; none if there was none. */
  function Deltas(events: seq<WireEvent>, i: nat, field: string): Option<seq<Unit>> {
    if events == [] then None
    else
      var e, before := events[|events| - 1], events[..|events| - 1];
      if e.BlockStart? && e.index == i then None
      else if e.TextDelta? && e.index == i && e.field == field then Some(OrEmpty(Deltas(before, i, field)) + e.units)
      else Deltas(before, i, field)
  }

  /** All tool JSON since the last stop of the block, run together. */
  function Fragments(events: seq<WireEvent>, i: nat): Option<seq<Unit>> {
    if events == [] then None
    else
      var e, before := events[|events| - 1], events[..|events| - 1];
      if e.BlockStop? && e.index == i then None
      else if e.Fragment? && e.index == i then Some(OrEmpty(Fragments(before, i)) + e.units)
      else Fragments(before, i)
  }

  /** The start value followed by the deltas. */
  function Expected(events: seq<WireEvent>, i: nat, field: string): Option<seq<Unit>>
    requires StartBlock(events, i).Some?
  {
    var start := UnitsAt(StartBlock(events, i).value, [field]);
    if Deltas(events, i, field).None? then start else Some(OrEmpty(start) + Deltas(events, i, field).value)
  }

  /** The tool input: the last complete JSON, or what the block started with. */
  function ExpectedInput(parse: seq<Unit> -> Option<Json>, events: seq<WireEvent>, i: nat): Option<Json> {
    if events == [] then None
    else
      var e, before := events[|events| - 1], events[..|events| - 1];
      if e.BlockStart? && e.index == i then Get(e.block, "input")
      else if e.BlockStop? && e.index == i && Fragments(before, i).Some? then parse(Fragments(before, i).value)
      else ExpectedInput(parse, before, i)
  }

  ghost predicate BlockAsExpected(parse: seq<Unit> -> Option<Json>, events: seq<WireEvent>, w: Wire, i: nat) {
    && (i in w.blocks <==> StartBlock(events, i).Some?)
    && Lookup(w.partial, i) == Fragments(events, i)
    && (i in w.blocks ==>
          && Get(w.blocks[i], "input") == ExpectedInput(parse, events, i)
          && forall field :: TextField(field) ==> UnitsAt(w.blocks[i], [field]) == Expected(events, i, field))
  }

  lemma UnitsAtName(j: Json, name: string)
    ensures UnitsAt(j, [name]) == (if Get(j, name).Some? && Get(j, name).value.Str? then Some(Get(j, name).value.units) else None)
  {
    if Get(j, name).Some? { assert [name][1..] == []; assert At(Get(j, name).value, []) == Some(Get(j, name).value); }
  }

  /** An edit of one field leaves the units of the others alone. */
  lemma ReplaceUnits(j: Json, name: string, value: Json, other: string)
    requires j.Obj?
    ensures var r := Replace(j, name, Some(value)).value;
            UnitsAt(r, [other]) == if other != name then UnitsAt(j, [other]) else if value.Str? then Some(value.units) else None
  {
    hide Get, Replace;
    GetReplace(j, name, Some(value), other);
    UnitsAtName(j, other);
    UnitsAtName(Replace(j, name, Some(value)).value, other);
  }

  lemma FieldNames()
    ensures !TextField("citations") && !TextField("input") && !TextField("partial_json")
  {
    assert |"citations"| == 9 && |"text"| == 4 && |"thinking"| == 8 && |"signature"| == 9 && "citations"[0] == 'c' && "signature"[0] == 's';
  }

  lemma EditedBlock(block: Json, name: string, value: Json)
    requires Replace(block, name, Some(value)).Some?
    ensures var r := Replace(block, name, Some(value)).value;
            && (forall field :: field != name ==> UnitsAt(r, [field]) == UnitsAt(block, [field]))
            && (value.Str? ==> UnitsAt(r, [name]) == Some(value.units))
            && (name != "input" ==> Get(r, "input") == Get(block, "input"))
            && (name == "input" ==> Get(r, "input") == Some(value))
  {
    forall field ensures field != name ==> UnitsAt(Replace(block, name, Some(value)).value, [field]) == UnitsAt(block, [field]) {
      ReplaceUnits(block, name, value, field);
    }
    ReplaceUnits(block, name, value, name);
    GetReplace(block, name, Some(value), "input");
  }

  predicate Names(e: WireEvent, i: nat) {
    (e.BlockStart? || e.TextDelta? || e.Fragment? || e.CitationDelta? || e.BlockStop?) && e.index == i
  }

  /** An event that does not name a block leaves it, and what is expected of it, alone. */
  lemma OtherEvent(parse: seq<Unit> -> Option<Json>, events: seq<WireEvent>, w: Wire, e: WireEvent, w': Wire, i: nat)
    requires !Names(e, i) && Step(parse, w, e) == Some(w')
    ensures Lookup(w'.blocks, i) == Lookup(w.blocks, i) && Lookup(w'.partial, i) == Lookup(w.partial, i)
    ensures StartBlock(events + [e], i) == StartBlock(events, i) && Fragments(events + [e], i) == Fragments(events, i)
    ensures ExpectedInput(parse, events + [e], i) == ExpectedInput(parse, events, i)
    ensures forall field :: Deltas(events + [e], i, field) == Deltas(events, i, field)
  {
    hide Extended, Cited, Replace, InOrder, SetOptional;
    Last(events, e);
  }

  lemma Last(events: seq<WireEvent>, e: WireEvent)
    ensures var all := events + [e]; all[..|all| - 1] == events && all[|all| - 1] == e
  {
  }

  /** What an event that names a block does to it. */
  lemma OwnEvent(parse: seq<Unit> -> Option<Json>, events: seq<WireEvent>, w: Wire, e: WireEvent, w': Wire, i: nat)
    requires Names(e, i) && Step(parse, w, e) == Some(w') && BlockAsExpected(parse, events, w, i) && (e.TextDelta? ==> TextField(e.field))
    ensures BlockAsExpected(parse, events + [e], w', i)
  {
    Last(events, e);
    FieldNames();
    hide Get, UnitsAt, Replace, TextField, ItemsAt;
    match e
    case TextDelta(_, field, units) =>
      EditedBlock(w.blocks[i], field, Str(OrEmpty(UnitsAt(w.blocks[i], [field])) + units));
      TextNotInput(field);
      Regroup(OrEmpty(UnitsAt(StartBlock(events, i).value, [field])), OrEmpty(Deltas(events, i, field)), units);
      assert [] + units == units;
    case CitationDelta(_, citation) =>
      var held := ItemsAt(w.blocks[i], ["citations"]);
      EditedBlock(w.blocks[i], "citations", Arr((if held.Some? then held.value else []) + [citation]));
      assert |"citations"| != |"input"|;
    case BlockStop(_) =>
      if i in w.partial { EditedBlock(w.blocks[i], "input", parse(w.partial[i]).value); }
    case BlockStart(_, _) =>
    case Fragment(_, _) =>
  }

  lemma StepAsExpected(parse: seq<Unit> -> Option<Json>, events: seq<WireEvent>, w: Wire, e: WireEvent, w': Wire, i: nat)
    requires BlockAsExpected(parse, events, w, i) && Step(parse, w, e) == Some(w') && (e.TextDelta? ==> TextField(e.field))
    ensures BlockAsExpected(parse, events + [e], w', i)
  {
    if Names(e, i) {
      OwnEvent(parse, events, w, e, w', i);
    } else {
      OtherEvent(parse, events, w, e, w', i);
      hide Get, UnitsAt, TextField, Step, StartBlock, Fragments, ExpectedInput, Deltas;
    }
  }

  lemma TextNotInput(field: string)
    requires TextField(field)
    ensures field != "input"
  {
  }

  ghost predicate Readable(events: seq<WireEvent>) {
    forall k :: 0 <= k < |events| && events[k].TextDelta? ==> TextField(events[k].field)
  }

  /** Every event read from a frame names only known text fields. */
  lemma ReadsTextFields(c: C.Capability, body: Json)
    ensures ReadEvent(c, body).TextDelta? ==> TextField(ReadEvent(c, body).field)
  {
    hide StringAt, UnitsAt, UnsignedAt, Get, At;
  }

  lemma {:induction false} AlwaysAsExpected(parse: seq<Unit> -> Option<Json>, events: seq<WireEvent>, i: nat)
    requires Readable(events)
    ensures !After(parse, events).invalid ==> BlockAsExpected(parse, events, After(parse, events), i)
    decreases |events|
  {
    if events != [] {
      hide BlockAsExpected, Step, TextField;
      var before, e := events[..|events| - 1], events[|events| - 1];
      AlwaysAsExpected(parse, before, i);
      assert events == before + [e];
      if !After(parse, events).invalid {
        StepKeepsValid(parse, After(parse, before), e);
        StepAsExpected(parse, before, After(parse, before), e, After(parse, events), i);
      }
    }
  }

  lemma StepKeepsValid(parse: seq<Unit> -> Option<Json>, w: Wire, e: WireEvent)
    requires !w.invalid && Step(parse, w, e).Some?
    ensures !Step(parse, w, e).value.invalid
  {
    hide Replace, InOrder, SetOptional, Extended, Cited;
  }

  ghost predicate ContentAt(parse: seq<Unit> -> Option<Json>, events: seq<WireEvent>, i: nat, content: Json) {
    && StartBlock(events, i).Some?
    && Get(content, "input") == ExpectedInput(parse, events, i)
    && forall field :: TextField(field) ==> UnitsAt(content, [field]) == Expected(events, i, field)
  }

  lemma StopOffers(parse: seq<Unit> -> Option<Json>, events: seq<WireEvent>)
    requires events != [] && events[|events| - 1] == MessageStop
    requires !After(parse, events).invalid && After(parse, events).message.Some?
    ensures var w := After(parse, events);
            Offered(w).Some? && Get(Offered(w).value, "content") == Some(Arr(InOrder(w.blocks)))
  {
    var w, prior := After(parse, events), After(parse, events[..|events| - 1]);
    assert Step(parse, prior, MessageStop) == Some(w);
    hide Get, InOrder;
    assert prior.message.Some? && prior.message.value.Obj?;
    GetReplace(prior.message.value, "content", Some(Arr(InOrder(prior.blocks))), "content");
  }

  /** When a stream ends in a message stop, the candidate's content is the started blocks by ascending
      index, each text, thinking and signature field its start value followed by all its deltas, each
      tool input the whole of its fragments. */
  lemma CandidateAssembles(parse: seq<Unit> -> Option<Json>, events: seq<WireEvent>)
    requires Readable(events) && events != [] && events[|events| - 1] == MessageStop
    requires !After(parse, events).invalid && After(parse, events).message.Some?
    ensures var w := After(parse, events);
            var keys := Ascending(w.blocks.Keys);
            && Offered(w).Some? && Get(Offered(w).value, "content").Some? && Get(Offered(w).value, "content").value.Arr?
            && var content := Get(Offered(w).value, "content").value.items;
            && |content| == |keys|
            && (forall i, j :: 0 <= i < j < |keys| ==> keys[i] < keys[j])
            && (forall i: nat :: i in keys <==> StartBlock(events, i).Some?)
            && forall k :: 0 <= k < |keys| ==> ContentAt(parse, events, keys[k], content[k])
  {
    var w := After(parse, events);
    StopOffers(parse, events);
    var keys := Ascending(w.blocks.Keys);
    AscendingKeys(w.blocks.Keys);
    forall i: nat ensures i in keys <==> StartBlock(events, i).Some? { AlwaysAsExpected(parse, events, i); }
    forall k | 0 <= k < |keys| ensures ContentAt(parse, events, keys[k], InOrder(w.blocks)[k]) {
      assert keys[k] in keys;
      hide Get, UnitsAt, TextField, StartBlock, Expected, ExpectedInput, Fragments, Ascending, After;
      AlwaysAsExpected(parse, events, keys[k]);
    }
  }

  // ----- cutting a delta -----

  lemma {:induction false} DropConcat(fields: seq<Field>, more: seq<Field>, key: seq<Unit>)
    ensures Drop(fields + more, key) == Drop(fields, key) + Drop(more, key)
    decreases |fields|
  {
    if fields == [] {
      assert fields + more == more;
    } else {
      DropConcat(fields[1..], more, key);
      assert (fields + more)[1..] == fields[1..] + more;
      Regroup(if fields[0].key == key then [] else [fields[0]], Drop(fields[1..], key), Drop(more, key));
    }
  }

  lemma {:induction false} DropTwice(fields: seq<Field>, key: seq<Unit>)
    ensures Drop(Drop(fields, key), key) == Drop(fields, key)
    decreases |fields|
  {
    if fields != [] {
      DropTwice(fields[1..], key);
      DropConcat(if fields[0].key == key then [] else [fields[0]], Drop(fields[1..], key), key);
      assert [fields[0]][1..] == [];
    }
  }

  /** Replacing a field twice is replacing it once. */
  lemma ReplaceTwice(j: Json, name: string, a: Json, b: Json)
    requires j.Obj?
    ensures Replace(Replace(j, name, Some(a)).value, name, Some(b)) == Replace(j, name, Some(b))
  {
    var key := Encode(name);
    DropConcat(Drop(j.fields, key), [Field(key, a)], key);
    DropTwice(j.fields, key);
    assert [Field(key, a)][1..] == [] && Drop(j.fields, key) + [] == Drop(j.fields, key);
  }

  /** A delta cut in two consecutive pieces has the same effect as the whole. */
  lemma CutDelta(parse: seq<Unit> -> Option<Json>, w: Wire, i: nat, field: string, u: seq<Unit>, v: seq<Unit>)
    requires !w.invalid
    ensures Next(parse, Next(parse, w, TextDelta(i, field, u)), TextDelta(i, field, v)) == Next(parse, w, TextDelta(i, field, u + v))
  {
    if i in w.blocks && w.blocks[i].Obj? {
      var block := w.blocks[i];
      var held := OrEmpty(UnitsAt(block, [field]));
      ReplaceUnits(block, field, Str(held + u), field);
      ReplaceTwice(block, field, Str(held + u), Str(held + u + v));
      hide UnitsAt, Replace;
      assert held + u + v == held + (u + v);
      var next := Replace(block, field, Some(Str(held + u))).value;
      assert w.blocks[i := next][i := Replace(block, field, Some(Str(held + u + v))).value]
          == w.blocks[i := Replace(block, field, Some(Str(held + u + v))).value];
    }
  }

  lemma CutFragment(parse: seq<Unit> -> Option<Json>, w: Wire, i: nat, u: seq<Unit>, v: seq<Unit>)
    requires !w.invalid
    ensures Next(parse, Next(parse, w, Fragment(i, u)), Fragment(i, v)) == Next(parse, w, Fragment(i, u + v))
  {
    var held := OrEmpty(Lookup(w.partial, i));
    assert held + u + v == held + (u + v);
    assert w.partial[i := held + u][i := held + u + v] == w.partial[i := held + u + v];
  }

  // ----- unfinished tool JSON -----

  lemma {:induction false} InvalidForever(parse: seq<Unit> -> Option<Json>, events: seq<WireEvent>, more: seq<WireEvent>)
    requires After(parse, events).invalid
    ensures After(parse, events + more).invalid
    decreases |more|
  {
    if more == [] {
      assert events + more == events;
    } else {
      var n := |more| - 1;
      assert (events + more)[..|events| + n] == events + more[..n];
      InvalidForever(parse, events, more[..n]);
    }
  }

  /** A message that stops while some tool JSON is unfinished never yields a candidate. */
  lemma UnfinishedNeverOffered(parse: seq<Unit> -> Option<Json>, events: seq<WireEvent>, more: seq<WireEvent>, i: nat)
    requires Readable(events) && Fragments(events, i).Some?
    ensures Offered(After(parse, events + [MessageStop] + more)) == None
  {
    AlwaysAsExpected(parse, events, i);
    var stopped := events + [MessageStop];
    assert stopped[..|events|] == events;
    assert After(parse, stopped).invalid;
    InvalidForever(parse, stopped, more);
  }
}
