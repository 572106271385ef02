/** Whole runs of a session. */
module ConversationRun {
  // Whole runs of a session against an endpoint that stores one history per response id, with any
  // interleaving of preparations, dispatches, answers, late observers, resets and recoveries.

  import opened Utf16
  import opened JsonValue
  import opened Payload
  import opened Conversation
  import opened ItemIdentity

  // ----- what the endpoint reads -----

  /** The stored response a body refers to. */
  function Reference(c: Capability, body: Json): Option<string> {
    if c == AnthropicThread then
      if StringAt(body, ["thread", "type"]) == Some("continue") then StringAt(body, ["thread", "previous_message_id"]) else None
    else StringAt(body, [Previous(c)])
  }

  lemma TextReads(s: string)
    ensures Display(Encode(s)) == s
  {
    EncodeDecode(s);
    RepairProperties(Encode(s));
  }

  lemma StringAtName(j: Json, name: string)
    ensures StringAt(j, [name]) == (if Get(j, name).Some? && Get(j, name).value.Str? then Some(Display(Get(j, name).value.units)) else None)
    ensures ItemsAt(j, [name]) == (if Get(j, name).Some? && Get(j, name).value.Arr? then Some(Get(j, name).value.items) else None)
  {
    if Get(j, name).Some? { assert [name][1..] == []; assert At(Get(j, name).value, []) == Some(Get(j, name).value); }
  }

  lemma AtTwo(j: Json, outer: string, inner: string)
    ensures StringAt(j, [outer, inner]) == if Get(j, outer).Some? then StringAt(Get(j, outer).value, [inner]) else None
    ensures ItemsAt(j, [outer, inner]) == if Get(j, outer).Some? then ItemsAt(Get(j, outer).value, [inner]) else None
  {
    assert [outer, inner][1..] == [inner];
  }

  lemma ThreadReads(id: string)
    ensures StringAt(ContinueThread(id), ["type"]) == Some("continue")
    ensures StringAt(ContinueThread(id), ["previous_message_id"]) == Some(id)
    ensures StringAt(CreateThread(), ["type"]) == Some("create")
  {
    var t := ContinueThread(id);
    hide Encode, Display, StringAt, ItemsAt;
    StringAtName(t, "type");
    StringAtName(t, "previous_message_id");
    StringAtName(CreateThread(), "type");
    TextReads("continue");
    TextReads("create");
    TextReads(id);
    if Encode("type") == Encode("previous_message_id") { EncodeInjective("type", "previous_message_id"); }
    assert Find(t.fields, Encode("type")) == Some(Text("continue"));
    assert t.fields[1..] == [Field(Encode("previous_message_id"), Text(id))];
    assert Find(t.fields, Encode("previous_message_id")) == Some(Text(id));
  }

  /** Items depend only on the input field. */
  lemma ItemsFrame(c: Capability, a: Json, b: Json)
    requires Get(a, Input(c)) == Get(b, Input(c))
    ensures Items(c, a) == Items(c, b)
  {
    StringAtName(a, Input(c));
    StringAtName(b, Input(c));
    AtTwo(a, "input", "steps");
    AtTwo(b, "input", "steps");
  }

  lemma NoReference(c: Capability, body: Json)
    requires !Explicit(body)
    ensures Reference(c, body) == None
  {
    hide Find, Encode, StringAt, ItemsAt, Display;
    AtTwo(body, "thread", "type");
    StringAtName(body, Previous(c));
  }

  /** `{"type":"create"}` refers to nothing. */
  lemma CreateRefers(wire: Json)
    requires Get(wire, "thread") == Some(CreateThread())
    ensures Reference(AnthropicThread, wire) == None
  {
    hide Get, StringAt, CreateThread;
    ThreadReads("");
    AtTwo(wire, "thread", "type");
    assert |"create"| != |"continue"|;
  }

  lemma CreateConveys(logical: Json)
    requires logical.Obj?
    ensures var wire := Replace(logical, "thread", Some(CreateThread())).value;
            && Items(AnthropicThread, wire) == Items(AnthropicThread, logical) && Reference(AnthropicThread, wire) == None
            && forall name :: name != "thread" ==> Get(wire, name) == Get(logical, name)
  {
    var wire := Replace(logical, "thread", Some(CreateThread())).value;
    hide Get, Items, CreateThread, Replace, Reference;
    forall name ensures Get(wire, name) == if name == "thread" then Some(CreateThread()) else Get(logical, name) {
      GetReplace(logical, "thread", Some(CreateThread()), name);
    }
    CreateRefers(wire);
    ItemsFrame(AnthropicThread, wire, logical);
  }

  /** Every field of a whole body, but for the thread that a first request creates. */
  ghost predicate SameFields(c: Capability, wire: Json, logical: Json) {
    forall name :: !(c == AnthropicThread && name == "thread") ==> Get(wire, name) == Get(logical, name)
  }

  /** What a continued body keeps: every field but the items and the reference, and of the Gemini input
      everything but the steps. */
  ghost predicate KeepsRest(c: Capability, wire: Json, logical: Json) {
    && (forall name :: name != Input(c) && !ReferenceField(c, name) ==> Get(wire, name) == Get(logical, name))
    && (c == GeminiInteraction && Get(logical, "input").Some? && Get(logical, "input").value.Obj? ==> SameInput(wire, logical))
  }

  /** A body sent whole keeps every item and every field, and refers to nothing. */
  lemma WholeConveys(c: Capability, logical: Json)
    requires !Explicit(logical) && WholeBody(c, logical).Some?
    ensures var wire := WholeBody(c, logical).value;
            && Items(c, wire) == Items(c, logical) && Reference(c, wire) == None && SameFields(c, wire, logical)
  {
    hide Get, Items, Reference, CreateThread, Explicit;
    if c == AnthropicThread {
      CreateConveys(logical);
    } else {
      NoReference(c, logical);
    }
  }

  /** The `input` of both bodies agrees on everything but the steps. */
  ghost predicate SameInput(a: Json, b: Json) {
    && Get(a, "input").Some? && Get(b, "input").Some?
    && forall name :: name != "steps" ==> Get(Get(a, "input").value, name) == Get(Get(b, "input").value, name)
  }

  lemma InputReplaced(c: Capability, body: Json, items: seq<Json>)
    requires ReplaceInput(c, body, items).Some?
    ensures var r := ReplaceInput(c, body, items).value;
            && r.Obj? && Items(c, r) == Some(items)
            && (forall name :: name != Input(c) ==> Get(r, name) == Get(body, name))
            && (c == GeminiInteraction ==> SameInput(r, body))
  {
    var r := ReplaceInput(c, body, items).value;
    if c == GeminiInteraction {
      var input := Get(body, "input").value;
      var edited := Replace(input, "steps", Some(Arr(items))).value;
      forall name ensures Get(edited, name) == if name == "steps" then Some(Arr(items)) else Get(input, name) { GetReplace(input, "steps", Some(Arr(items)), name); }
      forall name ensures Get(r, name) == if name == "input" then Some(edited) else Get(body, name) { GetReplace(body, "input", Some(edited), name); }
      AtTwo(r, "input", "steps");
      StringAtName(edited, "steps");
    } else {
      forall name ensures Get(r, name) == if name == Input(c) then Some(Arr(items)) else Get(body, name) { GetReplace(body, Input(c), Some(Arr(items)), name); }
      StringAtName(r, Input(c));
    }
  }

  /** The fields a reference adds or drops. */
  predicate ReferenceField(c: Capability, name: string) {
    if c == AnthropicThread then name == "system" || name == "tools" || name == "thread" else name == Previous(c)
  }

  lemma ReferenceAdded(c: Capability, body: Json, id: string)
    requires body.Obj?
    ensures var r := AddReference(c, body, id);
            && r.Some? && Reference(c, r.value) == Some(id) && Items(c, r.value) == Items(c, body)
            && forall name :: !ReferenceField(c, name) ==> Get(r.value, name) == Get(body, name)
  {
    if c == AnthropicThread { ThreadReferenceAdded(body, id); } else { FieldReferenceAdded(c, body, id); }
  }

  lemma ThreadReferenceAdded(body: Json, id: string)
    requires body.Obj?
    ensures var c := AnthropicThread;
            var r := AddReference(c, body, id);
            && r.Some? && Reference(c, r.value) == Some(id) && Items(c, r.value) == Items(c, body)
            && forall name :: !ReferenceField(c, name) ==> Get(r.value, name) == Get(body, name)
  {
    hide Get, StringAt, Items, ContinueThread, Replace;
    ReplaceKind(body, "system", None);
    var a := Replace(body, "system", None).value;
    ReplaceKind(a, "tools", None);
    var b := Replace(a, "tools", None).value;
    ReplaceKind(b, "thread", Some(ContinueThread(id)));
    var r := Replace(b, "thread", Some(ContinueThread(id))).value;
    forall name ensures Get(r, name) == if name == "thread" then Some(ContinueThread(id)) else if name == "system" || name == "tools" then None else Get(body, name) {
      GetReplace(body, "system", None, name);
      GetReplace(a, "tools", None, name);
      GetReplace(b, "thread", Some(ContinueThread(id)), name);
    }
    AtTwo(r, "thread", "type");
    AtTwo(r, "thread", "previous_message_id");
    ThreadReads(id);
    ItemsFrame(AnthropicThread, r, body);
  }

  lemma ReplaceKind(j: Json, name: string, value: Option<Json>)
    requires j.Obj?
    ensures Replace(j, name, value).Some? && Replace(j, name, value).value.Obj?
  {
    hide Drop, Encode;
  }

  lemma FieldReferenceAdded(c: Capability, body: Json, id: string)
    requires body.Obj? && c != AnthropicThread
    ensures var r := AddReference(c, body, id);
            && r.Some? && Reference(c, r.value) == Some(id) && Items(c, r.value) == Items(c, body)
            && forall name :: !ReferenceField(c, name) ==> Get(r.value, name) == Get(body, name)
  {
    hide Get, StringAt, Items, Replace;
    ReplaceKind(body, Previous(c), Some(Text(id)));
    var r := Replace(body, Previous(c), Some(Text(id))).value;
    forall name ensures Get(r, name) == if name == Previous(c) then Some(Text(id)) else Get(body, name) { GetReplace(body, Previous(c), Some(Text(id)), name); }
    StringAtName(r, Previous(c));
    TextReads(id);
    ItemsFrame(c, r, body);
  }

  // ----- compatible requests agree on the fields a thread keeps -----

  ghost predicate Parsed(j: Json) { j.Obj? ==> DistinctKeys(j.fields) }

  lemma ReplaceKeeps(j: Json, name: string, value: Option<Json>, kept: string)
    requires Parsed(j) && Replace(j, name, value).Some? && kept != name
    ensures var r := Replace(j, name, value).value; r.Obj? && Parsed(r) && Get(r, kept) == Get(j, kept)
  {
    GetReplace(j, name, value, kept);
    ReplaceDistinct(j, name, value);
  }

  lemma {:induction false} WithoutKeeps(j: Json, names: seq<string>, kept: string)
    requires Parsed(j) && Without(j, names).Some? && kept !in names
    ensures var r := Without(j, names).value; Parsed(r) && Get(r, kept) == Get(j, kept)
    decreases |names|
  {
    if names != [] {
      ReplaceKeeps(j, names[0], None, kept);
      WithoutKeeps(Replace(j, names[0], None).value, names[1..], kept);
    }
  }

  lemma FingerprintKeeps(body: Json, kept: string)
    requires Parsed(body) && ThreadFingerprint(body).Some? && kept !in ["fallbacks", "container", "mcp_servers"]
    ensures var r := ThreadFingerprint(body).value; r.Obj? && Parsed(r) && Get(r, kept) == Get(body, kept)
  {
    hide Replace, Parsed, Get, ItemsAt, At, EachWithout;
    var flag := Some(Prim(if Get(body, "fallbacks").Some? then "true" else "false"));
    ReplaceKeeps(body, "fallbacks", flag, kept);
    var a := Replace(body, "fallbacks", flag).value;
    ReplaceKeeps(a, "container", At(body, ["container", "skills"]), kept);
    var b := Replace(a, "container", At(body, ["container", "skills"])).value;
    match ItemsAt(body, ["mcp_servers"])
    case None =>
    case Some(servers) => ReplaceKeeps(b, "mcp_servers", Some(Arr(EachWithout(servers, ["authorization_token"]).value)), kept);
  }

  /** The fields the endpoint keeps for a thread. */
  predicate ThreadField(name: string) { name == "system" || name == "tools" }

  lemma SettingsKeep(body: Json, switch: bool, name: string)
    requires Parsed(body) && Settings(body, AnthropicThread, switch).Some? && ThreadField(name)
    ensures var r := Settings(body, AnthropicThread, switch).value; r.Obj? && Parsed(r) && Get(r, name) == Get(body, name)
  {
    hide Without, ThreadFingerprint, Parsed, Get;
    var first, second := [Input(AnthropicThread), "stream"], if switch then ["model"] else [];
    var a := Without(body, first).value;
    var b := Without(a, second).value;
    var d := Without(b, ThreadFreeFields()).value;
    FieldNames(name);
    WithoutKeeps(body, first, name);
    WithoutKeeps(a, second, name);
    WithoutKeeps(b, ThreadFreeFields(), name);
    FingerprintKeeps(d, name);
  }

  lemma DistinctParsed(j: Json)
    requires Distinct(j)
    ensures Parsed(j)
  {
  }

  lemma FieldNames(name: string)
    requires ThreadField(name)
    ensures name !in [Input(AnthropicThread), "stream"] && name !in ["model"] && name !in ThreadFreeFields()
    ensures name !in ["fallbacks", "container", "mcp_servers"]
  {
    assert name[1] == 'y' || name[1] == 'o';
    assert |name| == 5 || |name| == 6;
  }

  lemma CompatibleThread(m: string -> int, previous: Json, current: Json, d: Draft, name: string)
    requires Parsed(previous) && Parsed(current) && CapabilityOf(d.profile) == AnthropicThread && ThreadField(name)
    requires Compatible(m, previous, current, d) == Some(true)
    ensures OptEq(m, Get(previous, name), Get(current, name))
  {
    hide Settings, ModelSwitch, Get, CapabilityOf, ThreadField;
    var switch := ModelSwitch(previous, current, d);
    SettingsKeep(previous, switch, name);
    SettingsKeep(current, switch, name);
    SemEqGet(m, Settings(previous, AnthropicThread, switch).value, Settings(current, AnthropicThread, switch).value, name);
  }

  // ----- the world -----

  /** What the endpoint keeps under a response id. */
  datatype Held = Held(items: seq<Json>, system: Option<Json>, tools: Option<Json>)

  datatype Key = Key(identity: Identity, id: string)

  /** A prepared request; `serial` counts the epoch advances up to it. */
  datatype Outgoing = Outgoing(identity: Option<Identity>, capability: Capability, logical: Json, wire: Json, serial: nat)

  datatype Call = Call(sent: Outgoing, observation: Option<Observation>, committed: bool, answer: Option<Json>)

  /** `advances` counts epoch advances without wrapping; `log` lists the calls that published, in order. */
  datatype World = World(
    session: Session, drafts: seq<Outgoing>, calls: seq<Call>, store: map<Key, Held>, used: set<Key>,
    advances: nat, log: seq<nat>)

  function Start(): World { World(NewSession(), [], [], map[], {}, 0, []) }

  function ItemsOf(c: Capability, body: Json): seq<Json> {
    if Items(c, body).Some? then Items(c, body).value else []
  }

  /** The conversation the endpoint sees in a request, or nothing if it does not hold the reference. */
  function View(store: map<Key, Held>, o: Outgoing): Option<Held> {
    var whole := Held(ItemsOf(o.capability, o.wire), Get(o.wire, "system"), Get(o.wire, "tools"));
    match Reference(o.capability, o.wire)
    case None => Some(whole)
    case Some(id) =>
      if o.identity.None? || Key(o.identity.value, id) !in store then None
      else
        var held := store[Key(o.identity.value, id)];
        Some(Held(held.items + whole.items,
                  if o.capability == AnthropicThread then held.system else whole.system,
                  if o.capability == AnthropicThread then held.tools else whole.tools))
  }

  // ----- steps -----

  datatype Event =
    | Prepare(draft: Draft, recent: bool)
    | Dispatch(token: nat)
    | Answer(call: nat, body: Json)
    | Commit(call: nat)
    | Invalidate(call: nat)
    | Reset
    | ReturnToPool
    | BorrowTransport
    | Recover(response: Response)
    | Forget(key: Key)

  /** How often `prepare` advances the epoch. */
  function Bumps(m: string -> int, s: Session, d: Draft, recent: bool, token: nat): nat {
    if d.countTokens || !d.settled then 0
    else
      (if s.transport.Some? && s.transport.value != d.transport then 1 else 0) +
      (if PrepareStep(m, s, d, recent, token).1.Ready? then 1 else 0)
  }

  function OutgoingOf(d: Draft, logical: Json, wire: Json, serial: nat): Outgoing {
    Outgoing(if Stateless(d.profile) || d.handshake.None? then None else Some(Identity(d.scope, d.profile, d.handshake.value)),
             CapabilityOf(d.profile), logical, wire, serial)
  }

  function Prepared(m: string -> int, w: World, d: Draft, recent: bool): World {
    var token := |w.drafts|;
    var (s, r) := PrepareStep(m, w.session, d, recent, token);
    var advances := w.advances + Bumps(m, w.session, d, recent, token);
    var o := match r
      case Refused => []
      case Ready(wire, _, _) => if d.logical.Some? then [OutgoingOf(d, d.logical.value, wire, advances)] else [];
    w.(session := s, advances := advances, drafts := w.drafts + o)
  }

  function Dispatched(w: World, token: nat): World {
    var (s, o) := DispatchStep(w.session, token);
    if o.None? || token >= |w.drafts| then w
    else w.(session := s, calls := w.calls + [Call(w.drafts[token], o.value, false, None)])
  }

  /** The key a response is stored under, if it is one that can be continued. */
  function AnswerKey(o: Outgoing, body: Json): Option<Key> {
    var identity :- o.identity;
    var id :- ResponseId(body);
    if Output(o.capability, body).Some? then Some(Key(identity, id)) else None
  }

  /** The endpoint answers a request it can see, under an id it never used before. */
  predicate CanAnswer(w: World, k: nat, body: Json) {
    && k < |w.calls| && w.calls[k].answer.None? && View(w.store, w.calls[k].sent).Some? && Distinct(body)
    && (AnswerKey(w.calls[k].sent, body).Some? ==> AnswerKey(w.calls[k].sent, body).value !in w.used)
  }

  function Answered(w: World, k: nat, body: Json): World
    requires CanAnswer(w, k, body)
  {
    var sent := w.calls[k].sent;
    var calls := w.calls[k := w.calls[k].(answer := Some(body))];
    match AnswerKey(sent, body)
    case None => w.(calls := calls)
    case Some(key) =>
      var seen := View(w.store, sent).value;
      w.(calls := calls, used := w.used + {key},
         store := w.store[key := seen.(items := seen.items + Output(sent.capability, body).value)])
  }

  /** Only an answered call with an observer can commit, with the body it was answered. */
  predicate CanCommit(w: World, k: nat) {
    k < |w.calls| && w.calls[k].observation.Some? && w.calls[k].answer.Some?
  }

  /** The commit puts something into the shared state. */
  predicate Publishes(s: Session, call: Call)
    requires call.observation.Some? && call.answer.Some?
  {
    var o, body := call.observation.value, call.answer.value;
    !Unpublishable(body) && !call.committed && s.epoch == o.epoch && Publication(o, body).Some?
  }

  function Committed(w: World, k: nat): World
    requires CanCommit(w, k)
  {
    var call := w.calls[k];
    var (s, committed) := CommitStep(w.session, call.observation.value, call.committed, call.answer.value);
    w.(session := s, calls := w.calls[k := call.(committed := committed)],
       log := if Publishes(w.session, call) then w.log + [k] else w.log)
  }

  function Advanced(w: World, s: Session): World { w.(session := s, advances := w.advances + 1) }

  /** One event; an event that cannot happen changes nothing. */
  function Step(m: string -> int, w: World, e: Event): World {
    match e
    case Prepare(d, recent) => if d.logical.Some? && !Distinct(d.logical.value) then w else Prepared(m, w, d, recent)
    case Dispatch(token) => Dispatched(w, token)
    case Answer(k, body) => if CanAnswer(w, k, body) then Answered(w, k, body) else w
    case Commit(k) => if CanCommit(w, k) then Committed(w, k) else w
    case Invalidate(k) =>
      if k < |w.calls| && w.calls[k].observation.Some? then w.(session := Invalidated(w.session, w.calls[k].observation.value)) else w
    case Reset => Advanced(w, Cleared(w.session))
    case ReturnToPool => Advanced(w, ClearedForPool(w.session))
    case BorrowTransport => w.(session := w.session.(pending := None, binding := None))
    case Recover(r) => if Recoverable(w.session, r) then Advanced(w, RecoverStep(w.session, r)) else w
    case Forget(key) => w.(store := w.store - {key})
  }

  function After(m: string -> int, events: seq<Event>): World {
    if events == [] then Start() else Step(m, After(m, events[..|events| - 1]), events[|events| - 1])
  }

  // ----- the endpoint holds what the client meant -----

  /** A held history is the logical history followed by `more`, item by item; a thread also keeps system and tools. */
  ghost predicate Fits(m: string -> int, c: Capability, held: Held, logical: Json, more: seq<Json>) {
    && SameItems(m, c, held.items, ItemsOf(c, logical) + more)
    && (c == AnthropicThread ==> OptEq(m, held.system, Get(logical, "system")) && OptEq(m, held.tools, Get(logical, "tools")))
  }

  /** What a request sends, or refers to, amounts to its logical body; an explicit one is sent as it is. */
  ghost predicate Conveys(m: string -> int, store: map<Key, Held>, used: set<Key>, o: Outgoing) {
    if Explicit(o.logical) then o.wire == o.logical
    else
      match Reference(o.capability, o.wire)
      case None => Items(o.capability, o.wire) == Items(o.capability, o.logical) && SameFields(o.capability, o.wire, o.logical)
      case Some(id) =>
        && o.identity.Some? && Key(o.identity.value, id) in used && KeepsRest(o.capability, o.wire, o.logical)
        && (View(store, o).Some? ==> Fits(m, o.capability, View(store, o).value, o.logical, []))
  }

  /** The endpoint's history for the completed id is the completed logical history and its output. */
  ghost predicate Consistent(m: string -> int, store: map<Key, Held>, used: set<Key>, k: Completed) {
    var key := Key(k.identity, k.id);
    && Distinct(k.logical) && AllDistinct(k.output) && key in used
    && (key in store ==> Fits(m, CapabilityOf(k.identity.profile), store[key], k.logical, k.output))
  }

  predicate Observes(o: Observation, sent: Outgoing) {
    && sent.identity == Some(o.identity) && sent.capability == o.capability == CapabilityOf(o.identity.profile)
    && sent.logical == o.logical && !Explicit(o.logical) && o.epoch == sent.serial % U64
  }

  ghost predicate GoodCall(m: string -> int, store: map<Key, Held>, used: set<Key>, call: Call) {
    && Conveys(m, store, used, call.sent) && Distinct(call.sent.logical) && (call.answer.Some? ==> Distinct(call.answer.value))
    && (call.observation.Some? ==>
          && Observes(call.observation.value, call.sent)
          && (call.answer.Some? && Publication(call.observation.value, call.answer.value).Some? ==>
                Consistent(m, store, used, Publication(call.observation.value, call.answer.value).value)))
  }

  ghost predicate GoodPending(w: World) {
    && (w.session.binding.Some? ==> w.session.binding.value < |w.drafts|)
    && (w.session.pending.Some? ==>
          w.session.binding.Some? && Observes(w.session.pending.value, w.drafts[w.session.binding.value]))
  }

  ghost predicate GoodDraft(m: string -> int, store: map<Key, Held>, used: set<Key>, o: Outgoing) {
    Conveys(m, store, used, o) && Distinct(o.logical)
  }

  ghost predicate Inv(m: string -> int, w: World) {
    && (forall k :: 0 <= k < |w.drafts| ==> GoodDraft(m, w.store, w.used, w.drafts[k]))
    && (forall k :: 0 <= k < |w.calls| ==> GoodCall(m, w.store, w.used, w.calls[k]))
    && (w.session.completed.Some? ==> Consistent(m, w.store, w.used, w.session.completed.value))
    && GoodPending(w)
  }

  /** What the endpoint sees of a conveyed request fits the logical body. */
  lemma ConveyedFits(m: string -> int, store: map<Key, Held>, used: set<Key>, o: Outgoing)
    requires Conveys(m, store, used, o) && !Explicit(o.logical) && View(store, o).Some?
    ensures Fits(m, o.capability, View(store, o).value, o.logical, [])
  {
    hide Get, Items, Explicit;
    if Reference(o.capability, o.wire).None? {
      var items := ItemsOf(o.capability, o.logical);
      assert items + [] == items;
      SameItemsSelf(m, o.capability, items);
      OptEqReflexive(m, Get(o.logical, "system"));
      OptEqReflexive(m, Get(o.logical, "tools"));
      assert |"system"| == |"thread"| && "system"[0] != "thread"[0] && "tools"[1] != "thread"[1];
    }
  }

  /** Whole or continued, a body keeps the fields that are neither items nor reference. */
  lemma ConveyedKeeps(m: string -> int, store: map<Key, Held>, used: set<Key>, o: Outgoing)
    requires Conveys(m, store, used, o) && !Explicit(o.logical)
    ensures KeepsRest(o.capability, o.wire, o.logical)
  {
    hide Get, Items, Explicit, View, Reference, Fits;
    if Reference(o.capability, o.wire).None? { assert o.capability == GeminiInteraction ==> Get(o.wire, "input") == Get(o.logical, "input"); }
  }

  // ----- a step of the endpoint leaves old entries alone -----

  predicate Extends(store: map<Key, Held>, used: set<Key>, store': map<Key, Held>, used': set<Key>) {
    used <= used' && forall key :: key in used && key in store' ==> key in store && store'[key] == store[key]
  }

  lemma ConveysStable(m: string -> int, store: map<Key, Held>, used: set<Key>, store': map<Key, Held>, used': set<Key>, o: Outgoing)
    requires Conveys(m, store, used, o) && Extends(store, used, store', used')
    ensures Conveys(m, store', used', o)
  {
    hide Fits, Reference, Get, Items, KeepsRest, SameFields;
  }

  lemma ConsistentStable(m: string -> int, store: map<Key, Held>, used: set<Key>, store': map<Key, Held>, used': set<Key>, k: Completed)
    requires Consistent(m, store, used, k) && Extends(store, used, store', used')
    ensures Consistent(m, store', used', k)
  {
    hide Fits, Distinct, AllDistinct;
  }

  lemma CallStable(m: string -> int, store: map<Key, Held>, used: set<Key>, store': map<Key, Held>, used': set<Key>, call: Call)
    requires GoodCall(m, store, used, call) && Extends(store, used, store', used')
    ensures GoodCall(m, store', used', call)
  {
    hide Conveys, Consistent, Observes, Publication, Extends, Distinct;
    ConveysStable(m, store, used, store', used', call.sent);
    if call.observation.Some? && call.answer.Some? && Publication(call.observation.value, call.answer.value).Some? {
      ConsistentStable(m, store, used, store', used', Publication(call.observation.value, call.answer.value).value);
    }
  }

  // ----- preparing -----

  lemma ItemsDistinct(c: Capability, body: Json)
    requires Distinct(body)
    ensures AllDistinct(ItemsOf(c, body))
  {
    hide Encode, Find;
    if c == GeminiInteraction {
      AtTwo(body, "input", "steps");
      if Get(body, "input").Some? {
        DistinctMember(body, Encode("input"));
        ListDistinct(Get(body, "input").value, "steps");
      }
    } else {
      ListDistinct(body, Input(c));
    }
  }

  lemma ListDistinct(j: Json, name: string)
    requires Distinct(j)
    ensures ItemsAt(j, [name]).Some? ==> AllDistinct(ItemsAt(j, [name]).value)
  {
    StringAtName(j, name);
    hide Encode, Find;
    if Get(j, name).Some? { DistinctMember(j, Encode(name)); }
  }

  lemma OutputDistinct(c: Capability, body: Json)
    requires Distinct(body) && Output(c, body).Some?
    ensures AllDistinct(Output(c, body).value)
  {
    hide Encode, Find, Distinct, AllDistinct;
    match c
    case Responses => ListDistinct(body, "output");
    case GeminiInteraction => ListDistinct(body, "steps");
    case AnthropicThread =>
      DistinctMember(body, Encode("content"));
      AnswerDistinct(Get(body, "content").value);
  }

  lemma AnswerDistinct(content: Json)
    requires Distinct(content)
    ensures AllDistinct([Obj([Field(Encode("role"), Text("assistant")), Field(Encode("content"), content)])])
  {
    RoleApart();
    hide Encode;
    var fields := [Field(Encode("role"), Text("assistant")), Field(Encode("content"), content)];
    assert DistinctKeys(fields) && Distinct(fields[0].value) && Distinct(fields[1].value);
  }

  lemma RoleApart()
    ensures Encode("role") != Encode("content")
  {
    if Encode("role") == Encode("content") { EncodeInjective("role", "content"); }
  }

  /** A matching prefix: what the endpoint holds counts as the caller's first items. */
  lemma PrefixShared(m: string -> int, c: Capability, previous: Completed, logical: Json)
    requires Distinct(previous.logical) && AllDistinct(previous.output) && Distinct(logical)
    requires var prefix, current := ItemsOf(c, previous.logical) + previous.output, ItemsOf(c, logical);
             |prefix| <= |current| && PrefixMatches(m, prefix, current, c) == Some(true)
    ensures var prefix, current := ItemsOf(c, previous.logical) + previous.output, ItemsOf(c, logical);
            SameItems(m, c, prefix, current[..|prefix|])
  {
    ItemsDistinct(c, previous.logical);
    ItemsDistinct(c, logical);
    hide ItemsOf, Distinct, PrefixMatches, SameItem, Comparably;
    PrefixIff(m, c, ItemsOf(c, previous.logical) + previous.output, ItemsOf(c, logical));
  }

  /** A continuation refers to the completed response and sends exactly what comes after it. */
  lemma ContinuationConveys(m: string -> int, store: map<Key, Held>, used: set<Key>, previous: Completed, d: Draft, logical: Json, o: Outgoing)
    requires Items(CapabilityOf(d.profile), logical).Some? && Distinct(logical) && !Explicit(logical)
    requires Consistent(m, store, used, previous) && previous.identity.profile == d.profile
    requires Continuation(m, previous, d, logical).Some? && Continuation(m, previous, d, logical).value.Some?
    requires o.capability == CapabilityOf(d.profile) && o.identity == Some(previous.identity) && o.logical == logical
    requires o.wire == Continuation(m, previous, d, logical).value.value.wire
    ensures Conveys(m, store, used, o)
  {
    hide CapabilityOf, Compatible, Items, Get, PrefixMatches, ReplaceInput, AddReference, Reference, Explicit, OptEq, SameItem, Distinct, AllDistinct;
    var c := CapabilityOf(d.profile);
    var prefix := ItemsOf(c, previous.logical) + previous.output;
    var current := Items(c, logical).value;
    var shrunk := ReplaceInput(c, logical, current[|prefix|..]).value;
    InputReplaced(c, logical, current[|prefix|..]);
    ReferenceAdded(c, shrunk, previous.id);
    PrefixShared(m, c, previous, logical);
    var key := Key(previous.identity, previous.id);
    if key in store {
      var held := store[key];
      SameItemsTransitive(m, c, held.items, prefix, current[..|prefix|]);
      SameItemsAppend(m, c, held.items, current[..|prefix|], current[|prefix|..]);
      assert current[..|prefix|] + current[|prefix|..] == current == current + [];
      if c == AnthropicThread {
        DistinctParsed(previous.logical);
        DistinctParsed(logical);
        CompatibleThread(m, previous.logical, logical, d, "system");
        CompatibleThread(m, previous.logical, logical, d, "tools");
        OptEqTransitive(m, held.system, Get(previous.logical, "system"), Get(logical, "system"));
        OptEqTransitive(m, held.tools, Get(previous.logical, "tools"), Get(logical, "tools"));
      }
    }
  }

  lemma ChoiceConveys(m: string -> int, store: map<Key, Held>, used: set<Key>, previous: Option<Completed>, d: Draft, logical: Json,
                      identity: Identity, recent: bool, o: Outgoing)
    requires Items(CapabilityOf(d.profile), logical).Some? && Distinct(logical) && !Explicit(logical) && identity.profile == d.profile
    requires previous.Some? ==> Consistent(m, store, used, previous.value)
    requires Choose(m, previous, d, logical, identity, recent).Some?
    requires o.capability == CapabilityOf(d.profile) && o.identity == Some(identity) && o.logical == logical
    requires o.wire == Choose(m, previous, d, logical, identity, recent).value.wire
    ensures Conveys(m, store, used, o)
  {
    hide CapabilityOf, Continuation, Items, WholeBody, Reference, Explicit, Consistent, Get, Distinct;
    var c := CapabilityOf(d.profile);
    if previous.Some? && previous.value.identity == identity && (c == AnthropicThread ==> recent)
       && Continuation(m, previous.value, d, logical).value.Some? {
      ContinuationConveys(m, store, used, previous.value, d, logical, o);
    } else {
      WholeConveys(c, logical);
    }
  }

  lemma UntouchedConveys(m: string -> int, store: map<Key, Held>, used: set<Key>, o: Outgoing)
    requires o.wire == o.logical
    ensures Conveys(m, store, used, o)
  {
    hide Reference, Explicit, Get, Items;
    if !Explicit(o.logical) { NoReference(o.capability, o.logical); }
  }

  lemma PrepareKeeps(m: string -> int, w: World, d: Draft, recent: bool)
    requires Inv(m, w) && (d.logical.Some? ==> Distinct(d.logical.value)) && w.session.epoch == w.advances % U64
    ensures Inv(m, Prepared(m, w, d, recent))
  {
    hide Conveys, Consistent, GoodCall, Eligible, Choose, CapabilityOf, Explicit, Items, Distinct, CountItems, Stateless;
    var token := |w.drafts|;
    var (s, r) := PrepareStep(m, w.session, d, recent, token);
    var w' := Prepared(m, w, d, recent);
    if r.Ready? {
      var logical := d.logical.value;
      var o := OutgoingOf(d, logical, r.wire, w'.advances);
      assert w'.drafts == w.drafts + [o];
      var s1 := Unbound(w.session, d);
      if Stateless(d.profile) {
        UntouchedConveys(m, w.store, w.used, o);
      } else {
        var identity := Identity(d.scope, d.profile, d.handshake.value);
        EpochAfter(m, w.session, w.advances, d, recent, token);
        if Eligible(s1, d, logical, identity) {
          EligibleFacts(s1, d, logical, identity);
          ChoiceConveys(m, w.store, w.used, s1.completed, d, logical, identity, recent, o);
        } else {
          UntouchedConveys(m, w.store, w.used, o);
        }
      }
      assert GoodDraft(m, w.store, w.used, o);
    } else {
      assert w'.drafts == w.drafts;
    }
  }

  lemma EligibleFacts(s: Session, d: Draft, logical: Json, identity: Identity)
    requires Eligible(s, d, logical, identity)
    ensures Items(CapabilityOf(d.profile), logical).Some? && !Explicit(logical)
  {
  }

  lemma EpochAfter(m: string -> int, s: Session, advances: nat, d: Draft, recent: bool, token: nat)
    requires s.epoch == advances % U64
    ensures var (s', r) := PrepareStep(m, s, d, recent, token);
            && s'.epoch == (advances + Bumps(m, s, d, recent, token)) % U64
            && (r.Ready? && s'.pending.Some? ==> s'.pending.value.epoch == s'.epoch)
            && (s'.completed.Some? ==> s'.completed == s.completed && Bumps(m, s, d, recent, token) == 0)
            && (r.Ready? ==> s'.completed.None?)
  {
    hide Eligible, Choose, CapabilityOf, Stateless, CountItems, Items;
    AdvanceWraps(advances);
    AdvanceWraps(advances + 1);
  }

  lemma AdvanceWraps(n: nat)
    ensures Advance(n % U64) == (n + 1) % U64
  {
  }

  // ----- the other events -----

  lemma DispatchKeeps(m: string -> int, w: World, token: nat)
    requires Inv(m, w)
    ensures Inv(m, Dispatched(w, token))
  {
    hide Conveys, Consistent, Observes, Distinct;
    if w.session.binding == Some(token) {
      assert GoodDraft(m, w.store, w.used, w.drafts[token]);
      assert GoodCall(m, w.store, w.used, Call(w.drafts[token], w.session.pending, false, None));
    }
  }

  /** The endpoint stores what it saw and what it said, which is the logical history and the output. */
  lemma AnswerConsistent(m: string -> int, w: World, k: nat, body: Json)
    requires CanAnswer(w, k, body) && GoodCall(m, w.store, w.used, w.calls[k])
    ensures var w' := Answered(w, k, body); GoodCall(m, w'.store, w'.used, w'.calls[k])
  {
    hide Conveys, View, Fits, Distinct, AllDistinct, Explicit, Output, ResponseId, CapabilityOf;
    var call, w' := w.calls[k], Answered(w, k, body);
    ConveysStable(m, w.store, w.used, w'.store, w'.used, call.sent);
    if call.observation.Some? && Publication(call.observation.value, body).Some? {
      var seen, output := View(w.store, call.sent).value, Output(call.sent.capability, body).value;
      ConveyedFits(m, w.store, w.used, call.sent);
      OutputDistinct(call.sent.capability, body);
      FitsMore(m, call.sent.capability, seen, call.sent.logical, output);
    }
  }

  lemma FitsMore(m: string -> int, c: Capability, held: Held, logical: Json, more: seq<Json>)
    requires Fits(m, c, held, logical, [])
    ensures Fits(m, c, held.(items := held.items + more), logical, more)
  {
    hide SameItem, OptEq, Get, Items;
    var items := ItemsOf(c, logical);
    assert items + [] == items;
    SameItemsAppend(m, c, held.items, items, more);
  }

  lemma AnswerKeeps(m: string -> int, w: World, k: nat, body: Json)
    requires Inv(m, w) && CanAnswer(w, k, body)
    ensures Inv(m, Answered(w, k, body))
  {
    hide Conveys, Consistent, GoodCall, Observes, Distinct, View, Output, ResponseId;
    var w' := Answered(w, k, body);
    assert Extends(w.store, w.used, w'.store, w'.used);
    StoreKeeps(m, w, w'.store, w'.used);
    AnswerConsistent(m, w, k, body);
    assert forall l :: 0 <= l < |w.calls| && l != k ==> w'.calls[l] == w.calls[l];
  }

  lemma StoreKeeps(m: string -> int, w: World, store': map<Key, Held>, used': set<Key>)
    requires Inv(m, w) && Extends(w.store, w.used, store', used')
    ensures Inv(m, w.(store := store', used := used'))
  {
    hide Conveys, Consistent, GoodCall, Observes, Distinct, Extends;
    forall k | 0 <= k < |w.drafts| ensures GoodDraft(m, store', used', w.drafts[k]) {
      assert GoodDraft(m, w.store, w.used, w.drafts[k]);
      ConveysStable(m, w.store, w.used, store', used', w.drafts[k]);
    }
    forall k | 0 <= k < |w.calls| ensures GoodCall(m, store', used', w.calls[k]) { CallStable(m, w.store, w.used, store', used', w.calls[k]); }
    if w.session.completed.Some? { ConsistentStable(m, w.store, w.used, store', used', w.session.completed.value); }
  }

  lemma CommitKeeps(m: string -> int, w: World, k: nat)
    requires Inv(m, w) && CanCommit(w, k)
    ensures Inv(m, Committed(w, k))
  {
    hide Conveys, Consistent, Observes, Distinct, Publication, Unpublishable;
    var w', call := Committed(w, k), w.calls[k];
    assert GoodCall(m, w.store, w.used, call);
    forall l | 0 <= l < |w.calls| ensures GoodCall(m, w.store, w.used, w'.calls[l]) {
      assert GoodCall(m, w.store, w.used, w.calls[l]);
    }
  }

  lemma StepKeeps(m: string -> int, w: World, e: Event)
    requires Inv(m, w) && w.session.epoch == w.advances % U64
    ensures Inv(m, Step(m, w, e))
  {
    hide Distinct, Consistent, GoodCall, GoodDraft, Observes, Prepared, Dispatched, Answered, Committed, CanAnswer, CanCommit, Recoverable, UnsupportedThread;
    match e
    case Prepare(d, recent) =>
      if !(d.logical.Some? && !Distinct(d.logical.value)) { PrepareKeeps(m, w, d, recent); }
    case Dispatch(token) => DispatchKeeps(m, w, token);
    case Answer(k, body) => if CanAnswer(w, k, body) { AnswerKeeps(m, w, k, body); }
    case Commit(k) => if CanCommit(w, k) { CommitKeeps(m, w, k); }
    case Forget(key) => StoreKeeps(m, w, w.store - {key}, w.used);
    case _ =>
  }

  // ----- epochs -----

  predicate Ticks(w: World) {
    && w.session.epoch == w.advances % U64
    && (w.session.pending.Some? ==> w.session.pending.value.epoch == w.session.epoch)
    && (forall k :: 0 <= k < |w.drafts| ==> w.drafts[k].serial <= w.advances)
    && (forall k :: 0 <= k < |w.calls| ==> w.calls[k].sent.serial <= w.advances)
  }

  /** What is published came from the last logged call, whose epoch is the current one. */
  predicate Latest(w: World) {
    w.session.completed.Some? ==>
      && w.log != [] && w.log[|w.log| - 1] < |w.calls|
      && var call := w.calls[w.log[|w.log| - 1]];
      && call.observation.Some? && call.answer.Some?
      && w.session.completed == Publication(call.observation.value, call.answer.value)
      && call.observation.value.epoch == w.session.epoch
  }

  /** A call is logged once, and is used up from then on. */
  predicate Once(w: World) {
    && (forall i :: 0 <= i < |w.log| ==> w.log[i] < |w.calls| && w.calls[w.log[i]].committed)
    && (forall i, j :: 0 <= i < j < |w.log| ==> w.log[i] != w.log[j])
  }

  lemma PrepareTicks(m: string -> int, w: World, d: Draft, recent: bool)
    requires Ticks(w) && Latest(w)
    ensures Ticks(Prepared(m, w, d, recent)) && Latest(Prepared(m, w, d, recent))
  {
    hide PrepareStep, Bumps, Publication;
    EpochAfter(m, w.session, w.advances, d, recent, |w.drafts|);
    PendingAfter(m, w.session, d, recent, |w.drafts|);
  }

  lemma PendingAfter(m: string -> int, s: Session, d: Draft, recent: bool, token: nat)
    ensures var (s', r) := PrepareStep(m, s, d, recent, token);
            !r.Ready? ==> s'.pending.None? || (s'.pending == s.pending && s' == s && Bumps(m, s, d, recent, token) == 0)
  {
    hide Eligible, Choose, CapabilityOf, Stateless, CountItems, Items;
  }

  lemma AnswerTicks(w: World, k: nat, body: Json)
    requires Ticks(w) && Latest(w) && Once(w) && CanAnswer(w, k, body)
    ensures var w' := Answered(w, k, body); Ticks(w') && Latest(w') && Once(w')
  {
    hide Publication, View, Output, AnswerKey;
    var w' := Answered(w, k, body);
    assert w'.session == w.session && w'.log == w.log && w'.advances == w.advances && w'.drafts == w.drafts;
    assert w'.calls == w.calls[k := w.calls[k].(answer := Some(body))];
  }

  lemma CommitTicks(w: World, k: nat)
    requires Ticks(w) && Latest(w) && Once(w) && CanCommit(w, k)
    ensures var w' := Committed(w, k); Ticks(w') && Latest(w') && Once(w')
  {
    hide Publication, Unpublishable;
    var w' := Committed(w, k);
    assert forall l :: 0 <= l < |w.calls| ==>
        w'.calls[l].sent == w.calls[l].sent && w'.calls[l].observation == w.calls[l].observation && w'.calls[l].answer == w.calls[l].answer;
    if Publishes(w.session, w.calls[k]) {
      assert forall i :: 0 <= i < |w.log| ==> w.log[i] != k;
    }
  }

  lemma StepTicks(m: string -> int, w: World, e: Event)
    requires Ticks(w) && Latest(w) && Once(w)
    ensures Ticks(Step(m, w, e)) && Latest(Step(m, w, e)) && Once(Step(m, w, e))
  {
    hide Distinct, Prepared, CanAnswer, Answered, CanCommit, Committed, Recoverable, UnsupportedThread, Publication, RecoverStep, Dispatched, Ticks, Latest, Once, Advanced;
    match e
    case Prepare(d, recent) =>
      if !(d.logical.Some? && !Distinct(d.logical.value)) {
        PrepareTicks(m, w, d, recent);
        PreparedFrame(m, w, d, recent);
        OnceFrame(w, Prepared(m, w, d, recent));
      }
    case Answer(k, body) => if CanAnswer(w, k, body) { AnswerTicks(w, k, body); }
    case Commit(k) => if CanCommit(w, k) { CommitTicks(w, k); }
    case Dispatch(token) => DispatchTicks(w, token);
    case Reset => ClearTicks(w, Cleared(w.session));
    case ReturnToPool => ClearTicks(w, ClearedForPool(w.session));
    case Recover(r) => if Recoverable(w.session, r) { RecoverClears(w.session, r); ClearTicks(w, RecoverStep(w.session, r)); }
    case _ => QuietTicks(m, w, e);
  }

  lemma OnceFrame(w: World, w': World)
    requires Once(w) && w'.calls == w.calls && w'.log == w.log
    ensures Once(w')
  {
  }

  lemma DispatchTicks(w: World, token: nat)
    requires Ticks(w) && Latest(w) && Once(w)
    ensures var w' := Dispatched(w, token); Ticks(w') && Latest(w') && Once(w')
  {
    hide Publication;
  }

  /** A step that clears the session advances the epoch and publishes nothing. */
  lemma ClearTicks(w: World, s: Session)
    requires Ticks(w) && Latest(w) && Once(w) && s.completed.None? && s.pending.None? && s.epoch == Advance(w.session.epoch)
    ensures var w' := Advanced(w, s); Ticks(w') && Latest(w') && Once(w')
  {
    hide Publication;
  }

  lemma RecoverClears(s: Session, r: Response)
    ensures var s' := RecoverStep(s, r); Recoverable(s, r) ==> s'.completed.None? && s'.pending.None? && s'.epoch == Advance(s.epoch)
  {
    hide Recoverable, UnsupportedThread;
  }

  /** Invalidating, borrowing the transport and forgetting a history advance nothing. */
  lemma QuietTicks(m: string -> int, w: World, e: Event)
    requires Ticks(w) && Latest(w) && Once(w) && (e.Invalidate? || e.BorrowTransport? || e.Forget?)
    ensures var w' := Step(m, w, e); Ticks(w') && Latest(w') && Once(w')
  {
    hide Publication;
  }

  lemma PreparedFrame(m: string -> int, w: World, d: Draft, recent: bool)
    ensures var w' := Prepared(m, w, d, recent); w'.calls == w.calls && w'.log == w.log
  {
    hide PrepareStep, Bumps;
  }

  // ----- over every run -----

  lemma {:induction false} Always(m: string -> int, events: seq<Event>)
    ensures var w := After(m, events); Inv(m, w) && Ticks(w) && Latest(w) && Once(w)
    decreases |events|
  {
    hide Inv, Ticks, Latest, Once, Step, Start;
    if events == [] {
      Started(m);
    } else {
      var n := |events| - 1;
      Always(m, events[..n]);
      TicksEpoch(After(m, events[..n]));
      StepKeeps(m, After(m, events[..n]), events[n]);
      StepTicks(m, After(m, events[..n]), events[n]);
    }
  }

  lemma Started(m: string -> int)
    ensures Inv(m, Start()) && Ticks(Start()) && Latest(Start()) && Once(Start())
  {
  }

  lemma TicksEpoch(w: World)
    requires Ticks(w)
    ensures w.session.epoch == w.advances % U64
  {
  }

  /** In every run: a request without an explicit continuation gives the endpoint, if it holds the
      reference, the client's full logical items, item by item; a thread's system prompt and tools
      are the logical ones too; an explicit request goes out unchanged. */
  lemma EndpointSeesConversation(m: string -> int, events: seq<Event>, k: nat)
    requires k < |After(m, events).calls|
    ensures var w := After(m, events);
            var o := w.calls[k].sent;
            && (Explicit(o.logical) ==> o.wire == o.logical && w.calls[k].observation.None?)
            && (!Explicit(o.logical) ==> KeepsRest(o.capability, o.wire, o.logical))
            && (!Explicit(o.logical) && View(w.store, o).Some? ==>
                  var seen := View(w.store, o).value;
                  && SameItems(m, o.capability, seen.items, ItemsOf(o.capability, o.logical))
                  && (o.capability == AnthropicThread ==>
                        OptEq(m, seen.system, Get(o.logical, "system")) && OptEq(m, seen.tools, Get(o.logical, "tools"))))
  {
    Always(m, events);
    var w := After(m, events);
    var o := w.calls[k].sent;
    assert GoodCall(m, w.store, w.used, w.calls[k]);
    hide After, Distinct, Observes, KeepsRest, View, SameItems, Explicit, Inv, OptEq, Publication, Reference;
    if !Explicit(o.logical) { ConveyedKeeps(m, w.store, w.used, o); }
    if !Explicit(o.logical) && View(w.store, o).Some? {
      ConveyedFits(m, w.store, w.used, o);
      assert ItemsOf(o.capability, o.logical) + [] == ItemsOf(o.capability, o.logical);
    }
  }

  /** In every run: the endpoint's history for the completed id is the completed request's items
      followed by its output. */
  lemma CompletedMatchesEndpoint(m: string -> int, events: seq<Event>)
    requires After(m, events).session.completed.Some?
    ensures var w := After(m, events);
            var done := w.session.completed.value;
            var c, key := CapabilityOf(done.identity.profile), Key(done.identity, done.id);
            key in w.store ==> SameItems(m, c, w.store[key].items, ItemsOf(c, done.logical) + done.output)
  {
    Always(m, events);
  }

  /** Whoever published the completed state has the current epoch: the latest advance, or one a whole
      number of 2^64 advances before it. */
  predicate PublishedByCurrent(w: World) {
    w.session.completed.Some? ==>
      && w.log != [] && w.log[|w.log| - 1] < |w.calls|
      && var call := w.calls[w.log[|w.log| - 1]];
      && call.observation.Some? && call.answer.Some? && call.committed
      && w.session.completed == Publication(call.observation.value, call.answer.value)
      && (w.advances - call.sent.serial) % U64 == 0
      && (w.advances < U64 ==> call.sent.serial == w.advances)
  }

  lemma LatestCall(m: string -> int, w: World)
    requires Inv(m, w) && Ticks(w) && Latest(w) && Once(w)
    ensures PublishedByCurrent(w)
  {
    hide Conveys, Consistent, Publication, GoodPending, GoodDraft, Distinct, Explicit;
    if w.session.completed.Some? {
      var call := w.calls[w.log[|w.log| - 1]];
      assert GoodCall(m, w.store, w.used, call);
      Congruent(w.advances, call.sent.serial);
    }
  }

  /** In every run the completed state is empty or published by the current epoch's observation. */
  lemma AlwaysPublishedByCurrent(m: string -> int, events: seq<Event>)
    ensures PublishedByCurrent(After(m, events))
  {
    Always(m, events);
    hide After, PublishedByCurrent, Inv, Ticks, Latest, Once;
    LatestCall(m, After(m, events));
  }

  lemma Congruent(a: nat, b: nat)
    requires b <= a && a % U64 == b % U64
    ensures (a - b) % U64 == 0 && (a < U64 ==> a == b)
  {
    assert a - b == U64 * (a / U64 - b / U64);
    Multiple(a / U64 - b / U64);
  }

  lemma Multiple(k: int)
    ensures (U64 * k) % U64 == 0
  {
  }

  /** In every run one observation publishes at most once. */
  lemma PublishesOnce(m: string -> int, events: seq<Event>, i: nat, j: nat)
    requires i < j < |After(m, events).log|
    ensures After(m, events).log[i] != After(m, events).log[j]
  {
    Always(m, events);
  }

  // ----- which prepared request can still go out -----

  /** The token of the last ready preparation, unless something withdrew it since: its own dispatch, a further
      preparation, a reset, a return to the pool, a borrowed transport or an accepted recovery. */
  function Bound(m: string -> int, events: seq<Event>): Option<nat>
    decreases |events|
  {
    if events == [] then None
    else
      var n := |events| - 1;
      var before, kept := After(m, events[..n]), Bound(m, events[..n]);
      match events[n]
      case Prepare(d, recent) =>
        if d.countTokens || (d.logical.Some? && !Distinct(d.logical.value)) then kept
        else if PrepareStep(m, before.session, d, recent, |before.drafts|).1.Ready? then Some(|before.drafts|)
        else None
      case Dispatch(token) => if kept == Some(token) then None else kept
      case Reset => None
      case ReturnToPool => None
      case BorrowTransport => None
      case Recover(r) => if Recoverable(before.session, r) then None else kept
      case _ => kept
  }

  lemma PreparedBinds(m: string -> int, s: Session, d: Draft, recent: bool, token: nat)
    ensures var (s', r) := PrepareStep(m, s, d, recent, token);
            && (r.Ready? ==> s'.binding == Some(token) && d.logical.Some? && !d.countTokens)
            && (r.Refused? ==> s'.binding == if d.countTokens then s.binding else None)
  {
    hide Eligible, Choose, CapabilityOf, Stateless, CountItems, Items;
  }

  lemma StepBinds(m: string -> int, w: World, e: Event)
    requires GoodPending(w) && !e.Prepare?
    ensures Step(m, w, e).session.binding ==
              match e
              case Dispatch(token) => if w.session.binding == Some(token) then None else w.session.binding
              case Reset => None
              case ReturnToPool => None
              case BorrowTransport => None
              case Recover(r) => if Recoverable(w.session, r) then None else w.session.binding
              case _ => w.session.binding
    ensures Step(m, w, e).drafts == w.drafts
  {
    hide Recoverable, UnsupportedThread, CanAnswer, CanCommit, Publication, Unpublishable, Output, View, AnswerKey;
  }

  lemma PrepareBinds(m: string -> int, w: World, d: Draft, recent: bool)
    ensures var w', r := Prepared(m, w, d, recent), PrepareStep(m, w.session, d, recent, |w.drafts|).1;
            && w'.session.binding == (if r.Ready? then Some(|w.drafts|) else if d.countTokens then w.session.binding else None)
            && |w'.drafts| == |w.drafts| + (if r.Ready? then 1 else 0)
            && (d.countTokens ==> r.Refused?)
  {
    PreparedBinds(m, w.session, d, recent, |w.drafts|);
    hide PrepareStep, Bumps, OutgoingOf;
  }

  lemma {:induction false} BindingIsBound(m: string -> int, events: seq<Event>)
    ensures After(m, events).session.binding == Bound(m, events)
    decreases |events|
  {
    if events != [] {
      var n := |events| - 1;
      hide Inv, Ticks, Latest, Once, Step, PrepareStep, Prepared, Recoverable, Distinct, GoodPending;
      BindingIsBound(m, events[..n]);
      Always(m, events[..n]);
      var w := After(m, events[..n]);
      BindsInv(m, w);
      match events[n]
      case Prepare(d, recent) =>
        PrepareBinds(m, w, d, recent);
        StepPrepares(m, w, d, recent);
      case _ => StepBinds(m, w, events[n]);
    }
  }

  lemma BindsInv(m: string -> int, w: World)
    requires Inv(m, w)
    ensures GoodPending(w)
  {
  }

  lemma StepPrepares(m: string -> int, w: World, d: Draft, recent: bool)
    ensures Step(m, w, Prepare(d, recent)) == if d.logical.Some? && !Distinct(d.logical.value) then w else Prepared(m, w, d, recent)
  {
    hide Prepared, Distinct;
  }

  /** A dispatch sends a call exactly when its token is the one that is bound, and then it sends what was prepared
      under it, with the observation that was. */
  lemma DispatchesIff(m: string -> int, events: seq<Event>, token: nat)
    ensures var w, w' := After(m, events), After(m, events + [Dispatch(token)]);
            if Bound(m, events) == Some(token) then
              token < |w.drafts| && w'.calls == w.calls + [Call(w.drafts[token], w.session.pending, false, None)]
            else w'.calls == w.calls
  {
    Always(m, events);
    BindingIsBound(m, events);
    var w := After(m, events);
    BindsInv(m, w);
    assert (events + [Dispatch(token)])[..|events|] == events;
    assert After(m, events + [Dispatch(token)]) == Dispatched(w, token);
  }

  lemma {:induction false} DraftsGrow(m: string -> int, events: seq<Event>, i: nat)
    requires i <= |events|
    ensures |After(m, events[..i]).drafts| <= |After(m, events).drafts|
    ensures Bound(m, events[..i]).None? && Bound(m, events).Some? ==> Bound(m, events).value >= |After(m, events[..i]).drafts|
    decreases |events|
  {
    hide Inv, Ticks, Latest, Once, Step, PrepareStep, Prepared, Recoverable, Distinct, GoodPending;
    if i == |events| {
      assert events[..i] == events;
    } else {
      var n := |events| - 1;
      assert events[..n][..i] == events[..i];
      DraftsGrow(m, events[..n], i);
      Always(m, events[..n]);
      var w := After(m, events[..n]);
      BindsInv(m, w);
      match events[n]
      case Prepare(d, recent) =>
        PrepareBinds(m, w, d, recent);
        StepPrepares(m, w, d, recent);
      case _ => StepBinds(m, w, events[n]);
    }
  }

  /** In every run a prepared request goes out at most once: a second dispatch of its token sends nothing. */
  lemma SentOnce(m: string -> int, events: seq<Event>, i: nat, j: nat, token: nat)
    requires i < j < |events| && events[i] == events[j] == Dispatch(token)
    requires |After(m, events[..i + 1]).calls| > |After(m, events[..i]).calls|
    ensures After(m, events[..j + 1]).calls == After(m, events[..j]).calls
  {
    hide After, Bound;
    assert events[..i] + [events[i]] == events[..i + 1] && events[..j] + [events[j]] == events[..j + 1];
    DispatchesIff(m, events[..i], token);
    DispatchesIff(m, events[..j], token);
    assert events[..j][..i + 1] == events[..i + 1];
    UnboundBy(m, events[..i], token);
    DraftsGrow(m, events[..j], i + 1);
  }

  lemma UnboundBy(m: string -> int, events: seq<Event>, token: nat)
    requires Bound(m, events) == Some(token)
    ensures Bound(m, events + [Dispatch(token)]).None? && |After(m, events + [Dispatch(token)]).drafts| > token
  {
    Always(m, events);
    BindingIsBound(m, events);
    BindsInv(m, After(m, events));
    var more := events + [Dispatch(token)];
    assert more[..|events|] == events;
    hide Inv, Ticks, Latest, Once;
    StepBinds(m, After(m, events), Dispatch(token));
  }

  // ----- late observers after a recovery -----

  /** Observer and endpoint events, which do not go through the session's own methods. */
  predicate Outside(e: Event) { e.Answer? || e.Commit? || e.Invalidate? || e.Forget? }

  /** Nothing is published and no observer can publish. */
  predicate Quiet(w: World) {
    w.session.completed.None? && forall k :: 0 <= k < |w.calls| && w.calls[k].observation.Some? ==> w.calls[k].observation.value.epoch != w.session.epoch
  }

  lemma OutsideKeepsQuiet(m: string -> int, w: World, e: Event)
    requires Quiet(w) && Outside(e)
    ensures var w' := Step(m, w, e); Quiet(w') && w'.session == w.session && w'.advances == w.advances
  {
    hide View, AnswerKey, Publication, Unpublishable, Output;
    match e
    case Answer(k, body) => if CanAnswer(w, k, body) { assert Answered(w, k, body).calls == w.calls[k := w.calls[k].(answer := Some(body))]; }
    case Commit(k) =>
    case Invalidate(_) =>
    case Forget(_) =>
  }

  lemma {:induction false} OutsideRun(m: string -> int, events: seq<Event>, late: seq<Event>)
    requires Quiet(After(m, events)) && forall i :: 0 <= i < |late| ==> Outside(late[i])
    ensures Quiet(After(m, events + late)) && After(m, events + late).session == After(m, events).session
    decreases |late|
  {
    hide Quiet, Outside, Step;
    if late == [] {
      assert events + late == events;
    } else {
      var n := |late| - 1;
      assert (events + late)[..|events| + n] == events + late[..n];
      OutsideRun(m, events, late[..n]);
      OutsideKeepsQuiet(m, After(m, events + late[..n]), late[n]);
    }
  }

  /** No call in hand was observed under this epoch. */
  predicate NoneObserves(w: World, epoch: nat) {
    forall k :: 0 <= k < |w.calls| && w.calls[k].observation.Some? ==> w.calls[k].observation.value.epoch != epoch
  }

  /** An accepted recovery leaves no observer that can publish exactly when none has the next epoch. */
  lemma RecoveryQuietIff(m: string -> int, w: World, r: Response)
    requires Recoverable(w.session, r)
    ensures Quiet(Step(m, w, Recover(r))) <==> NoneObserves(w, Advance(w.session.epoch))
    ensures Step(m, w, Recover(r)).session.recovery
  {
    hide Recoverable, UnsupportedThread;
  }

  /** The guard is exact: an observer that still has something to publish does so after the recovery if and
      only if it has the next epoch. */
  lemma LateObserverPublishes(m: string -> int, w: World, r: Response, k: nat)
    requires Recoverable(w.session, r) && CanCommit(w, k) && Publication(w.calls[k].observation.value, w.calls[k].answer.value).Some?
    requires !w.calls[k].committed && !Unpublishable(w.calls[k].answer.value)
    ensures Step(m, Step(m, w, Recover(r)), Commit(k)).session.completed.Some? <==> w.calls[k].observation.value.epoch == Advance(w.session.epoch)
  {
    hide Recoverable, UnsupportedThread, Publication, Unpublishable;
  }

  /** Before 2^64 advances no observer has the next epoch. */
  lemma BeforeWrap(m: string -> int, w: World)
    requires Inv(m, w) && Ticks(w) && w.advances + 1 < U64
    ensures NoneObserves(w, Advance(w.session.epoch))
  {
    hide Conveys, Consistent, Publication, Explicit;
    forall k | 0 <= k < |w.calls| && w.calls[k].observation.Some? ensures w.calls[k].observation.value.epoch != w.advances + 1 {
      assert GoodCall(m, w.store, w.used, w.calls[k]);
    }
  }

  /** A prepared request that continues nothing: the logical body, or the one that creates its thread. */
  predicate Whole(d: Draft, result: PrepareResult) {
    result.Ready? ==>
      && result.mode == Recreate && d.logical.Some?
      && (result.wire == d.logical.value || Some(result.wire) == WholeBody(CapabilityOf(d.profile), d.logical.value))
  }

  lemma QuietPrepare(m: string -> int, s: Session, d: Draft, recent: bool, token: nat)
    requires s.completed.None? && s.recovery
    ensures Whole(d, PrepareStep(m, s, d, recent, token).1)
  {
    hide Eligible, CapabilityOf, Stateless, CountItems, Items, Explicit, WholeBody;
  }

  /** In every run: after an accepted recovery that finds no observer of the next epoch, however many
      observers commit late, the next preparation does not continue anything but sends the whole body. */
  lemma RecoverySendsWhole(m: string -> int, events: seq<Event>, r: Response, late: seq<Event>, d: Draft, recent: bool)
    requires var w := After(m, events); Recoverable(w.session, r) && NoneObserves(w, Advance(w.session.epoch))
    requires forall i :: 0 <= i < |late| ==> Outside(late[i])
    ensures var w := After(m, events + [Recover(r)] + late);
            Whole(d, PrepareStep(m, w.session, d, recent, |w.drafts|).1)
  {
    hide Quiet, NoneObserves, Recoverable, Step;
    var recovered := events + [Recover(r)];
    assert recovered[..|events|] == events;
    RecoveryQuietIff(m, After(m, events), r);
    OutsideRun(m, recovered, late);
    QuietSession(After(m, recovered));
    QuietPrepare(m, After(m, recovered + late).session, d, recent, |After(m, recovered + late).drafts|);
  }

  /** In particular in every run of fewer than 2^64 advances. */
  lemma RecoveryBeforeWrap(m: string -> int, events: seq<Event>, r: Response, late: seq<Event>, d: Draft, recent: bool)
    requires Recoverable(After(m, events).session, r) && After(m, events).advances + 1 < U64
    requires forall i :: 0 <= i < |late| ==> Outside(late[i])
    ensures var w := After(m, events + [Recover(r)] + late);
            Whole(d, PrepareStep(m, w.session, d, recent, |w.drafts|).1)
  {
    hide After, NoneObserves, Inv, Ticks, Recoverable;
    Always(m, events);
    BeforeWrap(m, After(m, events));
    RecoverySendsWhole(m, events, r, late, d, recent);
  }

  lemma QuietSession(w: World)
    requires Quiet(w)
    ensures w.session.completed.None?
  {
  }

  // ----- the epoch wraps -----

  function Resets(n: nat, s: Session): Session { if n == 0 then s else Cleared(Resets(n - 1, s)) }

  lemma {:induction false} ResetEpoch(n: nat, s: Session)
    requires s.epoch < U64
    ensures Resets(n, s).epoch == (s.epoch + n) % U64
  {
    if n > 0 {
      ResetEpoch(n - 1, s);
      AdvanceWraps(s.epoch + n - 1);
    }
  }

  /** The guard fails exactly at a whole number of wraps: after `n` resets an old observer can publish
      if and only if 2^64 divides `n`. */
  lemma StaleObserverPublishes(s: Session, o: Observation, body: Json, n: nat)
    requires s.epoch == o.epoch < U64 && n > 0 && !Unpublishable(body) && Publication(o, body).Some?
    ensures CommitStep(Resets(n, s), o, false, body).0.completed.Some? <==> n % U64 == 0
  {
    hide Publication, Unpublishable;
    ResetEpoch(n, s);
    assert Resets(n, s).completed.None?;
    Wraps(s.epoch, n);
  }

  lemma Wraps(e: nat, n: nat)
    requires e < U64
    ensures (e + n) % U64 == e <==> n % U64 == 0
  {
    var q, r := n / U64, n % U64;
    assert n == U64 * q + r;
    if e + r < U64 {
      assert (e + n) % U64 == e + r by { assert e + n == U64 * q + (e + r); ModUnique(q, e + r); }
    } else {
      assert (e + n) % U64 == e + r - U64 by { assert e + n == U64 * (q + 1) + (e + r - U64); ModUnique(q + 1, e + r - U64); }
    }
  }

  lemma ModUnique(q: int, r: nat)
    requires r < U64
    ensures (U64 * q + r) % U64 == r
  {
  }
}
