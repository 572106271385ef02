/** Continuation on a WebSocket. */
module WebSocket {
  // Turn-scoped continuation on a Responses WebSocket: the cached response lets a full-history body
  // shrink to its new items, and every run gives the endpoint the history the caller meant.

  import opened JsonValue

  /** A parsed JSON document compared as such: objects are maps, so equality is blind to member order. */
  datatype Value =
    | Null | Bool(flag: bool) | Number(token: string) | Text(text: string)
    | Array(items: seq<Value>) | Object(fields: map<string, Value>)

  function Get(v: Value, name: string): Option<Value> {
    if v.Object? && name in v.fields then Some(v.fields[name]) else None
  }

  function AsText(v: Option<Value>): Option<string> { if v.Some? && v.value.Text? then Some(v.value.text) else None }

  function AsArray(v: Option<Value>): Option<seq<Value>> { if v.Some? && v.value.Array? then Some(v.value.items) else None }

  // ----- comparing items -----

  function StripPart(part: Value): Value {
    if AsText(Get(part, "type")) == Some("output_text") then Object(part.fields - {"annotations", "logprobs"}) else part
  }

  function StripParts(parts: seq<Value>): seq<Value> { seq(|parts|, k requires 0 <= k < |parts| => StripPart(parts[k])) }

  predicate IsMessage(item: Value) {
    || AsText(Get(item, "type")) == Some("message")
    || (Get(item, "type").None? && AsText(Get(item, "role")) == Some("assistant"))
  }

  /** `response_item_for_comparison`: envelope and rendering metadata removed from known item types. */
  function Strip(item: Value): Value {
    if IsMessage(item) then
      var fields := (item.fields - {"id", "status"})["type" := Text("message")];
      match AsArray(Get(item, "content"))
      case Some(parts) => Object(fields["content" := Array(StripParts(parts))])
      case None => Object(fields)
    else if AsText(Get(item, "type")) == Some("function_call") then Object(item.fields - {"id", "status"})
    else item
  }

  /** Item by item equal once stripped. */
  predicate Matches(xs: seq<Value>, ys: seq<Value>) {
    |xs| == |ys| && forall k :: 0 <= k < |xs| ==> Strip(xs[k]) == Strip(ys[k])
  }

  // ----- what matching items share -----

  /** Two objects agree on every field but these. */
  ghost predicate AgreeBut(a: Value, b: Value, names: set<string>) {
    a.Object? && b.Object? && forall name :: name !in names ==> Get(a, name) == Get(b, name)
  }

  predicate Spoken(item: Value) {
    || Get(item, "type") == Some(Text("message"))
    || (Get(item, "type").None? && Get(item, "role") == Some(Text("assistant")))
  }

  /** Parts are equal, but for annotations and log probabilities of output text. */
  ghost predicate SamePart(x: Value, y: Value) {
    if Get(x, "type") == Some(Text("output_text")) then AgreeBut(x, y, {"annotations", "logprobs"}) else x == y
  }

  ghost predicate SameContent(a: Option<Value>, b: Option<Value>) {
    if a.Some? && b.Some? && a.value.Array? && b.value.Array? then
      |a.value.items| == |b.value.items| && forall k :: 0 <= k < |a.value.items| ==> SamePart(a.value.items[k], b.value.items[k])
    else a == b
  }

  /** Messages agree on everything but id, status, type and content, and part by part on the content; calls on
      everything but id and status; other items are equal. */
  ghost predicate SameItem(a: Value, b: Value) {
    if Spoken(a) && Spoken(b) then AgreeBut(a, b, {"id", "status", "type", "content"}) && SameContent(Get(a, "content"), Get(b, "content"))
    else if Get(a, "type") == Some(Text("function_call")) then AgreeBut(a, b, {"id", "status"})
    else a == b
  }

  ghost predicate Same(xs: seq<Value>, ys: seq<Value>) {
    |xs| == |ys| && forall k :: 0 <= k < |xs| ==> SameItem(xs[k], ys[k])
  }

  lemma PartIff(x: Value, y: Value)
    ensures StripPart(x) == StripPart(y) <==> SamePart(x, y)
  {
    if Get(x, "type") == Some(Text("output_text")) == Get(y, "type") {
      var p, q := StripPart(x), StripPart(y);
      if AgreeBut(x, y, {"annotations", "logprobs"}) {
        forall name ensures (name in p.fields <==> name in q.fields) && (name in p.fields ==> p.fields[name] == q.fields[name]) {
          assert name !in {"annotations", "logprobs"} ==> Get(x, name) == Get(y, name);
        }
      }
      if p == q {
        forall name | name !in {"annotations", "logprobs"} ensures Get(x, name) == Get(y, name) { assert Get(x, name) == Get(p, name) && Get(y, name) == Get(q, name); }
      }
    } else if Get(x, "type") == Some(Text("output_text")) {
      assert Get(StripPart(x), "type") == Some(Text("output_text"));
    } else if Get(y, "type") == Some(Text("output_text")) {
      assert Get(StripPart(y), "type") == Some(Text("output_text"));
    }
  }

  lemma PartsIff(xs: seq<Value>, ys: seq<Value>)
    ensures StripParts(xs) == StripParts(ys) <==> |xs| == |ys| && forall k :: 0 <= k < |xs| ==> SamePart(xs[k], ys[k])
  {
    hide StripPart, SamePart;
    if |xs| == |ys| {
      forall k | 0 <= k < |xs| ensures StripParts(xs)[k] == StripParts(ys)[k] <==> SamePart(xs[k], ys[k]) { PartIff(xs[k], ys[k]); }
    }
  }

  /** The fields of a stripped message. */
  lemma SpokenFields(item: Value, name: string)
    requires Spoken(item)
    ensures Strip(item).Object?
    ensures Get(Strip(item), name) ==
              if name == "content" && AsArray(Get(item, "content")).Some? then Some(Array(StripParts(AsArray(Get(item, "content")).value)))
              else if name == "type" then Some(Text("message"))
              else if name == "id" || name == "status" then None
              else Get(item, name)
  {
    hide StripParts;
    assert "content" != "type" && "content" != "id" && "content" != "status" by { assert |"content"| == 7; }
    assert "type" != "id" && "type" != "status" by { assert |"type"| == 4; }
  }

  lemma ContentIff(a: Value, b: Value)
    requires Spoken(a) && Spoken(b)
    ensures Get(Strip(a), "content") == Get(Strip(b), "content") <==> SameContent(Get(a, "content"), Get(b, "content"))
  {
    SpokenFields(a, "content");
    SpokenFields(b, "content");
    hide Strip, StripParts, SamePart;
    assert "content" != "type" && "content" != "id" && "content" != "status" by { assert |"content"| == 7; }
    var x, y := Get(a, "content"), Get(b, "content");
    if AsArray(x).Some? && AsArray(y).Some? { PartsIff(x.value.items, y.value.items); }
    if AsArray(x).Some? && AsArray(y).None? { assert Get(Strip(a), "content") == Some(Array(StripParts(x.value.items))); }
    if AsArray(y).Some? && AsArray(x).None? { assert Get(Strip(b), "content") == Some(Array(StripParts(y.value.items))); }
  }

  lemma ObjectsIff(a: Value, b: Value)
    requires a.Object? && b.Object?
    ensures a == b <==> forall name :: Get(a, name) == Get(b, name)
  {
    if forall name :: Get(a, name) == Get(b, name) {
      forall name ensures (name in a.fields <==> name in b.fields) && (name in a.fields ==> a.fields[name] == b.fields[name]) { assert Get(a, name) == Get(b, name); }
      assert a.fields == b.fields;
    }
  }

  lemma SpokenIff(a: Value, b: Value)
    requires Spoken(a) && Spoken(b)
    ensures Strip(a) == Strip(b) <==>
              AgreeBut(a, b, {"id", "status", "type", "content"}) && SameContent(Get(a, "content"), Get(b, "content"))
  {
    ContentIff(a, b);
    forall name ensures
        && Strip(a).Object? && Strip(b).Object?
        && (name !in {"id", "status", "type", "content"} ==> Get(Strip(a), name) == Get(a, name) && Get(Strip(b), name) == Get(b, name))
        && (name in {"id", "status", "type"} ==> Get(Strip(a), name) == Get(Strip(b), name)) {
      SpokenFields(a, name);
      SpokenFields(b, name);
    }
    hide Strip, SameContent, Get;
    ObjectsIff(Strip(a), Strip(b));
    SpokenObjects(a, b);
    if AgreeBut(a, b, {"id", "status", "type", "content"}) && SameContent(Get(a, "content"), Get(b, "content")) {
      forall name ensures Get(Strip(a), name) == Get(Strip(b), name) {
        if name !in {"id", "status", "type", "content"} { assert Get(a, name) == Get(b, name); }
      }
    }
    if Strip(a) == Strip(b) {
      forall name | name !in {"id", "status", "type", "content"} ensures Get(a, name) == Get(b, name) { assert Get(Strip(a), name) == Get(Strip(b), name); }
    }
  }

  lemma SpokenObjects(a: Value, b: Value)
    requires Spoken(a) && Spoken(b)
    ensures a.Object? && b.Object?
  {
  }

  lemma CalledIff(a: Value, b: Value)
    requires Get(a, "type") == Some(Text("function_call")) == Get(b, "type")
    ensures Strip(a) == Strip(b) <==> AgreeBut(a, b, {"id", "status"})
  {
    CalledStripped(a);
    CalledStripped(b);
    hide Strip;
    ObjectsIff(Strip(a), Strip(b));
    forall name ensures
        && Strip(a).Object? && Strip(b).Object?
        && Get(Strip(a), name) == (if name in {"id", "status"} then None else Get(a, name))
        && Get(Strip(b), name) == (if name in {"id", "status"} then None else Get(b, name)) {
    }
    hide Get;
    if AgreeBut(a, b, {"id", "status"}) {
      forall name ensures Get(Strip(a), name) == Get(Strip(b), name) {
        if name !in {"id", "status"} { assert Get(a, name) == Get(b, name); }
      }
    }
    if Strip(a) == Strip(b) {
      forall name | name !in {"id", "status"} ensures Get(a, name) == Get(b, name) { assert Get(Strip(a), name) == Get(Strip(b), name); }
    }
  }

  lemma CalledStripped(a: Value)
    requires Get(a, "type") == Some(Text("function_call"))
    ensures a.Object? && Strip(a) == Object(a.fields - {"id", "status"}) && !Spoken(a)
  {
    assert "function_call" != "message" by { assert |"function_call"| == 13; }
  }

  lemma StripKind(item: Value)
    ensures Spoken(item) ==> Get(Strip(item), "type") == Some(Text("message"))
    ensures !Spoken(item) ==> Get(Strip(item), "type") == Get(item, "type")
    ensures !Spoken(item) && Get(item, "type") != Some(Text("function_call")) ==> Strip(item) == item
    ensures Get(item, "type") == Some(Text("message")) ==> Spoken(item)
  {
    if Spoken(item) {
      SpokenFields(item, "type");
      assert "type" != "content" by { assert |"type"| == 4; }
    } else if Get(item, "type") == Some(Text("function_call")) {
      CalledStripped(item);
      assert "type" !in {"id", "status"} by { assert |"type"| == 4; }
    }
  }

  /** Stripped items are equal exactly when the items share what counts. */
  lemma StripIff(a: Value, b: Value)
    ensures Strip(a) == Strip(b) <==> SameItem(a, b)
  {
    StripKind(a);
    StripKind(b);
    assert "type" !in {"id", "status"} by { assert |"type"| == 4; }
    assert "function_call" != "message" by { assert |"function_call"| == 13; }
    hide Strip, SameContent;
    if Spoken(a) && Spoken(b) {
      SpokenIff(a, b);
    } else if Get(a, "type") == Some(Text("function_call")) && Get(b, "type") == Some(Text("function_call")) {
      CalledIff(a, b);
    }
  }

  /** Whole lists match exactly when their items share what counts, one by one. */
  lemma MatchesIff(xs: seq<Value>, ys: seq<Value>)
    ensures Matches(xs, ys) <==> Same(xs, ys)
  {
    hide Strip, SameItem;
    if |xs| == |ys| {
      forall k | 0 <= k < |xs| ensures Strip(xs[k]) == Strip(ys[k]) <==> SameItem(xs[k], ys[k]) { StripIff(xs[k], ys[k]); }
    }
  }

  /** Stripping twice strips nothing more. */
  lemma StripIdempotent(item: Value)
    ensures Strip(Strip(item)) == Strip(item)
  {
    if IsMessage(item) {
      var s := Strip(item);
      match AsArray(Get(item, "content"))
      case None => assert (s.fields - {"id", "status"})["type" := Text("message")] == s.fields;
      case Some(parts) =>
        var once := StripParts(parts);
        forall k | 0 <= k < |parts| ensures StripPart(once[k]) == once[k] {
          if AsText(Get(parts[k], "type")) == Some("output_text") { assert once[k].fields - {"annotations", "logprobs"} == once[k].fields; }
        }
        assert StripParts(once) == once;
        assert (s.fields - {"id", "status"})["type" := Text("message")]["content" := Array(once)] == s.fields;
    } else if AsText(Get(item, "type")) == Some("function_call") {
      var s := Strip(item);
      assert s.fields - {"id", "status"} == s.fields;
    }
  }

  // ----- the session state -----

  datatype State = State(
    healthy: bool, lastRequest: Option<Value>, lastId: Option<string>, lastAdded: seq<Value>,
    lastOutput: Option<seq<Value>>, lastFromPrewarm: bool)

  function NonInput(body: Value): Value {
    if body.Object? then Object(body.fields - {"input", "previous_response_id", "generate"}) else body
  }

  /** `incremental_responses_body` */
  function Incremental(s: State, logical: Value): Option<Value> {
    if Get(logical, "previous_response_id").Some? then None
    else
      var id :- s.lastId;
      var previous :- s.lastRequest;
      if Get(previous, "previous_response_id").Some? || NonInput(previous) != NonInput(logical) then None
      else
        var sent :- AsArray(Get(previous, "input"));
        var current :- AsArray(Get(logical, "input"));
        var output :- s.lastOutput;
        var n := |sent| + |output|;
        if |current| < n || !(sent <= current) || !Matches(output, current[|sent|..n]) then None
        else Some(Object(logical.fields["previous_response_id" := Text(id)]["input" := Array(current[n..])]))
  }

  function Kind(frame: Value): Option<string> { AsText(Get(frame, "type")) }

  function FrameId(frame: Value): Option<string> {
    var response :- Get(frame, "response");
    AsText(Get(response, "id"))
  }

  function FrameOutput(frame: Value): Option<seq<Value>> {
    var response :- Get(frame, "response");
    AsArray(Get(response, "output"))
  }

  /** The output a completed frame leaves behind; a prewarm without one has none. */
  function Retained(frame: Value, prewarm: bool): Option<seq<Value>> {
    if FrameOutput(frame).Some? then FrameOutput(frame) else if prewarm then Some([]) else None
  }

  function ClearStep(s: State, unhealthy: bool): State {
    State(s.healthy && !unhealthy, None, None, [], None, false)
  }

  /** `observe_response_frame` on the shared state; `added` is the caller's list of announced items. */
  function ObserveStep(s: State, logical: Value, prewarm: bool, added: seq<Value>, frame: Option<Value>): State {
    if frame.None? then s
    else
      var kind := Kind(frame.value);
      if kind == Some("response.completed") then
        State(true, Some(logical), FrameId(frame.value), added, Retained(frame.value, prewarm), prewarm)
      else if kind == Some("response.incomplete") then ClearStep(s, false)
      else if kind == Some("response.failed") || kind == Some("error") then ClearStep(s, true)
      else s
  }

  predicate Terminal(kind: Option<string>) {
    kind.Some? && kind.value in ["response.completed", "response.incomplete", "response.failed", "error"]
  }

  /** A frame of this type. */
  predicate Typed(frame: Option<Value>, kind: string) { frame.Some? && Get(frame.value, "type") == Some(Text(kind)) }

  function Inside(v: Value, outer: string, inner: string): Option<Value> {
    if Get(v, outer).Some? then Get(Get(v, outer).value, inner) else None
  }

  class SessionState {
    var connectionHealthy: bool
    var lastRequestBody: Option<Value>
    var lastResponseId: Option<string>
    var lastAddedResponseItems: seq<Value>
    var lastResponseOutput: Option<seq<Value>>
    var lastResponseFromPrewarm: bool

    function View(): State
      reads this
    {
      State(connectionHealthy, lastRequestBody, lastResponseId, lastAddedResponseItems, lastResponseOutput, lastResponseFromPrewarm)
    }

    constructor ()
      ensures View() == State(false, None, None, [], None, false)
    {
      connectionHealthy, lastRequestBody, lastResponseId := false, None, None;
      lastAddedResponseItems, lastResponseOutput, lastResponseFromPrewarm := [], None, false;
    }

    /** `clear_continuation` */
    method ClearContinuation(unhealthy: bool)
      modifies this
      ensures View() == ClearStep(old(View()), unhealthy)
      ensures lastRequestBody.None? && lastResponseId.None? && lastAddedResponseItems == [] && lastResponseOutput.None? && !lastResponseFromPrewarm
      ensures connectionHealthy == (old(connectionHealthy) && !unhealthy)
    {
      lastRequestBody := None;
      lastResponseId := None;
      lastAddedResponseItems := [];
      lastResponseOutput := None;
      lastResponseFromPrewarm := false;
      if unhealthy {
        connectionHealthy := false;
      }
    }

    /** `observe_response_frame` */
    method ObserveResponseFrame(logical: Value, prewarm: bool, added: seq<Value>, terminal: bool, frame: Option<Value>)
        returns (added': seq<Value>, terminal': bool)
      modifies this
      ensures View() == ObserveStep(old(View()), logical, prewarm, added, frame)
      ensures Typed(frame, "response.completed") ==>
                && connectionHealthy && lastRequestBody == Some(logical) && lastAddedResponseItems == added && lastResponseFromPrewarm == prewarm
                && (forall id :: lastResponseId == Some(id) <==> Inside(frame.value, "response", "id") == Some(Text(id)))
                && (forall items :: Inside(frame.value, "response", "output") == Some(Array(items)) ==> lastResponseOutput == Some(items))
                && ((forall items :: Inside(frame.value, "response", "output") != Some(Array(items))) ==> lastResponseOutput == if prewarm then Some([]) else None)
      ensures Typed(frame, "response.incomplete") || Typed(frame, "response.failed") || Typed(frame, "error") ==>
                && lastRequestBody.None? && lastResponseId.None? && lastAddedResponseItems == [] && lastResponseOutput.None? && !lastResponseFromPrewarm
                && connectionHealthy == (old(connectionHealthy) && Typed(frame, "response.incomplete"))
      ensures !Typed(frame, "response.completed") && !Typed(frame, "response.incomplete") && !Typed(frame, "response.failed") && !Typed(frame, "error") ==>
                View() == old(View())
      ensures added' == if frame.Some? && Kind(frame.value) == Some("response.output_item.added") && Get(frame.value, "item").Some?
                        then added + [Get(frame.value, "item").value] else added
      ensures terminal' <==> (terminal || (frame.Some? && Terminal(Kind(frame.value))))
    {
      added', terminal' := added, terminal;
      if frame.None? {
        return;
      }
      var kind := Kind(frame.value);
      if kind == Some("response.output_item.added") {
        var item := Get(frame.value, "item");
        if item.Some? {
          added' := added + [item.value];
        }
      } else if kind == Some("response.completed") {
        terminal' := true;
        lastRequestBody := Some(logical);
        lastResponseId := FrameId(frame.value);
        lastAddedResponseItems := added;
        lastResponseOutput := FrameOutput(frame.value);
        if lastResponseOutput.None? && prewarm {
          lastResponseOutput := Some([]);
        }
        lastResponseFromPrewarm := prewarm;
        connectionHealthy := true;
      } else if kind == Some("response.incomplete") || kind == Some("response.failed") || kind == Some("error") {
        terminal' := true;
        ClearContinuation(kind != Some("response.incomplete"));
      }
    }
  }

  // ----- the endpoint -----

  function Input(body: Value): seq<Value> {
    var items := AsArray(Get(body, "input"));
    if items.Some? then items.value else []
  }

  /** The history a request gives the endpoint: nothing if it names a response the endpoint does not hold. */
  function View(store: map<string, seq<Value>>, wire: Value): Option<seq<Value>> {
    match AsText(Get(wire, "previous_response_id"))
    case None => Some(Input(wire))
    case Some(id) => if id in store then Some(store[id] + Input(wire)) else None
  }

  datatype Request = Request(logical: Value, wire: Value, prewarm: bool, answer: Option<Value>)

  datatype World = World(state: State, requests: seq<Request>, store: map<string, seq<Value>>, used: set<string>)

  function Start(): World { World(State(false, None, None, [], None, false), [], map[], {}) }

  datatype Event =
    | Send(logical: Value, prewarm: bool, shrink: bool)
    | Complete(request: nat, frame: Value)
    | Observe(request: nat, added: seq<Value>)
    | OtherFrame(request: nat, added: seq<Value>, observed: Option<Value>)
    | Clear(unhealthy: bool)
    | Forget(id: string)

  predicate CanComplete(w: World, k: nat, frame: Value) {
    && k < |w.requests| && w.requests[k].answer.None? && View(w.store, w.requests[k].wire).Some?
    && Kind(frame) == Some("response.completed")
    && (FrameId(frame).Some? ==> FrameId(frame).value !in w.used)
  }

  /** The endpoint stores the history it saw and its output under a fresh id. */
  function Completed(w: World, k: nat, frame: Value): World
    requires CanComplete(w, k, frame)
  {
    var requests := w.requests[k := w.requests[k].(answer := Some(frame))];
    if FrameId(frame).None? then w.(requests := requests)
    else
      var id, seen := FrameId(frame).value, View(w.store, w.requests[k].wire).value;
      var output := if FrameOutput(frame).Some? then FrameOutput(frame).value else [];
      w.(requests := requests, used := w.used + {id}, store := w.store[id := seen + output])
  }

  function Wire(s: State, logical: Value, shrink: bool): Value {
    if shrink && Incremental(s, logical).Some? then Incremental(s, logical).value else logical
  }

  /** One event; each completed frame is reported with its own request's logical body. */
  function Step(w: World, e: Event): World {
    match e
    case Send(logical, prewarm, shrink) => w.(requests := w.requests + [Request(logical, Wire(w.state, logical, shrink), prewarm, None)])
    case Complete(k, frame) => if CanComplete(w, k, frame) then Completed(w, k, frame) else w
    case Observe(k, added) =>
      if k < |w.requests| && w.requests[k].answer.Some?
      then w.(state := ObserveStep(w.state, w.requests[k].logical, w.requests[k].prewarm, added, w.requests[k].answer)) else w
    case OtherFrame(k, added, frame) =>
      if k < |w.requests| && (frame.Some? ==> Kind(frame.value) != Some("response.completed"))
      then w.(state := ObserveStep(w.state, w.requests[k].logical, w.requests[k].prewarm, added, frame)) else w
    case Clear(unhealthy) => w.(state := ClearStep(w.state, unhealthy))
    case Forget(id) => w.(store := w.store - {id})
  }

  function After(events: seq<Event>): World {
    if events == [] then Start() else Step(After(events[..|events| - 1]), events[|events| - 1])
  }

  // ----- what every event keeps -----

  predicate Explicit(body: Value) { Get(body, "previous_response_id").Some? }

  /** The endpoint sees the request's logical input, item by item. */
  ghost predicate Conveys(store: map<string, seq<Value>>, used: set<string>, r: Request) {
    if Explicit(r.logical) then r.wire == r.logical
    else
      match AsText(Get(r.wire, "previous_response_id"))
      case None => r.wire == r.logical
      case Some(id) =>
        && id in used && (id in store ==> Same(store[id] + Input(r.wire), Input(r.logical)))
        && AgreeBut(r.wire, r.logical, {"input", "previous_response_id"})
  }

  /** The endpoint's history for an id is the request's input followed by the output. */
  ghost predicate Holds(store: map<string, seq<Value>>, used: set<string>, id: string, logical: Value, output: seq<Value>) {
    id in used && (id in store && !Explicit(logical) ==> Same(store[id], Input(logical) + output))
  }

  ghost predicate GoodRequest(store: map<string, seq<Value>>, used: set<string>, r: Request) {
    && Conveys(store, used, r)
    && (r.answer.Some? ==> Kind(r.answer.value) == Some("response.completed"))
    && (r.answer.Some? && FrameId(r.answer.value).Some? && Retained(r.answer.value, r.prewarm).Some? ==>
          Holds(store, used, FrameId(r.answer.value).value, r.logical, Retained(r.answer.value, r.prewarm).value))
  }

  ghost predicate Inv(w: World) {
    && (forall k :: 0 <= k < |w.requests| ==> GoodRequest(w.store, w.used, w.requests[k]))
    && (w.state.lastId.Some? && w.state.lastRequest.Some? && w.state.lastOutput.Some? ==>
          Holds(w.store, w.used, w.state.lastId.value, w.state.lastRequest.value, w.state.lastOutput.value))
  }

  lemma SameTransitive(xs: seq<Value>, ys: seq<Value>, zs: seq<Value>)
    requires Same(xs, ys) && Same(ys, zs)
    ensures Same(xs, zs)
  {
    hide Strip, SameItem;
    MatchesIff(xs, ys);
    MatchesIff(ys, zs);
    MatchesIff(xs, zs);
  }

  lemma SameAppend(xs: seq<Value>, ys: seq<Value>, more: seq<Value>)
    requires Same(xs, ys)
    ensures Same(xs + more, ys + more)
  {
    hide Strip, SameItem;
    MatchesIff(xs, ys);
    MatchesIff(xs + more, ys + more);
  }

  /** The cached history and the items that are sent make up the whole logical input. */
  lemma IncrementalConveys(s: State, store: map<string, seq<Value>>, used: set<string>, logical: Value)
    requires Incremental(s, logical).Some?
    requires Holds(store, used, s.lastId.value, s.lastRequest.value, s.lastOutput.value)
    ensures Conveys(store, used, Request(logical, Incremental(s, logical).value, false, None))
  {
    hide Strip, SameItem;
    var wire, id := Incremental(s, logical).value, s.lastId.value;
    var sent, output, current := Input(s.lastRequest.value), s.lastOutput.value, Input(logical);
    var n := |sent| + |output|;
    assert wire.fields["input"] == Array(current[n..]) && wire.fields["previous_response_id"] == Text(id);
    if id in store {
      assert Same(sent + output, current[..n]) by {
        MatchesIff(output, current[|sent|..n]);
        MatchesIff(sent, sent);
        assert forall k :: 0 <= k < |sent| ==> sent[k] == current[k] && SameItem(sent[k], sent[k]);
        assert forall k :: 0 <= k < |output| ==> (sent + output)[|sent| + k] == output[k] && current[|sent|..n][k] == current[|sent| + k];
      }
      SameTransitive(store[id], sent + output, current[..n]);
      SameAppend(store[id], current[..n], current[n..]);
      assert current[..n] + current[n..] == current;
    }
  }

  /** A body is shrunk exactly when neither it nor the cached request names a response, the settings of both agree,
      and its input begins with the cached input, item by item equal, and the cached output. */
  lemma IncrementalIff(s: State, logical: Value)
    ensures Incremental(s, logical).Some? <==>
              && s.lastId.Some? && s.lastRequest.Some? && s.lastOutput.Some?
              && Get(logical, "previous_response_id").None? && Get(s.lastRequest.value, "previous_response_id").None?
              && AgreeBut(s.lastRequest.value, logical, {"input", "previous_response_id", "generate"})
              && AsArray(Get(s.lastRequest.value, "input")).Some? && AsArray(Get(logical, "input")).Some?
              && var sent, output, current := AsArray(Get(s.lastRequest.value, "input")).value, s.lastOutput.value, AsArray(Get(logical, "input")).value;
              && |sent| + |output| <= |current|
              && current[..|sent|] == sent && Same(output, current[|sent|..|sent| + |output|])
  {
    hide Matches, Same;
    if s.lastRequest.Some? && s.lastOutput.Some? && AsArray(Get(s.lastRequest.value, "input")).Some? && AsArray(Get(logical, "input")).Some? {
      NonInputIff(s.lastRequest.value, logical);
      hide NonInput, AgreeBut;
      var sent, output, current := AsArray(Get(s.lastRequest.value, "input")).value, s.lastOutput.value, AsArray(Get(logical, "input")).value;
      var n := |sent| + |output|;
      if n <= |current| { MatchesIff(output, current[|sent|..n]); }
    }
  }

  lemma NonInputIff(a: Value, b: Value)
    requires a.Object? && b.Object?
    ensures NonInput(a) == NonInput(b) <==> AgreeBut(a, b, {"input", "previous_response_id", "generate"})
  {
    var names := {"input", "previous_response_id", "generate"};
    ObjectsIff(NonInput(a), NonInput(b));
    forall name ensures
        && Get(NonInput(a), name) == (if name in names then None else Get(a, name))
        && Get(NonInput(b), name) == (if name in names then None else Get(b, name)) {
    }
    hide Get, NonInput;
    if NonInput(a) == NonInput(b) {
      forall name | name !in names ensures Get(a, name) == Get(b, name) { assert Get(NonInput(a), name) == Get(NonInput(b), name); }
    }
    if AgreeBut(a, b, names) {
      forall name ensures Get(NonInput(a), name) == Get(NonInput(b), name) { if name !in names { assert Get(a, name) == Get(b, name); } }
    }
  }

  /** Shrinking happens only without an explicit continuation, and only when a whole prefix is cached. */
  lemma IncrementalOnlyImplicit(s: State, logical: Value)
    ensures Incremental(s, logical).Some? ==>
              !Explicit(logical) && s.lastId.Some? && s.lastRequest.Some? && s.lastOutput.Some? && !Explicit(s.lastRequest.value)
  {
  }

  predicate Extends(store: map<string, seq<Value>>, used: set<string>, store': map<string, seq<Value>>, used': set<string>) {
    used <= used' && forall id :: id in used && id in store' ==> id in store && store'[id] == store[id]
  }

  lemma StoreKeeps(w: World, store': map<string, seq<Value>>, used': set<string>)
    requires Inv(w) && Extends(w.store, w.used, store', used')
    ensures Inv(w.(store := store', used := used'))
  {
    hide Same, Explicit, FrameId, Retained, Kind, Input;
    forall k | 0 <= k < |w.requests| ensures GoodRequest(store', used', w.requests[k]) {
      assert GoodRequest(w.store, w.used, w.requests[k]);
    }
  }

  lemma CompleteKeeps(w: World, k: nat, frame: Value)
    requires Inv(w) && CanComplete(w, k, frame)
    ensures Inv(Completed(w, k, frame))
  {
    var w', r := Completed(w, k, frame), w.requests[k];
    assert GoodRequest(w.store, w.used, r);
    hide Strip, Kind, FrameId, FrameOutput, SameItem;
    StoreKeeps(w, w'.store, w'.used);
    assert Conveys(w'.store, w'.used, r);
    if FrameId(frame).Some? && Retained(frame, r.prewarm).Some? && !Explicit(r.logical) {
      var seen := View(w.store, r.wire).value;
      var output := Retained(frame, r.prewarm).value;
      assert Same(seen, Input(r.logical));
      SameAppend(seen, Input(r.logical), output);
    }
    assert GoodRequest(w'.store, w'.used, w'.requests[k]);
    forall l | 0 <= l < |w'.requests| && l != k ensures GoodRequest(w'.store, w'.used, w'.requests[l]) {
      assert w'.requests[l] == w.(store := w'.store, used := w'.used).requests[l];
    }
  }

  lemma SendKeeps(w: World, logical: Value, prewarm: bool, shrink: bool)
    requires Inv(w)
    ensures Inv(Step(w, Send(logical, prewarm, shrink)))
  {
    hide Same, Incremental, NonInput, Holds;
    IncrementalOnlyImplicit(w.state, logical);
    if shrink && Incremental(w.state, logical).Some? { IncrementalConveys(w.state, w.store, w.used, logical); }
    assert GoodRequest(w.store, w.used, Request(logical, Wire(w.state, logical, shrink), prewarm, None));
  }

  lemma StepKeeps(w: World, e: Event)
    requires Inv(w)
    ensures Inv(Step(w, e))
  {
    hide Completed, CanComplete, FrameOutput, FrameId, Same, Conveys;
    match e
    case Send(logical, prewarm, shrink) => SendKeeps(w, logical, prewarm, shrink);
    case Complete(k, frame) => if CanComplete(w, k, frame) { CompleteKeeps(w, k, frame); }
    case Forget(id) => StoreKeeps(w, w.store - {id}, w.used);
    case Observe(k, _) => if k < |w.requests| { assert GoodRequest(w.store, w.used, w.requests[k]); }
    case _ =>
  }

  lemma {:induction false} Always(events: seq<Event>)
    ensures Inv(After(events))
    decreases |events|
  {
    hide Inv, Step;
    if events == [] {
      assert Inv(Start()) by { StartKeeps(); }
    } else {
      Always(events[..|events| - 1]);
      StepKeeps(After(events[..|events| - 1]), events[|events| - 1]);
    }
  }

  lemma StartKeeps()
    ensures Inv(Start())
  {
  }

  /** In every run: an explicit request goes out unchanged; any other gives the endpoint, when it
      holds the reference, the full logical input up to the comparison of items. */
  lemma EndpointSeesConversation(events: seq<Event>, k: nat)
    requires k < |After(events).requests|
    ensures var w := After(events);
            var r := w.requests[k];
            && (Explicit(r.logical) ==> r.wire == r.logical)
            && (!Explicit(r.logical) && View(w.store, r.wire).Some? ==> Same(View(w.store, r.wire).value, Input(r.logical)))
            && (!Explicit(r.logical) && r.wire != r.logical ==> AgreeBut(r.wire, r.logical, {"input", "previous_response_id"}))
  {
    hide Same, Strip, After, Inv;
    Always(events);
    SelfSame(Input(After(events).requests[k].logical));
    InvGood(After(events), k);
  }

  lemma SelfSame(xs: seq<Value>)
    ensures Same(xs, xs)
  {
    hide Strip;
    MatchesIff(xs, xs);
  }

  lemma InvGood(w: World, k: nat)
    requires Inv(w) && k < |w.requests|
    ensures GoodRequest(w.store, w.used, w.requests[k])
  {
  }
}
