/** Full-history conversation continuation: the caller passes the whole history on every call, and
    the session sends only a suffix with a response id when the prefix is one the endpoint holds. */
module Conversation {
  import opened Utf16
  import opened JsonValue
  import opened Payload

  datatype Protocol = OpenAiResponses | GeminiInteractions | AnthropicMessages | OtherProtocol

  /** The parts of a provider profile the session reads; the flags are `extra` booleans. */
  datatype Profile = Profile(
    protocol: Protocol, providerId: string, baseUrl: string, supportsWebsockets: bool,
    supportsPreviousResponseId: Option<bool>, supportsMessageThreads: Option<bool>, responseStoreDefault: Option<bool>)

  datatype Capability = Unsupported | Responses | AnthropicThread | GeminiInteraction

  function TrimSlashes(s: string): string {
    if s != [] && s[|s| - 1] == '/' then TrimSlashes(s[..|s| - 1]) else s
  }

  function CapabilityOf(p: Profile): Capability {
    match p.protocol
    case OpenAiResponses => if p.supportsPreviousResponseId == Some(true) then Responses else Unsupported
    case GeminiInteractions => GeminiInteraction
    case AnthropicMessages =>
      if p.supportsMessageThreads == Some(true) && p.providerId == "anthropic"
         && TrimSlashes(p.baseUrl) == "https://api.anthropic.com" then AnthropicThread
      else Unsupported
    case OtherProtocol => Unsupported
  }

  // ----- reading and rewriting a body -----

  function Input(c: Capability): string { if c == AnthropicThread then "messages" else "input" }

  function Previous(c: Capability): string {
    if c == GeminiInteraction then "previous_interaction_id" else "previous_response_id"
  }

  function Items(c: Capability, body: Json): Option<seq<Json>> {
    ItemsAt(body, if c == GeminiInteraction then ["input", "steps"] else [Input(c)])
  }

  function ReplaceInput(c: Capability, body: Json, items: seq<Json>): Option<Json> {
    if c == GeminiInteraction then
      var input :- Get(body, "input");
      var edited :- Replace(input, "steps", Some(Arr(items)));
      Replace(body, "input", Some(edited))
    else Replace(body, Input(c), Some(Arr(items)))
  }

  /** `{"type":"continue","previous_message_id":id}` */
  function ContinueThread(id: string): Json {
    Obj([Field(Encode("type"), Text("continue")), Field(Encode("previous_message_id"), Text(id))])
  }

  /** `{"type":"create"}` */
  function CreateThread(): Json { Obj([Field(Encode("type"), Text("create"))]) }

  /** The caller selects a continuation of its own; a null counts. */
  predicate Explicit(logical: Json) {
    || Get(logical, "previous_response_id").Some?
    || Get(logical, "previous_interaction_id").Some?
    || Get(logical, "conversation").Some?
    || Get(logical, "thread").Some?
  }

  // ----- comparing requests -----

  /** Several fields removed, one after the other. */
  function Without(j: Json, names: seq<string>): Option<Json>
    decreases |names|
  {
    if names == [] then Some(j)
    else
      var r :- Replace(j, names[0], None);
      Without(r, names[1..])
  }

  /** The same removals on every element, or failure. */
  function EachWithout(items: seq<Json>, names: seq<string>): Option<seq<Json>>
    decreases |items|
  {
    if items == [] then Some([])
    else
      var first :- Without(items[0], names);
      var rest :- EachWithout(items[1..], names);
      Some([first] + rest)
  }

  function StripOutputText(parts: seq<Json>): Option<seq<Json>> {
    if parts == [] then Some([])
    else
      var first :- if StringAt(parts[0], ["type"]) == Some("output_text") then Without(parts[0], ["annotations", "logprobs"]) else Some(parts[0]);
      var rest :- StripOutputText(parts[1..]);
      Some([first] + rest)
  }

  function ComparableThread(item: Json): Option<Json> {
    match ItemsAt(item, ["content"])
    case None => Some(item)
    case Some(blocks) =>
      var stripped :- EachWithout(blocks, ["cache_control"]);
      Replace(item, "content", Some(Arr(stripped)))
  }

  function ComparableMessage(item: Json): Option<Json> {
    var message :- Replace(item, "type", Some(Text("message")));
    match (ItemsAt(message, ["content"]), Get(message, "content"))
    case (Some(parts), _) =>
      var stripped :- StripOutputText(parts);
      Replace(message, "content", Some(Arr(stripped)))
    case (None, Some(part)) =>
      if part.Obj? then
        var stripped :- Without(part, ["annotations", "logprobs"]);
        Replace(message, "content", Some(Arr([stripped])))
      else Some(message)
    case (None, None) => Some(message)
  }

  function ComparableResponse(item: Json): Option<Json> {
    var kind := StringAt(item, ["type"]);
    if kind == Some("message") || kind == Some("function_call") || (kind == None && StringAt(item, ["role"]) == Some("assistant")) then
      var stripped :- Without(item, ["id", "status"]);
      if kind == Some("function_call") then Some(stripped) else ComparableMessage(stripped)
    else Some(item)
  }

  /** `comparable`: what counts when a replayed item is compared with a stored one. */
  function Comparable(c: Capability, item: Json): Option<Json> {
    match c
    case AnthropicThread => ComparableThread(item)
    case Responses => ComparableResponse(item)
    case _ => Some(item)
  }

  /** `prefix_matches`, which stops at the first difference. */
  function PrefixMatches(m: string -> int, prefix: seq<Json>, current: seq<Json>, c: Capability): Option<bool>
    decreases |prefix|
  {
    if prefix == [] || current == [] then Some(true)
    else
      var a :- Comparable(c, prefix[0]);
      var b :- Comparable(c, current[0]);
      if !SemEq(m, a, b) then Some(false) else PrefixMatches(m, prefix[1..], current[1..], c)
  }

  function ThreadFingerprint(body: Json): Option<Json> {
    var fallbacks :- Replace(body, "fallbacks", Some(Prim(if Get(body, "fallbacks").Some? then "true" else "false")));
    var container :- Replace(fallbacks, "container", At(body, ["container", "skills"]));
    match ItemsAt(body, ["mcp_servers"])
    case None => Some(container)
    case Some(servers) =>
      var stripped :- EachWithout(servers, ["authorization_token"]);
      Replace(container, "mcp_servers", Some(Arr(stripped)))
  }

  function Lower(s: string): string {
    seq(|s|, k requires 0 <= k < |s| => if 'A' <= s[k] <= 'Z' then (s[k] as int + 32) as char else s[k])
  }

  predicate Contains(s: string, part: string) {
    part <= s || (s != [] && Contains(s[1..], part))
  }

  predicate Accepts(modalities: seq<string>, name: string) {
    exists k :: 0 <= k < |modalities| && Lower(modalities[k]) == name
  }

  predicate PartSupported(modalities: seq<string>, part: Json) {
    match StringAt(part, ["type"])
    case None => false
    case Some(kind) =>
      if kind == "text" || kind == "image" || kind == "audio" || kind == "video" then Accepts(modalities, kind)
      else kind == "document" && StringAt(part, ["mime_type"]) == Some("application/pdf") && Accepts(modalities, "pdf")
  }

  predicate StepSupported(modalities: seq<string>, step: Json) {
    match StringAt(step, ["type"])
    case None => false
    case Some(kind) =>
      if kind == "function_call" then true
      else if kind == "user_input" || kind == "model_output" then PartsSupported(modalities, ItemsAt(step, ["content"]))
      else kind == "function_result" && PartsSupported(modalities, ItemsAt(step, ["result"]))
  }

  predicate PartsSupported(modalities: seq<string>, parts: Option<seq<Json>>) {
    parts.Some? && forall k :: 0 <= k < |parts.value| ==> PartSupported(modalities, parts.value[k])
  }

  predicate GeminiHistorySupported(body: Json, modalities: seq<string>) {
    var steps := ItemsAt(body, ["input", "steps"]);
    Accepts(modalities, "text") && steps.Some? && forall k :: 0 <= k < |steps.value| ==> StepSupported(modalities, steps.value[k])
  }

  /** A checked model switch on the first-party Gemini endpoint. */
  predicate ModelSwitch(previous: Json, current: Json, d: Draft) {
    && StringAt(previous, ["model"]) != StringAt(current, ["model"])
    && CapabilityOf(d.profile) == GeminiInteraction
    && d.profile.providerId == "google"
    && TrimSlashes(d.profile.baseUrl) == "https://generativelanguage.googleapis.com/v1beta"
    && GeminiHistorySupported(current, d.modalities)
  }

  function ThreadFreeFields(): seq<string> { ["max_tokens", "stop_sequences", "metadata", "service_tier"] }

  /** What must agree between two requests of one conversation, besides the items. */
  function Settings(body: Json, c: Capability, switch: bool): Option<Json> {
    var stateless :- Without(body, [Input(c), "stream"]);
    var anyModel :- Without(stateless, if switch then ["model"] else []);
    if c == AnthropicThread then
      var bound :- Without(anyModel, ThreadFreeFields());
      ThreadFingerprint(bound)
    else Some(anyModel)
  }

  /** `compatible` */
  function Compatible(m: string -> int, previous: Json, current: Json, d: Draft): Option<bool> {
    var c, switch := CapabilityOf(d.profile), ModelSwitch(previous, current, d);
    var a :- Settings(previous, c, switch);
    var b :- Settings(current, c, switch);
    Some(SemEq(m, a, b))
  }

  // ----- the session's state -----

  datatype Handshake = Handshake(url: string, headers: seq<(string, string)>)

  /** What the connection fingerprint digests; the digest is taken to be collision-free. */
  datatype Identity = Identity(scope: Option<string>, profile: Profile, handshake: Handshake)

  /** A request to prepare: settling, reading its body and authenticating can each fail. */
  datatype Draft = Draft(
    countTokens: bool, settled: bool, transport: nat, logical: Option<Json>, profile: Profile,
    modalities: seq<string>, scope: Option<string>, handshake: Option<Handshake>)

  datatype Mode = Full | Create | Continue | Recreate

  datatype Completed = Completed(identity: Identity, logical: Json, output: seq<Json>, id: string)

  datatype Observation = Observation(epoch: nat, identity: Identity, logical: Json, capability: Capability)

  datatype Session = Session(
    epoch: nat, completed: Option<Completed>,
    transport: Option<nat>, pending: Option<Observation>, binding: Option<nat>, mode: Mode, recovery: bool,
    lastReference: Option<string>, lastCapability: Option<Capability>,
    disabledThread: Option<Identity>, lastIdentity: Option<Identity>)

  datatype PrepareResult = Refused | Ready(wire: Json, mode: Mode, newItems: nat)

  const U64: nat := 0x1_0000_0000_0000_0000

  /** `wrapping_add(1)` */
  function Advance(epoch: nat): nat { (epoch + 1) % U64 }

  function NewSession(): Session { Session(0, None, None, None, None, Full, false, None, None, None, None) }

  /** `reset` and `clear_history` */
  function Cleared(s: Session): Session {
    s.(lastReference := None, epoch := Advance(s.epoch), completed := None, pending := None, binding := None)
  }

  /** `clear_history_preserving_transport` */
  function ClearedForPool(s: Session): Session {
    Cleared(s).(recovery := false, lastCapability := None, lastIdentity := None)
  }

  // ----- choosing the wire body -----

  datatype Choice = Choice(wire: Json, mode: Mode, reference: Option<string>, newItems: nat)

  function StoreFlag(body: Json): Option<Json> { Get(body, "store") }

  predicate Stored(d: Draft, logical: Json) {
    && StoreFlag(logical) != Some(Prim("false"))
    && (d.profile.responseStoreDefault != Some(false) || StoreFlag(logical) == Some(Prim("true")))
  }

  predicate ThreadSupported(body: Json) { Get(body, "compaction").None? && Get(body, "context_management").None? }

  predicate Eligible(s: Session, d: Draft, logical: Json, identity: Identity) {
    var c := CapabilityOf(d.profile);
    && c != Unsupported
    && !(c == AnthropicThread && s.disabledThread == Some(identity))
    && d.scope.Some? && d.scope.value != ""
    && Stored(d, logical)
    && !Explicit(logical)
    && Items(c, logical).Some?
    && (c == AnthropicThread ==> ThreadSupported(logical))
  }

  /** The reference to the stored history that the endpoint reads out of a body. */
  function AddReference(c: Capability, body: Json, id: string): Option<Json> {
    if c == AnthropicThread then
      var noSystem :- Replace(body, "system", None);
      var noTools :- Replace(noSystem, "tools", None);
      Replace(noTools, "thread", Some(ContinueThread(id)))
    else Replace(body, Previous(c), Some(Text(id)))
  }

  /** A continuation of the last completed response, if this request extends it; the outer failure
      is an error of the comparison. */
  function Continuation(m: string -> int, previous: Completed, d: Draft, logical: Json): Option<Option<Choice>>
    requires Items(CapabilityOf(d.profile), logical).Some?
  {
    var c := CapabilityOf(d.profile);
    var compatible :- Compatible(m, previous.logical, logical, d);
    if !compatible then Some(None)
    else
      var sent := Items(c, previous.logical);
      var prefix := (if sent.Some? then sent.value else []) + previous.output;
      var current := Items(c, logical).value;
      if |prefix| > |current| then Some(None)
      else
        var matches :- PrefixMatches(m, prefix, current, c);
        if !matches then Some(None)
        else
          var shrunk :- ReplaceInput(c, logical, current[|prefix|..]);
          var wire :- AddReference(c, shrunk, previous.id);
          Some(Some(Choice(wire, Continue, Some(previous.id), |current| - |prefix|)))
  }

  /** The body sent when the whole history is sent. */
  function WholeBody(c: Capability, logical: Json): Option<Json> {
    if c == AnthropicThread then Replace(logical, "thread", Some(CreateThread())) else Some(logical)
  }

  /** The wire body of an eligible request. */
  function Choose(m: string -> int, previous: Option<Completed>, d: Draft, logical: Json, identity: Identity, recent: bool): Option<Choice>
    requires Items(CapabilityOf(d.profile), logical).Some?
  {
    var c := CapabilityOf(d.profile);
    var usable := previous.Some? && previous.value.identity == identity && (c == AnthropicThread ==> recent);
    var continued :- if usable then Continuation(m, previous.value, d, logical) else Some(None);
    if continued.Some? then Some(continued.value)
    else
      var wire :- WholeBody(c, logical);
      Some(Choice(wire, if c == AnthropicThread then Create else Full, None, |Items(c, logical).value|))
  }

  function CountItems(c: Capability, logical: Json): nat {
    if Items(c, logical).Some? then |Items(c, logical).value| else 0
  }

  /** A request that is not shrunk and not observed. */
  function Untouched(c: Capability, logical: Json): Choice { Choice(logical, Full, None, CountItems(c, logical)) }

  function FinalMode(s: Session, mode: Mode): Mode { if s.recovery && mode != Continue then Recreate else mode }

  /** What `prepare` forgets before it can fail. */
  function Unbound(s: Session, d: Draft): Session {
    var s1 := s.(binding := None, pending := None, lastReference := None);
    if !d.settled then s1
    else
      var s2 := if s1.transport.Some? && s1.transport.value != d.transport then Cleared(s1) else s1;
      s2.(transport := Some(d.transport))
  }

  predicate Stateless(p: Profile) {
    CapabilityOf(p) == Unsupported && !(p.supportsWebsockets && p.protocol == OpenAiResponses)
  }

  function StatelessStep(s: Session, d: Draft, logical: Json, token: nat): (Session, PrepareResult) {
    var mode := if s.recovery then Recreate else Full;
    (Cleared(s).(binding := Some(token), mode := mode, lastCapability := Some(Unsupported), lastIdentity := None, recovery := false),
     Ready(logical, mode, CountItems(Unsupported, logical)))
  }

  function BoundStep(m: string -> int, s: Session, d: Draft, logical: Json, identity: Identity, recent: bool, token: nat): (Session, PrepareResult) {
    var c := CapabilityOf(d.profile);
    var eligible := Eligible(s, d, logical, identity);
    var choice := if eligible then Choose(m, s.completed, d, logical, identity, recent) else Some(Untouched(c, logical));
    if choice.None? then (s.(completed := None), Refused)
    else
      var epoch, mode := Advance(s.epoch), FinalMode(s, choice.value.mode);
      (s.(epoch := epoch, completed := None, binding := Some(token), mode := mode, lastReference := choice.value.reference,
          pending := if eligible then Some(Observation(epoch, identity, logical, c)) else None,
          recovery := false, lastIdentity := Some(identity), lastCapability := Some(c)),
       Ready(choice.value.wire, mode, choice.value.newItems))
  }

  /** `prepare` on the HTTP path. */
  function PrepareStep(m: string -> int, s: Session, d: Draft, recent: bool, token: nat): (Session, PrepareResult) {
    if d.countTokens then (s, Refused)
    else
      var s1 := Unbound(s, d);
      if !d.settled || d.logical.None? then (s1, Refused)
      else if Stateless(d.profile) then StatelessStep(s1, d, d.logical.value, token)
      else if d.handshake.None? then (s1, Refused)
      else BoundStep(m, s1, d, d.logical.value, Identity(d.scope, d.profile, d.handshake.value), recent, token)
  }

  /** `dispatch`: only the latest preparation's call goes out, once, and takes the pending observation along. */
  function DispatchStep(s: Session, token: nat): (Session, Option<Option<Observation>>) {
    if s.binding != Some(token) then (s, None) else (s.(binding := None, pending := None), Some(s.pending))
  }

  // ----- recovery -----

  /** A response whose body may not be JSON at all. */
  datatype Response = Response(status: nat, body: Option<Json>)

  predicate ReplayableError(status: nat, body: Json) {
    var details := StringAt(body, ["error", "details", "error_code"]);
    var code := if details.Some? then details else StringAt(body, ["error", "code"]);
    || (status == 404 && code.Some? && code.value in ["thread_not_found", "previous_response_not_found", "interaction_not_found"])
    || (status == 400 && code.Some? &&
        code.value in ["thread_already_continued", "thread_continue_in_flight", "thread_fingerprint_mismatch", "previous_response_not_found"])
  }

  predicate UnsupportedThread(s: Session, r: Response) {
    && r.body.Some?
    && s.lastCapability == Some(AnthropicThread) && s.mode != Full && r.status == 400
    && StringAt(r.body.value, ["error", "details", "error_code"]) == Some("thread_unsupported_request")
  }

  predicate NamedMissing(s: Session, r: Response) {
    && r.body.Some? && (r.status == 400 || r.status == 404)
    && s.lastCapability != Some(AnthropicThread) && s.lastReference.Some?
    && var message := StringAt(r.body.value, ["error", "message"]);
    && message.Some? && Contains(message.value, s.lastReference.value)
    && Contains(Lower(message.value), "not found")
    && (Contains(Lower(message.value), "response") || Contains(Lower(message.value), "interaction"))
  }

  /** Only an exact rejection of a continuation, or of the thread feature itself, authorizes a replay. */
  predicate Recoverable(s: Session, r: Response) {
    && r.body.Some?
    && (UnsupportedThread(s, r) || (s.mode == Continue && (ReplayableError(r.status, r.body.value) || NamedMissing(s, r))))
  }

  function RecoverStep(s: Session, r: Response): Session {
    if !Recoverable(s, r) then s
    else
      var s1 := if UnsupportedThread(s, r) then s.(disabledThread := s.lastIdentity) else s;
      Cleared(s1).(recovery := true)
  }

  // ----- observing a response -----

  predicate FallbackServed(body: Json) {
    var iterations := ItemsAt(body, ["usage", "iterations"]);
    iterations.Some? && exists k :: 0 <= k < |iterations.value| && StringAt(iterations.value[k], ["type"]) == Some("fallback_message")
  }

  predicate Unpublishable(body: Json) { StoreFlag(body) == Some(Prim("false")) || FallbackServed(body) }

  function ResponseId(body: Json): Option<string> {
    var id := StringAt(body, ["id"]);
    if id == Some("") then None else id
  }

  /** The items a completed response adds to the history. */
  function Output(c: Capability, body: Json): Option<seq<Json>> {
    var status := StringAt(body, ["status"]);
    match c
    case AnthropicThread =>
      var reason := StringAt(body, ["stop_reason"]);
      if reason.Some? && reason.value in ["end_turn", "tool_use", "stop_sequence", "pause_turn"] then
        var content :- Get(body, "content");
        Some([Obj([Field(Encode("role"), Text("assistant")), Field(Encode("content"), content)])])
      else None
    case Responses => if status == Some("completed") then ItemsAt(body, ["output"]) else None
    case GeminiInteraction =>
      if status == Some("completed") || status == Some("requires_action") then ItemsAt(body, ["steps"]) else None
    case Unsupported => None
  }

  function Publication(o: Observation, body: Json): Option<Completed> {
    var id :- ResponseId(body);
    var output :- Output(o.capability, body);
    Some(Completed(o.identity, o.logical, output, id))
  }

  /** `invalidate`, on the shared state. */
  function Invalidated(s: Session, o: Observation): Session { if s.epoch == o.epoch then s.(completed := None) else s }

  /** `commit`: the new state and whether the observation is used up. */
  function CommitStep(s: Session, o: Observation, committed: bool, body: Json): (Session, bool) {
    if Unpublishable(body) then (Invalidated(s, o), committed)
    else if committed || s.epoch != o.epoch then (s, true)
    else (s.(completed := Publication(o, body)), true)
  }
}
