/** When a request continues, what it then sends, and what authorizes a replay. */
module ContinuationRules {
  // The decisions of a session in the words of the interface: by field name, status and code, and without
  // the functions that make them.

  import opened Utf16
  import opened JsonValue
  import opened Payload
  import opened Conversation
  import opened ItemIdentity
  import opened SettingIdentity
  import D = JsonDescent
  import J = JsonPrint
  import R = ConversationRun

  // ----- bodies -----

  /** A parsed document repeats no key in any object, which is all that runs and rules ask of a body. */
  lemma ParsedDistinct(source: string)
    requires D.ParseText(source).Some?
    ensures Distinct(D.ParseText(source).value)
  {
    hide D.ParseText;
    J.ParsedIsRegular(source);
    RegularDistinct(D.ParseText(source).value);
  }

  lemma {:induction false} RegularDistinct(j: Json)
    requires J.Regular(j)
    ensures Distinct(j)
    decreases j
  {
    match j
    case Prim(_) =>
    case Str(_) =>
    case Arr(items) => forall k | 0 <= k < |items| ensures Distinct(items[k]) { RegularDistinct(items[k]); }
    case Obj(fields) => forall k | 0 <= k < |fields| ensures Distinct(fields[k].value) { RegularDistinct(fields[k].value); }
  }

  // ----- texts -----

  /** A text, and nothing but slashes after it. */
  predicate SlashesAfter(s: string, base: string) {
    base <= s && forall k :: |base| <= k < |s| ==> s[k] == '/'
  }

  lemma {:induction false} TrimIff(s: string, base: string)
    requires base == [] || base[|base| - 1] != '/'
    ensures TrimSlashes(s) == base <==> SlashesAfter(s, base)
    decreases |s|
  {
    if s != [] && s[|s| - 1] == '/' {
      var init := s[..|s| - 1];
      TrimIff(init, base);
      if SlashesAfter(s, base) { assert base <= init; }
      if SlashesAfter(init, base) { assert forall k :: |base| <= k < |init| ==> s[k] == init[k]; }
    } else if base <= s && |base| == |s| {
      assert s == base;
    }
  }

  predicate Folds(a: char, b: char) {
    if 'A' <= a <= 'Z' then 'a' <= b <= 'z' && b as int - 'a' as int == a as int - 'A' as int else a == b
  }

  /** Equal, but for capitals on the left. */
  predicate FoldsTo(a: string, b: string) { |a| == |b| && forall k :: 0 <= k < |a| ==> Folds(a[k], b[k]) }

  lemma LowerIff(a: string, b: string)
    ensures Lower(a) == b <==> FoldsTo(a, b)
  {
    if FoldsTo(a, b) {
      forall k | 0 <= k < |a| ensures Lower(a)[k] == b[k] { assert Folds(a[k], b[k]); }
    }
  }

  predicate StandsAt(s: string, part: string, i: int) { 0 <= i <= |s| - |part| && s[i..i + |part|] == part }

  ghost predicate Within(s: string, part: string) { exists i :: StandsAt(s, part, i) }

  lemma StandsLater(s: string, part: string, i: int)
    requires s != [] && i > 0
    ensures StandsAt(s, part, i) <==> StandsAt(s[1..], part, i - 1)
  {
    if i + |part| <= |s| { assert s[1..][i - 1..i - 1 + |part|] == s[i..i + |part|]; }
  }

  lemma {:induction false} ContainsIff(s: string, part: string)
    ensures Contains(s, part) <==> Within(s, part)
    decreases |s|
  {
    if part <= s {
      assert StandsAt(s, part, 0);
    } else {
      assert !StandsAt(s, part, 0);
      if s != [] {
        ContainsIff(s[1..], part);
        hide StandsAt;
        if Within(s[1..], part) {
          var i :| StandsAt(s[1..], part, i);
          StandsPlace(s[1..], part, i);
          StandsLater(s, part, i + 1);
        }
        if Within(s, part) {
          var i :| StandsAt(s, part, i);
          StandsPlace(s, part, i);
          StandsLater(s, part, i);
        }
      }
    }
  }

  lemma StandsPlace(s: string, part: string, i: int)
    requires StandsAt(s, part, i)
    ensures i >= 0
  {
  }

  predicate FoldedAt(s: string, part: string, i: int) { 0 <= i <= |s| - |part| && FoldsTo(s[i..i + |part|], part) }

  ghost predicate WithinFolded(s: string, part: string) { exists i :: FoldedAt(s, part, i) }

  lemma LoweredIff(s: string, part: string)
    ensures Contains(Lower(s), part) <==> WithinFolded(s, part)
  {
    ContainsIff(Lower(s), part);
    forall i ensures StandsAt(Lower(s), part, i) <==> FoldedAt(s, part, i) {
      if 0 <= i <= |s| - |part| {
        LowerIff(s[i..i + |part|], part);
        assert Lower(s)[i..i + |part|] == Lower(s[i..i + |part|]);
        hide FoldsTo;
      }
    }
  }

  // ----- capabilities -----

  /** Which profiles can continue anything, and how. */
  lemma CapabilityIff(p: Profile)
    ensures CapabilityOf(p) == Responses <==> p.protocol == OpenAiResponses && p.supportsPreviousResponseId == Some(true)
    ensures CapabilityOf(p) == GeminiInteraction <==> p.protocol == GeminiInteractions
    ensures CapabilityOf(p) == AnthropicThread <==>
              && p.protocol == AnthropicMessages && p.supportsMessageThreads == Some(true) && p.providerId == "anthropic"
              && SlashesAfter(p.baseUrl, "https://api.anthropic.com")
  {
    TrimIff(p.baseUrl, "https://api.anthropic.com");
    hide SlashesAfter, TrimSlashes;
  }

  // ----- a model switch -----

  predicate Takes(modalities: seq<string>, name: string) { exists k :: 0 <= k < |modalities| && FoldsTo(modalities[k], name) }

  lemma AcceptsIff(modalities: seq<string>, name: string)
    ensures Accepts(modalities, name) <==> Takes(modalities, name)
  {
    hide FoldsTo, Lower;
    forall k | 0 <= k < |modalities| ensures Lower(modalities[k]) == name <==> FoldsTo(modalities[k], name) { LowerIff(modalities[k], name); }
  }

  /** The next model takes this part of the history. */
  predicate TakesPart(modalities: seq<string>, part: Json) {
    var kind := Spelled(Member(part, "type"));
    || (exists name :: name in {"text", "image", "audio", "video"} && kind == Some(name) && Takes(modalities, name))
    || (kind == Some("document") && Spelled(Member(part, "mime_type")) == Some("application/pdf") && Takes(modalities, "pdf"))
  }

  predicate TakesParts(modalities: seq<string>, parts: Option<seq<Json>>) {
    parts.Some? && forall k :: 0 <= k < |parts.value| ==> TakesPart(modalities, parts.value[k])
  }

  predicate TakesStep(modalities: seq<string>, step: Json) {
    var kind := Spelled(Member(step, "type"));
    || kind == Some("function_call")
    || (kind == Some("user_input") && TakesParts(modalities, Elements(Member(step, "content"))))
    || (kind == Some("model_output") && TakesParts(modalities, Elements(Member(step, "content"))))
    || (kind == Some("function_result") && TakesParts(modalities, Elements(Member(step, "result"))))
  }

  /** Every step of the replayed history, and text at all. */
  predicate TakesHistory(modalities: seq<string>, body: Json) {
    var steps := ListOf(GeminiInteraction, body);
    && Takes(modalities, "text")
    && steps.Some? && forall k :: 0 <= k < |steps.value| ==> TakesStep(modalities, steps.value[k])
  }

  lemma PartIff(modalities: seq<string>, part: Json)
    ensures PartSupported(modalities, part) <==> TakesPart(modalities, part)
  {
    MemberReads(part, "type");
    MemberReads(part, "mime_type");
    hide Member, StringAt, Accepts, Takes;
    AcceptsIff(modalities, "text");
    AcceptsIff(modalities, "image");
    AcceptsIff(modalities, "audio");
    AcceptsIff(modalities, "video");
    AcceptsIff(modalities, "pdf");
    if PartSupported(modalities, part) && Spelled(Member(part, "type")).value != "document" {
      var name := Spelled(Member(part, "type")).value;
      assert name in {"text", "image", "audio", "video"} && Takes(modalities, name);
    }
    DocumentApart();
  }

  lemma DocumentApart()
    ensures "document" !in {"text", "image", "audio", "video"}
  {
    assert |"document"| == 8 && |"text"| == 4 && |"image"| == 5 && |"audio"| == 5 && |"video"| == 5;
  }

  lemma PartsIff(modalities: seq<string>, parts: Option<seq<Json>>)
    ensures PartsSupported(modalities, parts) <==> TakesParts(modalities, parts)
  {
    hide PartSupported, TakesPart;
    if parts.Some? {
      forall k | 0 <= k < |parts.value| ensures PartSupported(modalities, parts.value[k]) <==> TakesPart(modalities, parts.value[k]) {
        PartIff(modalities, parts.value[k]);
      }
    }
  }

  lemma StepIff(modalities: seq<string>, step: Json)
    ensures StepSupported(modalities, step) <==> TakesStep(modalities, step)
  {
    hide Member, StringAt, PartsSupported, TakesParts, ItemsAt, Spelled, Elements;
    MemberReads(step, "type");
    MemberReads(step, "content");
    MemberReads(step, "result");
    PartsIff(modalities, Elements(Member(step, "content")));
    PartsIff(modalities, Elements(Member(step, "result")));
  }

  lemma HistoryIff(modalities: seq<string>, body: Json)
    ensures GeminiHistorySupported(body, modalities) <==> TakesHistory(modalities, body)
  {
    ListIs(GeminiInteraction, body);
    AcceptsIff(modalities, "text");
    hide StepSupported, TakesStep, Accepts, Takes, ListOf, ItemsAt;
    var steps := ListOf(GeminiInteraction, body);
    if steps.Some? {
      forall k | 0 <= k < |steps.value| ensures StepSupported(modalities, steps.value[k]) <==> TakesStep(modalities, steps.value[k]) {
        StepIff(modalities, steps.value[k]);
      }
    }
  }

  /** The model may change on the first-party Gemini endpoint if it takes the whole history. */
  predicate Switches(d: Draft, previous: Json, current: Json) {
    && Spelled(Member(previous, "model")) != Spelled(Member(current, "model"))
    && d.profile.protocol == GeminiInteractions && d.profile.providerId == "google"
    && SlashesAfter(d.profile.baseUrl, "https://generativelanguage.googleapis.com/v1beta")
    && TakesHistory(d.modalities, current)
  }

  lemma SwitchIff(previous: Json, current: Json, d: Draft)
    ensures ModelSwitch(previous, current, d) <==> Switches(d, previous, current)
  {
    MemberReads(previous, "model");
    MemberReads(current, "model");
    TrimIff(d.profile.baseUrl, "https://generativelanguage.googleapis.com/v1beta");
    HistoryIff(d.modalities, current);
    CapabilityIff(d.profile);
    hide Member, StringAt, TakesHistory, GeminiHistorySupported, SlashesAfter, CapabilityOf, TrimSlashes;
  }

  // ----- items and references -----

  /** The items of a body. */
  function ListOf(c: Capability, body: Json): Option<seq<Json>> {
    match c
    case GeminiInteraction => Elements(Inner(body, "input", "steps"))
    case AnthropicThread => Elements(Member(body, "messages"))
    case _ => Elements(Member(body, "input"))
  }

  lemma ListIs(c: Capability, body: Json)
    ensures Items(c, body) == ListOf(c, body)
  {
    if c == GeminiInteraction {
      TwoSteps(body, "input", "steps");
    } else {
      MemberReads(body, Input(c));
    }
  }

  function Listed(v: Option<seq<Json>>): seq<Json> { if v.Some? then v.value else [] }

  /** A body that names a stored response, in the words of its endpoint. */
  predicate Names(c: Capability, wire: Json, id: string) {
    match c
    case Responses => Member(wire, "previous_response_id") == Some(Text(id))
    case GeminiInteraction => Member(wire, "previous_interaction_id") == Some(Text(id))
    case AnthropicThread =>
      && Inner(wire, "thread", "type") == Some(Text("continue")) && Inner(wire, "thread", "previous_message_id") == Some(Text(id))
      && Member(wire, "system").None? && Member(wire, "tools").None?
    case Unsupported => false
  }

  lemma ContinueMembers(id: string)
    ensures Member(ContinueThread(id), "type") == Some(Text("continue"))
    ensures Member(ContinueThread(id), "previous_message_id") == Some(Text(id))
  {
    if Encode("type") == Encode("previous_message_id") { EncodeInjective("type", "previous_message_id"); }
    var t := ContinueThread(id);
    hide Encode;
    assert t.fields[1..] == [Field(Encode("previous_message_id"), Text(id))];
  }

  lemma ThreadNamesApart()
    ensures Encode("system") != Encode("tools") && Encode("system") != Encode("thread") && Encode("tools") != Encode("thread")
  {
    if Encode("system") == Encode("tools") { EncodeInjective("system", "tools"); }
    if Encode("system") == Encode("thread") { EncodeInjective("system", "thread"); }
    if Encode("tools") == Encode("thread") { EncodeInjective("tools", "thread"); }
  }

  lemma ThreadNamed(body: Json, id: string)
    requires body.Obj?
    ensures AddReference(AnthropicThread, body, id).Some? && Names(AnthropicThread, AddReference(AnthropicThread, body, id).value, id)
  {
    ContinueMembers(id);
    ThreadNamesApart();
    hide Encode, Find, Replace, ContinueThread, DistinctKeys, Text;
    ReplaceFinds(body, "system", None);
    var a := Replace(body, "system", None).value;
    ReplaceFinds(a, "tools", None);
    var b := Replace(a, "tools", None).value;
    ReplaceFinds(b, "thread", Some(ContinueThread(id)));
  }

  lemma ReferenceNamed(c: Capability, body: Json, id: string)
    requires body.Obj? && c != Unsupported
    ensures AddReference(c, body, id).Some? && Names(c, AddReference(c, body, id).value, id)
  {
    if c == AnthropicThread {
      ThreadNamed(body, id);
    } else {
      hide Encode, Find, Replace, DistinctKeys, Text;
      ReplaceFinds(body, Previous(c), Some(Text(id)));
    }
  }

  // ----- when a request continues -----

  /** The exchange may be kept: a scope, storing not refused, no continuation of the caller's own, items to compare. */
  predicate MayKeep(s: Session, d: Draft, logical: Json, identity: Identity) {
    var c := CapabilityOf(d.profile);
    && c != Unsupported
    && (c == AnthropicThread ==>
          s.disabledThread != Some(identity) && Member(logical, "compaction").None? && Member(logical, "context_management").None?)
    && d.scope.Some? && |d.scope.value| > 0
    && Member(logical, "store") != Some(Prim("false"))
    && (d.profile.responseStoreDefault == Some(false) ==> Member(logical, "store") == Some(Prim("true")))
    && Member(logical, "previous_response_id").None? && Member(logical, "previous_interaction_id").None?
    && Member(logical, "conversation").None? && Member(logical, "thread").None?
    && ListOf(c, logical).Some?
  }

  lemma EligibleIff(s: Session, d: Draft, logical: Json, identity: Identity)
    ensures Eligible(s, d, logical, identity) <==> MayKeep(s, d, logical, identity)
  {
    var c := CapabilityOf(d.profile);
    ListIs(c, logical);
    hide Encode, Find, CapabilityOf, ListOf, Items;
  }

  /** What the endpoint was sent, and answered. */
  function Held(c: Capability, previous: Completed): seq<Json> { Listed(ListOf(c, previous.logical)) + previous.output }

  /** The caller's history begins with what the endpoint holds. */
  ghost predicate Prolongs(m: string -> int, c: Capability, previous: Completed, logical: Json) {
    var held, current := Held(c, previous), Listed(ListOf(c, logical));
    && |held| <= |current|
    && AllComparable(c, held) && AllComparable(c, current[..|held|]) && SameItems(m, c, held, current[..|held|])
  }

  /** The request extends the completed one under the same settings. */
  ghost predicate Extends(m: string -> int, d: Draft, previous: Completed, logical: Json) {
    var c := CapabilityOf(d.profile);
    && Settled(c, previous.logical) && Settled(c, logical)
    && SameSettings(m, c, Switches(d, previous.logical, logical), previous.logical, logical)
    && Prolongs(m, c, previous, logical)
  }

  ghost predicate Sound(previous: Completed) { Distinct(previous.logical) && AllDistinct(previous.output) }

  /** What a continuation sends: what comes after the held items, under the response it continues. */
  ghost predicate SendsRest(c: Capability, previous: Completed, logical: Json, wire: Json, newItems: nat) {
    var held, current := Held(c, previous), Listed(ListOf(c, logical));
    && |held| <= |current| && newItems == |current| - |held|
    && ListOf(c, wire) == Some(current[|held|..]) && Names(c, wire, previous.id)
  }

  lemma ProlongsIff(m: string -> int, c: Capability, previous: Completed, logical: Json)
    requires Sound(previous) && Distinct(logical)
    ensures var held, current := Held(c, previous), Listed(ListOf(c, logical));
            Prolongs(m, c, previous, logical) <==> |held| <= |current| && PrefixMatches(m, held, current, c) == Some(true)
  {
    R.ItemsDistinct(c, previous.logical);
    R.ItemsDistinct(c, logical);
    ListIs(c, previous.logical);
    ListIs(c, logical);
    var held, current := Held(c, previous), Listed(ListOf(c, logical));
    hide Distinct, PrefixMatches, SameItem, Comparably, ListOf, Items;
    if |held| <= |current| { PrefixIff(m, c, held, current); }
  }

  lemma InputReplaceable(c: Capability, body: Json, items: seq<Json>)
    requires ListOf(c, body).Some?
    ensures ReplaceInput(c, body, items).Some? && ReplaceInput(c, body, items).value.Obj? && ListOf(c, ReplaceInput(c, body, items).value) == Some(items)
  {
    hide Encode, Drop, Find;
    assert ReplaceInput(c, body, items).Some?;
    R.InputReplaced(c, body, items);
    ListIs(c, ReplaceInput(c, body, items).value);
  }

  /** The body that names the completed response and carries the rest. */
  lemma ContinuedWire(c: Capability, logical: Json, rest: seq<Json>, id: string)
    requires ListOf(c, logical).Some? && c != Unsupported
    ensures ReplaceInput(c, logical, rest).Some? && AddReference(c, ReplaceInput(c, logical, rest).value, id).Some?
    ensures var wire := AddReference(c, ReplaceInput(c, logical, rest).value, id).value;
            ListOf(c, wire) == Some(rest) && Names(c, wire, id)
  {
    hide ReplaceInput, AddReference, Items, ListOf, Names, R.Reference, Get;
    InputReplaceable(c, logical, rest);
    var shrunk := ReplaceInput(c, logical, rest).value;
    ReferenceNamed(c, shrunk, id);
    R.ReferenceAdded(c, shrunk, id);
    ListIs(c, shrunk);
    ListIs(c, AddReference(c, shrunk, id).value);
  }

  lemma HeldIs(c: Capability, previous: Completed)
    ensures Held(c, previous) == (if Items(c, previous.logical).Some? then Items(c, previous.logical).value else []) + previous.output
  {
    ListIs(c, previous.logical);
    hide Items, ListOf;
  }

  /** The request continues exactly when it extends the completed one, and then sends the rest. */
  lemma ContinuationIff(m: string -> int, previous: Completed, d: Draft, logical: Json)
    requires Items(CapabilityOf(d.profile), logical).Some? && CapabilityOf(d.profile) != Unsupported && Sound(previous) && Distinct(logical)
    ensures var r := Continuation(m, previous, d, logical);
            && (r.Some? && r.value.Some? <==> Extends(m, d, previous, logical))
            && (r.Some? && r.value.Some? ==>
                  && r.value.value.mode == Continue && r.value.value.reference == Some(previous.id)
                  && SendsRest(CapabilityOf(d.profile), previous, logical, r.value.value.wire, r.value.value.newItems))
  {
    hide CapabilityOf, Compatible, PrefixMatches, ReplaceInput, AddReference, Items, ListOf, ModelSwitch, Switches, Settled, SameSettings, Names,
      Distinct, AllDistinct, Prolongs, Held;
    var c := CapabilityOf(d.profile);
    CompatibleIff(m, previous.logical, logical, d);
    SwitchIff(previous.logical, logical, d);
    ListIs(c, logical);
    HeldIs(c, previous);
    ProlongsIff(m, c, previous, logical);
    var held, current := Held(c, previous), ListOf(c, logical).value;
    if |held| <= |current| { ContinuedWire(c, logical, current[|held|..], previous.id); }
  }

  /** Everything that must hold for a request to continue. */
  ghost predicate Continues(m: string -> int, s: Session, d: Draft, recent: bool) {
    && !d.countTokens && d.settled && d.logical.Some? && d.handshake.Some?
    && (s.transport.Some? ==> s.transport.value == d.transport)
    && s.completed.Some?
    && var identity := Identity(d.scope, d.profile, d.handshake.value);
    && s.completed.value.identity == identity
    && (CapabilityOf(d.profile) == AnthropicThread ==> recent)
    && MayKeep(s, d, d.logical.value, identity)
    && Extends(m, d, s.completed.value, d.logical.value)
  }

  lemma ChooseIff(m: string -> int, previous: Option<Completed>, d: Draft, logical: Json, identity: Identity, recent: bool)
    requires Items(CapabilityOf(d.profile), logical).Some? && CapabilityOf(d.profile) != Unsupported && Distinct(logical)
    requires previous.Some? ==> Sound(previous.value)
    ensures var c, r := CapabilityOf(d.profile), Choose(m, previous, d, logical, identity, recent);
            && (r.Some? && r.value.mode == Continue <==>
                  && previous.Some? && previous.value.identity == identity && (c == AnthropicThread ==> recent)
                  && Extends(m, d, previous.value, logical))
            && (r.Some? && r.value.mode == Continue ==>
                  r.value.reference == Some(previous.value.id) && SendsRest(c, previous.value, logical, r.value.wire, r.value.newItems))
            && (r.Some? && r.value.mode != Continue ==>
                  && r.value.reference.None? && r.value.mode == (if c == AnthropicThread then Create else Full)
                  && Some(r.value.wire) == WholeBody(c, logical) && r.value.newItems == |Listed(ListOf(c, logical))|)
  {
    var c := CapabilityOf(d.profile);
    ListIs(c, logical);
    hide CapabilityOf, Items, Continuation, Extends, SendsRest, Sound, Distinct, ListOf, WholeBody;
    if previous.Some? { ContinuationIff(m, previous.value, d, logical); }
  }

  /** A request continues exactly when all of this holds: it can be kept, it is of the identity of the completed
      one over the same transport, its settings are the same, and its history begins with what the endpoint holds.
      Then it names the completed response and sends the items after the held ones. */
  lemma ContinuesIff(m: string -> int, s: Session, d: Draft, recent: bool, token: nat)
    requires d.logical.Some? ==> Distinct(d.logical.value)
    requires s.completed.Some? ==> Sound(s.completed.value)
    ensures var (s', r) := PrepareStep(m, s, d, recent, token);
            && (r.Ready? && r.mode == Continue <==> Continues(m, s, d, recent))
            && (Continues(m, s, d, recent) ==>
                  && SendsRest(CapabilityOf(d.profile), s.completed.value, d.logical.value, r.wire, r.newItems)
                  && s'.lastReference == Some(s.completed.value.id) && s'.mode == Continue)
  {
    var s1 := Unbound(s, d);
    hide CapabilityOf, Items, Choose, Eligible, MayKeep, Extends, SendsRest, Distinct, Sound, CountItems;
    if !d.countTokens && d.settled && d.logical.Some? {
      StatelessKeepsNothing(d);
      if !Stateless(d.profile) && d.handshake.Some? {
        var logical, identity := d.logical.value, Identity(d.scope, d.profile, d.handshake.value);
        EligibleIff(s1, d, logical, identity);
        KeepFrame(s, s1, d, logical, identity);
        if Eligible(s1, d, logical, identity) {
          KeptItems(s1, d, logical, identity);
          ChooseIff(m, s1.completed, d, logical, identity, recent);
        }
      }
    }
  }

  lemma StatelessKeepsNothing(d: Draft)
    requires d.logical.Some?
    ensures Stateless(d.profile) ==> forall s, identity :: !MayKeep(s, d, d.logical.value, identity)
  {
  }

  lemma KeepFrame(s: Session, s': Session, d: Draft, logical: Json, identity: Identity)
    requires s'.disabledThread == s.disabledThread
    ensures MayKeep(s, d, logical, identity) <==> MayKeep(s', d, logical, identity)
  {
    hide CapabilityOf, Member, ListOf;
  }

  lemma KeptItems(s: Session, d: Draft, logical: Json, identity: Identity)
    requires Eligible(s, d, logical, identity)
    ensures Items(CapabilityOf(d.profile), logical).Some? && CapabilityOf(d.profile) != Unsupported
  {
  }

  // ----- what is sent otherwise -----

  /** A body that opens a thread: the logical one, with a thread to be created. */
  ghost predicate Opens(wire: Json, logical: Json) {
    && wire.Obj? && Inner(wire, "thread", "type") == Some(Text("create"))
    && forall key: seq<Unit> :: key != Encode("thread") ==> Named(wire, key) == Named(logical, key)
  }

  lemma WholeOpens(logical: Json)
    requires logical.Obj?
    ensures WholeBody(AnthropicThread, logical).Some? && Opens(WholeBody(AnthropicThread, logical).value, logical)
  {
    assert Member(CreateThread(), "type") == Some(Text("create"));
    hide Encode, Find, Replace, CreateThread, DistinctKeys, Text;
    ReplaceFinds(logical, "thread", Some(CreateThread()));
  }

  /** A preparation that does not continue sends the whole history, in the mode that says so. */
  ghost predicate SendsWhole(s: Session, d: Draft, logical: Json, kept: bool, s': Session, r: PrepareResult) {
    var c := CapabilityOf(d.profile);
    && r.Ready? && s'.lastReference.None? && s'.mode == r.mode
    && r.mode == (if s.recovery then Recreate else if kept && c == AnthropicThread then Create else Full)
    && (if kept && c == AnthropicThread then Opens(r.wire, logical) else r.wire == logical)
    && r.newItems == |Listed(ListOf(c, logical))|
  }

  lemma KeptIsObject(s: Session, d: Draft, logical: Json, identity: Identity)
    requires MayKeep(s, d, logical, identity)
    ensures logical.Obj?
  {
    hide CapabilityOf, Encode, Find;
    assert ListOf(CapabilityOf(d.profile), logical).Some?;
  }

  lemma CountIs(c: Capability, logical: Json)
    ensures CountItems(c, logical) == |Listed(ListOf(c, logical))|
  {
    ListIs(c, logical);
    hide Items, ListOf;
  }

  /** What a preparation that does not continue sends, and what is observed of either kind. */
  lemma OtherwiseWhole(m: string -> int, s: Session, d: Draft, recent: bool, token: nat)
    requires d.logical.Some? ==> Distinct(d.logical.value)
    requires s.completed.Some? ==> Sound(s.completed.value)
    ensures var (s', r) := PrepareStep(m, s, d, recent, token);
            r.Ready? ==>
              && d.logical.Some?
              && var kept := d.handshake.Some? && MayKeep(s, d, d.logical.value, Identity(d.scope, d.profile, d.handshake.value));
              && (r.mode != Continue ==> SendsWhole(s, d, d.logical.value, kept, s', r))
              && s'.binding == Some(token) && s'.completed.None? && !s'.recovery
              && s'.pending == if kept then
                   Some(Observation(s'.epoch, Identity(d.scope, d.profile, d.handshake.value), d.logical.value, CapabilityOf(d.profile)))
                 else None
  {
    var s1 := Unbound(s, d);
    hide CapabilityOf, Items, Choose, Eligible, MayKeep, Extends, SendsRest, Distinct, Sound, CountItems, WholeBody, Opens, ListOf;
    if !d.countTokens && d.settled && d.logical.Some? {
      var logical := d.logical.value;
      StatelessKeepsNothing(d);
      CountIs(CapabilityOf(d.profile), logical);
      if Stateless(d.profile) {
        StatelessCapability(d.profile);
      } else if d.handshake.Some? {
        var identity := Identity(d.scope, d.profile, d.handshake.value);
        EligibleIff(s1, d, logical, identity);
        KeepFrame(s, s1, d, logical, identity);
        if Eligible(s1, d, logical, identity) {
          KeptItems(s1, d, logical, identity);
          KeptIsObject(s1, d, logical, identity);
          ChooseIff(m, s1.completed, d, logical, identity, recent);
          WholeOpens(logical);
          WholeElse(CapabilityOf(d.profile), logical);
        }
      }
    }
  }

  lemma StatelessCapability(p: Profile)
    requires Stateless(p)
    ensures CapabilityOf(p) == Unsupported
  {
  }

  lemma WholeElse(c: Capability, logical: Json)
    ensures c != AnthropicThread ==> WholeBody(c, logical) == Some(logical)
  {
  }

  // ----- when a preparation is refused -----

  /** The comparison meets an item it cannot compare, everything before it being the same. */
  ghost predicate StopsAt(m: string -> int, c: Capability, held: seq<Json>, current: seq<Json>, k: int) {
    && 0 <= k < |held| <= |current|
    && AllComparable(c, held[..k]) && AllComparable(c, current[..k]) && SameItems(m, c, held[..k], current[..k])
    && !(Comparably(c, held[k]) && Comparably(c, current[k]))
  }

  lemma StopsLater(m: string -> int, c: Capability, held: seq<Json>, current: seq<Json>, k: int)
    requires 0 < |held| <= |current| && Comparably(c, held[0]) && Comparably(c, current[0]) && SameItem(m, c, held[0], current[0]) && k > 0
    ensures StopsAt(m, c, held, current, k) <==> StopsAt(m, c, held[1..], current[1..], k - 1)
  {
    hide SameItem, Comparably, AllComparable, SameItems;
    if k < |held| {
      var p, q := held[..k], current[..k];
      assert p[1..] == held[1..][..k - 1] && q[1..] == current[1..][..k - 1];
      AllCons(c, p);
      AllCons(c, q);
      SameCons(m, c, p, q);
    }
  }

  lemma {:induction false} ComparisonFailsIff(m: string -> int, c: Capability, held: seq<Json>, current: seq<Json>)
    requires |held| <= |current| && AllDistinct(held) && AllDistinct(current)
    ensures PrefixMatches(m, held, current, c).None? <==> exists k :: StopsAt(m, c, held, current, k)
    decreases |held|
  {
    hide Comparable, SemEq, SameItem, Comparably, Distinct, SameItems, AllComparable;
    if held != [] {
      ComparisonFailsIff(m, c, held[1..], current[1..]);
      ComparableIff(m, c, held[0], current[0]);
      ComparableIff(m, c, current[0], held[0]);
      NoneStops(m, c, held, current);
      if Comparably(c, held[0]) && Comparably(c, current[0]) && SameItem(m, c, held[0], current[0]) {
        FirstGoesOn(m, c, held, current);
      }
    }
  }

  lemma NoneStops(m: string -> int, c: Capability, held: seq<Json>, current: seq<Json>)
    requires 0 < |held| <= |current|
    ensures StopsAt(m, c, held, current, 0) <==> !(Comparably(c, held[0]) && Comparably(c, current[0]))
    ensures Comparably(c, held[0]) && Comparably(c, current[0]) && !SameItem(m, c, held[0], current[0]) ==>
              forall k :: !StopsAt(m, c, held, current, k)
    ensures !(Comparably(c, held[0]) && Comparably(c, current[0])) ==> exists k :: StopsAt(m, c, held, current, k)
  {
    hide SameItem, Comparably;
    assert held[..0] == [] == current[..0];
    forall k | StopsAt(m, c, held, current, k) && k > 0 ensures SameItem(m, c, held[0], current[0]) {
      assert held[..k][0] == held[0] && current[..k][0] == current[0];
    }
  }

  lemma FirstGoesOn(m: string -> int, c: Capability, held: seq<Json>, current: seq<Json>)
    requires 0 < |held| <= |current| && Comparably(c, held[0]) && Comparably(c, current[0]) && SameItem(m, c, held[0], current[0])
    ensures (exists k :: StopsAt(m, c, held, current, k)) <==> exists k :: StopsAt(m, c, held[1..], current[1..], k)
  {
    hide StopsAt, SameItem, Comparably;
    if k :| StopsAt(m, c, held, current, k) {
      StopsFrom(m, c, held, current, k);
      StopsLater(m, c, held, current, k);
      assert StopsAt(m, c, held[1..], current[1..], k - 1);
    }
    if k :| StopsAt(m, c, held[1..], current[1..], k) {
      StopsFrom(m, c, held[1..], current[1..], k);
      StopsLater(m, c, held, current, k + 1);
      assert StopsAt(m, c, held, current, k + 1);
    }
  }

  lemma StopsFrom(m: string -> int, c: Capability, held: seq<Json>, current: seq<Json>, k: int)
    requires StopsAt(m, c, held, current, k)
    ensures k >= 0
    ensures Comparably(c, held[0]) && Comparably(c, current[0]) ==> k > 0
  {
    hide Comparably, SameItems, AllComparable;
  }

  /** The request would be compared with the completed one, and the comparison fails. */
  ghost predicate Incomparable(m: string -> int, s: Session, d: Draft, recent: bool) {
    && d.logical.Some? && d.handshake.Some? && (s.transport.Some? ==> s.transport.value == d.transport)
    && s.completed.Some?
    && var identity, previous, c := Identity(d.scope, d.profile, d.handshake.value), s.completed.value, CapabilityOf(d.profile);
    && previous.identity == identity && (c == AnthropicThread ==> recent) && MayKeep(s, d, d.logical.value, identity)
    && (|| !Settled(c, previous.logical) || !Settled(c, d.logical.value)
        || (&& SameSettings(m, c, Switches(d, previous.logical, d.logical.value), previous.logical, d.logical.value)
            && exists k :: StopsAt(m, c, Held(c, previous), Listed(ListOf(c, d.logical.value)), k)))
  }

  lemma SettingsFailIff(m: string -> int, previous: Json, current: Json, d: Draft)
    requires Distinct(previous) && Distinct(current)
    ensures Compatible(m, previous, current, d).None? <==> !Settled(CapabilityOf(d.profile), previous) || !Settled(CapabilityOf(d.profile), current)
  {
    R.DistinctParsed(previous);
    R.DistinctParsed(current);
    var c, switch := CapabilityOf(d.profile), ModelSwitch(previous, current, d);
    SettingsFields(previous, c, switch);
    SettingsFields(current, c, switch);
    hide CapabilityOf, ModelSwitch, Settings, Settled, Distinct, SemEq, SettingsFind;
  }

  lemma ContinuationFailsIff(m: string -> int, previous: Completed, d: Draft, logical: Json)
    requires Items(CapabilityOf(d.profile), logical).Some? && CapabilityOf(d.profile) != Unsupported && Sound(previous) && Distinct(logical)
    ensures var c := CapabilityOf(d.profile);
            Continuation(m, previous, d, logical).None? <==>
              || !Settled(c, previous.logical) || !Settled(c, logical)
              || (&& SameSettings(m, c, Switches(d, previous.logical, logical), previous.logical, logical)
                  && exists k :: StopsAt(m, c, Held(c, previous), Listed(ListOf(c, logical)), k))
  {
    hide CapabilityOf, Compatible, PrefixMatches, ReplaceInput, AddReference, Items, ListOf, ModelSwitch, Switches, Settled, SameSettings, Names,
      Distinct, AllDistinct, Held, StopsAt;
    var c := CapabilityOf(d.profile);
    CompatibleIff(m, previous.logical, logical, d);
    SettingsFailIff(m, previous.logical, logical, d);
    SwitchIff(previous.logical, logical, d);
    ListIs(c, logical);
    HeldIs(c, previous);
    HeldDistinct(c, previous);
    R.ItemsDistinct(c, logical);
    var held, current := Held(c, previous), ListOf(c, logical).value;
    if |held| <= |current| {
      ContinuedWire(c, logical, current[|held|..], previous.id);
      ComparisonFailsIff(m, c, held, current);
      assert PrefixMatches(m, held, current, c).None? <==> exists k :: StopsAt(m, c, Held(c, previous), Listed(ListOf(c, logical)), k);
      assert Compatible(m, previous.logical, logical, d).Some? && Compatible(m, previous.logical, logical, d).value ==>
               (Continuation(m, previous, d, logical).None? <==> PrefixMatches(m, held, current, c).None?);
    } else {
      NeverStops(m, c, held, current);
    }
  }

  lemma NeverStops(m: string -> int, c: Capability, held: seq<Json>, current: seq<Json>)
    requires |held| > |current|
    ensures !exists k :: StopsAt(m, c, held, current, k)
  {
  }

  lemma HeldDistinct(c: Capability, previous: Completed)
    requires Sound(previous)
    ensures AllDistinct(Held(c, previous))
  {
    R.ItemsDistinct(c, previous.logical);
    ListIs(c, previous.logical);
    hide Items, ListOf, Distinct;
  }

  lemma ChooseFailsIff(m: string -> int, previous: Option<Completed>, d: Draft, logical: Json, identity: Identity, recent: bool)
    requires Items(CapabilityOf(d.profile), logical).Some? && logical.Obj?
    ensures Choose(m, previous, d, logical, identity, recent).None? <==>
              && previous.Some? && previous.value.identity == identity && (CapabilityOf(d.profile) == AnthropicThread ==> recent)
              && Continuation(m, previous.value, d, logical).None?
  {
    WholeOpens(logical);
    hide CapabilityOf, Items, Continuation;
  }

  /** A preparation is refused exactly on these grounds: counting tokens, a body that does not settle or parse, no
      authentication where one is needed, or a comparison that fails. */
  lemma RefusedIff(m: string -> int, s: Session, d: Draft, recent: bool, token: nat)
    requires d.logical.Some? ==> Distinct(d.logical.value)
    requires s.completed.Some? ==> Sound(s.completed.value)
    ensures PrepareStep(m, s, d, recent, token).1.Refused? <==>
              || d.countTokens || !d.settled || d.logical.None?
              || (d.handshake.None? && (CapabilityOf(d.profile) != Unsupported || (d.profile.supportsWebsockets && d.profile.protocol == OpenAiResponses)))
              || Incomparable(m, s, d, recent)
  {
    var s1 := Unbound(s, d);
    hide CapabilityOf, Items, Choose, Eligible, MayKeep, Distinct, Sound, CountItems, WholeBody, ListOf, Settled, SameSettings, StopsAt, Held, Switches;
    if !d.countTokens && d.settled && d.logical.Some? {
      var logical := d.logical.value;
      StatelessKeepsNothing(d);
      if !Stateless(d.profile) && d.handshake.Some? {
        var identity := Identity(d.scope, d.profile, d.handshake.value);
        EligibleIff(s1, d, logical, identity);
        KeepFrame(s, s1, d, logical, identity);
        if Eligible(s1, d, logical, identity) {
          KeptItems(s1, d, logical, identity);
          KeptIsObject(s1, d, logical, identity);
          ChooseFailsIff(m, s1.completed, d, logical, identity, recent);
          if s1.completed.Some? { ContinuationFailsIff(m, s1.completed.value, d, logical); }
        }
      }
    }
  }

  // ----- what a preparation leaves behind -----

  predicate Moved(s: Session, d: Draft) { s.transport.Some? && s.transport.value != d.transport }

  /** Everything else a preparation that goes through leaves: its transport, what the connection was, and an epoch
      advanced once, or twice when the transport changed. */
  lemma ReadyLeaves(m: string -> int, s: Session, d: Draft, recent: bool, token: nat)
    ensures var (s', r) := PrepareStep(m, s, d, recent, token);
            r.Ready? ==>
              && s'.transport == Some(d.transport) && s'.disabledThread == s.disabledThread
              && s'.epoch == (s.epoch + (if Moved(s, d) then 2 else 1)) % 0x1_0000_0000_0000_0000
              && s'.lastCapability == Some(CapabilityOf(d.profile))
              && s'.lastIdentity == (if Stateless(d.profile) || d.handshake.None? then None else Some(Identity(d.scope, d.profile, d.handshake.value)))
  {
    hide Eligible, Choose, CapabilityOf, CountItems, Items;
    if Stateless(d.profile) { StatelessCapability(d.profile); }
    hide Stateless;
    AdvancesTwice(s.epoch);
  }

  lemma AdvancesTwice(n: nat)
    ensures Advance(n) == (n + 1) % 0x1_0000_0000_0000_0000 && Advance(Advance(n)) == (n + 2) % 0x1_0000_0000_0000_0000
  {
  }

  /** A refused preparation leaves nothing to dispatch and forgets the completed response only with the transport or
      when the comparison failed; counting tokens leaves everything. */
  lemma RefusedLeaves(m: string -> int, s: Session, d: Draft, recent: bool, token: nat)
    ensures var (s', r) := PrepareStep(m, s, d, recent, token);
            r.Refused? ==>
              if d.countTokens then s' == s
              else
                && s'.binding.None? && s'.pending.None? && s'.lastReference.None?
                && s'.mode == s.mode && s'.recovery == s.recovery && s'.disabledThread == s.disabledThread
                && s'.lastCapability == s.lastCapability && s'.lastIdentity == s.lastIdentity
                && s'.transport == (if d.settled then Some(d.transport) else s.transport)
                && s'.epoch == (if d.settled && Moved(s, d) then (s.epoch + 1) % 0x1_0000_0000_0000_0000 else s.epoch)
                && s'.completed == (if !d.settled then s.completed
                                    else if Moved(s, d) || (d.logical.Some? && d.handshake.Some?) then None
                                    else s.completed)
  {
    hide Eligible, Choose, CapabilityOf, CountItems, Items, Stateless;
  }

  // ----- what authorizes a replay -----

  function Deep(j: Json, outer: string, middle: string, inner: string): Option<Json> {
    if Inner(j, outer, middle).Some? then Member(Inner(j, outer, middle).value, inner) else None
  }

  lemma ThreeSteps(j: Json, outer: string, middle: string, inner: string)
    ensures At(j, [outer, middle, inner]) == Deep(j, outer, middle, inner)
  {
    hide Find, Encode;
    assert [outer, middle, inner][1..] == [middle, inner];
    if Get(j, outer).Some? { TwoSteps(Get(j, outer).value, middle, inner); }
  }

  /** The code of an error: the detailed one, or else the plain one. */
  function CodeOf(body: Json): Option<string> {
    var detailed := Spelled(Deep(body, "error", "details", "error_code"));
    if detailed.Some? then detailed else Spelled(Inner(body, "error", "code"))
  }

  /** The endpoint says that it does not hold, or cannot continue, what was named. */
  predicate Forgotten(status: nat, code: Option<string>) {
    || (status == 404 && code == Some("thread_not_found"))
    || (status == 404 && code == Some("previous_response_not_found"))
    || (status == 404 && code == Some("interaction_not_found"))
    || (status == 400 && code == Some("thread_already_continued"))
    || (status == 400 && code == Some("thread_continue_in_flight"))
    || (status == 400 && code == Some("thread_fingerprint_mismatch"))
    || (status == 400 && code == Some("previous_response_not_found"))
  }

  /** The endpoint says in words that the named response or interaction is not found. */
  ghost predicate SaysMissing(message: string, id: string) {
    && Within(message, id) && WithinFolded(message, "not found")
    && (WithinFolded(message, "response") || WithinFolded(message, "interaction"))
  }

  lemma ForgottenIff(status: nat, body: Json)
    ensures ReplayableError(status, body) <==> Forgotten(status, CodeOf(body))
  {
    ThreeSteps(body, "error", "details", "error_code");
    TwoSteps(body, "error", "code");
    hide At, Deep, Inner;
  }

  lemma MissingIff(message: string, id: string)
    ensures SaysMissing(message, id) <==>
              && Contains(message, id) && Contains(Lower(message), "not found")
              && (Contains(Lower(message), "response") || Contains(Lower(message), "interaction"))
  {
    hide Contains, Within, WithinFolded, Lower;
    ContainsIff(message, id);
    LoweredIff(message, "not found");
    LoweredIff(message, "response");
    LoweredIff(message, "interaction");
  }

  /** The endpoint rejects threads as such. */
  predicate RefusesThreads(s: Session, status: nat, body: Json) {
    && s.lastCapability == Some(AnthropicThread) && (s.mode == Continue || s.mode == Create || s.mode == Recreate)
    && status == 400 && Spelled(Deep(body, "error", "details", "error_code")) == Some("thread_unsupported_request")
  }

  /** The endpoint says in words that it does not hold the response that was named. */
  ghost predicate DeniesNamed(s: Session, status: nat, body: Json) {
    var message := Spelled(Inner(body, "error", "message"));
    && (status == 400 || status == 404) && s.lastCapability != Some(AnthropicThread)
    && s.lastReference.Some? && message.Some? && SaysMissing(message.value, s.lastReference.value)
  }

  lemma RefusesThreadsIff(s: Session, r: Response)
    ensures UnsupportedThread(s, r) <==> r.body.Some? && RefusesThreads(s, r.status, r.body.value)
  {
    hide At, Deep, Inner;
    if r.body.Some? { ThreeSteps(r.body.value, "error", "details", "error_code"); }
  }

  lemma DeniesNamedIff(s: Session, r: Response)
    ensures NamedMissing(s, r) <==> r.body.Some? && DeniesNamed(s, r.status, r.body.value)
  {
    hide At, Deep, Inner, Contains, SaysMissing, Lower;
    if r.body.Some? {
      TwoSteps(r.body.value, "error", "message");
      var message := Spelled(Inner(r.body.value, "error", "message"));
      if message.Some? && s.lastReference.Some? { MissingIff(message.value, s.lastReference.value); }
    }
  }

  /** A replay is authorized exactly by a rejection of threads as such, or, when the request continued, by the
      endpoint's word that it does not hold what was named. */
  lemma RecoverableIff(s: Session, r: Response)
    ensures Recoverable(s, r) <==>
              && r.body.Some?
              && (|| RefusesThreads(s, r.status, r.body.value)
                  || (s.mode == Continue && (Forgotten(r.status, CodeOf(r.body.value)) || DeniesNamed(s, r.status, r.body.value))))
  {
    hide UnsupportedThread, NamedMissing, ReplayableError, RefusesThreads, DeniesNamed, Forgotten, CodeOf;
    RefusesThreadsIff(s, r);
    DeniesNamedIff(s, r);
    if r.body.Some? { ForgottenIff(r.status, r.body.value); }
  }

  // ----- what a response adds -----

  /** The reply a thread stores: the assistant's content, as it is. */
  predicate Reply(item: Json, content: Json) {
    item.Obj? && |item.fields| == 2 && Member(item, "role") == Some(Text("assistant")) && Member(item, "content") == Some(content)
  }

  /** What a response that ended well adds to the history. */
  predicate Adds(c: Capability, body: Json, output: seq<Json>) {
    var status, reason := Spelled(Member(body, "status")), Spelled(Member(body, "stop_reason"));
    match c
    case Responses => status == Some("completed") && Elements(Member(body, "output")) == Some(output)
    case GeminiInteraction => (status == Some("completed") || status == Some("requires_action")) && Elements(Member(body, "steps")) == Some(output)
    case AnthropicThread =>
      && (reason == Some("end_turn") || reason == Some("tool_use") || reason == Some("stop_sequence") || reason == Some("pause_turn"))
      && |output| == 1 && Member(body, "content").Some? && Reply(output[0], Member(body, "content").value)
    case Unsupported => false
  }

  /** A response seeds a continuation exactly when it ended well and carries an id and its output; this is what it then holds. */
  lemma PublicationIff(o: Observation, body: Json, output: seq<Json>)
    ensures var id, p := Spelled(Member(body, "id")), Publication(o, body);
            && (p.Some? ==>
                  && p.value.identity == o.identity && p.value.logical == o.logical
                  && id == Some(p.value.id) && |p.value.id| > 0 && Adds(o.capability, body, p.value.output))
            && (id.Some? && |id.value| > 0 && Adds(o.capability, body, output) ==> p.Some?)
  {
    MemberReads(body, "id");
    hide Member, StringAt, Adds, Output;
    OutputIff(o.capability, body, output);
  }

  lemma OutputIff(c: Capability, body: Json, output: seq<Json>)
    ensures Output(c, body).Some? ==> Adds(c, body, Output(c, body).value)
    ensures Adds(c, body, output) ==> Output(c, body).Some?
  {
    hide Member, StringAt, ItemsAt, Get, Reply, Spelled, Elements;
    match c
    case AnthropicThread => ThreadOutputIff(body, output);
    case _ =>
      MemberReads(body, "status");
      MemberReads(body, "output");
      MemberReads(body, "steps");
  }

  lemma ThreadOutputIff(body: Json, output: seq<Json>)
    ensures Output(AnthropicThread, body).Some? ==> Adds(AnthropicThread, body, Output(AnthropicThread, body).value)
    ensures Adds(AnthropicThread, body, output) ==> Output(AnthropicThread, body).Some?
  {
    hide Member, StringAt, Get, Reply, Spelled, Encode;
    MemberReads(body, "stop_reason");
    MemberReads(body, "content");
    if Member(body, "content").Some? { ReplyIs(Member(body, "content").value); }
  }

  lemma ReplyIs(content: Json)
    ensures Reply(Obj([Field(Encode("role"), Text("assistant")), Field(Encode("content"), content)]), content)
  {
    R.RoleApart();
    hide Encode;
    var fields := [Field(Encode("role"), Text("assistant")), Field(Encode("content"), content)];
    assert Find(fields, Encode("role")) == Some(Text("assistant"));
    assert fields[1..] == [Field(Encode("content"), content)];
    assert Find(fields, Encode("content")) == Find(fields[1..], Encode("content")) == Some(content);
  }

  /** One run of a served request that a fallback took over. */
  predicate Fell(run: Json) { Spelled(Member(run, "type")) == Some("fallback_message") }

  /** What was not stored, or was served by a fallback, seeds nothing. */
  lemma UnpublishableIff(body: Json)
    ensures var runs := Listed(Elements(Inner(body, "usage", "iterations")));
            Unpublishable(body) <==> Member(body, "store") == Some(Prim("false")) || exists i :: 0 <= i < |runs| && Fell(runs[i])
  {
    TwoSteps(body, "usage", "iterations");
    hide At, Inner, Encode, Find, Fell, StringAt;
    var runs := Listed(Elements(Inner(body, "usage", "iterations")));
    forall i | 0 <= i < |runs| ensures StringAt(runs[i], ["type"]) == Some("fallback_message") <==> Fell(runs[i]) { FellReads(runs[i]); }
  }

  lemma FellReads(run: Json)
    ensures StringAt(run, ["type"]) == Some("fallback_message") <==> Fell(run)
  {
    MemberReads(run, "type");
    hide Member, StringAt;
  }
}
