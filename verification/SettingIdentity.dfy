/** When the settings of two requests count as the same. */
module SettingIdentity {
  // What the settings of two requests must share, field by field; the comparison of the session decides
  // exactly this.

  import opened Utf16
  import opened JsonValue
  import opened Payload
  import opened Conversation
  import opened ItemIdentity

  // ----- settings of two requests -----

  /** The fields two requests of one conversation may differ in: the items, whether to stream, the model on a
      checked switch, and what a thread leaves free. */
  function LeftOut(c: Capability, switch: bool): seq<string> {
    if c == AnthropicThread then
      ["messages", "stream"] + (if switch then ["model"] else []) + ["max_tokens", "stop_sequences", "metadata", "service_tier"]
    else ["input", "stream"] + (if switch then ["model"] else [])
  }

  function Inner(j: Json, outer: string, inner: string): Option<Json> {
    if Member(j, outer).Some? then Member(Member(j, outer).value, inner) else None
  }

  /** Server lists agree server by server on everything but the tokens. */
  ghost predicate SameServers(m: string -> int, a: Option<Json>, b: Option<Json>) {
    match (Elements(a), Elements(b))
    case (Some(xs), Some(ys)) => |xs| == |ys| && forall k :: 0 <= k < |xs| ==> SamePart(m, xs[k], ["authorization_token"], ys[k], ["authorization_token"])
    case (None, None) => OptEq(m, a, b)
    case _ => false
  }

  ghost predicate SameSetting(m: string -> int, c: Capability, a: Json, b: Json, key: seq<Unit>) {
    if c == AnthropicThread && key == Encode("fallbacks") then Named(a, key).Some? <==> Named(b, key).Some?
    else if c == AnthropicThread && key == Encode("container") then OptEq(m, Inner(a, "container", "skills"), Inner(b, "container", "skills"))
    else if c == AnthropicThread && key == Encode("mcp_servers") then SameServers(m, Named(a, key), Named(b, key))
    else OptEq(m, Named(a, key), Named(b, key))
  }

  /** Two requests agree on every setting.  Of a thread's settings, fallbacks agree on being there, a container on
      its skills, and servers on everything but their tokens. */
  ghost predicate SameSettings(m: string -> int, c: Capability, switch: bool, a: Json, b: Json) {
    forall key: seq<Unit> :: Among(LeftOut(c, switch), key) || SameSetting(m, c, a, b, key)
  }

  /** A request whose settings can be compared. */
  predicate Settled(c: Capability, body: Json) {
    && body.Obj?
    && (c == AnthropicThread && Elements(Member(body, "mcp_servers")).Some? ==>
          forall k :: 0 <= k < |Elements(Member(body, "mcp_servers")).value| ==> Elements(Member(body, "mcp_servers")).value[k].Obj?)
  }

  lemma {:induction false} AmongConcat(xs: seq<string>, ys: seq<string>, key: seq<Unit>)
    ensures Among(xs + ys, key) <==> Among(xs, key) || Among(ys, key)
  {
    hide Encode;
    if Among(xs, key) {
      var i :| 0 <= i < |xs| && key == Encode(xs[i]);
      assert (xs + ys)[i] == xs[i];
    }
    if Among(ys, key) {
      var i :| 0 <= i < |ys| && key == Encode(ys[i]);
      assert (xs + ys)[|xs| + i] == ys[i];
    }
  }

  /** Removing in two goes is removing all. */
  lemma WithoutBoth(j: Json, xs: seq<string>, ys: seq<string>)
    requires j.Obj?
    ensures Without(j, xs).Some? && Without(Without(j, xs).value, ys).Some?
    ensures var r := Without(Without(j, xs).value, ys).value;
            && r.Obj? && (forall key: seq<Unit> :: Find(r.fields, key) == Seen(j, xs + ys, key))
            && (DistinctKeys(j.fields) ==> DistinctKeys(r.fields))
  {
    WithoutFinds(j, xs);
    var a := Without(j, xs).value;
    WithoutFinds(a, ys);
    hide Find, Among, DistinctKeys;
    forall key: seq<Unit> ensures Seen(a, ys, key) == Seen(j, xs + ys, key) { AmongConcat(xs, ys, key); }
  }

  /** What is compared of a request without the thread's own rules. */
  lemma PlainSettings(body: Json, c: Capability, switch: bool)
    requires body.Obj? && DistinctKeys(body.fields)
    ensures var first, second := [Input(c), "stream"], if switch then ["model"] else [];
            && Without(body, first).Some? && Without(Without(body, first).value, second).Some?
            && var r := Without(Without(body, first).value, second).value;
            && r.Obj? && DistinctKeys(r.fields) && forall key: seq<Unit> :: Find(r.fields, key) == Seen(body, first + second, key)
  {
    WithoutBoth(body, [Input(c), "stream"], if switch then ["model"] else []);
  }

  lemma ThreadSettings(body: Json, switch: bool)
    requires body.Obj? && DistinctKeys(body.fields)
    ensures var first, second := [Input(AnthropicThread), "stream"], if switch then ["model"] else [];
            && Without(body, first).Some? && Without(Without(body, first).value, second).Some?
            && Without(Without(Without(body, first).value, second).value, ThreadFreeFields()).Some?
            && var r := Without(Without(Without(body, first).value, second).value, ThreadFreeFields()).value;
            && r.Obj? && DistinctKeys(r.fields) && forall key: seq<Unit> :: Find(r.fields, key) == Seen(body, LeftOut(AnthropicThread, switch), key)
  {
    PlainSettings(body, AnthropicThread, switch);
    var first, second := [Input(AnthropicThread), "stream"], if switch then ["model"] else [];
    var a := Without(Without(body, first).value, second).value;
    WithoutFinds(a, ThreadFreeFields());
    hide Find, Among, DistinctKeys, Without;
    assert LeftOut(AnthropicThread, switch) == first + second + ThreadFreeFields();
    forall key: seq<Unit> ensures Seen(a, ThreadFreeFields(), key) == Seen(body, LeftOut(AnthropicThread, switch), key) {
      AmongConcat(first + second, ThreadFreeFields(), key);
    }
  }

  /** The list of servers as it is compared. */
  function ServersOf(v: Option<Json>): Option<Json> {
    if Elements(v).Some? && EachWithout(Elements(v).value, ["authorization_token"]).Some? then
      Some(Arr(EachWithout(Elements(v).value, ["authorization_token"]).value))
    else v
  }

  function Flag(v: Option<Json>): Option<Json> { Some(Prim(if v.Some? then "true" else "false")) }

  lemma TwoSteps(j: Json, outer: string, inner: string)
    ensures At(j, [outer, inner]) == Inner(j, outer, inner)
  {
    hide Find, Encode;
    assert [outer, inner][1..] == [inner];
    if Get(j, outer).Some? {
      var x := Get(j, outer).value;
      assert At(j, [outer, inner]) == At(x, [inner]);
      assert [inner][1..] == [];
      if Get(x, inner).Some? { assert At(Get(x, inner).value, []) == Get(x, inner); }
    }
  }

  lemma ThreadNames()
    ensures Encode("fallbacks") != Encode("container") && Encode("fallbacks") != Encode("mcp_servers") && Encode("container") != Encode("mcp_servers")
  {
    if Encode("fallbacks") == Encode("container") { EncodeInjective("fallbacks", "container"); }
    if Encode("fallbacks") == Encode("mcp_servers") { EncodeInjective("fallbacks", "mcp_servers"); }
    if Encode("container") == Encode("mcp_servers") { EncodeInjective("container", "mcp_servers"); }
  }

  ghost predicate FingerprintFinds(body: Json, r: Json) {
    r.Obj? && DistinctKeys(r.fields) &&
    forall key: seq<Unit> :: Find(r.fields, key) ==
      if key == Encode("fallbacks") then Flag(Member(body, "fallbacks"))
      else if key == Encode("container") then Inner(body, "container", "skills")
      else if key == Encode("mcp_servers") then ServersOf(Member(body, "mcp_servers"))
      else Named(body, key)
  }

  lemma FingerprintFields(body: Json)
    requires body.Obj? && DistinctKeys(body.fields)
    ensures ThreadFingerprint(body).Some? <==> Settled(AnthropicThread, body)
    ensures ThreadFingerprint(body).Some? ==> FingerprintFinds(body, ThreadFingerprint(body).value)
  {
    ThreadNames();
    MemberReads(body, "fallbacks");
    MemberReads(body, "mcp_servers");
    TwoSteps(body, "container", "skills");
    hide Encode, Find, Replace, DistinctKeys, ItemsAt, Get, EachWithout, At, Inner;
    var flag := Flag(Member(body, "fallbacks"));
    ReplaceFinds(body, "fallbacks", flag);
    var a := Replace(body, "fallbacks", flag).value;
    ReplaceFinds(a, "container", Inner(body, "container", "skills"));
    var b := Replace(a, "container", Inner(body, "container", "skills")).value;
    var servers := Elements(Member(body, "mcp_servers"));
    if servers.Some? {
      EachStripped(servers.value, ["authorization_token"]);
      if EachWithout(servers.value, ["authorization_token"]).Some? {
        ReplaceFinds(b, "mcp_servers", Some(Arr(EachWithout(servers.value, ["authorization_token"]).value)));
      }
    }
  }

  /** The field of a request as it is compared. */
  function SettingField(c: Capability, switch: bool, body: Json, key: seq<Unit>): Option<Json> {
    if Among(LeftOut(c, switch), key) then None
    else if c == AnthropicThread && key == Encode("fallbacks") then Flag(Member(body, "fallbacks"))
    else if c == AnthropicThread && key == Encode("container") then Inner(body, "container", "skills")
    else if c == AnthropicThread && key == Encode("mcp_servers") then ServersOf(Member(body, "mcp_servers"))
    else Named(body, key)
  }

  ghost predicate SettingsFind(c: Capability, switch: bool, body: Json, r: Json) {
    r.Obj? && DistinctKeys(r.fields) && forall key: seq<Unit> :: Find(r.fields, key) == SettingField(c, switch, body, key)
  }

  lemma KeptNames(switch: bool)
    ensures !Among(LeftOut(AnthropicThread, switch), Encode("fallbacks"))
    ensures !Among(LeftOut(AnthropicThread, switch), Encode("container"))
    ensures !Among(LeftOut(AnthropicThread, switch), Encode("mcp_servers"))
  {
    NotLeftOut(switch, "fallbacks");
    NotLeftOut(switch, "container");
    NotLeftOut(switch, "mcp_servers");
  }

  lemma NotLeftOut(switch: bool, name: string)
    requires name == "fallbacks" || name == "container" || name == "mcp_servers"
    ensures !Among(LeftOut(AnthropicThread, switch), Encode(name))
  {
    hide Encode;
    var names := LeftOut(AnthropicThread, switch);
    assert name !in names by { assert name[0] == 'f' || name[1] == 'o' || name[1] == 'c'; }
    forall i | 0 <= i < |names| ensures Encode(name) != Encode(names[i]) {
      if Encode(name) == Encode(names[i]) { EncodeInjective(name, names[i]); }
    }
  }

  /** The fields a thread's own rules read are not left out. */
  lemma FreeMembers(body: Json, switch: bool, free: Json)
    requires body.Obj? && free.Obj?
    requires forall key: seq<Unit> :: Find(free.fields, key) == Seen(body, LeftOut(AnthropicThread, switch), key)
    ensures Member(free, "fallbacks") == Member(body, "fallbacks")
    ensures Member(free, "container") == Member(body, "container")
    ensures Member(free, "mcp_servers") == Member(body, "mcp_servers")
  {
    KeptNames(switch);
    hide Encode, Find, LeftOut, Among;
  }

  lemma FreeField(body: Json, switch: bool, free: Json, r: Json, key: seq<Unit>)
    requires body.Obj? && free.Obj? && FingerprintFinds(free, r)
    requires forall k: seq<Unit> :: Find(free.fields, k) == Seen(body, LeftOut(AnthropicThread, switch), k)
    ensures Find(r.fields, key) == SettingField(AnthropicThread, switch, body, key)
  {
    hide Encode, Find, LeftOut, Among, ServersOf, Flag, DistinctKeys, Inner;
    assert Find(free.fields, key) == Seen(body, LeftOut(AnthropicThread, switch), key);
    FreeMembers(body, switch, free);
    KeptNames(switch);
    InnerSame(free, body, "container", "skills");
  }

  lemma InnerSame(a: Json, b: Json, outer: string, inner: string)
    requires Member(a, outer) == Member(b, outer)
    ensures Inner(a, outer, inner) == Inner(b, outer, inner)
  {
    hide Member;
  }

  lemma FreeSettings(body: Json, switch: bool, free: Json)
    requires body.Obj? && free.Obj? && DistinctKeys(free.fields)
    requires forall key: seq<Unit> :: Find(free.fields, key) == Seen(body, LeftOut(AnthropicThread, switch), key)
    ensures ThreadFingerprint(free).Some? <==> Settled(AnthropicThread, body)
    ensures ThreadFingerprint(free).Some? ==> SettingsFind(AnthropicThread, switch, body, ThreadFingerprint(free).value)
  {
    FingerprintFields(free);
    FreeMembers(body, switch, free);
    hide ThreadFingerprint, Encode, Find, DistinctKeys, LeftOut, Among, Member, SettingField;
    if ThreadFingerprint(free).Some? {
      var r := ThreadFingerprint(free).value;
      forall key: seq<Unit> ensures Find(r.fields, key) == SettingField(AnthropicThread, switch, body, key) { FreeField(body, switch, free, r, key); }
    }
  }

  lemma ThreadSettingsFields(body: Json, switch: bool)
    requires body.Obj? && DistinctKeys(body.fields)
    ensures Settings(body, AnthropicThread, switch).Some? <==> Settled(AnthropicThread, body)
    ensures Settings(body, AnthropicThread, switch).Some? ==> SettingsFind(AnthropicThread, switch, body, Settings(body, AnthropicThread, switch).value)
  {
    ThreadSettings(body, switch);
    var first, second := [Input(AnthropicThread), "stream"], if switch then ["model"] else [];
    var free := Without(Without(Without(body, first).value, second).value, ThreadFreeFields()).value;
    hide Without, ThreadFingerprint, Find, DistinctKeys, LeftOut, SettingsFind, Settled, Seen;
    FreeSettings(body, switch, free);
  }

  lemma PlainSettingsFields(body: Json, c: Capability, switch: bool)
    requires body.Obj? && DistinctKeys(body.fields) && c != AnthropicThread
    ensures Settings(body, c, switch).Some? && SettingsFind(c, switch, body, Settings(body, c, switch).value)
  {
    hide Without, Find, DistinctKeys, Among, Named, Encode;
    PlainSettings(body, c, switch);
    var first, second := [Input(c), "stream"], if switch then ["model"] else [];
    var r := Without(Without(body, first).value, second).value;
    assert Settings(body, c, switch) == Some(r);
    assert first + second == LeftOut(c, switch);
  }

  lemma SettingsFields(body: Json, c: Capability, switch: bool)
    requires body.Obj? ==> DistinctKeys(body.fields)
    ensures Settings(body, c, switch).Some? <==> Settled(c, body)
    ensures Settings(body, c, switch).Some? ==> SettingsFind(c, switch, body, Settings(body, c, switch).value)
  {
    if !body.Obj? {
      WithoutFinds(body, [Input(c), "stream"]);
    } else if c == AnthropicThread {
      hide Settings, Settled, SettingsFind, DistinctKeys;
      ThreadSettingsFields(body, switch);
    } else {
      PlainSettingsFields(body, c, switch);
      hide Settings, SettingsFind, DistinctKeys;
    }
  }

  /** A list of servers as it is compared. */
  lemma ListCompared(xs: seq<Json>)
    requires AllObjects(xs)
    ensures EachWithout(xs, ["authorization_token"]).Some?
    ensures ServersOf(Some(Arr(xs))) == Some(Arr(EachWithout(xs, ["authorization_token"]).value))
  {
    EachStripped(xs, ["authorization_token"]);
    hide EachWithout, Counted;
  }

  lemma ListsEqualIff(m: string -> int, xs: seq<Json>, ys: seq<Json>)
    requires AllObjects(xs) && AllObjects(ys) && AllDistinct(xs) && AllDistinct(ys)
    ensures ServersOf(Some(Arr(xs))).Some? && ServersOf(Some(Arr(ys))).Some?
    ensures SemEq(m, ServersOf(Some(Arr(xs))).value, ServersOf(Some(Arr(ys))).value) <==> SameServers(m, Some(Arr(xs)), Some(Arr(ys)))
  {
    hide SemEq, SamePart, EachWithout, AllDistinct, AllObjects, ServersOf;
    ListCompared(xs);
    ListCompared(ys);
    RemovedEqualIff(m, xs, ys, "authorization_token");
  }

  lemma ServersKind(v: Option<Json>)
    ensures Elements(v).None? ==> ServersOf(v) == v
    ensures Elements(v).Some? ==> ServersOf(v).Some? && ServersOf(v).value.Arr?
  {
  }

  lemma ElementsDistinct(v: Option<Json>)
    requires v.Some? ==> Distinct(v.value)
    ensures Elements(v).Some? ==> AllDistinct(Elements(v).value)
  {
  }

  lemma ServersEqualIff(m: string -> int, a: Option<Json>, b: Option<Json>)
    requires a.Some? ==> Distinct(a.value)
    requires b.Some? ==> Distinct(b.value)
    requires Elements(a).Some? ==> AllObjects(Elements(a).value)
    requires Elements(b).Some? ==> AllObjects(Elements(b).value)
    ensures OptEq(m, ServersOf(a), ServersOf(b)) <==> SameServers(m, a, b)
  {
    ServersKind(a);
    ServersKind(b);
    ElementsDistinct(a);
    ElementsDistinct(b);
    hide ServersOf, AllDistinct, AllObjects, Distinct;
    if Elements(a).Some? && Elements(b).Some? {
      ListsEqualIff(m, a.value.items, b.value.items);
      hide SameServers, SemEq;
    } else {
      hide SamePart;
    }
  }

  lemma FlagsEqualIff(m: string -> int, a: Option<Json>, b: Option<Json>)
    ensures OptEq(m, Flag(a), Flag(b)) <==> (a.Some? <==> b.Some?)
  {
    assert "true" != "false" by { assert |"true"| != |"false"|; }
  }

  /** One setting. */
  lemma SettingEqualIff(m: string -> int, c: Capability, switch: bool, a: Json, b: Json, key: seq<Unit>)
    requires Distinct(a) && Distinct(b) && Settled(c, a) && Settled(c, b)
    ensures OptEq(m, SettingField(c, switch, a, key), SettingField(c, switch, b, key)) <==> Among(LeftOut(c, switch), key) || SameSetting(m, c, a, b, key)
  {
    hide Encode, Find, LeftOut, Flag, ServersOf, SameServers, Distinct;
    if c == AnthropicThread && !Among(LeftOut(c, switch), key) {
      if key == Encode("fallbacks") {
        FlagsEqualIff(m, Member(a, "fallbacks"), Member(b, "fallbacks"));
      } else if key == Encode("mcp_servers") && key != Encode("container") {
        if Member(a, "mcp_servers").Some? { DistinctMember(a, Encode("mcp_servers")); }
        if Member(b, "mcp_servers").Some? { DistinctMember(b, Encode("mcp_servers")); }
        ServersEqualIff(m, Member(a, "mcp_servers"), Member(b, "mcp_servers"));
      }
    }
  }

  /** Two requests are compatible exactly when they can be compared and agree on every setting. */
  lemma CompatibleIff(m: string -> int, previous: Json, current: Json, d: Draft)
    requires Distinct(previous) && Distinct(current)
    ensures var c := CapabilityOf(d.profile);
            Compatible(m, previous, current, d) == Some(true) <==>
              Settled(c, previous) && Settled(c, current) && SameSettings(m, c, ModelSwitch(previous, current, d), previous, current)
  {
    hide CapabilityOf, ModelSwitch, Settings, Settled, SemEq, OptEq, Find, DistinctKeys, LeftOut, SettingField, SameSetting, Among;
    var c, switch := CapabilityOf(d.profile), ModelSwitch(previous, current, d);
    SettingsFields(previous, c, switch);
    SettingsFields(current, c, switch);
    hide Distinct;
    if Settled(c, previous) && Settled(c, current) {
      var x, y := Settings(previous, c, switch).value, Settings(current, c, switch).value;
      ObjectsEqualIff(m, x, y);
      forall key: seq<Unit>
        ensures OptEq(m, Find(x.fields, key), Find(y.fields, key)) <==> Among(LeftOut(c, switch), key) || SameSetting(m, c, previous, current, key)
      {
        SettingEqualIff(m, c, switch, previous, current, key);
      }
    }
  }
}
