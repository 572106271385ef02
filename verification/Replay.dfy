/** Moving a history to another family. */
module Replay {
  // Moving a conversation to another protocol family: which blocks may be replayed, what replaces
  // the others, and where each block ends up.

  import opened Utf16
  import opened JsonValue
  import opened Messages
  import P = Payload

  datatype Policy = Reject | DropIncompatible

  datatype Decision = Compatible(block: ContentBlock) | Incompatible(replacement: Option<ContentBlock>)

  datatype Context = Context(target: Family, foreignReasoning: bool)

  const GOOGLE_CALL := "google.interactions.computer_call.v1"
  const GOOGLE_RESULT := "google.interactions.computer_result.v1"

  /** The formats of typed OpenAI computer calls and of their outputs. */
  datatype Formats = Formats(call: string, output: string)

  /** What the code takes from elsewhere: the two format tags and a value's own source text. */
  datatype World = World(openai: Formats, sourceOf: Json -> string)

  predicate ForeignReasoning(b: ContentBlock, target: Family) {
    && b.ProviderContent? && NativeFamily(b.protocol) != target
    && P.StringAt(b.value, ["type"]) in {Some("reasoning"), Some("chat_reasoning")}
  }

  /** `for_message` */
  function ForMessage(blocks: seq<ContentBlock>, target: Family): Context {
    var native := NativeFamily(target);
    Context(native, exists k :: 0 <= k < |blocks| && ForeignReasoning(blocks[k], native))
  }

  predicate Foreign(source: Option<Family>, target: Family) { source.Some? && NativeFamily(source.value) != target }

  /** The portable stand-in for another family's native text or tool result. */
  function PortableText(value: Json): Option<ContentBlock> {
    var units := P.UnitsAt(value, ["text"]);
    if units.Some? && WellFormed(units.value) then Some(Text(Display(units.value), None, None)) else None
  }

  function PortableResult(world: World, value: Json): Option<ContentBlock> {
    var units := P.UnitsAt(value, ["tool_use_id"]);
    var content := P.Get(value, "content");
    if units.None? || content.None? || Display(units.value) == "" || !WellFormed(units.value) then None
    else
      var c := content.value;
      var flag := P.Get(value, "is_error");
      Some(ToolResult(
        Display(units.value), if c.Str? then c else P.Text(world.sourceOf(c)),
        if flag == Some(Prim("true")) then Some(true) else if flag == Some(Prim("false")) then Some(false) else None,
        if c.Arr? then content else None, None, None))
  }

  function DecideNative(world: World, c: Context, b: ContentBlock, foreign: bool): Decision
    requires b.Native?
  {
    var format := b.native.format;
    if c.target == GeminiInteractions && !foreign && (format == GOOGLE_CALL || format == GOOGLE_RESULT) then Compatible(b)
    else if format == world.openai.call then Incompatible(None)
    else if c.target == OpenAiResponses && format == world.openai.output then Compatible(b)
    else Incompatible(None)
  }

  function DecideProvider(world: World, c: Context, b: ContentBlock): Decision
    requires b.ProviderContent?
  {
    var kind := P.StringAt(b.value, ["type"]);
    if kind == Some("computer_call") || kind == Some("computer_call_output") then Incompatible(None)
    else if NativeFamily(b.protocol) == c.target then Compatible(b.(protocol := NativeFamily(b.protocol)))
    else if kind == Some("text") then Incompatible(PortableText(b.value))
    else if NativeFamily(b.protocol) == AnthropicMessages && kind == Some("tool_result") then Incompatible(PortableResult(world, b.value))
    else Incompatible(None)
  }

  function DecideTool(c: Context, b: ContentBlock, foreign: bool): Decision
    requires b.ToolUse?
  {
    var signature := b.thoughtSignature.Some? && (foreign || c.target != GeminiGenerateContent);
    var caller := (b.caller.Some? || b.toolsetName.Some?) && (foreign || c.target != AnthropicMessages);
    var provider := b.providerId.Some? && foreign;
    if signature || caller || provider then
      var b1 := if signature then b.(thoughtSignature := None) else b;
      var b2 := if caller then b1.(caller := None, toolsetName := None) else b1;
      Incompatible(Some(if provider then b2.(providerId := None) else b2))
    else Compatible(b)
  }

  /** `decision` */
  function Decide(world: World, c: Context, b: ContentBlock, source: Option<Family>): Decision {
    var foreign := Foreign(source, c.target);
    match b
    case Native(_) => DecideNative(world, c, b, foreign)
    case ProviderContent(_, _) => DecideProvider(world, c, b)
    case Thinking(text, signature) =>
      if c.target == AnthropicMessages && (foreign || (signature.None? && c.foreignReasoning)) then Incompatible(None)
      else if signature.Some? && (foreign || (c.target != AnthropicMessages && c.target != GeminiGenerateContent)) then
        Incompatible(Some(Thinking(text, None)))
      else Compatible(b)
    case RedactedThinking(_) => if c.target != AnthropicMessages || foreign then Incompatible(None) else Compatible(b)
    case Text(text, signature, citations) =>
      if citations.Some? && (foreign || c.target != AnthropicMessages) then Incompatible(Some(Text(text, None, None)))
      else if signature.Some? && (foreign || c.target != GeminiGenerateContent) then Incompatible(Some(Text(text, None, citations)))
      else Compatible(b)
    case TextJsUtf16(text, units, signature, citations) =>
      if citations.Some? && (foreign || c.target != AnthropicMessages) then Incompatible(Some(TextJsUtf16(text, units, signature, None)))
      else if signature.Some? && (foreign || c.target != GeminiGenerateContent) then Incompatible(Some(TextJsUtf16(text, units, None, citations)))
      else Compatible(b)
    case ToolUse(_, _, _, _, _, _, _) => DecideTool(c, b, foreign)
    case ToolResult(_, _, _, _, _, toolset) =>
      if toolset.Some? && (foreign || c.target != AnthropicMessages) then Incompatible(Some(b.(toolsetName := None))) else Compatible(b)
    case _ => Compatible(b)
  }

  /** `apply` */
  function Apply(d: Decision, policy: Policy): Result<Option<ContentBlock>> {
    match d
    case Compatible(b) => Ok(Some(b))
    case Incompatible(r) => if policy == Reject then Invalid else Ok(r)
  }

  /** `normalize` */
  function Normalize(world: World, c: Context, b: ContentBlock, source: Option<Family>, policy: Policy): Result<Option<ContentBlock>> {
    Apply(Decide(world, c, b, source), policy)
  }

  // ----- fixed points of one block -----

  /** A second lossy pass has something left to drop. */
  predicate TwoLayers(c: Context, b: ContentBlock, source: Option<Family>) {
    && b.TextJsUtf16? && b.citations.Some? && b.thoughtSignature.Some?
    && (Foreign(source, c.target) || (c.target != AnthropicMessages && c.target != GeminiGenerateContent))
  }

  /** Same target, and no reasoning is foreign that was not. */
  predicate Settled(c: Context, c': Context) { c'.target == c.target && (c'.foreignReasoning ==> c.foreignReasoning) }

  /** The family a context aims at is a native one. */
  predicate NativeTarget(c: Context) { NativeFamily(c.target) == c.target }

  /** One lossy pass reaches a block that is compatible and stays as it is, except exactly when it
      carried both layers. */
  lemma OnePass(world: World, c: Context, c': Context, b: ContentBlock, source: Option<Family>)
    requires Settled(c, c') && NativeTarget(c)
    ensures var r := Normalize(world, c, b, source, DropIncompatible);
            r.Ok? && (r.value.Some? ==>
                        (Decide(world, c', r.value.value, source) == Compatible(r.value.value) <==> !TwoLayers(c, b, source)))
  {
    hide P.StringAt, P.UnitsAt, P.Get;
  }

  /** Two lossy passes always do. */
  lemma TwoPasses(world: World, c: Context, c': Context, c'': Context, b: ContentBlock, source: Option<Family>)
    requires Settled(c, c') && Settled(c', c'') && NativeTarget(c)
    ensures var r := Normalize(world, c, b, source, DropIncompatible);
            r.value.Some? ==>
              var s := Normalize(world, c', r.value.value, source, DropIncompatible);
              s.value.Some? && Decide(world, c'', s.value.value, source) == Compatible(s.value.value)
  {
    hide P.StringAt, P.UnitsAt, P.Get, PortableText, PortableResult;
    OnePass(world, c, c', b, source);
    if TwoLayers(c, b, source) {
    } else {
      var r := Normalize(world, c, b, source, DropIncompatible);
      if r.value.Some? {
        hide Decide, TwoLayers;
        OnePass(world, c, c'', b, source);
      }
    }
  }

  /** Reject accepts a block exactly when it is compatible, and then lossy normalisation keeps it too. */
  lemma RejectAccepts(world: World, c: Context, b: ContentBlock, source: Option<Family>)
    ensures Normalize(world, c, b, source, Reject).Ok? <==> Decide(world, c, b, source).Compatible?
    ensures Normalize(world, c, b, source, Reject).Ok? ==>
              Normalize(world, c, b, source, Reject) == Normalize(world, c, b, source, DropIncompatible)
  {
    hide Decide;
  }

  // ----- requests -----

  /** A request: its messages, a provider continuation, a cache policy unless it is the default, and the rest. */
  datatype Request = Request(messages: seq<Message>, continuation: Option<Json>, cache: Option<Json>, rest: Json)

  /** A message and a block in it. */
  datatype Position = Pos(message: nat, block: nat)

  datatype Projection = Projection(request: Request, positions: map<Position, Position>)

  function Kept(row: seq<Option<ContentBlock>>): seq<ContentBlock> {
    if row == [] then []
    else Kept(row[..|row| - 1]) + if row[|row| - 1].Some? then [row[|row| - 1].value] else []
  }

  /** What each block becomes. */
  function Row(world: World, c: Context, blocks: seq<ContentBlock>, source: Family, policy: Policy): Result<seq<Option<ContentBlock>>> {
    if blocks == [] then Ok([])
    else
      var before := Row(world, c, blocks[..|blocks| - 1], source, policy);
      var last := Normalize(world, c, blocks[|blocks| - 1], Some(source), policy);
      if before.Invalid? || last.Invalid? then Invalid else Ok(before.value + [last.value])
  }

  function Rows(world: World, messages: seq<Message>, source: Family, target: Family, policy: Policy): Result<seq<seq<Option<ContentBlock>>>> {
    if messages == [] then Ok([])
    else
      var m := messages[|messages| - 1];
      var before := Rows(world, messages[..|messages| - 1], source, target, policy);
      var row := Row(world, ForMessage(m.content, target), m.content, source, policy);
      if before.Invalid? || row.Invalid? then Invalid else Ok(before.value + [row.value])
  }

  /** Each message with its kept blocks; a message left with nothing is dropped. */
  function Survivors(messages: seq<Message>, rows: seq<seq<Option<ContentBlock>>>): seq<Message>
    requires |rows| == |messages|
  {
    if messages == [] then []
    else
      var n := |messages| - 1;
      var m := messages[n].(content := Kept(rows[n]));
      Survivors(messages[..n], rows[..n]) + if m.content != [] || m.nativeOptions != [] then [m] else []
  }

  lemma {:induction false} RowLength(world: World, c: Context, blocks: seq<ContentBlock>, source: Family, policy: Policy)
    ensures Row(world, c, blocks, source, policy).Ok? ==> |Row(world, c, blocks, source, policy).value| == |blocks|
    decreases |blocks|
  {
    hide Normalize;
    if blocks != [] { RowLength(world, c, blocks[..|blocks| - 1], source, policy); }
  }

  lemma {:induction false} RowsLength(world: World, messages: seq<Message>, source: Family, target: Family, policy: Policy)
    ensures Rows(world, messages, source, target, policy).Ok? ==> |Rows(world, messages, source, target, policy).value| == |messages|
    decreases |messages|
  {
    hide Row;
    if messages != [] { RowsLength(world, messages[..|messages| - 1], source, target, policy); }
  }

  /** What each block of a request becomes: itself within one family. */
  function Wanted(world: World, r: Request, source: Family, target: Family, policy: Policy): Result<seq<seq<Option<ContentBlock>>>> {
    if NativeFamily(source) == NativeFamily(target) then
      Ok(seq(|r.messages|, a requires 0 <= a < |r.messages| => Same(r.messages[a].content)))
    else if r.continuation.Some? || (r.cache.Some? && policy == Reject) then Invalid
    else Rows(world, r.messages, source, target, policy)
  }

  function Same(blocks: seq<ContentBlock>): (row: seq<Option<ContentBlock>>)
    ensures |row| == |blocks|
  {
    seq(|blocks|, b requires 0 <= b < |blocks| => Some(blocks[b]))
  }

  function Adapted(world: World, r: Request, source: Family, target: Family, policy: Policy): Result<Request> {
    var wanted := Wanted(world, r, source, target, policy);
    if wanted.Invalid? then Invalid
    else if NativeFamily(source) == NativeFamily(target) then Ok(r)
    else
      RowsLength(world, r.messages, source, target, policy);
      Ok(r.(messages := Survivors(r.messages, wanted.value), cache := None))
  }

  // ----- positions -----

  predicate Before(p: Position, q: Position) { p.message < q.message || (p.message == q.message && p.block < q.block) }

  predicate In(out: seq<Message>, q: Position) { q.message < |out| && q.block < |out[q.message].content| }

  predicate Stays(want: seq<seq<Option<ContentBlock>>>, p: Position) { p.message < |want| && p.block < |want[p.message]| && want[p.message][p.block].Some? }

  ghost predicate Hit(pos: map<Position, Position>, q: Position) { exists p: Position :: p in pos && pos[p] == q }

  predicate Lands(want: seq<seq<Option<ContentBlock>>>, out: seq<Message>, p: Position, q: Position) {
    Stays(want, p) && In(out, q) && out[q.message].content[q.block] == want[p.message][p.block].value
  }

  ghost predicate Covers(want: seq<seq<Option<ContentBlock>>>, pos: map<Position, Position>) {
    forall p: Position :: Stays(want, p) ==> p in pos
  }

  ghost predicate Faithful(want: seq<seq<Option<ContentBlock>>>, out: seq<Message>, pos: map<Position, Position>) {
    forall p: Position :: p in pos ==> Lands(want, out, p, pos[p])
  }

  ghost predicate Increasing(pos: map<Position, Position>) {
    forall p: Position, q: Position :: p in pos && q in pos && Before(p, q) ==> Before(pos[p], pos[q])
  }

  ghost predicate Onto(out: seq<Message>, pos: map<Position, Position>) {
    forall q: Position :: In(out, q) ==> Hit(pos, q)
  }

  /** The map sends exactly the kept blocks, in order, onto all the output blocks, each to its own value. */
  ghost predicate Placed(want: seq<seq<Option<ContentBlock>>>, out: seq<Message>, pos: map<Position, Position>) {
    Covers(want, pos) && Faithful(want, out, pos) && Increasing(pos) && Onto(out, pos)
  }

  /** Such a map is one-to-one. */
  lemma PlacedInjective(want: seq<seq<Option<ContentBlock>>>, out: seq<Message>, pos: map<Position, Position>, p: Position, q: Position)
    requires Placed(want, out, pos) && p in pos && q in pos && p != q
    ensures pos[p] != pos[q]
  {
    assert Before(p, q) || Before(q, p);
  }

  function Grown(m: Message, v: Option<ContentBlock>): Message { if v.Some? then m.(content := m.content + [v.value]) else m }

  function PosGrown(pos: map<Position, Position>, v: Option<ContentBlock>, here: Position, there: Position): map<Position, Position> {
    if v.Some? then pos[here := there] else pos
  }

  lemma StaysGrown(want: seq<seq<Option<ContentBlock>>>, row: seq<Option<ContentBlock>>, v: Option<ContentBlock>, p: Position)
    ensures Stays(want + [row + [v]], p) <==> Stays(want + [row], p) || (v.Some? && p == Pos(|want|, |row|))
    ensures Stays(want + [row], p) ==> (want + [row + [v]])[p.message][p.block] == (want + [row])[p.message][p.block] && Before(p, Pos(|want|, |row|))
  {
  }

  lemma InGrown(out: seq<Message>, m: Message, v: Option<ContentBlock>, q: Position)
    ensures In(out + [Grown(m, v)], q) <==> In(out + [m], q) || (v.Some? && q == Pos(|out|, |m.content|))
    ensures In(out + [m], q) ==>
              && (out + [Grown(m, v)])[q.message].content[q.block] == (out + [m])[q.message].content[q.block]
              && Before(q, Pos(|out|, |m.content|))
  {
  }

  lemma LandsGrown(want: seq<seq<Option<ContentBlock>>>, row: seq<Option<ContentBlock>>, out: seq<Message>, m: Message,
                   v: Option<ContentBlock>, p: Position, q: Position)
    requires Lands(want + [row], out + [m], p, q)
    ensures Lands(want + [row + [v]], out + [Grown(m, v)], p, q) && Before(p, Pos(|want|, |row|)) && Before(q, Pos(|out|, |m.content|))
  {
    StaysGrown(want, row, v, p);
    InGrown(out, m, v, q);
  }

  lemma LandsNew(want: seq<seq<Option<ContentBlock>>>, row: seq<Option<ContentBlock>>, out: seq<Message>, m: Message, v: Option<ContentBlock>)
    requires v.Some?
    ensures Lands(want + [row + [v]], out + [Grown(m, v)], Pos(|want|, |row|), Pos(|out|, |m.content|))
  {
  }

  /** One more block of the message in hand. */
  lemma PlaceBlock(want: seq<seq<Option<ContentBlock>>>, row: seq<Option<ContentBlock>>, out: seq<Message>, m: Message,
                   pos: map<Position, Position>, v: Option<ContentBlock>)
    requires Placed(want + [row], out + [m], pos)
    ensures Placed(want + [row + [v]], out + [Grown(m, v)], PosGrown(pos, v, Pos(|want|, |row|), Pos(|out|, |m.content|)))
  {
    var here, there := Pos(|want|, |row|), Pos(|out|, |m.content|);
    var pos' := PosGrown(pos, v, here, there);
    var w, w', o, o' := want + [row], want + [row + [v]], out + [m], out + [Grown(m, v)];
    hide Lands, Stays, In, Onto;
    forall p: Position ensures Stays(w', p) ==> p in pos' { StaysGrown(want, row, v, p); }
    forall p: Position | p in pos ensures Lands(w', o', p, pos[p]) && Before(p, here) && Before(pos[p], there) {
      assert Lands(w, o, p, pos[p]);
      LandsGrown(want, row, out, m, v, p, pos[p]);
    }
    if v.Some? { LandsNew(want, row, out, m, v); }
    assert Increasing(pos');
    assert here !in pos;
    OntoGrown(out, m, pos, v, here);
  }

  lemma OntoGrown(out: seq<Message>, m: Message, pos: map<Position, Position>, v: Option<ContentBlock>, here: Position)
    requires Onto(out + [m], pos) && here !in pos
    ensures Onto(out + [Grown(m, v)], PosGrown(pos, v, here, Pos(|out|, |m.content|)))
  {
    var there := Pos(|out|, |m.content|);
    var pos' := PosGrown(pos, v, here, there);
    forall q: Position | In(out + [Grown(m, v)], q) ensures Hit(pos', q) {
      InGrown(out, m, v, q);
      hide In;
      if In(out + [m], q) {
        assert Hit(pos, q);
        var p: Position :| p in pos && pos[p] == q;
        assert p in pos' && pos'[p] == q;
      } else {
        assert here in pos' && pos'[here] == q;
      }
    }
  }

  /** An empty message at the end has no block to place or hit. */
  lemma EmptyEnd(want: seq<seq<Option<ContentBlock>>>, out: seq<Message>, m: Message, pos: map<Position, Position>)
    requires m.content == []
    ensures Placed(want + [[]], out + [m], pos) <==> Placed(want, out, pos)
  {
    assert forall p: Position :: Stays(want + [[]], p) <==> Stays(want, p);
    assert forall q: Position :: In(out + [m], q) <==> In(out, q);
    assert forall p: Position, q: Position :: Lands(want + [[]], out + [m], p, q) <==> Lands(want, out, p, q);
  }

  lemma Dropped(want: seq<seq<Option<ContentBlock>>>, out: seq<Message>, m: Message, pos: map<Position, Position>)
    requires m.content == [] && Placed(want, out + [m], pos)
    ensures Placed(want, out, pos)
  {
    assert forall q: Position :: In(out + [m], q) <==> In(out, q);
    assert forall p: Position, q: Position :: Lands(want, out + [m], p, q) <==> Lands(want, out, p, q);
  }

  /** `adapt_request` */
  method AdaptRequest(world: World, r: Request, source: Family, target: Family, policy: Policy) returns (result: Result<Projection>)
    ensures result.Ok? <==> Adapted(world, r, source, target, policy).Ok?
    ensures result.Ok? ==>
              && result.value.request == Adapted(world, r, source, target, policy).value
              && Placed(Wanted(world, r, source, target, policy).value, result.value.request.messages, result.value.positions)
  {
    if NativeFamily(source) == NativeFamily(target) {
      var positions := Identity(world, r, source, target, policy);
      return Ok(Projection(r, positions));
    }
    if r.continuation.Some? {
      return Invalid;
    }
    if r.cache.Some? && policy == Reject {
      return Invalid;
    }
    result := Project(world, r, source, target, policy);
  }

  method Identity(world: World, r: Request, ghost source: Family, ghost target: Family, ghost policy: Policy) returns (pos: map<Position, Position>)
    requires NativeFamily(source) == NativeFamily(target)
    ensures Placed(Wanted(world, r, source, target, policy).value, r.messages, pos)
  {
    pos := map[];
    var mi := 0;
    ghost var want := Wanted(world, r, source, target, policy).value;
    while mi < |r.messages|
      invariant mi <= |r.messages|
      invariant forall p: Position :: p in pos <==> In(r.messages, p) && p.message < mi
      invariant forall p: Position :: p in pos ==> pos[p] == p
    {
      var bi := 0;
      while bi < |r.messages[mi].content|
        invariant bi <= |r.messages[mi].content|
        invariant forall p: Position :: p in pos <==> In(r.messages, p) && (p.message < mi || (p.message == mi && p.block < bi))
        invariant forall p: Position :: p in pos ==> pos[p] == p
      {
        pos := pos[Pos(mi, bi) := Pos(mi, bi)];
        bi := bi + 1;
      }
      mi := mi + 1;
    }
    forall q: Position | In(r.messages, q) ensures Hit(pos, q) { assert q in pos && pos[q] == q; }
    assert forall p: Position :: Stays(want, p) <==> In(r.messages, p);
  }

  lemma NothingKept(world: World, c: Context, source: Family, policy: Policy)
    ensures Kept([]) == [] && Row(world, c, [], source, policy) == Ok([])
  {
  }

  /** One more block of a message. */
  lemma RowNext(world: World, c: Context, blocks: seq<ContentBlock>, n: nat, source: Family, policy: Policy, row: seq<Option<ContentBlock>>)
    requires n < |blocks| && |row| == n && Row(world, c, blocks[..n], source, policy) == Ok(row)
    ensures var v := Normalize(world, c, blocks[n], Some(source), policy);
            && (v.Invalid? ==> Row(world, c, blocks[..n + 1], source, policy).Invalid?)
            && (v.Ok? ==>
                  && Row(world, c, blocks[..n + 1], source, policy) == Ok(row + [v.value])
                  && Kept(row + [v.value]) == Kept(row) + if v.value.Some? then [v.value.value] else [])
  {
    hide Normalize;
    var v := Normalize(world, c, blocks[n], Some(source), policy);
    assert blocks[..n + 1][..n] == blocks[..n];
    if v.Ok? { assert (row + [v.value])[..n] == row; }
  }

  lemma RowsNext(world: World, messages: seq<Message>, n: nat, source: Family, target: Family, policy: Policy, rows: seq<seq<Option<ContentBlock>>>)
    requires n < |messages| && |rows| == n && Rows(world, messages[..n], source, target, policy) == Ok(rows)
    ensures var row := Row(world, ForMessage(messages[n].content, target), messages[n].content, source, policy);
            && (row.Invalid? ==> Rows(world, messages[..n + 1], source, target, policy).Invalid?)
            && (row.Ok? ==>
                  && Rows(world, messages[..n + 1], source, target, policy) == Ok(rows + [row.value])
                  && var m := messages[n].(content := Kept(row.value));
                  Survivors(messages[..n + 1], rows + [row.value])
                    == Survivors(messages[..n], rows) + if m.content != [] || m.nativeOptions != [] then [m] else [])
  {
    var row := Row(world, ForMessage(messages[n].content, target), messages[n].content, source, policy);
    hide Row, ForMessage, Kept;
    assert messages[..n + 1][..n] == messages[..n];
    if row.Ok? { assert (rows + [row.value])[..n] == rows; }
  }

  method Project(world: World, r: Request, source: Family, target: Family, policy: Policy) returns (result: Result<Projection>)
    ensures result.Ok? <==> Rows(world, r.messages, source, target, policy).Ok?
    ensures result.Ok? ==>
              var rows := Rows(world, r.messages, source, target, policy).value;
              && |rows| == |r.messages|
              && result.value.request == r.(messages := Survivors(r.messages, rows), cache := None)
              && Placed(rows, result.value.request.messages, result.value.positions)
  {
    hide Normalize, ForMessage, Placed, Row, Kept, Rows, Survivors;
    StartRows(world, source, target, policy);
    var out: seq<Message>, pos: map<Position, Position>, mi := [], map[], 0;
    ghost var rows: seq<seq<Option<ContentBlock>>> := [];
    NothingPlaced();
    while mi < |r.messages|
      invariant mi <= |r.messages| && |rows| == mi
      invariant Rows(world, r.messages[..mi], source, target, policy) == Ok(rows)
      invariant out == Survivors(r.messages[..mi], rows)
      invariant Placed(rows, out, pos)
    {
      var message := r.messages[mi];
      RowsNext(world, r.messages, mi, source, target, policy, rows);
      var placed := ProjectMessage(world, message, source, target, policy, mi, rows, out, pos);
      if placed.Invalid? {
        RowsInvalid(world, r.messages, source, target, policy, mi + 1);
        return Invalid;
      }
      ghost var row := Row(world, ForMessage(message.content, target), message.content, source, policy).value;
      out, pos := if placed.value.0.content != [] || placed.value.0.nativeOptions != [] then out + [placed.value.0] else out, placed.value.1;
      if placed.value.0.content == [] && placed.value.0.nativeOptions == [] { Dropped(rows + [row], out, placed.value.0, pos); }
      rows := rows + [row];
      mi := mi + 1;
    }
    assert r.messages[..mi] == r.messages;
    result := Ok(Projection(r.(messages := out, cache := None), pos));
  }

  /** The blocks of one message, placed after everything placed so far. */
  method ProjectMessage(world: World, message: Message, source: Family, target: Family, policy: Policy, mi: nat,
                        ghost rows: seq<seq<Option<ContentBlock>>>, out: seq<Message>, before: map<Position, Position>)
    returns (r: Result<(Message, map<Position, Position>)>)
    requires |rows| == mi && Placed(rows, out, before)
    ensures var row := Row(world, ForMessage(message.content, target), message.content, source, policy);
            && (r.Ok? <==> row.Ok?)
            && (r.Ok? ==> r.value.0 == message.(content := Kept(row.value)) && Placed(rows + [row.value], out + [r.value.0], r.value.1))
  {
    hide Normalize, ForMessage, Placed, Row, Kept;
    NothingKept(world, ForMessage(message.content, target), source, policy);
    var c := ForMessage(message.content, target);
    assert message.content[..0] == [];
    var projected, pos, bi := message.(content := []), before, 0;
    ghost var row: seq<Option<ContentBlock>> := [];
    EmptyEnd(rows, out, projected, pos);
    while bi < |message.content|
      invariant bi <= |message.content| && |row| == bi
      invariant Row(world, c, message.content[..bi], source, policy) == Ok(row)
      invariant projected == message.(content := Kept(row))
      invariant Placed(rows + [row], out + [projected], pos)
    {
      RowNext(world, c, message.content, bi, source, policy, row);
      var n := Normalize(world, c, message.content[bi], Some(source), policy);
      if n.Invalid? {
        RowInvalid(world, c, message.content, source, policy, bi + 1);
        return Invalid;
      }
      PlaceBlock(rows, row, out, projected, pos, n.value);
      if n.value.Some? {
        pos := pos[Pos(mi, bi) := Pos(|out|, |projected.content|)];
        projected := projected.(content := projected.content + [n.value.value]);
      }
      row := row + [n.value];
      bi := bi + 1;
    }
    assert message.content[..bi] == message.content;
    r := Ok((projected, pos));
  }

  lemma StartRows(world: World, source: Family, target: Family, policy: Policy)
    ensures Rows(world, [], source, target, policy) == Ok([]) && Survivors([], []) == []
  {
  }

  lemma NothingPlaced()
    ensures Placed([], [], map[])
  {
  }

  /** An invalid prefix makes the whole invalid. */
  lemma {:induction false} RowInvalid(world: World, c: Context, blocks: seq<ContentBlock>, source: Family, policy: Policy, n: nat)
    requires n <= |blocks| && Row(world, c, blocks[..n], source, policy).Invalid?
    ensures Row(world, c, blocks, source, policy).Invalid?
    decreases |blocks|
  {
    hide Normalize;
    if n < |blocks| {
      var k := |blocks| - 1;
      assert blocks[..k][..n] == blocks[..n];
      RowInvalid(world, c, blocks[..k], source, policy, n);
    } else {
      assert blocks[..n] == blocks;
    }
  }

  lemma {:induction false} RowsInvalid(world: World, messages: seq<Message>, source: Family, target: Family, policy: Policy, n: nat)
    requires n <= |messages| && Rows(world, messages[..n], source, target, policy).Invalid?
    ensures Rows(world, messages, source, target, policy).Invalid?
    decreases |messages|
  {
    hide Row;
    if n < |messages| {
      var k := |messages| - 1;
      assert messages[..k][..n] == messages[..n];
      RowsInvalid(world, messages[..k], source, target, policy, n);
    } else {
      assert messages[..n] == messages;
    }
  }

  // ----- fixed points of a request -----

  lemma {:induction false} Origin(row: seq<Option<ContentBlock>>, k: nat) returns (j: nat)
    requires k < |Kept(row)|
    ensures j < |row| && row[j] == Some(Kept(row)[k])
    decreases |row|
  {
    var n := |row| - 1;
    if k < |Kept(row[..n])| { j := Origin(row[..n], k); } else { j := n; }
  }

  lemma {:induction false} Survives(row: seq<Option<ContentBlock>>, j: nat) returns (k: nat)
    requires j < |row| && row[j].Some?
    ensures k < |Kept(row)| && Kept(row)[k] == row[j].value
    decreases |row|
  {
    var n := |row| - 1;
    if j < n { k := Survives(row[..n], j); } else { k := |Kept(row[..n])|; }
  }

  lemma {:induction false} RowAt(world: World, c: Context, blocks: seq<ContentBlock>, source: Family, policy: Policy, j: nat)
    requires j < |blocks| && Row(world, c, blocks, source, policy).Ok?
    ensures |Row(world, c, blocks, source, policy).value| == |blocks|
    ensures Normalize(world, c, blocks[j], Some(source), policy) == Ok(Row(world, c, blocks, source, policy).value[j])
    decreases |blocks|
  {
    hide Normalize;
    RowLength(world, c, blocks, source, policy);
    if j < |blocks| - 1 { RowAt(world, c, blocks[..|blocks| - 1], source, policy, j); }
  }

  lemma {:induction false} RowsAt(world: World, messages: seq<Message>, source: Family, target: Family, policy: Policy, a: nat)
    requires a < |messages| && Rows(world, messages, source, target, policy).Ok?
    ensures |Rows(world, messages, source, target, policy).value| == |messages|
    ensures Row(world, ForMessage(messages[a].content, target), messages[a].content, source, policy)
              == Ok(Rows(world, messages, source, target, policy).value[a])
    decreases |messages|
  {
    hide Row, ForMessage;
    RowsLength(world, messages, source, target, policy);
    if a < |messages| - 1 { RowsAt(world, messages[..|messages| - 1], source, target, policy, a); }
  }

  /** Lossy normalisation never fails. */
  lemma {:induction false} RowDrops(world: World, c: Context, blocks: seq<ContentBlock>, source: Family)
    ensures Row(world, c, blocks, source, DropIncompatible).Ok?
    decreases |blocks|
  {
    hide Decide;
    if blocks != [] { RowDrops(world, c, blocks[..|blocks| - 1], source); }
  }

  lemma {:induction false} RowsDrop(world: World, messages: seq<Message>, source: Family, target: Family)
    ensures Rows(world, messages, source, target, DropIncompatible).Ok?
    decreases |messages|
  {
    hide Row, ForMessage;
    if messages != [] {
      var m := messages[|messages| - 1];
      RowDrops(world, ForMessage(m.content, target), m.content, source);
      RowsDrop(world, messages[..|messages| - 1], source, target);
    }
  }

  lemma {:induction false} SurvivorOrigin(messages: seq<Message>, rows: seq<seq<Option<ContentBlock>>>, k: nat) returns (a: nat)
    requires |rows| == |messages| && k < |Survivors(messages, rows)|
    ensures a < |messages| && Survivors(messages, rows)[k] == messages[a].(content := Kept(rows[a]))
    ensures Kept(rows[a]) != [] || messages[a].nativeOptions != []
    decreases |messages|
  {
    hide Kept;
    var n := |messages| - 1;
    if k < |Survivors(messages[..n], rows[..n])| { a := SurvivorOrigin(messages[..n], rows[..n], k); } else { a := n; }
  }

  lemma {:induction false} SurvivorKept(messages: seq<Message>, rows: seq<seq<Option<ContentBlock>>>, a: nat) returns (k: nat)
    requires |rows| == |messages| && a < |messages| && Kept(rows[a]) != []
    ensures k < |Survivors(messages, rows)| && Survivors(messages, rows)[k] == messages[a].(content := Kept(rows[a]))
    decreases |messages|
  {
    hide Kept;
    var n := |messages| - 1;
    if a < n { k := SurvivorKept(messages[..n], rows[..n], a); } else { k := |Survivors(messages[..n], rows[..n])|; }
  }

  predicate Fixed(world: World, c: Context, b: ContentBlock, source: Family) { Decide(world, c, b, Some(source)) == Compatible(b) }

  /** Every block is compatible as it stands, and nothing makes the message vanish. */
  predicate Quiet(world: World, m: Message, source: Family, target: Family) {
    && (m.content != [] || m.nativeOptions != [])
    && forall j :: 0 <= j < |m.content| ==> Fixed(world, ForMessage(m.content, target), m.content[j], source)
  }

  lemma {:induction false} QuietRow(world: World, c: Context, blocks: seq<ContentBlock>, source: Family, policy: Policy)
    requires forall j :: 0 <= j < |blocks| ==> Fixed(world, c, blocks[j], source)
    ensures Row(world, c, blocks, source, policy) == Ok(Same(blocks)) && Kept(Same(blocks)) == blocks
    decreases |blocks|
  {
    hide Row, Kept, Fixed, Normalize;
    NothingKept(world, c, source, policy);
    if blocks == [] {
      assert Same(blocks) == [];
    } else {
      var n := |blocks| - 1;
      FixedStays(world, c, blocks[n], source, policy);
      QuietRow(world, c, blocks[..n], source, policy);
      RowNext(world, c, blocks, n, source, policy, Same(blocks[..n]));
      assert Same(blocks) == Same(blocks[..n]) + [Some(blocks[n])];
      assert blocks == blocks[..n] + [blocks[n]] && blocks[..n + 1] == blocks;
    }
  }

  lemma FixedStays(world: World, c: Context, b: ContentBlock, source: Family, policy: Policy)
    requires Fixed(world, c, b, source)
    ensures Normalize(world, c, b, Some(source), policy) == Ok(Some(b))
  {
    hide Decide;
  }

  function AllSame(messages: seq<Message>): (rows: seq<seq<Option<ContentBlock>>>)
    ensures |rows| == |messages|
  {
    seq(|messages|, a requires 0 <= a < |messages| => Same(messages[a].content))
  }

  lemma {:induction false} QuietRows(world: World, messages: seq<Message>, source: Family, target: Family, policy: Policy)
    requires forall a :: 0 <= a < |messages| ==> Quiet(world, messages[a], source, target)
    ensures Rows(world, messages, source, target, policy) == Ok(AllSame(messages)) && Survivors(messages, AllSame(messages)) == messages
    decreases |messages|
  {
    hide Rows, Survivors, Row, ForMessage, Kept, Quiet;
    if messages == [] {
      StartRows(world, source, target, policy);
      assert AllSame(messages) == [];
    } else {
      var n := |messages| - 1;
      QuietMessage(world, messages[n], source, target, policy);
      QuietRows(world, messages[..n], source, target, policy);
      RowsNext(world, messages, n, source, target, policy, AllSame(messages[..n]));
      assert AllSame(messages) == AllSame(messages[..n]) + [Same(messages[n].content)];
      assert messages == messages[..n] + [messages[n]] && messages[..n + 1] == messages;
    }
  }

  lemma QuietMessage(world: World, m: Message, source: Family, target: Family, policy: Policy)
    requires Quiet(world, m, source, target)
    ensures Row(world, ForMessage(m.content, target), m.content, source, policy) == Ok(Same(m.content))
    ensures Kept(Same(m.content)) == m.content && (m.content != [] || m.nativeOptions != [])
  {
    hide Fixed, ForMessage;
    QuietRow(world, ForMessage(m.content, target), m.content, source, policy);
  }

  /** A request whose messages are all quiet is adapted to itself under either policy. */
  lemma QuietFixed(world: World, r: Request, source: Family, target: Family, policy: Policy)
    requires r.continuation.None? && r.cache.None?
    requires forall a :: 0 <= a < |r.messages| ==> Quiet(world, r.messages[a], source, target)
    ensures Adapted(world, r, source, target, policy) == Ok(r)
  {
    if NativeFamily(source) != NativeFamily(target) { QuietRows(world, r.messages, source, target, policy); }
  }

  /** Native content kept by a pass belongs to the target. */
  lemma KeptNative(world: World, c: Context, b: ContentBlock, source: Option<Family>)
    requires NativeTarget(c)
    ensures var r := Normalize(world, c, b, source, DropIncompatible);
            r.Ok? && (r.value.Some? && r.value.value.ProviderContent? ==> NativeFamily(r.value.value.protocol) == c.target)
  {
    hide P.StringAt, P.UnitsAt, P.Get;
  }

  lemma NativeTwice(f: Family)
    ensures NativeFamily(NativeFamily(f)) == NativeFamily(f)
  {
  }

  /** After a pass over a message no reasoning in it is foreign. */
  lemma ContextSettles(world: World, blocks: seq<ContentBlock>, source: Family, target: Family)
    ensures var c := ForMessage(blocks, target);
            var row := Row(world, c, blocks, source, DropIncompatible);
            row.Ok? && NativeTarget(c) && Settled(c, ForMessage(Kept(row.value), target))
  {
    var c := ForMessage(blocks, target);
    RowDrops(world, c, blocks, source);
    NativeTwice(target);
    var row := Row(world, c, blocks, source, DropIncompatible).value;
    forall k | 0 <= k < |Kept(row)| ensures !ForeignReasoning(Kept(row)[k], c.target) {
      var j := Origin(row, k);
      RowLength(world, c, blocks, source, DropIncompatible);
      RowAt(world, c, blocks, source, DropIncompatible, j);
      hide Normalize;
      KeptNative(world, c, blocks[j], Some(source));
    }
  }

  /** One pass over a message leaves it quiet exactly if no block carried both layers. */
  lemma MessageSettles(world: World, blocks: seq<ContentBlock>, source: Family, target: Family, k: nat) returns (j: nat)
    requires Row(world, ForMessage(blocks, target), blocks, source, DropIncompatible).Ok?
    requires k < |Kept(Row(world, ForMessage(blocks, target), blocks, source, DropIncompatible).value)|
    ensures var c := ForMessage(blocks, target);
            var kept := Kept(Row(world, c, blocks, source, DropIncompatible).value);
            && j < |blocks| && Normalize(world, c, blocks[j], Some(source), DropIncompatible) == Ok(Some(kept[k]))
            && (Fixed(world, ForMessage(kept, target), kept[k], source) <==> !TwoLayers(c, blocks[j], Some(source)))
  {
    var c := ForMessage(blocks, target);
    var row := Row(world, c, blocks, source, DropIncompatible).value;
    ContextSettles(world, blocks, source, target);
    RowLength(world, c, blocks, source, DropIncompatible);
    hide ForMessage, Row, Normalize, Decide, TwoLayers, Settled, NativeTarget, Kept;
    j := Origin(row, k);
    RowAt(world, c, blocks, source, DropIncompatible, j);
    OnePass(world, c, ForMessage(Kept(row), target), blocks[j], Some(source));
  }

  /** Some block of the request keeps a layer after one pass. */
  predicate Layered(r: Request) {
    exists a, j :: 0 <= a < |r.messages| && 0 <= j < |r.messages[a].content| && BothLayers(r.messages[a].content[j])
  }

  predicate BothLayers(b: ContentBlock) { b.TextJsUtf16? && b.citations.Some? && b.thoughtSignature.Some? }

  lemma TwoLayersAbroad(c: Context, b: ContentBlock, source: Family)
    requires Foreign(Some(source), c.target)
    ensures TwoLayers(c, b, Some(source)) <==> BothLayers(b)
  {
  }

  /** Each message that one pass leaves is quiet. */
  lemma SurvivorQuiet(world: World, r: Request, source: Family, target: Family, rows: seq<seq<Option<ContentBlock>>>, a: nat)
    requires NativeFamily(source) != NativeFamily(target) && !Layered(r)
    requires Rows(world, r.messages, source, target, DropIncompatible) == Ok(rows)
    requires |rows| == |r.messages| && a < |Survivors(r.messages, rows)|
    ensures Quiet(world, Survivors(r.messages, rows)[a], source, target)
  {
    hide Rows, Survivors, Row, Kept, Fixed, TwoLayers, BothLayers;
    var m := Survivors(r.messages, rows)[a];
    var o := SurvivorOrigin(r.messages, rows, a);
    RowsAt(world, r.messages, source, target, DropIncompatible, o);
    var blocks := r.messages[o].content;
    forall k | 0 <= k < |m.content| ensures Fixed(world, ForMessage(m.content, target), m.content[k], source) {
      var j := MessageSettles(world, blocks, source, target, k);
      TwoLayersAbroad(ForMessage(blocks, target), blocks[j], source);
    }
  }

  /** One lossy pass between two families reaches a request that Reject accepts unchanged, unless a
      block carried both layers. */
  lemma SettlesOnce(world: World, r: Request, source: Family, target: Family)
    requires NativeFamily(source) != NativeFamily(target) && r.continuation.None? && !Layered(r)
    ensures var once := Adapted(world, r, source, target, DropIncompatible);
            once.Ok? && Adapted(world, once.value, source, target, Reject) == once
  {
    hide Rows, Survivors, Quiet, Layered;
    RowsDrop(world, r.messages, source, target);
    RowsLength(world, r.messages, source, target, DropIncompatible);
    var rows := Rows(world, r.messages, source, target, DropIncompatible).value;
    forall a | 0 <= a < |Survivors(r.messages, rows)| ensures Quiet(world, Survivors(r.messages, rows)[a], source, target) {
      SurvivorQuiet(world, r, source, target, rows, a);
    }
    QuietFixed(world, Adapted(world, r, source, target, DropIncompatible).value, source, target, Reject);
  }

  /** A block that carried both layers makes Reject refuse the result of one pass. */
  lemma LayeredRefused(world: World, r: Request, source: Family, target: Family)
    requires NativeFamily(source) != NativeFamily(target) && r.continuation.None? && Layered(r)
    ensures var once := Adapted(world, r, source, target, DropIncompatible);
            once.Ok? && Adapted(world, once.value, source, target, Reject).Invalid?
  {
    hide Rows, Survivors, Row, Kept, Normalize;
    var a, j :| 0 <= a < |r.messages| && 0 <= j < |r.messages[a].content| && BothLayers(r.messages[a].content[j]);
    RowsDrop(world, r.messages, source, target);
    RowsLength(world, r.messages, source, target, DropIncompatible);
    RowsAt(world, r.messages, source, target, DropIncompatible, a);
    var rows := Rows(world, r.messages, source, target, DropIncompatible).value;
    var blocks := r.messages[a].content;
    var c := ForMessage(blocks, target);
    RowAt(world, c, blocks, source, DropIncompatible, j);
    FirstLayer(world, c, blocks[j], source);
    var k := Survives(rows[a], j);
    var m := SurvivorKept(r.messages, rows, a);
    var out := Survivors(r.messages, rows);
    SecondLayer(world, ForMessage(out[m].content, target), out[m].content[k], source);
    if Rows(world, out, source, target, Reject).Ok? {
      RowsAt(world, out, source, target, Reject, m);
      RowAt(world, ForMessage(out[m].content, target), out[m].content, source, Reject, k);
      assert false;
    }
  }

  lemma FirstLayer(world: World, c: Context, b: ContentBlock, source: Family)
    requires Foreign(Some(source), c.target) && BothLayers(b)
    ensures Normalize(world, c, b, Some(source), DropIncompatible) == Ok(Some(b.(citations := None)))
  {
  }

  lemma SecondLayer(world: World, c: Context, b: ContentBlock, source: Family)
    requires Foreign(Some(source), c.target) && b.TextJsUtf16? && b.thoughtSignature.Some?
    ensures Normalize(world, c, b, Some(source), Reject).Invalid?
  {
  }

  lemma AdaptTwiceLayers(world: World, r: Request, source: Family, target: Family)
    requires NativeFamily(source) != NativeFamily(target) && r.continuation.None?
    ensures var once := Adapted(world, r, source, target, DropIncompatible);
            once.Ok? && once.value.continuation.None? && !Layered(once.value)
  {
    hide Rows, Survivors, Row, Kept, Normalize;
    RowsDrop(world, r.messages, source, target);
    RowsLength(world, r.messages, source, target, DropIncompatible);
    var rows := Rows(world, r.messages, source, target, DropIncompatible).value;
    var out := Survivors(r.messages, rows);
    forall a, k | 0 <= a < |out| && 0 <= k < |out[a].content| ensures !BothLayers(out[a].content[k]) {
      var o := SurvivorOrigin(r.messages, rows, a);
      RowsAt(world, r.messages, source, target, DropIncompatible, o);
      var blocks := r.messages[o].content;
      var j := Origin(rows[o], k);
      RowLength(world, ForMessage(blocks, target), blocks, source, DropIncompatible);
      RowAt(world, ForMessage(blocks, target), blocks, source, DropIncompatible, j);
      OneLayerLeft(world, ForMessage(blocks, target), blocks[j], Some(source));
    }
  }

  lemma OneLayerLeft(world: World, c: Context, b: ContentBlock, source: Option<Family>)
    requires Foreign(source, c.target)
    ensures var r := Normalize(world, c, b, source, DropIncompatible);
            r.Ok? && (r.value.Some? ==> !BothLayers(r.value.value))
  {
    hide P.StringAt, P.UnitsAt, P.Get;
  }

  /** The lossy policy settles: one pass suffices exactly when no block carries both layers, and two always do. */
  lemma AdaptSettles(world: World, r: Request, source: Family, target: Family)
    requires NativeFamily(source) != NativeFamily(target) && r.continuation.None?
    ensures var once := Adapted(world, r, source, target, DropIncompatible);
            && once.Ok?
            && (Adapted(world, once.value, source, target, Reject) == once <==> !Layered(r))
            && var twice := Adapted(world, once.value, source, target, DropIncompatible);
            && twice.Ok? && Adapted(world, twice.value, source, target, Reject) == twice
  {
    hide Rows, Survivors, Layered;
    var once := Adapted(world, r, source, target, DropIncompatible);
    AdaptTwiceLayers(world, r, source, target);
    if Layered(r) { LayeredRefused(world, r, source, target); } else { SettlesOnce(world, r, source, target); }
    SettlesOnce(world, once.value, source, target);
  }
}
