/** The explicit-stack JSON parser. */
module ResponseJson {
  // The iterative provider-response parser: one pass over the text, an explicit frame stack, a flat
  // node table with source spans, and a pointer index that follows last-duplicate-wins.

  import opened Sequences
  import opened Utf16
  import opened JsonValue
  import opened JsonGrammar
  import opened JsonPointer
  import opened DecimalText
  import opened FlatTable
  import opened PointerIndex
  import D = JsonDescent
  import S = SpanNesting

  datatype FlatDocument = FlatDocument(
    root: nat,
    nodes: seq<FlatNode>,
    nodePointers: seq<string>,
    nodeSourceSpans: seq<Span>,
    nodeExactStrings: map<nat, seq<Unit>>,
    pointerNodes: map<string, nat>,
    exactKeys: map<string, seq<Unit>>)

  /** A decoded string token: its display text, and its units when they are ill-formed. */
  datatype Decoded = Decoded(text: string, exact: Option<seq<Unit>>)

  function DecodedUnits(units: seq<Unit>): Decoded {
    Decoded(Display(units), if WellFormed(units) then None else Some(units))
  }

  lemma {:induction false} EscapePlain(segment: string)
    requires '~' !in segment && '/' !in segment
    ensures Escape(segment) == segment
  {
    if segment != [] {
      EscapePlain(segment[1..]);
      assert segment[0] in segment;
      assert segment == [segment[0]] + segment[1..];
    }
  }

  /** `push_pointer_segment` */
  method PushPointerSegment(pointer: string, segment: string) returns (r: string)
    ensures r == pointer + "/" + Escape(segment)
  {
    r := pointer + "/";
    if '~' !in segment && '/' !in segment {
      EscapePlain(segment);
      r := r + segment;
      return;
    }
    var i := 0;
    assert segment[0..] == segment;
    while i < |segment|
      invariant i <= |segment|
      invariant r + Escape(segment[i..]) == pointer + "/" + Escape(segment)
    {
      var rest := segment[i..];
      assert rest[0] == segment[i] && rest[1..] == segment[i + 1..];
      assert r + (EscapeChar(segment[i]) + Escape(segment[i + 1..])) == r + EscapeChar(segment[i]) + Escape(segment[i + 1..]);
      r := r + EscapeChar(segment[i]);
      i := i + 1;
    }
  }

  // ----- the parser's state between two steps -----

  /** The pointer side of the state. */
  datatype Names = Names(paths: seq<Path>, pointers: seq<string>, index: map<string, nat>,
                         exactKeys: map<string, seq<Unit>>, currentPath: string, pathOffsets: seq<nat>)

  ghost predicate State(src: string, t: Table, offset: nat, stack: seq<Frame>, conts: seq<Cont>, nm: Names) {
    && Inv(src, t, offset, stack, conts)
    && S.Nested(t, offset, stack)
    && Places(t.nodes, nm.paths, nm.pointers, nm.index, nm.exactKeys, stack, nm.currentPath, nm.pathOffsets)
    && stack[0].node == 0 && t.starts[0] == D.SkipBlanks(src, 0)
    && (forall k :: 0 <= k < |stack| ==> GoodKey(stack[k]))
  }

  /** The outline of a state: the shapes of its stacks and tables. */
  lemma StateOutline(src: string, t: Table, offset: nat, stack: seq<Frame>, conts: seq<Cont>, nm: Names)
    requires State(src, t, offset, stack, conts, nm)
    ensures Aligned(t) && Increasing(t, stack) && offset <= |src| && |conts| == |stack| - 1 == |nm.pathOffsets| && |stack| > 0
    ensures Labelled(t.nodes, nm.paths) && |nm.paths| == |t.nodes| && nm.currentPath == Pointer(nm.paths[stack[|stack| - 1].node])
    ensures Reading(src, t, offset, stack[|stack| - 1]) && t.starts[stack[|stack| - 1].node] <= |src|
    ensures forall k :: 0 <= k < |stack| ==> FrameAt(t.nodes, nm.paths, nm.exactKeys, stack[k], k) && GoodKey(stack[k])
  {
    hide Finished, Waiting, Linked, Agrees, S.Nested, D.ParseValue, Pointer, Walk;
  }

  ghost predicate GoodKey(f: Frame) {
    f.key.Some? ==> f.key.value.display == Display(f.key.value.units)
  }

  /** The pointer side after the innermost container, node `n` of frame `f`, took the child `id`. */
  ghost function Named(nm: Names, n: FlatNode, f: Frame, id: nat): Names
    requires f.node < |nm.paths| && (n.Array? || (n.Object? && f.key.Some?))
  {
    var at := nm.paths[f.node] + [SegmentOf(n, f)];
    nm.(paths := nm.paths + [at], pointers := nm.pointers + [Pointer(at)],
        index := Indexed(nm.index, Duplicate(n, f), at, id),
        exactKeys := Keyed(nm.exactKeys, Duplicate(n, f), at, LoneOf(n, f)))
  }

  lemma NamedItem(nm: Names, n: FlatNode, f: Frame, id: nat)
    requires f.node < |nm.paths| && n.Array?
    ensures var at := nm.paths[f.node] + [ToText(|n.items|)];
            Named(nm, n, f, id) ==
              nm.(paths := nm.paths + [at], pointers := nm.pointers + [Pointer(at)], index := nm.index[Pointer(at) := id])
  {
  }

  lemma NamedField(nm: Names, n: FlatNode, f: Frame, id: nat)
    requires f.node < |nm.paths| && n.Object? && f.key.Some?
    ensures var at := nm.paths[f.node] + [f.key.value.display];
            var duplicate := HasUnits(n.fields, f.key.value.units);
            var units := f.key.value.units;
            var index := if duplicate then Cleared<nat>(nm.index, Pointer(at)) else nm.index;
            var keys := if duplicate then Cleared(nm.exactKeys, Pointer(at)) else nm.exactKeys;
            Named(nm, n, f, id) ==
              nm.(paths := nm.paths + [at], pointers := nm.pointers + [Pointer(at)], index := index[Pointer(at) := id],
                  exactKeys := if WellFormed(units) then keys else keys[Pointer(at) := units])
  {
  }

  lemma DueKind(src: string, t: Table, offset: nat, stack: seq<Frame>, conts: seq<Cont>, nm: Names)
    requires State(src, t, offset, stack, conts, nm) && Due(stack[|stack| - 1])
    ensures var f := stack[|stack| - 1];
            && f.node < |nm.paths| == |t.nodes| && f.node < |t.starts| && t.starts[f.node] <= |src|
            && (t.nodes[f.node].Array? <==> f.state == FrameState.ArrayValue)
            && (t.nodes[f.node].Array? || (t.nodes[f.node].Object? && f.key.Some?)) && GoodKey(f)
            && (D.ParseValue(src, D.SkipBlanks(src, offset)).Fail? ==> D.ParseValue(src, t.starts[f.node]).Fail?)
  {
    DueReads(src, t, offset, stack[|stack| - 1]);
  }

  lemma TookLeaf(src: string, t: Table, offset: nat, stack: seq<Frame>, conts: seq<Cont>, nm: Names,
                 n: FlatNode, span: Span, exact: Option<seq<Unit>>, tree: Json)
    requires State(src, t, offset, stack, conts, nm) && Due(stack[|stack| - 1])
    requires n.Primitive? || n.String?
    requires span.start == D.SkipBlanks(src, offset) < span.end && D.ParseValue(src, span.start) == D.Ok(tree, span.end)
    requires var t' := Append(t, n, span, exact, tree); tree == Shape(n, |t.nodes|, t'.exact, t'.trees)
    ensures var f := stack[|stack| - 1];
            var m := t.nodes[f.node];
            && f.node < |nm.paths| && (m.Array? || (m.Object? && f.key.Some?))
            && State(src, Update(Append(t, n, span, exact, tree), f.node, WithChild(m, f, |t.nodes|)), span.end,
                     SetTop(stack, Taken(f)), conts, Named(nm, m, f, |t.nodes|))
  {
    hide Inv, Places, S.Nested, Reading, Labelled, FrameAt, D.ParseValue, D.SkipBlanks, WithChild, Indexed, Keyed, SegmentOf, Duplicate, LoneOf, Pointer, Shape;
    StateOutline(src, t, offset, stack, conts, nm);
    var f := stack[|stack| - 1];
    var m := t.nodes[f.node];
    DueKind(src, t, offset, stack, conts, nm);
    TakeLeaf(src, t, offset, stack, conts, n, span, exact, tree);
    BlanksForward(src, offset);
    var stack' := SetTop(stack, Taken(f));
    S.NestedTake(t, offset, stack, n, span, exact, tree, Taken(f), []);
    assert stack' + [] == stack';
    PlaceChild(t.nodes, nm.paths, nm.pointers, nm.index, nm.exactKeys, stack, nm.currentPath, nm.pathOffsets, n, Taken(f));
  }

  lemma TookOpen(src: string, t: Table, offset: nat, stack: seq<Frame>, conts: seq<Cont>, nm: Names,
                 n: FlatNode, span: Span, tree: Json, g: Frame)
    requires State(src, t, offset, stack, conts, nm) && Due(stack[|stack| - 1])
    requires span.start == D.SkipBlanks(src, offset) < |src| && span.end == span.start + 1
    requires g.node == |t.nodes| && g.key.None? && g.component.Some?
    requires (n == FlatNode.Array([]) && src[span.start] == '[' && g.state == FirstArray) ||
             (n == FlatNode.Object([]) && src[span.start] == '{' && g.state == FirstObject)
    ensures var f := stack[|stack| - 1];
            var m := t.nodes[f.node];
            && f.node < |nm.paths| && (m.Array? || (m.Object? && f.key.Some?)) && Children(m, -1, |t.trees|)
            && var nm' := Named(nm, m, f, |t.nodes|);
            && State(src, Update(Append(t, n, span, None, tree), f.node, WithChild(m, f, |t.nodes|)), span.end,
                     SetTop(stack, Taken(f)) + [g], conts + [ContOf(m, t.trees, f)],
                     nm'.(currentPath := Pointer(nm'.paths[|t.nodes|]), pathOffsets := nm.pathOffsets + [|nm.currentPath|]))
  {
    hide Inv, Places, S.Nested, Reading, Labelled, FrameAt, D.ParseValue, D.SkipBlanks, ContOf, WithChild, Indexed, Keyed, SegmentOf, Duplicate, LoneOf, Pointer;
    StateOutline(src, t, offset, stack, conts, nm);
    var f := stack[|stack| - 1];
    var m := t.nodes[f.node];
    DueKind(src, t, offset, stack, conts, nm);
    TakeOpen(src, t, offset, stack, conts, n, span, tree, g);
    BlanksForward(src, offset);
    S.NestedTake(t, offset, stack, n, span, None, tree, Taken(f), [g]);
    PlaceChild(t.nodes, nm.paths, nm.pointers, nm.index, nm.exactKeys, stack, nm.currentPath, nm.pathOffsets, n, Taken(f));
    var nm' := Named(nm, m, f, |t.nodes|);
    var nodes' := (t.nodes + [n])[f.node := WithChild(m, f, |t.nodes|)];
    DepthOf(t.nodes, nm.paths, nm.exactKeys, stack);
    PlaceFrame(nodes', nm'.paths, nm'.pointers, nm'.index, nm'.exactKeys, SetTop(stack, Taken(f)), nm.currentPath, nm.pathOffsets, g);
  }

  lemma BlanksForward(src: string, offset: nat)
    requires offset <= |src|
    ensures offset <= D.SkipBlanks(src, offset) <= |src|
  {
    hide D.SkipBlanks;
  }

  lemma DepthOf(nodes: seq<FlatNode>, paths: seq<Path>, exactKeys: map<string, seq<Unit>>, stack: seq<Frame>)
    requires Labelled(nodes, paths) && |stack| > 0 && FrameAt(nodes, paths, exactKeys, stack[|stack| - 1], |stack| - 1)
    ensures var f := stack[|stack| - 1]; f.node < |paths| && |paths[f.node]| == |stack| - 1
  {
    hide Reached;
  }

  lemma StateTop(src: string, t: Table, offset: nat, stack: seq<Frame>, conts: seq<Cont>, nm: Names)
    requires State(src, t, offset, stack, conts, nm)
    ensures var f := stack[|stack| - 1];
            Aligned(t) && f.node < |t.nodes| == |nm.paths| && nm.currentPath == Pointer(nm.paths[f.node]) && |nm.pathOffsets| == |stack| - 1 && Children(t.nodes[f.node], -1, |t.trees|)
  {
    StateOutline(src, t, offset, stack, conts, nm);
    hide State, Reading, FrameAt, Labelled, Pointer, GoodKey;
    ChildrenWide(t.nodes[stack[|stack| - 1].node], stack[|stack| - 1].node, |t.nodes|);
  }

  /** The new node's path is the container's and one segment more. */
  lemma LastName(nm: Names, n: FlatNode, f: Frame, id: nat)
    requires f.node < |nm.paths| == id && (n.Array? || (n.Object? && f.key.Some?))
    ensures Named(nm, n, f, id).paths[id] == nm.paths[f.node] + [SegmentOf(n, f)]
  {
    hide Indexed, Keyed, Pointer;
  }

  lemma SamePath(nm: Names, n: FlatNode, f: Frame, id: nat)
    requires f.node < |nm.paths| && (n.Array? || (n.Object? && f.key.Some?))
    ensures Named(nm, n, f, id).currentPath == nm.currentPath && Named(nm, n, f, id).pathOffsets == nm.pathOffsets
  {
  }

  lemma PathBack(paths: seq<Path>, f: Frame, segment: string)
    requires f.node < |paths|
    ensures var p, q := Pointer(paths[f.node]), Pointer(paths[f.node] + [segment]); |p| <= |q| && q[..|p|] == p
  {
    PointerSnoc(paths[f.node], segment);
  }

  lemma AllDone(src: string, t: Table, stack: seq<Frame>, conts: seq<Cont>, nm: Names, offset: nat, end: nat)
    requires State(src, t, offset, stack, conts, nm) && |stack| == 1
    requires var t' := Close(t, 0, end, Shape(t.nodes[0], 0, t.exact, t.trees));
             Aligned(t') && S.Nested(t', end, []) && forall id :: 0 <= id < |t'.nodes| ==> Done(src, t', id)
    ensures Complete(src, Close(t, 0, end, Shape(t.nodes[0], 0, t.exact, t.trees)), end, nm)
  {
    hide Done, Linked, Walk, Finished, Waiting, Reading;
  }

  /** A failure in the innermost container fails the whole text. */
  lemma RejectedAt(src: string, t: Table, offset: nat, stack: seq<Frame>, conts: seq<Cont>, nm: Names)
    requires State(src, t, offset, stack, conts, nm)
    requires var p := stack[|stack| - 1].node; t.starts[p] <= |src| && D.ParseValue(src, t.starts[p]).Fail?
    ensures D.ParseText(src).None?
  {
    FailsOut(src, t, offset, stack, conts, |stack| - 1);
  }

  /** Only the innermost frame moved. */
  lemma Advanced(src: string, t: Table, offset: nat, stack: seq<Frame>, conts: seq<Cont>, nm: Names, offset': nat, f: Frame)
    requires State(src, t, offset, stack, conts, nm) && offset <= offset' <= |src|
    requires var top := stack[|stack| - 1]; f.node == top.node && f.component == top.component
    requires Reading(src, t, offset', f) && GoodKey(f)
    ensures State(src, t, offset', SetTop(stack, f), conts, nm)
  {
    hide Inv, S.Nested, Places, Reading, Labelled, FrameAt, D.SkipBlanks, Pointer;
    StateOutline(src, t, offset, stack, conts, nm);
    var stack' := SetTop(stack, f);
    Advance(src, t, offset, stack, conts, offset', f);
    assert forall k :: 0 <= k < |stack| ==> stack'[k].node == stack[k].node;
    assert forall id: nat :: Open(stack, id) <==> Open(stack', id);
    S.NestedLater(t, offset, stack, offset', stack');
    PlacesMoved(t.nodes, nm.paths, nm.pointers, nm.index, nm.exactKeys, stack, nm.currentPath, nm.pathOffsets, f);
  }

  /** The places do not depend on the innermost frame's state or key. */
  lemma PlacesMoved(nodes: seq<FlatNode>, paths: seq<Path>, pointers: seq<string>, index: map<string, nat>, exactKeys: map<string, seq<Unit>>,
                    stack: seq<Frame>, currentPath: string, pathOffsets: seq<nat>, f: Frame)
    requires Places(nodes, paths, pointers, index, exactKeys, stack, currentPath, pathOffsets)
    requires |stack| > 0 && f.node == stack[|stack| - 1].node && f.component == stack[|stack| - 1].component
    ensures Places(nodes, paths, pointers, index, exactKeys, SetTop(stack, f), currentPath, pathOffsets)
  {
    hide Labelled, Agrees, Reached, Pointer;
    var stack' := SetTop(stack, f);
    forall k | 0 <= k < |stack'| ensures FrameAt(nodes, paths, exactKeys, stack'[k], k) { assert FrameAt(nodes, paths, exactKeys, stack[k], k); }
    forall k | 0 <= k < |pathOffsets| ensures Above(paths, stack'[k], stack'[k + 1], pathOffsets[k]) {
      assert Above(paths, stack[k], stack[k + 1], pathOffsets[k]);
    }
  }

  /** What the loop's next move means, state by state, with `j` the first non-blank position. */
  lemma Moves(src: string, t: Table, offset: nat, f: Frame, j: nat)
    requires Aligned(t) && f.node < |t.nodes| && offset <= |src| && Reading(src, t, offset, f) && j == D.SkipBlanks(src, offset)
    ensures D.SkipBlanks(src, j) == j <= |src| && t.starts[f.node] <= |src| && Children(t.nodes[f.node], -1, |t.trees|)
    ensures var r := D.ParseValue(src, t.starts[f.node]);
            var closed := D.Ok(Shape(t.nodes[f.node], f.node, t.exact, t.trees), j + 1);
            match f.state
            case FirstArray =>
              if D.At(src, j, ']') then r == closed else Reading(src, t, j, f.(state := FrameState.ArrayValue))
            case ArrayValue => Reading(src, t, j, f)
            case ArrayComma =>
              if D.At(src, j, ']') then r == closed
              else if D.At(src, j, ',') then Reading(src, t, j + 1, f.(state := FrameState.ArrayValue))
              else r == D.Fail
            case FirstObject =>
              if D.At(src, j, '}') then r == closed else Reading(src, t, j, f.(state := FrameState.ObjectKey))
            case ObjectKey => Reading(src, t, j, f)
            case ObjectColon =>
              if D.At(src, j, ':') then Reading(src, t, j + 1, f.(state := FrameState.ObjectValue)) else r == D.Fail
            case ObjectValue => Reading(src, t, j, f)
            case ObjectComma =>
              if D.At(src, j, '}') then r == closed
              else if D.At(src, j, ',') then Reading(src, t, j + 1, f.(state := FrameState.ObjectKey))
              else r == D.Fail
  {
    hide D.ParseValue, D.ParseString, D.SkipBlanks;
    D.SkipTwice(src, offset);
    assert Children(t.nodes[f.node], f.node, |t.nodes|);
    var n := t.nodes[f.node];
    if n == FlatNode.Array([]) { assert Kids(n.items, t.trees) == []; }
    if n == FlatNode.Object([]) { assert KidFields(n.fields, t.trees) == []; }
  }

  /** Reading a key. */
  lemma KeyMoves(src: string, t: Table, j: nat, f: Frame, key: Key)
    requires Aligned(t) && f.node < |t.nodes| && j <= |src| && D.SkipBlanks(src, j) == j
    requires f.state == FrameState.ObjectKey && Reading(src, t, j, f)
    ensures t.starts[f.node] <= |src|
    ensures !D.At(src, j, '\"') || D.ParseString(src, j + 1).Fail? ==> D.ParseValue(src, t.starts[f.node]) == D.Fail
    ensures D.At(src, j, '\"') && D.ParseString(src, j + 1).Ok? && key.units == D.ParseString(src, j + 1).value ==>
              Reading(src, t, D.ParseString(src, j + 1).next, f.(state := FrameState.ObjectColon, key := Some(key)))
  {
    hide D.ParseValue, D.ParseString, D.SkipBlanks;
  }

  lemma TopComponent(src: string, t: Table, offset: nat, stack: seq<Frame>, conts: seq<Cont>, nm: Names)
    requires State(src, t, offset, stack, conts, nm)
    ensures stack[|stack| - 1].component.Some? <==> |stack| > 1
    ensures |conts| == |stack| - 1 == |nm.pathOffsets|
    ensures stack[|stack| - 1].node < |t.nodes| == |t.spans| == |t.starts| == |t.trees|
  {
    assert FrameAt(t.nodes, nm.paths, nm.exactKeys, stack[|stack| - 1], |stack| - 1);
  }

  /** The innermost container closes at `end`; its parent, if any, goes on. */
  lemma Popped(src: string, t: Table, offset: nat, stack: seq<Frame>, conts: seq<Cont>, nm: Names, end: nat)
    requires State(src, t, offset, stack, conts, nm) && offset <= end
    requires var p := stack[|stack| - 1].node;
             D.ParseValue(src, t.starts[p]) == D.Ok(Shape(t.nodes[p], p, t.exact, t.trees), end)
    ensures var p := stack[|stack| - 1].node;
            var t' := Close(t, p, end, Shape(t.nodes[p], p, t.exact, t.trees));
            var rest := stack[..|stack| - 1];
            && (|stack| > 1 ==>
                 var n := |nm.pathOffsets| - 1;
                 && n >= 0 && nm.pathOffsets[n] <= |nm.currentPath|
                 && State(src, t', end, rest, conts[..|conts| - 1],
                          nm.(currentPath := nm.currentPath[..nm.pathOffsets[n]], pathOffsets := nm.pathOffsets[..n])))
            && (|stack| == 1 ==> Complete(src, t', end, nm))
  {
    hide Inv, Places, S.Nested, Reading, Labelled, FrameAt, D.ParseValue, D.SkipBlanks, Shape, Children, Done, Finished, Pointer, Complete;
    StateOutline(src, t, offset, stack, conts, nm);
    var p := stack[|stack| - 1].node;
    ChildrenWide(t.nodes[p], p, |t.nodes|);
    Finish(src, t, offset, stack, conts, end);
    S.NestedPop(t, offset, stack, Shape(t.nodes[p], p, t.exact, t.trees), end);
    if |stack| > 1 {
      PlacePop(t.nodes, nm.paths, nm.pointers, nm.index, nm.exactKeys, stack, nm.currentPath, nm.pathOffsets);
    } else {
      assert stack[..0] == [];
      AllDone(src, t, stack, conts, nm, offset, end);
    }
  }

  /** Everything is read: every node finished, spans nested, index and walk in agreement. */
  ghost predicate Complete(src: string, t: Table, end: nat, nm: Names) {
    && Aligned(t) && |t.nodes| > 0
    && (forall id :: 0 <= id < |t.nodes| ==> Done(src, t, id))
    && S.Nested(t, end, [])
    && t.starts[0] == D.SkipBlanks(src, 0) && t.spans[0].end == end
    && Labelled(t.nodes, nm.paths) && Agrees(t.nodes, nm.index, nm.exactKeys)
    && |nm.pointers| == |t.nodes| && (forall id :: 0 <= id < |t.nodes| ==> nm.pointers[id] == Pointer(nm.paths[id]))
  }

  class ResponseJsonParser {
    const source: string
    var offset: nat
    var nodes: seq<FlatNode>
    var starts: seq<nat>
    var nodePointers: seq<string>
    var nodeSourceSpans: seq<Span>
    var nodeExactStrings: map<nat, seq<Unit>>
    var pointerNodes: map<string, nat>
    var pathOffsets: seq<nat>
    var currentPath: string
    var exactKeys: map<string, seq<Unit>>
    ghost var trees: seq<Json>
    ghost var paths: seq<Path>
    ghost var conts: seq<Cont>

    constructor (source: string)
      ensures this.source == source && offset == 0 && nodes == [] && starts == [] && nodePointers == []
      ensures nodeSourceSpans == [] && nodeExactStrings == map[] && pointerNodes == map[] && pathOffsets == []
      ensures currentPath == "" && exactKeys == map[] && trees == [] && paths == [] && conts == []
    {
      this.source := source;
      offset, nodes, starts, nodePointers, nodeSourceSpans := 0, [], [], [], [];
      nodeExactStrings, pointerNodes, pathOffsets, currentPath, exactKeys := map[], map[], [], "", map[];
      trees, paths, conts := [], [], [];
    }

    ghost function View(): Table
      reads this
    {
      Table(nodes, starts, nodeSourceSpans, nodeExactStrings, trees)
    }

    ghost function Naming(): Names
      reads this
    {
      Names(paths, nodePointers, pointerNodes, exactKeys, currentPath, pathOffsets)
    }

    /** What holds between any two iterations of the main loop. */
    ghost predicate Valid(stack: seq<Frame>)
      reads this
    {
      State(source, View(), offset, stack, conts, Naming())
    }

    // ----- scanning -----

    function Peek(): Option<char>
      reads this
    {
      if offset < |source| then Some(source[offset]) else None
    }

    method Whitespace()
      requires offset <= |source|
      modifies this`offset
      ensures offset == D.SkipBlanks(source, old(offset))
    {
      while offset < |source| && IsBlank(source[offset])
        invariant offset <= |source|
        invariant D.SkipBlanks(source, offset) == D.SkipBlanks(source, old(offset))
      {
        offset := offset + 1;
      }
    }

    method Consume(c: char) returns (found: bool)
      requires offset <= |source|
      modifies this`offset
      ensures var j := D.SkipBlanks(source, old(offset));
              found == D.At(source, j, c) && offset == if found then j + 1 else j
    {
      Whitespace();
      if Peek() == Some(c) {
        offset := offset + 1;
        return true;
      }
      return false;
    }

    method Digits() returns (some: bool)
      requires offset <= |source|
      modifies this`offset
      ensures offset == D.SkipDigits(source, old(offset)) && some == (offset != old(offset))
    {
      var start := offset;
      while offset < |source| && IsDigit(source[offset])
        invariant start <= offset <= |source|
        invariant D.SkipDigits(source, offset) == D.SkipDigits(source, start)
      {
        offset := offset + 1;
      }
      return offset != start;
    }

    method WholePart() returns (ok: bool)
      requires offset <= |source|
      modifies this`offset
      ensures ok == D.ScanWhole(source, old(offset)).Some?
      ensures ok ==> offset == D.ScanWhole(source, old(offset)).value
    {
      if Peek() == Some('0') {
        offset := offset + 1;
      } else if Peek().Some? && IsDigit(Peek().value) {
        var _ := Digits();
      } else {
        return false;
      }
      return true;
    }

    method Fraction() returns (ok: bool)
      requires offset <= |source|
      modifies this`offset
      ensures ok == D.ScanFrac(source, old(offset)).Some?
      ensures ok ==> offset == D.ScanFrac(source, old(offset)).value
    {
      if Peek() == Some('.') {
        offset := offset + 1;
        var some := Digits();
        if !some {
          return false;
        }
      }
      return true;
    }

    method Exponent() returns (ok: bool)
      requires offset <= |source|
      modifies this`offset
      ensures ok == D.ScanExp(source, old(offset)).Some?
      ensures ok ==> offset == D.ScanExp(source, old(offset)).value
    {
      if Peek() == Some('e') || Peek() == Some('E') {
        offset := offset + 1;
        if Peek() == Some('+') || Peek() == Some('-') {
          offset := offset + 1;
        }
        var some := Digits();
        if !some {
          return false;
        }
      }
      return true;
    }

    /** `number` */
    method Number() returns (ok: bool)
      requires offset <= |source|
      modifies this`offset
      ensures ok == D.ScanNumber(source, old(offset)).Some?
      ensures ok ==> offset == D.ScanNumber(source, old(offset)).value
    {
      hide D.ScanWhole, D.ScanFrac, D.ScanExp;
      if Peek() == Some('-') {
        offset := offset + 1;
      }
      ok := WholePart();
      if !ok {
        return;
      }
      ok := Fraction();
      if !ok {
        return;
      }
      ok := Exponent();
    }

    method Literal(word: string) returns (ok: bool)
      requires offset <= |source|
      modifies this`offset
      ensures ok == D.Has(source, old(offset), word)
      ensures ok ==> offset == old(offset) + |word| <= |source|
    {
      D.HasIsSlice(source, offset, word);
      if offset + |word| <= |source| && source[offset..offset + |word|] == word {
        offset := offset + |word|;
        return true;
      }
      return false;
    }

    method ReadHexUnit() returns (r: Option<Unit>)
      requires offset <= |source|
      modifies this`offset
      ensures var i := old(offset);
              && (r.Some? <==> i + 4 <= |source| && Hex4(source[i..i + 4]))
              && (r.Some? ==> r.value == HexUnit(source[i..i + 4]) && offset == i + 4)
    {
      if offset + 4 > |source| {
        return None;
      }
      var digits := source[offset..offset + 4];
      var a, b, c, d := HexValue(digits[0]), HexValue(digits[1]), HexValue(digits[2]), HexValue(digits[3]);
      if a.None? || b.None? || c.None? || d.None? {
        return None;
      }
      offset := offset + 4;
      return Some(((a.value * 16 + b.value) * 16 + c.value) * 16 + d.value);
    }

    /** What follows a backslash. */
    method ReadEscape() returns (r: Option<Unit>)
      requires offset < |source| && source[offset] == '\\'
      modifies this`offset
      ensures r.None? ==> D.ParseString(source, old(offset)).Fail?
      ensures r.Some? ==> old(offset) < offset <= |source| &&
                          D.ParseString(source, old(offset)) == D.Prepend([r.value], D.ParseString(source, offset))
    {
      offset := offset + 1;
      if offset == |source| {
        return None;
      }
      var escape := source[offset];
      offset := offset + 1;
      if escape == 'u' {
        r := ReadHexUnit();
      } else {
        r := ShortEscape(escape);
      }
    }

    /** One string token, quotes included. */
    method ReadString() returns (r: Option<Decoded>)
      requires offset <= |source|
      modifies this`offset
      ensures var j := D.SkipBlanks(source, old(offset));
              if !D.At(source, j, '\"') || D.ParseString(source, j + 1).Fail? then r.None?
              else r == Some(DecodedUnits(D.ParseString(source, j + 1).value)) && offset == D.ParseString(source, j + 1).next
    {
      var open := Consume('\"');
      if !open {
        return None;
      }
      ghost var start := offset;
      var units: seq<Unit> := [];
      D.PrependTwice([], [], D.ParseString(source, start));
      while true
        invariant offset <= |source|
        invariant D.ParseString(source, start) == D.Prepend(units, D.ParseString(source, offset))
        decreases |source| - offset
      {
        if offset == |source| {
          return None;
        }
        var byte := source[offset];
        if byte == '\"' {
          offset := offset + 1;
          break;
        } else if byte == '\\' {
          var unit := ReadEscape();
          if unit.None? {
            return None;
          }
          D.PrependTwice(units, [unit.value], D.ParseString(source, offset));
          units := units + [unit.value];
        } else if byte as int < 0x20 {
          return None;
        } else {
          D.PrependTwice(units, EncodeChar(byte), D.ParseString(source, offset + 1));
          units := units + EncodeChar(byte);
          offset := offset + 1;
        }
      }
      assert units + [] == units;
      r := Some(DecodedUnits(units));
    }

    // ----- nodes and paths -----

    method PushNode(node: FlatNode, start: nat, pointer: string, exact: Option<seq<Unit>>, ghost tree: Json, ghost path: Path)
      returns (id: nat)
      modifies this`nodes, this`starts, this`nodePointers, this`nodeSourceSpans, this`nodeExactStrings, this`pointerNodes, this`trees, this`paths
      ensures id == |old(nodes)|
      ensures View() == Append(old(View()), node, Span(start, offset), exact, tree)
      ensures nodePointers == old(nodePointers) + [pointer] && pointerNodes == old(pointerNodes)[pointer := id]
      ensures paths == old(paths) + [path]
    {
      id := |nodes|;
      nodes := nodes + [node];
      starts := starts + [start];
      nodePointers := nodePointers + [pointer];
      nodeSourceSpans := nodeSourceSpans + [Span(start, offset)];
      if exact.Some? {
        nodeExactStrings := nodeExactStrings[id := exact.value];
      }
      pointerNodes := pointerNodes[pointer := id];
      trees := trees + [tree];
      paths := paths + [path];
    }

    method PushPath(component: string)
      modifies this`pathOffsets, this`currentPath
      ensures pathOffsets == old(pathOffsets) + [|old(currentPath)|]
      ensures currentPath == old(currentPath) + "/" + Escape(component)
    {
      pathOffsets := pathOffsets + [|currentPath|];
      currentPath := PushPointerSegment(currentPath, component);
    }

    method PopPath()
      requires |pathOffsets| > 0 && pathOffsets[|pathOffsets| - 1] <= |currentPath|
      modifies this`pathOffsets, this`currentPath
      ensures pathOffsets == old(pathOffsets)[..|old(pathOffsets)| - 1]
      ensures currentPath == old(currentPath)[..old(pathOffsets)[|old(pathOffsets)| - 1]]
    {
      var n := |pathOffsets| - 1;
      currentPath := currentPath[..pathOffsets[n]];
      pathOffsets := pathOffsets[..n];
    }

    /** `clear_replaced_subtree` */
    method ClearReplacedSubtree(pointer: string)
      modifies this`exactKeys, this`pointerNodes
      ensures exactKeys == Cleared(old(exactKeys), pointer) && pointerNodes == Cleared<nat>(old(pointerNodes), pointer)
    {
      exactKeys := map q | q in exactKeys && !Within(q, pointer) :: exactKeys[q];
      pointerNodes := map q | q in pointerNodes && !Within(q, pointer) :: pointerNodes[q];
    }

    /** What one call of `ReadValue` may do: a scalar is read whole, a container only opened. */
    ghost predicate Read(start: nat, id: nat, state: Option<FrameState>, n: FlatNode, exact: Option<seq<Unit>>, tree: Json)
      requires start <= |source|
      reads this
    {
      match state
      case None =>
        && (n.Primitive? || n.String?)
        && D.ParseValue(source, start) == D.Ok(tree, offset)
        && Children(n, -1, |trees|) && tree == Shape(n, id, nodeExactStrings, trees)
      case Some(s) =>
        && exact.None? && start < |source| && offset == start + 1
        && ((s == FirstArray && n == FlatNode.Array([]) && source[start] == '[') ||
            (s == FirstObject && n == FlatNode.Object([]) && source[start] == '{'))
    }

    /** `value`: skip blanks and read one scalar, or open one container. */
    method ReadValue(ghost path: Path)
      returns (r: Option<(nat, Option<FrameState>)>, ghost n: FlatNode, ghost exact: Option<seq<Unit>>, ghost tree: Json)
      requires offset <= |source| && |trees| == |nodes| && |nodes| !in nodeExactStrings
      modifies this`offset, this`nodes, this`starts, this`nodePointers, this`nodeSourceSpans, this`nodeExactStrings, this`pointerNodes, this`trees, this`paths
      ensures r.None? ==> D.ParseValue(source, D.SkipBlanks(source, old(offset))).Fail?
      ensures r.Some? ==>
        var start := D.SkipBlanks(source, old(offset));
        && r.value.0 == |old(nodes)| && start < offset <= |source|
        && View() == Append(old(View()), n, Span(start, offset), exact, tree)
        && nodePointers == old(nodePointers) + [currentPath]
        && pointerNodes == old(pointerNodes)[currentPath := |old(nodes)|]
        && paths == old(paths) + [path]
        && Fresh(n) && Read(start, |old(nodes)|, r.value.1, n, exact, tree)
    {
      hide D.ParseString, D.SkipBlanks, D.ParsePrimitive, D.ArrayFirst, D.ObjectFirst, Encode, Display, WellFormed;
      n, exact, tree := Primitive(""), None, Prim("");
      Whitespace();
      var start := offset;
      var pointer := currentPath;
      match Peek() {
        case None =>
          return None, n, exact, tree;
        case Some('{') =>
          offset := offset + 1;
          n := FlatNode.Object([]);
          var id := PushNode(FlatNode.Object([]), start, pointer, None, tree, path);
          return Some((id, Some(FirstObject))), n, exact, tree;
        case Some('[') =>
          offset := offset + 1;
          n := FlatNode.Array([]);
          var id := PushNode(FlatNode.Array([]), start, pointer, None, tree, path);
          return Some((id, Some(FirstArray))), n, exact, tree;
        case Some('\"') =>
          D.SkipTwice(source, old(offset));
          var s := ReadString();
          if s.None? {
            return None, n, exact, tree;
          }
          ghost var units := D.ParseString(source, start + 1).value;
          DisplayUnits(units);
          n, exact, tree := String(s.value.text), s.value.exact, Str(units);
          var id := PushNode(String(s.value.text), start, pointer, s.value.exact, tree, path);
          return Some((id, None)), n, exact, tree;
        case Some(c) =>
          var ok := ReadPrimitive();
          if !ok {
            return None, n, exact, tree;
          }
          n, tree := Primitive(source[start..offset]), Prim(source[start..offset]);
          var id := PushNode(Primitive(source[start..offset]), start, pointer, None, tree, path);
          return Some((id, None)), n, exact, tree;
      }
    }

    method ReadPrimitive() returns (ok: bool)
      requires offset <= |source|
      modifies this`offset
      ensures var r := D.ParsePrimitive(source, old(offset));
              ok == r.Ok? && (ok ==> offset == r.next)
    {
      match Peek() {
        case Some('n') => ok := Literal("null");
        case Some('t') => ok := Literal("true");
        case Some('f') => ok := Literal("false");
        case Some(c) =>
          if c == '-' || IsDigit(c) { ok := Number(); } else { ok := false; }
        case None => ok := false;
      }
    }

    // ----- the steps of the main loop -----

    lemma Ready(stack: seq<Frame>)
      requires Valid(stack)
      ensures offset <= |source| && |trees| == |nodes| && |nodes| !in nodeExactStrings && |stack| > 0
      ensures stack[|stack| - 1].node < |paths| && currentPath == Pointer(paths[stack[|stack| - 1].node])
    {
    }

    /** The child just read is linked under its container: a container opens a frame, a scalar leaves the path. */
    method Settle(stack: seq<Frame>, container: FlatNode, child: nat, entered: Option<FrameState>, component: string, ghost was: seq<Frame>, ghost t: Table, ghost o: nat,
                  ghost nm: Names, ghost n: FlatNode, ghost exact: Option<seq<Unit>>, ghost tree: Json)
      returns (stack': seq<Frame>)
      requires |was| > 0 && State(source, t, o, was, conts, nm) && Due(was[|was| - 1]) && stack == SetTop(was, Taken(was[|was| - 1]))
      requires JustRead(was[|was| - 1], t, o, nm, n, exact, tree)
      requires container == WithChild(t.nodes[was[|was| - 1].node], was[|was| - 1], child)
      requires child == |t.nodes| && o <= |source| && D.SkipBlanks(source, o) < offset <= |source| && Fresh(n)
      requires Read(D.SkipBlanks(source, o), child, entered, n, exact, tree)
      modifies this`nodes, this`conts, this`currentPath, this`pathOffsets
      ensures Valid(stack')
    {
      hide State, Named, Pointer, D.ParseValue, D.SkipBlanks, Shape, Children, ContOf, WithChild, SegmentOf;
      ghost var f, cs := was[|was| - 1], conts;
      ghost var span := Span(D.SkipBlanks(source, o), offset);
      DueKind(source, t, o, was, cs, nm);
      StateTop(source, t, o, was, cs, nm);
      nodes := nodes[stack[|stack| - 1].node := container];
      if entered.Some? {
        var g := Frame(child, entered.value, None, Some(component));
        TookOpen(source, t, o, was, cs, nm, n, span, tree, g);
        LastName(nm, t.nodes[f.node], f, |t.nodes|);
        stack' := stack + [g];
        conts := conts + [ContOf(t.nodes[f.node], t.trees, f)];
      } else {
        TookLeaf(source, t, o, was, cs, nm, n, span, exact, tree);
        PathBack(nm.paths, f, SegmentOf(t.nodes[f.node], f));
        PopPath();
        assert currentPath == nm.currentPath && pathOffsets == nm.pathOffsets;
        SamePath(nm, t.nodes[f.node], f, |t.nodes|);
        stack' := stack;
      }
    }

    /** The child is in the table and has its name; its container does not list it yet. */
    ghost predicate JustRead(f: Frame, t: Table, o: nat, nm: Names, n: FlatNode, exact: Option<seq<Unit>>, tree: Json)
      requires o <= |source|
      reads this
    {
      && f.node < |t.nodes| == |nm.paths| && (t.nodes[f.node].Array? || (t.nodes[f.node].Object? && f.key.Some?))
      && View() == Append(t, n, Span(D.SkipBlanks(source, o), offset), exact, tree)
      && Naming() == Named(nm, t.nodes[f.node], f, |t.nodes|).(
           currentPath := Pointer(nm.paths[f.node] + [SegmentOf(t.nodes[f.node], f)]), pathOffsets := nm.pathOffsets + [|nm.currentPath|])
    }

    /** `array_value` */
    method ArrayValue(parent: nat, stack: seq<Frame>) returns (ok: bool, stack': seq<Frame>)
      requires |stack| > 0 && stack[|stack| - 1].node == parent
      requires Valid(SetTop(stack, stack[|stack| - 1].(state := FrameState.ArrayValue)))
      modifies this
      ensures !ok ==> D.ParseText(source).None?
      ensures ok ==> Valid(stack') && offset > old(offset)
    {
      hide State, Named, Pointer, Escape, D.ParseValue, D.SkipBlanks, Shape, Children, ToText, ContOf;
      ghost var f := stack[|stack| - 1].(state := FrameState.ArrayValue);
      ghost var was := SetTop(stack, f);
      ghost var t, nm, o, cs := View(), Naming(), offset, conts;
      DueKind(source, t, o, was, cs, nm);
      Ready(was);
      var component := ToText(|nodes[parent].items|);
      ghost var at := paths[parent] + [component];
      PointerSnoc(paths[parent], component);
      NamedItem(nm, nodes[parent], f, |nodes|);
      PushPath(component);
      var r, n, exact, tree := ReadValue(at);
      if r.None? {
        RejectedAt(source, t, o, was, cs, nm);
        return false, stack;
      }
      var child := r.value.0;
      var container := FlatNode.Array(nodes[parent].items + [child]);
      ok, stack' := true, SetTop(stack, stack[|stack| - 1].(state := FrameState.ArrayComma));
      assert stack' == SetTop(was, Taken(f));
      assert JustRead(f, t, o, nm, n, exact, tree);
      stack' := Settle(stack', container, child, r.value.1, component, was, t, o, nm, n, exact, tree);
    }

    /** `object_key` */
    method ReadKey(stack: seq<Frame>) returns (ok: bool, stack': seq<Frame>)
      requires |stack| > 0 && Valid(SetTop(stack, stack[|stack| - 1].(state := FrameState.ObjectKey)))
      requires D.SkipBlanks(source, offset) == offset
      modifies this`offset
      ensures !ok ==> D.ParseText(source).None?
      ensures ok ==> Valid(stack') && offset > old(offset)
    {
      hide D.ParseValue, D.ParseString, Display, Encode, State, D.SkipBlanks, Reading, WellFormed;
      var top := stack[|stack| - 1];
      ghost var f := top.(state := FrameState.ObjectKey);
      ghost var was := SetTop(stack, f);
      ghost var o := offset;
      TopReading(source, View(), o, was, conts, Naming());
      if Peek() != Some('\"') {
        KeyMoves(source, View(), o, f, Key("", []));
        RejectedAt(source, View(), o, was, conts, Naming());
        return false, stack;
      }
      var s := ReadString();
      if s.None? {
        KeyMoves(source, View(), o, f, Key("", []));
        RejectedAt(source, View(), o, was, conts, Naming());
        return false, stack;
      }
      ghost var units := D.ParseString(source, o + 1).value;
      DisplayUnits(units);
      var key := Key(s.value.text, if s.value.exact.Some? then s.value.exact.value else Encode(s.value.text));
      assert key.units == units;
      var f' := top.(key := Some(key), state := FrameState.ObjectColon);
      KeyMoves(source, View(), o, f, key);
      Advanced(source, View(), o, was, conts, Naming(), offset, f');
      ok, stack' := true, SetTop(stack, f');
      assert stack' == SetTop(was, f');
    }

    /** A field's value replaces the whole subtree of an earlier one with the same key; an ill-formed key keeps its units. */
    method EnterField(key: Key, duplicate: bool)
      requires key.display == Display(key.units)
      modifies this`exactKeys, this`pointerNodes, this`currentPath, this`pathOffsets
      ensures var p := old(currentPath) + "/" + Escape(key.display);
              var keys := if duplicate then Cleared(old(exactKeys), p) else old(exactKeys);
              && pointerNodes == (if duplicate then Cleared<nat>(old(pointerNodes), p) else old(pointerNodes))
              && exactKeys == (if WellFormed(key.units) then keys else keys[p := key.units])
              && currentPath == p && pathOffsets == old(pathOffsets) + [|old(currentPath)|]
    {
      hide Escape, Display, Encode, WellFormed, Within;
      DisplayUnits(key.units);
      var pointer := PushPointerSegment(currentPath, key.display);
      if duplicate {
        ClearReplacedSubtree(pointer);
      }
      if Encode(key.display) != key.units {
        exactKeys := exactKeys[pointer := key.units];
      }
      PushPath(key.display);
    }

    /** `object_value` */
    method ObjectValue(parent: nat, stack: seq<Frame>) returns (ok: bool, stack': seq<Frame>)
      requires |stack| > 0 && stack[|stack| - 1].node == parent && Valid(stack)
      requires stack[|stack| - 1].state == FrameState.ObjectValue
      modifies this
      ensures !ok ==> D.ParseText(source).None?
      ensures ok ==> Valid(stack') && offset > old(offset)
    {
      hide State, Named, Pointer, Escape, D.ParseValue, D.SkipBlanks, Shape, Children, ContOf, HasUnits, Cleared, Within, SetField, Display, Encode, WellFormed;
      var f := stack[|stack| - 1];
      ghost var t, nm, o, cs := View(), Naming(), offset, conts;
      DueKind(source, t, o, stack, cs, nm);
      Ready(stack);
      var key, units := f.key.value.display, f.key.value.units;
      ghost var at := paths[parent] + [key];
      PointerSnoc(paths[parent], key);
      NamedField(nm, nodes[parent], f, |nodes|);
      EnterField(f.key.value, HasUnits(nodes[parent].fields, units));
      var r, n, exact, tree := ReadValue(at);
      if r.None? {
        RejectedAt(source, t, o, stack, cs, nm);
        return false, stack;
      }
      var child := r.value.0;
      var container := FlatNode.Object(SetField(nodes[parent].fields, f.key.value, child));
      ok, stack' := true, SetTop(stack, f.(key := None, state := FrameState.ObjectComma));
      assert stack' == SetTop(stack, Taken(f));
      assert JustRead(f, t, o, nm, n, exact, tree);
      stack' := Settle(stack', container, child, r.value.1, key, stack, t, o, nm, n, exact, tree);
    }

    /** `pop_frame` */
    method PopFrame(stack: seq<Frame>, ghost o: nat) returns (stack': seq<Frame>)
      requires |stack| > 0 && o <= offset
      requires State(source, View(), o, stack, conts, Naming())
      requires var p := stack[|stack| - 1].node;
               && p < |nodes| == |starts| == |trees| && starts[p] <= |source| && Children(nodes[p], -1, |trees|)
               && D.ParseValue(source, starts[p]) == D.Ok(Shape(nodes[p], p, nodeExactStrings, trees), offset)
      modifies this`nodeSourceSpans, this`trees, this`conts, this`currentPath, this`pathOffsets
      ensures stack' == stack[..|stack| - 1]
      ensures stack' != [] ==> Valid(stack')
      ensures stack' == [] ==> Complete(source, View(), offset, Naming())
    {
      hide State, Complete, D.ParseValue, Shape, Children;
      var frame := stack[|stack| - 1];
      ghost var p, t, nm, cs := frame.node, View(), Naming(), conts;
      ghost var tree := Shape(nodes[p], p, nodeExactStrings, trees);
      TopComponent(source, t, o, stack, cs, nm);
      Popped(source, t, o, stack, cs, nm, offset);
      stack' := stack[..|stack| - 1];
      nodeSourceSpans := nodeSourceSpans[frame.node := Span(starts[frame.node], offset)];
      trees := trees[p := tree];
      assert View() == Close(t, p, offset, tree);
      if frame.component.Some? {
        PopPath();
        conts := conts[..|conts| - 1];
        assert Naming() == nm.(currentPath := currentPath, pathOffsets := pathOffsets);
      } else {
        assert Naming() == nm;
      }
    }

    /** One iteration of the main loop. */
    method Step(stack: seq<Frame>) returns (ok: bool, stack': seq<Frame>)
      requires |stack| > 0 && Valid(stack)
      modifies this
      ensures !ok ==> D.ParseText(source).None?
      ensures ok ==> offset > old(offset) && offset <= |source|
      ensures ok && stack' != [] ==> Valid(stack')
      ensures ok && stack' == [] ==> Complete(source, View(), offset, Naming())
    {
      hide State, Complete, Reading, D.ParseValue, D.SkipBlanks, Shape, Children;
      Ready(stack);
      var top := stack[|stack| - 1];
      ghost var t, nm, o, cs := View(), Naming(), offset, conts;
      ghost var j := D.SkipBlanks(source, o);
      TopReading(source, t, o, stack, cs, nm);
      Moves(source, t, o, top, j);
      Whitespace();
      if top.state == FirstArray || top.state == FrameState.ArrayComma {
        var close := Consume(']');
        if close {
          stack' := PopFrame(stack, o);
          return true, stack';
        }
      }
      if top.state == FirstObject || top.state == FrameState.ObjectComma {
        var close := Consume('}');
        if close {
          stack' := PopFrame(stack, o);
          return true, stack';
        }
      }
      assert offset == j && View() == t && Naming() == nm && conts == cs;
      match top.state {
        case FirstArray =>
          Advanced(source, t, o, stack, cs, nm, j, top.(state := FrameState.ArrayValue));
          ok, stack' := ArrayValue(top.node, stack);
        case ArrayValue =>
          Advanced(source, t, o, stack, cs, nm, j, top);
          ok, stack' := ArrayValue(top.node, stack);
        case ArrayComma =>
          ok, stack' := Separator(stack, ',', FrameState.ArrayValue, o);
        case FirstObject =>
          Advanced(source, t, o, stack, cs, nm, j, top.(state := FrameState.ObjectKey));
          ok, stack' := ReadKey(stack);
        case ObjectKey =>
          Advanced(source, t, o, stack, cs, nm, j, top);
          ok, stack' := ReadKey(stack);
        case ObjectColon =>
          ok, stack' := Separator(stack, ':', FrameState.ObjectValue, o);
        case ObjectValue =>
          Advanced(source, t, o, stack, cs, nm, j, top);
          assert SetTop(stack, top) == stack;
          ok, stack' := ObjectValue(top.node, stack);
        case ObjectComma =>
          ok, stack' := Separator(stack, ',', FrameState.ObjectKey, o);
      }
      if ok { ReadyAfter(stack'); }
    }

    lemma ReadyAfter(stack: seq<Frame>)
      requires Valid(stack)
      ensures offset <= |source| && stack != []
    {
    }

    /** A comma or a colon, after which the frame is in state `next`. */
    method Separator(stack: seq<Frame>, c: char, next: FrameState, ghost o: nat) returns (ok: bool, stack': seq<Frame>)
      requires |stack| > 0 && State(source, View(), o, stack, conts, Naming())
      requires o <= offset <= |source| && D.SkipBlanks(source, offset) == offset
      requires var top := stack[|stack| - 1];
               && Aligned(View()) && top.node < |nodes| && starts[top.node] <= |source|
               && if D.At(source, offset, c) then Reading(source, View(), offset + 1, top.(state := next))
                  else D.ParseValue(source, starts[top.node]) == D.Fail
      modifies this`offset
      ensures !ok ==> D.ParseText(source).None?
      ensures ok ==> Valid(stack') && offset > old(offset)
    {
      hide Reading, D.ParseValue, D.SkipBlanks, Inv, Places, S.Nested;
      var top := stack[|stack| - 1];
      var found := Consume(c);
      if !found {
        RejectedAt(source, View(), o, stack, conts, Naming());
        return false, stack;
      }
      var f := top.(state := next);
      assert GoodKey(stack[|stack| - 1]);
      Advanced(source, View(), o, stack, conts, Naming(), offset, f);
      return true, SetTop(stack, f);
    }

    /** `document`: the whole text. */
    method Document() returns (r: Option<FlatDocument>)
      requires offset == 0 && nodes == [] && starts == [] && nodePointers == [] && nodeSourceSpans == [] && trees == []
      requires nodeExactStrings == map[] && pointerNodes == map[] && exactKeys == map[] && paths == [] && conts == []
      requires currentPath == "" && pathOffsets == []
      modifies this
      ensures r.Some? <==> D.ParseText(source).Some?
      ensures r.Some? ==> Faithful(source, r.value)
    {
      hide State, Complete, Inv, Reading, D.ParseValue, D.SkipBlanks, Shape, Children, Faithful;
      var first, n, exact, tree := ReadValue([]);
      if first.None? {
        return None;
      }
      ghost var span := Span(D.SkipBlanks(source, 0), offset);
      var stack: seq<Frame> := [];
      assert View() == Append(Table([], [], [], map[], []), n, span, exact, tree);
      assert Naming() == Names([[]], [""], map["" := 0], map[], "", []);
      if first.value.1.Some? {
        stack := [Frame(0, first.value.1.value, None, None)];
        RootOpen(source, n, span, tree, stack[0]);
      } else {
        RootLeaf(source, n, span, exact, tree);
      }
      while stack != []
        invariant offset <= |source|
        invariant stack != [] ==> Valid(stack)
        invariant stack == [] ==> Complete(source, View(), offset, Naming())
        decreases |source| - offset
      {
        var ok;
        ok, stack := Step(stack);
        if !ok {
          return None;
        }
      }
      ghost var t, end := View(), offset;
      Whitespace();
      Whole(source, t, end, Naming());
      if offset != |source| {
        return None;
      }
      r := Some(FlatDocument(0, nodes, nodePointers, nodeSourceSpans, nodeExactStrings, pointerNodes, exactKeys));
    }
  }

  // ----- what a finished document promises -----

  /** Node `id`'s span, cut out of the text, is a JSON text on its own and denotes the node's subtree. */
  ghost predicate SpanReads(src: string, doc: FlatDocument, id: nat)
    requires Acyclic(doc.nodes) && |doc.nodeSourceSpans| == |doc.nodes| && id < |doc.nodes|
  {
    var span := doc.nodeSourceSpans[id];
    && span.start < span.end <= |src|
    && D.ParseText(src[span.start..span.end]) == Some(TreeOf(doc.nodes, doc.nodeExactStrings, id))
  }

  ghost predicate ChildInside(doc: FlatDocument, p: nat, c: nat)
    requires |doc.nodeSourceSpans| == |doc.nodes|
  {
    p < |doc.nodes| && IsChild(doc.nodes[p], c) ==>
      && p < c < |doc.nodes|
      && doc.nodeSourceSpans[p].start < doc.nodeSourceSpans[c].start
      && doc.nodeSourceSpans[c].end <= doc.nodeSourceSpans[p].end
  }

  ghost predicate SiblingsApart(doc: FlatDocument, p: nat, c: nat, d: nat)
    requires |doc.nodeSourceSpans| == |doc.nodes|
  {
    p < |doc.nodes| && IsChild(doc.nodes[p], c) && IsChild(doc.nodes[p], d) && c < d < |doc.nodes| ==>
      doc.nodeSourceSpans[c].end <= doc.nodeSourceSpans[d].start
  }

  /** A child's span lies inside its parent's; siblings are disjoint, in source order. */
  ghost predicate SpansNest(doc: FlatDocument)
    requires |doc.nodeSourceSpans| == |doc.nodes|
  {
    && (forall p: nat, c: nat :: ChildInside(doc, p, c))
    && (forall p: nat, c: nat, d: nat :: SiblingsApart(doc, p, c, d))
  }

  /** The pointer index and the walk agree on every untainted path, and a walk finds a node only at its own pointer. */
  ghost predicate IndexAgrees(doc: FlatDocument)
    requires Acyclic(doc.nodes) && |doc.nodes| > 0 && |doc.nodePointers| == |doc.nodes|
  {
    && Agrees(doc.nodes, doc.pointerNodes, doc.exactKeys)
    && (forall path: Path :: Walk(doc.nodes, 0, path).Some? ==> doc.nodePointers[Walk(doc.nodes, 0, path).value] == Pointer(path))
  }

  ghost predicate Faithful(src: string, doc: FlatDocument) {
    && doc.root == 0 < |doc.nodes| && Acyclic(doc.nodes)
    && |doc.nodeSourceSpans| == |doc.nodePointers| == |doc.nodes|
    && D.ParseText(src) == Some(TreeOf(doc.nodes, doc.nodeExactStrings, 0))
    && (forall id :: 0 <= id < |doc.nodes| ==> SpanReads(src, doc, id))
    && SpansNest(doc)
    && IndexAgrees(doc)
  }

  lemma RootLeaf(src: string, n: FlatNode, span: Span, exact: Option<seq<Unit>>, tree: Json)
    requires n.Primitive? || n.String?
    requires span.start == D.SkipBlanks(src, 0) < span.end <= |src| && D.ParseValue(src, span.start) == D.Ok(tree, span.end)
    requires var t := Append(Table([], [], [], map[], []), n, span, exact, tree); tree == Shape(n, 0, t.exact, t.trees)
    ensures Complete(src, Append(Table([], [], [], map[], []), n, span, exact, tree), span.end,
                     Names([[]], [""], map["" := 0], map[], "", []))
  {
    var t := Append(Table([], [], [], map[], []), n, span, exact, tree);
    hide D.ParseValue;
    assert Children(n, 0, 1) && forall c: nat :: !IsChild(n, c);
    assert Done(src, t, 0);
    RootAgrees(n);
  }

  lemma RootAgrees(n: FlatNode)
    requires Fresh(n)
    ensures Labelled([n], [[]]) && Agrees([n], map["" := 0], map[])
  {
    assert Children(n, 0, 1) && Linked(n, [], [[]]);
    forall path: Path ensures AgreesOn([n], map["" := 0], map[], path) {
      PointerStart(path);
      if path != [] { assert Child(n, path[0]) == None; }
    }
  }

  predicate FirstFrame(src: string, n: FlatNode, span: Span, g: Frame) {
    && span.start < |src| && span.end == span.start + 1
    && g.node == 0 && g.key.None? && g.component.None?
    && ((n == FlatNode.Array([]) && src[span.start] == '[' && g.state == FirstArray) ||
        (n == FlatNode.Object([]) && src[span.start] == '{' && g.state == FirstObject))
  }

  lemma RootPlaces(src: string, n: FlatNode, span: Span, g: Frame)
    requires FirstFrame(src, n, span, g)
    ensures Places([n], [[]], [""], map["" := 0], map[], [g], "", [])
  {
    hide Agrees;
    RootAgrees(n);
    assert FrameAt([n], [[]], map[], g, 0);
  }

  lemma RootNested(src: string, n: FlatNode, span: Span, tree: Json, g: Frame)
    requires FirstFrame(src, n, span, g)
    ensures S.Nested(Append(Table([], [], [], map[], []), n, span, None, tree), span.end, [g])
  {
    assert Children(n, 0, 1) && forall c: nat :: !IsChild(n, c);
    assert Open([g], 0) by { assert [g][0].node == 0; }
  }

  lemma RootOpen(src: string, n: FlatNode, span: Span, tree: Json, g: Frame)
    requires span.start == D.SkipBlanks(src, 0) && FirstFrame(src, n, span, g)
    ensures State(src, Append(Table([], [], [], map[], []), n, span, None, tree), span.end, [g], [],
                  Names([[]], [""], map["" := 0], map[], "", []))
  {
    hide D.ParseValue, D.SkipBlanks, S.Nested, Places, Agrees, Labelled;
    var t := Append(Table([], [], [], map[], []), n, span, None, tree);
    OpenReads(src, span.start);
    assert Children(n, 0, 1) && forall c: nat :: !IsChild(n, c);
    OpenReading(src, t, span.end, g);
    assert Open([g], 0) by { assert [g][0].node == 0; }
    assert t.nodes == [n];
    RootPlaces(src, n, span, g);
    RootNested(src, n, span, tree, g);
  }

  /** A complete table decides the whole text, and is faithful to it if nothing but blanks follows. */
  lemma Whole(src: string, t: Table, end: nat, nm: Names)
    requires Complete(src, t, end, nm)
    ensures end <= |src|
    ensures D.ParseText(src).Some? <==> D.SkipBlanks(src, end) == |src|
    ensures D.ParseText(src).Some? ==>
              Faithful(src, FlatDocument(0, t.nodes, nm.pointers, t.spans, t.exact, nm.index, nm.exactKeys))
  {
    assert Done(src, t, 0);
    if D.ParseText(src).Some? {
      var doc := FlatDocument(0, t.nodes, nm.pointers, t.spans, t.exact, nm.index, nm.exactKeys);
      TreesAreTrees(src, t, 0);
      forall id | 0 <= id < |t.nodes| ensures SpanReads(src, doc, id) {
        assert Done(src, t, id);
        TreesAreTrees(src, t, id);
        D.CutOut(src, t.starts[id]);
      }
      CompleteNests(src, t, end, nm);
      CompleteIndex(src, t, end, nm);
    }
  }

  lemma CompleteNests(src: string, t: Table, end: nat, nm: Names)
    requires Complete(src, t, end, nm)
    ensures SpansNest(FlatDocument(0, t.nodes, nm.pointers, t.spans, t.exact, nm.index, nm.exactKeys))
  {
    hide Done, Labelled, Agrees;
    var doc := FlatDocument(0, t.nodes, nm.pointers, t.spans, t.exact, nm.index, nm.exactKeys);
    assert forall id: nat :: id < |t.nodes| ==> S.Shut(t, [], id);
    forall p: nat, c: nat ensures ChildInside(doc, p, c) {
      if p < |t.nodes| && IsChild(t.nodes[p], c) {
        S.ChildBounds(t.nodes[p], p, |t.nodes|, c);
        assert S.InsideAt(t, [], p, c);
      }
    }
    forall p: nat, c: nat, d: nat ensures SiblingsApart(doc, p, c, d) {
      assert S.Sibling(t, [], p, c, d);
    }
  }

  lemma CompleteIndex(src: string, t: Table, end: nat, nm: Names)
    requires Complete(src, t, end, nm)
    ensures IndexAgrees(FlatDocument(0, t.nodes, nm.pointers, t.spans, t.exact, nm.index, nm.exactKeys))
  {
    hide Done, S.Nested;
    forall path: Path | Walk(t.nodes, 0, path).Some?
      ensures nm.pointers[Walk(t.nodes, 0, path).value] == Pointer(path)
    {
      WalkPath(t.nodes, nm.paths, 0, path);
      assert [] + path == path;
    }
  }

  /** `ResponseJsonScanner::parse`: accepts exactly the JSON texts and returns a faithful document. */
  method ParseDocument(source: string) returns (r: Option<FlatDocument>)
    ensures r.Some? <==> IsJsonText(source)
    ensures r.Some? ==> Faithful(source, r.value)
  {
    var parser := new ResponseJsonParser(source);
    r := parser.Document();
    D.AcceptsExactlyJson(source);
  }

  lemma TopReading(src: string, t: Table, offset: nat, stack: seq<Frame>, conts: seq<Cont>, nm: Names)
    requires State(src, t, offset, stack, conts, nm)
    ensures var top := stack[|stack| - 1];
            Aligned(t) && top.node < |t.nodes| && offset <= |src| && Reading(src, t, offset, top) && GoodKey(top)
  {
  }

  // ----- looking a node up -----

  lemma {:induction false} UnescapeAllFrom(parts: seq<string>, i: nat)
    requires i < |parts|
    ensures UnescapeAll(parts[i..]) == [Unescape(parts[i])] + UnescapeAll(parts[i + 1..])
  {
    assert parts[i..][1..] == parts[i + 1..];
  }

  ghost predicate Rooted(doc: FlatDocument) { doc.root < |doc.nodes| && Acyclic(doc.nodes) }

  /** What `node_id_at` looks a pointer up in: the index by its text when no ill-formed key is on record,
      the walk over its decoded segments otherwise. */
  function NodeAt(doc: FlatDocument, pointer: string): Option<nat>
    requires Rooted(doc)
  {
    if doc.exactKeys == map[] then if pointer in doc.pointerNodes then Some(doc.pointerNodes[pointer]) else None
    else if pointer == "" then Some(doc.root)
    else if pointer[0] != '/' then None
    else Walk(doc.nodes, doc.root, UnescapeAll(Split(pointer[1..], '/')))
  }

  /** On every rendered pointer both ways give the node the walk finds, whose subtree is what the path leads
      to in the value of the text. */
  lemma NodeAtReads(src: string, doc: FlatDocument, path: Path)
    requires Faithful(src, doc)
    ensures Rooted(doc) && D.ParseText(src).Some?
    ensures var id := NodeAt(doc, Pointer(path));
            && id == Walk(doc.nodes, doc.root, path)
            && AtPath(D.ParseText(src).value, path) == if id.Some? then Some(TreeOf(doc.nodes, doc.nodeExactStrings, id.value)) else None
  {
    hide Pointer, SpanReads, SpansNest, D.ParseText, TreeOf, Children, Walk, AtPath, Split, UnescapeAll;
    WalkIsTree(doc.nodes, doc.nodeExactStrings, doc.root, path);
    PointerStart(path);
    if doc.exactKeys == map[] {
      IndexIsWalk(doc.nodes, doc.pointerNodes, path);
    } else if path == [] {
      WalkNowhere(doc);
    } else {
      SplitPointer(path);
    }
  }

  lemma WalkNowhere(doc: FlatDocument)
    requires Rooted(doc)
    ensures Walk(doc.nodes, doc.root, []) == Some(doc.root)
  {
  }

  /** `node_id_at` */
  method NodeIdAt(doc: FlatDocument, pointer: string) returns (r: Option<nat>)
    requires Rooted(doc)
    ensures r == NodeAt(doc, pointer)
  {
    hide Children;
    if doc.exactKeys == map[] {
      r := if pointer in doc.pointerNodes then Some(doc.pointerNodes[pointer]) else None;
      return;
    }
    if pointer == "" {
      return Some(doc.root);
    }
    if pointer[0] != '/' {
      return None;
    }
    var parts := Split(pointer[1..], '/');
    var id: nat, i := doc.root, 0;
    assert parts[0..] == parts;
    while i < |parts|
      invariant i <= |parts| && id < |doc.nodes|
      invariant Walk(doc.nodes, id, UnescapeAll(parts[i..])) == Walk(doc.nodes, doc.root, UnescapeAll(parts))
    {
      var segment := Unescape(parts[i]);
      UnescapeAllFrom(parts, i);
      var rest := UnescapeAll(parts[i + 1..]);
      assert ([segment] + rest)[1..] == rest;
      var child := Child(doc.nodes[id], segment);
      if child.None? {
        return None;
      }
      assert Children(doc.nodes[id], id, |doc.nodes|);
      ChildInRange(doc.nodes[id], segment, id, |doc.nodes|);
      id, i := child.value, i + 1;
    }
    r := Some(id);
  }
}
