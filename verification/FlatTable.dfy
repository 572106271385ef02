/** The flat node table and what every step keeps true of it. */
module FlatTable {
  // The flat node table the iterative parser fills, and what every step keeps true of it: each
  // finished node's span reads as that node's own tree, and the open frames are exactly the
  // continuations of the recursive-descent reading.

  import opened Utf16
  import opened JsonValue
  import D = JsonDescent

  datatype FlatNode =
    | Primitive(raw: string)
    | String(text: string)
    | Array(items: seq<nat>)
    | Object(fields: seq<Entry>)

  datatype Entry = Entry(display: string, units: seq<Unit>, node: nat)

  datatype Span = Span(start: nat, end: nat)

  datatype FrameState =
    | FirstArray | ArrayValue | ArrayComma
    | FirstObject | ObjectKey | ObjectColon | ObjectValue | ObjectComma

  datatype Key = Key(display: string, units: seq<Unit>)

  datatype Frame = Frame(node: nat, state: FrameState, key: Option<Key>, component: Option<string>)

  /** The columns of the table; `trees` is the value each finished node denotes. */
  datatype Table = Table(
    nodes: seq<FlatNode>, starts: seq<nat>, spans: seq<Span>, exact: map<nat, seq<Unit>>, trees: seq<Json>)

  // ----- nodes and their children -----

  /** Every child id lies strictly between `lo` and `hi`. */
  predicate Children(n: FlatNode, lo: int, hi: int) {
    match n
    case Primitive(_) => true
    case String(_) => true
    case Array(items) => forall k :: 0 <= k < |items| ==> lo < items[k] < hi
    case Object(fields) => forall k :: 0 <= k < |fields| ==> lo < fields[k].node < hi
  }

  predicate IsChild(n: FlatNode, c: nat) {
    match n
    case Primitive(_) => false
    case String(_) => false
    case Array(items) => c in items
    case Object(fields) => exists k :: 0 <= k < |fields| && fields[k].node == c
  }

  function Kids(items: seq<nat>, trees: seq<Json>): (r: seq<Json>)
    requires forall k :: 0 <= k < |items| ==> items[k] < |trees|
    ensures |r| == |items| && forall k :: 0 <= k < |r| ==> r[k] == trees[items[k]]
  {
    seq(|items|, k requires 0 <= k < |items| => trees[items[k]])
  }

  function KidFields(fields: seq<Entry>, trees: seq<Json>): (r: seq<Field>)
    requires forall k :: 0 <= k < |fields| ==> fields[k].node < |trees|
    ensures |r| == |fields| && forall k :: 0 <= k < |r| ==> r[k] == Field(fields[k].units, trees[fields[k].node])
  {
    seq(|fields|, k requires 0 <= k < |fields| => Field(fields[k].units, trees[fields[k].node]))
  }

  /** The exact code units of a string node. */
  function UnitsOf(exact: map<nat, seq<Unit>>, id: nat, text: string): seq<Unit> {
    if id in exact then exact[id] else Encode(text)
  }

  /** One node read with the trees of its children. */
  function Shape(n: FlatNode, id: nat, exact: map<nat, seq<Unit>>, trees: seq<Json>): Json
    requires Children(n, -1, |trees|)
  {
    match n
    case Primitive(raw) => Prim(raw)
    case String(text) => Str(UnitsOf(exact, id, text))
    case Array(items) => Arr(Kids(items, trees))
    case Object(fields) => Obj(KidFields(fields, trees))
  }

  /** The whole subtree of a node, by recursion over the table. */
  function TreeOf(nodes: seq<FlatNode>, exact: map<nat, seq<Unit>>, id: nat): Json
    requires id < |nodes| && forall k :: 0 <= k < |nodes| ==> Children(nodes[k], k, |nodes|)
    decreases |nodes| - id
  {
    assert Children(nodes[id], id, |nodes|);
    match nodes[id]
    case Primitive(raw) => Prim(raw)
    case String(text) => Str(UnitsOf(exact, id, text))
    case Array(items) => Arr(seq(|items|, k requires 0 <= k < |items| => TreeOf(nodes, exact, items[k])))
    case Object(fields) =>
      Obj(seq(|fields|, k requires 0 <= k < |fields| => Field(fields[k].units, TreeOf(nodes, exact, fields[k].node))))
  }

  // ----- the invariant -----

  ghost predicate Aligned(t: Table) {
    && |t.starts| == |t.spans| == |t.trees| == |t.nodes|
    && (forall id :: 0 <= id < |t.nodes| ==> Children(t.nodes[id], id, |t.nodes|))
    && (forall id :: id in t.exact ==> id < |t.nodes|)
  }

  /** A finished node: its own shape, and its span reads back as its tree. */
  ghost predicate Done(src: string, t: Table, id: nat)
    requires Aligned(t) && id < |t.nodes|
  {
    && t.trees[id] == Shape(t.nodes[id], id, t.exact, t.trees)
    && t.spans[id].start == t.starts[id] <= |src|
    && D.ParseValue(src, t.starts[id]) == D.Ok(t.trees[id], t.spans[id].end)
  }

  ghost predicate Open(stack: seq<Frame>, id: nat) {
    exists k :: 0 <= k < |stack| && stack[k].node == id
  }

  /** What an enclosing container does with the value of the child being read. */
  datatype Cont = ArrayCont(done: seq<Json>) | ObjectCont(fields: seq<Field>, key: seq<Unit>)

  function Resume(src: string, c: Cont, r: D.Parse<Json>): D.Parse<Json>
    requires r.Ok? ==> r.next <= |src|
  {
    match r
    case Fail => D.Fail
    case Ok(v, k) =>
      match c
      case ArrayCont(done) => D.ArrayComma(src, k, done + [v])
      case ObjectCont(fields, key) => D.ObjectComma(src, k, Put(fields, key, v))
  }

  /** The container already holds the child; giving the child the value `v` completes it as `c` says. */
  ghost predicate Holds(n: FlatNode, trees: seq<Json>, c: Cont, child: nat)
    requires child < |trees| && Children(n, -1, |trees|)
  {
    match c
    case ArrayCont(done) =>
      n.Array? && forall v :: Kids(n.items, trees[child := v]) == done + [v]
    case ObjectCont(fields, key) =>
      n.Object? && forall v :: KidFields(n.fields, trees[child := v]) == Put(fields, key, v)
  }

  ghost predicate Waiting(src: string, t: Table, f: Frame, c: Cont, child: nat)
    requires Aligned(t) && f.node < child < |t.nodes|
  {
    && f.state == (if c.ArrayCont? then ArrayComma else ObjectComma)
    && t.starts[f.node] <= |src| && t.starts[child] <= |src|
    && D.ParseValue(src, t.starts[f.node]) == Resume(src, c, D.ParseValue(src, t.starts[child]))
    && Holds(t.nodes[f.node], t.trees, c, child)
    && Children(t.nodes[f.node], f.node, child + 1)
  }

  /** The rest of the innermost container, as its state says. */
  ghost predicate Reading(src: string, t: Table, offset: nat, f: Frame)
    requires Aligned(t) && f.node < |t.nodes| && offset <= |src|
  {
    var n := t.nodes[f.node];
    && t.starts[f.node] <= |src|
    && var r := D.ParseValue(src, t.starts[f.node]);
    match f.state
    case FirstArray => n == Array([]) && r == D.ArrayFirst(src, offset)
    case ArrayValue => n.Array? && r == D.ArrayNext(src, offset, Kids(n.items, t.trees))
    case ArrayComma => n.Array? && r == D.ArrayComma(src, offset, Kids(n.items, t.trees))
    case FirstObject => n == Object([]) && r == D.ObjectFirst(src, offset)
    case ObjectKey => n.Object? && r == D.ObjectKey(src, offset, KidFields(n.fields, t.trees))
    case ObjectColon =>
      n.Object? && f.key.Some? && r == D.ObjectColon(src, offset, KidFields(n.fields, t.trees), f.key.value.units)
    case ObjectValue =>
      n.Object? && f.key.Some? && r == D.ObjectNext(src, offset, KidFields(n.fields, t.trees), f.key.value.units)
    case ObjectComma => n.Object? && r == D.ObjectComma(src, offset, KidFields(n.fields, t.trees))
  }

  ghost predicate Increasing(t: Table, stack: seq<Frame>) {
    && (forall k :: 0 <= k < |stack| ==> stack[k].node < |t.nodes|)
    && (forall k, l :: 0 <= k < l < |stack| ==> stack[k].node < stack[l].node)
  }

  ghost predicate Finished(src: string, t: Table, stack: seq<Frame>)
    requires Aligned(t)
  {
    forall id :: 0 <= id < |t.nodes| && !Open(stack, id) ==>
      Done(src, t, id) && forall k :: 0 <= k < |stack| && id < stack[k].node ==> Children(t.nodes[id], id, stack[k].node)
  }

  ghost predicate Inv(src: string, t: Table, offset: nat, stack: seq<Frame>, conts: seq<Cont>) {
    && Aligned(t) && offset <= |src|
    && |stack| > 0 && |conts| == |stack| - 1
    && Increasing(t, stack)
    && Finished(src, t, stack)
    && (forall k :: 0 <= k < |conts| ==> Waiting(src, t, stack[k], conts[k], stack[k + 1].node))
    && Reading(src, t, offset, stack[|stack| - 1])
  }

  // ----- steps -----

  function Append(t: Table, n: FlatNode, span: Span, exact: Option<seq<Unit>>, tree: Json): Table {
    Table(t.nodes + [n], t.starts + [span.start], t.spans + [span],
          if exact.Some? then t.exact[|t.nodes| := exact.value] else t.exact, t.trees + [tree])
  }

  function Update(t: Table, id: nat, n: FlatNode): Table
    requires id < |t.nodes|
  {
    t.(nodes := t.nodes[id := n])
  }

  function Close(t: Table, id: nat, end: nat, tree: Json): Table
    requires id < |t.starts| && id < |t.spans| && id < |t.trees|
  {
    t.(spans := t.spans[id := Span(t.starts[id], end)], trees := t.trees[id := tree])
  }

  function SetTop(stack: seq<Frame>, f: Frame): seq<Frame>
    requires |stack| > 0
  {
    stack[|stack| - 1 := f]
  }

  /** Only the innermost frame moves. */
  lemma Advance(src: string, t: Table, offset: nat, stack: seq<Frame>, conts: seq<Cont>, offset': nat, f: Frame)
    requires Inv(src, t, offset, stack, conts)
    requires offset' <= |src| && f.node == stack[|stack| - 1].node && Reading(src, t, offset', f)
    ensures Inv(src, t, offset', SetTop(stack, f), conts)
  {
    hide Reading, Done, Holds, Children;
    var stack' := SetTop(stack, f);
    assert forall k :: 0 <= k < |stack| ==> stack'[k].node == stack[k].node;
    assert forall id :: Open(stack', id) <==> Open(stack, id);
  }

  /** Trees of other nodes do not read the changed entries. */
  lemma ShapeFrame(n: FlatNode, id: nat, exact: map<nat, seq<Unit>>, exact': map<nat, seq<Unit>>,
                   trees: seq<Json>, trees': seq<Json>, lo: int, hi: int)
    requires Children(n, lo, hi) && 0 <= lo + 1 && hi <= |trees| && hi <= |trees'|
    requires forall c :: lo < c < hi ==> trees[c] == trees'[c]
    requires id in exact <==> id in exact'
    requires id in exact ==> exact[id] == exact'[id]
    ensures Children(n, -1, |trees|) && Children(n, -1, |trees'|)
    ensures Shape(n, id, exact, trees) == Shape(n, id, exact', trees')
  {
    match n
    case Primitive(_) =>
    case String(_) =>
    case Array(items) => assert Kids(items, trees) == Kids(items, trees');
    case Object(fields) => assert KidFields(fields, trees) == KidFields(fields, trees');
  }

  /** A new node at the end of the table leaves every other node's facts alone. */
  lemma DoneAppend(src: string, t: Table, n: FlatNode, span: Span, exact: Option<seq<Unit>>, tree: Json, p: nat, n': FlatNode, id: nat)
    requires Aligned(t) && p < |t.nodes| && id < |t.nodes| && id != p
    requires Children(n, |t.nodes|, |t.nodes| + 1) && Children(n', p, |t.nodes| + 1)
    requires Done(src, t, id)
    ensures Aligned(Update(Append(t, n, span, exact, tree), p, n'))
    ensures Done(src, Update(Append(t, n, span, exact, tree), p, n'), id)
  {
    GrowAligned(t, n, span, exact, tree, p, n');
    var t' := Update(Append(t, n, span, exact, tree), p, n');
    ShapeFrame(t.nodes[id], id, t.exact, t'.exact, t.trees, t'.trees, id, |t.nodes|);
  }

  lemma GrowAligned(t: Table, n: FlatNode, span: Span, exact: Option<seq<Unit>>, tree: Json, p: nat, n': FlatNode)
    requires Aligned(t) && p < |t.nodes|
    requires Children(n, |t.nodes|, |t.nodes| + 1) && Children(n', p, |t.nodes| + 1)
    ensures Aligned(Update(Append(t, n, span, exact, tree), p, n'))
  {
    var t' := Update(Append(t, n, span, exact, tree), p, n');
    forall id | 0 <= id < |t'.nodes| ensures Children(t'.nodes[id], id, |t'.nodes|) {
      if id != p && id < |t.nodes| { assert Children(t.nodes[id], id, |t.nodes|); }
    }
  }

  /** A waiting frame keeps waiting while nodes are added inside its child. */
  lemma WaitingAppend(src: string, t: Table, n: FlatNode, span: Span, exact: Option<seq<Unit>>, tree: Json, p: nat, n': FlatNode,
                      f: Frame, c: Cont, child: nat)
    requires Aligned(t) && p < |t.nodes| && f.node < child <= p
    requires Children(n, |t.nodes|, |t.nodes| + 1) && Children(n', p, |t.nodes| + 1)
    requires Waiting(src, t, f, c, child)
    ensures Aligned(Update(Append(t, n, span, exact, tree), p, n'))
    ensures Waiting(src, Update(Append(t, n, span, exact, tree), p, n'), f, c, child)
  {
    GrowAligned(t, n, span, exact, tree, p, n');
    var t' := Update(Append(t, n, span, exact, tree), p, n');
    HoldsFrame(t.nodes[f.node], t.trees, t'.trees, c, child, f.node, child + 1);
  }

  lemma HoldsFrame(n: FlatNode, trees: seq<Json>, trees': seq<Json>, c: Cont, child: nat, lo: nat, hi: nat)
    requires lo < child < hi <= |trees| && hi <= |trees'| && Children(n, lo, hi)
    requires forall k :: lo < k < hi && k != child ==> trees[k] == trees'[k]
    requires Holds(n, trees, c, child)
    ensures Holds(n, trees', c, child)
  {
    if c.ArrayCont? {
      forall v ensures Kids(n.items, trees'[child := v]) == c.done + [v] {
        assert Kids(n.items, trees'[child := v]) == Kids(n.items, trees[child := v]);
      }
    } else {
      forall v ensures KidFields(n.fields, trees'[child := v]) == Put(c.fields, c.key, v) {
        assert KidFields(n.fields, trees'[child := v]) == KidFields(n.fields, trees[child := v]);
      }
    }
  }

  lemma LeafDone(src: string, t: Table, n: FlatNode, span: Span, exact: Option<seq<Unit>>, tree: Json, p: nat, n': FlatNode)
    requires Aligned(t) && p < |t.nodes| && (n.Primitive? || n.String?)
    requires Children(n', p, |t.nodes| + 1)
    requires span.start <= |src| && D.ParseValue(src, span.start) == D.Ok(tree, span.end)
    requires var t' := Append(t, n, span, exact, tree); tree == Shape(n, |t.nodes|, t'.exact, t'.trees)
    ensures var t' := Update(Append(t, n, span, exact, tree), p, n'); Aligned(t') && Done(src, t', |t.nodes|)
  {
    GrowAligned(t, n, span, exact, tree, p, n');
  }

  /** The container took a scalar child. */
  lemma GrowLeaf(src: string, t: Table, offset: nat, stack: seq<Frame>, conts: seq<Cont>,
                 n: FlatNode, span: Span, exact: Option<seq<Unit>>, tree: Json, n': FlatNode, f: Frame)
    requires Inv(src, t, offset, stack, conts)
    requires n.Primitive? || n.String?
    requires span.start <= |src| && D.ParseValue(src, span.start) == D.Ok(tree, span.end)
    requires Children(n', stack[|stack| - 1].node, |t.nodes| + 1)
    requires f.node == stack[|stack| - 1].node
    requires var t' := Update(Append(t, n, span, exact, tree), f.node, n');
             && tree == Shape(n, |t.nodes|, t'.exact, t'.trees)
             && Aligned(t') && Reading(src, t', span.end, f)
    ensures Inv(src, Update(Append(t, n, span, exact, tree), f.node, n'), span.end, SetTop(stack, f), conts)
  {
    hide Reading, Holds, Children, Shape, Done, Waiting, D.ParseValue;
    var p := f.node;
    var t' := Update(Append(t, n, span, exact, tree), p, n');
    var stack' := SetTop(stack, f);
    var id' := |t.nodes|;
    LeafDone(src, t, n, span, exact, tree, p, n');
    LeafChildren(n, id');
    forall id | 0 <= id < |t'.nodes| && !Open(stack', id)
      ensures Done(src, t', id)
      ensures forall k :: 0 <= k < |stack'| && id < stack'[k].node ==> Children(t'.nodes[id], id, stack'[k].node)
    {
      if id < id' {
        assert stack'[|stack| - 1].node == p;
        assert id != p;
        NotOpen(stack, f, id);
        DoneAppend(src, t, n, span, exact, tree, p, n', id);
      }
    }
    forall k | 0 <= k < |conts| ensures Waiting(src, t', stack'[k], conts[k], stack'[k + 1].node) {
      WaitingAppend(src, t, n, span, exact, tree, p, n', stack[k], conts[k], stack[k + 1].node);
    }
  }

  lemma LeafChildren(n: FlatNode, id: nat)
    requires n.Primitive? || n.String? || n == Array([]) || n == Object([])
    ensures Children(n, id, id + 1)
  {
  }

  lemma NotOpen(stack: seq<Frame>, f: Frame, id: nat)
    requires |stack| > 0 && f.node == stack[|stack| - 1].node && !Open(SetTop(stack, f), id)
    ensures !Open(stack, id)
  {
    assert forall k :: 0 <= k < |stack| ==> SetTop(stack, f)[k].node == stack[k].node;
  }

  /** The container took a child that is itself a container: a new frame opens. */
  lemma GrowOpen(src: string, t: Table, offset: nat, stack: seq<Frame>, conts: seq<Cont>,
                 n: FlatNode, span: Span, tree: Json, n': FlatNode, f: Frame, c: Cont, g: Frame)
    requires Inv(src, t, offset, stack, conts)
    requires n == Array([]) || n == Object([])
    requires span.start < |src| && span.end == span.start + 1
    requires f.node == stack[|stack| - 1].node && g.node == |t.nodes|
    requires Children(n', f.node, |t.nodes| + 1)
    requires var t' := Update(Append(t, n, span, None, tree), f.node, n');
             Aligned(t') && Waiting(src, t', f, c, g.node) && Reading(src, t', span.end, g)
    ensures Inv(src, Update(Append(t, n, span, None, tree), f.node, n'), span.end, SetTop(stack, f) + [g], conts + [c])
  {
    hide Reading, Holds, Children, Shape, Waiting, Done;
    var p := f.node;
    var t' := Update(Append(t, n, span, None, tree), p, n');
    var stack' := SetTop(stack, f) + [g];
    LeafChildren(n, |t.nodes|);
    forall id | 0 <= id < |t'.nodes| && !Open(stack', id)
      ensures Done(src, t', id)
      ensures forall k :: 0 <= k < |stack'| && id < stack'[k].node ==> Children(t'.nodes[id], id, stack'[k].node)
    {
      assert stack'[|stack|].node == g.node && stack'[|stack| - 1].node == p;
      assert id != p && id < |t.nodes|;
      assert forall k :: 0 <= k < |stack| ==> stack'[k].node == stack[k].node;
      assert !Open(stack, id);
      assert Children(t.nodes[id], id, |t.nodes|);
      DoneAppend(src, t, n, span, None, tree, p, n', id);
    }
    var conts' := conts + [c];
    forall k | 0 <= k < |conts'| ensures Waiting(src, t', stack'[k], conts'[k], stack'[k + 1].node) {
      if k < |conts| {
        WaitingAppend(src, t, n, span, None, tree, p, n', stack[k], conts[k], stack[k + 1].node);
      }
    }
  }

  /** The innermost container is complete: its span reads as its tree. */
  lemma Finish(src: string, t: Table, offset: nat, stack: seq<Frame>, conts: seq<Cont>, end: nat)
    requires Inv(src, t, offset, stack, conts)
    requires var p := stack[|stack| - 1].node;
             D.ParseValue(src, t.starts[p]) == D.Ok(Shape(t.nodes[p], p, t.exact, t.trees), end)
    ensures var p := stack[|stack| - 1].node;
            var t' := Close(t, p, end, Shape(t.nodes[p], p, t.exact, t.trees));
            && Aligned(t')
            && Finished(src, t', stack[..|stack| - 1])
            && (|stack| == 1 ==> forall id :: 0 <= id < |t'.nodes| ==> Done(src, t', id))
            && (|stack| > 1 ==> Inv(src, t', end, stack[..|stack| - 1], conts[..|conts| - 1]))
  {
    hide Reading, Holds, Children, Shape, Waiting, Done, D.ParseValue;
    var p := stack[|stack| - 1].node;
    ChildrenWide(t.nodes[p], p, |t.nodes|);
    var v := Shape(t.nodes[p], p, t.exact, t.trees);
    var t' := Close(t, p, end, v);
    var stack' := stack[..|stack| - 1];
    forall id | 0 <= id < |t'.nodes| && !Open(stack', id)
      ensures Done(src, t', id)
      ensures forall k :: 0 <= k < |stack'| && id < stack'[k].node ==> Children(t'.nodes[id], id, stack'[k].node)
    {
      CloseDone(src, t, offset, stack, conts, end, id);
    }
    if |stack| > 1 {
      var n := |stack| - 2;
      forall k | 0 <= k < n ensures Waiting(src, t', stack'[k], conts[k], stack'[k + 1].node) {
        WaitingClose(src, t, stack[k], conts[k], stack[k + 1].node, p, end, v);
      }
      assert Waiting(src, t, stack[n], conts[n], p);
      Resumed(src, t, stack[n], conts[n], p, end, v);
    }
  }

  lemma ChildrenWide(n: FlatNode, lo: nat, hi: nat)
    requires Children(n, lo, hi)
    ensures Children(n, -1, hi)
  {
  }

  /** Closing a node further in leaves a waiting frame waiting. */
  lemma WaitingClose(src: string, t: Table, f: Frame, c: Cont, child: nat, p: nat, end: nat, v: Json)
    requires Aligned(t) && f.node < child < p < |t.nodes| && Waiting(src, t, f, c, child)
    ensures Aligned(Close(t, p, end, v)) && Waiting(src, Close(t, p, end, v), f, c, child)
  {
    hide D.ParseValue, Resume;
    HoldsFrame(t.nodes[f.node], t.trees, Close(t, p, end, v).trees, c, child, f.node, child + 1);
    hide Holds;
  }

  lemma CloseDone(src: string, t: Table, offset: nat, stack: seq<Frame>, conts: seq<Cont>, end: nat, id: nat)
    requires Inv(src, t, offset, stack, conts) && id < |t.nodes| && !Open(stack[..|stack| - 1], id)
    requires var p := stack[|stack| - 1].node;
             D.ParseValue(src, t.starts[p]) == D.Ok(Shape(t.nodes[p], p, t.exact, t.trees), end)
    ensures var p := stack[|stack| - 1].node;
            var t' := Close(t, p, end, Shape(t.nodes[p], p, t.exact, t.trees));
            && Aligned(t') && Done(src, t', id)
            && forall k :: 0 <= k < |stack| - 1 && id < stack[k].node ==> Children(t'.nodes[id], id, stack[k].node)
  {
    hide Holds, Waiting, Resume;
    var p := stack[|stack| - 1].node;
    var v := Shape(t.nodes[p], p, t.exact, t.trees);
    var t' := Close(t, p, end, v);
    if id == p {
      ShapeFrame(t.nodes[p], p, t.exact, t.exact, t.trees, t'.trees, p, |t.nodes|);
    } else {
      assert forall k :: 0 <= k < |stack| - 1 ==> stack[..|stack| - 1][k] == stack[k];
      assert !Open(stack, id);
      if id < p {
        assert Children(t.nodes[id], id, p);
        ShapeFrame(t.nodes[id], id, t.exact, t.exact, t.trees, t'.trees, id, p);
      } else {
        ShapeFrame(t.nodes[id], id, t.exact, t.exact, t.trees, t'.trees, id, |t.nodes|);
      }
    }
  }

  /** The waiting container becomes the innermost one, with the child's value in place. */
  lemma Resumed(src: string, t: Table, f: Frame, c: Cont, child: nat, end: nat, v: Json)
    requires Aligned(t) && f.node < child < |t.nodes| && Waiting(src, t, f, c, child)
    requires D.ParseValue(src, t.starts[child]) == D.Ok(v, end)
    ensures Aligned(Close(t, child, end, v)) && Reading(src, Close(t, child, end, v), end, f)
  {
    hide D.ParseValue;
    var t' := Close(t, child, end, v);
    assert t'.trees == t.trees[child := v];
  }

  // ----- what the children list becomes -----

  lemma KidsSnoc(items: seq<nat>, trees: seq<Json>, v: Json)
    requires forall k :: 0 <= k < |items| ==> items[k] < |trees|
    ensures Kids(items + [|trees|], trees + [v]) == Kids(items, trees) + [v]
  {
  }

  /** Replace the entry with these units, or append one: `object_value`'s update of the field list. */
  function SetField(fields: seq<Entry>, key: Key, node: nat): seq<Entry> {
    if fields == [] then [Entry(key.display, key.units, node)]
    else if fields[0].units == key.units then [fields[0].(node := node)] + fields[1..]
    else [fields[0]] + SetField(fields[1..], key, node)
  }

  lemma {:induction false} SetFieldChildren(fields: seq<Entry>, key: Key, node: nat, lo: int)
    requires Children(Object(fields), lo, node) && lo < node
    ensures Children(Object(SetField(fields, key, node)), lo, node + 1)
    decreases |fields|
  {
    if fields != [] && fields[0].units != key.units {
      assert Children(Object(fields[1..]), lo, node);
      SetFieldChildren(fields[1..], key, node, lo);
    }
  }

  lemma KidFieldsCons(e: Entry, rest: seq<Entry>, trees: seq<Json>)
    requires e.node < |trees| && Children(Object(rest), -1, |trees|)
    ensures Children(Object([e] + rest), -1, |trees|)
    ensures KidFields([e] + rest, trees) == [Field(e.units, trees[e.node])] + KidFields(rest, trees)
  {
  }

  lemma KidFieldsSame(fields: seq<Entry>, trees: seq<Json>, trees': seq<Json>)
    requires Children(Object(fields), -1, |trees|) && |trees| <= |trees'| && trees'[..|trees|] == trees
    ensures Children(Object(fields), -1, |trees'|)
    ensures KidFields(fields, trees') == KidFields(fields, trees)
  {
    assert forall k :: 0 <= k < |trees| ==> trees'[k] == trees'[..|trees|][k];
  }

  lemma {:induction false} KidFieldsPut(fields: seq<Entry>, trees: seq<Json>, key: Key, trees': seq<Json>)
    requires Children(Object(fields), -1, |trees|) && |trees'| == |trees| + 1 && trees'[..|trees|] == trees
    ensures Children(Object(SetField(fields, key, |trees|)), -1, |trees'|)
    ensures KidFields(SetField(fields, key, |trees|), trees') == Put(KidFields(fields, trees), key.units, trees'[|trees|])
    decreases |fields|
  {
    SetFieldChildren(fields, key, |trees|, -1);
    if fields == [] {
      KidFieldsCons(Entry(key.display, key.units, |trees|), [], trees');
      assert [Entry(key.display, key.units, |trees|)] + [] == SetField(fields, key, |trees|);
    } else {
      var e, rest := fields[0], fields[1..];
      assert fields == [e] + rest;
      assert Children(Object(rest), -1, |trees|);
      KidFieldsCons(e, rest, trees);
      assert trees'[e.node] == trees'[..|trees|][e.node];
      if e.units == key.units {
        KidFieldsSame(rest, trees, trees');
        KidFieldsCons(e.(node := |trees|), rest, trees');
      } else {
        KidFieldsPut(rest, trees, key, trees');
        KidFieldsCons(e, SetField(rest, key, |trees|), trees');
      }
    }
  }

  lemma HoldsItem(items: seq<nat>, trees: seq<Json>, x: Json)
    requires forall k :: 0 <= k < |items| ==> items[k] < |trees|
    ensures Holds(Array(items + [|trees|]), trees + [x], ArrayCont(Kids(items, trees)), |trees|)
  {
    forall v ensures Kids(items + [|trees|], (trees + [x])[|trees| := v]) == Kids(items, trees) + [v] {
      assert (trees + [x])[|trees| := v] == trees + [v];
      KidsSnoc(items, trees, v);
    }
  }

  lemma HoldsField(fields: seq<Entry>, trees: seq<Json>, key: Key, x: Json)
    requires Children(Object(fields), -1, |trees|)
    ensures Children(Object(SetField(fields, key, |trees|)), -1, |trees| + 1)
    ensures Holds(Object(SetField(fields, key, |trees|)), trees + [x], ObjectCont(KidFields(fields, trees), key.units), |trees|)
  {
    SetFieldChildren(fields, key, |trees|, -1);
    forall v ensures KidFields(SetField(fields, key, |trees|), (trees + [x])[|trees| := v])
                     == Put(KidFields(fields, trees), key.units, v)
    {
      KidFieldsPut(fields, trees, key, (trees + [x])[|trees| := v]);
    }
  }

  // ----- the four ways a container takes a child -----

  /** The frame after its child was taken. */
  function Taken(f: Frame): Frame {
    if f.state == ArrayValue then f.(state := ArrayComma) else f.(state := ObjectComma, key := None)
  }

  /** The container's node after it took the child `id`. */
  function WithChild(n: FlatNode, f: Frame, id: nat): FlatNode {
    match n
    case Array(items) => Array(items + [id])
    case Object(fields) => if f.key.Some? then Object(SetField(fields, f.key.value, id)) else n
    case _ => n
  }

  /** A container is due a child: an element, or the value of the key just read. */
  predicate Due(f: Frame) { f.state == ArrayValue || f.state == ObjectValue }

  function ContOf(n: FlatNode, trees: seq<Json>, f: Frame): Cont
    requires Children(n, -1, |trees|) && (n.Array? || (n.Object? && f.key.Some?))
  {
    if n.Array? then ArrayCont(Kids(n.items, trees)) else ObjectCont(KidFields(n.fields, trees), f.key.value.units)
  }

  lemma WithChildChildren(n: FlatNode, f: Frame, lo: int, id: nat)
    requires Children(n, lo, id) && lo < id
    ensures Children(WithChild(n, f, id), lo, id + 1)
  {
    if n.Object? && f.key.Some? { SetFieldChildren(n.fields, f.key.value, id, lo); }
  }

  /** What the container becomes once the due child has the value `v` and ends at `k`. */
  lemma DueReads(src: string, t: Table, offset: nat, f: Frame)
    requires Aligned(t) && f.node < |t.nodes| && offset <= |src| && Reading(src, t, offset, f) && Due(f)
    ensures var n := t.nodes[f.node];
            && (n.Array? <==> f.state == ArrayValue) && (n.Object? ==> f.key.Some?) && (n.Array? || n.Object?)
            && Children(n, -1, |t.trees|) && t.starts[f.node] <= |src|
            && D.ParseValue(src, t.starts[f.node]) ==
               Resume(src, ContOf(n, t.trees, f), D.ParseValue(src, D.SkipBlanks(src, offset)))
  {
    hide D.ParseValue, D.ArrayComma, D.ObjectComma;
    assert Children(t.nodes[f.node], f.node, |t.nodes|);
  }

  lemma TakenHolds(n: FlatNode, trees: seq<Json>, f: Frame, x: Json)
    requires Children(n, -1, |trees|) && (n.Array? || (n.Object? && f.key.Some?))
    ensures Children(WithChild(n, f, |trees|), -1, |trees| + 1)
    ensures Holds(WithChild(n, f, |trees|), trees + [x], ContOf(n, trees, f), |trees|)
  {
    WithChildChildren(n, f, -1, |trees|);
    if n.Array? { HoldsItem(n.items, trees, x); } else { HoldsField(n.fields, trees, f.key.value, x); }
  }

  lemma TakeLeaf(src: string, t: Table, offset: nat, stack: seq<Frame>, conts: seq<Cont>,
                 n: FlatNode, span: Span, exact: Option<seq<Unit>>, tree: Json)
    requires Inv(src, t, offset, stack, conts) && Due(stack[|stack| - 1])
    requires n.Primitive? || n.String?
    requires span.start == D.SkipBlanks(src, offset) && D.ParseValue(src, span.start) == D.Ok(tree, span.end)
    requires var t' := Append(t, n, span, exact, tree); tree == Shape(n, |t.nodes|, t'.exact, t'.trees)
    ensures var f := stack[|stack| - 1];
            var n' := WithChild(t.nodes[f.node], f, |t.nodes|);
            && Children(n', f.node, |t.nodes| + 1)
            && Inv(src, Update(Append(t, n, span, exact, tree), f.node, n'), span.end, SetTop(stack, Taken(f)), conts)
  {
    hide Reading, D.ParseValue, Done, Waiting, Finished;
    var f := stack[|stack| - 1];
    var m := t.nodes[f.node];
    DueReads(src, t, offset, f);
    assert Children(m, f.node, |t.nodes|);
    WithChildChildren(m, f, f.node, |t.nodes|);
    var n' := WithChild(m, f, |t.nodes|);
    GrowAligned(t, n, span, exact, tree, f.node, n');
    var t' := Update(Append(t, n, span, exact, tree), f.node, n');
    TakenHolds(m, t.trees, f, tree);
    LeafReading(src, t', f, ContOf(m, t.trees, f), span.end, tree);
    GrowLeaf(src, t, offset, stack, conts, n, span, exact, tree, n', Taken(f));
  }

  lemma LeafReading(src: string, t: Table, f: Frame, c: Cont, end: nat, tree: Json)
    requires Aligned(t) && f.node < |t.nodes| && t.starts[f.node] <= |src| && end <= |src| && Due(f)
    requires |t.trees| > 0 && t.trees[|t.trees| - 1] == tree
    requires Children(t.nodes[f.node], -1, |t.trees|) && Holds(t.nodes[f.node], t.trees, c, |t.trees| - 1)
    requires c.ArrayCont? <==> f.state == ArrayValue
    requires D.ParseValue(src, t.starts[f.node]) == Resume(src, c, D.Ok(tree, end))
    ensures Reading(src, t, end, Taken(f))
  {
    hide D.ParseValue, D.ArrayComma, D.ObjectComma, Put;
    assert t.trees[|t.trees| - 1 := tree] == t.trees;
  }

  lemma TakeOpen(src: string, t: Table, offset: nat, stack: seq<Frame>, conts: seq<Cont>,
                 n: FlatNode, span: Span, tree: Json, g: Frame)
    requires Inv(src, t, offset, stack, conts) && Due(stack[|stack| - 1])
    requires span.start == D.SkipBlanks(src, offset) < |src| && span.end == span.start + 1 && g.node == |t.nodes|
    requires (n == Array([]) && src[span.start] == '[' && g.state == FirstArray) ||
             (n == Object([]) && src[span.start] == '{' && g.state == FirstObject)
    ensures var f := stack[|stack| - 1];
            var m := t.nodes[f.node];
            var n' := WithChild(m, f, |t.nodes|);
            && Children(n', f.node, |t.nodes| + 1)
            && Children(m, -1, |t.trees|) && (m.Array? || (m.Object? && f.key.Some?))
            && Inv(src, Update(Append(t, n, span, None, tree), f.node, n'), span.end, SetTop(stack, Taken(f)) + [g],
                   conts + [ContOf(m, t.trees, f)])
  {
    hide Reading, D.ParseValue, Done, Waiting, Finished, D.ArrayFirst, D.ObjectFirst;
    var f := stack[|stack| - 1];
    var m := t.nodes[f.node];
    DueReads(src, t, offset, f);
    OpenReads(src, span.start);
    assert Children(m, f.node, |t.nodes|);
    WithChildChildren(m, f, f.node, |t.nodes|);
    var n' := WithChild(m, f, |t.nodes|);
    GrowAligned(t, n, span, None, tree, f.node, n');
    var t' := Update(Append(t, n, span, None, tree), f.node, n');
    TakenHolds(m, t.trees, f, tree);
    OpenWaiting(src, t', Taken(f), ContOf(m, t.trees, f), g);
    OpenReading(src, t', span.end, g);
    GrowOpen(src, t, offset, stack, conts, n, span, tree, n', Taken(f), ContOf(m, t.trees, f), g);
  }

  lemma OpenReads(src: string, i: nat)
    requires i < |src|
    ensures src[i] == '[' ==> D.ParseValue(src, i) == D.ArrayFirst(src, i + 1)
    ensures src[i] == '{' ==> D.ParseValue(src, i) == D.ObjectFirst(src, i + 1)
  {
  }

  lemma OpenWaiting(src: string, t: Table, f: Frame, c: Cont, g: Frame)
    requires Aligned(t) && f.node < g.node < |t.nodes| && Children(t.nodes[f.node], f.node, g.node + 1)
    requires t.starts[f.node] <= |src| && t.starts[g.node] <= |src|
    requires f.state == (if c.ArrayCont? then ArrayComma else ObjectComma)
    requires Holds(t.nodes[f.node], t.trees, c, g.node)
    requires D.ParseValue(src, t.starts[f.node]) == Resume(src, c, D.ParseValue(src, t.starts[g.node]))
    ensures Waiting(src, t, f, c, g.node)
  {
  }

  lemma OpenReading(src: string, t: Table, offset: nat, g: Frame)
    requires Aligned(t) && g.node < |t.nodes| && offset <= |src| && t.starts[g.node] <= |src|
    requires (g.state == FirstArray && t.nodes[g.node] == Array([])
              && D.ParseValue(src, t.starts[g.node]) == D.ArrayFirst(src, offset)) ||
             (g.state == FirstObject && t.nodes[g.node] == Object([])
              && D.ParseValue(src, t.starts[g.node]) == D.ObjectFirst(src, offset))
    ensures Reading(src, t, offset, g)
  {
  }

  /** A failure inside any open container is a failure of the outermost one. */
  lemma {:induction false} FailsOut(src: string, t: Table, offset: nat, stack: seq<Frame>, conts: seq<Cont>, k: nat)
    requires Inv(src, t, offset, stack, conts) && k < |stack|
    requires t.starts[stack[k].node] <= |src| && D.ParseValue(src, t.starts[stack[k].node]) == D.Fail
    ensures t.starts[stack[0].node] <= |src| && D.ParseValue(src, t.starts[stack[0].node]) == D.Fail
    decreases k
  {
    hide Reading, D.ParseValue, Done, Finished;
    if k > 0 {
      assert Waiting(src, t, stack[k - 1], conts[k - 1], stack[k].node);
      FailsOut(src, t, offset, stack, conts, k - 1);
    }
  }

  // ----- when everything is finished -----

  lemma {:induction false} TreesAreTrees(src: string, t: Table, id: nat)
    requires Aligned(t) && id < |t.nodes|
    requires forall k :: 0 <= k < |t.nodes| ==> Done(src, t, k)
    ensures TreeOf(t.nodes, t.exact, id) == t.trees[id]
    decreases |t.nodes| - id
  {
    assert Done(src, t, id);
    match t.nodes[id]
    case Primitive(_) =>
    case String(_) =>
    case Array(items) =>
      forall k | 0 <= k < |items| ensures TreeOf(t.nodes, t.exact, items[k]) == t.trees[items[k]] {
        TreesAreTrees(src, t, items[k]);
      }
      assert TreeOf(t.nodes, t.exact, id).items == Kids(items, t.trees);
    case Object(fields) =>
      forall k | 0 <= k < |fields| ensures TreeOf(t.nodes, t.exact, fields[k].node) == t.trees[fields[k].node] {
        TreesAreTrees(src, t, fields[k].node);
      }
      assert TreeOf(t.nodes, t.exact, id).fields == KidFields(fields, t.trees);
  }
}
