/** Source spans of the flat table nest like their nodes. */
module SpanNesting {
  // Source spans of the flat table: they are laminar, children lie inside their parent, and siblings
  // are disjoint and in source order.

  import opened Utf16
  import opened JsonValue
  import opened FlatTable

  ghost predicate Shut(t: Table, stack: seq<Frame>, id: nat) { id < |t.nodes| && !Open(stack, id) }

  /** Every finished node's span is non-empty and ends where reading has got to at most. */
  ghost predicate Ends(t: Table, offset: nat, stack: seq<Frame>)
    requires Aligned(t)
  {
    && (forall a: nat :: a < |t.nodes| ==> t.starts[a] < offset)
    && (forall a: nat :: Shut(t, stack, a) ==> t.spans[a].start == t.starts[a] < t.spans[a].end <= offset)
  }

  /** A later node lies after an earlier finished one, or inside it. */
  ghost predicate Laminar(t: Table, stack: seq<Frame>)
    requires Aligned(t)
  {
    && (forall a: nat, b: nat :: a < b < |t.nodes| ==> t.starts[a] < t.starts[b])
    && (forall a: nat, b: nat :: a < b < |t.nodes| && Shut(t, stack, a) ==>
         t.spans[a].end <= t.starts[b] || (Shut(t, stack, b) && t.spans[b].end <= t.spans[a].end))
  }

  ghost predicate Sibling(t: Table, stack: seq<Frame>, p: nat, c: nat, d: nat)
    requires Aligned(t)
  {
    p < |t.nodes| && c < d && IsChild(t.nodes[p], c) && IsChild(t.nodes[p], d) ==>
      Shut(t, stack, c) && d < |t.nodes| && t.spans[c].end <= t.starts[d]
  }

  /** Siblings are disjoint and in source order. */
  ghost predicate Siblings(t: Table, stack: seq<Frame>)
    requires Aligned(t)
  {
    forall p: nat, c: nat, d: nat :: Sibling(t, stack, p, c, d)
  }

  ghost predicate InsideAt(t: Table, stack: seq<Frame>, p: nat, c: nat)
    requires Aligned(t)
  {
    Shut(t, stack, p) && IsChild(t.nodes[p], c) ==> Shut(t, stack, c) && t.spans[c].end <= t.spans[p].end
  }

  /** Children stay inside a finished parent. */
  ghost predicate Inside(t: Table, stack: seq<Frame>)
    requires Aligned(t)
  {
    forall p: nat, c: nat :: InsideAt(t, stack, p, c)
  }

  ghost predicate Nested(t: Table, offset: nat, stack: seq<Frame>) {
    Aligned(t) && Ends(t, offset, stack) && Laminar(t, stack) && Siblings(t, stack) && Inside(t, stack)
  }

  lemma ChildBounds(n: FlatNode, lo: int, hi: int, c: nat)
    requires Children(n, lo, hi) && IsChild(n, c)
    ensures lo < c < hi
  {
  }

  lemma NestedLater(t: Table, offset: nat, stack: seq<Frame>, offset': nat, stack': seq<Frame>)
    requires Nested(t, offset, stack) && offset <= offset'
    requires forall id: nat :: Open(stack, id) <==> Open(stack', id)
    ensures Nested(t, offset', stack')
  {
    assert forall id: nat :: Shut(t, stack, id) <==> Shut(t, stack', id);
    forall q: nat, c: nat, d: nat ensures Sibling(t, stack', q, c, d) { assert Sibling(t, stack, q, c, d); }
    forall q: nat, c: nat ensures InsideAt(t, stack', q, c) { assert InsideAt(t, stack, q, c); }
  }

  /** A node was added after everything read so far and linked under the innermost container `p`. */
  ghost predicate Grown(t: Table, offset: nat, stack: seq<Frame>, n: FlatNode, span: Span, p: nat, n': FlatNode, stack': seq<Frame>) {
    && Nested(t, offset, stack) && offset <= span.start < span.end
    && p < |t.nodes| && Open(stack, p) && (forall id: nat :: Open(stack, id) ==> id <= p)
    && (forall c: nat :: !IsChild(n, c)) && Children(n, |t.nodes|, |t.nodes| + 1)
    && Children(n', p, |t.nodes| + 1)
    && (forall c: nat :: IsChild(n', c) ==> c == |t.nodes| || IsChild(t.nodes[p], c))
    && (forall id: nat :: id < |t.nodes| ==> (Open(stack, id) <==> Open(stack', id)))
  }

  lemma NestedGrow(t: Table, offset: nat, stack: seq<Frame>, n: FlatNode, span: Span, exact: Option<seq<Unit>>, tree: Json,
                   p: nat, n': FlatNode, stack': seq<Frame>)
    requires Grown(t, offset, stack, n, span, p, n', stack')
    ensures Nested(Update(Append(t, n, span, exact, tree), p, n'), span.end, stack')
  {
    GrowAligned(t, n, span, exact, tree, p, n');
    var t' := Update(Append(t, n, span, exact, tree), p, n');
    assert forall id: nat :: id < |t.nodes| ==> (Shut(t, stack, id) <==> Shut(t', stack', id));
    assert Ends(t', span.end, stack') && Laminar(t', stack') by { hide Children, IsChild; }
    SiblingsGrow(t, offset, stack, n, span, exact, tree, p, n', stack');
    InsideGrow(t, offset, stack, n, span, exact, tree, p, n', stack');
  }

  lemma SiblingsGrow(t: Table, offset: nat, stack: seq<Frame>, n: FlatNode, span: Span, exact: Option<seq<Unit>>, tree: Json,
                     p: nat, n': FlatNode, stack': seq<Frame>)
    requires Grown(t, offset, stack, n, span, p, n', stack')
    requires Aligned(Update(Append(t, n, span, exact, tree), p, n'))
    ensures Siblings(Update(Append(t, n, span, exact, tree), p, n'), stack')
  {
    var t' := Update(Append(t, n, span, exact, tree), p, n');
    var id' := |t.nodes|;
    forall q: nat, c: nat, d: nat ensures Sibling(t', stack', q, c, d) {
      if q < |t'.nodes| && c < d && IsChild(t'.nodes[q], c) && IsChild(t'.nodes[q], d) {
        ChildBounds(t'.nodes[q], q, |t'.nodes|, c);
        ChildBounds(t'.nodes[q], q, |t'.nodes|, d);
        hide Children, IsChild, Laminar, Inside;
        assert Sibling(t, stack, q, c, d);
      }
    }
  }

  lemma InsideGrow(t: Table, offset: nat, stack: seq<Frame>, n: FlatNode, span: Span, exact: Option<seq<Unit>>, tree: Json,
                   p: nat, n': FlatNode, stack': seq<Frame>)
    requires Grown(t, offset, stack, n, span, p, n', stack')
    requires Aligned(Update(Append(t, n, span, exact, tree), p, n'))
    ensures Inside(Update(Append(t, n, span, exact, tree), p, n'), stack')
  {
    var t' := Update(Append(t, n, span, exact, tree), p, n');
    forall q: nat, c: nat ensures InsideAt(t', stack', q, c) {
      hide Children, Laminar, Siblings;
      assert InsideAt(t, stack, q, c);
    }
  }

  /** The innermost container `p` ends at `offset`. */
  lemma NestedClose(t: Table, offset: nat, stack: seq<Frame>, p: nat, tree: Json, stack': seq<Frame>, end: nat)
    requires Nested(t, offset, stack) && offset <= end
    requires p < |t.nodes| && Open(stack, p) && (forall id: nat :: Open(stack, id) ==> id <= p)
    requires forall id: nat :: Open(stack', id) <==> Open(stack, id) && id != p
    ensures Aligned(Close(t, p, end, tree)) && Nested(Close(t, p, end, tree), end, stack')
  {
    var t' := Close(t, p, end, tree);
    assert forall id: nat :: id != p ==> (Shut(t, stack, id) <==> Shut(t', stack', id));
    forall c: nat | IsChild(t.nodes[p], c) ensures p < c < |t.nodes| && Shut(t, stack, c) {
      ChildBounds(t.nodes[p], p, |t.nodes|, c);
    }
    assert Aligned(t');
    assert Ends(t', end, stack') && Laminar(t', stack') by { hide Children, IsChild, Siblings, Inside; }
    forall q: nat, c: nat, d: nat ensures Sibling(t', stack', q, c, d) {
      hide Children, IsChild, Laminar, Inside;
      assert Sibling(t, stack, q, c, d);
    }
    forall q: nat, c: nat ensures InsideAt(t', stack', q, c) {
      hide Children, IsChild, Laminar, Siblings;
      assert InsideAt(t, stack, q, c);
    }
  }

  // ----- the two events as the parser meets them -----

  lemma {:induction false} SetFieldIsChild(fields: seq<Entry>, key: Key, node: nat, c: nat)
    requires IsChild(Object(SetField(fields, key, node)), c) && c != node
    ensures IsChild(Object(fields), c)
    decreases |fields|
  {
    var r := SetField(fields, key, node);
    var k :| 0 <= k < |r| && r[k].node == c;
    if fields != [] {
      if fields[0].units == key.units {
        assert k > 0 && r[k] == fields[k];
      } else if k == 0 {
        assert fields[0].node == c;
      } else {
        assert r[k] == SetField(fields[1..], key, node)[k - 1];
        SetFieldIsChild(fields[1..], key, node, c);
        var j :| 0 <= j < |fields[1..]| && fields[1..][j].node == c;
        assert fields[j + 1].node == c;
      }
    }
  }

  lemma WithChildIsChild(n: FlatNode, f: Frame, node: nat, c: nat)
    requires IsChild(WithChild(n, f, node), c) && c != node
    ensures IsChild(n, c)
  {
    if n.Object? && f.key.Some? { SetFieldIsChild(n.fields, f.key.value, node, c); }
  }

  lemma TopIsLast(t: Table, stack: seq<Frame>)
    requires Increasing(t, stack) && |stack| > 0
    ensures var p := stack[|stack| - 1].node;
            p < |t.nodes| && Open(stack, p) && forall id: nat :: Open(stack, id) ==> id <= p
  {
    assert stack[|stack| - 1].node == stack[|stack| - 1].node;
  }

  /** The innermost container took a child, opened as the frame in `extra` or read whole. */
  lemma NestedTake(t: Table, offset: nat, stack: seq<Frame>, n: FlatNode, span: Span, exact: Option<seq<Unit>>, tree: Json,
                   f: Frame, extra: seq<Frame>)
    requires Nested(t, offset, stack) && |stack| > 0 && Increasing(t, stack) && offset <= span.start < span.end
    requires n.Primitive? || n.String? || n == Array([]) || n == Object([])
    requires f.node == stack[|stack| - 1].node
    requires extra == [] || (|extra| == 1 && extra[0].node == |t.nodes|)
    ensures var top := stack[|stack| - 1];
            var n' := WithChild(t.nodes[top.node], top, |t.nodes|);
            Nested(Update(Append(t, n, span, exact, tree), top.node, n'), span.end, SetTop(stack, f) + extra)
  {
    var top := stack[|stack| - 1];
    var p := top.node;
    var n' := WithChild(t.nodes[p], top, |t.nodes|);
    var stack' := SetTop(stack, f) + extra;
    TopIsLast(t, stack);
    assert Children(t.nodes[p], p, |t.nodes|);
    WithChildChildren(t.nodes[p], top, p, |t.nodes|);
    forall c: nat | IsChild(n', c) && c != |t.nodes| ensures IsChild(t.nodes[p], c) {
      WithChildIsChild(t.nodes[p], top, |t.nodes|, c);
    }
    forall id: nat | id < |t.nodes| ensures Open(stack, id) <==> Open(stack', id) {
      assert forall k :: 0 <= k < |stack| ==> stack'[k].node == stack[k].node;
      assert forall k :: |stack| <= k < |stack'| ==> stack'[k].node == |t.nodes|;
    }
    hide Children, IsChild, WithChild, Nested;
    assert (forall c: nat :: !IsChild(n, c)) && Children(n, |t.nodes|, |t.nodes| + 1) by { NoChildren(n, |t.nodes|); }
    NestedGrow(t, offset, stack, n, span, exact, tree, p, n', stack');
  }

  lemma NoChildren(n: FlatNode, hi: nat)
    requires n.Primitive? || n.String? || n == Array([]) || n == Object([])
    ensures (forall c: nat :: !IsChild(n, c)) && Children(n, hi, hi + 1)
  {
  }

  lemma NestedPop(t: Table, offset: nat, stack: seq<Frame>, tree: Json, end: nat)
    requires Nested(t, offset, stack) && |stack| > 0 && Increasing(t, stack) && offset <= end
    ensures Aligned(Close(t, stack[|stack| - 1].node, end, tree))
    ensures Nested(Close(t, stack[|stack| - 1].node, end, tree), end, stack[..|stack| - 1])
  {
    TopIsLast(t, stack);
    var stack' := stack[..|stack| - 1];
    var p := stack[|stack| - 1].node;
    assert forall k :: 0 <= k < |stack'| ==> stack'[k] == stack[k] && stack'[k].node < p;
    forall id: nat ensures Open(stack', id) <==> Open(stack, id) && id != p {
      if Open(stack, id) && id != p {
        var k :| 0 <= k < |stack| && stack[k].node == id;
        assert stack'[k].node == id;
      }
    }
    NestedClose(t, offset, stack, p, tree, stack', end);
  }
}
