/** The pointer index and the walk. */
module PointerIndex {
  // The pointer index kept beside the node table, and the segment-by-segment walk it must agree
  // with: `node_id_at`.  A path is tainted while an ill-formed key on it is recorded in
  // `exact_keys`; on every untainted path the index and the walk agree after every step.

  import opened Utf16
  import opened JsonValue
  import opened JsonPointer
  import opened DecimalText
  import opened FlatTable
  import P = Payload

  type Path = seq<string>

  /** The field a segment names: the first entry with exactly those code units. */
  function FindField(fields: seq<Entry>, units: seq<Unit>): Option<nat> {
    if fields == [] then None
    else if fields[0].units == units then Some(fields[0].node)
    else FindField(fields[1..], units)
  }

  function Child(n: FlatNode, segment: string): Option<nat> {
    match n
    case Primitive(_) => None
    case String(_) => None
    case Object(fields) => FindField(fields, Encode(segment))
    case Array(items) =>
      match ParseIndex(segment)
      case None => None
      case Some(k) => if k < |items| then Some(items[k]) else None
  }

  lemma {:induction false} FoundIsChild(fields: seq<Entry>, units: seq<Unit>) returns (k: nat)
    requires FindField(fields, units).Some?
    ensures k < |fields| && fields[k].units == units && fields[k].node == FindField(fields, units).value
    decreases |fields|
  {
    if fields[0].units == units {
      k := 0;
    } else {
      var j := FoundIsChild(fields[1..], units);
      k := j + 1;
    }
  }

  lemma ChildInRange(n: FlatNode, segment: string, lo: int, hi: int)
    requires Children(n, lo, hi) && Child(n, segment).Some?
    ensures lo < Child(n, segment).value < hi
  {
    if n.Object? {
      var k := FoundIsChild(n.fields, Encode(segment));
    }
  }

  ghost predicate Acyclic(nodes: seq<FlatNode>) {
    forall id :: 0 <= id < |nodes| ==> Children(nodes[id], id, |nodes|)
  }

  /** The walk of the slow path, from node `id`. */
  function Walk(nodes: seq<FlatNode>, id: nat, path: Path): (r: Option<nat>)
    requires id < |nodes| && Acyclic(nodes)
    ensures r.Some? ==> r.value < |nodes|
    decreases |path|
  {
    if path == [] then Some(id)
    else
      assert Children(nodes[id], id, |nodes|);
      match Child(nodes[id], path[0])
      case None => None
      case Some(c) =>
        ChildInRange(nodes[id], path[0], id, |nodes|);
        Walk(nodes, c, path[1..])
  }

  /** The value at a path of a tree: fields by exact key units, items by canonical index. */
  function AtPath(j: Json, path: Path): Option<Json>
    decreases |path|
  {
    if path == [] then Some(j)
    else match j
    case Obj(fields) =>
      var child :- P.Find(fields, Encode(path[0]));
      AtPath(child, path[1..])
    case Arr(items) =>
      var k :- ParseIndex(path[0]);
      if k < |items| then AtPath(items[k], path[1..]) else None
    case _ => None
  }

  lemma {:induction false} FindsField(entries: seq<Entry>, fields: seq<Field>, units: seq<Unit>)
    requires |entries| == |fields| && forall k :: 0 <= k < |fields| ==> fields[k].key == entries[k].units
    ensures FindField(entries, units).Some? <==> P.Find(fields, units).Some?
    ensures FindField(entries, units).Some? ==>
              exists k :: 0 <= k < |fields| && entries[k].node == FindField(entries, units).value && fields[k].value == P.Find(fields, units).value
    decreases |fields|
  {
    if fields != [] && fields[0].key != units {
      FindsField(entries[1..], fields[1..], units);
      if FindField(entries, units).Some? {
        var k :| 0 <= k < |fields[1..]| && entries[1..][k].node == FindField(entries, units).value && fields[1..][k].value == P.Find(fields, units).value;
        assert entries[k + 1].node == FindField(entries, units).value;
      }
    }
  }

  /** The walk over the table finds the node of the value the path leads to in the tree. */
  lemma {:induction false} WalkIsTree(nodes: seq<FlatNode>, exact: map<nat, seq<Unit>>, id: nat, path: Path)
    requires id < |nodes| && Acyclic(nodes)
    ensures var w := Walk(nodes, id, path);
            AtPath(TreeOf(nodes, exact, id), path) == if w.Some? then Some(TreeOf(nodes, exact, w.value)) else None
    decreases |path|
  {
    hide Encode, ParseIndex;
    if path != [] {
      assert Children(nodes[id], id, |nodes|);
      var j := TreeOf(nodes, exact, id);
      if nodes[id].Object? { FindsField(nodes[id].fields, j.fields, Encode(path[0])); }
      var c := Child(nodes[id], path[0]);
      if c.Some? {
        ChildInRange(nodes[id], path[0], id, |nodes|);
        WalkIsTree(nodes, exact, c.value, path[1..]);
      }
    }
  }

  function Lookup(index: map<string, nat>, path: Path): Option<nat> {
    if Pointer(path) in index then Some(index[Pointer(path)]) else None
  }

  // ----- the invariant -----

  /** Each child's path continues its parent's by the child's display key or index. */
  ghost predicate Linked(n: FlatNode, path: Path, paths: seq<Path>) {
    match n
    case Primitive(_) => true
    case String(_) => true
    case Array(items) =>
      forall k :: 0 <= k < |items| ==> items[k] < |paths| && paths[items[k]] == path + [ToText(k)]
    case Object(fields) =>
      forall k :: 0 <= k < |fields| ==>
        fields[k].node < |paths| && paths[fields[k].node] == path + [Display(fields[k].units)]
  }

  ghost predicate Labelled(nodes: seq<FlatNode>, paths: seq<Path>) {
    && Acyclic(nodes) && |paths| == |nodes| > 0 && paths[0] == []
    && forall id :: 0 <= id < |nodes| ==> Linked(nodes[id], paths[id], paths)
  }

  ghost predicate Tainted(exactKeys: map<string, seq<Unit>>, path: Path) {
    exists k :: 0 <= k <= |path| && Pointer(path[..k]) in exactKeys
  }

  ghost predicate AgreesOn(nodes: seq<FlatNode>, index: map<string, nat>, exactKeys: map<string, seq<Unit>>, path: Path)
    requires Acyclic(nodes) && |nodes| > 0
  {
    Tainted(exactKeys, path) || Lookup(index, path) == Walk(nodes, 0, path)
  }

  ghost predicate Agrees(nodes: seq<FlatNode>, index: map<string, nat>, exactKeys: map<string, seq<Unit>>)
    requires Acyclic(nodes) && |nodes| > 0
  {
    forall path :: AgreesOn(nodes, index, exactKeys, path)
  }

  /** The innermost container is reachable at its own path, unless that path is tainted. */
  ghost predicate Reached(nodes: seq<FlatNode>, exactKeys: map<string, seq<Unit>>, path: Path, id: nat)
    requires Acyclic(nodes) && |nodes| > 0
  {
    Tainted(exactKeys, path) || Walk(nodes, 0, path) == Some(id)
  }

  // ----- walking -----

  lemma ChildPath(nodes: seq<FlatNode>, paths: seq<Path>, id: nat, segment: string)
    requires Labelled(nodes, paths) && id < |nodes| && Child(nodes[id], segment).Some?
    ensures var c := Child(nodes[id], segment).value; c < |nodes| && paths[c] == paths[id] + [segment]
  {
    assert Children(nodes[id], id, |nodes|) && Linked(nodes[id], paths[id], paths);
    ChildInRange(nodes[id], segment, id, |nodes|);
    match nodes[id]
    case Object(fields) =>
      var k := FoundIsChild(fields, Encode(segment));
      EncodeDecode(segment);
      RepairProperties(Encode(segment));
    case Array(items) => IndexText(segment);
  }

  /** The walk reaches a node only along that node's own path. */
  lemma {:induction false} WalkPath(nodes: seq<FlatNode>, paths: seq<Path>, id: nat, path: Path)
    requires Labelled(nodes, paths) && id < |nodes| && Walk(nodes, id, path).Some?
    ensures paths[Walk(nodes, id, path).value] == paths[id] + path
    decreases |path|
  {
    hide Child, Linked, Children;
    if path == [] {
    } else {
      ChildPath(nodes, paths, id, path[0]);
      var c := Child(nodes[id], path[0]).value;
      WalkPath(nodes, paths, c, path[1..]);
      assert path == [path[0]] + path[1..];
      assert paths[id] + path == paths[id] + [path[0]] + path[1..];
    }
  }

  lemma {:induction false} WalkConcat(nodes: seq<FlatNode>, id: nat, p: Path, q: Path)
    requires id < |nodes| && Acyclic(nodes)
    ensures Walk(nodes, id, p + q) ==
            (match Walk(nodes, id, p)
             case None => None
             case Some(c) => Walk(nodes, c, q))
    decreases |p|
  {
    if p == [] {
      assert p + q == q;
    } else {
      assert (p + q)[1..] == p[1..] + q && (p + q)[0] == p[0];
      assert Children(nodes[id], id, |nodes|);
      if Child(nodes[id], p[0]).Some? {
        ChildInRange(nodes[id], p[0], id, |nodes|);
        WalkConcat(nodes, Child(nodes[id], p[0]).value, p[1..], q);
      }
    }
  }

  /** Nodes agree on every edge except, possibly, one: from `p` along `segment`. */
  ghost predicate OnlyEdge(nodes: seq<FlatNode>, nodes': seq<FlatNode>, p: nat, segment: string) {
    && |nodes| <= |nodes'| && p < |nodes|
    && (forall id, s :: 0 <= id < |nodes| && (id != p || s != segment) ==> Child(nodes[id], s) == Child(nodes'[id], s))
  }

  /** A walk that does not pass the changed edge is unchanged. */
  lemma {:induction false} WalkOutside(nodes: seq<FlatNode>, nodes': seq<FlatNode>, paths: seq<Path>, p: nat, segment: string,
                                       id: nat, path: Path)
    requires Labelled(nodes, paths) && Acyclic(nodes') && OnlyEdge(nodes, nodes', p, segment)
    requires id < |nodes| && !(paths[p] + [segment] <= paths[id] + path && |paths[id]| <= |paths[p]|)
    ensures Walk(nodes', id, path) == Walk(nodes, id, path)
    decreases |path|
  {
    if path == [] {
    } else {
      var s := path[0];
      assert paths[id] + path == paths[id] + [s] + path[1..];
      assert Child(nodes[id], s) == Child(nodes'[id], s);
      if Child(nodes[id], s).Some? {
        var c := Child(nodes[id], s).value;
        ChildPath(nodes, paths, id, s);
        assert paths[id] + path == paths[c] + path[1..];
        WalkOutside(nodes, nodes', paths, p, segment, c, path[1..]);
      }
    }
  }

  // ----- taint -----

  lemma TaintedPrefix(exactKeys: map<string, seq<Unit>>, p: Path, q: Path)
    requires p <= q && Tainted(exactKeys, p)
    ensures Tainted(exactKeys, q)
  {
    var k :| 0 <= k <= |p| && Pointer(p[..k]) in exactKeys;
    assert q[..k] == p[..k];
  }

  /** Removing the keys within `at` does not change the taint of a path that does not pass `at`. */
  lemma TaintOutside(exactKeys: map<string, seq<Unit>>, exactKeys': map<string, seq<Unit>>, at: Path, path: Path)
    requires !(at <= path)
    requires forall q: Path :: !(at <= q) ==> (Pointer(q) in exactKeys <==> Pointer(q) in exactKeys')
    ensures Tainted(exactKeys, path) <==> Tainted(exactKeys', path)
  {
    forall k | 0 <= k <= |path| ensures Pointer(path[..k]) in exactKeys <==> Pointer(path[..k]) in exactKeys' {
      assert !(at <= path[..k]);
    }
  }

  // ----- one step: a child is linked under `p` -----

  /** `clear_replaced_subtree` on one map */
  function Cleared<V>(m: map<string, V>, pointer: string): map<string, V> {
    map q | q in m && !Within(q, pointer) :: m[q]
  }

  lemma ClearedLookup(index: map<string, nat>, at: Path, path: Path)
    ensures Lookup(Cleared<nat>(index, Pointer(at)), path) == if at <= path then None else Lookup(index, path)
  {
    WithinIsPrefix(path, at);
  }

  /** The index after the step: cleared if a duplicate is replaced, then the child's entry. */
  function Indexed(index: map<string, nat>, duplicate: bool, at: Path, child: nat): map<string, nat> {
    (if duplicate then Cleared<nat>(index, Pointer(at)) else index)[Pointer(at) := child]
  }

  function Keyed(exactKeys: map<string, seq<Unit>>, duplicate: bool, at: Path, lone: Option<seq<Unit>>): map<string, seq<Unit>> {
    var kept := if duplicate then Cleared(exactKeys, Pointer(at)) else exactKeys;
    if lone.Some? then kept[Pointer(at) := lone.value] else kept
  }

  lemma IndexedLookup(index: map<string, nat>, duplicate: bool, at: Path, child: nat, path: Path)
    ensures Lookup(Indexed(index, duplicate, at, child), path) ==
            if path == at then Some(child)
            else if duplicate && at <= path then None
            else Lookup(index, path)
  {
    ClearedLookup(index, at, path);
    if path != at && Pointer(path) == Pointer(at) { PointerInjective(path, at); }
  }

  lemma KeyedKeys(exactKeys: map<string, seq<Unit>>, duplicate: bool, at: Path, lone: Option<seq<Unit>>, q: Path)
    ensures Pointer(q) in Keyed(exactKeys, duplicate, at, lone) <==>
            (q == at && lone.Some?) || (Pointer(q) in exactKeys && !(duplicate && at <= q))
  {
    WithinIsPrefix(q, at);
    if Pointer(q) == Pointer(at) { PointerInjective(q, at); }
  }

  /** What linking a fresh child under `p` does to the edges: a named child appears at `segment`,
      and an ill-formed key adds no named edge at all. */
  ghost predicate Step(nodes: seq<FlatNode>, nodes': seq<FlatNode>, p: nat, segment: string,
                       duplicate: bool, lone: Option<seq<Unit>>)
  {
    && |nodes'| == |nodes| + 1 && p < |nodes| && Acyclic(nodes) && Acyclic(nodes')
    && OnlyEdge(nodes, nodes', p, segment)
    && (forall s :: Child(nodes'[|nodes|], s) == None)
    && (lone.None? ==> Child(nodes'[p], segment) == Some(|nodes|))
    && (lone.None? && !duplicate ==> Child(nodes[p], segment) == None)
  }

  lemma StepAgrees(nodes: seq<FlatNode>, nodes': seq<FlatNode>, paths: seq<Path>, index: map<string, nat>,
                   exactKeys: map<string, seq<Unit>>, p: nat, segment: string, duplicate: bool, lone: Option<seq<Unit>>)
    requires Labelled(nodes, paths) && Step(nodes, nodes', p, segment, duplicate, lone)
    requires Agrees(nodes, index, exactKeys) && Reached(nodes, exactKeys, paths[p], p)
    ensures var at := paths[p] + [segment];
            Agrees(nodes', Indexed(index, duplicate, at, |nodes|), Keyed(exactKeys, duplicate, at, lone))
  {
    var at := paths[p] + [segment];
    var index', keys' := Indexed(index, duplicate, at, |nodes|), Keyed(exactKeys, duplicate, at, lone);
    forall q: Path
      ensures Pointer(q) in keys' <==> (q == at && lone.Some?) || (Pointer(q) in exactKeys && !(duplicate && at <= q))
    {
      KeyedKeys(exactKeys, duplicate, at, lone, q);
    }
    forall path ensures AgreesOn(nodes', index', keys', path) {
      assert AgreesOn(nodes, index, exactKeys, path);
      IndexedLookup(index, duplicate, at, |nodes|, path);
      if at <= path {
        StepInside(nodes, nodes', paths, index, exactKeys, keys', p, segment, duplicate, lone, path);
      } else {
        TaintOutside(exactKeys, keys', at, path);
        WalkOutside(nodes, nodes', paths, p, segment, 0, path);
      }
    }
  }

  /** Paths through the new edge: fresh nodes only. */
  lemma StepInside(nodes: seq<FlatNode>, nodes': seq<FlatNode>, paths: seq<Path>, index: map<string, nat>,
                   exactKeys: map<string, seq<Unit>>, keys': map<string, seq<Unit>>,
                   p: nat, segment: string, duplicate: bool, lone: Option<seq<Unit>>, path: Path)
    requires Labelled(nodes, paths) && Step(nodes, nodes', p, segment, duplicate, lone)
    requires AgreesOn(nodes, index, exactKeys, path) && Reached(nodes, exactKeys, paths[p], p)
    requires var at := paths[p] + [segment];
             && at <= path
             && forall q: Path ::
                  Pointer(q) in keys' <==> (q == at && lone.Some?) || (Pointer(q) in exactKeys && !(duplicate && at <= q))
    ensures Tainted(keys', path) ||
            (Walk(nodes', 0, path) == (if path == paths[p] + [segment] then Some(|nodes|) else None)
             && (!duplicate ==> Lookup(index, path) == None))
  {
    hide Child, Linked, Children, Pointer;
    var at := paths[p] + [segment];
    assert path[..|at|] == at;
    assert lone.Some? ==> Pointer(path[..|at|]) in keys';
    if !Tainted(keys', path) {
      TaintKept(exactKeys, keys', at, path);
      assert !Tainted(exactKeys, paths[p]);
      var rest := path[|at|..];
      assert path == paths[p] + ([segment] + rest);
      WalkOutside(nodes, nodes', paths, p, segment, 0, paths[p]);
      WalkConcat(nodes', 0, paths[p], [segment] + rest);
      WalkConcat(nodes, 0, paths[p], [segment] + rest);
      assert ([segment] + rest)[1..] == rest;
      if rest == [] { assert path == at; }
      if !duplicate { TaintSame(exactKeys, keys', at, path); }
    }
  }

  /** A taint on the way to the changed edge survives the step. */
  lemma TaintKept(exactKeys: map<string, seq<Unit>>, keys': map<string, seq<Unit>>, at: Path, path: Path)
    requires at != [] && at <= path && !Tainted(keys', path)
    requires forall q: Path :: !(at <= q) && Pointer(q) in exactKeys ==> Pointer(q) in keys'
    ensures !Tainted(exactKeys, at[..|at| - 1])
  {
    var p := at[..|at| - 1];
    forall k | 0 <= k <= |p| ensures Pointer(p[..k]) !in exactKeys {
      assert path[..k] == p[..k] && !(at <= p[..k]);
      assert Pointer(path[..k]) !in keys';
    }
  }

  lemma TaintSame(exactKeys: map<string, seq<Unit>>, keys': map<string, seq<Unit>>, at: Path, path: Path)
    requires !Tainted(keys', path)
    requires forall q: Path :: Pointer(q) in exactKeys ==> Pointer(q) in keys'
    ensures !Tainted(exactKeys, path)
  {
    forall k | 0 <= k <= |path| ensures Pointer(path[..k]) !in exactKeys {
      assert Pointer(path[..k]) !in keys';
    }
  }

  /** A frame stays reachable at its path: the step only touches paths beyond `p`'s. */
  lemma StepReached(nodes: seq<FlatNode>, nodes': seq<FlatNode>, paths: seq<Path>, exactKeys: map<string, seq<Unit>>,
                    p: nat, segment: string, duplicate: bool, lone: Option<seq<Unit>>, id: nat)
    requires Labelled(nodes, paths) && Step(nodes, nodes', p, segment, duplicate, lone)
    requires id < |nodes| && |paths[id]| <= |paths[p]| && Reached(nodes, exactKeys, paths[id], id)
    ensures Reached(nodes', Keyed(exactKeys, duplicate, paths[p] + [segment], lone), paths[id], id)
  {
    var at := paths[p] + [segment];
    forall q: Path | !(at <= q)
      ensures Pointer(q) in exactKeys <==> Pointer(q) in Keyed(exactKeys, duplicate, at, lone)
    {
      KeyedKeys(exactKeys, duplicate, at, lone, q);
    }
    TaintOutside(exactKeys, Keyed(exactKeys, duplicate, at, lone), at, paths[id]);
    WalkOutside(nodes, nodes', paths, p, segment, 0, paths[id]);
  }

  /** The new child is reachable at its own path, unless an ill-formed key taints it. */
  lemma StepReachesChild(nodes: seq<FlatNode>, nodes': seq<FlatNode>, paths: seq<Path>, exactKeys: map<string, seq<Unit>>,
                         p: nat, segment: string, duplicate: bool, lone: Option<seq<Unit>>)
    requires Labelled(nodes, paths) && Step(nodes, nodes', p, segment, duplicate, lone)
    requires Reached(nodes, exactKeys, paths[p], p)
    ensures Reached(nodes', Keyed(exactKeys, duplicate, paths[p] + [segment], lone), paths[p] + [segment], |nodes|)
  {
    var at := paths[p] + [segment];
    var keys' := Keyed(exactKeys, duplicate, at, lone);
    StepReached(nodes, nodes', paths, exactKeys, p, segment, duplicate, lone, p);
    if lone.Some? {
      KeyedKeys(exactKeys, duplicate, at, lone, at);
      assert at[..|at|] == at;
      assert Tainted(keys', at);
    } else if Tainted(keys', paths[p]) {
      TaintedPrefix(keys', paths[p], at);
    } else {
      WalkConcat(nodes', 0, paths[p], [segment]);
      assert Walk(nodes', p, [segment]) == Walk(nodes', |nodes|, [segment][1..]);
    }
  }

  // ----- the two kinds of step -----

  lemma ArrayStep(nodes: seq<FlatNode>, p: nat, n: FlatNode)
    requires Acyclic(nodes) && p < |nodes| && nodes[p].Array?
    requires n.Primitive? || n.String? || n == Array([]) || n == Object([])
    ensures var nodes' := (nodes + [n])[p := Array(nodes[p].items + [|nodes|])];
            Step(nodes, nodes', p, ToText(|nodes[p].items|), false, None)
  {
    var items := nodes[p].items;
    var nodes' := (nodes + [n])[p := Array(items + [|nodes|])];
    var segment := ToText(|items|);
    IndexOfText(|items|);
    forall id | 0 <= id < |nodes'| ensures Children(nodes'[id], id, |nodes'|) {
      if id < |nodes| { assert Children(nodes[id], id, |nodes|); }
    }
    forall id, s | 0 <= id < |nodes| && (id != p || s != segment) ensures Child(nodes[id], s) == Child(nodes'[id], s) {
      if id == p { IndexText(s); }
    }
  }

  lemma {:induction false} FindAfterSet(fields: seq<Entry>, key: Key, node: nat, units: seq<Unit>)
    ensures FindField(SetField(fields, key, node), units) ==
            if units == key.units then Some(node) else FindField(fields, units)
    decreases |fields|
  {
    if fields != [] {
      var r := SetField(fields, key, node);
      if fields[0].units == key.units {
        assert r[1..] == fields[1..];
      } else {
        FindAfterSet(fields[1..], key, node, units);
        assert r[1..] == SetField(fields[1..], key, node);
      }
    }
  }

  /** `fields.iter().any(..)`: the key is already there. */
  predicate HasUnits(fields: seq<Entry>, units: seq<Unit>) {
    exists k :: 0 <= k < |fields| && fields[k].units == units
  }

  lemma {:induction false} FindAbsent(fields: seq<Entry>, units: seq<Unit>)
    requires !HasUnits(fields, units)
    ensures FindField(fields, units) == None
    decreases |fields|
  {
    if fields != [] {
      assert fields[0].units != units;
      assert forall k :: 0 <= k < |fields[1..]| ==> fields[1..][k] == fields[k + 1];
      FindAbsent(fields[1..], units);
    }
  }

  lemma ObjectStep(nodes: seq<FlatNode>, p: nat, n: FlatNode, key: Key)
    requires Acyclic(nodes) && p < |nodes| && nodes[p].Object?
    requires n.Primitive? || n.String? || n == Array([]) || n == Object([])
    requires key.display == Display(key.units)
    ensures var fields := nodes[p].fields;
            var nodes' := (nodes + [n])[p := Object(SetField(fields, key, |nodes|))];
            Step(nodes, nodes', p, key.display, HasUnits(fields, key.units),
                 if WellFormed(key.units) then None else Some(key.units))
  {
    var fields := nodes[p].fields;
    var nodes' := (nodes + [n])[p := Object(SetField(fields, key, |nodes|))];
    var segment := key.display;
    DisplayUnits(key.units);
    assert Children(nodes[p], p, |nodes|);
    SetFieldChildren(fields, key, |nodes|, p);
    forall id | 0 <= id < |nodes'| ensures Children(nodes'[id], id, |nodes'|) {
      if id < |nodes| { assert Children(nodes[id], id, |nodes|); }
    }
    forall id, s | 0 <= id < |nodes| && (id != p || s != segment) ensures Child(nodes[id], s) == Child(nodes'[id], s) {
      if id == p {
        FindAfterSet(fields, key, |nodes|, Encode(s));
        EncodeDecode(s);
        if Encode(s) == key.units { EncodeInjective(s, segment); }
      }
    }
    FindAfterSet(fields, key, |nodes|, Encode(segment));
    if !HasUnits(fields, key.units) && WellFormed(key.units) { FindAbsent(fields, key.units); }
  }

  // ----- labels -----

  lemma LinkedFrame(n: FlatNode, path: Path, paths: seq<Path>, paths': seq<Path>)
    requires Linked(n, path, paths) && paths <= paths'
    ensures Linked(n, path, paths')
  {
  }

  lemma LabelItem(nodes: seq<FlatNode>, paths: seq<Path>, p: nat, n: FlatNode)
    requires Labelled(nodes, paths) && p < |nodes| && nodes[p].Array?
    requires n.Primitive? || n.String? || n == Array([]) || n == Object([])
    ensures var items := nodes[p].items;
            Labelled((nodes + [n])[p := Array(items + [|nodes|])], paths + [paths[p] + [ToText(|items|)]])
  {
    var items := nodes[p].items;
    var nodes' := (nodes + [n])[p := Array(items + [|nodes|])];
    var paths' := paths + [paths[p] + [ToText(|items|)]];
    ArrayStep(nodes, p, n);
    forall id | 0 <= id < |nodes'| ensures Linked(nodes'[id], paths'[id], paths') {
      if id < |nodes| { assert Linked(nodes[id], paths[id], paths); LinkedFrame(nodes[id], paths[id], paths, paths'); }
    }
  }

  lemma {:induction false} LinkedSet(fields: seq<Entry>, path: Path, paths: seq<Path>, key: Key, node: nat)
    requires Linked(Object(fields), path, paths) && node < |paths| && paths[node] == path + [Display(key.units)]
    ensures Linked(Object(SetField(fields, key, node)), path, paths)
    decreases |fields|
  {
    if fields != [] && fields[0].units != key.units {
      assert Linked(Object(fields[1..]), path, paths);
      LinkedSet(fields[1..], path, paths, key, node);
    }
  }

  lemma LabelField(nodes: seq<FlatNode>, paths: seq<Path>, p: nat, n: FlatNode, key: Key)
    requires Labelled(nodes, paths) && p < |nodes| && nodes[p].Object?
    requires n.Primitive? || n.String? || n == Array([]) || n == Object([])
    requires key.display == Display(key.units)
    ensures var fields := nodes[p].fields;
            Labelled((nodes + [n])[p := Object(SetField(fields, key, |nodes|))], paths + [paths[p] + [key.display]])
  {
    var fields := nodes[p].fields;
    var nodes' := (nodes + [n])[p := Object(SetField(fields, key, |nodes|))];
    var paths' := paths + [paths[p] + [key.display]];
    ObjectStep(nodes, p, n, key);
    forall id | 0 <= id < |nodes'| ensures Linked(nodes'[id], paths'[id], paths') {
      if id < |nodes| {
        assert Linked(nodes[id], paths[id], paths);
        LinkedFrame(nodes[id], paths[id], paths, paths');
        if id == p { LinkedSet(fields, paths[p], paths', key, |nodes|); }
      }
    }
  }

  // ----- the whole pointer state of the parser -----

  /** Frame `k` sits at depth `k`, is reachable there, and only the outermost has no path component. */
  ghost predicate FrameAt(nodes: seq<FlatNode>, paths: seq<Path>, exactKeys: map<string, seq<Unit>>, f: Frame, k: nat)
    requires Labelled(nodes, paths)
  {
    && f.node < |nodes| && |paths[f.node]| == k && (f.component.Some? <==> k > 0)
    && Reached(nodes, exactKeys, paths[f.node], f.node)
  }

  /** The saved length is the outer frame's path, which the inner one continues. */
  ghost predicate Above(paths: seq<Path>, f: Frame, g: Frame, offset: nat) {
    && f.node < |paths| && g.node < |paths|
    && paths[f.node] <= paths[g.node] && offset == |Pointer(paths[f.node])|
  }

  ghost predicate Frames(nodes: seq<FlatNode>, paths: seq<Path>, exactKeys: map<string, seq<Unit>>, stack: seq<Frame>, pathOffsets: seq<nat>)
    requires Labelled(nodes, paths)
  {
    && |stack| > 0 && |pathOffsets| == |stack| - 1
    && (forall k :: 0 <= k < |stack| ==> FrameAt(nodes, paths, exactKeys, stack[k], k))
    && (forall k :: 0 <= k < |pathOffsets| ==> Above(paths, stack[k], stack[k + 1], pathOffsets[k]))
  }

  ghost predicate Places(nodes: seq<FlatNode>, paths: seq<Path>, pointers: seq<string>, index: map<string, nat>,
                         exactKeys: map<string, seq<Unit>>, stack: seq<Frame>, currentPath: string, pathOffsets: seq<nat>)
  {
    && Labelled(nodes, paths) && |pointers| == |nodes|
    && (forall id :: 0 <= id < |nodes| ==> pointers[id] == Pointer(paths[id]))
    && Agrees(nodes, index, exactKeys)
    && Frames(nodes, paths, exactKeys, stack, pathOffsets)
    && stack[|stack| - 1].node < |nodes|
    && currentPath == Pointer(paths[stack[|stack| - 1].node])
  }

  /** The segment, duplicate flag and ill-formed key a container's next child comes with. */
  function SegmentOf(n: FlatNode, f: Frame): string
    requires n.Array? || (n.Object? && f.key.Some?)
  {
    if n.Array? then ToText(|n.items|) else f.key.value.display
  }

  predicate Duplicate(n: FlatNode, f: Frame)
    requires n.Array? || (n.Object? && f.key.Some?)
  {
    n.Object? && HasUnits(n.fields, f.key.value.units)
  }

  function LoneOf(n: FlatNode, f: Frame): Option<seq<Unit>>
    requires n.Array? || (n.Object? && f.key.Some?)
  {
    if n.Array? || WellFormed(f.key.value.units) then None else Some(f.key.value.units)
  }

  predicate Fresh(n: FlatNode) { n.Primitive? || n.String? || n == Array([]) || n == Object([]) }

  lemma ChildStep(nodes: seq<FlatNode>, paths: seq<Path>, f: Frame, n: FlatNode)
    requires Labelled(nodes, paths) && f.node < |nodes| && Fresh(n)
    requires nodes[f.node].Array? || (nodes[f.node].Object? && f.key.Some? && f.key.value.display == Display(f.key.value.units))
    ensures var m := nodes[f.node];
            var nodes' := (nodes + [n])[f.node := WithChild(m, f, |nodes|)];
            && Step(nodes, nodes', f.node, SegmentOf(m, f), Duplicate(m, f), LoneOf(m, f))
            && Labelled(nodes', paths + [paths[f.node] + [SegmentOf(m, f)]])
  {
    if nodes[f.node].Array? {
      ArrayStep(nodes, f.node, n);
      LabelItem(nodes, paths, f.node, n);
    } else {
      ObjectStep(nodes, f.node, n, f.key.value);
      LabelField(nodes, paths, f.node, n, f.key.value);
    }
  }

  /** Everything the pointer state keeps when the innermost container takes a fresh child. */
  lemma PlaceChild(nodes: seq<FlatNode>, paths: seq<Path>, pointers: seq<string>, index: map<string, nat>,
                   exactKeys: map<string, seq<Unit>>, stack: seq<Frame>, currentPath: string, pathOffsets: seq<nat>,
                   n: FlatNode, f': Frame)
    requires Places(nodes, paths, pointers, index, exactKeys, stack, currentPath, pathOffsets) && Fresh(n)
    requires var f := stack[|stack| - 1];
             && (nodes[f.node].Array? || (nodes[f.node].Object? && f.key.Some? && f.key.value.display == Display(f.key.value.units)))
             && f'.node == f.node && f'.component == f.component
    ensures var f := stack[|stack| - 1];
            var m := nodes[f.node];
            var at := paths[f.node] + [SegmentOf(m, f)];
            var nodes' := (nodes + [n])[f.node := WithChild(m, f, |nodes|)];
            var keys' := Keyed(exactKeys, Duplicate(m, f), at, LoneOf(m, f));
            && Places(nodes', paths + [at], pointers + [Pointer(at)], Indexed(index, Duplicate(m, f), at, |nodes|),
                      keys', SetTop(stack, f'), currentPath, pathOffsets)
            && Reached(nodes', keys', at, |nodes|)
  {
    var f := stack[|stack| - 1];
    var m := nodes[f.node];
    var p := f.node;
    var at := paths[p] + [SegmentOf(m, f)];
    var nodes' := (nodes + [n])[p := WithChild(m, f, |nodes|)];
    var keys' := Keyed(exactKeys, Duplicate(m, f), at, LoneOf(m, f));
    ChildStep(nodes, paths, f, n);
    hide Linked, Step, Walk, Tainted, Keyed, Indexed, Cleared, Pointer, WithChild, Lookup, Agrees, Reached, SegmentOf, Duplicate, LoneOf;
    assert FrameAt(nodes, paths, exactKeys, f, |stack| - 1);
    StepAgrees(nodes, nodes', paths, index, exactKeys, p, SegmentOf(m, f), Duplicate(m, f), LoneOf(m, f));
    StepReachesChild(nodes, nodes', paths, exactKeys, p, SegmentOf(m, f), Duplicate(m, f), LoneOf(m, f));
    FramesStep(nodes, nodes', paths, exactKeys, stack, pathOffsets, f', SegmentOf(m, f), Duplicate(m, f), LoneOf(m, f));
  }

  lemma FramesStep(nodes: seq<FlatNode>, nodes': seq<FlatNode>, paths: seq<Path>, exactKeys: map<string, seq<Unit>>,
                   stack: seq<Frame>, pathOffsets: seq<nat>, f': Frame, segment: string, duplicate: bool, lone: Option<seq<Unit>>)
    requires Labelled(nodes, paths) && Frames(nodes, paths, exactKeys, stack, pathOffsets)
    requires var f := stack[|stack| - 1]; f'.node == f.node && f'.component == f.component
    requires Step(nodes, nodes', f'.node, segment, duplicate, lone)
    requires Labelled(nodes', paths + [paths[f'.node] + [segment]])
    ensures var at := paths[f'.node] + [segment];
            Frames(nodes', paths + [at], Keyed(exactKeys, duplicate, at, lone), SetTop(stack, f'), pathOffsets)
  {
    hide Linked, Step, Walk, Tainted, Keyed, Pointer, Reached;
    var at := paths[f'.node] + [segment];
    var stack', paths' := SetTop(stack, f'), paths + [at];
    assert FrameAt(nodes, paths, exactKeys, stack[|stack| - 1], |stack| - 1);
    forall k | 0 <= k < |stack'| ensures FrameAt(nodes', paths', Keyed(exactKeys, duplicate, at, lone), stack'[k], k) {
      assert FrameAt(nodes, paths, exactKeys, stack[k], k);
      StepReached(nodes, nodes', paths, exactKeys, f'.node, segment, duplicate, lone, stack[k].node);
      assert |nodes'| == |nodes| + 1;
    }
    forall k | 0 <= k < |pathOffsets| ensures Above(paths', stack'[k], stack'[k + 1], pathOffsets[k]) {
      assert Above(paths, stack[k], stack[k + 1], pathOffsets[k]);
    }
  }

  /** A new frame on top of a child just placed. */
  lemma PlaceFrame(nodes: seq<FlatNode>, paths: seq<Path>, pointers: seq<string>, index: map<string, nat>,
                   exactKeys: map<string, seq<Unit>>, stack: seq<Frame>, currentPath: string, pathOffsets: seq<nat>, g: Frame)
    requires Places(nodes, paths, pointers, index, exactKeys, stack, currentPath, pathOffsets)
    requires g.node < |nodes| && g.component.Some? && |paths[g.node]| == |stack|
    requires paths[stack[|stack| - 1].node] <= paths[g.node] && Reached(nodes, exactKeys, paths[g.node], g.node)
    ensures Places(nodes, paths, pointers, index, exactKeys, stack + [g], Pointer(paths[g.node]), pathOffsets + [|currentPath|])
  {
    hide Linked, Walk, Tainted, Pointer, Lookup, Agrees, Reached;
    var stack', offsets' := stack + [g], pathOffsets + [|currentPath|];
    forall k | 0 <= k < |stack'| ensures FrameAt(nodes, paths, exactKeys, stack'[k], k) {
      if k < |stack| { assert FrameAt(nodes, paths, exactKeys, stack[k], k); }
    }
    forall k | 0 <= k < |offsets'| ensures Above(paths, stack'[k], stack'[k + 1], offsets'[k]) {
      if k < |pathOffsets| { assert Above(paths, stack[k], stack[k + 1], pathOffsets[k]); }
      else { assert FrameAt(nodes, paths, exactKeys, stack[k], k); }
    }
  }

  lemma PointerPrefix(p: Path, q: Path)
    requires p <= q
    ensures |Pointer(p)| <= |Pointer(q)| && Pointer(q)[..|Pointer(p)|] == Pointer(p)
  {
    assert q == p + q[|p|..];
    PointerConcat(p, q[|p|..]);
  }

  /** Leaving the innermost frame restores its parent's path. */
  lemma PlacePop(nodes: seq<FlatNode>, paths: seq<Path>, pointers: seq<string>, index: map<string, nat>,
                 exactKeys: map<string, seq<Unit>>, stack: seq<Frame>, currentPath: string, pathOffsets: seq<nat>)
    requires Places(nodes, paths, pointers, index, exactKeys, stack, currentPath, pathOffsets) && |stack| > 1
    ensures var off := pathOffsets[|pathOffsets| - 1];
            && off <= |currentPath|
            && Places(nodes, paths, pointers, index, exactKeys, stack[..|stack| - 1], currentPath[..off], pathOffsets[..|pathOffsets| - 1])
  {
    var n := |stack| - 1;
    assert Above(paths, stack[n - 1], stack[n], pathOffsets[n - 1]);
    hide Linked, Walk, Tainted, Pointer, Lookup, Agrees, Reached;
    PointerPrefix(paths[stack[n - 1].node], paths[stack[n].node]);
    var stack', offsets' := stack[..n], pathOffsets[..n - 1];
    forall k | 0 <= k < |stack'| ensures FrameAt(nodes, paths, exactKeys, stack'[k], k) {
      assert FrameAt(nodes, paths, exactKeys, stack[k], k);
    }
    forall k | 0 <= k < |offsets'| ensures Above(paths, stack'[k], stack'[k + 1], offsets'[k]) {
      assert Above(paths, stack[k], stack[k + 1], pathOffsets[k]);
    }
  }

  /** With no ill-formed key on record the index answers every pointer as the walk does. */
  lemma IndexIsWalk(nodes: seq<FlatNode>, index: map<string, nat>, path: Path)
    requires Acyclic(nodes) && |nodes| > 0 && Agrees(nodes, index, map[])
    ensures Lookup(index, path) == Walk(nodes, 0, path)
  {
    assert AgreesOn(nodes, index, map[], path);
  }
}
