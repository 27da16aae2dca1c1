/**
 What eager loading means: each requested edge is loaded by one query for all nodes together, and its
 result is distributed over the nodes by a plain nested loop. The hash joins of the code are proved
 equal to this in `EagerLoad`.
 */
module Loading {
  import opened Prelude
  import opened Rows
  import opened Queries

  /** A returned node. `requested` is `loadedTypes`: the edges the query asked for. */
  datatype Loaded = Loaded(row: Row, requested: set<string>, ones: map<string, Loaded>,
                           lists: map<string, seq<Loaded>>)

  /** The number of builders in a builder tree, for termination. */
  function Size(q: Query): nat
    decreases q, 0
  {
    1 + WithsSize(q.withs)
  }

  function WithsSize(withs: seq<With>): nat
    decreases withs, 0
  {
    if withs == [] then 0
    else
      assert withs[0] in withs;
      WithSize(withs[0]) + WithsSize(withs[1..])
  }

  function WithSize(w: With): nat
    decreases w, 0
  {
    Size(w.child)
  }

  function Names(withs: seq<With>): set<string> {
    set i | 0 <= i < |withs| :: withs[i].edge.name
  }

  function AppendOnce<T(==)>(s: seq<T>, x: T): seq<T> {
    if x in s then s else s + [x]
  }

  /** The foreign keys of the nodes without nil and without repetition, in order of first appearance. */
  function HeldIds(e: Edge, nodes: seq<Loaded>): seq<Uuid> {
    if nodes == [] then []
    else
      var prev := HeldIds(e, nodes[..|nodes| - 1]);
      match KeyOf(nodes[|nodes| - 1].row, e.column)
      case None => prev
      case Some(k) => AppendOnce(prev, k)
  }

  /** The keys that the query for an edge is restricted to. */
  function Keys(e: Edge, nodes: seq<Loaded>): seq<Uuid> {
    if e.kind.Held? then HeldIds(e, nodes)
    else seq(|nodes|, i requires 0 <= i < |nodes| => nodes[i].row.id)
  }

  /** The neighbour builder as the loader runs it: restricted to the keys, and with the foreign key selected. */
  function Narrow(e: Edge, child: Query, keys: seq<Uuid>): (r: Query)
    ensures r.withs == child.withs
  {
    if e.kind.Held? then child.(preds := child.preds + [(r: Row) => r.id in keys])
    else child.(preds := child.preds + [(r: Row) => KeyOf(r, e.column).Some? && KeyOf(r, e.column).value in keys],
                fields := if child.fields == [] then [] else AppendOnce(child.fields, e.column))
  }

  /** A neighbour whose key was not asked for is an error. */
  predicate Expected(e: Edge, keys: seq<Uuid>, n: Loaded) {
    var k := NeighbourKey(e, n.row);
    k.Some? && k.value in keys
  }

  function FirstUnexpected(e: Edge, keys: seq<Uuid>, ns: seq<Loaded>): Option<Error> {
    if ns == [] then None
    else if !Expected(e, keys, ns[0]) then
      var k := NeighbourKey(e, ns[0].row);
      Some(UnexpectedForeignKey(if k.Some? then k.value else NIL_UUID))
    else FirstUnexpected(e, keys, ns[1..])
  }

  /** The edge of node `r` leads to neighbour `n`. */
  predicate Linked(e: Edge, r: Row, n: Loaded) {
    NodeKey(e, r).Some? && NeighbourKey(e, n.row) == NodeKey(e, r)
  }

  /**
   Read off the rows: along a held edge the node names the neighbour's id, otherwise the neighbour names the
   node's; and the neighbours of a node are the linked ones, each as often as it came back.
   */
  lemma NeighboursIff(e: Edge, r: Row, ns: seq<Loaded>, n: Loaded)
    ensures multiset(Neighbours(e, r, ns))[n] ==
      if (if e.kind.Held? then KeyOf(r, e.column) == Some(n.row.id) else KeyOf(n.row, e.column) == Some(r.id))
      then multiset(ns)[n] else 0
  {
    FilterCounts(n => Linked(e, r, n), ns, n);
  }

  /** The neighbours of one node, in the order they came back. */
  function Neighbours(e: Edge, r: Row, ns: seq<Loaded>): seq<Loaded> {
    Filter(n => Linked(e, r, n), ns)
  }

  function Last<T>(s: seq<T>): Option<T> {
    if s == [] then None else Some(s[|s| - 1])
  }

  /** No later node has the same id. */
  predicate IsLast(nodes: seq<Loaded>, i: nat)
    requires i < |nodes|
  {
    forall j :: i < j < |nodes| ==> nodes[j].row.id != nodes[i].row.id
  }

  /**
   Node `i` with its edge filled in. The maps from ids to nodes that the code builds for `Many` and
   `Unique` keep one node per id, so of several nodes with the same id only the last is served.
   */
  function Attach(e: Edge, nodes: seq<Loaded>, i: nat, ns: seq<Loaded>): Loaded
    requires i < |nodes|
  {
    var node := nodes[i];
    var mine := Neighbours(e, node.row, ns);
    match e.kind
    case Many => node.(lists := node.lists[e.name := if IsLast(nodes, i) then mine else []])
    case Unique =>
      if IsLast(nodes, i) && mine != [] then node.(ones := node.ones[e.name := mine[|mine| - 1]]) else node
    case Held => if mine != [] then node.(ones := node.ones[e.name := mine[|mine| - 1]]) else node
  }

  function AttachAll(e: Edge, nodes: seq<Loaded>, ns: seq<Loaded>): (r: seq<Loaded>)
    ensures |r| == |nodes|
  {
    seq(|nodes|, i requires 0 <= i < |nodes| => Attach(e, nodes, i, ns))
  }

  /** A node as the row scanner leaves it. */
  function Scanned(rows: seq<Row>, requested: set<string>): (r: seq<Loaded>)
    ensures |r| == |rows|
  {
    seq(|rows|, i requires 0 <= i < |rows| => Loaded(rows[i], requested, map[], map[]))
  }

  /** `All` of a builder with eager edges. */
  function All(db: Database, q: Query): Result<seq<Loaded>>
    decreases Size(q), 0, 0
  {
    var nodes := Scanned(SpecRows(db, q), Names(q.withs));
    if nodes == [] then Success([]) else LoadAll(db, q.withs, nodes)
  }

  function LoadAll(db: Database, withs: seq<With>, nodes: seq<Loaded>): Result<seq<Loaded>>
    decreases WithsSize(withs), 1, |withs|
  {
    if withs == [] then Success(nodes)
    else
      assert WithsSize(withs) == Size(withs[0].child) + WithsSize(withs[1..]);
      match LoadEdge(db, withs[0], nodes)
      case Failure(e) => Failure(e)
      case Success(nodes1) => LoadAll(db, withs[1..], nodes1)
  }

  function LoadEdge(db: Database, w: With, nodes: seq<Loaded>): Result<seq<Loaded>>
    decreases Size(w.child), 1, 0
  {
    var keys := Keys(w.edge, nodes);
    if w.edge.kind.Held? && keys == [] then Success(nodes)
    else
      match All(db, Narrow(w.edge, w.child, keys))
      case Failure(e) => Failure(e)
      case Success(ns) =>
        match FirstUnexpected(w.edge, keys, ns)
        case Some(err) => Failure(err)
        case None => Success(AttachAll(w.edge, nodes, ns))
  }

  // ---------------------------------------------------------------- keys

  /** The keys are exactly the non-nil keys of the nodes, each once when they are held by the nodes. */
  lemma {:induction false} HeldIdsExact(e: Edge, nodes: seq<Loaded>)
    ensures NoDup(HeldIds(e, nodes))
    ensures forall k :: k in HeldIds(e, nodes) <==>
      exists i :: 0 <= i < |nodes| && KeyOf(nodes[i].row, e.column) == Some(k)
  {
    if nodes != [] {
      var n := |nodes| - 1;
      var prev := HeldIds(e, nodes[..n]);
      HeldIdsExact(e, nodes[..n]);
      forall k ensures k in HeldIds(e, nodes) <==>
        exists i :: 0 <= i < |nodes| && KeyOf(nodes[i].row, e.column) == Some(k) {
        if k in prev {
          var i :| 0 <= i < n && KeyOf(nodes[..n][i].row, e.column) == Some(k);
          assert KeyOf(nodes[i].row, e.column) == Some(k);
        }
        if i :| 0 <= i < |nodes| && KeyOf(nodes[i].row, e.column) == Some(k) {
          if i < n {
            assert KeyOf(nodes[..n][i].row, e.column) == Some(k);
          }
        }
      }
    }
  }

  /** A key was asked for exactly when some node has it. */
  lemma KeysExact(e: Edge, nodes: seq<Loaded>, k: Uuid)
    ensures k in Keys(e, nodes) <==> exists i :: 0 <= i < |nodes| && NodeKey(e, nodes[i].row) == Some(k)
  {
    if e.kind.Held? {
      HeldIdsExact(e, nodes);
      if i :| 0 <= i < |nodes| && NodeKey(e, nodes[i].row) == Some(k) {
        assert KeyOf(nodes[i].row, e.column) == Some(k);
      }
      if k in HeldIds(e, nodes) {
        var i :| 0 <= i < |nodes| && KeyOf(nodes[i].row, e.column) == Some(k);
        assert NodeKey(e, nodes[i].row) == Some(k);
      }
    } else {
      var keys := Keys(e, nodes);
      if k in keys {
        var i :| 0 <= i < |keys| && keys[i] == k;
        assert NodeKey(e, nodes[i].row) == Some(k);
      }
      if i :| 0 <= i < |nodes| && NodeKey(e, nodes[i].row) == Some(k) {
        assert keys[i] == k;
      }
    }
  }

  predicate AllExpected(e: Edge, keys: seq<Uuid>, ns: seq<Loaded>) {
    forall i :: 0 <= i < |ns| ==> Expected(e, keys, ns[i])
  }

  /** There is no error exactly when every neighbour's key was asked for; else it names the first key that was not. */
  lemma {:induction false} UnexpectedIff(e: Edge, keys: seq<Uuid>, ns: seq<Loaded>)
    ensures FirstUnexpected(e, keys, ns).None? <==> forall i :: 0 <= i < |ns| ==> Expected(e, keys, ns[i])
    ensures forall i :: 0 <= i < |ns| && !Expected(e, keys, ns[i]) && AllExpected(e, keys, ns[..i]) ==>
      var k := NeighbourKey(e, ns[i].row);
      FirstUnexpected(e, keys, ns) == Some(UnexpectedForeignKey(if k.Some? then k.value else NIL_UUID))
  {
    if ns != [] && Expected(e, keys, ns[0]) {
      UnexpectedIff(e, keys, ns[1..]);
      assert forall i :: 0 < i < |ns| ==> ns[i] == ns[1..][i - 1] && ns[..i][1..] == ns[1..][..i - 1];
    }
  }
}
