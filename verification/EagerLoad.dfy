/**
 `sqlAll` and its loaders: hash joins over node objects that are filled in place.

 Loaders for keys that the neighbour holds keep a map from id to node; loaders for keys that the node
 holds keep a map from key to all nodes with that key. Every method is proved against `Loading`.
 */
module EagerLoad {
  import opened Prelude
  import opened Rows
  import opened Queries
  import opened Loading

  /** A node while its edges are being loaded. */
  class Node {
    const row: Row
    const requested: set<string>
    var ones: map<string, Loaded>
    var lists: map<string, seq<Loaded>>

    constructor (row: Row, requested: set<string>)
      ensures Freeze() == Loaded(row, requested, map[], map[])
    {
      this.row, this.requested := row, requested;
      ones, lists := map[], map[];
    }

    function Freeze(): (r: Loaded)
      reads this
      ensures r.row == row
    {
      Loaded(row, requested, ones, lists)
    }
  }

  predicate Separate(nodes: seq<Node>) {
    forall i, j :: 0 <= i < j < |nodes| ==> nodes[i] != nodes[j]
  }

  function Contents(nodes: seq<Node>): (r: seq<Loaded>)
    reads nodes
    ensures |r| == |nodes| && forall i :: 0 <= i < |nodes| ==> r[i] == nodes[i].Freeze()
  {
    seq(|nodes|, i requires 0 <= i < |nodes| reads nodes => nodes[i].Freeze())
  }

  /** Which node the map `nodeids` holds for an id, after the first `n` nodes. */
  ghost predicate IdMap(nodes: seq<Node>, n: nat, nodeids: map<Uuid, Node>)
    requires n <= |nodes|
  {
    (forall i :: 0 <= i < n ==> nodes[i].row.id in nodeids) &&
    (forall k :: k in nodeids ==> exists i :: ServesId(nodes, n, k, i) && nodeids[k] == nodes[i])
  }

  ghost predicate ServesId(nodes: seq<Node>, n: nat, k: Uuid, i: int)
    requires n <= |nodes|
  {
    0 <= i < n && nodes[i].row.id == k && forall j :: i < j < n ==> nodes[j].row.id != k
  }

  lemma IdMapExtends(nodes: seq<Node>, n: nat, nodeids: map<Uuid, Node>)
    requires n < |nodes| && IdMap(nodes, n, nodeids)
    ensures IdMap(nodes, n + 1, nodeids[nodes[n].row.id := nodes[n]])
  {
    var m := nodeids[nodes[n].row.id := nodes[n]];
    forall k | k in m ensures exists i :: ServesId(nodes, n + 1, k, i) && m[k] == nodes[i] {
      if k == nodes[n].row.id {
        assert ServesId(nodes, n + 1, k, n);
      } else {
        var i :| ServesId(nodes, n, k, i) && nodeids[k] == nodes[i];
        assert ServesId(nodes, n + 1, k, i);
      }
    }
  }

  /** The last node of each id is the one in the map. */
  lemma ServedIsLast(nodes: seq<Node>, contents: seq<Loaded>, nodeids: map<Uuid, Node>, i: nat)
    requires IdMap(nodes, |nodes|, nodeids) && Separate(nodes) && i < |nodes|
    requires |contents| == |nodes| && forall j :: 0 <= j < |nodes| ==> contents[j].row == nodes[j].row
    ensures nodes[i].row.id in nodeids
    ensures nodeids[nodes[i].row.id] == nodes[i] <==> IsLast(contents, i)
  {
    var k := nodes[i].row.id;
    var j :| ServesId(nodes, |nodes|, k, j) && nodeids[k] == nodes[j];
    if i == j {
      assert IsLast(contents, i);
    } else {
      assert nodes[i] != nodes[j];
      assert i < j && contents[j].row.id == contents[i].row.id;
    }
  }

  /** The state of an edge after the first `c` neighbours were distributed. */
  ghost predicate Filled(e: Edge, start: seq<Loaded>, nodes: seq<Node>, ns: seq<Loaded>)
    requires |start| == |nodes|
    reads nodes
  {
    forall i :: 0 <= i < |nodes| ==> nodes[i].Freeze() == Attach(e, start, i, ns)
  }

  lemma NeighboursExtend(e: Edge, r: Row, ns: seq<Loaded>, c: nat)
    requires c < |ns|
    ensures Neighbours(e, r, ns[..c + 1]) ==
            if Loading.Linked(e, r, ns[c]) then Neighbours(e, r, ns[..c]) + [ns[c]] else Neighbours(e, r, ns[..c])
  {
    assert ns[..c + 1] == ns[..c] + [ns[c]];
    FilterAppend(n => Loading.Linked(e, r, n), ns[..c], [ns[c]]);
    assert [ns[c]][1..] == [];
  }

  /** The `assign` callbacks: append for a list edge, overwrite for a unique one. */
  function Assigned(e: Edge, node: Loaded, n: Loaded): Loaded {
    if e.kind.Many?
    then node.(lists := node.lists[e.name := (if e.name in node.lists then node.lists[e.name] else []) + [n]])
    else node.(ones := node.ones[e.name := n])
  }

  method Assign(e: Edge, node: Node, n: Loaded)
    modifies node
    ensures node.Freeze() == Assigned(e, old(node.Freeze()), n)
  {
    if e.kind.Many? {
      var list := if e.name in node.lists then node.lists[e.name] else [];
      node.lists := node.lists[e.name := list + [n]];
    } else {
      node.ones := node.ones[e.name := n];
    }
  }

  /** One more neighbour: the node it links to is assigned, the others are as before. */
  lemma AttachOneMore(e: Edge, start: seq<Loaded>, i: nat, ns: seq<Loaded>, c: nat)
    requires i < |start| && c < |ns|
    ensures Attach(e, start, i, ns[..c + 1]) ==
      if Loading.Linked(e, start[i].row, ns[c]) && (e.kind.Held? || IsLast(start, i))
      then Assigned(e, Attach(e, start, i, ns[..c]), ns[c])
      else Attach(e, start, i, ns[..c])
  {
    NeighboursExtend(e, start[i].row, ns, c);
    var mine := Neighbours(e, start[i].row, ns[..c]);
    if Loading.Linked(e, start[i].row, ns[c]) {
      assert (mine + [ns[c]])[|mine|] == ns[c];
      assert e.kind.Many? && IsLast(start, i) ==>
        start[i].lists[e.name := mine][e.name := mine + [ns[c]]] == start[i].lists[e.name := mine + [ns[c]]];
      assert !e.kind.Many? && mine != [] ==>
        start[i].ones[e.name := mine[|mine| - 1]][e.name := ns[c]] == start[i].ones[e.name := ns[c]];
    }
  }

  /** One map lookup: the served node is assigned, the others are as before. */
  method AssignServed(e: Edge, nodes: seq<Node>, nodeids: map<Uuid, Node>, k: Uuid, n: Loaded)
    requires IdMap(nodes, |nodes|, nodeids) && k in nodeids
    modifies nodes
    ensures forall i :: 0 <= i < |nodes| ==>
      nodes[i].Freeze() ==
        if nodes[i] == nodeids[k] then Assigned(e, old(nodes[i].Freeze()), n) else old(nodes[i].Freeze())
  {
    ServedNode(nodes, nodeids, k);
    Assign(e, nodeids[k], n);
  }

  /** The node served for a key is the last one with that id. */
  lemma ServedIff(nodes: seq<Node>, start: seq<Loaded>, nodeids: map<Uuid, Node>, k: Uuid, i: nat)
    requires IdMap(nodes, |nodes|, nodeids) && Separate(nodes) && k in nodeids && i < |nodes|
    requires |start| == |nodes| && forall j :: 0 <= j < |nodes| ==> start[j].row == nodes[j].row
    ensures nodes[i] == nodeids[k] <==> start[i].row.id == k && IsLast(start, i)
  {
    ServedIsLast(nodes, start, nodeids, i);
    ServedOnce(nodes, nodeids, k, i);
  }

  /** What the contents were and what they are after one neighbour. */
  lemma OneNeighbour(e: Edge, nodes: seq<Node>, nodeids: map<Uuid, Node>, start: seq<Loaded>, before: seq<Loaded>,
                     after: seq<Loaded>, ns: seq<Loaded>, c: nat, k: Uuid)
    requires !e.kind.Held? && IdMap(nodes, |nodes|, nodeids) && Separate(nodes) && k in nodeids && c < |ns|
    requires |start| == |before| == |after| == |nodes| && forall j :: 0 <= j < |nodes| ==> start[j].row == nodes[j].row
    requires KeyOf(ns[c].row, e.column) == Some(k)
    requires forall i :: 0 <= i < |nodes| ==> before[i] == Attach(e, start, i, ns[..c])
    requires forall i :: 0 <= i < |nodes| ==>
      after[i] == if nodes[i] == nodeids[k] then Assigned(e, before[i], ns[c]) else before[i]
    ensures forall i :: 0 <= i < |nodes| ==> after[i] == Attach(e, start, i, ns[..c + 1])
  {
    forall i | 0 <= i < |nodes| ensures after[i] == Attach(e, start, i, ns[..c + 1]) {
      AttachOneMore(e, start, i, ns, c);
      ServedIff(nodes, start, nodeids, k, i);
    }
  }

  /** The loop over the neighbours when the neighbour holds the key: one map lookup each. */
  method Distribute(e: Edge, nodes: seq<Node>, nodeids: map<Uuid, Node>, ns: seq<Loaded>, ghost start: seq<Loaded>,
                    ghost keys: seq<Uuid>) returns (err: Option<Error>)
    requires !e.kind.Held? && Separate(nodes) && IdMap(nodes, |nodes|, nodeids)
    requires |start| == |nodes| && forall i :: 0 <= i < |nodes| ==> start[i].row == nodes[i].row
    requires keys == Keys(e, start)
    requires Filled(e, start, nodes, [])
    modifies nodes
    ensures err == FirstUnexpected(e, keys, ns)
    ensures err.None? ==> Contents(nodes) == AttachAll(e, start, ns)
  {
    MapHasKeys(e, nodes, nodeids, start, keys);
    var c := 0;
    assert ns[..0] == [];
    while c < |ns|
      invariant 0 <= c <= |ns|
      invariant FirstUnexpected(e, keys, ns) == FirstUnexpected(e, keys, ns[c..])
      invariant Filled(e, start, nodes, ns[..c])
    {
      var n := ns[c];
      var fk := KeyOf(n.row, e.column);
      assert ns[c..][0] == n && ns[c..][1..] == ns[c + 1..];
      if fk.None? {
        return Some(UnexpectedForeignKey(NIL_UUID));
      }
      if fk.value !in nodeids {
        return Some(UnexpectedForeignKey(fk.value));
      }
      ghost var before := Contents(nodes);
      AssignServed(e, nodes, nodeids, fk.value, n);
      OneNeighbour(e, nodes, nodeids, start, before, Contents(nodes), ns, c, fk.value);
      c := c + 1;
    }
    assert ns[..|ns|] == ns;
    err := None;
  }

  lemma ServedNode(nodes: seq<Node>, nodeids: map<Uuid, Node>, k: Uuid)
    requires IdMap(nodes, |nodes|, nodeids) && k in nodeids
    ensures nodeids[k] in nodes
  {
    var j :| ServesId(nodes, |nodes|, k, j) && nodeids[k] == nodes[j];
  }

  /** The node served for a key is the node at index `i` only if that node has the key. */
  lemma ServedOnce(nodes: seq<Node>, nodeids: map<Uuid, Node>, k: Uuid, i: nat)
    requires IdMap(nodes, |nodes|, nodeids) && k in nodeids && i < |nodes|
    ensures nodes[i] == nodeids[k] ==> nodes[i].row.id == k
  {
    var j :| ServesId(nodes, |nodes|, k, j) && nodeids[k] == nodes[j];
  }

  lemma MapHasKeys(e: Edge, nodes: seq<Node>, nodeids: map<Uuid, Node>, start: seq<Loaded>, keys: seq<Uuid>)
    requires !e.kind.Held? && IdMap(nodes, |nodes|, nodeids)
    requires |start| == |nodes| && forall i :: 0 <= i < |nodes| ==> start[i].row == nodes[i].row
    requires keys == Keys(e, start)
    ensures forall k :: k in nodeids <==> k in keys
  {
    forall k ensures k in nodeids <==> k in keys {
      if k in nodeids {
        var i :| ServesId(nodes, |nodes|, k, i) && nodeids[k] == nodes[i];
        assert keys[i] == k;
      }
      if k in keys {
        var i :| 0 <= i < |keys| && keys[i] == k;
        assert nodes[i].row.id == k;
      }
    }
  }

  // ---------------------------------------------------------------- keys held by the nodes

  /** The nodes with a given key, in order. */
  function NodesWithKey(e: Edge, nodes: seq<Node>, k: Uuid): seq<Node> {
    if nodes == [] then []
    else
      var n := |nodes| - 1;
      NodesWithKey(e, nodes[..n], k) + (if KeyOf(nodes[n].row, e.column) == Some(k) then [nodes[n]] else [])
  }

  lemma {:induction false} NodesWithKeyMembers(e: Edge, nodes: seq<Node>, k: Uuid, x: Node)
    ensures x in NodesWithKey(e, nodes, k) <==> x in nodes && KeyOf(x.row, e.column) == Some(k)
  {
    if nodes != [] {
      var n := |nodes| - 1;
      NodesWithKeyMembers(e, nodes[..n], k, x);
      assert nodes == nodes[..n] + [nodes[n]];
    }
  }

  /** The map groups the nodes by key, and its keys are the ids to query for. */
  ghost predicate Grouped(e: Edge, nodes: seq<Node>, ids: seq<Uuid>, nodeids: map<Uuid, seq<Node>>) {
    (forall k :: k in nodeids <==> k in ids) &&
    (forall k :: k in nodeids ==> nodeids[k] == NodesWithKey(e, nodes, k)) &&
    (forall k :: k !in nodeids ==> NodesWithKey(e, nodes, k) == [])
  }

  method GroupByKey(e: Edge, nodes: seq<Node>, ghost start: seq<Loaded>)
      returns (ids: seq<Uuid>, nodeids: map<Uuid, seq<Node>>)
    requires |start| == |nodes| && forall i :: 0 <= i < |nodes| ==> start[i].row == nodes[i].row
    ensures ids == HeldIds(e, start) && NoDup(ids)
    ensures Grouped(e, nodes, ids, nodeids)
  {
    ids, nodeids := [], map[];
    for i := 0 to |nodes|
      invariant ids == HeldIds(e, start[..i])
      invariant Grouped(e, nodes[..i], ids, nodeids)
    {
      assert start[..i + 1][..i] == start[..i];
      assert nodes[..i + 1][..i] == nodes[..i];
      var key := KeyOf(nodes[i].row, e.column);
      if key.None? {
        assert forall k :: NodesWithKey(e, nodes[..i + 1], k) == NodesWithKey(e, nodes[..i], k);
        continue;
      }
      var fk := key.value;
      assert forall k :: k != fk ==> NodesWithKey(e, nodes[..i + 1], k) == NodesWithKey(e, nodes[..i], k);
      if fk !in nodeids {
        ids := ids + [fk];
      }
      nodeids := nodeids[fk := (if fk in nodeids then nodeids[fk] else []) + [nodes[i]]];
    }
    assert start[..|nodes|] == start && nodes[..|nodes|] == nodes;
    HeldIdsExact(e, start);
  }

  /** The inner loop: one neighbour is assigned to every node of its group. */
  method AssignGroup(e: Edge, nodes: seq<Node>, group: seq<Node>, n: Loaded)
    requires !e.kind.Many? && forall x :: x in group ==> x in nodes
    modifies nodes
    ensures forall i :: 0 <= i < |nodes| ==>
      nodes[i].Freeze() == if nodes[i] in group then Assigned(e, old(nodes[i].Freeze()), n) else old(nodes[i].Freeze())
  {
    for g := 0 to |group|
      invariant forall i :: 0 <= i < |nodes| ==>
        nodes[i].Freeze() ==
        if nodes[i] in group[..g] then Assigned(e, old(nodes[i].Freeze()), n) else old(nodes[i].Freeze())
    {
      assert group[..g + 1] == group[..g] + [group[g]];
      assert group[g] in group;
      Assign(e, group[g], n);
    }
    assert group[..|group|] == group;
  }

  /** The loop over the neighbours when the nodes hold the key: every node of the group is assigned. */
  method DistributeToGroups(e: Edge, nodes: seq<Node>, ids: seq<Uuid>, nodeids: map<Uuid, seq<Node>>, ns: seq<Loaded>,
                            ghost start: seq<Loaded>) returns (err: Option<Error>)
    requires e.kind.Held? && Grouped(e, nodes, ids, nodeids)
    requires |start| == |nodes| && forall i :: 0 <= i < |nodes| ==> start[i].row == nodes[i].row
    requires Filled(e, start, nodes, [])
    modifies nodes
    ensures err == FirstUnexpected(e, ids, ns)
    ensures err.None? ==> Contents(nodes) == AttachAll(e, start, ns)
  {
    assert ns[..0] == [];
    for c := 0 to |ns|
      invariant FirstUnexpected(e, ids, ns) == FirstUnexpected(e, ids, ns[c..])
      invariant Filled(e, start, nodes, ns[..c])
    {
      var n := ns[c];
      assert ns[c..][0] == n && ns[c..][1..] == ns[c + 1..];
      if n.row.id !in nodeids {
        return Some(UnexpectedForeignKey(n.row.id));
      }
      var group := nodeids[n.row.id];
      forall x: Node ensures x in group <==> x in nodes && KeyOf(x.row, e.column) == Some(n.row.id) {
        NodesWithKeyMembers(e, nodes, n.row.id, x);
      }
      ghost var before := Contents(nodes);
      AssignGroup(e, nodes, group, n);
      forall i | 0 <= i < |nodes| ensures nodes[i].Freeze() == Attach(e, start, i, ns[..c + 1]) {
        assert before[i] == Attach(e, start, i, ns[..c]);
        AttachOneMore(e, start, i, ns, c);
        assert nodes[i] in nodes;
      }
    }
    assert ns[..|ns|] == ns;
    err := None;
  }

  // ---------------------------------------------------------------- loaders and sqlAll

  /** The outcome of a loader, compared with the reference. */
  ghost predicate Agrees(expected: Result<seq<Loaded>>, err: Option<Error>, nodes: seq<Node>)
    reads nodes
  {
    match expected
    case Failure(e) => err == Some(e)
    case Success(ls) => err.None? && Contents(nodes) == ls
  }

  /** The loop that lists and maps the ids, and resets a list edge. */
  method IndexById(e: Edge, nodes: seq<Node>, ghost start: seq<Loaded>)
    returns (fks: seq<Uuid>, nodeids: map<Uuid, Node>)
    requires !e.kind.Held? && Separate(nodes) && start == Contents(nodes)
    modifies nodes
    ensures fks == Keys(e, start) && IdMap(nodes, |nodes|, nodeids) && Filled(e, start, nodes, [])
  {
    fks, nodeids := [], map[];
    for i := 0 to |nodes|
      invariant |fks| == i && forall j :: 0 <= j < i ==> fks[j] == nodes[j].row.id
      invariant IdMap(nodes, i, nodeids)
      invariant forall j :: 0 <= j < i ==> nodes[j].Freeze() == Attach(e, start, j, [])
      invariant forall j :: i <= j < |nodes| ==> nodes[j].Freeze() == start[j]
    {
      fks := fks + [nodes[i].row.id];
      IdMapExtends(nodes, i, nodeids);
      nodeids := nodeids[nodes[i].row.id := nodes[i]];
      if e.kind.Many? {
        nodes[i].lists := nodes[i].lists[e.name := []];
      }
    }
  }

  /** `loadMembers` and its kind: build `nodeids`, reset the edge, query, distribute. */
  method LoadByNeighbourKey(db: Database, w: With, nodes: seq<Node>) returns (err: Option<Error>)
    requires !w.edge.kind.Held? && Separate(nodes)
    modifies nodes
    ensures Agrees(LoadEdge(db, w, old(Contents(nodes))), err, nodes)
    decreases Size(w.child), 1, 0
  {
    var e := w.edge;
    ghost var start := Contents(nodes);
    var fks, nodeids := IndexById(e, nodes, start);
    var r := SqlAll(db, Narrow(e, w.child, fks));
    if r.Failure? {
      return Some(r.error);
    }
    err := Distribute(e, nodes, nodeids, r.value, start, fks);
  }

  /** `loadChat`, `loadAvatar`, `loadLastMessage` and their kind: group by key, query, distribute. */
  method LoadByHeldKey(db: Database, w: With, nodes: seq<Node>) returns (err: Option<Error>)
    requires w.edge.kind.Held? && Separate(nodes)
    modifies nodes
    ensures Agrees(LoadEdge(db, w, old(Contents(nodes))), err, nodes)
    decreases Size(w.child), 1, 0
  {
    ghost var start := Contents(nodes);
    var ids, nodeids := GroupByKey(w.edge, nodes, start);
    if |ids| == 0 {
      return None;
    }
    var r := SqlAll(db, Narrow(w.edge, w.child, ids));
    if r.Failure? {
      return Some(r.error);
    }
    assert Filled(w.edge, start, nodes, []);
    err := DistributeToGroups(w.edge, nodes, ids, nodeids, r.value, start);
  }

  /** The scan of `sqlAll`: one new node a row. */
  method ScanNodes(rows: seq<Row>, requested: set<string>) returns (nodes: seq<Node>)
    ensures fresh(nodes) && Separate(nodes) && Contents(nodes) == Scanned(rows, requested)
  {
    nodes := [];
    for i := 0 to |rows|
      invariant |nodes| == i && Separate(nodes)
      invariant forall j :: 0 <= j < i ==> fresh(nodes[j]) && nodes[j].Freeze() == Scanned(rows, requested)[j]
    {
      var node := new Node(rows[i], requested);
      nodes := nodes + [node];
    }
  }

  /** `sqlAll`: scan the rows into nodes, then run the loader of every requested edge. */
  method SqlAll(db: Database, q: Query) returns (r: Result<seq<Loaded>>)
    ensures r == All(db, q)
    decreases Size(q), 0, 0
  {
    var rows := SpecRows(db, q);
    var nodes := ScanNodes(rows, Names(q.withs));
    if |nodes| == 0 {
      return Success([]);
    }
    ghost var scanned := Contents(nodes);
    for i := 0 to |q.withs|
      invariant LoadAll(db, q.withs, scanned) == LoadAll(db, q.withs[i..], Contents(nodes))
    {
      LoadAllStep(db, q.withs, i, Contents(nodes));
      SizeOfWith(q, i);
      var err: Option<Error>;
      if q.withs[i].edge.kind.Held? {
        err := LoadByHeldKey(db, q.withs[i], nodes);
      } else {
        err := LoadByNeighbourKey(db, q.withs[i], nodes);
      }
      if err.Some? {
        return Failure(err.value);
      }
    }
    assert q.withs[|q.withs|..] == [];
    return Success(Contents(nodes));
  }

  /** The edges from the `i`-th on: the first of them, and then the others. */
  lemma LoadAllStep(db: Database, withs: seq<With>, i: nat, nodes: seq<Loaded>)
    requires i < |withs|
    ensures LoadAll(db, withs[i..], nodes) ==
      match LoadEdge(db, withs[i], nodes)
      case Failure(e) => Failure(e)
      case Success(nodes1) => LoadAll(db, withs[i + 1..], nodes1)
  {
    assert withs[i..][0] == withs[i] && withs[i..][1..] == withs[i + 1..];
  }

  lemma {:induction false} SizeOfWiths(withs: seq<With>, i: nat)
    requires i < |withs|
    ensures Size(withs[i].child) <= WithsSize(withs)
  {
    assert WithsSize(withs) == Size(withs[0].child) + WithsSize(withs[1..]);
    if i > 0 {
      SizeOfWiths(withs[1..], i - 1);
    }
  }

  lemma SizeOfWith(q: Query, i: nat)
    requires i < |q.withs|
    ensures Size(q.withs[i].child) < Size(q)
  {
    SizeOfWiths(q.withs, i);
  }
}
