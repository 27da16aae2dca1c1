/**
 What a caller sees on the returned nodes: how the neighbours are shared out, compared with what the
 traversal of the same edge returns, and what the edge accessors answer.
 */
module Attachments {
  import opened Prelude
  import opened Rows
  import opened Queries
  import opened Loading
  import opened Traversal
  import opened Agreement

  // ---------------------------------------------------------------- conservation of neighbours

  /** The neighbour lists of all nodes, one after the other. */
  function AllLists(name: string, nodes: seq<Loaded>): seq<Loaded> {
    if nodes == [] then []
    else (if name in nodes[0].lists then nodes[0].lists[name] else []) + AllLists(name, nodes[1..])
  }

  lemma {:induction false} FilterSplits(p: Loaded -> bool, q: Loaded -> bool, r: Loaded -> bool, s: seq<Loaded>)
    requires forall x :: x in s ==> !(p(x) && q(x)) && r(x) == (p(x) || q(x))
    ensures multiset(Filter(p, s)) + multiset(Filter(q, s)) == multiset(Filter(r, s))
  {
    if s != [] {
      FilterSplits(p, q, r, s[1..]);
    }
  }

  predicate LinkedToNode(e: Edge, nodes: seq<Loaded>, n: Loaded) {
    exists i :: 0 <= i < |nodes| && Loading.Linked(e, nodes[i].row, n)
  }

  lemma LinkedToTail(e: Edge, nodes: seq<Loaded>, n: Loaded)
    requires nodes != []
    ensures LinkedToNode(e, nodes, n) <==> Loading.Linked(e, nodes[0].row, n) || LinkedToNode(e, nodes[1..], n)
  {
    var t := nodes[1..];
    if i :| 0 <= i < |nodes| && Loading.Linked(e, nodes[i].row, n) {
      if i > 0 { assert Loading.Linked(e, t[i - 1].row, n); }
    }
    if i :| 0 <= i < |t| && Loading.Linked(e, t[i].row, n) {
      assert Loading.Linked(e, nodes[i + 1].row, n);
    }
  }

  lemma AttachTail(e: Edge, nodes: seq<Loaded>, ns: seq<Loaded>)
    requires nodes != []
    ensures AttachAll(e, nodes, ns)[1..] == AttachAll(e, nodes[1..], ns)
  {
    var t := nodes[1..];
    forall i | 0 <= i < |t| ensures Attach(e, nodes, i + 1, ns) == Attach(e, t, i, ns) {
      assert t[i] == nodes[i + 1];
      assert IsLast(nodes, i + 1) <==> IsLast(t, i) by {
        assert forall j :: i < j < |t| ==> t[j] == nodes[j + 1];
        assert forall j :: i + 1 < j < |nodes| ==> nodes[j] == t[j - 1];
      }
    }
  }

  /** Of nodes with the same id only the last one is served, so a linked neighbour is in one list only. */
  lemma {:induction false} ListsArePartition(e: Edge, nodes: seq<Loaded>, ns: seq<Loaded>)
    requires e.kind.Many?
    ensures multiset(AllLists(e.name, AttachAll(e, nodes, ns))) == multiset(Filter(n => LinkedToNode(e, nodes, n), ns))
  {
    if nodes == [] {
      FilterNone(n => LinkedToNode(e, nodes, n), ns);
    } else {
      var t := nodes[1..];
      ListsArePartition(e, t, ns);
      AttachTail(e, nodes, ns);
      forall n ensures LinkedToNode(e, nodes, n) <==> Loading.Linked(e, nodes[0].row, n) || LinkedToNode(e, t, n) {
        LinkedToTail(e, nodes, n);
      }
      if IsLast(nodes, 0) {
        HeadIsAlone(e, nodes);
        FilterSplits(n => Loading.Linked(e, nodes[0].row, n), n => LinkedToNode(e, t, n),
          n => LinkedToNode(e, nodes, n), ns);
      } else {
        var j :| 0 < j < |nodes| && nodes[j].row.id == nodes[0].row.id;
        assert t[j - 1] == nodes[j];
        forall n ensures LinkedToNode(e, nodes, n) <==> LinkedToNode(e, t, n) {
          if Loading.Linked(e, nodes[0].row, n) { assert Loading.Linked(e, t[j - 1].row, n); }
        }
        FilterSame(n => LinkedToNode(e, nodes, n), n => LinkedToNode(e, t, n), ns);
      }
    }
  }

  lemma HeadIsAlone(e: Edge, nodes: seq<Loaded>)
    requires e.kind.Many? && nodes != [] && IsLast(nodes, 0)
    ensures forall n :: !(Loading.Linked(e, nodes[0].row, n) && LinkedToNode(e, nodes[1..], n))
  {
    forall n ensures !(Loading.Linked(e, nodes[0].row, n) && LinkedToNode(e, nodes[1..], n)) {
      if i :| 0 <= i < |nodes[1..]| && Loading.Linked(e, nodes[1..][i].row, n) {
        assert nodes[i + 1].row.id != nodes[0].row.id;
      }
    }
  }

  /** The neighbours the loader of an edge works with. */
  function Fetched(db: Database, e: Edge, child: Query, nodes: seq<Loaded>): Result<seq<Loaded>> {
    All(db, Narrow(e, child, Keys(e, nodes)))
  }

  /** Every fetched neighbour is linked to some node. */
  lemma FetchedAreLinked(db: Database, e: Edge, child: Query, nodes: seq<Loaded>)
    ensures Fetched(db, e, child, nodes).Success?
    ensures forall n :: n in Fetched(db, e, child, nodes).value ==> LinkedToNode(e, nodes, n)
  {
    var keys := Keys(e, nodes);
    var q := Narrow(e, child, keys);
    AllSucceeds(db, q);
    AllKeepsRows(db, q);
    var ns := All(db, q).value;
    forall n | n in ns ensures LinkedToNode(e, nodes, n) {
      var j :| 0 <= j < |ns| && ns[j] == n;
      NarrowReturnsExpected(db, e, child, keys, n.row);
      KeysExact(e, nodes, NeighbourKey(e, n.row).value);
      var i :| 0 <= i < |nodes| && NodeKey(e, nodes[i].row) == NeighbourKey(e, n.row);
      assert Loading.Linked(e, nodes[i].row, n);
    }
  }

  /** A loader attaches what it fetched; skipping the query when no node has a key changes nothing. */
  lemma LoadEdgeAttaches(db: Database, e: Edge, child: Query, nodes: seq<Loaded>)
    ensures Fetched(db, e, child, nodes).Success?
    ensures LoadEdge(db, With(e, child), nodes) == Success(AttachAll(e, nodes, Fetched(db, e, child, nodes).value))
  {
    FetchedAreLinked(db, e, child, nodes);
    LoadEdgeSucceeds(db, With(e, child), nodes);
    var ns := Fetched(db, e, child, nodes).value;
    if e.kind.Held? && Keys(e, nodes) == [] {
      forall i | 0 <= i < |nodes| ensures Attach(e, nodes, i, ns) == nodes[i] {
        forall n | n in ns ensures !Loading.Linked(e, nodes[i].row, n) {
          if Loading.Linked(e, nodes[i].row, n) {
            KeysExact(e, nodes, NodeKey(e, nodes[i].row).value);
          }
        }
        FilterNone(n => Loading.Linked(e, nodes[i].row, n), ns);
      }
      assert AttachAll(e, nodes, ns) == nodes;
    }
  }

  /**
   `WithMembers` against `QueryMembers`: each group gets the order-preserving selection of the traversal by
   its own id, and over all groups every traversed member is attached exactly once. (A parent that returns
   a group several times has its last copy served.)
   */
  lemma MembersAgree(db: Database, parent: Query, e: Edge, child: Query)
    requires e.kind.Many? && ValidDb(db) && child.path.None? && child.fields == [] && SameReach(db, parent, e, child)
    ensures var nodes := Scanned(SpecRows(db, parent), Names(parent.withs));
      var t := All(db, Traverse(parent, e, child));
      var r := LoadEdge(db, With(e, child), nodes);
      t.Success? && r.Success? && |r.value| == |nodes| &&
      (forall i :: 0 <= i < |nodes| ==>
        r.value[i] == nodes[i].(lists := nodes[i].lists[
          e.name := if IsLast(nodes, i) then Neighbours(e, nodes[i].row, t.value) else []])) &&
      multiset(AllLists(e.name, r.value)) == multiset(t.value)
  {
    var nodes := Scanned(SpecRows(db, parent), Names(parent.withs));
    EagerIsTraversal(db, parent, e, child);
    LoadEdgeAttaches(db, e, child, nodes);
    FetchedAreLinked(db, e, child, nodes);
    var ns := Fetched(db, e, child, nodes).value;
    ListsArePartition(e, nodes, ns);
    FilterAll(n => LinkedToNode(e, nodes, n), ns);
  }

  /**
   `WithGroupChat` against `QueryGroupChat` of a chat, where the neighbour holds a unique key: each chat gets
   the last traversed neighbour with its id, hence the only one if the column is unique, and every traversed
   neighbour belongs to some chat.
   */
  lemma UniqueEdgeAgrees(db: Database, parent: Query, e: Edge, child: Query)
    requires e.kind.Unique? && ValidDb(db) && child.path.None? && child.fields == [] && SameReach(db, parent, e, child)
    ensures var nodes := Scanned(SpecRows(db, parent), Names(parent.withs));
      var t := All(db, Traverse(parent, e, child));
      var r := LoadEdge(db, With(e, child), nodes);
      t.Success? && r.Success? && |r.value| == |nodes| &&
      (forall i :: 0 <= i < |nodes| && IsLast(nodes, i) ==>
        Holds(r.value[i], e.name, Last(Neighbours(e, nodes[i].row, t.value)))) &&
      (KeysDiffer(e, t.value) ==>
        forall i, n :: 0 <= i < |nodes| && n in t.value && IsLast(nodes, i) && Loading.Linked(e, nodes[i].row, n) ==>
          Holds(r.value[i], e.name, Some(n))) &&
      (forall n :: n in t.value ==> LinkedToNode(e, nodes, n))
  {
    var nodes := Scanned(SpecRows(db, parent), Names(parent.withs));
    EagerIsTraversal(db, parent, e, child);
    LoadEdgeAttaches(db, e, child, nodes);
    FetchedAreLinked(db, e, child, nodes);
    var ns := Fetched(db, e, child, nodes).value;
    if KeysDiffer(e, ns) {
      forall i, n | 0 <= i < |nodes| && n in ns && Loading.Linked(e, nodes[i].row, n)
        ensures Last(Neighbours(e, nodes[i].row, ns)) == Some(n)
      {
        OnlyNeighbour(e, nodes[i].row, ns, n);
      }
    }
  }

  /** No two neighbours have the same key, as the unique index on the column makes sure. */
  predicate KeysDiffer(e: Edge, ns: seq<Loaded>) {
    forall i, j :: 0 <= i < j < |ns| && NeighbourKey(e, ns[i].row).Some? ==>
      NeighbourKey(e, ns[i].row) != NeighbourKey(e, ns[j].row)
  }

  lemma OnlyNeighbour(e: Edge, row: Row, ns: seq<Loaded>, n: Loaded)
    requires KeysDiffer(e, ns) && n in ns && Loading.Linked(e, row, n)
    ensures Last(Neighbours(e, row, ns)) == Some(n)
  {
    var mine := Neighbours(e, row, ns);
    assert n in mine;
    var m := mine[|mine| - 1];
    assert m in mine;
    var i :| 0 <= i < |ns| && ns[i] == m;
    var j :| 0 <= j < |ns| && ns[j] == n;
    assert !(i < j) && !(j < i);
  }

  /** What a node gets along an edge whose key it holds itself. */
  lemma HeldAttachment(e: Edge, nodes: seq<Loaded>, i: nat, ns: seq<Loaded>)
    requires e.kind.Held? && i < |nodes|
    requires forall a, b :: 0 <= a < b < |ns| ==> ns[a].row.id != ns[b].row.id
    ensures forall n :: n in ns && KeyOf(nodes[i].row, e.column) == Some(n.row.id) ==>
      Attach(e, nodes, i, ns) == nodes[i].(ones := nodes[i].ones[e.name := n])
    ensures (forall n :: n in ns ==> KeyOf(nodes[i].row, e.column) != Some(n.row.id)) ==>
      Attach(e, nodes, i, ns) == nodes[i]
  {
    var row := nodes[i].row;
    var mine := Neighbours(e, row, ns);
    forall n | n in ns && KeyOf(row, e.column) == Some(n.row.id)
      ensures Attach(e, nodes, i, ns) == nodes[i].(ones := nodes[i].ones[e.name := n])
    {
      assert Loading.Linked(e, row, n) && n in mine;
      var m := mine[|mine| - 1];
      assert m in mine;
      SameIdSameNode(ns, m, n);
    }
    if forall n :: n in ns ==> KeyOf(row, e.column) != Some(n.row.id) {
      FilterNone(n => Loading.Linked(e, row, n), ns);
    }
  }

  lemma SameIdSameNode(ns: seq<Loaded>, m: Loaded, n: Loaded)
    requires m in ns && n in ns && m.row.id == n.row.id
    requires forall i, j :: 0 <= i < j < |ns| ==> ns[i].row.id != ns[j].row.id
    ensures m == n
  {
    var i :| 0 <= i < |ns| && ns[i] == m;
    var j :| 0 <= j < |ns| && ns[j] == n;
    assert !(i < j) && !(j < i);
  }

  /**
   `WithChat` against `QueryChat`: a node gets the traversed neighbour with its key if there is one and
   stays bare if there is none or its key is nil; and every traversed neighbour reaches some node.
   */
  lemma HeldEdgeAgrees(db: Database, parent: Query, e: Edge, child: Query)
    requires e.kind.Held? && ValidDb(db) && child.path.None? && child.fields == [] && SameReach(db, parent, e, child)
    ensures var nodes := Scanned(SpecRows(db, parent), Names(parent.withs));
      var t := All(db, Traverse(parent, e, child));
      var r := LoadEdge(db, With(e, child), nodes);
      t.Success? && r.Success? && |r.value| == |nodes| &&
      (forall i, n :: 0 <= i < |nodes| && n in t.value && KeyOf(nodes[i].row, e.column) == Some(n.row.id) ==>
        r.value[i] == nodes[i].(ones := nodes[i].ones[e.name := n])) &&
      (forall i ::
        0 <= i < |nodes| && (forall n :: n in t.value ==> KeyOf(nodes[i].row, e.column) != Some(n.row.id)) ==>
        r.value[i] == nodes[i]) &&
      (forall n :: n in t.value ==> LinkedToNode(e, nodes, n))
  {
    var nodes := Scanned(SpecRows(db, parent), Names(parent.withs));
    EagerIsTraversal(db, parent, e, child);
    LoadEdgeAttaches(db, e, child, nodes);
    FetchedAreLinked(db, e, child, nodes);
    var q := Narrow(e, child, Keys(e, nodes));
    AllKeepsRows(db, q);
    ParentIdsDistinct(db, q);
    var ns := Fetched(db, e, child, nodes).value;
    forall i | 0 <= i < |nodes| {
      HeldAttachment(e, nodes, i, ns);
    }
  }

  // ---------------------------------------------------------------- the edge accessors

  /** `ChatOrErr`, `LastMessageOrErr` and their kind. */
  function OneOrErr(node: Loaded, edge: string, entity: string): Result<Loaded> {
    if edge in node.ones then Success(node.ones[edge])
    else if edge in node.requested then Failure(NotFoundError(entity))
    else Failure(NotLoadedError(edge))
  }

  predicate DistinctNames(withs: seq<With>) {
    forall i, j :: 0 <= i < j < |withs| ==> withs[i].edge.name != withs[j].edge.name
  }

  /** The edge `name` of both nodes is in the same state. */
  predicate SameEdge(name: string, a: Loaded, b: Loaded) {
    (name in a.ones <==> name in b.ones) && (name in a.ones ==> a.ones[name] == b.ones[name]) &&
    (name in a.lists <==> name in b.lists) && (name in a.lists ==> a.lists[name] == b.lists[name])
  }

  lemma AttachOtherEdge(e: Edge, nodes: seq<Loaded>, i: nat, ns: seq<Loaded>, name: string)
    requires i < |nodes| && e.name != name
    ensures SameEdge(name, Attach(e, nodes, i, ns), nodes[i])
  {
  }

  lemma OtherEdge(db: Database, w: With, nodes: seq<Loaded>, name: string)
    requires w.edge.name != name
    ensures LoadEdge(db, w, nodes).Success?
    ensures var r := LoadEdge(db, w, nodes).value;
      |r| == |nodes| && forall i :: 0 <= i < |nodes| ==> SameEdge(name, r[i], nodes[i])
  {
    assert w == With(w.edge, w.child);
    LoadEdgeAttaches(db, w.edge, w.child, nodes);
    var ns := Fetched(db, w.edge, w.child, nodes).value;
    forall i | 0 <= i < |nodes| ensures SameEdge(name, Attach(w.edge, nodes, i, ns), nodes[i]) {
      AttachOtherEdge(w.edge, nodes, i, ns, name);
    }
  }

  /** Loaders touch only their own edge. */
  lemma {:induction false} OthersUntouched(db: Database, withs: seq<With>, nodes: seq<Loaded>, name: string)
    requires forall j :: 0 <= j < |withs| ==> withs[j].edge.name != name
    ensures LoadAll(db, withs, nodes).Success? ==>
      var r := LoadAll(db, withs, nodes).value;
      |r| == |nodes| && forall i :: 0 <= i < |nodes| ==> SameEdge(name, r[i], nodes[i])
    decreases |withs|
  {
    if withs != [] {
      OtherEdge(db, withs[0], nodes, name);
      OthersUntouched(db, withs[1..], LoadEdge(db, withs[0], nodes).value, name);
    }
  }

  /** The loader of one edge depends on the rows of the nodes only. */
  lemma {:induction false} KeysFromRows(e: Edge, a: seq<Loaded>, b: seq<Loaded>)
    requires |a| == |b| && forall i :: 0 <= i < |a| ==> a[i].row == b[i].row
    ensures Keys(e, a) == Keys(e, b)
  {
    if e.kind.Held? && a != [] {
      var n := |a| - 1;
      KeysFromRows(e, a[..n], b[..n]);
    }
  }

  /** A unique edge of a node as the query that loads it decides it. */
  function Resolved(db: Database, w: With, nodes: seq<Loaded>, i: nat): Option<Loaded>
    requires i < |nodes| && Fetched(db, w.edge, w.child, nodes).Success?
  {
    if w.edge.kind.Held? || IsLast(nodes, i)
    then Last(Neighbours(w.edge, nodes[i].row, Fetched(db, w.edge, w.child, nodes).value))
    else None
  }

  ghost predicate Holds(node: Loaded, name: string, found: Option<Loaded>) {
    (name in node.ones <==> found.Some?) && (found.Some? ==> node.ones[name] == found.value)
  }

  lemma ResolvedFromRows(db: Database, w: With, a: seq<Loaded>, b: seq<Loaded>, i: nat)
    requires |a| == |b| && i < |a| && forall j :: 0 <= j < |a| ==> a[j].row == b[j].row
    ensures Fetched(db, w.edge, w.child, a) == Fetched(db, w.edge, w.child, b)
    ensures Fetched(db, w.edge, w.child, a).Success? ==> Resolved(db, w, a, i) == Resolved(db, w, b, i)
  {
    KeysFromRows(w.edge, a, b);
    assert IsLast(a, i) <==> IsLast(b, i);
  }

  lemma AttachResolves(db: Database, w: With, nodes: seq<Loaded>, i: nat)
    requires i < |nodes| && !w.edge.kind.Many? && w.edge.name !in nodes[i].ones
    ensures Fetched(db, w.edge, w.child, nodes).Success?
    ensures LoadEdge(db, w, nodes).Success? && |LoadEdge(db, w, nodes).value| == |nodes|
    ensures Holds(LoadEdge(db, w, nodes).value[i], w.edge.name, Resolved(db, w, nodes, i))
  {
    assert w == With(w.edge, w.child);
    LoadEdgeAttaches(db, w.edge, w.child, nodes);
    var ns := Fetched(db, w.edge, w.child, nodes).value;
    assert LoadEdge(db, w, nodes).value[i] == Attach(w.edge, nodes, i, ns);
  }

  lemma AttachElsewhere(db: Database, w: With, nodes: seq<Loaded>, i: nat, name: string)
    requires i < |nodes| && w.edge.name != name && name !in nodes[i].ones
    ensures LoadEdge(db, w, nodes).Success? && |LoadEdge(db, w, nodes).value| == |nodes|
    ensures name !in LoadEdge(db, w, nodes).value[i].ones
    ensures forall j :: 0 <= j < |nodes| ==> LoadEdge(db, w, nodes).value[j].row == nodes[j].row
  {
    assert w == With(w.edge, w.child);
    LoadEdgeAttaches(db, w.edge, w.child, nodes);
  }

  lemma {:induction false} EdgeResolved(db: Database, withs: seq<With>, nodes: seq<Loaded>, k: nat, i: nat)
    requires k < |withs| && i < |nodes| && DistinctNames(withs) && !withs[k].edge.kind.Many?
    requires withs[k].edge.name !in nodes[i].ones
    ensures Fetched(db, withs[k].edge, withs[k].child, nodes).Success?
    ensures LoadAll(db, withs, nodes).Success? && |LoadAll(db, withs, nodes).value| == |nodes|
    ensures Holds(LoadAll(db, withs, nodes).value[i], withs[k].edge.name, Resolved(db, withs[k], nodes, i))
    decreases |withs|
  {
    assert forall j :: 0 <= j < |withs[1..]| ==> withs[1..][j] == withs[j + 1];
    var name := withs[k].edge.name;
    if k == 0 {
      AttachResolves(db, withs[0], nodes, i);
      var nodes1 := LoadEdge(db, withs[0], nodes).value;
      LoadAllSucceeds(db, withs[1..], nodes1);
      OthersUntouched(db, withs[1..], nodes1, name);
    } else {
      AttachElsewhere(db, withs[0], nodes, i, name);
      var nodes1 := LoadEdge(db, withs[0], nodes).value;
      EdgeResolved(db, withs[1..], nodes1, k - 1, i);
      ResolvedFromRows(db, withs[k], nodes1, nodes, i);
    }
  }

  /**
   After `All`, every unique-edge accessor is in exactly one of three cases: the value when the edge was
   requested and a linked neighbour came back, not found when requested without one, not loaded otherwise.
   */
  lemma AccessorCases(db: Database, q: Query, i: nat, edge: string, entity: string)
    requires DistinctNames(q.withs) && i < |SpecRows(db, q)|
    ensures var nodes := Scanned(SpecRows(db, q), Names(q.withs));
      var r := All(db, q);
      r.Success? && |r.value| == |nodes| &&
      ((forall k :: 0 <= k < |q.withs| ==> q.withs[k].edge.name != edge) ==>
        OneOrErr(r.value[i], edge, entity) == Failure(NotLoadedError(edge))) &&
      forall k :: 0 <= k < |q.withs| && q.withs[k].edge.name == edge && !q.withs[k].edge.kind.Many? ==>
        Fetched(db, q.withs[k].edge, q.withs[k].child, nodes).Success? &&
        match Resolved(db, q.withs[k], nodes, i)
        case Some(n) => OneOrErr(r.value[i], edge, entity) == Success(n)
        case None => OneOrErr(r.value[i], edge, entity) == Failure(NotFoundError(entity))
  {
    var nodes := Scanned(SpecRows(db, q), Names(q.withs));
    AllSucceeds(db, q);
    AllKeepsRows(db, q);
    if edge !in Names(q.withs) {
      OthersUntouched(db, q.withs, nodes, edge);
    }
    forall k | 0 <= k < |q.withs| && q.withs[k].edge.name == edge && !q.withs[k].edge.kind.Many?
      ensures Fetched(db, q.withs[k].edge, q.withs[k].child, nodes).Success?
      ensures match Resolved(db, q.withs[k], nodes, i)
        case Some(n) => OneOrErr(All(db, q).value[i], edge, entity) == Success(n)
        case None => OneOrErr(All(db, q).value[i], edge, entity) == Failure(NotFoundError(entity))
    {
      EdgeResolved(db, q.withs, nodes, k, i);
      assert edge in Names(q.withs);
    }
  }

  // ---------------------------------------------------------------- member lists of a whole query

  /** The member list of a node as the query that loads the edge decides it. */
  function ListOf(db: Database, w: With, nodes: seq<Loaded>, i: nat): seq<Loaded>
    requires i < |nodes| && Fetched(db, w.edge, w.child, nodes).Success?
  {
    if IsLast(nodes, i) then Neighbours(w.edge, nodes[i].row, Fetched(db, w.edge, w.child, nodes).value) else []
  }

  lemma ListFromRows(db: Database, w: With, a: seq<Loaded>, b: seq<Loaded>, i: nat)
    requires |a| == |b| && i < |a| && forall j :: 0 <= j < |a| ==> a[j].row == b[j].row
    ensures Fetched(db, w.edge, w.child, a) == Fetched(db, w.edge, w.child, b)
    ensures Fetched(db, w.edge, w.child, a).Success? ==> ListOf(db, w, a, i) == ListOf(db, w, b, i)
  {
    KeysFromRows(w.edge, a, b);
    assert IsLast(a, i) <==> IsLast(b, i);
  }

  /** The node has this list along the edge. */
  predicate HasList(node: Loaded, name: string, list: seq<Loaded>) {
    name in node.lists && node.lists[name] == list
  }

  lemma AttachLists(db: Database, w: With, nodes: seq<Loaded>, i: nat)
    requires i < |nodes| && w.edge.kind.Many?
    ensures Fetched(db, w.edge, w.child, nodes).Success?
    ensures LoadEdge(db, w, nodes).Success? && |LoadEdge(db, w, nodes).value| == |nodes|
    ensures HasList(LoadEdge(db, w, nodes).value[i], w.edge.name, ListOf(db, w, nodes, i))
  {
    assert w == With(w.edge, w.child);
    LoadEdgeAttaches(db, w.edge, w.child, nodes);
    var ns := Fetched(db, w.edge, w.child, nodes).value;
    assert LoadEdge(db, w, nodes).value[i] == Attach(w.edge, nodes, i, ns);
  }

  lemma LoadEdgeRows(db: Database, w: With, nodes: seq<Loaded>)
    ensures LoadEdge(db, w, nodes).Success? && |LoadEdge(db, w, nodes).value| == |nodes|
    ensures forall j :: 0 <= j < |nodes| ==> LoadEdge(db, w, nodes).value[j].row == nodes[j].row
  {
    assert w == With(w.edge, w.child);
    LoadEdgeAttaches(db, w.edge, w.child, nodes);
  }

  /** The other edges of the query neither change which members a node gets nor touch its list. */
  lemma {:induction false} ListResolved(db: Database, withs: seq<With>, nodes: seq<Loaded>, k: nat, i: nat)
    requires k < |withs| && i < |nodes| && DistinctNames(withs) && withs[k].edge.kind.Many?
    ensures Fetched(db, withs[k].edge, withs[k].child, nodes).Success?
    ensures LoadAll(db, withs, nodes).Success? && |LoadAll(db, withs, nodes).value| == |nodes|
    ensures HasList(LoadAll(db, withs, nodes).value[i], withs[k].edge.name, ListOf(db, withs[k], nodes, i))
    decreases |withs|
  {
    assert forall j :: 0 <= j < |withs[1..]| ==> withs[1..][j] == withs[j + 1];
    LoadEdgeRows(db, withs[0], nodes);
    var nodes1 := LoadEdge(db, withs[0], nodes).value;
    if k == 0 {
      AttachLists(db, withs[0], nodes, i);
      LoadAllSucceeds(db, withs[1..], nodes1);
      OthersUntouched(db, withs[1..], nodes1, withs[0].edge.name);
    } else {
      ListResolved(db, withs[1..], nodes1, k - 1, i);
      ListFromRows(db, withs[k], nodes1, nodes, i);
    }
  }

  lemma {:induction false} SameLists(name: string, a: seq<Loaded>, b: seq<Loaded>)
    requires |a| == |b| && forall i :: 0 <= i < |a| ==> name in a[i].lists && HasList(b[i], name, a[i].lists[name])
    ensures AllLists(name, a) == AllLists(name, b)
  {
    if a != [] {
      assert forall i :: 0 <= i < |a[1..]| ==> a[1..][i] == a[i + 1] && b[1..][i] == b[i + 1];
      SameLists(name, a[1..], b[1..]);
    }
  }

  /**
   `WithMembers` among any other edges, against `QueryMembers`: in the result of the whole query each group has
   the order-preserving selection of the traversal by its own id, and over all groups every traversed member
   is listed exactly once.
   */
  lemma MembersOfAll(db: Database, parent: Query, k: nat)
    requires k < |parent.withs| && DistinctNames(parent.withs) && parent.withs[k].edge.kind.Many? && ValidDb(db)
    requires var w := parent.withs[k];
      w.child.path.None? && w.child.fields == [] && SameReach(db, parent, w.edge, w.child)
    ensures var w := parent.withs[k];
      var nodes := Scanned(SpecRows(db, parent), Names(parent.withs));
      var t := All(db, Traverse(parent, w.edge, w.child));
      var r := All(db, parent);
      t.Success? && r.Success? && |r.value| == |nodes| &&
      (forall i :: 0 <= i < |nodes| ==>
        HasList(r.value[i], w.edge.name, if IsLast(nodes, i) then Neighbours(w.edge, nodes[i].row, t.value) else [])) &&
      multiset(AllLists(w.edge.name, r.value)) == multiset(t.value)
  {
    var w := parent.withs[k];
    var nodes := Scanned(SpecRows(db, parent), Names(parent.withs));
    MembersAgree(db, parent, w.edge, w.child);
    EagerIsTraversal(db, parent, w.edge, w.child);
    assert w == With(w.edge, w.child);
    AllSucceeds(db, parent);
    AllKeepsRows(db, parent);
    var one := LoadEdge(db, w, nodes).value;
    forall i | 0 <= i < |nodes| ensures HasList(All(db, parent).value[i], w.edge.name, one[i].lists[w.edge.name]) {
      ListResolved(db, parent.withs, nodes, k, i);
    }
    SameLists(w.edge.name, one, All(db, parent).value);
  }
}
