/**
 Selecting fields does not disturb joins: a builder tree with any fields selected at any level returns
 the same tree of nodes along the same edges as the tree without selections.
 */
module Projection {
  import opened Prelude
  import opened Rows
  import opened Queries
  import opened Loading
  import opened Traversal
  import opened Attachments

  /** The builder tree with every field selection removed. */
  function Strip(q: Query): (r: Query)
    ensures r.preds == q.preds && r.fields == [] && r.(fields := q.fields, withs := q.withs) == q
    decreases q, 0
  {
    q.(fields := [], withs := StripWiths(q.withs))
  }

  function StripWiths(withs: seq<With>): (r: seq<With>)
    ensures |r| == |withs| && forall i :: 0 <= i < |r| ==> r[i].edge == withs[i].edge
    decreases withs, 0
  {
    if withs == [] then []
    else
      assert withs[0] in withs;
      [StripWith(withs[0])] + StripWiths(withs[1..])
  }

  function StripWith(w: With): (r: With)
    ensures r.edge == w.edge && r.child.fields == []
    decreases w, 0
  {
    With(w.edge, Strip(w.child))
  }

  /** The two node trees have the same ids, requested edges and loaded edges, to depth `d`. */
  ghost predicate SameTo(d: nat, a: Loaded, b: Loaded)
    decreases d, 0
  {
    d == 0 ||
    (a.row.id == b.row.id && a.requested == b.requested &&
     a.ones.Keys == b.ones.Keys && a.lists.Keys == b.lists.Keys &&
     (forall k :: k in a.ones ==> SameTo(d - 1, a.ones[k], b.ones[k])) &&
     (forall k :: k in a.lists ==> AllSame(d - 1, a.lists[k], b.lists[k])))
  }

  ghost predicate AllSame(d: nat, a: seq<Loaded>, b: seq<Loaded>)
    decreases d, 1
  {
    |a| == |b| && forall i :: 0 <= i < |a| ==> SameTo(d, a[i], b[i])
  }

  /** As `AllSame`, where the rows on the left are projections of the rows on the right. */
  ghost predicate Parallel(d: nat, columns: Option<seq<Column>>, a: seq<Loaded>, b: seq<Loaded>) {
    AllSame(d, a, b) && forall i :: 0 <= i < |a| ==> a[i].row == ProjectedRow(columns, b[i].row)
  }

  lemma ProjectSpecWindow(columns: Option<seq<Column>>, offset: nat, limit: nat, rows: seq<Row>)
    ensures var w := (s: seq<Row>) => if limit == 0 then Drop(offset, s) else Take(limit, Drop(offset, s));
      w(ProjectAll(columns, rows)) == ProjectAll(columns, w(rows))
  {
  }

  /** The rows of a projected builder are the projections of the rows of the stripped one. */
  lemma RowsProject(db: Database, q: Query)
    requires ValidDb(db)
    ensures SpecRows(db, q) == ProjectAll(SpecColumns(q.fields, q.withs), SpecRows(db, Strip(q)))
  {
    var columns := SpecColumns(q.fields, q.withs);
    var base := Base(db, q);
    assert Base(db, Strip(q)) == base;
    var sel := Selected(q.preds, q.order, base);
    BaseCoherent(db, q);
    SelectedSubset(q.preds, q.order, base);
    SpecKeepsId(q);
    DistinctProject(columns, sel);
    var spec := QuerySpec(q);
    var d := if spec.unique then Distinct(sel) else sel;
    ProjectSpecWindow(columns, spec.offset, spec.limit, d);
    assert QuerySpec(Strip(q)) == spec.(columns := None);
  }

  lemma NarrowStrip(e: Edge, c: Query, keys: seq<Uuid>)
    ensures Strip(Narrow(e, c, keys)) == Narrow(e, Strip(c), keys)
  {
  }

  lemma NamesStrip(withs: seq<With>)
    ensures Names(StripWiths(withs)) == Names(withs)
  {
    forall n ensures n in Names(StripWiths(withs)) <==> n in Names(withs) {
      if n in Names(withs) {
        var i :| 0 <= i < |withs| && withs[i].edge.name == n;
        assert StripWiths(withs)[i].edge.name == n;
      }
    }
  }

  lemma ParallelKeys(e: Edge, d: nat, columns: Option<seq<Column>>, a: seq<Loaded>, b: seq<Loaded>)
    requires d > 0 && Parallel(d, columns, a, b) && (columns.None? || !e.kind.Held? || e.column in columns.value)
    ensures forall i :: 0 <= i < |a| ==> NodeKey(e, a[i].row) == NodeKey(e, b[i].row)
    ensures Keys(e, a) == Keys(e, b)
  {
    forall i | 0 <= i < |a| ensures NodeKey(e, a[i].row) == NodeKey(e, b[i].row) {
      assert SameTo(d, a[i], b[i]);
    }
    if e.kind.Held? {
      forall i | 0 <= i < |a| ensures KeyOf(a[i].row, e.column) == KeyOf(b[i].row, e.column) {
        assert NodeKey(e, a[i].row) == NodeKey(e, b[i].row);
      }
      HeldIdsParallel(e, a, b);
    }
  }

  lemma {:induction false} HeldIdsParallel(e: Edge, a: seq<Loaded>, b: seq<Loaded>)
    requires |a| == |b| && forall i :: 0 <= i < |a| ==> KeyOf(a[i].row, e.column) == KeyOf(b[i].row, e.column)
    ensures HeldIds(e, a) == HeldIds(e, b)
  {
    if a != [] {
      HeldIdsParallel(e, a[..|a| - 1], b[..|b| - 1]);
    }
  }

  /** The same neighbours are linked on both sides. */
  lemma {:induction false} NeighboursParallel(e: Edge, d: nat, r: Row, r': Row, a: seq<Loaded>, b: seq<Loaded>)
    requires NodeKey(e, r) == NodeKey(e, r') && AllSame(d, a, b)
    requires forall i :: 0 <= i < |a| ==> NeighbourKey(e, a[i].row) == NeighbourKey(e, b[i].row)
    ensures AllSame(d, Neighbours(e, r, a), Neighbours(e, r', b))
  {
    if a != [] {
      NeighboursParallel(e, d, r, r', a[1..], b[1..]);
    }
  }

  lemma AttachSame(e: Edge, d: nat, a: seq<Loaded>, b: seq<Loaded>, i: nat, ns: seq<Loaded>, ns': seq<Loaded>)
    requires d > 0 && i < |a| == |b| && SameTo(d, a[i], b[i])
    requires NodeKey(e, a[i].row) == NodeKey(e, b[i].row) && (IsLast(a, i) <==> IsLast(b, i))
    requires AllSame(d - 1, ns, ns')
    requires forall j :: 0 <= j < |ns| ==> NeighbourKey(e, ns[j].row) == NeighbourKey(e, ns'[j].row)
    ensures SameTo(d, Attach(e, a, i, ns), Attach(e, b, i, ns'))
  {
    var mine, mine' := Neighbours(e, a[i].row, ns), Neighbours(e, b[i].row, ns');
    NeighboursParallel(e, d - 1, a[i].row, b[i].row, ns, ns');
    if e.kind.Many? {
      SetListSame(e.name, d, a[i], b[i], if IsLast(a, i) then mine else [], if IsLast(b, i) then mine' else []);
    } else if mine != [] {
      SetOneSame(e.name, d, a[i], b[i], mine[|mine| - 1], mine'[|mine'| - 1]);
    }
  }

  lemma SetListSame(name: string, d: nat, x: Loaded, y: Loaded, list: seq<Loaded>, list': seq<Loaded>)
    requires d > 0 && SameTo(d, x, y) && AllSame(d - 1, list, list')
    ensures SameTo(d, x.(lists := x.lists[name := list]), y.(lists := y.lists[name := list']))
  {
  }

  lemma SetOneSame(name: string, d: nat, x: Loaded, y: Loaded, one: Loaded, one': Loaded)
    requires d > 0 && SameTo(d, x, y) && SameTo(d - 1, one, one')
    ensures SameTo(d, x.(ones := x.ones[name := one]), y.(ones := y.ones[name := one']))
  {
  }

  lemma LastParallel(a: seq<Loaded>, b: seq<Loaded>, i: nat)
    requires i < |a| == |b| && forall j :: 0 <= j < |a| ==> a[j].row.id == b[j].row.id
    ensures IsLast(a, i) <==> IsLast(b, i)
  {
  }

  lemma AttachParallel(e: Edge, d: nat, columns: Option<seq<Column>>, a: seq<Loaded>, b: seq<Loaded>,
                       ns: seq<Loaded>, ns': seq<Loaded>)
    requires d > 0 && Parallel(d, columns, a, b)
    requires forall i :: 0 <= i < |a| ==> NodeKey(e, a[i].row) == NodeKey(e, b[i].row)
    requires AllSame(d - 1, ns, ns')
    requires forall i :: 0 <= i < |ns| ==> NeighbourKey(e, ns[i].row) == NeighbourKey(e, ns'[i].row)
    ensures Parallel(d, columns, AttachAll(e, a, ns), AttachAll(e, b, ns'))
  {
    forall i | 0 <= i < |a| ensures a[i].row.id == b[i].row.id {
      assert SameTo(d, a[i], b[i]);
    }
    forall i | 0 <= i < |a| ensures SameTo(d, Attach(e, a, i, ns), Attach(e, b, i, ns')) {
      LastParallel(a, b, i);
      AttachSame(e, d, a, b, i, ns, ns');
    }
    AttachKeepsRows(e, a, ns);
    AttachKeepsRows(e, b, ns');
  }

  /**
   For every list of selected fields on every builder of the tree, the returned node tree is that of the
   stripped builder tree, with rows reduced to the selected columns.
   */
  lemma {:induction false} ProjectionKeepsEdges(db: Database, q: Query, d: nat)
    requires ValidDb(db)
    ensures All(db, q).Success? && All(db, Strip(q)).Success?
    ensures Parallel(d, SpecColumns(q.fields, q.withs), All(db, q).value, All(db, Strip(q)).value)
    decreases Size(q), 0, 0
  {
    AllSucceeds(db, q);
    AllSucceeds(db, Strip(q));
    RowsProject(db, q);
    SpecKeepsId(q);
    NamesStrip(q.withs);
    var columns := SpecColumns(q.fields, q.withs);
    var a := Scanned(SpecRows(db, q), Names(q.withs));
    var b := Scanned(SpecRows(db, Strip(q)), Names(q.withs));
    forall i | 0 <= i < |a| ensures SameTo(d, a[i], b[i]) && a[i].row == ProjectedRow(columns, b[i].row) { }
    if q.fields != [] {
      ColumnsSuffice(q.fields, q.withs);
    }
    LoadAllParallel(db, q.withs, d, columns, a, b);
    if a == [] {
      assert All(db, q).value == [] && All(db, Strip(q)).value == [];
    }
  }

  lemma {:induction false} LoadAllParallel(db: Database, withs: seq<With>, d: nat, columns: Option<seq<Column>>,
                                           a: seq<Loaded>, b: seq<Loaded>)
    requires ValidDb(db) && Parallel(d, columns, a, b)
    requires columns.None? || forall w :: w in withs && w.edge.kind.Held? ==> w.edge.column in columns.value
    ensures LoadAll(db, withs, a).Success? && LoadAll(db, StripWiths(withs), b).Success?
    ensures Parallel(d, columns, LoadAll(db, withs, a).value, LoadAll(db, StripWiths(withs), b).value)
    decreases WithsSize(withs), 1, |withs|
  {
    if withs != [] {
      assert WithsSize(withs) == Size(withs[0].child) + WithsSize(withs[1..]);
      assert StripWiths(withs)[0] == StripWith(withs[0]) && StripWiths(withs)[1..] == StripWiths(withs[1..]);
      assert withs[0] in withs;
      LoadEdgeParallel(db, withs[0], d, columns, a, b);
      forall w | w in withs[1..] ensures w in withs { }
      LoadAllParallel(db, withs[1..], d, columns, LoadEdge(db, withs[0], a).value,
        LoadEdge(db, StripWith(withs[0]), b).value);
    }
  }

  lemma {:induction false} LoadEdgeParallel(db: Database, w: With, d: nat, columns: Option<seq<Column>>,
                                            a: seq<Loaded>, b: seq<Loaded>)
    requires ValidDb(db) && Parallel(d, columns, a, b)
    requires columns.None? || !w.edge.kind.Held? || w.edge.column in columns.value
    ensures LoadEdge(db, w, a).Success? && LoadEdge(db, StripWith(w), b).Success?
    ensures Parallel(d, columns, LoadEdge(db, w, a).value, LoadEdge(db, StripWith(w), b).value)
    decreases Size(w.child), 1, 0
  {
    var e := w.edge;
    assert w == With(e, w.child);
    LoadEdgeAttaches(db, e, w.child, a);
    LoadEdgeAttaches(db, e, Strip(w.child), b);
    if d > 0 {
      ParallelKeys(e, d, columns, a, b);
      var keys := Keys(e, a);
      var q := Narrow(e, w.child, keys);
      NarrowStrip(e, w.child, keys);
      ProjectionKeepsEdges(db, q, d - 1);
      NarrowColumns(e, w.child, keys);
      var ns, ns' := All(db, q).value, All(db, Strip(q)).value;
      forall i | 0 <= i < |ns| ensures NeighbourKey(e, ns[i].row) == NeighbourKey(e, ns'[i].row) {
        ProjectionKeepsKey(e, SpecColumns(q.fields, q.withs), ns'[i].row);
      }
      AttachParallel(e, d, columns, a, b, ns, ns');
    } else {
      AttachKeepsRows(e, a, Fetched(db, e, w.child, a).value);
      AttachKeepsRows(e, b, Fetched(db, e, Strip(w.child), b).value);
    }
  }

  lemma AttachKeepsRows(e: Edge, nodes: seq<Loaded>, ns: seq<Loaded>)
    ensures forall i :: 0 <= i < |nodes| ==> AttachAll(e, nodes, ns)[i].row == nodes[i].row
  {
  }
}
