/**
 Eager loading and graph traversal are two routes along the same edge: `WithMembers` attaches to each
 group what `QueryMembers` on the same builder returns in one list.
 */
module Traversal {
  import opened Prelude
  import opened Rows
  import opened Queries
  import opened Loading

  /** `QueryMembers`, `QueryChat` and their kind: the neighbour builder starting from another builder. */
  function Traverse(parent: Query, e: Edge, child: Query): Query {
    child.(path := Some(Via(parent, e)))
  }

  // ---------------------------------------------------------------- the unexpected-key errors are unreachable

  /** Every row a projected query returns comes from a row that met the predicates. */
  lemma SpecRowsOrigin(db: Database, q: Query, r: Row)
    requires r in SpecRows(db, q)
    ensures exists x ::
      x in Base(db, q) && Satisfies(q.preds, x) && r == ProjectedRow(SpecColumns(q.fields, q.withs), x)
  {
    var spec := QuerySpec(q);
    var sel := Selected(q.preds, q.order, Base(db, q));
    var rows := ProjectAll(spec.columns, sel);
    assert r in (if spec.unique then Distinct(rows) else rows);
    var i :| 0 <= i < |rows| && rows[i] == r;
    SelectedSubset(q.preds, q.order, Base(db, q));
    assert sel[i] in sel;
    assert r == ProjectedRow(spec.columns, sel[i]);
  }

  function ProjectedRow(columns: Option<seq<Column>>, r: Row): Row {
    if columns.None? then r else Project(r, columns.value)
  }

  lemma ProjectionKeepsKey(e: Edge, columns: Option<seq<Column>>, x: Row)
    requires KeepsId(columns) && (columns.None? || e.kind.Held? || e.column in columns.value)
    ensures NeighbourKey(e, ProjectedRow(columns, x)) == NeighbourKey(e, x)
  {
  }

  /** The projection of a restricted builder keeps the id and the key the loader reads. */
  lemma NarrowColumns(e: Edge, child: Query, keys: seq<Uuid>)
    ensures var q := Narrow(e, child, keys);
      var columns := SpecColumns(q.fields, q.withs);
      KeepsId(columns) && (columns.None? || e.kind.Held? || e.column in columns.value)
  {
    var q := Narrow(e, child, keys);
    SpecKeepsId(q);
    if q.fields != [] {
      ColumnsSuffice(q.fields, q.withs);
      assert !e.kind.Held? ==> e.column in q.fields;
    }
  }

  lemma NarrowPred(e: Edge, child: Query, keys: seq<Uuid>, x: Row)
    requires Satisfies(Narrow(e, child, keys).preds, x)
    ensures NeighbourKey(e, x).Some? && NeighbourKey(e, x).value in keys
  {
    assert Narrow(e, child, keys).preds[|child.preds|](x);
  }

  /** A restricted neighbour builder only returns neighbours that were asked for. */
  lemma NarrowReturnsExpected(db: Database, e: Edge, child: Query, keys: seq<Uuid>, r: Row)
    requires r in SpecRows(db, Narrow(e, child, keys))
    ensures NeighbourKey(e, r).Some? && NeighbourKey(e, r).value in keys
  {
    var q := Narrow(e, child, keys);
    SpecRowsOrigin(db, q, r);
    var columns := SpecColumns(q.fields, q.withs);
    var x :| x in Base(db, q) && Satisfies(q.preds, x) && r == ProjectedRow(columns, x);
    NarrowPred(e, child, keys, x);
    NarrowColumns(e, child, keys);
    ProjectionKeepsKey(e, columns, x);
  }

  /** Loading edges never changes which rows were scanned or which edges were requested. */
  lemma {:induction false} LoadAllKeepsRows(db: Database, withs: seq<With>, nodes: seq<Loaded>)
    ensures LoadAll(db, withs, nodes).Success? ==>
      var r := LoadAll(db, withs, nodes).value;
      |r| == |nodes| && forall i :: 0 <= i < |nodes| ==>
        r[i].row == nodes[i].row && r[i].requested == nodes[i].requested
    decreases |withs|
  {
    if withs != [] {
      var r := LoadEdge(db, withs[0], nodes);
      if r.Success? {
        LoadAllKeepsRows(db, withs[1..], r.value);
      }
    }
  }

  /** The nodes `All` returns are its rows, in order. */
  lemma AllKeepsRows(db: Database, q: Query)
    ensures All(db, q).Success? ==>
      var r := All(db, q).value;
      |r| == |SpecRows(db, q)| &&
      forall i :: 0 <= i < |r| ==> r[i].row == SpecRows(db, q)[i] && r[i].requested == Names(q.withs)
  {
    LoadAllKeepsRows(db, q.withs, Scanned(SpecRows(db, q), Names(q.withs)));
  }

  /**
   For every database and every builder tree, `All` succeeds: none of the unexpected-foreign-key errors
   in the loaders can occur, whatever fields, limits and nested edges the builders carry.
   */
  lemma {:induction false} AllSucceeds(db: Database, q: Query)
    ensures All(db, q).Success?
    decreases Size(q), 0, 0
  {
    LoadAllSucceeds(db, q.withs, Scanned(SpecRows(db, q), Names(q.withs)));
  }

  lemma {:induction false} LoadAllSucceeds(db: Database, withs: seq<With>, nodes: seq<Loaded>)
    ensures LoadAll(db, withs, nodes).Success?
    decreases WithsSize(withs), 1, |withs|
  {
    if withs != [] {
      assert WithsSize(withs) == Size(withs[0].child) + WithsSize(withs[1..]);
      LoadEdgeSucceeds(db, withs[0], nodes);
      LoadAllSucceeds(db, withs[1..], LoadEdge(db, withs[0], nodes).value);
    }
  }

  lemma {:induction false} LoadEdgeSucceeds(db: Database, w: With, nodes: seq<Loaded>)
    ensures LoadEdge(db, w, nodes).Success?
    decreases Size(w.child), 1, 0
  {
    var e, keys := w.edge, Keys(w.edge, nodes);
    var q := Narrow(e, w.child, keys);
    AllSucceeds(db, q);
    AllKeepsRows(db, q);
    var ns := All(db, q).value;
    forall i | 0 <= i < |ns| ensures Expected(e, keys, ns[i]) {
      NarrowReturnsExpected(db, e, w.child, keys, ns[i].row);
    }
    UnexpectedIff(e, keys, ns);
  }

  // ---------------------------------------------------------------- the same neighbours by both routes

  lemma {:induction false} CountPositive(keys: seq<Option<Uuid>>, k: Uuid)
    ensures Count(keys, k) > 0 <==> Some(k) in keys
  {
    if keys != [] {
      CountPositive(keys[1..], k);
    }
  }

  lemma DistinctCons(h: Row, s: seq<Row>)
    ensures Distinct([h] + s) == [h] + Filter(y => y != h, Distinct(s))
  {
    assert ([h] + s)[1..] == s;
  }

  lemma {:induction false} DistinctRepeat(h: Row, n: nat, s: seq<Row>)
    requires h !in s
    ensures Distinct(seq(n, _ => h) + s) == if n == 0 then Distinct(s) else [h] + Distinct(s)
  {
    var rep := seq(n, _ => h);
    if n == 0 {
      assert rep + s == s;
    } else {
      var less := seq(n - 1, _ => h);
      var notH := (y: Row) => y != h;
      assert rep + s == [h] + (less + s);
      DistinctRepeat(h, n - 1, s);
      FilterAll(notH, Distinct(s));
      FilterCons(notH, h, Distinct(s));
      DistinctCons(h, less + s);
    }
  }

  lemma ProjectedKeys(e: Edge, s: seq<Row>)
    ensures NodeKeys(e, ProjectAll(Some([JoinColumn(e)]), s)) == NodeKeys(e, s)
  {
  }

  /** Selecting other columns does not change which rows offset and limit keep. */
  lemma ProjectWindow(columns: Option<seq<Column>>, sel: Selector, rows: seq<Row>)
    ensures Window(sel, ProjectAll(columns, rows)) == ProjectAll(columns, Window(sel, rows))
  {
  }

  function Window(sel: Selector, rows: seq<Row>): seq<Row> {
    var rows := if sel.offset.Some? then Drop(sel.offset.value, rows) else rows;
    if sel.limit.Some? then Take(sel.limit.value, rows) else rows
  }

  /** The keys that a traversal from `parent` joins on. */
  function TraversedKeys(db: Database, parent: Query, e: Edge): seq<Option<Uuid>> {
    NodeKeys(e, EvalSelector(SqlQuery(parent).(columns := Some([JoinColumn(e)])), Base(db, parent)))
  }

  /** The traversed keys are those of the rows that `parent` selects, unless it drops repeated keys. */
  lemma TraversalKeys(db: Database, parent: Query, e: Edge)
    requires ValidDb(db) && parent.fields == []
    requires e.kind.Held? ==> parent.unique != Some(true)
    ensures TraversedKeys(db, parent, e) == NodeKeys(e, SqlRows(db, parent))
  {
    var base := Base(db, parent);
    var sel := Selected(parent.preds, parent.order, base);
    var cols := Some([JoinColumn(e)]);
    var s := SqlQuery(parent);
    var d := if s.distinct then Distinct(sel) else sel;
    if s.distinct {
      BaseCoherent(db, parent);
      SelectedSubset(parent.preds, parent.order, base);
      DistinctProject(cols, sel);
    }
    ProjectWindow(cols, s, d);
    assert EvalSelector(s.(columns := cols), base) == Window(s, ProjectAll(cols, d));
    assert SqlRows(db, parent) == Window(s, d);
    ProjectedKeys(e, Window(s, d));
  }

  lemma SameMembersSameKeys(e: Edge, a: seq<Row>, b: seq<Row>)
    requires forall r :: r in a <==> r in b
    ensures forall k :: k in NodeKeys(e, a) <==> k in NodeKeys(e, b)
  {
    forall k ensures k in NodeKeys(e, a) <==> k in NodeKeys(e, b) {
      if i :| 0 <= i < |a| && NodeKeys(e, a)[i] == k {
        assert a[i] in b;
        var j :| 0 <= j < |b| && b[j] == a[i];
        assert NodeKeys(e, b)[j] == k;
      }
      if j :| 0 <= j < |b| && NodeKeys(e, b)[j] == k {
        assert b[j] in a;
        var i :| 0 <= i < |a| && a[i] == b[j];
        assert NodeKeys(e, a)[i] == k;
      }
    }
  }

  predicate NoWindow(q: Query) {
    q.limit.None? && q.offset.None?
  }

  /** Dropping repeated keys loses none of them as long as there is no offset or limit to follow. */
  lemma TraversalKeySet(db: Database, parent: Query, e: Edge)
    requires ValidDb(db) && parent.fields == [] && NoWindow(parent)
    ensures forall k :: k in TraversedKeys(db, parent, e) <==> k in NodeKeys(e, SpecRows(db, parent))
  {
    var sel := Selected(parent.preds, parent.order, Base(db, parent));
    var projected := ProjectAll(Some([JoinColumn(e)]), sel);
    SameMembersSameKeys(e, Distinct(projected), projected);
    ProjectedKeys(e, sel);
    assert Drop(0, sel) == sel && Drop(0, Distinct(sel)) == Distinct(sel);
    SameMembersSameKeys(e, Distinct(sel), sel);
  }

  lemma SelectedNoDup(preds: seq<Pred>, order: seq<OrderTerm>, base: seq<Row>)
    requires DistinctIds(base)
    ensures NoDup(Selected(preds, order, base)) && DistinctIds(Selected(preds, order, base))
  {
    var f := Filter(r => Satisfies(preds, r), base);
    FilterKeepsIds(r => Satisfies(preds, r), base);
    SortKeepsIds(order, f);
  }

  lemma {:induction false} SortKeepsIds(order: seq<OrderTerm>, s: seq<Row>)
    requires DistinctIds(s)
    ensures DistinctIds(Sort(order, s))
  {
    if s != [] {
      assert forall i :: 0 <= i < |s[1..]| ==> s[1..][i] == s[i + 1];
      SortKeepsIds(order, s[1..]);
      SortPermutes(order, s[1..]);
      var t := Sort(order, s[1..]);
      forall k | 0 <= k < |t| ensures t[k].id != s[0].id {
        assert t[k] in multiset(s[1..]);
        assert t[k] in s[1..];
      }
      InsertKeepsIds(order, s[0], t);
    }
  }

  lemma {:induction false} InsertKeepsIds(order: seq<OrderTerm>, x: Row, s: seq<Row>)
    requires DistinctIds(s) && forall k :: 0 <= k < |s| ==> s[k].id != x.id
    ensures DistinctIds(Insert(order, x, s))
  {
    if s != [] && Before(order, s[0], x) {
      assert forall i :: 0 <= i < |s[1..]| ==> s[1..][i] == s[i + 1];
      InsertKeepsIds(order, x, s[1..]);
      InsertAdds(order, x, s[1..]);
      var t := Insert(order, x, s[1..]);
      forall k | 0 <= k < |t| ensures t[k].id != s[0].id {
        assert t[k] in multiset(t);
        assert t[k] == x || t[k] in s[1..];
      }
    }
  }

  /** The keys asked for eagerly and the keys joined on are the same keys. */
  lemma SameKeys(e: Edge, rows: seq<Row>, requested: set<string>, r: Row)
    ensures var k := NeighbourKey(e, r);
      (k.Some? && k.value in Keys(e, Scanned(rows, requested))) <==> (k.Some? && k in NodeKeys(e, rows))
  {
    var k := NeighbourKey(e, r);
    if k.Some? {
      var nodes := Scanned(rows, requested);
      KeysExact(e, nodes, k.value);
      if k in NodeKeys(e, rows) {
        var i :| 0 <= i < |rows| && NodeKeys(e, rows)[i] == k;
        assert NodeKey(e, nodes[i].row) == k;
      }
      if i :| 0 <= i < |nodes| && NodeKey(e, nodes[i].row) == k {
        assert NodeKeys(e, rows)[i] == k;
      }
    }
  }

  lemma {:induction false} DistinctCoherent(s: seq<Row>)
    requires Coherent(s)
    ensures DistinctIds(Distinct(s))
  {
    if s != [] {
      forall x | x in s[1..] ensures x in s { }
      DistinctCoherent(s[1..]);
      var rest := Filter(y => y != s[0], Distinct(s[1..]));
      FilterKeepsIds(y => y != s[0], Distinct(s[1..]));
      forall k | 0 <= k < |rest| ensures rest[k].id != s[0].id {
        assert rest[k] in Distinct(s[1..]) && rest[k] != s[0];
        assert s[0] in s && rest[k] in s;
      }
    }
  }

  lemma WindowKeepsIds(o: nat, l: nat, s: seq<Row>)
    requires DistinctIds(s)
    ensures DistinctIds(Drop(o, s)) && DistinctIds(Take(l, Drop(o, s)))
  {
  }

  lemma RowsWithIds(db: Database, q: Query, matching: seq<Row>)
    requires q.fields == [] && DistinctIds(matching)
    requires var s := Selected(q.preds, q.order, Base(db, q));
      matching == if QuerySpec(q).unique then Distinct(s) else s
    ensures DistinctIds(SpecRows(db, q))
  {
    WindowKeepsIds(QuerySpec(q).offset, QuerySpec(q).limit, matching);
  }

  /** Nodes have distinct ids, unless a traversal was told to keep repetitions. */
  lemma ParentIdsDistinct(db: Database, q: Query)
    requires ValidDb(db) && q.fields == [] && (q.path.Some? ==> q.unique != Some(false))
    ensures DistinctIds(SpecRows(db, q))
  {
    var s := Selected(q.preds, q.order, Base(db, q));
    if q.path.None? {
      SelectedNoDup(q.preds, q.order, Base(db, q));
      DistinctNoop(s);
      RowsWithIds(db, q, s);
    } else {
      BaseCoherent(db, q);
      SelectedSubset(q.preds, q.order, Base(db, q));
      DistinctCoherent(s);
      RowsWithIds(db, q, Distinct(s));
    }
  }
}
