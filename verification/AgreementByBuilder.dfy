/**
 Which builders make eager loading and traversal agree, whatever the database holds: the condition can be
 read off the parent's window, path and `Unique` setting and the kind of the edge. Where it fails, there is
 a database that tells the two routes apart.
 */
module AgreementByBuilder {
  import opened Prelude
  import opened Rows
  import opened Queries
  import opened Traversal
  import opened Agreement

  // ---------------------------------------------------------------- keys decide

  /** The keys of the returned rows are the keys the traversal joins on. */
  ghost predicate SameKeySet(db: Database, parent: Query, e: Edge) {
    forall k: Uuid :: Some(k) in TraversedKeys(db, parent, e) <==> Some(k) in NodeKeys(e, SpecRows(db, parent))
  }

  /** The traversal joins on each key once. */
  ghost predicate KeysOnce(db: Database, parent: Query, e: Edge) {
    forall k: Uuid :: Count(TraversedKeys(db, parent, e), k) <= 1
  }

  lemma KeysDecideReach(db: Database, parent: Query, e: Edge, child: Query)
    requires SameKeySet(db, parent, e) && (child.unique == Some(false) ==> KeysOnce(db, parent, e))
    ensures SameReach(db, parent, e, child)
  {
    forall r | r in TableRows(db, child.table)
      ensures Listed(db, parent, e, child, r) == if Asked(db, parent, e, r) then 1 else 0
    {
      var k := NeighbourKey(e, r);
      if k.Some? {
        CountPositive(TraversedKeys(db, parent, e), k.value);
        assert Some(k.value) in TraversedKeys(db, parent, e) <==> Asked(db, parent, e, r);
      }
    }
  }

  /** The same database with another neighbour table. */
  function Swapped(db: Database, t: Table, rows: seq<Row>): Database {
    db[t := rows]
  }

  /** The builder, or one it was reached from, reads the table. */
  predicate Reads(q: Query, t: Table)
    decreases q
  {
    q.table == t || (q.path.Some? && Reads(q.path.value.parent, t))
  }

  lemma {:induction false} BaseUnmoved(db: Database, q: Query, t: Table, rows: seq<Row>)
    requires !Reads(q, t)
    ensures Base(Swapped(db, t, rows), q) == Base(db, q)
    decreases q
  {
    if q.path.Some? {
      BaseUnmoved(db, q.path.value.parent, t, rows);
    }
  }

  /** The parent's rows and keys do not depend on a table it does not read. */
  lemma ParentUnmoved(db: Database, parent: Query, e: Edge, t: Table, rows: seq<Row>)
    requires !Reads(parent, t)
    ensures SpecRows(Swapped(db, t, rows), parent) == SpecRows(db, parent)
    ensures TraversedKeys(Swapped(db, t, rows), parent, e) == TraversedKeys(db, parent, e)
  {
    BaseUnmoved(db, parent, t, rows);
  }

  /** The child's predicates admit some neighbour with this key. */
  ghost predicate Admits(e: Edge, child: Query, k: Uuid) {
    exists r: Row :: NeighbourKey(e, r) == Some(k) && Satisfies(child.preds, r)
  }

  /** The routes agree on the keys that matter to this child. */
  ghost predicate SameAdmittedKeys(db: Database, parent: Query, e: Edge, child: Query) {
    forall k: Uuid :: Admits(e, child, k) ==>
      (Some(k) in TraversedKeys(db, parent, e) <==> Some(k) in NodeKeys(e, SpecRows(db, parent)))
  }

  lemma AdmittedKeysReach(db: Database, parent: Query, e: Edge, child: Query)
    requires child.unique != Some(false) && SameAdmittedKeys(db, parent, e, child)
    ensures SameReach(db, parent, e, child)
  {
    forall r | r in TableRows(db, child.table) && Satisfies(child.preds, r)
      ensures Listed(db, parent, e, child, r) == if Asked(db, parent, e, r) then 1 else 0
    {
      var k := NeighbourKey(e, r);
      if k.Some? {
        CountPositive(TraversedKeys(db, parent, e), k.value);
        assert Admits(e, child, k.value);
      }
    }
  }

  /** A table with a single neighbour: each route returns it or nothing. */
  lemma SingleNeighbour(db: Database, parent: Query, e: Edge, child: Query, r: Row)
    requires ValidDb(db) && child.path.None? && child.fields == [] && child.offset.None? && child.unique != Some(false)
    requires TableRows(db, child.table) == [r] && Satisfies(child.preds, r)
    ensures Same(db, parent, e, child) ==>
      (Hit(Own(e), TraversedKeys(db, parent, e), r) <==> Asked(db, parent, e, r))
  {
    var p := (x: Row) => Satisfies(child.preds, x);
    FilterAll(p, [r]);
    LoaderSelection(db, parent, e, child);
    TraversalSelection(db, parent, e, child);
    LoaderWindow(db, parent, e, child);
    TraversalWindow(db, parent, e, child);
    DistinctJoinIff(child.order, [r], Own(e), TraversedKeys(db, parent, e), x => Asked(db, parent, e, x));
    DistinctSort(child.order, Join([r], Own(e), TraversedKeys(db, parent, e)));
    DistinctJoin([r], Own(e), TraversedKeys(db, parent, e));
    AtMostOne(child, child.order, x => Asked(db, parent, e, x), r);
    AtMostOne(child, child.order, x => Hit(Own(e), TraversedKeys(db, parent, e), x), r);
  }

  /** Sorting and limiting a selection of one row does not change it. */
  lemma AtMostOne(child: Query, order: seq<OrderTerm>, p: Pred, r: Row)
    requires child.offset.None?
    ensures Windowed(child, Sort(order, Filter(p, [r]))) == if p(r) then [r] else []
  {
    assert [r][1..] == [];
  }

  /**
   For every parent, with any window, traversal or `Unique` setting, and every child without an offset: the
   routes agree whatever the neighbour table holds exactly when, for the keys that the child's predicates
   admit, the keys of the returned rows are the keys that the traversal joins on.
   */
  lemma KeysDecideIff(db: Database, parent: Query, e: Edge, child: Query)
    requires ValidDb(db) && !Reads(parent, child.table)
    requires child.path.None? && child.fields == [] && child.offset.None? && child.unique != Some(false)
    ensures (forall t: seq<Row> :: DistinctIds(t) ==> Same(Swapped(db, child.table, t), parent, e, child))
            <==> SameAdmittedKeys(db, parent, e, child)
  {
    if SameAdmittedKeys(db, parent, e, child) {
      forall t: seq<Row> | DistinctIds(t) ensures Same(Swapped(db, child.table, t), parent, e, child) {
        var d := Swapped(db, child.table, t);
        ParentUnmoved(db, parent, e, child.table, t);
        AdmittedKeysReach(d, parent, e, child);
        EagerIsTraversal(d, parent, e, child);
      }
    } else {
      var k: Uuid :| Admits(e, child, k) &&
        !(Some(k) in TraversedKeys(db, parent, e) <==> Some(k) in NodeKeys(e, SpecRows(db, parent)));
      var r: Row :| NeighbourKey(e, r) == Some(k) && Satisfies(child.preds, r);
      var d := Swapped(db, child.table, [r]);
      ParentUnmoved(db, parent, e, child.table, [r]);
      SingleNeighbour(d, parent, e, child, r);
      assert DistinctIds([r]) && !Same(d, parent, e, child);
    }
  }

  // ---------------------------------------------------------------- builders decide

  /** The two translations drop different repetitions: nodes against keys, or against nothing. */
  predicate DropsDifferently(parent: Query, e: Edge) {
    (e.kind.Held? && parent.unique == Some(true)) || (parent.path.Some? && parent.unique.None?)
  }

  predicate FirstRowOnly(q: Query) {
    q.limit == Some(1) && OffsetOf(q) == 0
  }

  /** No window; or a positive limit, and a window that cannot see the difference in repetitions. */
  predicate KeysAlign(parent: Query, e: Edge) {
    NoWindow(parent) ||
    (parent.limit.Some? && parent.limit.value > 0 && (DropsDifferently(parent, e) ==> FirstRowOnly(parent)))
  }

  /** No key is joined on twice. */
  predicate JoinsOnce(parent: Query, e: Edge) {
    parent.unique == Some(true) || (parent.path.None? && !e.kind.Held?) || parent.limit == Some(1)
  }

  /** What a caller can read off the builders. */
  predicate AgreesAlways(parent: Query, e: Edge, child: Query) {
    KeysAlign(parent, e) && (child.unique == Some(false) ==> JoinsOnce(parent, e))
  }

  /** The rows whose keys a traversal joins on. */
  function TraversedRows(db: Database, parent: Query, e: Edge): seq<Row> {
    EvalSelector(SqlQuery(parent).(columns := Some([JoinColumn(e)])), Base(db, parent))
  }

  /** Of a window of one row, both translations keep the key of the first node. */
  lemma FirstKey(db: Database, parent: Query, e: Edge)
    requires parent.fields == [] && FirstRowOnly(parent)
    ensures SameKeySet(db, parent, e)
  {
    var sel := Selected(parent.preds, parent.order, Base(db, parent));
    var projected := ProjectAll(Some([JoinColumn(e)]), sel);
    assert Drop(0, sel) == sel && Drop(0, Distinct(sel)) == Distinct(sel);
    assert Drop(0, projected) == projected && Drop(0, Distinct(projected)) == Distinct(projected);
    ProjectedKeys(e, sel);
    if sel != [] {
      assert SpecRows(db, parent) == [sel[0]];
      assert TraversedRows(db, parent, e) == [projected[0]];
      assert NodeKeys(e, projected)[0] == NodeKeys(e, sel)[0];
      assert TraversedKeys(db, parent, e) == [NodeKey(e, sel[0])] &&
        NodeKeys(e, SpecRows(db, parent)) == [NodeKey(e, sel[0])];
    } else {
      assert SpecRows(db, parent) == [] && TraversedRows(db, parent, e) == [];
    }
  }

  lemma SameTranslation(db: Database, parent: Query, e: Edge)
    requires parent.fields == [] && parent.limit.Some? && parent.limit.value > 0
    requires QuerySpec(parent).unique == SqlQuery(parent).distinct
    ensures SpecRows(db, parent) == SqlRows(db, parent)
  {
    var sel := Selected(parent.preds, parent.order, Base(db, parent));
    assert Drop(0, sel) == sel && Drop(0, Distinct(sel)) == Distinct(sel);
  }

  lemma AlignedKeys(db: Database, parent: Query, e: Edge)
    requires ValidDb(db) && parent.fields == [] && KeysAlign(parent, e)
    ensures SameKeySet(db, parent, e)
  {
    if NoWindow(parent) {
      TraversalKeySet(db, parent, e);
    } else if DropsDifferently(parent, e) {
      FirstKey(db, parent, e);
    } else {
      TraversalKeys(db, parent, e);
      SameTranslation(db, parent, e);
    }
  }

  lemma {:induction false} KeysCountOnce(keys: seq<Option<Uuid>>, k: Uuid)
    requires forall i, j :: 0 <= i < j < |keys| && keys[i].Some? ==> keys[i] != keys[j]
    ensures Count(keys, k) <= 1
  {
    if keys != [] {
      assert forall i :: 0 <= i < |keys[1..]| ==> keys[1..][i] == keys[i + 1];
      KeysCountOnce(keys[1..], k);
      CountPositive(keys[1..], k);
    }
  }

  lemma {:induction false} DistinctNoDup(s: seq<Row>)
    ensures NoDup(Distinct(s))
  {
    if s != [] {
      DistinctNoDup(s[1..]);
      var notHead := (y: Row) => y != s[0];
      FilterNoDup(notHead, Distinct(s[1..]));
      var rest := Filter(notHead, Distinct(s[1..]));
      forall k | 0 <= k < |rest| ensures rest[k] != s[0] {
        assert rest[k] in rest && notHead(rest[k]);
      }
      assert Distinct(s) == [s[0]] + rest;
    }
  }

  lemma {:induction false} FilterNoDup(p: Pred, s: seq<Row>)
    requires NoDup(s)
    ensures NoDup(Filter(p, s))
  {
    if s != [] {
      assert forall i :: 0 <= i < |s[1..]| ==> s[1..][i] == s[i + 1];
      FilterNoDup(p, s[1..]);
      var rest := Filter(p, s[1..]);
      forall k | 0 <= k < |rest| ensures rest[k] != s[0] {
        assert rest[k] in s[1..];
      }
    }
  }

  /** Rows that differ, and whose key determines them, have different keys. */
  lemma KeyedRowsOnce(e: Edge, s: seq<Row>, k: Uuid)
    requires NoDup(s)
    requires forall x, y :: x in s && y in s && NodeKey(e, x).Some? && NodeKey(e, x) == NodeKey(e, y) ==> x == y
    ensures Count(NodeKeys(e, s), k) <= 1
  {
    KeysCountOnce(NodeKeys(e, s), k);
  }

  /** A row reduced to the column of the join is determined by its key. */
  lemma KeyDeterminesProjection(db: Database, parent: Query, e: Edge, x: Row, y: Row)
    requires ValidDb(db) && (e.kind.Held? ==> e.column != ID)
    requires var sel := Selected(parent.preds, parent.order, Base(db, parent)); x in sel && y in sel
    requires var px, py := Project(x, [JoinColumn(e)]), Project(y, [JoinColumn(e)]);
      NodeKey(e, px).Some? && NodeKey(e, px) == NodeKey(e, py)
    ensures Project(x, [JoinColumn(e)]) == Project(y, [JoinColumn(e)])
  {
    if e.kind.Held? {
      var px, py := Project(x, [e.column]), Project(y, [e.column]);
      assert px.cols == map[e.column := Key(KeyOf(px, e.column).value)];
      assert py.cols == map[e.column := Key(KeyOf(py, e.column).value)];
    } else {
      BaseCoherent(db, parent);
      SelectedSubset(parent.preds, parent.order, Base(db, parent));
    }
  }

  lemma TraversedAreProjected(db: Database, parent: Query, e: Edge)
    requires parent.unique == Some(true)
    ensures var rows := TraversedRows(db, parent, e);
      var projected := ProjectAll(Some([JoinColumn(e)]), Selected(parent.preds, parent.order, Base(db, parent)));
      NoDup(rows) && forall x :: x in rows ==> x in projected
  {
    var projected := ProjectAll(Some([JoinColumn(e)]), Selected(parent.preds, parent.order, Base(db, parent)));
    DistinctNoDup(projected);
    WindowSubset(SqlQuery(parent), Distinct(projected));
  }

  lemma WindowSubset(sel: Selector, s: seq<Row>)
    requires NoDup(s)
    ensures NoDup(Window(sel, s)) && forall x :: x in Window(sel, s) ==> x in s
  {
  }

  lemma TraversedKeyedOnce(db: Database, parent: Query, e: Edge, x: Row, y: Row)
    requires ValidDb(db) && parent.unique == Some(true) && (e.kind.Held? ==> e.column != ID)
    requires x in TraversedRows(db, parent, e) && y in TraversedRows(db, parent, e)
    requires NodeKey(e, x).Some? && NodeKey(e, x) == NodeKey(e, y)
    ensures x == y
  {
    var sel := Selected(parent.preds, parent.order, Base(db, parent));
    var projected := ProjectAll(Some([JoinColumn(e)]), sel);
    TraversedAreProjected(db, parent, e);
    var i :| 0 <= i < |projected| && projected[i] == x;
    var j :| 0 <= j < |projected| && projected[j] == y;
    assert sel[i] in sel && sel[j] in sel;
    KeyDeterminesProjection(db, parent, e, sel[i], sel[j]);
  }

  lemma UniqueJoinsOnce(db: Database, parent: Query, e: Edge)
    requires ValidDb(db) && parent.unique == Some(true) && (e.kind.Held? ==> e.column != ID)
    ensures KeysOnce(db, parent, e)
  {
    var rows := TraversedRows(db, parent, e);
    TraversedAreProjected(db, parent, e);
    forall x, y | x in rows && y in rows && NodeKey(e, x).Some? && NodeKey(e, x) == NodeKey(e, y) ensures x == y {
      TraversedKeyedOnce(db, parent, e, x, y);
    }
    forall k: Uuid ensures Count(TraversedKeys(db, parent, e), k) <= 1 {
      KeyedRowsOnce(e, rows, k);
    }
  }

  lemma TableRowsHaveIds(db: Database, q: Query)
    requires ValidDb(db) && q.path.None? && q.fields == []
    ensures DistinctIds(SqlRows(db, q))
  {
    var sel := Selected(q.preds, q.order, Base(db, q));
    SelectedNoDup(q.preds, q.order, Base(db, q));
    DistinctNoop(sel);
    assert SqlRows(db, q) == Window(SqlQuery(q), sel);
  }

  lemma TableJoinsOnce(db: Database, parent: Query, e: Edge)
    requires ValidDb(db) && parent.path.None? && !e.kind.Held?
    ensures KeysOnce(db, parent, e)
  {
    var whole := parent.(fields := []);
    assert TraversedKeys(db, parent, e) == TraversedKeys(db, whole, e);
    TraversalKeys(db, whole, e);
    TableRowsHaveIds(db, whole);
    forall k: Uuid ensures Count(TraversedKeys(db, parent, e), k) <= 1 {
      KeyedRowsOnce(e, SqlRows(db, whole), k);
    }
  }

  lemma AlwaysJoinsOnce(db: Database, parent: Query, e: Edge)
    requires ValidDb(db) && (e.kind.Held? ==> e.column != ID) && JoinsOnce(parent, e)
    ensures KeysOnce(db, parent, e)
  {
    if parent.unique == Some(true) {
      UniqueJoinsOnce(db, parent, e);
    } else if parent.path.None? && !e.kind.Held? {
      TableJoinsOnce(db, parent, e);
    } else {
      forall k: Uuid ensures Count(TraversedKeys(db, parent, e), k) <= 1 {
        KeysCountOnce(TraversedKeys(db, parent, e), k);
      }
    }
  }

  /** For such builders, eager loading and traversal agree on every database. */
  lemma AlwaysReachesAlike(db: Database, parent: Query, e: Edge, child: Query)
    requires ValidDb(db) && parent.fields == [] && (e.kind.Held? ==> e.column != ID) && AgreesAlways(parent, e, child)
    ensures SameReach(db, parent, e, child)
  {
    AlignedKeys(db, parent, e);
    if child.unique == Some(false) {
      AlwaysJoinsOnce(db, parent, e);
    }
    KeysDecideReach(db, parent, e, child);
  }

  /**
   Also where the two translations of the parent denote the same rows on this database, for instance with an
   offset alone before a result that is not too long, unless the traversal drops repeated keys.
   */
  lemma SameRowsReachAlike(db: Database, parent: Query, e: Edge, child: Query)
    requires ValidDb(db) && parent.fields == [] && SpecRows(db, parent) == SqlRows(db, parent)
    requires e.kind.Held? ==> parent.unique != Some(true)
    requires child.unique == Some(false) ==> parent.path.None? && !e.kind.Held?
    ensures SameReach(db, parent, e, child)
  {
    TraversalKeys(db, parent, e);
    if child.unique == Some(false) {
      TableJoinsOnce(db, parent, e);
    }
    KeysDecideReach(db, parent, e, child);
  }
}
