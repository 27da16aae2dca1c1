/**
 When the restricted query of a loader and the traversal from the same builder find the same neighbours.
 The two join on keys that were selected by different translations, so the answer is decided by how often
 each neighbour is reached.
 */
module Agreement {
  import opened Prelude
  import opened Rows
  import opened Queries
  import opened Loading
  import opened Traversal

  // ---------------------------------------------------------------- joins against selections

  /** A key on the neighbour's side that the traversal joins on. */
  predicate Hit(own: Row -> Option<Uuid>, keys: seq<Option<Uuid>>, r: Row) {
    own(r).Some? && own(r) in keys
  }

  /** DISTINCT turns the join back into a selection. */
  lemma {:induction false} DistinctJoin(rows: seq<Row>, own: Row -> Option<Uuid>, keys: seq<Option<Uuid>>)
    requires DistinctIds(rows)
    ensures Distinct(Join(rows, own, keys)) == Filter(r => Hit(own, keys, r), rows)
  {
    if rows != [] {
      var h, t := rows[0], rows[1..];
      assert forall i :: 0 <= i < |t| ==> t[i] == rows[i + 1];
      DistinctJoin(t, own, keys);
      JoinSubset(t, own, keys);
      assert h !in t;
      var n := if own(h).Some? then Count(keys, own(h).value) else 0;
      assert Join(rows, own, keys) == seq(n, _ => h) + Join(t, own, keys);
      DistinctRepeat(h, n, Join(t, own, keys));
      if own(h).Some? {
        CountPositive(keys, own(h).value);
      }
    }
  }

  lemma {:induction false} FilterJoin(p: Pred, rows: seq<Row>, own: Row -> Option<Uuid>, keys: seq<Option<Uuid>>)
    ensures Filter(p, Join(rows, own, keys)) == Join(Filter(p, rows), own, keys)
  {
    if rows != [] {
      var h, t := rows[0], rows[1..];
      FilterJoin(p, t, own, keys);
      var rep := match own(h) case None => [] case Some(k) => seq(Count(keys, k), _ => h);
      assert forall x :: x in rep ==> x == h;
      FilterAppend(p, rep, Join(t, own, keys));
      if p(h) {
        FilterAll(p, rep);
        assert ([h] + Filter(p, t))[1..] == Filter(p, t);
      } else {
        FilterNone(p, rep);
        assert Filter(p, rows) == Filter(p, t);
      }
    }
  }

  /** How often a row with this key comes out of a join. */
  function Times(keys: seq<Option<Uuid>>, k: Option<Uuid>): nat {
    if k.None? then 0 else Count(keys, k.value)
  }

  /** A join that lists each row of a selection once, and no other row, is that selection. */
  lemma {:induction false} JoinIsSelection(rows: seq<Row>, own: Row -> Option<Uuid>, keys: seq<Option<Uuid>>, p: Pred)
    requires forall r :: r in rows ==> Times(keys, own(r)) == if p(r) then 1 else 0
    ensures Join(rows, own, keys) == Filter(p, rows)
  {
    if rows != [] {
      assert rows[0] in rows;
      JoinIsSelection(rows[1..], own, keys, p);
    }
  }

  lemma {:induction false} RepeatCount(h: Row, n: nat, x: Row)
    ensures multiset(seq(n, _ => h))[x] == if x == h then n else 0
  {
    if n > 0 {
      RepeatCount(h, n - 1, x);
      assert seq(n, _ => h) == seq(n - 1, _ => h) + [h];
    } else {
      assert seq(n, _ => h) == [];
    }
  }

  /** The multiplicity of a row in a join. */
  lemma {:induction false} JoinMultiplicity(rows: seq<Row>, own: Row -> Option<Uuid>, keys: seq<Option<Uuid>>, r: Row)
    requires DistinctIds(rows)
    ensures multiset(Join(rows, own, keys))[r] == if r in rows then Times(keys, own(r)) else 0
  {
    if rows != [] {
      var h, t := rows[0], rows[1..];
      assert forall i :: 0 <= i < |t| ==> t[i] == rows[i + 1];
      JoinMultiplicity(t, own, keys, r);
      assert h !in t;
      RepeatCount(h, Times(keys, own(h)), r);
      assert own(h).None? ==> seq(Times(keys, own(h)), _ => h) == [];
      assert Join(rows, own, keys) == seq(Times(keys, own(h)), _ => h) + Join(t, own, keys);
    }
  }

  lemma {:induction false} FilterMultiplicity(p: Pred, rows: seq<Row>, r: Row)
    requires DistinctIds(rows)
    ensures multiset(Filter(p, rows))[r] == if r in rows && p(r) then 1 else 0
  {
    if rows != [] {
      var h, t := rows[0], rows[1..];
      assert forall i :: 0 <= i < |t| ==> t[i] == rows[i + 1];
      FilterMultiplicity(p, t, r);
      assert h !in t;
    }
  }

  /** Sorting a join against sorting a selection: equal exactly when every row comes out as often. */
  lemma SortedJoinIff(order: seq<OrderTerm>, rows: seq<Row>, own: Row -> Option<Uuid>, keys: seq<Option<Uuid>>, p: Pred)
    requires DistinctIds(rows)
    ensures Sort(order, Join(rows, own, keys)) == Sort(order, Filter(p, rows)) <==>
      forall r :: r in rows ==> Times(keys, own(r)) == if p(r) then 1 else 0
  {
    if Sort(order, Join(rows, own, keys)) == Sort(order, Filter(p, rows)) {
      SortPermutes(order, Join(rows, own, keys));
      SortPermutes(order, Filter(p, rows));
      forall r | r in rows ensures Times(keys, own(r)) == if p(r) then 1 else 0 {
        JoinMultiplicity(rows, own, keys, r);
        FilterMultiplicity(p, rows, r);
      }
    } else if forall r :: r in rows ==> Times(keys, own(r)) == if p(r) then 1 else 0 {
      JoinIsSelection(rows, own, keys, p);
    }
  }

  /** The same after DISTINCT. */
  lemma DistinctJoinIff(order: seq<OrderTerm>, rows: seq<Row>, own: Row -> Option<Uuid>, keys: seq<Option<Uuid>>,
                        p: Pred)
    requires DistinctIds(rows)
    ensures Distinct(Sort(order, Join(rows, own, keys))) == Sort(order, Filter(p, rows)) <==>
      forall r :: r in rows ==> (Hit(own, keys, r) <==> p(r))
  {
    var hit := (r: Row) => Hit(own, keys, r);
    DistinctSort(order, Join(rows, own, keys));
    DistinctJoin(rows, own, keys);
    assert Distinct(Sort(order, Join(rows, own, keys))) == Sort(order, Filter(hit, rows));
    if Sort(order, Filter(hit, rows)) == Sort(order, Filter(p, rows)) {
      SortPermutes(order, Filter(hit, rows));
      SortPermutes(order, Filter(p, rows));
      forall r | r in rows ensures Hit(own, keys, r) <==> p(r) {
        FilterMultiplicity(hit, rows, r);
        FilterMultiplicity(p, rows, r);
      }
    } else if forall r :: r in rows ==> (Hit(own, keys, r) <==> p(r)) {
      FilterSame(hit, p, rows);
    }
  }

  // ---------------------------------------------------------------- the two routes

  /** The key of a neighbour, as a function. */
  function Own(e: Edge): Row -> Option<Uuid> {
    r => NeighbourKey(e, r)
  }

  /** The loader asks for the key of this neighbour. */
  predicate Asked(db: Database, parent: Query, e: Edge, r: Row) {
    Hit(Own(e), NodeKeys(e, SpecRows(db, parent)), r)
  }

  /** How often the traversal lists this neighbour, before offset and limit. */
  function Listed(db: Database, parent: Query, e: Edge, child: Query, r: Row): nat {
    var n := Times(TraversedKeys(db, parent, e), NeighbourKey(e, r));
    if child.unique == Some(false) || n == 0 then n else 1
  }

  /** Among the neighbours that the child's predicates admit, the traversal lists those asked for once, and no other. */
  predicate SameReach(db: Database, parent: Query, e: Edge, child: Query) {
    forall r :: r in TableRows(db, child.table) ==>
      (Satisfies(child.preds, r) ==> Listed(db, parent, e, child, r) == if Asked(db, parent, e, r) then 1 else 0)
  }

  /** The keys of the loader's query. */
  function LoaderKeys(db: Database, parent: Query, e: Edge): seq<Uuid> {
    Keys(e, Scanned(SpecRows(db, parent), Names(parent.withs)))
  }

  /** What each route selects, before offset and limit. */
  function LoaderSelects(db: Database, parent: Query, e: Edge, child: Query): seq<Row> {
    var n := Narrow(e, child, LoaderKeys(db, parent, e));
    Selected(n.preds, n.order, Base(db, n))
  }

  function TraversalSelects(db: Database, parent: Query, e: Edge, child: Query): seq<Row> {
    var t := Traverse(parent, e, child);
    var s := Selected(t.preds, t.order, Base(db, t));
    if child.unique == Some(false) then s else Distinct(s)
  }

  lemma {:induction false} JoinSame(rows: seq<Row>, f: Row -> Option<Uuid>, g: Row -> Option<Uuid>,
                                    keys: seq<Option<Uuid>>)
    requires forall r :: f(r) == g(r)
    ensures Join(rows, f, keys) == Join(rows, g, keys)
  {
    if rows != [] {
      JoinSame(rows[1..], f, g, keys);
    }
  }

  lemma {:induction false} FilterOfHits(p: Pred, q: Pred, extra: Pred, both: Pred, s: seq<Row>)
    requires forall r :: r in s ==> both(r) == (p(r) && extra(r))
    requires forall r :: r in s ==> q(r) == extra(r)
    ensures Filter(both, s) == Filter(q, Filter(p, s))
  {
    FilterTwice(q, p, r => q(r) && p(r), s);
    FilterSame(both, r => q(r) && p(r), s);
  }

  /** The loader selects, from the neighbours its child admits, those asked for. */
  lemma LoaderSelection(db: Database, parent: Query, e: Edge, child: Query)
    requires child.path.None?
    ensures LoaderSelects(db, parent, e, child) ==
      Sort(child.order, Filter(r => Asked(db, parent, e, r),
        Filter(r => Satisfies(child.preds, r), TableRows(db, child.table))))
  {
    var n := Narrow(e, child, LoaderKeys(db, parent, e));
    var base := TableRows(db, child.table);
    var extra := n.preds[|child.preds|];
    assert n.preds == child.preds + [extra];
    forall r | r in base
      ensures Satisfies(n.preds, r) == (Satisfies(child.preds, r) && extra(r)) && Asked(db, parent, e, r) == extra(r)
    {
      SatisfiesAppend(child.preds, extra, r);
      SameKeys(e, SpecRows(db, parent), Names(parent.withs), r);
    }
    FilterOfHits(r => Satisfies(child.preds, r), r => Asked(db, parent, e, r), extra, r => Satisfies(n.preds, r), base);
  }

  /** The traversal joins the neighbours its child admits. */
  lemma TraversalSelection(db: Database, parent: Query, e: Edge, child: Query)
    ensures var t := Traverse(parent, e, child);
      Selected(t.preds, t.order, Base(db, t)) ==
      Sort(child.order, Join(Filter(r => Satisfies(child.preds, r), TableRows(db, child.table)), Own(e),
        TraversedKeys(db, parent, e)))
  {
    var base := TableRows(db, child.table);
    var keys := TraversedKeys(db, parent, e);
    JoinSame(base, r => NeighbourKey(e, r), Own(e), keys);
    FilterJoin(r => Satisfies(child.preds, r), base, Own(e), keys);
  }

  /** Before any window, both routes select the same exactly when every neighbour is reached alike. */
  lemma SelectsAgreeIff(db: Database, parent: Query, e: Edge, child: Query)
    requires ValidDb(db) && child.path.None?
    ensures TraversalSelects(db, parent, e, child) == LoaderSelects(db, parent, e, child) <==>
      SameReach(db, parent, e, child)
  {
    var p := (r: Row) => Satisfies(child.preds, r);
    var asked := (r: Row) => Asked(db, parent, e, r);
    var rows := Filter(p, TableRows(db, child.table));
    var keys := TraversedKeys(db, parent, e);
    FilterKeepsIds(p, TableRows(db, child.table));
    LoaderSelection(db, parent, e, child);
    TraversalSelection(db, parent, e, child);
    SortedJoinIff(child.order, rows, Own(e), keys, asked);
    DistinctJoinIff(child.order, rows, Own(e), keys, asked);
    ReachOfAdmitted(db, parent, e, child);
  }

  lemma ReachOfAdmitted(db: Database, parent: Query, e: Edge, child: Query)
    ensures var rows := Filter(r => Satisfies(child.preds, r), TableRows(db, child.table));
      var keys := TraversedKeys(db, parent, e);
      SameReach(db, parent, e, child) <==>
        if child.unique == Some(false)
        then forall r :: r in rows ==> Times(keys, Own(e)(r)) == if Asked(db, parent, e, r) then 1 else 0
        else forall r :: r in rows ==> (Hit(Own(e), keys, r) <==> Asked(db, parent, e, r))
  {
    var keys := TraversedKeys(db, parent, e);
    forall r ensures Hit(Own(e), keys, r) <==> Times(keys, Own(e)(r)) > 0 {
      if Own(e)(r).Some? {
        CountPositive(keys, Own(e)(r).value);
      }
    }
  }

  lemma LoaderIsDistinct(db: Database, parent: Query, e: Edge, child: Query)
    requires ValidDb(db) && child.path.None?
    ensures Distinct(LoaderSelects(db, parent, e, child)) == LoaderSelects(db, parent, e, child)
  {
    var n := Narrow(e, child, LoaderKeys(db, parent, e));
    SelectedNoDup(n.preds, n.order, Base(db, n));
    DistinctNoop(LoaderSelects(db, parent, e, child));
  }

  function OffsetOf(q: Query): nat {
    if q.offset.Some? then q.offset.value else 0
  }

  /** The rows each route returns: the child's window over what it selects. */
  function Windowed(child: Query, s: seq<Row>): seq<Row> {
    var rest := Drop(OffsetOf(child), s);
    if child.limit.None? || child.limit == Some(0) then rest else Take(child.limit.value, rest)
  }

  lemma LoaderWindow(db: Database, parent: Query, e: Edge, child: Query)
    requires ValidDb(db) && child.path.None? && child.fields == []
    ensures SpecRows(db, Narrow(e, child, LoaderKeys(db, parent, e))) ==
      Windowed(child, LoaderSelects(db, parent, e, child))
  {
    LoaderIsDistinct(db, parent, e, child);
  }

  lemma TraversalWindow(db: Database, parent: Query, e: Edge, child: Query)
    requires child.fields == []
    ensures SpecRows(db, Traverse(parent, e, child)) == Windowed(child, TraversalSelects(db, parent, e, child))
  {
  }

  /** Both routes return the same rows. */
  predicate Same(db: Database, parent: Query, e: Edge, child: Query) {
    SpecRows(db, Narrow(e, child, LoaderKeys(db, parent, e))) == SpecRows(db, Traverse(parent, e, child))
  }

  /**
   Eager loading is traversal: if every neighbour is reached alike, the restricted query of a loader and the
   traversal from the same builder return the same nodes, in the same order, with the same nested edges, for
   every offset and limit on the neighbours.
   */
  lemma EagerIsTraversal(db: Database, parent: Query, e: Edge, child: Query)
    requires ValidDb(db) && child.path.None? && child.fields == [] && SameReach(db, parent, e, child)
    ensures Same(db, parent, e, child)
    ensures All(db, Narrow(e, child, LoaderKeys(db, parent, e))) == All(db, Traverse(parent, e, child))
  {
    SelectsAgreeIff(db, parent, e, child);
    LoaderWindow(db, parent, e, child);
    TraversalWindow(db, parent, e, child);
    assert Narrow(e, child, LoaderKeys(db, parent, e)).withs == Traverse(parent, e, child).withs;
  }

  /**
   That condition is exact, for every parent and every kind of edge: without a window on the neighbours both
   routes agree if and only if every neighbour is reached alike.
   */
  lemma EagerIsTraversalIff(db: Database, parent: Query, e: Edge, child: Query)
    requires ValidDb(db) && child.path.None? && child.fields == [] && NoWindow(child)
    ensures Same(db, parent, e, child) <==> SameReach(db, parent, e, child)
  {
    SelectsAgreeIff(db, parent, e, child);
    LoaderWindow(db, parent, e, child);
    TraversalWindow(db, parent, e, child);
    var a, b := LoaderSelects(db, parent, e, child), TraversalSelects(db, parent, e, child);
    assert Drop(0, a) == a && Drop(0, b) == b;
  }
}
