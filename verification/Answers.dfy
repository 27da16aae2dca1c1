/**
 What `All` of a builder returns, said without the way it is computed: which rows, how often, in which
 order, which part of them, and with which columns.
 */
module Answers {
  import opened Prelude
  import opened Rows
  import opened Queries

  /** The rows to choose from: those of the table or of the traversal, each once under DISTINCT. */
  function Candidates(db: Database, q: Query): seq<Row> {
    if (if q.unique.Some? then q.unique.value else q.path.Some?) then Distinct(Base(db, q)) else Base(db, q)
  }

  /** The rows that the predicates admit, each as often as it is a candidate. */
  ghost predicate Admitted(preds: seq<Pred>, candidates: seq<Row>, rows: seq<Row>) {
    forall x :: multiset(rows)[x] ==
      if forall i :: 0 <= i < |preds| ==> preds[i](x) then multiset(candidates)[x] else 0
  }

  /** Ordered by all terms, the first being the most significant; rows that no term separates keep their order. */
  ghost predicate Ordered(preds: seq<Pred>, order: seq<OrderTerm>, candidates: seq<Row>, rows: seq<Row>) {
    (forall i, j, k :: 0 <= i < j < |rows| && 0 <= k < |order| ==> !Separates(order, k, rows[j], rows[i])) &&
    forall x :: TiedTo(order, x, rows) == Filter(y => Satisfies(preds, y), TiedTo(order, x, candidates))
  }

  /** The rows that no term separates from `x`. */
  function TiedTo(order: seq<OrderTerm>, x: Row, rows: seq<Row>): seq<Row> {
    Filter(y => Tied(order, x, y), rows)
  }

  /** The part of a list of `n` rows that offset and limit leave: from and to. */
  function Window(limit: Option<nat>, offset: Option<nat>, n: nat): (w: (nat, nat))
    ensures w.0 <= w.1 <= n
  {
    var from := if offset.Some? then offset.value else 0;
    if from >= n then (n, n)
    else if limit.None? || limit == Some(0) || from + limit.value >= n then (from, n)
    else (from, from + limit.value)
  }

  lemma SortedAdmits(preds: seq<Pred>, order: seq<OrderTerm>, candidates: seq<Row>)
    ensures Admitted(preds, candidates, Selected(preds, order, candidates))
  {
    var f := Filter(r => Satisfies(preds, r), candidates);
    SortPermutes(order, f);
    forall x ensures multiset(f)[x] ==
        if forall i :: 0 <= i < |preds| ==> preds[i](x) then multiset(candidates)[x] else 0 {
      FilterCounts(r => Satisfies(preds, r), candidates, x);
    }
  }

  lemma SortedIsOrdered(preds: seq<Pred>, order: seq<OrderTerm>, candidates: seq<Row>)
    ensures Ordered(preds, order, candidates, Selected(preds, order, candidates))
  {
    var f := Filter(r => Satisfies(preds, r), candidates);
    SortedByAllTerms(order, f);
    var p := (y: Row) => Satisfies(preds, y);
    forall x ensures TiedTo(order, x, Selected(preds, order, candidates)) == Filter(p, TiedTo(order, x, candidates)) {
      var tied := (y: Row) => Tied(order, x, y);
      var both := (y: Row) => Tied(order, x, y) && Satisfies(preds, y);
      SortStable(order, x, f);
      FilterTwice(tied, p, both, candidates);
      FilterTwice(p, tied, both, candidates);
    }
  }

  /** DISTINCT before or after selecting. */
  lemma SelectedCandidates(db: Database, q: Query)
    ensures Selected(q.preds, q.order, Candidates(db, q)) ==
      if QuerySpec(q).unique then Distinct(Selected(q.preds, q.order, Base(db, q)))
      else Selected(q.preds, q.order, Base(db, q))
  {
    var p := (r: Row) => Satisfies(q.preds, r);
    FilterDistinct(p, Base(db, q));
    DistinctSort(q.order, Filter(p, Base(db, q)));
  }

  lemma SliceOf(q: Query, columns: Option<seq<Column>>, rows: seq<Row>)
    ensures var w := Window(q.limit, q.offset, |rows|);
      var kept := Drop(QuerySpec(q).offset, ProjectAll(columns, rows));
      (if QuerySpec(q).limit == 0 then kept else Take(QuerySpec(q).limit, kept)) ==
        ProjectAll(columns, rows[w.0..w.1])
  {
    var w := Window(q.limit, q.offset, |rows|);
    var all := ProjectAll(columns, rows);
    var kept := Drop(QuerySpec(q).offset, all);
    assert all[w.0..w.1] == ProjectAll(columns, rows[w.0..w.1]);
    assert (if QuerySpec(q).limit == 0 then kept else Take(QuerySpec(q).limit, kept)) == all[w.0..w.1];
  }

  /**
   `All` returns the candidates that meet every predicate, each as often as it is one, in the order of all
   order terms with the rest in table order; of these it returns the window, with the selected columns.
   */
  lemma AllReturns(db: Database, q: Query) returns (rows: seq<Row>)
    requires ValidDb(db)
    ensures Admitted(q.preds, Candidates(db, q), rows) && Ordered(q.preds, q.order, Candidates(db, q), rows)
    ensures var w := Window(q.limit, q.offset, |rows|);
      SpecRows(db, q) == ProjectAll(SpecColumns(q.fields, q.withs), rows[w.0..w.1])
  {
    rows := Selected(q.preds, q.order, Candidates(db, q));
    SortedAdmits(q.preds, q.order, Candidates(db, q));
    SortedIsOrdered(q.preds, q.order, Candidates(db, q));
    SelectedCandidates(db, q);
    var sel, columns := Selected(q.preds, q.order, Base(db, q)), SpecColumns(q.fields, q.withs);
    BaseCoherent(db, q);
    SelectedSubset(q.preds, q.order, Base(db, q));
    SpecKeepsId(q);
    DistinctProject(columns, sel);
    SliceOf(q, columns, rows);
  }
}
