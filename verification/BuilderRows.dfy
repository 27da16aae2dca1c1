/**
 What a chain of calls on a builder makes of the rows it returns: the builder trees of `BuilderCalls`, read
 as the queries of `Queries`.
 */
module BuilderRows {
  import opened Prelude
  import opened Rows
  import opened Queries
  import opened Answers
  import B = BuilderCalls

  /** What the closures that a builder of some entity holds stand for. */
  datatype Entity = Entity(
    table: Table,
    pred: B.Pred -> Pred,
    order: B.Order -> OrderTerm,
    via: nat -> Via,
    edge: B.Slot -> Edge,
    target: B.Slot -> nat)

  type Schema = nat -> Entity

  function Preds(ent: Entity, ps: seq<B.Pred>): (r: seq<Pred>)
    ensures |r| == |ps| && forall i :: 0 <= i < |r| ==> r[i] == ent.pred(ps[i])
  {
    seq(|ps|, i requires 0 <= i < |ps| => ent.pred(ps[i]))
  }

  function Terms(ent: Entity, os: seq<B.Order>): (r: seq<OrderTerm>)
    ensures |r| == |os| && forall i :: 0 <= i < |r| ==> r[i] == ent.order(os[i])
  {
    seq(|os|, i requires 0 <= i < |os| => ent.order(os[i]))
  }

  /** The query that a builder of entity `k` denotes; locks do not change which rows it selects. */
  function QueryOf(schema: Schema, k: nat, t: B.Tree): Query
    requires t.Tree?
    decreases t, 0
  {
    var ent, p := schema(k), t.local.params;
    Query(ent.table, Preds(ent, t.local.preds), Terms(ent, t.local.order), p.limit, p.offset, p.unique, p.fields,
          WithOf(schema, k, B.First, t.first) + WithOf(schema, k, B.Second, t.second),
          if t.local.path.None? then None else Some(ent.via(t.local.path.value)))
  }

  function WithOf(schema: Schema, k: nat, slot: B.Slot, t: B.Tree): seq<With>
    decreases t, 1
  {
    if t.Nil? then [] else [With(schema(k).edge(slot), QueryOf(schema, schema(k).target(slot), t))]
  }

  /** The row meets every predicate of every `Where`. */
  predicate MeetsWheres(ent: Entity, calls: seq<B.Call>, x: Row) {
    forall i, j :: 0 <= i < |calls| && calls[i].Where? && 0 <= j < |calls[i].ps| ==> ent.pred(calls[i].ps[j])(x)
  }

  /** The arguments of all `Order` calls, in call order. */
  function OrderArguments(calls: seq<B.Call>): seq<B.Order> {
    if calls == [] then []
    else OrderArguments(calls[..|calls| - 1]) + (match calls[|calls| - 1] case OrderBy(os) => os case _ => [])
  }

  lemma {:induction false} WheresGathered(ent: Entity, calls: seq<B.Call>, x: Row)
    ensures Satisfies(Preds(ent, B.Gathered(calls, c => B.GivesPreds(c))), x) <==> MeetsWheres(ent, calls, x)
    decreases |calls|
  {
    if calls != [] {
      var n := |calls| - 1;
      var before, last := B.Gathered(calls[..n], c => B.GivesPreds(c)), B.GivesPreds(calls[n]);
      WheresGathered(ent, calls[..n], x);
      assert forall i :: 0 <= i < n ==> calls[..n][i] == calls[i];
      PredsAppend(ent, before, last, x);
      assert MeetsWheres(ent, calls, x) <==>
        MeetsWheres(ent, calls[..n], x) && forall j :: 0 <= j < |last| ==> ent.pred(last[j])(x);
    }
  }

  lemma PredsAppend(ent: Entity, a: seq<B.Pred>, b: seq<B.Pred>, x: Row)
    ensures Satisfies(Preds(ent, a + b), x) <==>
      Satisfies(Preds(ent, a), x) && forall j :: 0 <= j < |b| ==> ent.pred(b[j])(x)
  {
    assert forall i :: 0 <= i < |a| ==> (a + b)[i] == a[i];
    assert forall j :: 0 <= j < |b| ==> (a + b)[|a| + j] == b[j];
    if Satisfies(Preds(ent, a + b), x) {
      forall i | 0 <= i < |a| ensures Preds(ent, a)[i](x) {
        assert Preds(ent, a + b)[i](x);
      }
      forall j | 0 <= j < |b| ensures ent.pred(b[j])(x) {
        assert Preds(ent, a + b)[|a| + j](x);
      }
    }
  }

  lemma {:induction false} OrdersGathered(calls: seq<B.Call>)
    ensures B.Gathered(calls, c => B.GivesOrder(c)) == OrderArguments(calls)
    decreases |calls|
  {
    if calls != [] {
      OrdersGathered(calls[..|calls| - 1]);
    }
  }

  /** The query after the calls, part by part. */
  lemma QueryAfter(schema: Schema, k: nat, t: B.Tree, calls: seq<B.Call>, l: Option<nat>, o: Option<nat>,
                   u: Option<bool>)
    requires t.Tree?
    requires B.Settled(calls, c => B.SaysLimit(c), t.local.params.limit, l)
    requires B.Settled(calls, c => B.SaysOffset(c), t.local.params.offset, o)
    requires B.Settled(calls, c => B.SaysUnique(c), t.local.params.unique, u)
    ensures var q, q' := QueryOf(schema, k, t), QueryOf(schema, k, B.DoAll(t, calls));
      q'.limit == l && q'.offset == o && q'.unique == u && q'.fields == q.fields &&
      q'.table == q.table && q'.path == q.path &&
      q'.order == q.order + Terms(schema(k), OrderArguments(calls)) &&
      forall x :: Satisfies(q'.preds, x) <==> Satisfies(q.preds, x) && MeetsWheres(schema(k), calls, x)
  {
    var r := B.DoAll(t, calls);
    B.DoAllReads(t, calls);
    SettingsAfter(t.local.params, calls, r.local.params, l, o, u);
    TermsAfter(schema(k), t.local.order, calls, r.local.order);
    forall x ensures Satisfies(Preds(schema(k), r.local.preds), x) <==>
        Satisfies(Preds(schema(k), t.local.preds), x) && MeetsWheres(schema(k), calls, x) {
      PredsAfter(schema(k), t.local.preds, calls, r.local.preds, x);
    }
  }

  lemma SettingsAfter(t: B.Params, calls: seq<B.Call>, r: B.Params, l: Option<nat>, o: Option<nat>, u: Option<bool>)
    requires B.SettingsRead(t, calls, r)
    requires B.Settled(calls, c => B.SaysLimit(c), t.limit, l)
    requires B.Settled(calls, c => B.SaysOffset(c), t.offset, o)
    requires B.Settled(calls, c => B.SaysUnique(c), t.unique, u)
    ensures r == B.Params(l, o, u, t.fields)
  {
    B.SettledOnce(calls, c => B.SaysLimit(c), t.limit, r.limit, l);
    B.SettledOnce(calls, c => B.SaysOffset(c), t.offset, r.offset, o);
    B.SettledOnce(calls, c => B.SaysUnique(c), t.unique, r.unique, u);
  }

  lemma TermsAfter(ent: Entity, os: seq<B.Order>, calls: seq<B.Call>, r: seq<B.Order>)
    requires B.ListReads(os, calls, c => B.GivesOrder(c), r)
    ensures Terms(ent, r) == Terms(ent, os) + Terms(ent, OrderArguments(calls))
  {
    OrdersGathered(calls);
  }

  lemma PredsAfter(ent: Entity, ps: seq<B.Pred>, calls: seq<B.Call>, r: seq<B.Pred>, x: Row)
    requires B.ListReads(ps, calls, c => B.GivesPreds(c), r)
    ensures Satisfies(Preds(ent, r), x) <==> Satisfies(Preds(ent, ps), x) && MeetsWheres(ent, calls, x)
  {
    var given := B.Gathered(calls, c => B.GivesPreds(c));
    PredsAppend(ent, ps, given, x);
    PredsAppend(ent, [], given, x);
    assert [] + given == given;
    WheresGathered(ent, calls, x);
  }

  /**
   What a builder returns after any calls. The rows to choose from are those it started from, each once if the
   last word on `Unique` is yes; of these it takes the ones that meet its predicates and those of every
   `Where`, sorts them by its own terms and then by those of the `Order` calls in call order, and returns the
   window of the last `Offset` and the last `Limit`. The other calls, `With` and locks, change none of this
   except as a lock on Postgres counts as `Unique(false)`.
   */
  lemma CallsReturn(db: Database, schema: Schema, k: nat, t: B.Tree, calls: seq<B.Call>, l: Option<nat>,
                    o: Option<nat>, u: Option<bool>) returns (rows: seq<Row>)
    requires ValidDb(db) && t.Tree? && t.local.params.fields == []
    requires B.Settled(calls, c => B.SaysLimit(c), t.local.params.limit, l)
    requires B.Settled(calls, c => B.SaysOffset(c), t.local.params.offset, o)
    requires B.Settled(calls, c => B.SaysUnique(c), t.local.params.unique, u)
    ensures var q := QueryOf(schema, k, t);
      var once := if u.Some? then u.value else q.path.Some?;
      var candidates := if once then Distinct(Base(db, q)) else Base(db, q);
      (forall x :: multiset(rows)[x] ==
        if Satisfies(q.preds, x) && MeetsWheres(schema(k), calls, x) then multiset(candidates)[x] else 0)
    ensures var terms := QueryOf(schema, k, t).order + Terms(schema(k), OrderArguments(calls));
      forall i, j, m :: 0 <= i < j < |rows| && 0 <= m < |terms| ==> !Separates(terms, m, rows[j], rows[i])
    ensures SpecRows(db, QueryOf(schema, k, B.DoAll(t, calls))) ==
      rows[Window(l, o, |rows|).0..Window(l, o, |rows|).1]
  {
    var q, q' := QueryOf(schema, k, t), QueryOf(schema, k, B.DoAll(t, calls));
    QueryAfter(schema, k, t, calls, l, o, u);
    rows := AllReturns(db, q');
    assert Base(db, q') == Base(db, q);
    forall x ensures multiset(rows)[x] ==
        if Satisfies(q.preds, x) && MeetsWheres(schema(k), calls, x) then multiset(Candidates(db, q'))[x] else 0 {
      assert Satisfies(q'.preds, x) <==> forall i :: 0 <= i < |q'.preds| ==> q'.preds[i](x);
    }
  }
}
