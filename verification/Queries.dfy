/**
 Query builders as values, their two translations to SQL, and what those denote.

 `querySpec` feeds the node scanner used by `All`; `sqlQuery` feeds traversals, id scans and
 aggregations. Nothing in the code ties them together, so their agreement is a theorem.
 */
module Queries {
  import opened Prelude
  import opened Rows

  type Table = string

  type Database = map<Table, seq<Row>>

  /** Where the foreign key of an edge lives: `Held` on the node's own row, otherwise on the neighbour's
      row, which may then be unique per node (`Unique`) or not (`Many`). */
  datatype Kind = Many | Unique | Held

  datatype Edge = Edge(name: string, kind: Kind, column: Column)

  datatype Query = Query(
    table: Table,
    preds: seq<Pred>,
    order: seq<OrderTerm>,
    limit: Option<nat>,
    offset: Option<nat>,
    unique: Option<bool>,
    fields: seq<Column>,
    withs: seq<With>,
    path: Option<Via>)

  /** A request to load an edge eagerly, with the builder of the neighbours. */
  datatype With = With(edge: Edge, child: Query)

  /** The traversal a query starts from: the neighbours of what another builder selects. */
  datatype Via = Via(parent: Query, edge: Edge)

  /** The largest row count `sqlQuery` asks for when only an offset is set. */
  const MAX_INT32: nat := 0x7FFF_FFFF

  // ---------------------------------------------------------------- querySpec

  /** `columns` is None for all columns; a limit or offset of 0 means none. */
  datatype Spec = Spec(columns: Option<seq<Column>>, preds: seq<Pred>, order: seq<OrderTerm>,
                       unique: bool, limit: nat, offset: nat)

  function AddColumnOnce(columns: seq<Column>, c: Column): seq<Column> {
    if c in columns then columns else columns + [c]
  }

  /** The foreign keys that the requested edges need on the row itself. */
  function HeldKeys(withs: seq<With>): seq<Column> {
    if withs == [] then []
    else (if withs[0].edge.kind.Held? then [withs[0].edge.column] else []) + HeldKeys(withs[1..])
  }

  function AddAll(columns: seq<Column>, keys: seq<Column>): seq<Column>
    decreases |keys|
  {
    if keys == [] then columns else AddAll(AddColumnOnce(columns, keys[0]), keys[1..])
  }

  function SpecColumns(fields: seq<Column>, withs: seq<With>): Option<seq<Column>> {
    if fields == [] then None
    else Some(AddAll([ID] + Filter(f => f != ID, fields), HeldKeys(withs)))
  }

  function QuerySpec(q: Query): Spec {
    Spec(SpecColumns(q.fields, q.withs), q.preds, q.order,
         if q.unique.Some? then q.unique.value else q.path.Some?,
         if q.limit.Some? then q.limit.value else 0,
         if q.offset.Some? then q.offset.value else 0)
  }

  /** The loop of `querySpec` that builds the column list of a projected query. */
  method BuildColumns(fields: seq<Column>, withs: seq<With>) returns (columns: seq<Column>)
    requires fields != []
    ensures SpecColumns(fields, withs) == Some(columns)
  {
    columns := [ID];
    for i := 0 to |fields|
      invariant columns == [ID] + Filter(f => f != ID, fields[..i])
    {
      assert fields[..i + 1] == fields[..i] + [fields[i]];
      FilterAppend(f => f != ID, fields[..i], [fields[i]]);
      assert [fields[i]][1..] == [];
      if fields[i] != ID {
        columns := columns + [fields[i]];
      }
    }
    assert fields[..|fields|] == fields;
    ghost var start := columns;
    for i := 0 to |withs|
      invariant AddAll(columns, HeldKeys(withs[i..])) == AddAll(start, HeldKeys(withs))
    {
      assert withs[i..][1..] == withs[i + 1..];
      if withs[i].edge.kind.Held? {
        assert HeldKeys(withs[i..])[1..] == HeldKeys(withs[i + 1..]);
        columns := AddColumnOnce(columns, withs[i].edge.column);
      } else {
        assert HeldKeys(withs[i..]) == HeldKeys(withs[i + 1..]);
      }
    }
  }

  lemma {:induction false} AddAllKeeps(columns: seq<Column>, keys: seq<Column>)
    requires |columns| > 0 && columns[0] == ID && forall i :: 0 < i < |columns| ==> columns[i] != ID
    ensures columns <= AddAll(columns, keys)
    ensures forall k :: k in keys ==> k in AddAll(columns, keys)
    ensures forall i :: 0 < i < |AddAll(columns, keys)| ==> AddAll(columns, keys)[i] != ID
    ensures forall c :: c in AddAll(columns, keys) ==> c in columns || c in keys
    decreases |keys|
  {
    if keys != [] {
      var added := AddColumnOnce(columns, keys[0]);
      assert columns[0] in columns;
      AddAllKeeps(added, keys[1..]);
      assert forall k :: k in added ==> k in AddAll(columns, keys);
    }
  }

  lemma {:induction false} HeldKeysComplete(withs: seq<With>, w: With)
    requires w in withs && w.edge.kind.Held?
    ensures w.edge.column in HeldKeys(withs)
  {
    if withs[0] != w {
      HeldKeysComplete(withs[1..], w);
    }
  }

  lemma {:induction false} HeldKeysNeeded(withs: seq<With>, c: Column)
    requires c in HeldKeys(withs)
    ensures exists w :: w in withs && w.edge.kind.Held? && w.edge.column == c
  {
    if withs[0].edge.kind.Held? && withs[0].edge.column == c {
      assert withs[0] in withs;
    } else {
      HeldKeysNeeded(withs[1..], c);
      var w :| w in withs[1..] && w.edge.kind.Held? && w.edge.column == c;
      assert w in withs;
    }
  }

  /** The id comes first and once; besides, there is every selected field, every key an edge needs, and nothing else. */
  lemma ColumnsSuffice(fields: seq<Column>, withs: seq<With>)
    requires fields != []
    ensures var columns := SpecColumns(fields, withs).value;
      |columns| > 0 && columns[0] == ID && (forall i :: 0 < i < |columns| ==> columns[i] != ID) &&
      (forall f :: f in fields ==> f in columns) &&
      (forall w :: w in withs && w.edge.kind.Held? ==> w.edge.column in columns) &&
      (forall c :: c in columns ==>
        c == ID || c in fields || exists w :: w in withs && w.edge.kind.Held? && w.edge.column == c)
  {
    var rest := Filter(f => f != ID, fields);
    forall i | 0 < i < |[ID] + rest| ensures ([ID] + rest)[i] != ID {
      assert ([ID] + rest)[i] in rest;
    }
    AddAllKeeps([ID] + rest, HeldKeys(withs));
    var columns := SpecColumns(fields, withs).value;
    forall f | f in fields ensures f in columns {
      assert f == ID || f in rest;
      assert f in [ID] + rest;
    }
    forall w | w in withs && w.edge.kind.Held? ensures w.edge.column in columns {
      HeldKeysComplete(withs, w);
    }
    forall c | c in columns && c in HeldKeys(withs)
      ensures exists w :: w in withs && w.edge.kind.Held? && w.edge.column == c {
      HeldKeysNeeded(withs, c);
    }
  }

  function ProjectAll(columns: Option<seq<Column>>, s: seq<Row>): (r: seq<Row>)
    ensures |r| == |s|
  {
    if columns.None? then s else seq(|s|, i requires 0 <= i < |s| => Project(s[i], columns.value))
  }

  /** WHERE and ORDER BY. */
  function Selected(preds: seq<Pred>, order: seq<OrderTerm>, base: seq<Row>): seq<Row> {
    Sort(order, Filter(r => Satisfies(preds, r), base))
  }

  lemma SatisfiesAppend(preds: seq<Pred>, p: Pred, r: Row)
    ensures Satisfies(preds + [p], r) == (Satisfies(preds, r) && p(r))
  {
    assert (preds + [p])[|preds|] == p;
    assert forall i :: 0 <= i < |preds| ==> (preds + [p])[i] == preds[i];
  }

  /** The rows that `QueryNodes` scans for a spec. */
  function EvalSpec(spec: Spec, base: seq<Row>): seq<Row> {
    var rows := ProjectAll(spec.columns, Selected(spec.preds, spec.order, base));
    var rows := Drop(spec.offset, if spec.unique then Distinct(rows) else rows);
    if spec.limit == 0 then rows else Take(spec.limit, rows)
  }

  // ---------------------------------------------------------------- sqlQuery

  datatype Selector = Selector(columns: Option<seq<Column>>, preds: seq<Pred>, order: seq<OrderTerm>,
                               distinct: bool, limit: Option<nat>, offset: Option<nat>)

  function SqlQuery(q: Query): Selector {
    Selector(if q.fields == [] then None else Some(q.fields), q.preds, q.order,
             q.unique == Some(true),
             if q.limit.Some? then q.limit else if q.offset.Some? then Some(MAX_INT32) else None,
             q.offset)
  }

  function EvalSelector(s: Selector, base: seq<Row>): seq<Row> {
    var rows := ProjectAll(s.columns, Selected(s.preds, s.order, base));
    var rows := if s.distinct then Distinct(rows) else rows;
    var rows := if s.offset.Some? then Drop(s.offset.value, rows) else rows;
    if s.limit.Some? then Take(s.limit.value, rows) else rows
  }

  // ---------------------------------------------------------------- where rows come from

  function TableRows(db: Database, t: Table): seq<Row> {
    if t in db then db[t] else []
  }

  function Count(keys: seq<Option<Uuid>>, k: Uuid): nat {
    if keys == [] then 0 else (if keys[0] == Some(k) then 1 else 0) + Count(keys[1..], k)
  }

  /** An inner join: each row once for every key that equals its own. */
  function Join(rows: seq<Row>, own: Row -> Option<Uuid>, keys: seq<Option<Uuid>>): seq<Row> {
    if rows == [] then []
    else
      (match own(rows[0])
       case None => []
       case Some(k) => seq(Count(keys, k), _ => rows[0])) + Join(rows[1..], own, keys)
  }

  /** The key of an edge on the node's side, and on the neighbour's side. */
  function NodeKey(e: Edge, r: Row): Option<Uuid> {
    if e.kind.Held? then KeyOf(r, e.column) else Some(r.id)
  }

  function NeighbourKey(e: Edge, r: Row): Option<Uuid> {
    if e.kind.Held? then Some(r.id) else KeyOf(r, e.column)
  }

  function NodeKeys(e: Edge, s: seq<Row>): (r: seq<Option<Uuid>>)
    ensures |r| == |s|
  {
    seq(|s|, i requires 0 <= i < |s| => NodeKey(e, s[i]))
  }

  /** `SetNeighbors` re-selects only the column it joins on. */
  function JoinColumn(e: Edge): Column {
    if e.kind.Held? then e.column else ID
  }

  /** The rows a builder starts from: its table, or the neighbours of another builder's rows. */
  function Base(db: Database, q: Query): seq<Row>
    decreases q
  {
    match q.path
    case None => TableRows(db, q.table)
    case Some(Via(parent, e)) =>
      var s := SqlQuery(parent).(columns := Some([JoinColumn(e)]));
      Join(TableRows(db, q.table), r => NeighbourKey(e, r), NodeKeys(e, EvalSelector(s, Base(db, parent))))
  }

  /** The rows `All` scans. */
  function SpecRows(db: Database, q: Query): seq<Row> {
    EvalSpec(QuerySpec(q), Base(db, q))
  }

  /** The rows `sqlQuery` selects. */
  function SqlRows(db: Database, q: Query): seq<Row> {
    EvalSelector(SqlQuery(q), Base(db, q))
  }

  /** All rows a builder matches, before its offset and limit. */
  function Matching(db: Database, q: Query): seq<Row> {
    var rows := ProjectAll(SpecColumns(q.fields, q.withs), Selected(q.preds, q.order, Base(db, q)));
    if QuerySpec(q).unique then Distinct(rows) else rows
  }

  // ---------------------------------------------------------------- the two translations

  /** What remains after the offset. */
  function Remaining(db: Database, q: Query): seq<Row> {
    Drop(if q.offset.Some? then q.offset.value else 0, Matching(db, q))
  }

  /**
   Without traversal and field selection the two translations denote the same rows, for every list of
   predicates, orders, limit and offset, except in two cases a caller can see beforehand: a limit of 0,
   which one reads as no limit, and an offset alone with more than 2^31-1 rows after it.
   */
  lemma TranslationsAgreeIff(db: Database, q: Query)
    requires q.path.None? && q.fields == []
    ensures SpecRows(db, q) == SqlRows(db, q) <==>
      match q.limit
      case Some(l) => l > 0 || Remaining(db, q) == []
      case None => q.offset.Some? ==> |Remaining(db, q)| <= MAX_INT32
  {
    var rest := Remaining(db, q);
    var rows := Matching(db, q);
    assert Drop(0, rows) == rows;
    assert SqlRows(db, q) ==
      match q.limit
      case Some(l) => Take(l, rest)
      case None => if q.offset.Some? then Take(MAX_INT32, rest) else rest;
    if q.limit.None? && q.offset.Some? && |rest| > MAX_INT32 {
      assert |Take(MAX_INT32, rest)| == MAX_INT32;
    }
  }

  // ---------------------------------------------------------------- bounded look-ahead

  datatype Answer = Found(row: Row) | NotFound | NotSingular

  /** The builder after `First` or `Only`: its limit is 1 or 2 from now on. */
  function AfterLimit(q: Query, l: nat): Query {
    q.(limit := Some(l))
  }

  function First(db: Database, q: Query): Answer {
    var rows := SpecRows(db, AfterLimit(q, 1));
    if |rows| == 0 then NotFound else Found(rows[0])
  }

  function Only(db: Database, q: Query): Answer {
    var rows := SpecRows(db, AfterLimit(q, 2));
    if |rows| == 1 then Found(rows[0]) else if |rows| == 0 then NotFound else NotSingular
  }

  /** The builder after `FirstID`: `Limit(1)`, then `IDs` settles `Unique` and appends the id to its fields. */
  function AfterFirstID(q: Query): Query {
    q.(limit := Some(1),
       unique := if q.unique.None? && q.path.Some? then Some(true) else q.unique,
       fields := q.fields + [ID])
  }

  function Exist(db: Database, q: Query): bool {
    SqlRows(db, AfterFirstID(q)) != []
  }

  /** The builder with its own limit removed. */
  function Unlimited(q: Query): Query {
    q.(limit := None)
  }

  lemma UnlimitedRows(db: Database, q: Query)
    ensures SpecRows(db, Unlimited(q)) == Remaining(db, q)
  {
    var u := Unlimited(q);
    assert Base(db, u) == Base(db, q);
    assert QuerySpec(u) == QuerySpec(q).(limit := 0);
  }

  /** `First` and `Only` decide from at most two rows what the whole result would have said. */
  lemma LookAheadIsExact(db: Database, q: Query)
    ensures var all := SpecRows(db, Unlimited(q));
      First(db, q) == (if all == [] then NotFound else Found(all[0])) &&
      Only(db, q) == (if |all| == 0 then NotFound else if |all| == 1 then Found(all[0]) else NotSingular)
  {
    UnlimitedRows(db, q);
    LimitedRows(db, q, 1);
    LimitedRows(db, q, 2);
  }

  // ---------------------------------------------------------------- ids identify rows

  /** Primary keys hold in every table. */
  ghost predicate ValidDb(db: Database) {
    forall t :: t in db ==> DistinctIds(db[t])
  }

  /** Rows with the same id are the same row. */
  ghost predicate Coherent(s: seq<Row>) {
    forall x, y :: x in s && y in s && x.id == y.id ==> x == y
  }

  predicate KeepsId(columns: Option<seq<Column>>) {
    columns.None? || ID in columns.value
  }

  lemma {:induction false} JoinSubset(rows: seq<Row>, own: Row -> Option<Uuid>, keys: seq<Option<Uuid>>)
    ensures forall x :: x in Join(rows, own, keys) ==> x in rows
  {
    if rows != [] {
      JoinSubset(rows[1..], own, keys);
    }
  }

  lemma BaseCoherent(db: Database, q: Query)
    requires ValidDb(db)
    ensures Coherent(Base(db, q))
    ensures forall x :: x in Base(db, q) ==> x in TableRows(db, q.table)
  {
    if q.path.Some? {
      var Via(parent, e) := q.path.value;
      var s := SqlQuery(parent).(columns := Some([JoinColumn(e)]));
      JoinSubset(TableRows(db, q.table), r => NeighbourKey(e, r), NodeKeys(e, EvalSelector(s, Base(db, parent))));
    }
  }

  lemma SelectedSubset(preds: seq<Pred>, order: seq<OrderTerm>, base: seq<Row>)
    ensures forall x :: x in Selected(preds, order, base) <==> x in base && Satisfies(preds, x)
  {
    var f := Filter(r => Satisfies(preds, r), base);
    SortPermutes(order, f);
    forall x ensures x in Sort(order, f) <==> x in f {
      assert x in Sort(order, f) <==> x in multiset(Sort(order, f));
    }
  }

  lemma ProjectCons(columns: Option<seq<Column>>, h: Row, t: seq<Row>)
    ensures ProjectAll(columns, [h] + t) == ProjectAll(columns, [h]) + ProjectAll(columns, t)
    ensures |ProjectAll(columns, [h])| == 1
  {
    if columns.Some? {
      var all := ProjectAll(columns, [h] + t);
      forall i | 0 <= i < |all| ensures all[i] == (ProjectAll(columns, [h]) + ProjectAll(columns, t))[i] { }
    }
  }

  /** Removing a row and projecting commute when the projection tells that row from the others. */
  lemma {:induction false} ProjectFilter(columns: seq<Column>, h: Row, s: seq<Row>)
    requires forall x :: x in s ==> (Project(x, columns) == Project(h, columns) <==> x == h)
    ensures Filter(y => y != Project(h, columns), ProjectAll(Some(columns), s))
         == ProjectAll(Some(columns), Filter(y => y != h, s))
  {
    if s != [] {
      var x, t := s[0], s[1..];
      assert s == [x] + t;
      ProjectFilter(columns, h, t);
      ProjectCons(Some(columns), x, t);
      FilterCons(y => y != h, x, t);
      FilterCons(y => y != Project(h, columns), Project(x, columns), ProjectAll(Some(columns), t));
      ProjectCons(Some(columns), x, Filter(y => y != h, t));
    }
  }

  lemma CoherentProjection(columns: seq<Column>, s: seq<Row>, h: Row, x: Row)
    requires ID in columns && Coherent(s) && h in s && x in s
    ensures Project(x, columns) == Project(h, columns) <==> x == h
  {
    assert Project(x, columns).id == x.id && Project(h, columns).id == h.id;
  }

  /** DISTINCT on a projection that keeps the id is DISTINCT on the rows. */
  lemma {:induction false} DistinctProject(columns: Option<seq<Column>>, s: seq<Row>)
    requires KeepsId(columns) && Coherent(s)
    ensures Distinct(ProjectAll(columns, s)) == ProjectAll(columns, Distinct(s))
  {
    if s != [] && columns.Some? {
      var x, t := s[0], s[1..];
      assert s == [x] + t;
      forall y | y in t ensures y in s { }
      DistinctProject(columns, t);
      ProjectCons(columns, x, t);
      assert ProjectAll(columns, s)[1..] == ProjectAll(columns, t);
      var d := Distinct(t);
      forall y | y in d ensures Project(y, columns.value) == Project(x, columns.value) <==> y == x {
        CoherentProjection(columns.value, s, x, y);
      }
      ProjectFilter(columns.value, x, d);
      ProjectCons(columns, x, Filter(y => y != x, d));
    }
  }

  lemma SpecKeepsId(q: Query)
    ensures KeepsId(SpecColumns(q.fields, q.withs))
  {
    if q.fields != [] {
      ColumnsSuffice(q.fields, q.withs);
    }
  }

  /** `Exist` scans ids through the other translation, and still agrees with the full result. */
  lemma ExistIsExact(db: Database, q: Query)
    requires ValidDb(db)
    ensures Exist(db, q) <==> SpecRows(db, Unlimited(q)) != []
  {
    UnlimitedRows(db, q);
    var f := AfterFirstID(q);
    assert Base(db, f) == Base(db, q);
    var sel := Selected(q.preds, q.order, Base(db, q));
    BaseCoherent(db, q);
    SelectedSubset(q.preds, q.order, Base(db, q));
    SpecKeepsId(q);
    DistinctProject(Some(f.fields), sel);
    DistinctProject(SpecColumns(q.fields, q.withs), sel);
    var a := ProjectAll(Some(f.fields), sel);
    var o := if q.offset.Some? then q.offset.value else 0;
    assert Drop(0, a) == a && Drop(0, Distinct(a)) == Distinct(a);
    assert (f.unique == Some(true)) == QuerySpec(q).unique;
    assert SqlRows(db, f) == Take(1, Drop(o, if QuerySpec(q).unique then Distinct(a) else a)) by {
      assert SqlQuery(f).limit == Some(1);
    }
  }

  // ---------------------------------------------------------------- what look-ahead leaves behind

  lemma LimitedRows(db: Database, q: Query, l: nat)
    requires l > 0
    ensures SpecRows(db, AfterLimit(q, l)) == Take(l, Remaining(db, q))
  {
    var ql := AfterLimit(q, l);
    assert Base(db, ql) == Base(db, q);
    assert QuerySpec(ql) == QuerySpec(q).(limit := l);
  }

  lemma OwnRows(db: Database, q: Query)
    ensures SpecRows(db, q) ==
      if q.limit.None? || q.limit == Some(0) then Remaining(db, q) else Take(q.limit.value, Remaining(db, q))
  {
  }

  /**
   `First` (with 1) and `Only` (with 2) replace the builder's limit: run again, it returns what it did before
   exactly when that was its limit already, or the unlimited result is no longer than either limit. So `Only`
   may widen a builder as well as narrow it.
   */
  lemma LimitStaysIff(db: Database, q: Query, l: nat)
    requires l > 0
    ensures var all := SpecRows(db, Unlimited(q));
      SpecRows(db, AfterLimit(q, l)) == SpecRows(db, q) <==>
        q.limit == Some(l) || (|all| <= l && (q.limit.None? || q.limit == Some(0) || |all| <= q.limit.value))
  {
    UnlimitedRows(db, q);
    LimitedRows(db, q, l);
    OwnRows(db, q);
  }

  /** For `First` this is the length of the builder's own result. */
  lemma FirstStaysIff(db: Database, q: Query)
    ensures SpecRows(db, AfterLimit(q, 1)) == SpecRows(db, q) <==> |SpecRows(db, q)| <= 1
  {
    LimitedRows(db, q, 1);
    OwnRows(db, q);
  }

  /** The columns of the rows that the builder returns after `Exist`, if nothing was selected before. */
  function IdColumns(q: Query): (columns: seq<Column>)
    ensures ID in columns
  {
    ColumnsSuffice([ID], q.withs);
    SpecColumns([ID], q.withs).value
  }

  lemma SelectedIdOnce(q: Query)
    requires q.fields != []
    ensures SpecColumns(q.fields + [ID], q.withs) == SpecColumns(q.fields, q.withs)
  {
    var notId := (f: Column) => f != ID;
    FilterAppend(notId, q.fields, [ID]);
    FilterNone(notId, [ID]);
    assert Filter(notId, q.fields) + [] == Filter(notId, q.fields);
  }

  lemma ProjectTake(columns: seq<Column>, o: nat, l: nat, s: seq<Row>)
    ensures Take(l, Drop(o, ProjectAll(Some(columns), s))) == ProjectAll(Some(columns), Take(l, Drop(o, s)))
  {
  }

  lemma ExistRows(db: Database, q: Query)
    requires ValidDb(db) && q.fields == []
    ensures SpecRows(db, AfterFirstID(q)) == ProjectAll(Some(IdColumns(q)), Take(1, Remaining(db, q)))
  {
    var f := AfterFirstID(q);
    var columns := Some(IdColumns(q));
    assert [] + [ID] == [ID] && f.fields == [ID];
    assert Base(db, f) == Base(db, q);
    var sel := Selected(q.preds, q.order, Base(db, q));
    BaseCoherent(db, q);
    SelectedSubset(q.preds, q.order, Base(db, q));
    DistinctProject(columns, sel);
    var o := if q.offset.Some? then q.offset.value else 0;
    ProjectTake(columns.value, o, 1, if QuerySpec(q).unique then Distinct(sel) else sel);
    assert QuerySpec(f) == Spec(columns, q.preds, q.order, QuerySpec(q).unique, 1, o);
  }

  lemma ProjectSame(columns: seq<Column>, r: Row)
    requires ID in columns
    ensures Project(r, columns) == r <==> forall c :: c in r.cols ==> c in columns
  {
    if forall c :: c in r.cols ==> c in columns {
      assert Project(r, columns).cols == r.cols;
    } else {
      var c :| c in r.cols && c !in columns;
      assert c !in Project(r, columns).cols;
    }
  }

  /**
   `Exist` leaves a limit of 1 and a selected id on the builder. Run again, it returns at most one row, and
   exactly what it did before iff that was at most one row and, where no field had been selected, the row has
   no columns beyond the id and the keys of the requested edges.
   */
  lemma ExistStaysIff(db: Database, q: Query)
    requires ValidDb(db)
    ensures |SpecRows(db, AfterFirstID(q))| <= 1
    ensures SpecRows(db, AfterFirstID(q)) == SpecRows(db, q) <==>
      |SpecRows(db, q)| <= 1 &&
      (q.fields == [] ==> forall r, c :: r in SpecRows(db, q) && c in r.cols ==> c in IdColumns(q))
  {
    OwnRows(db, q);
    if q.fields != [] {
      SelectedIdOnce(q);
      FirstStaysIff(db, q);
      LimitedRows(db, q, 1);
      assert Base(db, AfterFirstID(q)) == Base(db, q);
      assert QuerySpec(AfterFirstID(q)) == QuerySpec(AfterLimit(q, 1));
      assert SpecRows(db, AfterFirstID(q)) == SpecRows(db, AfterLimit(q, 1));
    } else {
      ExistRows(db, q);
      var one := Take(1, Remaining(db, q));
      if |SpecRows(db, q)| == 1 {
        assert SpecRows(db, q) == one == [one[0]];
        ProjectSame(IdColumns(q), one[0]);
      }
    }
  }
}
