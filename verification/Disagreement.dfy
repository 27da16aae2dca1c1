/**
 Databases that tell eager loading and traversal apart, for every combination of window, path, `Unique`
 setting and kind of edge that `AgreementByBuilder` does not accept. Its condition is therefore exact.
 */
module Disagreement {
  import opened Prelude
  import opened Rows
  import opened Queries
  import opened Traversal
  import opened Agreement
  import opened AgreementByBuilder

  /** The settings that decide. */
  predicate SameShape(q: Query, p: Query) {
    q.limit == p.limit && q.offset == p.offset && q.unique == p.unique && (q.path.Some? <==> p.path.Some?) &&
      q.fields == []
  }

  /** A neighbour builder that takes everything. */
  predicate Bare(c: Query) {
    c.path.None? && c.fields == [] && NoWindow(c) && c.preds == []
  }

  // ---------------------------------------------------------------- tables made to order

  const LINK: Edge := Edge("link", Held, "link")

  /** All rows of a table. */
  function Everything(t: Table): Query {
    Query(t, [], [], None, None, None, [], [], None)
  }

  /** A builder of the given shape over the table `nodes`, reached through `source` if it is a traversal. */
  function Twin(parent: Query, nodes: Table, source: Table): (q: Query)
    ensures SameShape(q, parent)
  {
    Query(nodes, [], [], parent.limit, parent.offset, parent.unique, [], [],
          if parent.path.Some? then Some(Via(Everything(source), LINK)) else None)
  }

  function LinkRows(links: seq<Uuid>): (r: seq<Row>)
    ensures |r| == |links|
  {
    seq(|links|, i requires 0 <= i < |links| => Row(i, map[LINK.column := Key(links[i])]))
  }

  function SomeAll(links: seq<Uuid>): (r: seq<Option<Uuid>>)
    ensures |r| == |links|
  {
    seq(|links|, i requires 0 <= i < |links| => Some(links[i]))
  }

  /** A node whose key on this edge is `key`, whichever side holds it. */
  function NodeRow(e: Edge, id: Uuid, key: Uuid): (r: Row)
    ensures e.kind.Held? ==> NodeKey(e, r) == Some(key)
    ensures !e.kind.Held? ==> NodeKey(e, r) == Some(id)
  {
    Row(id, map[e.column := Key(key)])
  }

  lemma {:induction false} SortByNothing(s: seq<Row>)
    ensures Sort([], s) == s
  {
    if s != [] {
      SortByNothing(s[1..]);
      InsertFirst([], s[0], s[1..]);
    }
  }

  lemma SelectAll(base: seq<Row>)
    ensures Selected([], [], base) == base
  {
    FilterAll(r => Satisfies([], r), base);
    SortByNothing(base);
  }

  lemma LinkKeys(db: Database, source: Table, links: seq<Uuid>)
    requires TableRows(db, source) == LinkRows(links)
    ensures TraversedKeys(db, Everything(source), LINK) == SomeAll(links)
  {
    SelectAll(LinkRows(links));
    ProjectedKeys(LINK, LinkRows(links));
    assert NodeKeys(LINK, LinkRows(links)) == SomeAll(links);
  }

  /** The rows the builder starts from: its table, or that table joined on the links. */
  function Start(parent: Query, rows: seq<Row>, links: seq<Uuid>): seq<Row> {
    if parent.path.None? then rows else Join(rows, Own(LINK), SomeAll(links))
  }

  lemma TwinBase(db: Database, parent: Query, nodes: Table, source: Table, links: seq<Uuid>)
    requires TableRows(db, source) == LinkRows(links)
    ensures Base(db, Twin(parent, nodes, source)) == Start(parent, TableRows(db, nodes), links)
  {
    LinkKeys(db, source, links);
    JoinSame(TableRows(db, nodes), r => NeighbourKey(LINK, r), Own(LINK), SomeAll(links));
  }

  /** What the two translations make of those rows. */
  function SpecOf(parent: Query, base: seq<Row>): seq<Row> {
    Windowed(parent, if QuerySpec(parent).unique then Distinct(base) else base)
  }

  function KeysOf(parent: Query, e: Edge, base: seq<Row>): seq<Option<Uuid>> {
    var projected := ProjectAll(Some([JoinColumn(e)]), base);
    NodeKeys(e, Window(SqlQuery(parent), if SqlQuery(parent).distinct then Distinct(projected) else projected))
  }

  lemma TwinForms(db: Database, parent: Query, e: Edge, nodes: Table, source: Table, links: seq<Uuid>)
    requires TableRows(db, source) == LinkRows(links)
    ensures var q, base := Twin(parent, nodes, source), Start(parent, TableRows(db, nodes), links);
      SpecRows(db, q) == SpecOf(parent, base) && TraversedKeys(db, q, e) == KeysOf(parent, e, base)
  {
    TwinBase(db, parent, nodes, source, links);
    SelectAll(Start(parent, TableRows(db, nodes), links));
  }

  // ---------------------------------------------------------------- the database of a disagreement

  /** `rows` and `links` under names that the child does not read, and one neighbour with the key `k`. */
  function Made(child: Query, rows: seq<Row>, links: seq<Uuid>, e: Edge, k: Uuid): Database {
    map[child.table := [NeighbourOf(e, k)], child.table + "n" := rows, child.table + "nn" := LinkRows(links)]
  }

  function NeighbourOf(e: Edge, k: Uuid): (r: Row)
    ensures NeighbourKey(e, r) == Some(k)
  {
    if e.kind.Held? then Row(k, map[]) else Row(NIL_UUID, map[e.column := Key(k)])
  }

  lemma MadeTables(child: Query, rows: seq<Row>, links: seq<Uuid>, e: Edge, k: Uuid)
    requires DistinctIds(rows)
    ensures var db := Made(child, rows, links, e, k);
      ValidDb(db) && TableRows(db, child.table) == [NeighbourOf(e, k)] &&
      TableRows(db, child.table + "n") == rows && TableRows(db, child.table + "nn") == LinkRows(links)
  {
    assert |child.table + "n"| == |child.table| + 1 && |child.table + "nn"| == |child.table| + 2;
  }

  /** The traversal lists the neighbour with key `k` another number of times than the loader. */
  predicate TellsApart(parent: Query, e: Edge, child: Query, base: seq<Row>, k: Uuid) {
    var n := Count(KeysOf(parent, e, base), k);
    (if child.unique == Some(false) || n == 0 then n else 1) !=
      (if Some(k) in NodeKeys(e, SpecOf(parent, base)) then 1 else 0)
  }

  lemma ApartIsNotSame(parent: Query, e: Edge, child: Query, rows: seq<Row>, links: seq<Uuid>, k: Uuid)
    requires Bare(child) && DistinctIds(rows) && TellsApart(parent, e, child, Start(parent, rows, links), k)
    ensures var db := Made(child, rows, links, e, k);
      ValidDb(db) && !Same(db, Twin(parent, child.table + "n", child.table + "nn"), e, child)
  {
    var db := Made(child, rows, links, e, k);
    var q := Twin(parent, child.table + "n", child.table + "nn");
    MadeTables(child, rows, links, e, k);
    TwinForms(db, parent, e, child.table + "n", child.table + "nn", links);
    EagerIsTraversalIff(db, q, e, child);
    var r := NeighbourOf(e, k);
    assert r in TableRows(db, child.table) && Satisfies(child.preds, r);
    assert Listed(db, q, e, child, r) != if Asked(db, q, e, r) then 1 else 0;
  }

  /** A builder of this shape whose two routes differ on the database. */
  predicate Separates(db: Database, q: Query, parent: Query, e: Edge, child: Query) {
    SameShape(q, parent) && !Same(db, q, e, child)
  }

  lemma MadeSeparates(parent: Query, e: Edge, child: Query, rows: seq<Row>, links: seq<Uuid>, k: Uuid)
    returns (db: Database, q: Query)
    requires Bare(child) && DistinctIds(rows) && TellsApart(parent, e, child, Start(parent, rows, links), k)
    ensures ValidDb(db) && Separates(db, q, parent, e, child)
  {
    ApartIsNotSame(parent, e, child, rows, links, k);
    db, q := Made(child, rows, links, e, k), Twin(parent, child.table + "n", child.table + "nn");
  }

  // ---------------------------------------------------------------- counting keys

  lemma {:induction false} CountAll(keys: seq<Option<Uuid>>, k: Uuid)
    requires forall i :: 0 <= i < |keys| ==> keys[i] == Some(k)
    ensures Count(keys, k) == |keys|
  {
    if keys != [] {
      assert forall i :: 0 <= i < |keys[1..]| ==> keys[1..][i] == keys[i + 1];
      CountAll(keys[1..], k);
    }
  }

  function UpTo(n: nat): (r: seq<Uuid>)
    ensures |r| == n && forall i :: 0 <= i < n ==> r[i] == i
  {
    seq(n, i => i)
  }

  /** Reached once each, the rows are as in the table. */
  lemma StartWhole(parent: Query, rows: seq<Row>)
    requires forall i :: 0 <= i < |rows| ==> rows[i].id == i
    ensures Start(parent, rows, UpTo(|rows|)) == rows
  {
    var keys := SomeAll(UpTo(|rows|));
    forall r | r in rows ensures Times(keys, Own(LINK)(r)) == 1 {
      var i :| 0 <= i < |rows| && rows[i] == r;
      assert keys[i] == Some(i);
      CountPositive(keys, i);
      KeysCountOnce(keys, i);
    }
    JoinIsSelection(rows, Own(LINK), keys, r => true);
    FilterAll(r => true, rows);
  }

  // ---------------------------------------------------------------- windows that translate differently

  lemma CountOutside(e: Edge, rows: seq<Row>, k: Uuid)
    requires forall r :: r in rows ==> NodeKey(e, r) != Some(k)
    ensures Count(NodeKeys(e, rows), k) == 0
  {
    CountPositive(NodeKeys(e, rows), k);
    assert forall i :: 0 <= i < |rows| ==> rows[i] in rows;
  }

  /** Rows with the keys 0, 1, 2, ... */
  predicate Numbered(e: Edge, rows: seq<Row>) {
    forall i :: 0 <= i < |rows| ==> rows[i].id == i && NodeKey(e, rows[i]) == Some(i)
  }

  lemma NumberedKeys(e: Edge, rows: seq<Row>)
    requires Numbered(e, rows)
    ensures var projected := ProjectAll(Some([JoinColumn(e)]), rows);
      Distinct(rows) == rows && Distinct(projected) == projected &&
      forall i :: 0 <= i < |rows| ==> NodeKey(e, projected[i]) == Some(i)
  {
    var projected := ProjectAll(Some([JoinColumn(e)]), rows);
    ProjectedKeys(e, rows);
    forall i | 0 <= i < |rows| ensures NodeKey(e, projected[i]) == Some(i) {
      assert NodeKeys(e, projected)[i] == NodeKeys(e, rows)[i];
    }
    DistinctNoop(rows);
    DistinctNoop(projected);
  }

  lemma SpecOfDistinct(parent: Query, rows: seq<Row>)
    requires Distinct(rows) == rows
    ensures SpecOf(parent, rows) == Windowed(parent, rows)
  {
  }

  lemma LastKey(e: Edge, rows: seq<Row>, o: nat)
    requires |rows| > o
    ensures NodeKey(e, rows[|rows| - 1]) in NodeKeys(e, rows[o..])
  {
    var rest := rows[o..];
    assert rest[|rest| - 1] == rows[|rows| - 1];
    assert NodeKeys(e, rest)[|rest| - 1] == NodeKey(e, rows[|rows| - 1]);
  }

  /** The last row is returned by the one translation ... */
  lemma LastRowReturned(parent: Query, e: Edge, rows: seq<Row>, o: nat)
    requires Numbered(e, rows) && |rows| > o && o == OffsetOf(parent)
    requires parent.limit == Some(0) || parent.limit.None?
    ensures Some(|rows| - 1) in NodeKeys(e, SpecOf(parent, rows))
  {
    NumberedKeys(e, rows);
    SpecOfDistinct(parent, rows);
    WholeRest(parent, rows, o);
    LastKey(e, rows, o);
  }

  lemma WholeRest(parent: Query, rows: seq<Row>, o: nat)
    requires |rows| > o && o == OffsetOf(parent)
    requires parent.limit == Some(0) || parent.limit.None?
    ensures Windowed(parent, rows) == rows[o..]
  {
  }

  /** ... and cut off by the other. */
  lemma CutOff(e: Edge, s: seq<Row>, o: nat, m: nat)
    requires |s| == m + o + 1 && forall i :: 0 <= i < |s| ==> NodeKey(e, s[i]) == Some(i)
    ensures Count(NodeKeys(e, Take(m, Drop(o, s))), |s| - 1) == 0
  {
    var kept := s[o..o + m];
    assert Take(m, Drop(o, s)) == kept;
    var keys := NodeKeys(e, kept);
    forall j | 0 <= j < |keys| ensures keys[j] == Some(o + j) {
      assert kept[j] == s[o + j];
    }
    CountPositive(keys, |s| - 1);
  }

  lemma LastRowCut(parent: Query, e: Edge, rows: seq<Row>, o: nat)
    requires Numbered(e, rows) && rows != [] && o == OffsetOf(parent)
    requires parent.limit == Some(0) || (parent.limit.None? && parent.offset.Some? && |rows| == MAX_INT32 + o + 1)
    ensures Count(KeysOf(parent, e, rows), |rows| - 1) == 0
  {
    var projected := ProjectAll(Some([JoinColumn(e)]), rows);
    NumberedKeys(e, rows);
    if parent.limit.Some? {
      assert Window(SqlQuery(parent), projected) == [];
    } else {
      CutOff(e, projected, o, MAX_INT32);
    }
  }

  function NumberedRows(e: Edge, n: nat): (rows: seq<Row>)
    ensures |rows| == n && Numbered(e, rows)
  {
    seq(n, i requires 0 <= i < n => NodeRow(e, i, i))
  }

  lemma UntranslatableWindow(parent: Query, e: Edge, child: Query)
    returns (db: Database, q: Query)
    requires Bare(child) && (parent.limit == Some(0) || (parent.limit.None? && parent.offset.Some?))
    ensures ValidDb(db) && Separates(db, q, parent, e, child)
  {
    var o := OffsetOf(parent);
    var n := if parent.limit.Some? then o + 1 else MAX_INT32 + o + 1;
    var rows := NumberedRows(e, n);
    StartWhole(parent, rows);
    LastRowReturned(parent, e, rows, o);
    LastRowCut(parent, e, rows, o);
    db, q := MadeSeparates(parent, e, child, rows, UpTo(n), n - 1);
  }

  // ---------------------------------------------------------------- windows over repetitions

  /** Rows of which the first `m` have the key 0 and the last has the key 1. */
  predicate Blocks(e: Edge, rows: seq<Row>, m: nat) {
    |rows| == m + 1 && NodeKey(e, rows[m]) == Some(1) && forall i :: 0 <= i < m ==> NodeKey(e, rows[i]) == Some(0)
  }

  /** Without DISTINCT the window shows the block; with it, the two keys are next to each other. */
  lemma BlockWindow(parent: Query, e: Edge, block: seq<Row>, pair: seq<Row>, o: nat, l: nat)
    requires l > 0 && !(l == 1 && o == 0)
    requires Blocks(e, block, o + l) && Blocks(e, pair, 1)
    ensures var a, b := NodeKeys(e, Take(l, Drop(o, block))), NodeKeys(e, Take(l, Drop(o, pair)));
      if o < 2 then Some(1) in b && Some(1) !in a else Some(0) in a && Some(0) !in b
  {
    var shown := Take(l, Drop(o, block));
    assert shown == block[o..o + l];
    assert NodeKeys(e, shown)[0] == Some(0) && forall i :: 0 <= i < l ==> NodeKeys(e, shown)[i] == Some(0);
    var both := Take(l, Drop(o, pair));
    if o == 0 {
      assert both == pair && NodeKeys(e, both)[1] == Some(1);
    } else if o == 1 {
      assert both == [pair[1]] && NodeKeys(e, both)[0] == Some(1);
    } else {
      assert both == [];
    }
  }

  lemma PositiveTellsApart(parent: Query, e: Edge, child: Query, base: seq<Row>, k: Uuid)
    requires Some(k) in KeysOf(parent, e, base) <==> Some(k) !in NodeKeys(e, SpecOf(parent, base))
    ensures TellsApart(parent, e, child, base, k)
  {
    CountPositive(KeysOf(parent, e, base), k);
  }

  /** The traversal joins on the block, the loader asks for the pair. */
  lemma BlockJoined(parent: Query, e: Edge, child: Query, rows: seq<Row>, links: seq<Uuid>, base: seq<Row>,
                    block: seq<Row>, pair: seq<Row>, o: nat, l: nat)
    returns (db: Database, q: Query)
    requires Bare(child) && DistinctIds(rows) && base == Start(parent, rows, links)
    requires l > 0 && !(l == 1 && o == 0) && Blocks(e, block, o + l) && Blocks(e, pair, 1)
    requires SpecOf(parent, base) == Take(l, Drop(o, pair))
    requires KeysOf(parent, e, base) == NodeKeys(e, Take(l, Drop(o, block)))
    ensures ValidDb(db) && Separates(db, q, parent, e, child)
  {
    var k: Uuid := if o < 2 then 1 else 0;
    BlockWindow(parent, e, block, pair, o, l);
    PositiveTellsApart(parent, e, child, base, k);
    db, q := MadeSeparates(parent, e, child, rows, links, k);
  }

  /** The traversal joins on the pair, the loader asks for the block. */
  lemma PairJoined(parent: Query, e: Edge, child: Query, rows: seq<Row>, links: seq<Uuid>, base: seq<Row>,
                   block: seq<Row>, pair: seq<Row>, o: nat, l: nat)
    returns (db: Database, q: Query)
    requires Bare(child) && DistinctIds(rows) && base == Start(parent, rows, links)
    requires l > 0 && !(l == 1 && o == 0) && Blocks(e, block, o + l) && Blocks(e, pair, 1)
    requires SpecOf(parent, base) == Take(l, Drop(o, block))
    requires KeysOf(parent, e, base) == NodeKeys(e, Take(l, Drop(o, pair)))
    ensures ValidDb(db) && Separates(db, q, parent, e, child)
  {
    var k: Uuid := if o < 2 then 1 else 0;
    BlockWindow(parent, e, block, pair, o, l);
    PositiveTellsApart(parent, e, child, base, k);
    db, q := MadeSeparates(parent, e, child, rows, links, k);
  }

  function BlockKeys(m: nat): (r: seq<Option<Uuid>>)
    ensures |r| == m + 1
  {
    seq(m, _ => Some(0)) + [Some(1)]
  }

  function BlockLinks(m: nat): (r: seq<Uuid>)
    ensures |r| == m + 1
  {
    seq(m, _ => 0) + [1]
  }

  lemma {:induction false} CountBlock(m: nat)
    ensures Count(BlockKeys(m), 0) == m && Count(BlockKeys(m), 1) == 1
  {
    if m > 0 {
      CountBlock(m - 1);
      assert BlockKeys(m)[1..] == BlockKeys(m - 1);
    } else {
      var none: seq<Option<Uuid>> := [];
      assert BlockKeys(0)[1..] == none && Count(none, 0) == 0 && Count(none, 1) == 0;
    }
  }

  lemma JoinPair(x: Row, y: Row, keys: seq<Option<Uuid>>)
    ensures Join([x, y], Own(LINK), keys) == seq(Count(keys, x.id), _ => x) + seq(Count(keys, y.id), _ => y)
  {
    assert [x, y][1..] == [y] && [y][1..] == [];
    assert Join([y][1..], Own(LINK), keys) == [];
    assert Join([y], Own(LINK), keys) == seq(Count(keys, y.id), _ => y) + [];
  }

  /** Two rows, the first of which is linked `m` times. */
  lemma StartRepeated(parent: Query, x: Row, y: Row, m: nat)
    requires parent.path.Some? && x.id == 0 && y.id == 1
    ensures Start(parent, [x, y], BlockLinks(m)) == seq(m, _ => x) + [y]
  {
    assert SomeAll(BlockLinks(m)) == BlockKeys(m);
    CountBlock(m);
    JoinPair(x, y, BlockKeys(m));
    assert seq(1, _ => y) == [y];
  }

  lemma DistinctBlock(x: Row, y: Row, m: nat)
    requires m > 0 && x != y
    ensures Distinct(seq(m, _ => x) + [y]) == [x, y]
  {
    DistinctRepeat(x, m, [y]);
    DistinctNoop([y]);
  }

  lemma ProjectedBlocks(e: Edge, x: Row, y: Row, m: nat)
    requires NodeKey(e, x) == Some(0) && NodeKey(e, y) == Some(1)
    ensures Blocks(e, ProjectAll(Some([JoinColumn(e)]), seq(m, _ => x) + [y]), m)
  {
    var base := seq(m, _ => x) + [y];
    var projected := ProjectAll(Some([JoinColumn(e)]), base);
    ProjectedKeys(e, base);
    forall i | 0 <= i < |base| ensures NodeKey(e, projected[i]) == NodeKey(e, base[i]) {
      assert NodeKeys(e, projected)[i] == NodeKeys(e, base)[i];
    }
  }

  /** What the two translations show of a repeated node, without a `Unique` setting. */
  lemma RepeatedForms(parent: Query, e: Edge, base: seq<Row>, x: Row, y: Row, o: nat, l: nat)
    requires parent.path.Some? && parent.unique.None? && parent.limit == Some(l) && l > 0
    requires o == OffsetOf(parent)
    requires Distinct(base) == [x, y]
    ensures SpecOf(parent, base) == Take(l, Drop(o, [x, y]))
    ensures KeysOf(parent, e, base) == NodeKeys(e, Take(l, Drop(o, ProjectAll(Some([JoinColumn(e)]), base))))
  {
    DropNothing(ProjectAll(Some([JoinColumn(e)]), base));
  }

  lemma TwoNodes(e: Edge)
    ensures DistinctIds([NodeRow(e, 0, 0), NodeRow(e, 1, 1)]) && Blocks(e, [NodeRow(e, 0, 0), NodeRow(e, 1, 1)], 1)
  {
  }

  /** A traversal without a `Unique` setting: the one translation drops repeated nodes, the other does not. */
  lemma RepeatedNodes(parent: Query, e: Edge, child: Query)
    returns (db: Database, q: Query)
    requires Bare(child) && parent.path.Some? && parent.unique.None?
    requires parent.limit.Some? && parent.limit.value > 0 && !FirstRowOnly(parent)
    ensures ValidDb(db) && Separates(db, q, parent, e, child)
  {
    var o, l := OffsetOf(parent), parent.limit.value;
    var x, y := NodeRow(e, 0, 0), NodeRow(e, 1, 1);
    var base := seq(o + l, _ => x) + [y];
    StartRepeated(parent, x, y, o + l);
    DistinctBlock(x, y, o + l);
    RepeatedForms(parent, e, base, x, y, o, l);
    ProjectedBlocks(e, x, y, o + l);
    TwoNodes(e);
    db, q := BlockJoined(parent, e, child, [x, y], BlockLinks(o + l), base, ProjectAll(Some([JoinColumn(e)]), base),
      [x, y], o, l);
  }

  lemma DropNothing(s: seq<Row>)
    ensures Drop(0, s) == s
  {
  }

  function BlockRows(e: Edge, m: nat): (rows: seq<Row>)
    ensures |rows| == m + 1 && forall i :: 0 <= i <= m ==> rows[i] == NodeRow(e, i, if i < m then 0 else 1)
  {
    seq(m + 1, i requires 0 <= i <= m => NodeRow(e, i, if i < m then 0 else 1))
  }

  /** Reduced to the key, the rows of the block are the same row. */
  lemma ReducedBlock(e: Edge, m: nat) returns (p0: Row, p1: Row)
    requires e.kind.Held? && e.column != ID && m > 0
    ensures ProjectAll(Some([e.column]), BlockRows(e, m)) == seq(m, _ => p0) + [p1] && p0 != p1
    ensures Blocks(e, [p0, p1], 1)
  {
    var rows := BlockRows(e, m);
    p0, p1 := Project(rows[0], [e.column]), Project(rows[m], [e.column]);
    assert p0.cols == map[e.column := Key(0)] && p1.cols == map[e.column := Key(1)];
    forall i | 0 <= i < m ensures Project(rows[i], [e.column]) == p0 {
      assert Project(rows[i], [e.column]).cols == map[e.column := Key(0)];
    }
    assert KeyOf(p0, e.column) == Some(0) && KeyOf(p1, e.column) == Some(1);
  }

  /** A table of which the first `m` rows share a key, and what DISTINCT leaves of its keys. */
  lemma BlockTable(parent: Query, e: Edge, m: nat) returns (rows: seq<Row>, p0: Row, p1: Row)
    requires e.kind.Held? && e.column != ID && m > 0
    ensures DistinctIds(rows) && Distinct(rows) == rows && Start(parent, rows, UpTo(|rows|)) == rows &&
      Blocks(e, rows, m)
    ensures Distinct(ProjectAll(Some([e.column]), rows)) == [p0, p1] && Blocks(e, [p0, p1], 1)
  {
    rows := BlockRows(e, m);
    assert forall i :: 0 <= i < |rows| ==> rows[i].id == i;
    DistinctNoop(rows);
    StartWhole(parent, rows);
    p0, p1 := ReducedBlock(e, m);
    DistinctBlock(p0, p1, m);
  }

  /** What the two translations show of nodes that share a key, under `Unique(true)`. */
  lemma ReducedForms(parent: Query, e: Edge, rows: seq<Row>, p0: Row, p1: Row, o: nat, l: nat)
    requires e.kind.Held? && parent.unique == Some(true) && parent.limit == Some(l) && l > 0
    requires o == OffsetOf(parent)
    requires Distinct(rows) == rows && Distinct(ProjectAll(Some([e.column]), rows)) == [p0, p1]
    ensures SpecOf(parent, rows) == Take(l, Drop(o, rows))
    ensures KeysOf(parent, e, rows) == NodeKeys(e, Take(l, Drop(o, [p0, p1])))
  {
    DropNothing([p0, p1]);
  }

  lemma SharedKeyApart(parent: Query, e: Edge, child: Query, rows: seq<Row>, p0: Row, p1: Row, o: nat, l: nat)
    returns (db: Database, q: Query)
    requires Bare(child) && e.kind.Held? && parent.unique == Some(true) && parent.limit == Some(l) && l > 0
    requires o == OffsetOf(parent) && !(l == 1 && o == 0)
    requires DistinctIds(rows) && Distinct(rows) == rows && Start(parent, rows, UpTo(|rows|)) == rows
    requires Distinct(ProjectAll(Some([e.column]), rows)) == [p0, p1] && Blocks(e, rows, o + l) &&
      Blocks(e, [p0, p1], 1)
    ensures ValidDb(db) && Separates(db, q, parent, e, child)
  {
    ReducedForms(parent, e, rows, p0, p1, o, l);
    db, q := PairJoined(parent, e, child, rows, UpTo(|rows|), rows, rows, [p0, p1], o, l);
  }

  /**
   Nodes that share a key, under `Unique(true)`: the one translation drops repeated nodes, the other repeated
   keys.
   */
  lemma RepeatedKeys(parent: Query, e: Edge, child: Query)
    returns (db: Database, q: Query)
    requires Bare(child) && e.kind.Held? && e.column != ID && parent.unique == Some(true)
    requires parent.limit.Some? && parent.limit.value > 0 && !FirstRowOnly(parent)
    ensures ValidDb(db) && Separates(db, q, parent, e, child)
  {
    var o, l := OffsetOf(parent), parent.limit.value;
    var rows, p0, p1 := BlockTable(parent, e, o + l);
    db, q := SharedKeyApart(parent, e, child, rows, p0, p1, o, l);
  }

  // ---------------------------------------------------------------- neighbours that repeat

  /** Two rows in the window have the same key, and the traversal keeps both. */
  lemma SharedKey(parent: Query, e: Edge, child: Query, base: seq<Row>)
    requires child.unique == Some(false) && parent.unique != Some(true)
    requires NoWindow(parent) || (parent.limit.Some? && parent.limit.value > 1)
    requires |base| == OffsetOf(parent) + 2
    requires forall r :: r in base ==> NodeKey(e, r) == Some(0)
    ensures TellsApart(parent, e, child, base, 0)
  {
    var o := OffsetOf(parent);
    var projected := ProjectAll(Some([JoinColumn(e)]), base);
    var kept := Window(SqlQuery(parent), projected);
    DropNothing(projected);
    assert kept == projected[o..];
    ProjectedKeys(e, base);
    forall i | 0 <= i < |kept| ensures NodeKeys(e, kept)[i] == Some(0) {
      assert NodeKeys(e, projected)[o + i] == NodeKeys(e, base)[o + i];
      assert base[o + i] in base;
    }
    CountAll(NodeKeys(e, kept), 0);
  }

  lemma RepeatedNeighbours(parent: Query, e: Edge, child: Query)
    returns (db: Database, q: Query)
    requires Bare(child) && child.unique == Some(false) && !JoinsOnce(parent, e) && KeysAlign(parent, e)
    ensures ValidDb(db) && Separates(db, q, parent, e, child)
  {
    var n := OffsetOf(parent) + 2;
    if parent.path.Some? {
      var x := NodeRow(e, 0, 0);
      StartOneRepeated(parent, x, n);
      SharedKey(parent, e, child, seq(n, _ => x));
      db, q := MadeSeparates(parent, e, child, [x], seq(n, _ => 0), 0);
    } else {
      var rows := seq(n, i requires 0 <= i < n => NodeRow(e, i, 0));
      StartWhole(parent, rows);
      SharedKey(parent, e, child, rows);
      db, q := MadeSeparates(parent, e, child, rows, UpTo(n), 0);
    }
  }

  lemma StartOneRepeated(parent: Query, x: Row, n: nat)
    requires parent.path.Some? && x.id == 0
    ensures Start(parent, [x], seq(n, _ => 0)) == seq(n, _ => x)
  {
    var keys := SomeAll(seq(n, _ => 0));
    CountAll(keys, 0);
    assert [x][1..] == [];
    assert Join([], Own(LINK), keys) == [];
  }

  // ---------------------------------------------------------------- the exact condition

  /**
   Read off the builders: whatever the database and the predicates, orders, tables and source of the parent,
   both routes agree on every edge of this kind, if and only if the parent has no window, or a positive limit
   under which its two translations cannot drop different repetitions; and, for neighbours with
   `Unique(false)`, no key can be joined on twice.
   */
  lemma AgreesAlwaysIff(parent: Query, e: Edge, child: Query)
    requires Bare(child) && (e.kind.Held? ==> e.column != ID)
    ensures (forall db: Database, q: Query :: ValidDb(db) && SameShape(q, parent) ==> Same(db, q, e, child))
            <==> AgreesAlways(parent, e, child)
  {
    if AgreesAlways(parent, e, child) {
      forall db: Database, q: Query | ValidDb(db) && SameShape(q, parent) ensures Same(db, q, e, child) {
        AlwaysReachesAlike(db, q, e, child);
        EagerIsTraversal(db, q, e, child);
      }
    } else {
      var db: Database, q: Query;
      if KeysAlign(parent, e) {
        db, q := RepeatedNeighbours(parent, e, child);
      } else if parent.limit == Some(0) || parent.limit.None? {
        db, q := UntranslatableWindow(parent, e, child);
      } else if e.kind.Held? && parent.unique == Some(true) {
        db, q := RepeatedKeys(parent, e, child);
      } else {
        db, q := RepeatedNodes(parent, e, child);
      }
      assert ValidDb(db) && SameShape(q, parent) && !Same(db, q, e, child);
    }
  }

  // ---------------------------------------------------------------- smallest examples

  const GROUP: Edge := Edge("group_chat", Held, "group_chat_id")

  /** Three members `a`, `b` of the group `g`, and `c` of the group `h`. */
  predicate Example(db: Database, a: Row, b: Row, c: Row, g: Row, h: Row) {
    "group_members" in db && db["group_members"] == [a, b, c] &&
    "group_chats" in db && db["group_chats"] == [g, h] && g.id != h.id &&
    KeyOf(a, GROUP.column) == Some(g.id) && KeyOf(b, GROUP.column) == Some(g.id) && KeyOf(c, GROUP.column) == Some(h.id)
  }

  lemma {:induction false} CountTwice(keys: seq<Option<Uuid>>, i: nat, j: nat, k: Uuid)
    requires i < j < |keys| && keys[i] == Some(k) && keys[j] == Some(k)
    ensures Count(keys, k) >= 2
  {
    if i == 0 {
      assert keys[1..][j - 1] == Some(k);
      CountPositive(keys[1..], k);
    } else {
      CountTwice(keys[1..], i - 1, j - 1, k);
    }
  }

  lemma EverythingJoined(db: Database, t: Table)
    requires ValidDb(db)
    ensures SpecRows(db, Everything(t)) == TableRows(db, t)
    ensures TraversedKeys(db, Everything(t), GROUP) == NodeKeys(GROUP, TableRows(db, t))
  {
    SelectAll(TableRows(db, t));
    DropNothing(TableRows(db, t));
    TraversalKeys(db, Everything(t), GROUP);
  }

  lemma FirstTwoKeys(rows: seq<Row>, g: Uuid)
    requires |rows| >= 2 && KeyOf(rows[0], GROUP.column) == Some(g) && KeyOf(rows[1], GROUP.column) == Some(g)
    ensures Some(g) in NodeKeys(GROUP, rows) && Count(NodeKeys(GROUP, rows), g) >= 2
  {
    assert NodeKeys(GROUP, rows)[0] == Some(g) && NodeKeys(GROUP, rows)[1] == Some(g);
    CountTwice(NodeKeys(GROUP, rows), 0, 1, g);
  }

  /** Two members of one group: `QueryGroupChat` on builders with `Unique(false)` lists the group twice. */
  lemma SharedGroupRepeats(db: Database, a: Row, b: Row, c: Row, g: Row, h: Row)
    requires ValidDb(db) && Example(db, a, b, c, g, h)
    ensures !Same(db, Everything("group_members"), GROUP, Everything("group_chats").(unique := Some(false)))
  {
    var parent, child := Everything("group_members"), Everything("group_chats").(unique := Some(false));
    EverythingJoined(db, "group_members");
    FirstTwoKeys(db["group_members"], g.id);
    EagerIsTraversalIff(db, parent, GROUP, child);
    assert g == db["group_chats"][0] && Satisfies(child.preds, g);
    assert Listed(db, parent, GROUP, child, g) >= 2;
  }

  lemma DistinctPair(x: Row, y: Row)
    requires x != y
    ensures Distinct([x, x, y]) == [x, y]
  {
    DistinctNoop([x, y]);
    assert [x, x, y][1..] == [x, y];
    FilterCons(r => r != x, x, [y]);
    FilterCons(r => r != x, y, []);
    assert [x, y] == [x] + [y] && [y] == [y] + [];
  }

  /** The first rows of a table, with `Unique(true)`: for both translations, and for the keys of a traversal. */
  function FirstOf(t: Table, l: nat): Query {
    Everything(t).(unique := Some(true), limit := Some(l))
  }

  lemma FirstRows(db: Database, t: Table, l: nat)
    requires l > 0
    ensures SpecRows(db, FirstOf(t, l)) == Take(l, Distinct(TableRows(db, t)))
    ensures TraversedKeys(db, FirstOf(t, l), GROUP)
         == NodeKeys(GROUP, Take(l, Distinct(ProjectAll(Some([GROUP.column]), TableRows(db, t)))))
  {
    SelectAll(TableRows(db, t));
    assert Drop(0, Distinct(TableRows(db, t))) == Distinct(TableRows(db, t));
  }

  lemma SameGroupSameKeyRow(a: Row, b: Row)
    requires KeyOf(a, GROUP.column).Some?
    ensures Project(a, [GROUP.column]) == Project(b, [GROUP.column]) <==>
      KeyOf(a, GROUP.column) == KeyOf(b, GROUP.column)
    ensures KeyOf(Project(a, [GROUP.column]), GROUP.column) == KeyOf(a, GROUP.column)
  {
    var x, y := Project(a, [GROUP.column]), Project(b, [GROUP.column]);
    assert x.cols.Keys == {GROUP.column};
    assert KeyOf(y, GROUP.column) == KeyOf(b, GROUP.column);
    if KeyOf(a, GROUP.column) == KeyOf(b, GROUP.column) {
      assert y.cols.Keys == {GROUP.column};
      assert x.cols == y.cols;
    }
  }

  /** Of three rows, the first two of one group: the distinct keys are the first and the third. */
  lemma DistinctKeys(a: Row, b: Row, c: Row)
    requires KeyOf(a, GROUP.column).Some? && KeyOf(b, GROUP.column) == KeyOf(a, GROUP.column)
    requires KeyOf(c, GROUP.column).Some? && KeyOf(c, GROUP.column) != KeyOf(a, GROUP.column)
    ensures NodeKeys(GROUP, Take(2, Distinct(ProjectAll(Some([GROUP.column]), [a, b, c]))))
         == [KeyOf(a, GROUP.column), KeyOf(c, GROUP.column)]
  {
    SameGroupSameKeyRow(a, b);
    SameGroupSameKeyRow(a, c);
    SameGroupSameKeyRow(c, c);
    var x, y := Project(a, [GROUP.column]), Project(c, [GROUP.column]);
    assert ProjectAll(Some([GROUP.column]), [a, b, c]) == [x, x, y];
    DistinctPair(x, y);
    assert Take(2, [x, y]) == [x, y];
  }

  lemma ReturnedKeys(db: Database, t: Table, a: Row, b: Row, c: Row, g: Uuid, h: Uuid)
    requires TableRows(db, t) == [a, b, c] && DistinctIds([a, b, c]) && g != h
    requires KeyOf(a, GROUP.column) == Some(g) && KeyOf(b, GROUP.column) == Some(g)
    ensures Some(h) !in NodeKeys(GROUP, SpecRows(db, FirstOf(t, 2)))
  {
    FirstRows(db, t, 2);
    FirstTwo(a, b, c);
    OneGroup(a, b, g, h);
  }

  lemma OneGroup(a: Row, b: Row, g: Uuid, h: Uuid)
    requires g != h && KeyOf(a, GROUP.column) == Some(g) && KeyOf(b, GROUP.column) == Some(g)
    ensures Some(h) !in NodeKeys(GROUP, [a, b])
  {
    assert NodeKeys(GROUP, [a, b]) == [Some(g), Some(g)];
  }

  lemma FirstTwo(a: Row, b: Row, c: Row)
    requires DistinctIds([a, b, c])
    ensures Take(2, Distinct([a, b, c])) == [a, b]
  {
    DistinctNoop([a, b, c]);
  }

  lemma JoinedKeys(db: Database, t: Table, a: Row, b: Row, c: Row, g: Uuid, h: Uuid)
    requires TableRows(db, t) == [a, b, c] && g != h
    requires KeyOf(a, GROUP.column) == Some(g) && KeyOf(b, GROUP.column) == Some(g) && KeyOf(c, GROUP.column) == Some(h)
    ensures Some(h) in TraversedKeys(db, FirstOf(t, 2), GROUP)
  {
    FirstRows(db, t, 2);
    DistinctKeys(a, b, c);
    assert [Some(g), Some(h)][1] == Some(h);
  }

  /**
   `Unique(true)` with `Limit(2)` on the members: eager loading finds the one group of the two returned
   members, traversal finds both groups.
   */
  lemma WindowSeesMoreGroups(db: Database, a: Row, b: Row, c: Row, g: Row, h: Row)
    requires ValidDb(db) && Example(db, a, b, c, g, h)
    ensures !Same(db, FirstOf("group_members", 2), GROUP, Everything("group_chats"))
  {
    var parent, child := FirstOf("group_members", 2), Everything("group_chats");
    ReturnedKeys(db, "group_members", a, b, c, g.id, h.id);
    JoinedKeys(db, "group_members", a, b, c, g.id, h.id);
    MissedByLoader(db, parent, child, h);
  }

  /** A neighbour whose key only the traversal joins on. */
  lemma MissedByLoader(db: Database, parent: Query, child: Query, r: Row)
    requires ValidDb(db) && Bare(child) && r in TableRows(db, child.table)
    requires Some(r.id) in TraversedKeys(db, parent, GROUP) && Some(r.id) !in NodeKeys(GROUP, SpecRows(db, parent))
    ensures !Same(db, parent, GROUP, child)
  {
    EagerIsTraversalIff(db, parent, GROUP, child);
    CountPositive(TraversedKeys(db, parent, GROUP), r.id);
    assert Satisfies(child.preds, r) && Listed(db, parent, GROUP, child, r) > 0;
  }
}
