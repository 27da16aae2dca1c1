/**
 The abstract database: rows, and the operations a SELECT is made of. ORDER BY is a stable sort, so
 rows it does not separate stay in table order.
 */
module Rows {
  import opened Prelude

  type Column = string

  const ID: Column := "id"

  datatype Value = Null | Key(key: Uuid) | Data(data: int)

  datatype Row = Row(id: Uuid, cols: map<Column, Value>)

  type Pred = Row -> bool

  datatype OrderTerm = OrderTerm(key: Row -> int, desc: bool)

  /** A foreign key as a node holds it: nil when the column is NULL or was not selected. */
  function KeyOf(r: Row, col: Column): Option<Uuid> {
    if col in r.cols && r.cols[col].Key? then Some(r.cols[col].key) else None
  }

  /** The row as a statement that selects only `columns` returns it. */
  function Project(r: Row, columns: seq<Column>): Row {
    Row(if ID in columns then r.id else NIL_UUID, map c | c in r.cols && c in columns :: r.cols[c])
  }

  function Filter<T(!new)>(p: T -> bool, s: seq<T>): (r: seq<T>)
    ensures forall x :: x in r <==> x in s && p(x)
    ensures |r| <= |s|
  {
    if s == [] then [] else (if p(s[0]) then [s[0]] else []) + Filter(p, s[1..])
  }

  /** Conjunction of the predicates of a builder. */
  predicate Satisfies(preds: seq<Pred>, r: Row) {
    forall i :: 0 <= i < |preds| ==> preds[i](r)
  }

  /** Strictly earlier in the order that the terms describe, the first term being the most significant. */
  predicate Before(terms: seq<OrderTerm>, a: Row, b: Row) {
    if terms == [] then false
    else
      var (x, y) := if terms[0].desc then (terms[0].key(b), terms[0].key(a)) else (terms[0].key(a), terms[0].key(b));
      x < y || (x == y && Before(terms[1..], a, b))
  }

  function Insert(terms: seq<OrderTerm>, x: Row, s: seq<Row>): seq<Row> {
    if s == [] || !Before(terms, s[0], x) then [x] + s else [s[0]] + Insert(terms, x, s[1..])
  }

  /** ORDER BY. */
  function Sort(terms: seq<OrderTerm>, s: seq<Row>): seq<Row> {
    if s == [] then [] else Insert(terms, s[0], Sort(terms, s[1..]))
  }

  lemma {:induction false} InsertAdds(terms: seq<OrderTerm>, x: Row, s: seq<Row>)
    ensures multiset(Insert(terms, x, s)) == multiset(s) + multiset{x}
  {
    if s != [] && Before(terms, s[0], x) {
      InsertAdds(terms, x, s[1..]);
      assert s == [s[0]] + s[1..];
    }
  }

  lemma {:induction false} SortPermutes(terms: seq<OrderTerm>, s: seq<Row>)
    ensures multiset(Sort(terms, s)) == multiset(s) && |Sort(terms, s)| == |s|
  {
    if s != [] {
      SortPermutes(terms, s[1..]);
      InsertAdds(terms, s[0], Sort(terms, s[1..]));
      assert s == [s[0]] + s[1..];
      assert |multiset(Sort(terms, s))| == |Sort(terms, s)|;
    }
  }

  /** DISTINCT: the first of equal rows. */
  function Distinct(s: seq<Row>): (r: seq<Row>)
    ensures forall x :: x in r <==> x in s
  {
    if s == [] then [] else [s[0]] + Filter(y => y != s[0], Distinct(s[1..]))
  }

  function Drop<T>(n: nat, s: seq<T>): seq<T> {
    if n <= |s| then s[n..] else []
  }

  function Take<T>(n: nat, s: seq<T>): seq<T> {
    if n <= |s| then s[..n] else s
  }

  predicate DistinctIds(s: seq<Row>) {
    forall i, j :: 0 <= i < j < |s| ==> s[i].id != s[j].id
  }

  predicate NoDup<T(==)>(s: seq<T>) {
    forall i, j :: 0 <= i < j < |s| ==> s[i] != s[j]
  }

  // ---------------------------------------------------------------- filters

  lemma {:induction false} FilterAppend<T(!new)>(p: T -> bool, a: seq<T>, b: seq<T>)
    ensures Filter(p, a + b) == Filter(p, a) + Filter(p, b)
  {
    if a == [] {
      assert a + b == b;
    } else {
      assert (a + b)[1..] == a[1..] + b;
      FilterAppend(p, a[1..], b);
    }
  }

  lemma {:induction false} FilterSame<T(!new)>(p: T -> bool, q: T -> bool, s: seq<T>)
    requires forall x :: x in s ==> p(x) == q(x)
    ensures Filter(p, s) == Filter(q, s)
  {
    if s != [] {
      FilterSame(p, q, s[1..]);
    }
  }

  lemma {:induction false} FilterTwice<T(!new)>(p: T -> bool, q: T -> bool, both: T -> bool, s: seq<T>)
    requires forall x :: x in s ==> both(x) == (p(x) && q(x))
    ensures Filter(p, Filter(q, s)) == Filter(both, s)
  {
    if s != [] {
      FilterTwice(p, q, both, s[1..]);
      if q(s[0]) {
        assert ([s[0]] + Filter(q, s[1..]))[1..] == Filter(q, s[1..]);
      } else {
        assert Filter(q, s) == Filter(q, s[1..]);
      }
    }
  }

  lemma {:induction false} FilterAll<T(!new)>(p: T -> bool, s: seq<T>)
    requires forall x :: x in s ==> p(x)
    ensures Filter(p, s) == s
  {
    if s != [] {
      FilterAll(p, s[1..]);
    }
  }

  lemma {:induction false} FilterNone<T(!new)>(p: T -> bool, s: seq<T>)
    requires forall x :: x in s ==> !p(x)
    ensures Filter(p, s) == []
  {
    if s != [] {
      FilterNone(p, s[1..]);
    }
  }

  lemma {:induction false} FilterCounts<T(!new)>(p: T -> bool, s: seq<T>, x: T)
    ensures multiset(Filter(p, s))[x] == if p(x) then multiset(s)[x] else 0
  {
    if s != [] {
      FilterCounts(p, s[1..], x);
      assert s == [s[0]] + s[1..];
    }
  }

  lemma {:induction false} FilterKeepsIds(p: Pred, s: seq<Row>)
    requires DistinctIds(s)
    ensures DistinctIds(Filter(p, s))
  {
    if s != [] {
      FilterKeepsIds(p, s[1..]);
      var rest := Filter(p, s[1..]);
      forall k | 0 <= k < |rest| ensures rest[k].id != s[0].id {
        assert rest[k] in s[1..];
      }
    }
  }

  // ---------------------------------------------------------------- the order

  lemma {:induction false} BeforeIrreflexive(terms: seq<OrderTerm>, a: Row)
    ensures !Before(terms, a, a)
  {
    if terms != [] {
      BeforeIrreflexive(terms[1..], a);
    }
  }

  /** Not being earlier is transitive. */
  lemma {:induction false} NotBeforeTrans(terms: seq<OrderTerm>, a: Row, b: Row, c: Row)
    requires !Before(terms, b, a) && !Before(terms, c, b)
    ensures !Before(terms, c, a)
  {
    if terms != [] {
      var k := terms[0].key;
      if k(a) == k(b) && k(b) == k(c) {
        NotBeforeTrans(terms[1..], a, b, c);
      }
    }
  }

  /** The rows agree on every term. */
  predicate Tied(terms: seq<OrderTerm>, a: Row, b: Row) {
    forall i :: 0 <= i < |terms| ==> terms[i].key(a) == terms[i].key(b)
  }

  /** Term `i` tells the rows apart, and no earlier one does. */
  predicate Separates(terms: seq<OrderTerm>, i: nat, a: Row, b: Row)
    requires i < |terms|
  {
    Tied(terms[..i], a, b) &&
    if terms[i].desc then terms[i].key(b) < terms[i].key(a) else terms[i].key(a) < terms[i].key(b)
  }

  /** The order is lexicographic: some term separates the rows, and all terms before it agree on them. */
  lemma {:induction false} BeforeIff(terms: seq<OrderTerm>, a: Row, b: Row)
    ensures Before(terms, a, b) <==> exists i :: 0 <= i < |terms| && Separates(terms, i, a, b)
  {
    if terms != [] {
      var rest := terms[1..];
      BeforeIff(rest, a, b);
      forall i | 0 <= i < |rest|
        ensures Separates(terms, i + 1, a, b) <==> terms[0].key(a) == terms[0].key(b) && Separates(rest, i, a, b)
      {
        TiedCons(terms, i, a, b);
      }
      if Before(terms, a, b) {
        if terms[0].key(a) == terms[0].key(b) {
          var i :| 0 <= i < |rest| && Separates(rest, i, a, b);
          assert Separates(terms, i + 1, a, b);
        } else {
          assert Separates(terms, 0, a, b);
        }
      }
      if i :| 0 <= i < |terms| && Separates(terms, i, a, b) {
        if i > 0 {
          assert Separates(terms, (i - 1) + 1, a, b);
          assert Separates(rest, i - 1, a, b);
        }
      }
    }
  }

  lemma TiedCons(terms: seq<OrderTerm>, i: nat, a: Row, b: Row)
    requires i < |terms| - 1
    ensures Tied(terms[..i + 1], a, b) <==> terms[0].key(a) == terms[0].key(b) && Tied(terms[1..][..i], a, b)
  {
    var front, rest := terms[..i + 1], terms[1..][..i];
    assert front == [terms[0]] + rest;
    assert forall j :: 0 <= j < i ==> rest[j] == front[j + 1];
    if terms[0].key(a) == terms[0].key(b) && Tied(rest, a, b) {
      forall j | 0 <= j < |front| ensures front[j].key(a) == front[j].key(b) {
        assert j > 0 ==> front[j] == rest[j - 1];
      }
    }
  }

  ghost predicate Sorted(terms: seq<OrderTerm>, s: seq<Row>) {
    forall i, j :: 0 <= i < j < |s| ==> !Before(terms, s[j], s[i])
  }

  lemma {:induction false} BeforeAsym(terms: seq<OrderTerm>, a: Row, b: Row)
    requires Before(terms, a, b)
    ensures !Before(terms, b, a)
  {
    if terms[0].key(a) == terms[0].key(b) {
      BeforeAsym(terms[1..], a, b);
    }
  }

  lemma {:induction false} InsertSorted(terms: seq<OrderTerm>, x: Row, s: seq<Row>)
    requires Sorted(terms, s)
    ensures Sorted(terms, Insert(terms, x, s))
  {
    if s == [] {
    } else if !Before(terms, s[0], x) {
      forall j | 0 <= j < |s| ensures !Before(terms, s[j], x) {
        if j > 0 { NotBeforeTrans(terms, x, s[0], s[j]); }
      }
    } else {
      InsertSorted(terms, x, s[1..]);
      var rest := Insert(terms, x, s[1..]);
      forall k | 0 <= k < |rest| ensures !Before(terms, rest[k], s[0]) {
        InsertAdds(terms, x, s[1..]);
        assert rest[k] in multiset(rest);
        if rest[k] == x {
          BeforeAsym(terms, s[0], x);
        } else {
          assert rest[k] in multiset(s[1..]);
          var j :| 0 <= j < |s[1..]| && s[1..][j] == rest[k];
          assert !Before(terms, s[j + 1], s[0]);
        }
      }
    }
  }

  lemma {:induction false} SortSorted(terms: seq<OrderTerm>, s: seq<Row>)
    ensures Sorted(terms, Sort(terms, s))
  {
    if s != [] {
      SortSorted(terms, s[1..]);
      InsertSorted(terms, s[0], Sort(terms, s[1..]));
    }
  }

  /** ORDER BY by all terms: no later row is separated from an earlier one in its favour by any term. */
  lemma SortedByAllTerms(terms: seq<OrderTerm>, s: seq<Row>)
    ensures forall i, j, k :: 0 <= i < j < |Sort(terms, s)| && 0 <= k < |terms| ==>
      !Separates(terms, k, Sort(terms, s)[j], Sort(terms, s)[i])
  {
    SortSorted(terms, s);
    forall i, j, k | 0 <= i < j < |Sort(terms, s)| && 0 <= k < |terms|
      ensures !Separates(terms, k, Sort(terms, s)[j], Sort(terms, s)[i])
    {
      BeforeIff(terms, Sort(terms, s)[j], Sort(terms, s)[i]);
    }
  }

  /** A row that nothing precedes goes first. */
  lemma InsertFirst(terms: seq<OrderTerm>, x: Row, s: seq<Row>)
    requires forall y :: y in s ==> !Before(terms, y, x)
    ensures Insert(terms, x, s) == [x] + s
  {
  }

  lemma FilterCons<T(!new)>(p: T -> bool, x: T, s: seq<T>)
    ensures Filter(p, [x] + s) == if p(x) then [x] + Filter(p, s) else Filter(p, s)
  {
    assert ([x] + s)[1..] == s;
  }

  /** In a sorted sequence whose head is not earlier than `x`, nothing is. */
  lemma NothingBefore(terms: seq<OrderTerm>, x: Row, s: seq<Row>)
    requires Sorted(terms, s) && s != [] && !Before(terms, s[0], x)
    ensures forall y :: y in s ==> !Before(terms, y, x)
  {
    forall y | y in s ensures !Before(terms, y, x) {
      var j :| 0 <= j < |s| && s[j] == y;
      if j > 0 { NotBeforeTrans(terms, x, s[0], s[j]); }
    }
  }

  lemma InsertCons(terms: seq<OrderTerm>, x: Row, h: Row, t: seq<Row>)
    ensures Insert(terms, x, [h] + t) == if Before(terms, h, x) then [h] + Insert(terms, x, t) else [x] + ([h] + t)
  {
    assert ([h] + t)[1..] == t;
  }

  lemma {:induction false} FilterInsert(terms: seq<OrderTerm>, p: Pred, x: Row, s: seq<Row>)
    requires Sorted(terms, s)
    ensures Filter(p, Insert(terms, x, s)) == if p(x) then Insert(terms, x, Filter(p, s)) else Filter(p, s)
    decreases |s|
  {
    if s == [] {
      FilterCons(p, x, s);
    } else if !Before(terms, s[0], x) {
      NothingBefore(terms, x, s);
      FilterCons(p, x, s);
      InsertFirst(terms, x, Filter(p, s));
    } else {
      var h, t := s[0], s[1..];
      assert s == [h] + t;
      FilterInsert(terms, p, x, t);
      InsertCons(terms, x, h, t);
      FilterCons(p, h, t);
      FilterCons(p, h, Insert(terms, x, t));
      InsertCons(terms, x, h, Filter(p, t));
    }
  }

  /** WHERE commutes with ORDER BY. */
  lemma {:induction false} FilterSort(terms: seq<OrderTerm>, p: Pred, s: seq<Row>)
    ensures Filter(p, Sort(terms, s)) == Sort(terms, Filter(p, s))
  {
    if s != [] {
      var rest := Sort(terms, s[1..]);
      SortSorted(terms, s[1..]);
      FilterSort(terms, p, s[1..]);
      FilterInsert(terms, p, s[0], rest);
      if p(s[0]) {
        assert Filter(p, s)[0] == s[0] && Filter(p, s)[1..] == Filter(p, s[1..]);
      } else {
        assert Filter(p, s) == Filter(p, s[1..]);
      }
    }
  }

  lemma TiedNotBefore(terms: seq<OrderTerm>, a: Row, b: Row)
    requires Tied(terms, a, b)
    ensures !Before(terms, a, b)
  {
    BeforeIff(terms, a, b);
  }

  /** A sequence that no term separates is sorted as it stands. */
  lemma {:induction false} SortTied(terms: seq<OrderTerm>, s: seq<Row>)
    requires forall a, b :: a in s && b in s ==> Tied(terms, a, b)
    ensures Sort(terms, s) == s
  {
    if s != [] {
      SortTied(terms, s[1..]);
      if |s| > 1 {
        assert s[1] in s && s[1..][0] == s[1];
        TiedNotBefore(terms, s[1], s[0]);
      }
    }
  }

  /** Rows that no term separates stay in the order of the table. */
  lemma SortStable(terms: seq<OrderTerm>, x: Row, s: seq<Row>)
    ensures Filter(y => Tied(terms, x, y), Sort(terms, s)) == Filter(y => Tied(terms, x, y), s)
  {
    var ties := (y: Row) => Tied(terms, x, y);
    FilterSort(terms, ties, s);
    SortTied(terms, Filter(ties, s));
  }

  lemma {:induction false} DistinctInsert(terms: seq<OrderTerm>, x: Row, s: seq<Row>)
    requires Sorted(terms, s)
    ensures Distinct(Insert(terms, x, s)) == Insert(terms, x, Filter(y => y != x, Distinct(s)))
  {
    var notX := (y: Row) => y != x;
    if s == [] {
      assert Insert(terms, x, s) == [x] && [x][1..] == [];
    } else if !Before(terms, s[0], x) {
      NothingBefore(terms, x, s);
      assert Insert(terms, x, s)[1..] == s;
      InsertFirst(terms, x, Filter(notX, Distinct(s)));
    } else {
      BeforeIrreflexive(terms, x);
      var h, t := s[0], s[1..];
      var notH := (y: Row) => y != h;
      var both := (y: Row) => y != h && y != x;
      DistinctInsert(terms, x, t);
      assert Insert(terms, x, s)[1..] == Insert(terms, x, t);
      DistinctSorted(terms, t);
      FilterKeepsSorted(terms, notX, Distinct(t));
      FilterInsert(terms, notH, x, Filter(notX, Distinct(t)));
      FilterTwice(notH, notX, both, Distinct(t));
      FilterTwice(notX, notH, both, Distinct(t));
      var rest := Filter(both, Distinct(t));
      assert Distinct(Insert(terms, x, s)) == [h] + Insert(terms, x, rest);
      assert ([h] + Filter(notH, Distinct(t)))[1..] == Filter(notH, Distinct(t));
      assert Filter(notX, Distinct(s)) == [h] + rest;
      assert ([h] + rest)[1..] == rest;
    }
  }

  lemma {:induction false} FilterKeepsSorted(terms: seq<OrderTerm>, p: Pred, s: seq<Row>)
    requires Sorted(terms, s)
    ensures Sorted(terms, Filter(p, s))
  {
    if s != [] {
      FilterKeepsSorted(terms, p, s[1..]);
      var rest := Filter(p, s[1..]);
      forall k | 0 <= k < |rest| ensures !Before(terms, rest[k], s[0]) {
        assert rest[k] in s[1..];
        var j :| 0 <= j < |s[1..]| && s[1..][j] == rest[k];
        assert s[j + 1] == rest[k];
      }
    }
  }

  lemma {:induction false} DistinctSorted(terms: seq<OrderTerm>, s: seq<Row>)
    requires Sorted(terms, s)
    ensures Sorted(terms, Distinct(s))
  {
    if s != [] {
      DistinctSorted(terms, s[1..]);
      FilterKeepsSorted(terms, y => y != s[0], Distinct(s[1..]));
      var rest := Filter(y => y != s[0], Distinct(s[1..]));
      forall k | 0 <= k < |rest| ensures !Before(terms, rest[k], s[0]) {
        assert rest[k] in s[1..];
        var j :| 0 <= j < |s[1..]| && s[1..][j] == rest[k];
        assert s[j + 1] == rest[k];
      }
    }
  }

  /** DISTINCT commutes with ORDER BY. */
  lemma {:induction false} DistinctSort(terms: seq<OrderTerm>, s: seq<Row>)
    ensures Distinct(Sort(terms, s)) == Sort(terms, Distinct(s))
  {
    if s != [] {
      SortSorted(terms, s[1..]);
      DistinctSort(terms, s[1..]);
      DistinctInsert(terms, s[0], Sort(terms, s[1..]));
      FilterSort(terms, y => y != s[0], Distinct(s[1..]));
      assert Distinct(s)[1..] == Filter(y => y != s[0], Distinct(s[1..]));
    }
  }

  /** WHERE commutes with DISTINCT. */
  lemma {:induction false} FilterDistinct(p: Pred, s: seq<Row>)
    ensures Filter(p, Distinct(s)) == Distinct(Filter(p, s))
  {
    if s != [] {
      var h := s[0];
      var notH := (y: Row) => y != h;
      var both := (y: Row) => p(y) && y != h;
      FilterDistinct(p, s[1..]);
      FilterTwice(p, notH, both, Distinct(s[1..]));
      FilterTwice(notH, p, both, Distinct(s[1..]));
      assert Distinct(s)[1..] == Filter(notH, Distinct(s[1..]));
      if p(h) {
        assert Filter(p, s)[1..] == Filter(p, s[1..]);
      } else {
        assert Filter(p, s) == Filter(p, s[1..]);
        FilterSame(both, p, Distinct(s[1..]));
      }
    }
  }

  /** Where a row occurs first. */
  function FirstAt<T(==)>(s: seq<T>, x: T): (i: nat)
    requires x in s
    ensures i < |s| && s[i] == x && forall j :: 0 <= j < i ==> s[j] != x
  {
    if s[0] == x then 0 else 1 + FirstAt(s[1..], x)
  }

  /** Filtering keeps an ascending measure of the rows it keeps ascending. */
  lemma {:induction false} FilterOrder(p: Pred, s: seq<Row>, f: Row -> nat)
    requires forall i, j :: 0 <= i < j < |s| && p(s[i]) && p(s[j]) ==> f(s[i]) < f(s[j])
    ensures forall i, j :: 0 <= i < j < |Filter(p, s)| ==> f(Filter(p, s)[i]) < f(Filter(p, s)[j])
  {
    if s != [] {
      FilterOrder(p, s[1..], f);
      var rest := Filter(p, s[1..]);
      forall k | 0 <= k < |rest| && p(s[0]) ensures f(s[0]) < f(rest[k]) {
        assert rest[k] in rest;
        var j :| 0 <= j < |s[1..]| && s[1..][j] == rest[k];
        assert s[j + 1] == rest[k];
      }
    }
  }

  /** DISTINCT lists every row once, in the order of first occurrence. */
  lemma {:induction false} DistinctKeepsFirst(s: seq<Row>)
    ensures var d := Distinct(s);
      NoDup(d) && forall i, j :: 0 <= i < j < |d| ==> d[i] in s && d[j] in s && FirstAt(s, d[i]) < FirstAt(s, d[j])
  {
    if s != [] {
      DistinctKeepsFirst(s[1..]);
      var rest := Distinct(s[1..]);
      var notHead := (y: Row) => y != s[0];
      var at := (y: Row) => if y in s then FirstAt(s, y) else 0;
      forall i, j | 0 <= i < j < |rest| && rest[i] != s[0] && rest[j] != s[0] ensures at(rest[i]) < at(rest[j]) {
        LaterByOne(s, rest[i]);
        LaterByOne(s, rest[j]);
      }
      FilterOrder(notHead, rest, at);
      var kept := Filter(notHead, rest);
      forall k | 0 <= k < |kept| ensures kept[k] in s && at(kept[k]) > 0 {
        assert kept[k] in kept;
        LaterByOne(s, kept[k]);
      }
      HeadFirst(s, kept, at);
    }
  }

  lemma LaterByOne(s: seq<Row>, x: Row)
    requires s != [] && x in s[1..] && x != s[0]
    ensures x in s && FirstAt(s, x) == 1 + FirstAt(s[1..], x)
  {
  }

  lemma HeadFirst(s: seq<Row>, kept: seq<Row>, at: Row -> nat)
    requires s != [] && forall y :: y in s ==> at(y) == FirstAt(s, y)
    requires forall k :: 0 <= k < |kept| ==> kept[k] in s && at(kept[k]) > 0
    requires forall i, j :: 0 <= i < j < |kept| ==> at(kept[i]) < at(kept[j])
    ensures var d := [s[0]] + kept;
      NoDup(d) && forall i, j :: 0 <= i < j < |d| ==> d[i] in s && d[j] in s && FirstAt(s, d[i]) < FirstAt(s, d[j])
  {
    var d := [s[0]] + kept;
    forall i, j | 0 <= i < j < |d| ensures d[i] in s && d[j] in s && FirstAt(s, d[i]) < FirstAt(s, d[j]) {
      assert d[j] == kept[j - 1] && (i > 0 ==> d[i] == kept[i - 1]);
    }
  }

  lemma {:induction false} DistinctNoop(s: seq<Row>)
    requires NoDup(s)
    ensures Distinct(s) == s
  {
    if s != [] {
      assert forall i :: 0 <= i < |s[1..]| ==> s[1..][i] == s[i + 1];
      DistinctNoop(s[1..]);
      FilterAll(y => y != s[0], s[1..]);
    }
  }
}
