/**
 Two ways in which one query for all nodes differs from one query per node: an offset and a limit on the
 edge are shared by all nodes, and the restriction to the keys stays on the builder when it is run again.
 */
module EdgeLimits {
  import opened Prelude
  import opened Rows
  import opened Queries
  import opened Loading
  import opened Traversal
  import opened Agreement

  /** The rows that belong to one key. */
  function RowsFor(e: Edge, k: Uuid, s: seq<Row>): seq<Row> {
    Filter(Owned(e, k), s)
  }

  function Owned(e: Edge, k: Uuid): Pred {
    r => NeighbourKey(e, r) == Some(k)
  }

  /** A neighbour builder without projection or traversal. */
  predicate Plain(c: Query) {
    c.path.None? && c.fields == []
  }

  /** The builder without its offset and limit. */
  function Unwindowed(c: Query): Query {
    c.(limit := None, offset := None)
  }

  /** Offset and limit. */
  function Cut(o: nat, l: Option<nat>, s: seq<Row>): seq<Row> {
    if l.None? then Drop(o, s) else Take(l.value, Drop(o, s))
  }

  /** The limit that counts: 0 is none. */
  function LimitOf(c: Query): (l: Option<nat>)
    ensures l != Some(0)
  {
    if c.limit == Some(0) then None else c.limit
  }

  lemma PlainRows(db: Database, e: Edge, c: Query, keys: seq<Uuid>)
    requires ValidDb(db) && Plain(c)
    ensures var q := Narrow(e, c, keys);
      var s := Selected(q.preds, c.order, TableRows(db, c.table));
      DistinctIds(s) && SpecRows(db, q) == Cut(OffsetOf(c), LimitOf(c), s) &&
        SpecRows(db, Narrow(e, Unwindowed(c), keys)) == s
  {
    var q := Narrow(e, c, keys);
    var s := Selected(q.preds, q.order, TableRows(db, c.table));
    SelectedNoDup(q.preds, q.order, TableRows(db, c.table));
    DistinctNoop(s);
    assert Drop(0, s) == s;
    SamePreds(e, c, keys);
  }

  lemma SamePreds(e: Edge, c: Query, keys: seq<Uuid>)
    ensures Narrow(e, Unwindowed(c), keys).preds == Narrow(e, c, keys).preds
  {
  }

  /** Adding a predicate to a selection filters its result. */
  lemma AddPredicate(preds: seq<Pred>, p: Pred, preds': seq<Pred>, order: seq<OrderTerm>, base: seq<Row>)
    requires forall r :: Satisfies(preds', r) == (p(r) && Satisfies(preds, r))
    ensures Selected(preds', order, base) == Filter(p, Selected(preds, order, base))
  {
    FilterSort(order, p, Filter(r => Satisfies(preds, r), base));
    FilterTwice(p, r => Satisfies(preds, r), r => Satisfies(preds', r), base);
  }

  lemma NarrowSatisfies(e: Edge, c: Query, keys: seq<Uuid>, r: Row)
    ensures Satisfies(Narrow(e, c, keys).preds, r) ==
            (Satisfies(c.preds, r) && NeighbourKey(e, r).Some? && NeighbourKey(e, r).value in keys)
  {
    SatisfiesAppend(c.preds, Narrow(e, c, keys).preds[|c.preds|], r);
  }

  /** Without a window, sharing out one query gives every node what its own query would have given it. */
  lemma BatchIsPerNode(db: Database, e: Edge, c: Query, keys: seq<Uuid>, k: Uuid)
    requires ValidDb(db) && Plain(c) && k in keys
    ensures RowsFor(e, k, SpecRows(db, Narrow(e, Unwindowed(c), keys))) == SpecRows(db, Narrow(e, Unwindowed(c), [k]))
  {
    PlainRows(db, e, c, keys);
    PlainRows(db, e, c, [k]);
    forall r ensures Satisfies(Narrow(e, c, [k]).preds, r) ==
                     (NeighbourKey(e, r) == Some(k) && Satisfies(Narrow(e, c, keys).preds, r)) {
      NarrowSatisfies(e, c, keys, r);
      NarrowSatisfies(e, c, [k], r);
    }
    AddPredicate(Narrow(e, c, keys).preds, Owned(e, k), Narrow(e, c, [k]).preds,
                 c.order, TableRows(db, c.table));
  }

  predicate OneOwner(e: Edge, s: seq<Row>) {
    forall i, j :: 0 <= i < j < |s| ==> NeighbourKey(e, s[i]) == NeighbourKey(e, s[j])
  }

  /** Cutting before or after sharing out. */
  predicate CutAgrees(e: Edge, k: Uuid, l: nat, s: seq<Row>) {
    RowsFor(e, k, Take(l, s)) == Take(l, RowsFor(e, k, s))
  }

  lemma FilterSplits(p: Pred, i: nat, s: seq<Row>)
    requires i <= |s|
    ensures Filter(p, s) == Filter(p, s[..i]) + Filter(p, s[i..])
  {
    assert s == s[..i] + s[i..];
    FilterAppend(p, s[..i], s[i..]);
  }

  lemma {:induction false} FilterFull<T(!new)>(p: T -> bool, s: seq<T>)
    requires |Filter(p, s)| == |s|
    ensures forall i :: 0 <= i < |s| ==> p(s[i])
  {
    if s != [] {
      FilterFull(p, s[1..]);
      assert forall i :: 0 < i < |s| ==> s[i] == s[1..][i - 1];
    }
  }

  lemma FilterHead(p: Pred, s: seq<Row>)
    requires s != [] && p(s[0])
    ensures Filter(p, s) != [] && Filter(p, s)[0] == s[0]
  {
  }

  lemma FrontHas(p: Pred, o: nat, s: seq<Row>)
    requires o <= |s| && forall i :: 0 <= i < |s[..o]| ==> p(s[..o][i])
    ensures forall i :: 0 <= i < o ==> p(s[i])
  {
    forall i | 0 <= i < o ensures p(s[i]) {
      assert s[..o][i] == s[i];
    }
  }

  lemma CutNothing(e: Edge, k: Uuid, l: nat, s: seq<Row>)
    requires forall r :: r in s ==> NeighbourKey(e, r) != Some(k)
    ensures CutAgrees(e, k, l, s)
  {
    FilterNone(Owned(e, k), s);
    FilterNone(Owned(e, k), Take(l, s));
  }

  lemma CutOneOwner(e: Edge, k: Uuid, l: nat, s: seq<Row>)
    requires OneOwner(e, s)
    ensures CutAgrees(e, k, l, s)
  {
    if s == [] || NeighbourKey(e, s[0]) != Some(k) {
      forall r | r in s ensures NeighbourKey(e, r) != Some(k) {
        var i :| 0 <= i < |s| && s[i] == r;
        assert i == 0 || NeighbourKey(e, s[0]) == NeighbourKey(e, s[i]);
      }
      CutNothing(e, k, l, s);
    } else {
      forall r | r in s ensures NeighbourKey(e, r) == Some(k) {
        var i :| 0 <= i < |s| && s[i] == r;
        assert i == 0 || NeighbourKey(e, s[0]) == NeighbourKey(e, s[i]);
      }
      FilterAll(Owned(e, k), s);
      FilterAll(Owned(e, k), Take(l, s));
    }
  }

  /** If the owner of the first row beyond the limit is served correctly, all rows before it are its own. */
  lemma CutAgreesAtLimit(e: Edge, k: Uuid, l: nat, s: seq<Row>)
    requires l < |s| && NeighbourKey(e, s[l]) == Some(k) && CutAgrees(e, k, l, s)
    ensures forall i :: 0 <= i < l ==> NeighbourKey(e, s[i]) == Some(k)
  {
    FilterSplits(Owned(e, k), l, s);
    FilterHead(Owned(e, k), s[l..]);
    FilterFull(Owned(e, k), s[..l]);
    FrontHas(Owned(e, k), l, s);
    assert forall i :: 0 <= i < l ==> Owned(e, k)(s[i]);
  }

  /** An owner whose rows all come after the limit gets none of them. */
  lemma CutMisses(e: Edge, k: Uuid, l: nat, s: seq<Row>, j: nat)
    requires 0 < l <= j < |s| && NeighbourKey(e, s[j]) == Some(k)
    requires forall i :: 0 <= i < l ==> NeighbourKey(e, s[i]) != Some(k)
    ensures !CutAgrees(e, k, l, s)
  {
    FilterNone(Owned(e, k), s[..l]);
    assert s[j] in s;
    assert s[j] in RowsFor(e, k, s);
  }

  lemma CutAgreesIff(e: Edge, keys: seq<Uuid>, l: nat, s: seq<Row>)
    requires l > 0 && forall r :: r in s ==> NeighbourKey(e, r).Some? && NeighbourKey(e, r).value in keys
    ensures (forall k :: k in keys ==> CutAgrees(e, k, l, s)) <==> |s| <= l || OneOwner(e, s)
  {
    if |s| <= l {
      assert Take(l, s) == s;
    } else if OneOwner(e, s) {
      forall k | k in keys ensures CutAgrees(e, k, l, s) {
        CutOneOwner(e, k, l, s);
      }
    } else {
      assert s[l] in s;
      var k := NeighbourKey(e, s[l]).value;
      if CutAgrees(e, k, l, s) {
        CutAgreesAtLimit(e, k, l, s);
        var j := Stranger(e, k, l, s);
        assert s[j] in s;
        CutMisses(e, NeighbourKey(e, s[j]).value, l, s, j);
      }
    }
  }

  /** With more than one owner and only `k` up to position `l`, some later row has another owner. */
  lemma Stranger(e: Edge, k: Uuid, l: nat, s: seq<Row>) returns (j: nat)
    requires l < |s| && !OneOwner(e, s) && NeighbourKey(e, s[l]) == Some(k)
    requires forall i :: 0 <= i < l ==> NeighbourKey(e, s[i]) == Some(k)
    ensures l < j < |s| && NeighbourKey(e, s[j]) != Some(k)
  {
    var a, b :| 0 <= a < b < |s| && NeighbourKey(e, s[a]) != NeighbourKey(e, s[b]);
    j := if NeighbourKey(e, s[a]) == Some(k) then b else a;
  }

  // ---------------------------------------------------------------- offset and limit together

  /** Where the window ends. */
  function Shown(o: nat, l: Option<nat>, s: seq<Row>): (m: nat)
    ensures m <= |s| && (|s| > o ==> m >= o && (l != Some(0) ==> m > o))
  {
    if l.None? || |s| <= o + l.value then |s| else o + l.value
  }

  lemma CutIsSlice(o: nat, l: Option<nat>, s: seq<Row>)
    requires |s| > o
    ensures Cut(o, l, s) == s[o..Shown(o, l, s)]
  {
  }

  lemma CutStarts(o: nat, l: Option<nat>, s: seq<Row>)
    requires |s| > o && l != Some(0)
    ensures Cut(o, l, s) != [] && Cut(o, l, s)[0] == s[o]
  {
    CutIsSlice(o, l, s);
  }

  /** What stands behind the window does not count. */
  lemma CutIgnoresTail(o: nat, l: Option<nat>, s: seq<Row>, tail: seq<Row>)
    requires |s| > o && (tail == [] || Shown(o, l, s) < |s|)
    ensures Cut(o, l, s[..Shown(o, l, s)] + tail) == s[o..Shown(o, l, s)]
  {
    var m := Shown(o, l, s);
    var front := s[..m] + tail;
    assert tail == [] ==> front == s[..m];
    assert front[o..m] == s[o..m];
  }

  /** A filter that keeps all rows up to the end of the window does not move the window. */
  lemma KeptWindow(p: Pred, o: nat, l: Option<nat>, s: seq<Row>)
    requires |s| > o && forall i :: 0 <= i < Shown(o, l, s) ==> p(s[i])
    ensures Cut(o, l, Filter(p, s)) == Cut(o, l, s) && Filter(p, Cut(o, l, s)) == Cut(o, l, s)
  {
    var m := Shown(o, l, s);
    FilterSplits(p, m, s);
    FilterAll(p, s[..m]);
    assert m == |s| ==> s[m..] == [];
    CutIgnoresTail(o, l, s, Filter(p, s[m..]));
    CutIsSlice(o, l, s);
    FilterAll(p, s[o..m]);
  }

  /** If the first row shown is where it was after filtering, the filter kept all the rows skipped. */
  lemma SkippedAreKept(p: Pred, o: nat, l: Option<nat>, s: seq<Row>)
    requires DistinctIds(s) && |s| > o && l != Some(0) && p(s[o])
    requires Cut(o, l, Filter(p, s)) != [] && Cut(o, l, Filter(p, s))[0] == s[o]
    ensures forall i :: 0 <= i < o ==> p(s[i])
  {
    var front, back := s[..o], s[o..];
    assert back[0] == s[o];
    FilterSplits(p, o, s);
    FilterKeepsIds(p, s);
    FilterHead(p, back);
    CutAt(o, l, Filter(p, front), Filter(p, back));
    NoneSkipped(p, front, Filter(p, back));
    FrontHas(p, o, s);
  }

  lemma CutAt(o: nat, l: Option<nat>, a: seq<Row>, b: seq<Row>)
    requires l != Some(0) && Cut(o, l, a + b) != []
    ensures |a + b| > o && Cut(o, l, a + b)[0] == (a + b)[o]
  {
    CutStarts(o, l, a + b);
  }

  /** If the first row that remains of the rest is still preceded by as many rows, none was dropped. */
  lemma NoneSkipped(p: Pred, skipped: seq<Row>, rest: seq<Row>)
    requires rest != [] && DistinctIds(Filter(p, skipped) + rest)
    requires |Filter(p, skipped) + rest| > |skipped| && (Filter(p, skipped) + rest)[|skipped|] == rest[0]
    ensures forall i :: 0 <= i < |skipped| ==> p(skipped[i])
  {
    SamePlace(Filter(p, skipped) + rest, |Filter(p, skipped)|, |skipped|);
    FilterFull(p, skipped);
  }

  lemma SamePlace(s: seq<Row>, i: nat, j: nat)
    requires DistinctIds(s) && i < |s| && j < |s| && s[i] == s[j]
    ensures i == j
  {
  }

  /** If filtering does not change what a window shows, all rows up to its end are kept. */
  lemma ShownAreKept(p: Pred, o: nat, l: Option<nat>, s: seq<Row>)
    requires DistinctIds(s) && l != Some(0) && |s| > o && Cut(o, l, Filter(p, s)) == Cut(o, l, s)
    ensures forall i :: 0 <= i < Shown(o, l, s) ==> p(s[i])
  {
    forall i | o <= i < Shown(o, l, s) ensures p(s[i]) {
      ShownIsKept(p, o, l, s, i);
    }
    CutStarts(o, l, s);
    SkippedAreKept(p, o, l, s);
  }

  lemma ShownIsKept(p: Pred, o: nat, l: Option<nat>, s: seq<Row>, i: nat)
    requires o <= i < Shown(o, l, s) && Cut(o, l, Filter(p, s)) == Cut(o, l, s)
    ensures p(s[i])
  {
    CutIsSlice(o, l, s);
    assert s[o..Shown(o, l, s)][i - o] == s[i];
    CutWithin(o, l, Filter(p, s));
  }

  lemma CutWithin(o: nat, l: Option<nat>, s: seq<Row>)
    ensures forall r :: r in Cut(o, l, s) ==> r in s
  {
  }

  /** A window that starts later than its content begins shows none of it. */
  lemma LateWindow(o: nat, l: Option<nat>, seen: seq<Row>, rest: seq<Row>)
    requires DistinctIds(seen + rest) && o > 0 && l != Some(0) && Cut(o, l, seen + rest) == seen
    ensures seen == [] && |rest| <= o
  {
    if |seen + rest| > o {
      LateStart(o, l, seen, rest);
      assert false;
    }
  }

  lemma LateStart(o: nat, l: Option<nat>, seen: seq<Row>, rest: seq<Row>)
    requires |seen + rest| > o && l != Some(0) && Cut(o, l, seen + rest) == seen
    ensures (seen + rest)[0] == (seen + rest)[o]
  {
    CutStarts(o, l, seen + rest);
  }

  /**
   The window does not tell one query from many: nothing is left after the offset; or there is no offset and
   the limit is not reached; or all rows up to the end of the window have one owner, and no other owner has
   more rows than the offset skips.
   */
  predicate Fair(e: Edge, o: nat, l: Option<nat>, s: seq<Row>) {
    |s| <= o || (o == 0 && Shown(o, l, s) == |s|) ||
    (OneOwner(e, s[..Shown(o, l, s)]) && OthersHaveAtMost(e, o, NeighbourKey(e, s[0]), s))
  }

  predicate OthersHaveAtMost(e: Edge, n: nat, own: Option<Uuid>, s: seq<Row>) {
    forall r :: r in s && NeighbourKey(e, r).Some? && NeighbourKey(e, r) != own ==>
      |RowsFor(e, NeighbourKey(e, r).value, s)| <= n
  }

  predicate WindowAgrees(e: Edge, k: Uuid, o: nat, l: Option<nat>, s: seq<Row>) {
    RowsFor(e, k, Cut(o, l, s)) == Cut(o, l, RowsFor(e, k, s))
  }

  lemma OwnerOfAll(e: Edge, m: nat, s: seq<Row>, i: nat)
    requires m <= |s| && OneOwner(e, s[..m]) && i < m
    ensures NeighbourKey(e, s[i]) == NeighbourKey(e, s[0])
  {
    assert s[..m][i] == s[i] && s[..m][0] == s[0];
    assert i == 0 || NeighbourKey(e, s[..m][0]) == NeighbourKey(e, s[..m][i]);
  }

  lemma SharedWindowAgrees(e: Edge, k: Uuid, o: nat, l: Option<nat>, s: seq<Row>)
    requires |s| > o && OneOwner(e, s[..Shown(o, l, s)]) && NeighbourKey(e, s[0]) == Some(k)
    ensures WindowAgrees(e, k, o, l, s)
  {
    forall i | 0 <= i < Shown(o, l, s) ensures Owned(e, k)(s[i]) {
      OwnerOfAll(e, Shown(o, l, s), s, i);
    }
    KeptWindow(Owned(e, k), o, l, s);
  }

  lemma HiddenOwnerAgrees(e: Edge, k: Uuid, o: nat, l: Option<nat>, s: seq<Row>)
    requires |s| > o && OneOwner(e, s[..Shown(o, l, s)])
    requires NeighbourKey(e, s[0]) != Some(k) && |RowsFor(e, k, s)| <= o
    ensures WindowAgrees(e, k, o, l, s)
  {
    var m := Shown(o, l, s);
    CutIsSlice(o, l, s);
    forall r | r in s[o..m] ensures !Owned(e, k)(r) {
      var i :| o <= i < m && s[i] == r;
      OwnerOfAll(e, m, s, i);
    }
    FilterNone(Owned(e, k), s[o..m]);
  }

  lemma FairAgrees(e: Edge, k: Uuid, o: nat, l: Option<nat>, s: seq<Row>)
    requires l != Some(0) && Fair(e, o, l, s)
    ensures WindowAgrees(e, k, o, l, s)
  {
    if |s| <= o {
      assert Cut(o, l, s) == [];
    } else if o == 0 && Shown(o, l, s) == |s| {
      assert Cut(o, l, s) == s;
    } else if NeighbourKey(e, s[0]) == Some(k) {
      SharedWindowAgrees(e, k, o, l, s);
    } else {
      if |RowsFor(e, k, s)| > 0 {
        var r := RowsFor(e, k, s)[0];
        assert r in RowsFor(e, k, s) && r in s;
      }
      HiddenOwnerAgrees(e, k, o, l, s);
    }
  }

  /** If the owner of the first row shown is served alike, the offset skipped rows of that owner only. */
  lemma SkippedAreOwn(e: Edge, k: Uuid, o: nat, l: Option<nat>, s: seq<Row>)
    requires DistinctIds(s) && |s| > o && l != Some(0)
    requires NeighbourKey(e, s[o]) == Some(k) && WindowAgrees(e, k, o, l, s)
    ensures forall i :: 0 <= i < o ==> NeighbourKey(e, s[i]) == Some(k)
  {
    CutStarts(o, l, s);
    FilterHead(Owned(e, k), Cut(o, l, s));
    SkippedAreKept(Owned(e, k), o, l, s);
    assert forall i :: 0 <= i < o ==> Owned(e, k)(s[i]);
  }

  /** Then any other owner is hidden by the window, and has no more rows than the offset skips. */
  lemma OthersHidden(e: Edge, k: Uuid, o: nat, l: Option<nat>, s: seq<Row>)
    requires DistinctIds(s) && |s| > o > 0 && l != Some(0) && WindowAgrees(e, k, o, l, s)
    requires forall i :: 0 <= i < o ==> NeighbourKey(e, s[i]) != Some(k)
    ensures |RowsFor(e, k, s)| <= o && forall i :: o <= i < Shown(o, l, s) ==> NeighbourKey(e, s[i]) != Some(k)
  {
    var m, p := Shown(o, l, s), Owned(e, k);
    CutIsSlice(o, l, s);
    OnlyLater(p, s[..o], s[o..m], s[m..]);
    ThreeParts(o, m, s);
    FilterKeepsIds(p, s);
    LateWindow(o, l, Filter(p, s[o..m]), Filter(p, s[m..]));
    NoneOf(p, o, m, s);
  }

  lemma ThreeParts(o: nat, m: nat, s: seq<Row>)
    requires o <= m <= |s|
    ensures s == s[..o] + (s[o..m] + s[m..])
  {
  }

  lemma NoneOf(p: Pred, o: nat, m: nat, s: seq<Row>)
    requires o <= m <= |s| && Filter(p, s[o..m]) == []
    ensures forall i :: o <= i < m ==> !p(s[i])
  {
    forall i | o <= i < m ensures !p(s[i]) {
      assert s[o..m][i - o] == s[i] && s[i] !in Filter(p, s[o..m]);
    }
  }

  lemma OnlyLater(p: Pred, a: seq<Row>, b: seq<Row>, c: seq<Row>)
    requires forall r :: r in a ==> !p(r)
    ensures Filter(p, a + (b + c)) == Filter(p, b) + Filter(p, c)
  {
    FilterAppend(p, a, b + c);
    FilterNone(p, a);
    FilterAppend(p, b, c);
  }

  lemma AgreesIsFair(e: Edge, keys: seq<Uuid>, o: nat, l: Option<nat>, s: seq<Row>)
    requires DistinctIds(s) && |s| > o > 0 && l != Some(0)
    requires forall r :: r in s ==> NeighbourKey(e, r).Some? && NeighbourKey(e, r).value in keys
    requires forall k :: k in keys ==> WindowAgrees(e, k, o, l, s)
    ensures Fair(e, o, l, s)
  {
    assert s[o] in s;
    var k := NeighbourKey(e, s[o]).value;
    SkippedAreOwn(e, k, o, l, s);
    forall i | 0 <= i < Shown(o, l, s) ensures NeighbourKey(e, s[i]) == Some(k) {
      OwnerShown(e, k, keys, o, l, s, i);
    }
    OneOwnerBefore(e, k, Shown(o, l, s), s);
    forall r | r in s && NeighbourKey(e, r) != Some(k) ensures |RowsFor(e, NeighbourKey(e, r).value, s)| <= o {
      OthersHidden(e, NeighbourKey(e, r).value, o, l, s);
    }
  }

  lemma OwnerShown(e: Edge, k: Uuid, keys: seq<Uuid>, o: nat, l: Option<nat>, s: seq<Row>, i: nat)
    requires DistinctIds(s) && |s| > o > 0 && l != Some(0) && i < Shown(o, l, s)
    requires forall r :: r in s ==> NeighbourKey(e, r).Some? && NeighbourKey(e, r).value in keys
    requires forall k :: k in keys ==> WindowAgrees(e, k, o, l, s)
    requires forall i :: 0 <= i < o ==> NeighbourKey(e, s[i]) == Some(k)
    ensures NeighbourKey(e, s[i]) == Some(k)
  {
    assert s[i] in s;
    if NeighbourKey(e, s[i]) != Some(k) {
      OthersHidden(e, NeighbourKey(e, s[i]).value, o, l, s);
    }
  }

  lemma OneOwnerBefore(e: Edge, k: Uuid, m: nat, s: seq<Row>)
    requires m <= |s| && forall i :: 0 <= i < m ==> NeighbourKey(e, s[i]) == Some(k)
    ensures OneOwner(e, s[..m])
  {
    assert forall i :: 0 <= i < m ==> s[..m][i] == s[i];
  }

  /** Without an offset, only the limit counts. */
  lemma FairWithoutOffset(e: Edge, keys: seq<Uuid>, l: Option<nat>, s: seq<Row>)
    requires l != Some(0)
    requires forall r :: r in s ==> NeighbourKey(e, r).Some? && NeighbourKey(e, r).value in keys
    requires forall k :: k in keys ==> WindowAgrees(e, k, 0, l, s)
    ensures Fair(e, 0, l, s)
  {
    if l.Some? && |s| > l.value {
      assert Drop(0, s) == s;
      forall k | k in keys ensures CutAgrees(e, k, l.value, s) {
        assert WindowAgrees(e, k, 0, l, s) && Drop(0, RowsFor(e, k, s)) == RowsFor(e, k, s);
      }
      CutAgreesIff(e, keys, l.value, s);
      assert OneOwner(e, s[..l.value]);
      forall r | r in s ensures NeighbourKey(e, r) == NeighbourKey(e, s[0]) {
        var i :| 0 <= i < |s| && s[i] == r;
        assert i == 0 || NeighbourKey(e, s[0]) == NeighbourKey(e, s[i]);
      }
    }
  }

  /**
   An offset and a limit on an eagerly loaded edge count the neighbours of all nodes together. Every node
   still gets what its own query with that window would return exactly when the window is fair: nothing is
   left after the offset, or there is no offset and the limit is not reached, or the rows up to the end of the
   window belong to one node and no other node has more than the offset skips.
   */
  lemma WindowIsPerNodeIff(db: Database, e: Edge, c: Query, keys: seq<Uuid>)
    requires ValidDb(db) && Plain(c)
    ensures (forall k :: k in keys ==>
        RowsFor(e, k, SpecRows(db, Narrow(e, c, keys))) == SpecRows(db, Narrow(e, c, [k])))
      <==> Fair(e, OffsetOf(c), LimitOf(c), SpecRows(db, Narrow(e, Unwindowed(c), keys)))
  {
    var all := SpecRows(db, Narrow(e, Unwindowed(c), keys));
    var o, l := OffsetOf(c), LimitOf(c);
    PlainRows(db, e, c, keys);
    forall r | r in all ensures NeighbourKey(e, r).Some? && NeighbourKey(e, r).value in keys {
      NarrowReturnsExpected(db, e, Unwindowed(c), keys, r);
    }
    forall k | k in keys
      ensures WindowAgrees(e, k, o, l, all) <==>
        RowsFor(e, k, SpecRows(db, Narrow(e, c, keys))) == SpecRows(db, Narrow(e, c, [k]))
    {
      BatchIsPerNode(db, e, c, keys, k);
      PlainRows(db, e, c, [k]);
    }
    if Fair(e, o, l, all) {
      forall k | k in keys ensures WindowAgrees(e, k, o, l, all) {
        FairAgrees(e, k, o, l, all);
      }
    } else if forall k :: k in keys ==> WindowAgrees(e, k, o, l, all) {
      if o == 0 {
        FairWithoutOffset(e, keys, l, all);
      } else {
        AgreesIsFair(e, keys, o, l, all);
      }
    }
  }

  /** A limit alone is fair iff it is not reached or all neighbours have one owner. */
  lemma LimitIsFairIff(e: Edge, l: nat, s: seq<Row>)
    requires l > 0 && forall r :: r in s ==> NeighbourKey(e, r).Some?
    ensures Fair(e, 0, Some(l), s) <==> |s| <= l || OneOwner(e, s)
  {
    if |s| > l {
      if Fair(e, 0, Some(l), s) {
        forall r | r in s ensures NeighbourKey(e, r) == NeighbourKey(e, s[0]) {
          assert r in RowsFor(e, NeighbourKey(e, r).value, s);
        }
      }
      assert forall i :: 0 <= i < |s| ==> s[i] in s;
      assert forall r :: r in s && OneOwner(e, s) ==> NeighbourKey(e, r) == NeighbourKey(e, s[0]);
    }
  }

  // ---------------------------------------------------------------- a second run

  /** A window over fewer rows shows the same exactly when all rows up to its end are among them. */
  lemma FilteredWindowIff(p: Pred, o: nat, l: Option<nat>, s: seq<Row>)
    requires DistinctIds(s) && l != Some(0)
    ensures Cut(o, l, Filter(p, s)) == Cut(o, l, s) <==> |s| <= o || forall i :: 0 <= i < Shown(o, l, s) ==> p(s[i])
  {
    if |s| <= o {
      assert Cut(o, l, s) == [] && Cut(o, l, Filter(p, s)) == [];
    } else if forall i :: 0 <= i < Shown(o, l, s) ==> p(s[i]) {
      KeptWindow(p, o, l, s);
    } else if Cut(o, l, Filter(p, s)) == Cut(o, l, s) {
      ShownAreKept(p, o, l, s);
    }
  }

  /**
   A loader appends its restriction to the neighbour builder itself, so a second run of the same builder is
   restricted to the keys of both runs. Against a database that changed in between it finds the same
   neighbours as a fresh builder exactly when the offset leaves nothing, or all neighbours up to the end of
   the window already belonged to keys of the first run.
   */
  lemma RerunIsFreshIff(db: Database, e: Edge, c: Query, first: seq<Uuid>, second: seq<Uuid>)
    requires ValidDb(db) && Plain(c)
    ensures var renewed := SpecRows(db, Narrow(e, Unwindowed(c), second));
      var o, l := OffsetOf(c), LimitOf(c);
      SpecRows(db, Narrow(e, Narrow(e, c, first), second)) == SpecRows(db, Narrow(e, c, second)) <==>
      |renewed| <= o || forall i :: 0 <= i < Shown(o, l, renewed) ==>
        NeighbourKey(e, renewed[i]).Some? && NeighbourKey(e, renewed[i]).value in first
  {
    var once := Narrow(e, c, first);
    var again := Narrow(e, once, second);
    PlainRows(db, e, c, second);
    PlainRows(db, e, once, second);
    var inFirst := (r: Row) => NeighbourKey(e, r).Some? && NeighbourKey(e, r).value in first;
    forall r ensures Satisfies(again.preds, r) == (inFirst(r) && Satisfies(Narrow(e, c, second).preds, r)) {
      NarrowSatisfies(e, c, first, r);
      NarrowSatisfies(e, once, second, r);
      NarrowSatisfies(e, c, second, r);
    }
    AddPredicate(Narrow(e, c, second).preds, inFirst, again.preds, c.order, TableRows(db, c.table));
    FilteredWindowIff(inFirst, OffsetOf(c), LimitOf(c), SpecRows(db, Narrow(e, Unwindowed(c), second)));
  }
}
