/**
 The chainable calls of a query builder, on builder trees as values: what one call does, and what a list of
 calls leaves.
 */
module BuilderCalls {
  import opened Prelude

  /** Closures are opaque; only their identity matters. */
  datatype Pred = Pred(id: nat)
  datatype Order = Order(id: nat)
  datatype Modifier = ForUpdate | Modifier(id: nat)

  /** What a builder tree holds. */
  datatype Tree = Nil | Tree(local: Contents, first: Tree, second: Tree)

  datatype Contents = Contents(params: Params, preds: seq<Pred>, order: seq<Order>, modifiers: seq<Modifier>,
    path: Option<nat>)

  datatype Params = Params(limit: Option<nat>, offset: Option<nat>, unique: Option<bool>, fields: seq<string>)

  /** The chainable methods. `With` builds the edge's own builder by running the given calls on it. */
  datatype Call =
    | Where(ps: seq<Pred>)
    | OrderBy(os: seq<Order>)
    | Limit(limit: nat)
    | Offset(offset: nat)
    | Unique(unique: bool)
    | LockForUpdate(postgres: bool)
    | With(slot: Slot, calls: seq<Call>)

  /** The eager edges of a builder: `chat` and `members` of a group, `group_chat` and `user` of a member,
      `group_chat` and `last_message` of a chat. */
  datatype Slot = First | Second

  const EMPTY: Contents := Contents(Params(None, None, None, []), [], [], [], None)

  /** A new builder. */
  const NEW: Tree := Tree(EMPTY, Nil, Nil)

  /** The meaning of a call that does not concern an edge. */
  function DoLocal(t: Contents, c: Call): Contents
    requires !c.With?
  {
    match c
    case Where(ps) => t.(preds := t.preds + ps)
    case OrderBy(os) => t.(order := t.order + os)
    case Limit(l) => t.(params := t.params.(limit := Some(l)))
    case Offset(o) => t.(params := t.params.(offset := Some(o)))
    case Unique(u) => t.(params := t.params.(unique := Some(u)))
    case LockForUpdate(postgres) =>
      t.(params := if postgres then t.params.(unique := Some(false)) else t.params,
         modifiers := t.modifiers + [ForUpdate])
  }

  function Put(t: Tree, slot: Slot, u: Tree): (r: Tree)
    ensures t.Tree? ==> r.Tree?
  {
    match t
    case Nil => Nil
    case Tree(local, first, second) => if slot.First? then Tree(local, u, second) else Tree(local, first, u)
  }

  function Do(t: Tree, c: Call): (r: Tree)
    requires t.Tree?
    ensures r.Tree?
    decreases c, 0
  {
    match c
    case With(slot, calls) => Put(t, slot, DoAll(NEW, calls))
    case _ => t.(local := DoLocal(t.local, c))
  }

  function DoAll(t: Tree, calls: seq<Call>): (r: Tree)
    requires t.Tree?
    ensures r.Tree?
    decreases calls, 0
  {
    if calls == [] then t
    else
      var n := |calls| - 1;
      assert calls[n] in calls;
      Do(DoAll(t, calls[..n]), calls[n])
  }

  // ---------------------------------------------------------------- what a list of calls leaves

  /** The setting is what the last call that concerns it says, or what it was. */
  ghost predicate Settled<A>(calls: seq<Call>, says: Call -> Option<A>, before: A, after: A) {
    (NoneWith(calls, c => says(c).Some?) ==> after == before) &&
    forall i :: LastWith(calls, i, c => says(c).Some?) ==> says(calls[i]) == Some(after)
  }

  /** What all calls contribute, in call order. */
  function Gathered<A>(calls: seq<Call>, gives: Call -> seq<A>): seq<A> {
    if calls == [] then [] else Gathered(calls[..|calls| - 1], gives) + gives(calls[|calls| - 1])
  }

  function SaysLimit(c: Call): Option<Option<nat>> {
    if c.Limit? then Some(Some(c.limit)) else None
  }

  function SaysOffset(c: Call): Option<Option<nat>> {
    if c.Offset? then Some(Some(c.offset)) else None
  }

  /** On Postgres a lock turns DISTINCT off, like `Unique(false)`. */
  function SaysUnique(c: Call): Option<Option<bool>> {
    match c
    case Unique(u) => Some(Some(u))
    case LockForUpdate(postgres) => if postgres then Some(Some(false)) else None
    case _ => None
  }

  function GivesPreds(c: Call): seq<Pred> {
    if c.Where? then c.ps else []
  }

  function GivesOrder(c: Call): seq<Order> {
    if c.OrderBy? then c.os else []
  }

  function GivesLock(c: Call): seq<Modifier> {
    if c.LockForUpdate? then [ForUpdate] else []
  }

  predicate IsWith(c: Call, slot: Slot) {
    c.With? && c.slot == slot
  }

  /**
   What a builder that held `t` holds after the calls: limit, offset and `Unique` as the last call on them
   says; all predicates and orders, and one modifier for each lock, in call order; under each edge the builder
   that the last `With` for it configured.
   */
  ghost predicate Reads(t: Tree, calls: seq<Call>, r: Tree)
    requires t.Tree?
    decreases calls, 1
  {
    r.Tree? && LocalReads(t.local, calls, r.local) &&
    EdgeReads(t.first, calls, First, r.first) && EdgeReads(t.second, calls, Second, r.second)
  }

  ghost predicate LocalReads(t: Contents, calls: seq<Call>, r: Contents) {
    SettingsRead(t.params, calls, r.params) &&
    ListReads(t.preds, calls, c => GivesPreds(c), r.preds) &&
    ListReads(t.order, calls, c => GivesOrder(c), r.order) &&
    ListReads(t.modifiers, calls, c => GivesLock(c), r.modifiers) &&
    r.path == t.path
  }

  ghost predicate SettingsRead(t: Params, calls: seq<Call>, r: Params) {
    Settled(calls, c => SaysLimit(c), t.limit, r.limit) &&
    Settled(calls, c => SaysOffset(c), t.offset, r.offset) &&
    Settled(calls, c => SaysUnique(c), t.unique, r.unique) &&
    r.fields == t.fields
  }

  ghost predicate ListReads<A>(t: seq<A>, calls: seq<Call>, gives: Call -> seq<A>, r: seq<A>) {
    r == t + Gathered(calls, gives)
  }

  ghost predicate EdgeReads(t: Tree, calls: seq<Call>, slot: Slot, r: Tree)
    decreases calls, 0
  {
    (NoneWith(calls, c => IsWith(c, slot)) ==> r == t) &&
    forall i :: LastWith(calls, i, c => IsWith(c, slot)) ==> Reads(NEW, calls[i].calls, r)
  }

  lemma SettledStep<A>(calls: seq<Call>, says: Call -> Option<A>, before: A, mid: A, after: A)
    requires calls != [] && Settled(calls[..|calls| - 1], says, before, mid)
    requires var last := says(calls[|calls| - 1]); after == if last.Some? then last.value else mid
    ensures Settled(calls, says, before, after)
  {
    LastWithStep(calls, c => says(c).Some?);
  }

  lemma ListStep<A>(t: seq<A>, calls: seq<Call>, gives: Call -> seq<A>, mid: seq<A>, after: seq<A>)
    requires calls != [] && ListReads(t, calls[..|calls| - 1], gives, mid)
    requires after == mid + gives(calls[|calls| - 1])
    ensures ListReads(t, calls, gives, after)
  {
  }

  function Or<A>(x: Option<A>, y: A): A {
    if x.Some? then x.value else y
  }

  /** What one call says and gives, and that it does no more. */
  lemma CallSays(t: Contents, c: Call, r: Contents)
    requires r == if c.With? then t else DoLocal(t, c)
    ensures r.params.limit == Or(SaysLimit(c), t.params.limit) && r.params.offset == Or(SaysOffset(c), t.params.offset)
    ensures r.params.unique == Or(SaysUnique(c), t.params.unique) && r.params.fields == t.params.fields
    ensures r.preds == t.preds + GivesPreds(c) && r.order == t.order + GivesOrder(c)
    ensures r.modifiers == t.modifiers + GivesLock(c) && r.path == t.path
  {
  }

  lemma SettingsStep(t: Params, calls: seq<Call>, mid: Params, after: Params)
    requires calls != [] && SettingsRead(t, calls[..|calls| - 1], mid) && after.fields == mid.fields
    requires var c := calls[|calls| - 1];
      after.limit == Or(SaysLimit(c), mid.limit) && after.offset == Or(SaysOffset(c), mid.offset) &&
      after.unique == Or(SaysUnique(c), mid.unique)
    ensures SettingsRead(t, calls, after)
  {
    SettledStep(calls, c => SaysLimit(c), t.limit, mid.limit, after.limit);
    SettledStep(calls, c => SaysOffset(c), t.offset, mid.offset, after.offset);
    SettledStep(calls, c => SaysUnique(c), t.unique, mid.unique, after.unique);
  }

  lemma LocalStep(t: Contents, calls: seq<Call>, mid: Contents, after: Contents)
    requires calls != [] && LocalReads(t, calls[..|calls| - 1], mid)
    requires var c := calls[|calls| - 1]; after == if c.With? then mid else DoLocal(mid, c)
    ensures LocalReads(t, calls, after)
  {
    CallSays(mid, calls[|calls| - 1], after);
    SettingsStep(t.params, calls, mid.params, after.params);
    ListStep(t.preds, calls, c => GivesPreds(c), mid.preds, after.preds);
    ListStep(t.order, calls, c => GivesOrder(c), mid.order, after.order);
    ListStep(t.modifiers, calls, c => GivesLock(c), mid.modifiers, after.modifiers);
  }

  lemma EdgeStep(t: Tree, calls: seq<Call>, slot: Slot, mid: Tree, after: Tree)
    requires calls != [] && EdgeReads(t, calls[..|calls| - 1], slot, mid)
    requires var c := calls[|calls| - 1]; if IsWith(c, slot) then Reads(NEW, c.calls, after) else after == mid
    ensures EdgeReads(t, calls, slot, after)
  {
    LastWithStep(calls, c => IsWith(c, slot));
  }

  lemma OneMore(t: Tree, calls: seq<Call>, mid: Tree, r: Tree)
    requires t.Tree? && calls != [] && Reads(t, calls[..|calls| - 1], mid) && r == Do(mid, calls[|calls| - 1])
    requires var c := calls[|calls| - 1]; c.With? ==> Reads(NEW, c.calls, DoAll(NEW, c.calls))
    ensures Reads(t, calls, r)
  {
    LocalStep(t.local, calls, mid.local, r.local);
    EdgeStep(t.first, calls, First, mid.first, r.first);
    EdgeStep(t.second, calls, Second, mid.second, r.second);
  }

  lemma {:induction false} DoAllReads(t: Tree, calls: seq<Call>)
    requires t.Tree?
    ensures Reads(t, calls, DoAll(t, calls))
    decreases calls
  {
    if calls != [] {
      var n := |calls| - 1;
      DoAllReads(t, calls[..n]);
      if calls[n].With? {
        assert calls[n] in calls;
        DoAllReads(NEW, calls[n].calls);
      }
      OneMore(t, calls, DoAll(t, calls[..n]), DoAll(t, calls));
    }
  }

  lemma SettledOnce<A>(calls: seq<Call>, says: Call -> Option<A>, before: A, x: A, y: A)
    requires Settled(calls, says, before, x) && Settled(calls, says, before, y)
    ensures x == y
  {
    if !NoneWith(calls, c => says(c).Some?) {
      var i := LastIndex(calls, c => says(c).Some?);
    }
  }

  lemma {:induction false} ReadsOnce(t: Tree, calls: seq<Call>, x: Tree, y: Tree)
    requires t.Tree? && Reads(t, calls, x) && Reads(t, calls, y)
    ensures x == y
    decreases calls, 1
  {
    var a, b := x.local, y.local;
    SettledOnce(calls, c => SaysLimit(c), t.local.params.limit, a.params.limit, b.params.limit);
    SettledOnce(calls, c => SaysOffset(c), t.local.params.offset, a.params.offset, b.params.offset);
    SettledOnce(calls, c => SaysUnique(c), t.local.params.unique, a.params.unique, b.params.unique);
    EdgeReadsOnce(t.first, calls, First, x.first, y.first);
    EdgeReadsOnce(t.second, calls, Second, x.second, y.second);
  }

  lemma {:induction false} EdgeReadsOnce(t: Tree, calls: seq<Call>, slot: Slot, x: Tree, y: Tree)
    requires EdgeReads(t, calls, slot, x) && EdgeReads(t, calls, slot, y)
    ensures x == y
    decreases calls, 0
  {
    if !NoneWith(calls, c => IsWith(c, slot)) {
      var i := LastIndex(calls, c => IsWith(c, slot));
      assert calls[i] in calls;
      ReadsOnce(NEW, calls[i].calls, x, y);
    }
  }

  /** This description is complete: it fits exactly one builder, the one that the calls leave. */
  lemma ReadsIff(t: Tree, calls: seq<Call>, r: Tree)
    requires t.Tree?
    ensures Reads(t, calls, r) <==> r == DoAll(t, calls)
  {
    DoAllReads(t, calls);
    if Reads(t, calls, r) {
      ReadsOnce(t, calls, r, DoAll(t, calls));
    }
  }
}
