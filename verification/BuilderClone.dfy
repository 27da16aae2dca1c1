/**
 Query builders as mutable objects, and `Clone`.

 A builder is a tree of objects: each node has a context object, backing arrays for its predicates,
 orders and modifiers, and the builders of its eager edges. `Clone` must copy all of them, because every
 builder method writes in place.
 */
module BuilderClone {
  import opened Prelude
  import opened HookStorage
  import opened BuilderCalls

  /** `QueryContext`, shared by pointer between a builder and the context of its execution. */
  class Context {
    var params: Params

    constructor (p: Params)
      ensures params == p
    {
      params := p;
    }
  }

  /** `append([]T{}, s...)`. */
  method CopySlice<T(0)>(s: Slice<T>) returns (r: Slice<T>)
    requires s.Valid()
    ensures r.Valid() && fresh(r.arr) && r.View() == s.View()
  {
    var v := s.View();
    var arr := new T[|v|](i requires 0 <= i < |v| => v[i]);
    r := Slice(arr, |v|, |v|);
  }

  /** The fields of a builder other than its edges. */
  class Local {
    var ctx: Context
    var preds: Slice<Pred>
    var order: Slice<Order>
    var modifiers: Slice<Modifier>
    var path: Option<nat>
    ghost var Repr: set<object>

    ghost predicate Valid()
      reads this, Repr
      ensures Valid() ==> this in Repr
    {
      {this, ctx, preds.arr, order.arr, modifiers.arr} <= Repr &&
      preds.Valid() && order.Valid() && modifiers.Valid()
    }

    ghost function Value(): Contents
      requires Valid()
      reads this, Repr
    {
      Contents(ctx.params, preds.View(), order.View(), modifiers.View(), path)
    }

    constructor (ctx: Context, preds: Slice<Pred>, order: Slice<Order>, modifiers: Slice<Modifier>, path: Option<nat>)
      requires preds.Valid() && order.Valid() && modifiers.Valid()
      ensures Valid() && forall o :: o in Repr ==>
        o == this || o == ctx || o == preds.arr || o == order.arr || o == modifiers.arr
      ensures Value() == Contents(ctx.params, preds.View(), order.View(), modifiers.View(), path)
    {
      this.ctx, this.preds, this.order, this.modifiers, this.path := ctx, preds, order, modifiers, path;
      Repr := {this, ctx, preds.arr, order.arr, modifiers.arr};
    }

    /** The copies that `Clone` makes: a new context, new arrays, and the same path closure. */
    method Clone() returns (c: Local)
      requires Valid()
      ensures c.Valid() && fresh(c.Repr) && c.Value() == Value()
    {
      var ctx' := new Context(ctx.params);
      var preds' := CopySlice(preds);
      var order' := CopySlice(order);
      var modifiers' := CopySlice(modifiers);
      c := new Local(ctx', preds', order', modifiers', path);
    }

    /** The calls that do not concern an edge. */
    method Run(c: Call, spare: nat)
      requires Valid() && !c.With?
      modifies Repr
      ensures Valid() && fresh(Repr - old(Repr))
      ensures Value() == DoLocal(old(Value()), c)
    {
      match c
      case Where(ps) =>
        preds := Append(preds, ps, spare);
        Repr := Repr + {preds.arr};
      case OrderBy(os) =>
        order := Append(order, os, spare);
        Repr := Repr + {order.arr};
      case Limit(l) => ctx.params := ctx.params.(limit := Some(l));
      case Offset(o) => ctx.params := ctx.params.(offset := Some(o));
      case Unique(u) => ctx.params := ctx.params.(unique := Some(u));
      case LockForUpdate(postgres) =>
        if postgres {
          ctx.params := ctx.params.(unique := Some(false));
        }
        modifiers := Append(modifiers, [ForUpdate], spare);
        Repr := Repr + {modifiers.arr};
    }
  }

  ghost function ReprOf(b: Builder?): set<object>
    reads b
  {
    if b == null then {} else b.Repr
  }

  ghost function ValueOf(b: Builder?): Tree
    requires b != null ==> b.Valid()
    reads b, if b == null then {} else b.Repr
  {
    if b == null then Nil else b.Value()
  }

  class Builder {
    var local: Local
    var first: Builder?
    var second: Builder?
    ghost var Repr: set<object>

    ghost predicate Valid()
      reads this, Repr
      ensures Valid() ==> this in Repr
      decreases Repr
    {
      this in Repr && local in Repr && local.Repr <= Repr && this !in local.Repr && local.Valid() &&
      (first != null ==>
        first in Repr && first.Repr <= Repr && this !in first.Repr && local.Repr !! first.Repr && first.Valid()) &&
      (second != null ==>
        second in Repr && second.Repr <= Repr && this !in second.Repr && local.Repr !! second.Repr && second.Valid()) &&
      (first != null && second != null ==> first.Repr !! second.Repr)
    }

    ghost function Value(): (t: Tree)
      requires Valid()
      reads this, Repr
      ensures t.Tree?
      decreases Repr
    {
      Tree(local.Value(), if first == null then Nil else first.Value(), if second == null then Nil else second.Value())
    }

    constructor (local: Local, first: Builder?, second: Builder?)
      requires local.Valid()
      requires first != null ==> first.Valid() && local.Repr !! first.Repr
      requires second != null ==> second.Valid() && local.Repr !! second.Repr
      requires first != null && second != null ==> first.Repr !! second.Repr
      ensures Valid()
      ensures forall o :: o in Repr ==>
        o == this || o in old(local.Repr) || o in old(ReprOf(first)) || o in old(ReprOf(second))
      ensures Value() == Tree(old(local.Value()), old(ValueOf(first)), old(ValueOf(second)))
    {
      this.local, this.first, this.second := local, first, second;
      Repr := {this} + local.Repr + ReprOf(first) + ReprOf(second);
    }

    /**
     A deep copy: it reads as the original does and shares no object with it. Only the path closure is
     copied as a closure.
     */
    method Clone() returns (c: Builder)
      requires Valid()
      ensures c.Valid() && fresh(c.Repr) && c.Value() == old(Value())
      decreases Repr
    {
      ghost var t := Value();
      var local' := local.Clone();
      ghost var r0 := local'.Repr;
      var first' := CloneOf(first, Repr);
      ghost var r1 := ReprOf(first');
      var second' := CloneOf(second, Repr);
      ghost var r2 := ReprOf(second');
      assert local'.Repr == r0 && ReprOf(first') == r1;
      assert local'.Value() == t.local && ValueOf(first') == t.first && ValueOf(second') == t.second;
      assert fresh(r0 + r1 + r2);
      c := new Builder(local', first', second');
      assert forall o :: o in c.Repr ==> o == c || o in r0 + r1 + r2;
    }

    /** `Clone` of a nil builder is nil. */
    static method CloneOf(b: Builder?, ghost outer: set<object>) returns (c: Builder?)
      requires b != null ==> b.Valid() && b.Repr < outer
      ensures (c == null <==> b == null) && (c != null ==> c.Valid()) && fresh(ReprOf(c))
      ensures ValueOf(c) == old(ValueOf(b))
      decreases outer, 0
    {
      if b == null {
        c := null;
      } else {
        c := b.Clone();
      }
    }

    /** One chainable call, in place. */
    method Run(c: Call, spare: nat)
      requires Valid()
      modifies Repr
      ensures Valid() && fresh(Repr - old(Repr))
      ensures Value() == Do(old(Value()), c)
      decreases c, 0
    {
      if c.With? {
        var child := Configure(c.calls, spare);
        SetEdge(c.slot, child);
      } else {
        RunLocal(c, spare);
      }
    }

    /** `opt(query)` for every option of a `With` call, on the new builder of the edge. */
    static method Configure(calls: seq<Call>, spare: nat) returns (child: Builder)
      ensures child.Valid() && fresh(child.Repr) && child.Value() == DoAll(NEW, calls)
      decreases calls, 1
    {
      child := Query();
      child.RunAll(calls, spare);
    }

    method RunLocal(c: Call, spare: nat)
      requires Valid() && !c.With?
      modifies Repr
      ensures Valid() && fresh(Repr - old(Repr))
      ensures Value() == Do(old(Value()), c)
    {
      ghost var t := Value();
      local.Run(c, spare);
      Adopt(t.first, t.second);
    }

    /** Takes over the arrays that a local call allocated. */
    ghost method Adopt(t1: Tree, t2: Tree)
      requires this in Repr && local in Repr && this !in local.Repr && local.Valid()
      requires first != null ==>
        first in Repr && first.Repr <= Repr && this !in first.Repr && local.Repr !! first.Repr && first.Valid()
      requires second != null ==>
        second in Repr && second.Repr <= Repr && this !in second.Repr && local.Repr !! second.Repr && second.Valid()
      requires first != null && second != null ==> first.Repr !! second.Repr
      requires ValueOf(first) == t1 && ValueOf(second) == t2
      modifies this`Repr
      ensures Valid() && Repr == old(Repr) + old(local.Repr)
      ensures Value() == Tree(old(local.Value()), t1, t2)
    {
      Repr := Repr + local.Repr;
    }

    /** `_q.withX = query`. */
    method SetEdge(slot: Slot, child: Builder)
      requires Valid() && child.Valid() && child.Repr !! Repr
      modifies this
      ensures Valid() && Repr == old(Repr) + old(child.Repr)
      ensures Value() == Put(old(Value()), slot, old(child.Value()))
    {
      match slot {
        case First => SetFirst(child);
        case Second => SetSecond(child);
      }
    }

    method SetFirst(child: Builder)
      requires Valid() && child.Valid() && child.Repr !! Repr
      modifies this
      ensures Valid() && Repr == old(Repr) + old(child.Repr)
      ensures Value() == Put(old(Value()), First, old(child.Value()))
    {
      ghost var t, u := Value(), child.Value();
      first := child;
      Repr := Repr + child.Repr;
      assert child.Value() == u && local.Value() == t.local && ValueOf(second) == t.second;
    }

    method SetSecond(child: Builder)
      requires Valid() && child.Valid() && child.Repr !! Repr
      modifies this
      ensures Valid() && Repr == old(Repr) + old(child.Repr)
      ensures Value() == Put(old(Value()), Second, old(child.Value()))
    {
      ghost var t, u := Value(), child.Value();
      second := child;
      Repr := Repr + child.Repr;
      assert child.Value() == u && local.Value() == t.local && ValueOf(first) == t.first;
    }

    /** Any number of calls; what the builder holds then is what the last or all of them said. */
    method RunAll(calls: seq<Call>, spare: nat)
      requires Valid()
      modifies Repr
      ensures Valid() && fresh(Repr - old(Repr))
      ensures Value() == DoAll(old(Value()), calls) && Reads(old(Value()), calls, Value())
      decreases calls, 0
    {
      DoAllReads(old(Value()), calls);
      assert calls[..0] == [];
      for i := 0 to |calls|
        invariant Valid() && fresh(Repr - old(Repr))
        invariant Value() == DoAll(old(Value()), calls[..i])
      {
        assert calls[..i + 1][..i] == calls[..i];
        assert calls[i] in calls;
        Run(calls[i], spare);
      }
      assert calls[..|calls|] == calls;
    }
  }

  method EmptyLocal() returns (l: Local)
    ensures l.Valid() && fresh(l.Repr) && l.Value() == EMPTY
  {
    var ctx := new Context(Params(None, None, None, []));
    var p := new Pred[0];
    var o := new Order[0];
    var m := new Modifier[0];
    l := new Local(ctx, Slice(p, 0, 0), Slice(o, 0, 0), Slice(m, 0, 0), None);
  }

  /** `client.X.Query()`. */
  method Query() returns (b: Builder)
    ensures b.Valid() && fresh(b.Repr) && b.Value() == NEW
  {
    var local := EmptyLocal();
    ghost var r := local.Repr;
    b := new Builder(local, null, null);
    assert forall o :: o in b.Repr ==> o == b || o in r;
  }

  /** The calls of a script that go to one of the two builders. */
  function Side(script: seq<(bool, Call)>, toClone: bool): seq<Call> {
    if script == [] then []
    else
      var n := |script| - 1;
      Side(script[..n], toClone) + (if script[n].0 == toClone then [script[n].1] else [])
  }

  lemma SideStep(t: Tree, script: seq<(bool, Call)>, i: nat, toClone: bool)
    requires i < |script| && t.Tree?
    ensures DoAll(t, Side(script[..i + 1], toClone)) ==
      var before := DoAll(t, Side(script[..i], toClone));
      if script[i].0 == toClone then Do(before, script[i].1) else before
  {
    assert script[..i + 1][..i] == script[..i];
    var calls := Side(script[..i], toClone);
    assert (calls + [script[i].1])[..|calls|] == calls;
    assert calls + [] == calls;
  }

  /** A call on one builder does not reach a builder that shares nothing with it. */
  method RunApart(x: Builder, other: Builder, call: Call, spare: nat)
    requires x.Valid() && other.Valid() && x.Repr !! other.Repr
    modifies x.Repr
    ensures x.Valid() && fresh(x.Repr - old(x.Repr)) && x.Value() == Do(old(x.Value()), call)
    ensures other.Valid() && other.Repr == old(other.Repr) && other.Value() == old(other.Value())
    ensures x.Repr !! other.Repr
  {
    x.Run(call, spare);
  }

  /** One call of a script, on the builder it is meant for. */
  method RunEither(b: Builder, c: Builder, onClone: bool, call: Call, spare: nat)
    requires b.Valid() && c.Valid() && b.Repr !! c.Repr
    modifies b.Repr, c.Repr
    ensures b.Valid() && c.Valid() && b.Repr !! c.Repr
    ensures fresh(b.Repr - old(b.Repr)) && fresh(c.Repr - old(c.Repr))
    ensures b.Value() == if onClone then old(b.Value()) else Do(old(b.Value()), call)
    ensures c.Value() == if onClone then Do(old(c.Value()), call) else old(c.Value())
  {
    if onClone {
      RunApart(c, b, call, spare);
    } else {
      RunApart(b, c, call, spare);
    }
  }

  /** A whole script on two builders that share nothing. */
  method RunScript(b: Builder, c: Builder, script: seq<(bool, Call)>, spare: nat)
    requires b.Valid() && c.Valid() && b.Repr !! c.Repr
    modifies b.Repr, c.Repr
    ensures b.Valid() && c.Valid() && b.Repr !! c.Repr
    ensures b.Value() == DoAll(old(b.Value()), Side(script, false))
    ensures c.Value() == DoAll(old(c.Value()), Side(script, true))
  {
    ghost var t, u := b.Value(), c.Value();
    assert script[..0] == [];
    for i := 0 to |script|
      invariant b.Valid() && c.Valid() && b.Repr !! c.Repr
      invariant fresh(b.Repr - old(b.Repr)) && fresh(c.Repr - old(c.Repr))
      invariant b.Value() == DoAll(t, Side(script[..i], false))
      invariant c.Value() == DoAll(u, Side(script[..i], true))
    {
      SideStep(t, script, i, false);
      SideStep(u, script, i, true);
      RunEither(b, c, script[i].0, script[i].1, spare);
    }
    assert script[..|script|] == script;
  }

  /**
   After `Clone`, any interleaving of calls on the two builders leaves each as if the other had never
   been touched.
   */
  method CloneAndDiverge(b: Builder, script: seq<(bool, Call)>, spare: nat) returns (c: Builder)
    requires b.Valid()
    modifies b.Repr
    ensures b.Valid() && c.Valid() && b.Repr !! c.Repr
    ensures b.Value() == DoAll(old(b.Value()), Side(script, false))
    ensures c.Value() == DoAll(old(b.Value()), Side(script, true))
  {
    c := b.Clone();
    RunScript(b, c, script, spare);
  }
}
