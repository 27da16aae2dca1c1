/**
 Hooks as data.

 A Go hook is a function from mutators to mutators. A mutator built from hooks is a chain of
 closures, represented here by `Mutator`: each `Wrap` holds the hook and the mutator it closes over.

 What a hook does when it runs is not known, so an activation is represented by a record of what it
 did: which mutations it wrote, how often it called the next mutator and with which argument, and
 what it returned. Nothing constrains such a record, so a statement about every record is a
 statement about every hook, including hooks that keep state, branch on what they read, or behave
 differently each time they are called.
 */
module Middleware {
  import opened Prelude

  /** A pointer to a mutation object. */
  type Ref = nat

  /** A mutation object: the fields its setters write, and the flag only the builders write. */
  datatype Cell<M> = Cell(data: M, done: bool)

  type Store<M> = map<Ref, Cell<M>>

  /** `Runtime` hooks are registered by the application and opaque; `Schema` is the hook that
      ent/schema declares for the entity. */
  datatype Hook = Runtime(id: nat) | Schema

  datatype Mutator = Base | Wrap(hook: Hook, next: Mutator)

  /** The argument of a `Mutate` call: a live mutation of the right entity, or anything else. */
  datatype Arg = Typed(ref: Ref) | Foreign

  /** What a `Mutate` call returns. `Junk` is a nil error with a value that is not a node. */
  datatype Reply<V> = Value(node: V) | Junk | Fail(error: Error)

  /** One thing a hook does between being called and returning. */
  datatype Step<M, V> =
    | Put(ref: Ref, data: M)
    | Next(arg: Arg, below: Behaviour<M, V>)

  /** The reply a hook chose, or the reply of its last call to the next mutator. */
  datatype Answer<V> = Fixed(reply: Reply<V>) | Forward

  /** One activation of the outermost hook, with the activations it caused further in. */
  datatype Behaviour<M, V> = Behaviour(steps: seq<Step<M, V>>, answer: Answer<V>)

  predicate Live<M>(arg: Arg, store: Store<M>) {
    arg.Typed? && arg.ref in store
  }

  /** A hook writes fields through the setters of a mutation, which leave `done` alone. */
  function Write<M>(store: Store<M>, ref: Ref, data: M): (r: Store<M>)
    ensures r.Keys == store.Keys + {ref}
  {
    store[ref := Cell(data, ref in store && store[ref].done)]
  }

  /** The mutator in which `hooks[0]` is outermost. */
  function Compose(hooks: seq<Hook>, inner: Mutator): (mut: Mutator)
    ensures Hooks(mut) == hooks + Hooks(inner)
  {
    if hooks == [] then inner
    else
      assert hooks == [hooks[0]] + hooks[1..];
      Wrap(hooks[0], Compose(hooks[1..], inner))
  }

  /** The hooks of a mutator, outermost first. */
  function Hooks(mut: Mutator): seq<Hook> {
    match mut
    case Base => []
    case Wrap(hook, next) => [hook] + Hooks(next)
  }

  /** A mutator is determined by its list of hooks, so `Compose` and `Hooks` are inverse. */
  lemma {:induction false} ComposeHooks(mut: Mutator)
    ensures Compose(Hooks(mut), Base) == mut
  {
    match mut
    case Base =>
    case Wrap(hook, next) =>
      ComposeHooks(next);
      assert Hooks(mut)[1..] == Hooks(next);
  }

  /** The loop `for i := len(hooks)-1; i >= 0; i-- { mut = hooks[i](mut) }`. */
  method WrapAll(hooks: seq<Hook>) returns (mut: Mutator)
    ensures mut == Compose(hooks, Base)
    ensures Hooks(mut) == hooks
  {
    mut := Base;
    var i := |hooks|;
    while i > 0
      invariant 0 <= i <= |hooks|
      invariant mut == Compose(hooks[i..], Base)
    {
      i := i - 1;
      assert hooks[i..] == [hooks[i]] + hooks[i + 1..];
      mut := Wrap(hooks[i], mut);
    }
    assert hooks[0..] == hooks;
  }

  /** The hook calls the next mutator exactly once, with the mutation it was given. */
  predicate ForwardsOnce<M, V>(steps: seq<Step<M, V>>, arg: Arg) {
    steps != [] &&
    match steps[0]
    case Put(_, _) => ForwardsOnce(steps[1..], arg)
    case Next(a, _) => a == arg && OnlyPuts(steps[1..])
  }

  predicate OnlyPuts<M, V>(steps: seq<Step<M, V>>) {
    forall i :: 0 <= i < |steps| ==> steps[i].Put?
  }

  /** What the single call of a forwarding hook led to further in. */
  function Below<M, V>(steps: seq<Step<M, V>>, arg: Arg): Behaviour<M, V>
    requires ForwardsOnce(steps, arg)
  {
    match steps[0]
    case Put(_, _) => Below(steps[1..], arg)
    case Next(_, below) => below
  }

  /** The writes of a forwarding hook before its call. */
  function Before<M, V>(steps: seq<Step<M, V>>, arg: Arg, store: Store<M>): (r: Store<M>)
    requires ForwardsOnce(steps, arg)
    ensures store.Keys <= r.Keys
    ensures forall x :: x in store ==> r[x].done == store[x].done
    ensures forall x :: x in r && x !in store ==> !r[x].done
    decreases |steps|
  {
    match steps[0]
    case Put(ref, data) => Before(steps[1..], arg, Write(store, ref, data))
    case Next(_, _) => store
  }

  /** The writes of a forwarding hook after its call. */
  function Rest<M, V>(steps: seq<Step<M, V>>, arg: Arg): (r: seq<Step<M, V>>)
    requires ForwardsOnce(steps, arg)
    ensures OnlyPuts(r)
  {
    match steps[0]
    case Put(_, _) => Rest(steps[1..], arg)
    case Next(_, _) => steps[1..]
  }

  /** The writes of a list of steps that makes no call. */
  function Puts<M, V>(steps: seq<Step<M, V>>, store: Store<M>): (r: Store<M>)
    requires OnlyPuts(steps)
    ensures store.Keys <= r.Keys
    ensures forall x :: x in store ==> r[x].done == store[x].done
    ensures forall x :: x in r && x !in store ==> !r[x].done
  {
    if steps == [] then store
    else
      assert steps[0].Put?;
      Puts(steps[1..], Write(store, steps[0].ref, steps[0].data))
  }

  lemma {:induction false} PutsAppend<M, V>(a: seq<Step<M, V>>, b: seq<Step<M, V>>, store: Store<M>)
    requires OnlyPuts(a) && OnlyPuts(b)
    ensures OnlyPuts(a + b) && Puts(a + b, store) == Puts(b, Puts(a, store))
    decreases |a|
  {
    if a == [] {
      assert a + b == b;
    } else {
      assert a[0].Put? && (a + b)[0] == a[0] && (a + b)[1..] == a[1..] + b;
      PutsAppend(a[1..], b, Write(store, a[0].ref, a[0].data));
    }
  }

  /** No step writes the mutation. */
  predicate Unwritten<M, V>(steps: seq<Step<M, V>>, ref: Ref)
    requires OnlyPuts(steps)
  {
    forall i :: 0 <= i < |steps| ==> steps[i].ref != ref
  }

  /** The mutation ends with what was written to it last, or with what it held. */
  ghost predicate EndsWith<M, V>(steps: seq<Step<M, V>>, ref: Ref, before: M, after: M)
    requires OnlyPuts(steps)
  {
    (Unwritten(steps, ref) ==> after == before) &&
    forall i :: 0 <= i < |steps| && steps[i].ref == ref && Unwritten(steps[i + 1..], ref) ==> after == steps[i].data
  }

  lemma {:induction false} LastPutStays<M, V>(steps: seq<Step<M, V>>, store: Store<M>, ref: Ref)
    requires OnlyPuts(steps) && ref in store
    ensures EndsWith(steps, ref, store[ref].data, Puts(steps, store)[ref].data)
  {
    if steps != [] {
      assert steps[0].Put?;
      var rest, store1 := steps[1..], Write(store, steps[0].ref, steps[0].data);
      LastPutStays(rest, store1, ref);
      assert forall i :: 0 < i < |steps| ==> steps[i] == rest[i - 1];
      forall i | 0 <= i < |steps| && steps[i].ref == ref && Unwritten(steps[i + 1..], ref)
        ensures Puts(steps, store)[ref].data == steps[i].data
      {
        assert i > 0 ==> steps[i + 1..] == rest[(i - 1) + 1..];
      }
    }
  }
}
