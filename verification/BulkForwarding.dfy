/**
 Bulk create with hooks that forward the mutation they were given, once, and return what came back.
 They may still write fields before and after. Such a bulk create is all-or-nothing.
 */
module BulkForwarding {
  import opened Prelude
  import opened Middleware
  import SaveOne
  import opened BulkCreate
  import opened BulkSave

  predicate Named<M, V, S>(bulk: Bulk<M, V, S>, cur: map<nat, Ref>) {
    forall k :: 0 <= k < |bulk.builders| ==> bulk.builders[k].ref in cur
  }

  /** The mutation that builder `i` holds. */
  function RefOf<M, V, S>(bulk: Bulk<M, V, S>, i: nat, cur: map<nat, Ref>): Ref
    requires i < |bulk.builders| && Named(bulk, cur)
  {
    cur[bulk.builders[i].ref]
  }

  /** Every hook from `mut` inwards, and of the builders after `i`, forwards. */
  predicate Transparent<M, V, S>(bulk: Bulk<M, V, S>, i: nat, mut: Mutator, cur: map<nat, Ref>, b: Behaviour<M, V>)
    requires i < |bulk.builders| && Named(bulk, cur)
    decreases |bulk.builders| - i, mut
  {
    match mut
    case Base => i == |bulk.builders| - 1 || Transparent(bulk, i + 1, MutatorOf(bulk, i + 1), cur, b)
    case Wrap(Schema, next) => Transparent(bulk, i, next, cur, b)
    case Wrap(_, next) =>
      var arg := Typed(RefOf(bulk, i, cur));
      b.answer.Forward? && ForwardsOnce(b.steps, arg) && Transparent(bulk, i, next, cur, Below(b.steps, arg))
  }

  /** Either the first builder whose check fails, or the contents each builder would save. */
  datatype Plan<M> = Stop(at: nat, error: Error) | Go(data: seq<M>)

  /** The reference: visit the builders in order, apply the writes of their hooks, check. */
  function Dry<M, V, S>(bulk: Bulk<M, V, S>, i: nat, mut: Mutator, cur: map<nat, Ref>, b: Behaviour<M, V>,
                        store: Store<M>): Plan<M>
    requires i < |bulk.builders| && Linked(bulk.builders, store, cur) && Transparent(bulk, i, mut, cur, b)
    decreases |bulk.builders| - i, mut
  {
    var ref := RefOf(bulk, i, cur);
    match mut
    case Base =>
      var data := store[ref].data;
      if bulk.ent.check(data).Some? then Stop(i, bulk.ent.check(data).value)
      else if i == |bulk.builders| - 1 then Go([data])
      else (match Dry(bulk, i + 1, MutatorOf(bulk, i + 1), cur, b, store)
            case Stop(at, e) => Stop(at, e)
            case Go(rest) => Go([data] + rest))
    case Wrap(Schema, next) =>
      Dry(bulk, i, next, cur, b, Write(store, ref, bulk.ent.normalise(store[ref].data)))
    case Wrap(_, next) =>
      Dry(bulk, i, next, cur, Below(b.steps, Typed(ref)), Before(b.steps, Typed(ref), store))
  }

  /** No mutation is marked done that was not before. */
  ghost predicate NotMarked<M>(a: Store<M>, b: Store<M>) {
    forall x :: x in b && b[x].done ==> x in a && a[x].done
  }

  /** Nothing was sent, nothing written, nothing marked. */
  ghost predicate Untouched<M, V, S>(s: State<M, V, S>, s': State<M, V, S>) {
    s'.rows == s.rows && NotMarked(s.store, s'.store)
  }

  /** Slots from `i` on hold what the builders saved from `data`. */
  ghost predicate Holds<M, V, S>(bulk: Bulk<M, V, S>, i: nat, data: seq<M>, specs: seq<Option<Built<M, S>>>) {
    |specs| == |bulk.builders| && |data| == |bulk.builders| - i &&
    forall k :: i <= k < |bulk.builders| ==>
      specs[k] == Some(Built(bulk.builders[k].ref, data[k - i], data[k - i], bulk.ent.spec(data[k - i])))
  }

  /** One batch, with the earlier slots as they were; accepted as a whole or refused as a whole. */
  ghost predicate OneBatch<M, V, S>(bulk: Bulk<M, V, S>, i: nat, data: seq<M>, s: State<M, V, S>,
                                    r: (Reply<V>, State<M, V, S>))
    requires i < |bulk.builders| && Ready(bulk, s) && Ready(bulk, r.1)
  {
    var s' := r.1;
    s'.current == s.current && |s'.batches| == |s.batches| + 1 && s'.batches[..|s.batches|] == s.batches &&
    var batch := s'.batches[|s.batches|];
    Holds(bulk, i, data, batch.specs) && batch.specs[..i] == s.specs[..i] &&
    batch.fault == bulk.ent.reject(s.rows, RowsOf(batch.specs)) &&
    match batch.fault
    case Some(f) => r.0 == Fail(WrapFault(f)) && Untouched(s, s')
    case None =>
      r.0 == Value(bulk.ent.node(data[0])) &&
      s'.rows == s.rows + RowsOf(batch.specs) &&
      (forall k :: i <= k < |bulk.builders| ==>
        s'.store[RefOf(bulk, k, s.current)].done && s'.nodes[k] == Some(bulk.ent.node(data[k - i])))
  }

  ghost predicate Outcome<M, V, S>(bulk: Bulk<M, V, S>, i: nat, plan: Plan<M>, s: State<M, V, S>,
                                   r: (Reply<V>, State<M, V, S>))
    requires i < |bulk.builders| && Ready(bulk, s) && Ready(bulk, r.1)
  {
    r.1.current == s.current && r.1.nodes[..i] == s.nodes[..i] &&
    match plan
    case Stop(_, e) => r.0 == Fail(e) && r.1.batches == s.batches && Untouched(s, r.1)
    case Go(data) => OneBatch(bulk, i, data, s, r)
  }

  lemma {:induction false} PutsOnlyWrite<M, V, S>(bulk: Bulk<M, V, S>, i: nat, next: Mutator, steps: seq<Step<M, V>>,
                                                  last: Reply<V>, s: State<M, V, S>)
    requires i < |bulk.builders| && Ready(bulk, s) && OnlyPuts(steps)
    ensures RunSteps(bulk, i, next, steps, last, s) == (last, s.(store := Puts(steps, s.store)))
    decreases |steps|
  {
    if steps != [] {
      assert steps[0].Put?;
      PutsOnlyWrite(bulk, i, next, steps[1..], last, s.(store := Write(s.store, steps[0].ref, steps[0].data)));
    }
  }

  lemma {:induction false} BeforeIsQuiet<M, V>(steps: seq<Step<M, V>>, arg: Arg, store: Store<M>)
    requires ForwardsOnce(steps, arg)
    ensures NotMarked(store, Before(steps, arg, store))
    decreases |steps|
  {
    if steps[0].Put? {
      BeforeIsQuiet(steps[1..], arg, Write(store, steps[0].ref, steps[0].data));
    }
  }

  /** A forwarding hook is its one call, with writes before and after. */
  lemma {:induction false} ForwardCall<M, V, S>(bulk: Bulk<M, V, S>, i: nat, next: Mutator, steps: seq<Step<M, V>>,
                                                arg: Arg, last: Reply<V>, s: State<M, V, S>)
    returns (rest: seq<Step<M, V>>)
    requires i < |bulk.builders| && Ready(bulk, s) && ForwardsOnce(steps, arg)
    ensures OnlyPuts(rest)
    ensures var c := Mutate(bulk, i, next, arg, Below(steps, arg), s.(store := Before(steps, arg, s.store)));
      RunSteps(bulk, i, next, steps, last, s) == (c.0, c.1.(store := Puts(rest, c.1.store)))
    decreases |steps|
  {
    match steps[0]
    case Put(ref, data) =>
      rest := ForwardCall(bulk, i, next, steps[1..], arg, last, s.(store := Write(s.store, ref, data)));
    case Next(_, below) =>
      rest := steps[1..];
      var c := Mutate(bulk, i, next, arg, below, s);
      PutsOnlyWrite(bulk, i, next, rest, c.0, c.1);
  }

  /** An outcome does not depend on field writes around it. */
  lemma OutcomeAroundWrites<M, V, S>(bulk: Bulk<M, V, S>, i: nat, plan: Plan<M>, s: State<M, V, S>, before: Store<M>,
                                     c: (Reply<V>, State<M, V, S>), after: Store<M>)
    requires i < |bulk.builders| && Ready(bulk, s) && Ready(bulk, c.1)
    requires s.store.Keys <= before.Keys && NotMarked(s.store, before)
    requires Outcome(bulk, i, plan, s.(store := before), c)
    requires c.1.store.Keys <= after.Keys && NotMarked(c.1.store, after)
    requires forall x :: x in c.1.store ==> after[x].done == c.1.store[x].done
    ensures Ready(bulk, c.1.(store := after))
    ensures Outcome(bulk, i, plan, s, (c.0, c.1.(store := after)))
  {
  }

  /** The step of the last builder. */
  lemma LastStep<M, V, S>(bulk: Bulk<M, V, S>, b: Behaviour<M, V>, s: State<M, V, S>)
    requires bulk.builders != [] && Ready(bulk, s)
    requires var i := |bulk.builders| - 1; bulk.ent.check(s.store[RefOf(bulk, i, s.current)].data).None?
    ensures var i := |bulk.builders| - 1;
      var ref := RefOf(bulk, i, s.current);
      Outcome(bulk, i, Go([s.store[ref].data]), s, Mutate(bulk, i, Base, Typed(ref), b, s))
  {
    var i := |bulk.builders| - 1;
    var ref := RefOf(bulk, i, s.current);
    var s1 := Fill(bulk, i, ref, s);
    assert s1.current == s.current;
    assert s1.specs[..i] == s.specs[..i];
  }

  /** How the step of builder `i` ends, given how the rest of the chain ended. */
  function Conclude<M, V, S>(bulk: Bulk<M, V, S>, ref: Ref, node: V, c: (Reply<V>, State<M, V, S>)):
      (Reply<V>, State<M, V, S>)
    requires ref in c.1.store
  {
    if c.0.Fail? then (Fail(c.0.error), c.1) else (Value(node), MarkDone(bulk, ref, node, c.1))
  }

  lemma FillKeepsPrefix<M, V, S>(bulk: Bulk<M, V, S>, i: nat, s: State<M, V, S>)
    requires i < |bulk.builders| && Ready(bulk, s)
    ensures var ref := RefOf(bulk, i, s.current);
      var s1 := Fill(bulk, i, ref, s);
      var data := s.store[ref].data;
      s1 == s.(nodes := s1.nodes, specs := s1.specs) &&
      s1.specs[..i + 1] == s.specs[..i] + [Some(Built(bulk.builders[i].ref, data, data, bulk.ent.spec(data)))] &&
      s1.nodes[..i + 1] == s.nodes[..i] + [Some(bulk.ent.node(data))]
  {
    assert Fill(bulk, i, RefOf(bulk, i, s.current), s).current == s.current;
  }

  lemma ConcludeStop<M, V, S>(bulk: Bulk<M, V, S>, i: nat, s: State<M, V, S>, at: nat, e: Error,
                              c: (Reply<V>, State<M, V, S>))
    requires i < |bulk.builders| - 1 && Ready(bulk, s) && Ready(bulk, c.1) && s.store.Keys <= c.1.store.Keys
    requires Outcome(bulk, i + 1, Stop(at, e), Fill(bulk, i, RefOf(bulk, i, s.current), s), c)
    ensures var ref := RefOf(bulk, i, s.current);
      Outcome(bulk, i, Stop(at, e), s, Conclude(bulk, ref, bulk.ent.node(s.store[ref].data), c))
  {
    FillKeepsPrefix(bulk, i, s);
    assert c.1.nodes[..i] == c.1.nodes[..i + 1][..i];
  }

  lemma ConcludeGo<M, V, S>(bulk: Bulk<M, V, S>, i: nat, s: State<M, V, S>, data: seq<M>, c: (Reply<V>, State<M, V, S>))
    requires i < |bulk.builders| - 1 && Ready(bulk, s) && Ready(bulk, c.1) && s.store.Keys <= c.1.store.Keys
    requires Outcome(bulk, i + 1, Go(data), Fill(bulk, i, RefOf(bulk, i, s.current), s), c)
    ensures var ref := RefOf(bulk, i, s.current);
      var r := Conclude(bulk, ref, bulk.ent.node(s.store[ref].data), c);
      Ready(bulk, r.1) && Outcome(bulk, i, Go([s.store[ref].data] + data), s, r)
  {
    var ref := RefOf(bulk, i, s.current);
    var x := s.store[ref].data;
    FillKeepsPrefix(bulk, i, s);
    assert c.1.nodes[..i] == c.1.nodes[..i + 1][..i] && c.1.nodes[i] == c.1.nodes[..i + 1][i];
    var specs := c.1.batches[|s.batches|].specs;
    assert specs[..i] == specs[..i + 1][..i] && specs[i] == specs[..i + 1][i];
    assert Holds(bulk, i, [x] + data, specs) by {
      forall k | i <= k < |bulk.builders|
        ensures specs[k] == Some(Built(bulk.builders[k].ref, ([x] + data)[k - i], ([x] + data)[k - i],
          bulk.ent.spec(([x] + data)[k - i])))
      {
        if k > i {
          assert ([x] + data)[k - i] == data[k - (i + 1)];
        }
      }
    }
    var r := Conclude(bulk, ref, bulk.ent.node(x), c);
    if c.1.batches[|s.batches|].fault.None? {
      forall k | i <= k < |bulk.builders|
        ensures r.1.store[RefOf(bulk, k, s.current)].done && r.1.nodes[k] == Some(bulk.ent.node(([x] + data)[k - i]))
      {
        if k > i {
          assert ([x] + data)[k - i] == data[k - (i + 1)];
        }
      }
    }
  }

  /** The mutation of builder `i`, mutated as the hooks of `mut` inwards behave. */
  function Step<M, V, S>(bulk: Bulk<M, V, S>, i: nat, mut: Mutator, b: Behaviour<M, V>, s: State<M, V, S>):
      (r: (Reply<V>, State<M, V, S>))
    requires i < |bulk.builders| && Ready(bulk, s)
    ensures Ready(bulk, r.1) && s.store.Keys <= r.1.store.Keys
  {
    Mutate(bulk, i, mut, Typed(RefOf(bulk, i, s.current)), b, s)
  }

  /** The run of `mut` ends as the plan says. */
  ghost predicate AsPlanned<M, V, S>(bulk: Bulk<M, V, S>, i: nat, mut: Mutator, b: Behaviour<M, V>, s: State<M, V, S>)
    requires i < |bulk.builders| && Ready(bulk, s) && Transparent(bulk, i, mut, s.current, b)
  {
    Outcome(bulk, i, Dry(bulk, i, mut, s.current, b, s.store), s, Step(bulk, i, mut, b, s))
  }

  lemma EarlierAsPlanned<M, V, S>(bulk: Bulk<M, V, S>, i: nat, b: Behaviour<M, V>, s: State<M, V, S>)
    requires i < |bulk.builders| - 1 && Ready(bulk, s) && Transparent(bulk, i, Base, s.current, b)
    requires bulk.ent.check(s.store[RefOf(bulk, i, s.current)].data).None?
    requires var s1 := Fill(bulk, i, RefOf(bulk, i, s.current), s);
      s1.current == s.current && s1.store == s.store && AsPlanned(bulk, i + 1, MutatorOf(bulk, i + 1), b, s1)
    ensures AsPlanned(bulk, i, Base, b, s)
  {
    var ref := RefOf(bulk, i, s.current);
    var s1 := Fill(bulk, i, ref, s);
    var c := Step(bulk, i + 1, MutatorOf(bulk, i + 1), b, s1);
    assert Step(bulk, i, Base, b, s) == Conclude(bulk, ref, bulk.ent.node(s.store[ref].data), c);
    match Dry(bulk, i + 1, MutatorOf(bulk, i + 1), s.current, b, s.store)
    case Stop(at, e) => ConcludeStop(bulk, i, s, at, e, c);
    case Go(data) => ConcludeGo(bulk, i, s, data, c);
  }

  lemma SchemaAsPlanned<M, V, S>(bulk: Bulk<M, V, S>, i: nat, next: Mutator, b: Behaviour<M, V>, s: State<M, V, S>)
    requires i < |bulk.builders| && Ready(bulk, s) && Transparent(bulk, i, next, s.current, b)
    requires AsPlanned(bulk, i, next, b, Normalised(bulk, Typed(RefOf(bulk, i, s.current)), s))
    ensures AsPlanned(bulk, i, Wrap(Schema, next), b, s)
  {
    var s1 := Normalised(bulk, Typed(RefOf(bulk, i, s.current)), s);
    var c := Step(bulk, i, next, b, s1);
    assert Step(bulk, i, Wrap(Schema, next), b, s) == c;
    OutcomeAroundWrites(bulk, i, Dry(bulk, i, next, s.current, b, s1.store), s, s1.store, c, c.1.store);
  }

  lemma HookAsPlanned<M, V, S>(bulk: Bulk<M, V, S>, i: nat, hook: Hook, next: Mutator, b: Behaviour<M, V>,
                               s: State<M, V, S>)
    requires i < |bulk.builders| && Ready(bulk, s) && !hook.Schema? &&
      Transparent(bulk, i, Wrap(hook, next), s.current, b)
    requires var arg := Typed(RefOf(bulk, i, s.current));
      AsPlanned(bulk, i, next, Below(b.steps, arg), s.(store := Before(b.steps, arg, s.store)))
    ensures AsPlanned(bulk, i, Wrap(hook, next), b, s)
  {
    var arg := Typed(RefOf(bulk, i, s.current));
    var before := Before(b.steps, arg, s.store);
    var c := Step(bulk, i, next, Below(b.steps, arg), s.(store := before));
    var rest := ForwardCall(bulk, i, next, b.steps, arg, Junk, s);
    BeforeIsQuiet(b.steps, arg, s.store);
    var plan := Dry(bulk, i, next, s.current, Below(b.steps, arg), before);
    OutcomeAroundWrites(bulk, i, plan, s, before, c, Puts(rest, c.1.store));
    assert Step(bulk, i, Wrap(hook, next), b, s) == (c.0, c.1.(store := Puts(rest, c.1.store)));
  }

  /** The chain of continuations does what the plain visit of the builders says. */
  lemma {:induction false} ForwardingRun<M, V, S>(bulk: Bulk<M, V, S>, i: nat, mut: Mutator, b: Behaviour<M, V>,
                                                  s: State<M, V, S>)
    requires i < |bulk.builders| && Ready(bulk, s) && Transparent(bulk, i, mut, s.current, b)
    ensures AsPlanned(bulk, i, mut, b, s)
    decreases |bulk.builders| - i, mut
  {
    var arg := Typed(RefOf(bulk, i, s.current));
    match mut
    case Base =>
      if bulk.ent.check(s.store[arg.ref].data).None? {
        if i == |bulk.builders| - 1 {
          LastStep(bulk, b, s);
        } else {
          FillKeepsPrefix(bulk, i, s);
          ForwardingRun(bulk, i + 1, MutatorOf(bulk, i + 1), b, Fill(bulk, i, arg.ref, s));
          EarlierAsPlanned(bulk, i, b, s);
        }
      }
    case Wrap(Schema, next) =>
      ForwardingRun(bulk, i, next, b, Normalised(bulk, arg, s));
      SchemaAsPlanned(bulk, i, next, b, s);
    case Wrap(hook, next) =>
      ForwardingRun(bulk, i, next, Below(b.steps, arg), s.(store := Before(b.steps, arg, s.store)));
      HookAsPlanned(bulk, i, hook, next, b, s);
  }

  /**
   All or nothing. Either some check fails: then no batch is sent, no row is written, no mutation is
   marked, and the error is that of the first failing builder. Or every check passes: then exactly one
   batch is sent, and its acceptance decides for all rows and all mutations together.
   */
  lemma AllOrNothing<M, V, S>(bulk: Bulk<M, V, S>, b: Behaviour<M, V>, s: State<M, V, S>)
    requires bulk.builders != [] && Ready(bulk, s) && s.batches == []
    requires Transparent(bulk, 0, MutatorOf(bulk, 0), s.current, b)
    ensures var r := Chain(bulk, b, s);
      match Dry(bulk, 0, MutatorOf(bulk, 0), s.current, b, s.store)
      case Stop(_, e) => r.0 == Fail(e) && r.1.batches == [] && Untouched(s, r.1)
      case Go(data) =>
        |r.1.batches| == 1 && Holds(bulk, 0, data, r.1.batches[0].specs) &&
        r.1.batches[0].fault == bulk.ent.reject(s.rows, RowsOf(r.1.batches[0].specs)) &&
        (r.1.batches[0].fault.Some? ==> r.0 == Fail(WrapFault(r.1.batches[0].fault.value)) && Untouched(s, r.1)) &&
        (r.1.batches[0].fault.None? ==>
           !r.0.Fail? && r.1.rows == s.rows + RowsOf(r.1.batches[0].specs) &&
           forall k :: 0 <= k < |bulk.builders| ==>
             r.1.store[RefOf(bulk, k, s.current)].done && r.1.nodes[k] == Some(bulk.ent.node(data[k])))
  {
    ForwardingRun(bulk, 0, MutatorOf(bulk, 0), b, s);
  }

  /**
   Hooks that pass on something that is not a mutation of the entity: a type error, and nothing is built, sent
   or marked.
   */
  lemma {:induction false} ForeignIsRefused<M, V, S>(bulk: Bulk<M, V, S>, i: nat, mut: Mutator, b: Behaviour<M, V>,
                                                     s: State<M, V, S>)
    requires i < |bulk.builders| && Ready(bulk, s) && SaveOne.Transparent(mut, Foreign, b)
    ensures var r := Mutate(bulk, i, mut, Foreign, b, s);
      r.0 == Fail(UnexpectedMutationType) && r.1 == s.(store := r.1.store) && NotMarked(s.store, r.1.store)
    decreases mut
  {
    match mut
    case Base =>
    case Wrap(Schema, next) => ForeignIsRefused(bulk, i, next, b, s);
    case Wrap(_, next) =>
      var before := Before(b.steps, Foreign, s.store);
      var rest := ForwardCall(bulk, i, next, b.steps, Foreign, Junk, s);
      BeforeIsQuiet(b.steps, Foreign, s.store);
      ForeignIsRefused(bulk, i, next, Below(b.steps, Foreign), s.(store := before));
  }

  // ---------------------------------------------------------------- hooks that write nothing

  /** Forwarding hooks without writes, and no schema hook. */
  predicate Quiet<M, V, S>(bulk: Bulk<M, V, S>, i: nat, mut: Mutator, cur: map<nat, Ref>, b: Behaviour<M, V>)
    requires i < |bulk.builders| && Named(bulk, cur)
    decreases |bulk.builders| - i, mut
  {
    match mut
    case Base => i == |bulk.builders| - 1 || Quiet(bulk, i + 1, MutatorOf(bulk, i + 1), cur, b)
    case Wrap(Schema, next) => false
    case Wrap(_, next) =>
      var arg := Typed(RefOf(bulk, i, cur));
      b.answer.Forward? && |b.steps| == 1 && b.steps[0].Next? && ForwardsOnce(b.steps, arg) &&
        Quiet(bulk, i, next, cur, Below(b.steps, arg))
  }

  /** The plan that the contents of the builders' mutations decide. */
  ghost predicate PlanOf<M, V, S>(bulk: Bulk<M, V, S>, i: nat, cur: map<nat, Ref>, store: Store<M>, plan: Plan<M>)
    requires i <= |bulk.builders| && Linked(bulk.builders, store, cur)
  {
    match plan
    case Stop(at, e) =>
      i <= at < |bulk.builders| && bulk.ent.check(store[RefOf(bulk, at, cur)].data) == Some(e) &&
      forall k :: i <= k < at ==> bulk.ent.check(store[RefOf(bulk, k, cur)].data).None?
    case Go(data) =>
      |data| == |bulk.builders| - i &&
      forall k :: i <= k < |bulk.builders| ==>
        bulk.ent.check(store[RefOf(bulk, k, cur)].data).None? && data[k - i] == store[RefOf(bulk, k, cur)].data
  }

  lemma PlanOfEarlier<M, V, S>(bulk: Bulk<M, V, S>, i: nat, cur: map<nat, Ref>, store: Store<M>, plan: Plan<M>)
    requires i < |bulk.builders| && Linked(bulk.builders, store, cur) && PlanOf(bulk, i + 1, cur, store, plan)
    requires bulk.ent.check(store[RefOf(bulk, i, cur)].data).None?
    ensures PlanOf(bulk, i, cur, store,
      match plan case Stop(at, e) => plan case Go(rest) => Go([store[RefOf(bulk, i, cur)].data] + rest))
  {
    if plan.Go? {
      var data := [store[RefOf(bulk, i, cur)].data] + plan.data;
      forall k | i <= k < |bulk.builders|
        ensures bulk.ent.check(store[RefOf(bulk, k, cur)].data).None? && data[k - i] == store[RefOf(bulk, k, cur)].data
      {
        if k > i {
          assert data[k - i] == plan.data[k - (i + 1)];
        }
      }
    }
  }

  /** For such hooks the plan is the first failing check among the contents the builders start with, or all contents. */
  lemma {:induction false} QuietPlan<M, V, S>(bulk: Bulk<M, V, S>, i: nat, mut: Mutator, cur: map<nat, Ref>,
                                              b: Behaviour<M, V>, store: Store<M>)
    requires i < |bulk.builders| && Linked(bulk.builders, store, cur) && Quiet(bulk, i, mut, cur, b)
    ensures Transparent(bulk, i, mut, cur, b)
    ensures PlanOf(bulk, i, cur, store, Dry(bulk, i, mut, cur, b, store))
    decreases |bulk.builders| - i, mut
  {
    match mut
    case Base =>
      if i < |bulk.builders| - 1 {
        QuietPlan(bulk, i + 1, MutatorOf(bulk, i + 1), cur, b, store);
        if bulk.ent.check(store[RefOf(bulk, i, cur)].data).None? {
          PlanOfEarlier(bulk, i, cur, store, Dry(bulk, i + 1, MutatorOf(bulk, i + 1), cur, b, store));
        }
      }
    case Wrap(_, next) =>
      var arg := Typed(RefOf(bulk, i, cur));
      QuietPlan(bulk, i, next, cur, Below(b.steps, arg), store);
  }

  /** The store after builders `i..` were marked: id and `done` of their mutations, the last builder first. */
  function Stamped<M, V, S>(bulk: Bulk<M, V, S>, i: nat, cur: map<nat, Ref>, store: Store<M>): (r: Store<M>)
    requires i <= |bulk.builders| && Linked(bulk.builders, store, cur)
    ensures r.Keys == store.Keys
    decreases |bulk.builders| - i
  {
    if i == |bulk.builders| then store
    else
      var rest, ref := Stamped(bulk, i + 1, cur, store), RefOf(bulk, i, cur);
      rest[ref := Cell(bulk.ent.stamp(rest[ref].data, bulk.ent.node(store[ref].data)), true)]
  }

  /** With such hooks a failed bulk create changes no mutation, and a successful one only marks them. */
  lemma {:induction false} QuietStore<M, V, S>(bulk: Bulk<M, V, S>, i: nat, mut: Mutator, b: Behaviour<M, V>,
                                               s: State<M, V, S>)
    requires i < |bulk.builders| && Ready(bulk, s) && Quiet(bulk, i, mut, s.current, b)
    ensures var r := Step(bulk, i, mut, b, s);
      r.1.current == s.current && r.1.store == if r.0.Fail? then s.store else Stamped(bulk, i, s.current, s.store)
    decreases |bulk.builders| - i, mut
  {
    var arg := Typed(RefOf(bulk, i, s.current));
    match mut
    case Base =>
      if bulk.ent.check(s.store[arg.ref].data).None? {
        FillKeepsPrefix(bulk, i, s);
        if i < |bulk.builders| - 1 {
          var s1 := Fill(bulk, i, arg.ref, s);
          QuietStore(bulk, i + 1, MutatorOf(bulk, i + 1), b, s1);
          var c := Step(bulk, i + 1, MutatorOf(bulk, i + 1), b, s1);
          assert Step(bulk, i, Base, b, s) == Conclude(bulk, arg.ref, bulk.ent.node(s.store[arg.ref].data), c);
        }
      }
    case Wrap(Schema, next) =>
    case Wrap(_, next) =>
      QuietStore(bulk, i, next, Below(b.steps, arg), s);
      assert b.steps[1..] == [];
      var c := Step(bulk, i, next, Below(b.steps, arg), s);
      assert RunSteps(bulk, i, next, b.steps, Junk, s) == RunSteps(bulk, i, next, [], c.0, c.1);
  }

  /**
   Builders with mutations of their own: each mutation holds its contents with the id of its own node, and no
   other is touched.
   */
  lemma {:induction false} StampedExactly<M, V, S>(bulk: Bulk<M, V, S>, i: nat, cur: map<nat, Ref>, store: Store<M>)
    requires i <= |bulk.builders| && Linked(bulk.builders, store, cur)
    requires forall j, k :: 0 <= j < k < |bulk.builders| ==> RefOf(bulk, j, cur) != RefOf(bulk, k, cur)
    ensures forall k :: i <= k < |bulk.builders| ==>
      var ref := RefOf(bulk, k, cur);
      Stamped(bulk, i, cur, store)[ref] == Cell(bulk.ent.stamp(store[ref].data, bulk.ent.node(store[ref].data)), true)
    ensures forall x :: x in store && (forall k :: i <= k < |bulk.builders| ==> x != RefOf(bulk, k, cur)) ==>
      Stamped(bulk, i, cur, store)[x] == store[x]
    decreases |bulk.builders| - i
  {
    if i < |bulk.builders| {
      StampedExactly(bulk, i + 1, cur, store);
      var own, rest := RefOf(bulk, i, cur), Stamped(bulk, i + 1, cur, store);
      assert rest[own] == store[own];
      assert Stamped(bulk, i, cur, store) ==
        rest[own := Cell(bulk.ent.stamp(store[own].data, bulk.ent.node(store[own].data)), true)];
    }
  }

  /** What builder `k` saves: its contents, with the defaults filled in. */
  function Filled<M, V, S>(bulk: Bulk<M, V, S>, fill: (nat, M) -> M, store: Store<M>, cur: map<nat, Ref>): (r: seq<M>)
    requires Linked(bulk.builders, store, cur)
    ensures |r| == |bulk.builders|
    ensures forall k :: 0 <= k < |r| ==> r[k] == fill(k, store[RefOf(bulk, k, cur)].data)
  {
    seq(|bulk.builders|, k requires 0 <= k < |bulk.builders| => fill(k, store[RefOf(bulk, k, cur)].data))
  }

  predicate FirstFailing<M, V, S>(bulk: Bulk<M, V, S>, data: seq<M>, at: int) {
    0 <= at < |data| && bulk.ent.check(data[at]).Some? && forall k :: 0 <= k < at ==> bulk.ent.check(data[k]).None?
  }

  /**
   `Save` of builders with mutations of their own, under hooks that write nothing. The contents that count are
   those of the builders with the defaults filled in: the first that fails its check gives the error, and
   nothing is sent; else exactly they are sent, in order, in one batch, and if the database accepts it the rows
   and the nodes are theirs.
   */
  lemma QuietSave<M, V, S>(bulk: Bulk<M, V, S>, fill: (nat, M) -> M, b: Behaviour<M, V>, store: Store<M>,
                           cur: map<nat, Ref>, rows: seq<S>)
    requires bulk.builders != [] && Linked(bulk.builders, store, cur) && OwnMutations(bulk.builders, cur)
    requires Quiet(bulk, 0, MutatorOf(bulk, 0), cur, b)
    ensures var data := Filled(bulk, fill, store, cur);
      var r := Chain(bulk, b, Start(bulk, fill, store, cur, rows));
      (forall at :: FirstFailing(bulk, data, at) ==>
        r.0 == Fail(bulk.ent.check(data[at]).value) && r.1.batches == [] && r.1.rows == rows) &&
      ((forall k :: 0 <= k < |data| ==> bulk.ent.check(data[k]).None?) ==>
        |r.1.batches| == 1 && Sends(bulk, data, rows, r.1.batches[0], r))
  {
    var s := Start(bulk, fill, store, cur, rows);
    var data := Filled(bulk, fill, store, cur);
    DefaultsRunOnce(bulk.builders, fill, store, cur);
    forall k | 0 <= k < |bulk.builders| ensures s.store[RefOf(bulk, k, cur)].data == data[k] { }
    QuietRun(bulk, b, s, data);
  }

  /** The same for any state in which the builders hold `data`. */
  lemma QuietRun<M, V, S>(bulk: Bulk<M, V, S>, b: Behaviour<M, V>, s: State<M, V, S>, data: seq<M>)
    requires bulk.builders != [] && Ready(bulk, s) && s.batches == [] && |data| == |bulk.builders|
    requires Quiet(bulk, 0, MutatorOf(bulk, 0), s.current, b)
    requires forall k :: 0 <= k < |data| ==> s.store[RefOf(bulk, k, s.current)].data == data[k]
    ensures var r := Chain(bulk, b, s);
      (forall at :: FirstFailing(bulk, data, at) ==>
        r.0 == Fail(bulk.ent.check(data[at]).value) && r.1.batches == [] && r.1.rows == s.rows) &&
      ((forall k :: 0 <= k < |data| ==> bulk.ent.check(data[k]).None?) ==>
        |r.1.batches| == 1 && Sends(bulk, data, s.rows, r.1.batches[0], r))
  {
    QuietPlan(bulk, 0, MutatorOf(bulk, 0), s.current, b, s.store);
    ForwardingRun(bulk, 0, MutatorOf(bulk, 0), b, s);
    PlanDecides(bulk, s, data, Dry(bulk, 0, MutatorOf(bulk, 0), s.current, b, s.store), Chain(bulk, b, s));
  }

  lemma PlanDecides<M, V, S>(bulk: Bulk<M, V, S>, s: State<M, V, S>, data: seq<M>, plan: Plan<M>,
                             r: (Reply<V>, State<M, V, S>))
    requires bulk.builders != [] && Ready(bulk, s) && Ready(bulk, r.1) && s.batches == [] && |data| == |bulk.builders|
    requires forall k :: 0 <= k < |data| ==> s.store[RefOf(bulk, k, s.current)].data == data[k]
    requires PlanOf(bulk, 0, s.current, s.store, plan) && Outcome(bulk, 0, plan, s, r)
    ensures forall at :: FirstFailing(bulk, data, at) ==>
      r.0 == Fail(bulk.ent.check(data[at]).value) && r.1.batches == [] && r.1.rows == s.rows
    ensures (forall k :: 0 <= k < |data| ==> bulk.ent.check(data[k]).None?) ==>
      |r.1.batches| == 1 && Sends(bulk, data, s.rows, r.1.batches[0], r)
  {
    match plan
    case Stop(at, e) => assert bulk.ent.check(data[at]) == Some(e);
    case Go(sent) =>
      assert forall k :: 0 <= k < |data| ==> sent[k - 0] == data[k];
      assert sent == data;
      GoSends(bulk, s, data, r);
  }

  lemma GoSends<M, V, S>(bulk: Bulk<M, V, S>, s: State<M, V, S>, data: seq<M>, r: (Reply<V>, State<M, V, S>))
    requires bulk.builders != [] && Ready(bulk, s) && Ready(bulk, r.1) && s.batches == [] && |data| == |bulk.builders|
    requires Outcome(bulk, 0, Go(data), s, r)
    ensures |r.1.batches| == 1 && Sends(bulk, data, s.rows, r.1.batches[0], r)
  {
    var specs := r.1.batches[0].specs;
    assert forall k :: 0 <= k < |data| ==> data[k - 0] == data[k];
    RowsOfFilled(specs);
    assert RowsOf(specs) == seq(|data|, k requires 0 <= k < |data| => bulk.ent.spec(data[k]));
  }

  /** The batch holds these contents in order, and the answer, the rows and the nodes follow from its acceptance. */
  ghost predicate Sends<M, V, S>(bulk: Bulk<M, V, S>, data: seq<M>, rows: seq<S>, batch: Batch<M, S>,
                                 r: (Reply<V>, State<M, V, S>))
    requires |data| == |bulk.builders|
  {
    var described := seq(|data|, k requires 0 <= k < |data| => bulk.ent.spec(data[k]));
    |batch.specs| == |data| && |r.1.nodes| == |data| &&
    (forall k :: 0 <= k < |data| ==>
      batch.specs[k].Some? && batch.specs[k].value.data == data[k] && batch.specs[k].value.spec == described[k]) &&
    match bulk.ent.reject(rows, described)
    case Some(f) =>
      r.0 == Fail(if f.constraint then ConstraintError(f.code) else DriverError(f.code)) && r.1.rows == rows
    case None =>
      !r.0.Fail? && r.1.rows == rows + described &&
      forall k :: 0 <= k < |data| ==> r.1.nodes[k] == Some(bulk.ent.node(data[k]))
  }
}
