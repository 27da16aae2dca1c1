/**
 What the absence of an error tells the caller of a bulk create. `Save` looks at the error of the first
 mutator only, so hooks that answer by themselves decide what it means.
 */
module BulkOutcome {
  import opened Prelude
  import opened Middleware
  import SaveOne
  import opened BulkCreate

  /**
   Hooks under which "no error" can be believed: each of them fails, or answers with the reply of its last
   call, which it does make, and what runs inside that call can be believed too. Earlier calls, writes and
   the mutations passed on are free. `foreign` is whether the mutation passed is of another entity.
   */
  predicate Faithful<M, V>(builders: seq<Builder>, i: nat, mut: Mutator, foreign: bool, b: Behaviour<M, V>)
    requires i < |builders|
    decreases |builders| - i, mut, 0, 0
  {
    match mut
    case Base =>
      foreign || i == |builders| - 1 || Faithful(builders, i + 1, Compose(builders[i + 1].hooks, Base), false, b)
    case Wrap(Schema, next) => Faithful(builders, i, next, foreign, b)
    case Wrap(_, next) =>
      match b.answer
      case Fixed(reply) => reply.Fail?
      case Forward => FaithfulSteps(builders, i, next, b.steps, false)
  }

  /** `last` is whether the reply of the latest call so far can be believed. */
  predicate FaithfulSteps<M, V>(builders: seq<Builder>, i: nat, next: Mutator, steps: seq<Step<M, V>>, last: bool)
    requires i < |builders|
    decreases |builders| - i, next, 1, |steps|
  {
    if steps == [] then last
    else match steps[0]
      case Put(_, _) => FaithfulSteps(builders, i, next, steps[1..], last)
      case Next(arg, below) =>
        FaithfulSteps(builders, i, next, steps[1..], Faithful(builders, i, next, arg.Foreign?, below))
  }

  ghost predicate Accepted<M, S>(batches: seq<Batch<M, S>>) {
    exists k :: 0 <= k < |batches| && batches[k].fault.None?
  }

  /** The last batch was accepted: the slots are its slots, and the table ends in the rows they describe. */
  ghost predicate Stored<M, V, S>(st: State<M, V, S>) {
    st.batches != [] &&
    var last, added := st.batches[|st.batches| - 1], RowsOf(st.specs);
    last.fault.None? && last.specs == st.specs &&
    |added| <= |st.rows| && st.rows[|st.rows| - |added|..] == added
  }

  // ---------------------------------------------------------------- faithful hooks

  lemma AcceptedBatchStores<M, V, S>(bulk: Bulk<M, V, S>, st: State<M, V, S>)
    ensures BatchCreate(bulk, st).0.Some? || Stored(BatchCreate(bulk, st).1)
  {
    var st' := BatchCreate(bulk, st).1;
    if BatchCreate(bulk, st).0.None? {
      assert st'.rows[|st.rows|..] == RowsOf(st.specs);
    }
  }

  /** The step of the last builder. */
  lemma LastStores<M, V, S>(bulk: Bulk<M, V, S>, arg: Arg, b: Behaviour<M, V>, st: State<M, V, S>)
    requires bulk.builders != [] && Ready(bulk, st) && Live(arg, st.store)
    requires CheckAt(bulk, |bulk.builders| - 1, st).None?
    ensures var r := Mutate(bulk, |bulk.builders| - 1, Base, arg, b, st);
      st.batches <= r.1.batches && (r.0.Fail? || Stored(r.1))
  {
    var st1 := Fill(bulk, |bulk.builders| - 1, arg.ref, st);
    AcceptedBatchStores(bulk, st1);
  }

  /** The step of an earlier builder has the outcome of the rest of the chain. */
  lemma EarlierStores<M, V, S>(bulk: Bulk<M, V, S>, i: nat, arg: Arg, b: Behaviour<M, V>, st: State<M, V, S>)
    requires i < |bulk.builders| - 1 && Ready(bulk, st) && Live(arg, st.store) && CheckAt(bulk, i, st).None?
    ensures var st1 := Fill(bulk, i, arg.ref, st);
      var own := Typed(st1.current[bulk.builders[i + 1].ref]);
      var c := Mutate(bulk, i + 1, MutatorOf(bulk, i + 1), own, b, st1);
      var r := Mutate(bulk, i, Base, arg, b, st);
      (r.0.Fail? <==> c.0.Fail?) && r.1.batches == c.1.batches && (Stored(c.1) ==> Stored(r.1)) &&
      st1.batches == st.batches
  {
    var st1 := Fill(bulk, i, arg.ref, st);
    var c := Mutate(bulk, i + 1, MutatorOf(bulk, i + 1), Typed(st1.current[bulk.builders[i + 1].ref]), b, st1);
    var r := Mutate(bulk, i, Base, arg, b, st);
    assert r.1 == c.1.(store := r.1.store);
  }

  /** Batches are only added, and under faithful hooks no error means that the last one is stored. */
  lemma {:induction false} FaithfulStores<M, V, S>(bulk: Bulk<M, V, S>, i: nat, mut: Mutator, arg: Arg,
                                                   b: Behaviour<M, V>, st: State<M, V, S>)
    requires i < |bulk.builders| && Ready(bulk, st)
    ensures var r := Mutate(bulk, i, mut, arg, b, st);
      st.batches <= r.1.batches &&
      (Faithful(bulk.builders, i, mut, arg.Foreign?, b) ==> r.0.Fail? || Stored(r.1))
    decreases |bulk.builders| - i, mut, 0, 0
  {
    match mut
    case Base =>
      if Live(arg, st.store) && CheckAt(bulk, i, st).None? {
        var st1 := Fill(bulk, i, arg.ref, st);
        if i < |bulk.builders| - 1 {
          FaithfulStores(bulk, i + 1, MutatorOf(bulk, i + 1), Typed(st1.current[bulk.builders[i + 1].ref]), b, st1);
          EarlierStores(bulk, i, arg, b, st);
        } else {
          LastStores(bulk, arg, b, st);
        }
      }
    case Wrap(Schema, next) => FaithfulStores(bulk, i, next, arg, b, Normalised(bulk, arg, st));
    case Wrap(_, next) => FaithfulStepsStore(bulk, i, next, b.steps, Junk, false, st);
  }

  lemma {:induction false} FaithfulStepsStore<M, V, S>(bulk: Bulk<M, V, S>, i: nat, next: Mutator,
                                                       steps: seq<Step<M, V>>,
                                                       last: Reply<V>, ok: bool, st: State<M, V, S>)
    requires i < |bulk.builders| && Ready(bulk, st)
    requires ok ==> last.Fail? || Stored(st)
    ensures var r := RunSteps(bulk, i, next, steps, last, st);
      st.batches <= r.1.batches &&
      (FaithfulSteps(bulk.builders, i, next, steps, ok) ==> r.0.Fail? || Stored(r.1))
    decreases |bulk.builders| - i, next, 1, |steps|
  {
    if steps != [] {
      match steps[0]
      case Put(ref, data) =>
        FaithfulStepsStore(bulk, i, next, steps[1..], last, ok, st.(store := Write(st.store, ref, data)));
      case Next(arg, below) =>
        var r := Mutate(bulk, i, next, arg, below, st);
        FaithfulStores(bulk, i, next, arg, below, st);
        FaithfulStepsStore(bulk, i, next, steps[1..], r.0, Faithful(bulk.builders, i, next, arg.Foreign?, below), r.1);
    }
  }

  // ---------------------------------------------------------------- other hooks

  /** Every mutation that the hooks pass on exists. */
  predicate Refers<M, V>(b: Behaviour<M, V>, keys: set<Ref>)
    decreases b
  {
    forall k :: 0 <= k < |b.steps| ==> StepRefers(b.steps[k], keys)
  }

  predicate StepRefers<M, V>(s: Step<M, V>, keys: set<Ref>)
    decreases s
  {
    match s
    case Put(_, _) => true
    case Next(arg, below) => (arg.Typed? ==> arg.ref in keys) && Refers(below, keys)
  }

  /** An entity without validation whose database refuses every insert. */
  ghost predicate Refusing<M(!new), V, S(!new)>(ent: SaveOne.Entity<M, V, S>) {
    (forall m :: ent.check(m).None?) && (forall a, b :: ent.reject(a, b).Some?)
  }

  /** There, hooks that are not faithful report no error, and nothing is stored. */
  lemma {:induction false} UnfaithfulHides<M(!new), V, S(!new)>(bulk: Bulk<M, V, S>, i: nat, mut: Mutator, arg: Arg,
                                                                b: Behaviour<M, V>, keys: set<Ref>, st: State<M, V, S>)
    requires i < |bulk.builders| && Ready(bulk, st) && Refusing(bulk.ent)
    requires keys <= st.store.Keys && Refers(b, keys) && (arg.Typed? ==> arg.ref in st.store)
    requires !Accepted(st.batches)
    ensures var r := Mutate(bulk, i, mut, arg, b, st);
      r.1.rows == st.rows && !Accepted(r.1.batches) &&
        (!Faithful(bulk.builders, i, mut, arg.Foreign?, b) ==> !r.0.Fail?)
    decreases |bulk.builders| - i, mut, 0, 0
  {
    match mut
    case Base =>
      if Live(arg, st.store) {
        var st1 := Fill(bulk, i, arg.ref, st);
        if i < |bulk.builders| - 1 {
          UnfaithfulHides(bulk, i + 1, MutatorOf(bulk, i + 1), Typed(st1.current[bulk.builders[i + 1].ref]), b, keys,
            st1);
        }
      }
    case Wrap(Schema, next) => UnfaithfulHides(bulk, i, next, arg, b, keys, Normalised(bulk, arg, st));
    case Wrap(_, next) => UnfaithfulStepsHide(bulk, i, next, b.steps, Junk, false, keys, st);
  }

  lemma {:induction false} UnfaithfulStepsHide<M(!new), V, S(!new)>(bulk: Bulk<M, V, S>, i: nat, next: Mutator,
                                                                    steps: seq<Step<M, V>>, last: Reply<V>, ok: bool,
                                                                    keys: set<Ref>, st: State<M, V, S>)
    requires i < |bulk.builders| && Ready(bulk, st) && Refusing(bulk.ent)
    requires keys <= st.store.Keys && forall k :: 0 <= k < |steps| ==> StepRefers(steps[k], keys)
    requires !Accepted(st.batches) && (!ok ==> !last.Fail?)
    ensures var r := RunSteps(bulk, i, next, steps, last, st);
      r.1.rows == st.rows && !Accepted(r.1.batches) &&
        (!FaithfulSteps(bulk.builders, i, next, steps, ok) ==> !r.0.Fail?)
    decreases |bulk.builders| - i, next, 1, |steps|
  {
    if steps != [] {
      assert StepRefers(steps[0], keys);
      match steps[0]
      case Put(ref, data) =>
        UnfaithfulStepsHide(bulk, i, next, steps[1..], last, ok, keys, st.(store := Write(st.store, ref, data)));
      case Next(arg, below) =>
        var r := Mutate(bulk, i, next, arg, below, st);
        UnfaithfulHides(bulk, i, next, arg, below, keys, st);
        UnfaithfulStepsHide(bulk, i, next, steps[1..], r.0, Faithful(bulk.builders, i, next, arg.Foreign?, below),
          keys, r.1);
    }
  }

  /** The mutations that the hooks pass on. */
  function RefsOf<M, V>(b: Behaviour<M, V>): set<Ref>
    decreases b
  {
    set k, r | 0 <= k < |b.steps| && r in StepRefs(b.steps[k]) :: r
  }

  function StepRefs<M, V>(s: Step<M, V>): set<Ref>
    decreases s
  {
    match s
    case Put(_, _) => {}
    case Next(arg, below) => (if arg.Typed? then {arg.ref} else {}) + RefsOf(below)
  }

  lemma {:induction false} RefersToAll<M, V>(b: Behaviour<M, V>, keys: set<Ref>)
    requires RefsOf(b) <= keys
    ensures Refers(b, keys)
    decreases b
  {
    forall k | 0 <= k < |b.steps| ensures StepRefers(b.steps[k], keys) {
      assert forall r :: r in StepRefs(b.steps[k]) ==> r in RefsOf(b);
      StepRefersToAll(b.steps[k], keys);
    }
  }

  lemma {:induction false} StepRefersToAll<M, V>(s: Step<M, V>, keys: set<Ref>)
    requires StepRefs(s) <= keys
    ensures StepRefers(s, keys)
    decreases s
  {
    if s.Next? {
      RefersToAll(s.below, keys);
    }
  }

  /** No error means that the rows of the current slots are in the table. */
  ghost predicate NoErrorMeansStored<M, V, S>(bulk: Bulk<M, V, S>, b: Behaviour<M, V>, st: State<M, V, S>)
    requires bulk.builders != [] && Ready(bulk, st)
  {
    Chain(bulk, b, st).0.Fail? || Stored(Chain(bulk, b, st).1)
  }

  /** A start with every mutation that is referred to, each holding `m`. */
  function SomeStart<M, V, S>(builders: seq<Builder>, b: Behaviour<M, V>, m: M): (st: State<M, V, S>)
    ensures RefsOf(b) <= st.store.Keys && st.batches == [] && st.rows == []
    ensures |st.nodes| == |builders| && |st.specs| == |builders|
    ensures forall k :: 0 <= k < |builders| ==> builders[k].ref in st.current
    ensures forall x :: x in st.current ==> st.current[x] in st.store
  {
    var own := set k | 0 <= k < |builders| :: builders[k].ref;
    State(map r | r in own + RefsOf(b) :: Cell(m, false), map r | r in own :: r,
          seq(|builders|, _ => None), seq(|builders|, _ => None), [], [])
  }

  /**
   The exact condition: whatever the entity, its checks and its database do, and whatever the mutations
   hold, no error means that the rows are there, if and only if the hooks are faithful.
   */
  lemma NoErrorMeansStoredIff<M(!new), V, S(!new)>(bulk: Bulk<M, V, S>, b: Behaviour<M, V>, m: M)
    requires bulk.builders != []
    ensures (forall ent: SaveOne.Entity<M, V, S>, st: State<M, V, S> ::
      Ready(Bulk(ent, bulk.builders), st) && st.batches == [] ==>
               NoErrorMeansStored(Bulk(ent, bulk.builders), b, st))
            <==> Faithful(bulk.builders, 0, MutatorOf(bulk, 0), false, b)
  {
    if Faithful(bulk.builders, 0, MutatorOf(bulk, 0), false, b) {
      forall ent: SaveOne.Entity<M, V, S>, st: State<M, V, S> | Ready(Bulk(ent, bulk.builders), st)
        ensures NoErrorMeansStored(Bulk(ent, bulk.builders), b, st)
      {
        FaithfulStores(Bulk(ent, bulk.builders), 0, MutatorOf(bulk, 0), Typed(st.current[bulk.builders[0].ref]), b, st);
      }
    } else {
      var ent := bulk.ent.(check := _ => None, reject := (_, _) => Some(DriverFault(false, 0)));
      var st: State<M, V, S> := SomeStart(bulk.builders, b, m);
      RefersToAll(b, st.store.Keys);
      UnfaithfulHides(Bulk(ent, bulk.builders), 0, MutatorOf(bulk, 0), Typed(st.current[bulk.builders[0].ref]), b,
                      st.store.Keys, st);
      assert !NoErrorMeansStored(Bulk(ent, bulk.builders), b, st);
    }
  }

  /**
   The worst case: the hook calls on, the database refuses the only batch, and the hook answers with a node
   all the same. The caller gets every node, no error, and no row was stored.
   */
  lemma RefusalSwallowed<M, V, S>(ent: SaveOne.Entity<M, V, S>, m: M, fault: DriverFault)
    requires ent.check(m).None? && ent.reject([], [ent.spec(m)]) == Some(fault)
    ensures var bulk := Bulk(ent, [Builder(0, [Runtime(0)])]);
      var st: State<M, V, S> := State(map[0 := Cell(m, false)], map[0 := 0], [None], [None], [], []);
      var b := Behaviour([Next(Typed(0), Behaviour([], Forward))], Fixed(Value(ent.node(m))));
      var r := Chain(bulk, b, st);
      r.0 == Value(ent.node(m)) && r.1.nodes == [Some(ent.node(m))] && r.1.rows == [] &&
      |r.1.batches| == 1 && r.1.batches[0].fault == Some(fault)
  {
    var bulk := Bulk(ent, [Builder(0, [Runtime(0)])]);
    var st: State<M, V, S> := State(map[0 := Cell(m, false)], map[0 := 0], [None], [None], [], []);
    var inner: Behaviour<M, V> := Behaviour([], Forward);
    var steps := [Next(Typed(0), inner)];
    assert [Runtime(0)][1..] == [] && MutatorOf(bulk, 0) == Wrap(Runtime(0), Base);
    var st1 := Fill(bulk, 0, 0, st);
    assert st1.specs[1..] == [] && RowsOf(st1.specs) == [ent.spec(m)];
    var r := Mutate(bulk, 0, Base, Typed(0), inner, st);
    assert r.1 == BatchCreate(bulk, st1).1;
    assert steps[1..] == [] && RunSteps(bulk, 0, Base, steps, Junk, st) == RunSteps(bulk, 0, Base, [], r.0, r.1);
  }
}
