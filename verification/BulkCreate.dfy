/**
 Creating many entities at once: a chain of mutators over shared slots.

 Builder `i` gets a mutator that checks its mutation, fills slot `i` of `nodes` and `specs`, and then
 calls the mutator of builder `i + 1`; only the last one inserts. Around each of them sit the hooks of
 that builder, which may call inwards any number of times, or never.
 */
module BulkCreate {
  import opened Prelude
  import opened Middleware
  import opened SaveOne

  /** `ref` is the identity of the builder object: a caller may pass one builder twice. */
  datatype Builder = Builder(ref: nat, hooks: seq<Hook>)

  datatype Bulk<!M, !V, !S> = Bulk(ent: Entity<M, V, S>, builders: seq<Builder>)

  /** A filled spec slot: which builder filled it, from which contents, and which contents it had checked. */
  datatype Built<M, S> = Built(owner: nat, data: M, checked: M, spec: S)

  /** One call of `BatchCreate` with what the driver answered. */
  datatype Batch<M, S> = Batch(specs: seq<Option<Built<M, S>>>, fault: Option<DriverFault>)

  /** `current` is the `mutation` field of each builder. */
  datatype State<M, V, S> = State(
    store: Store<M>,
    current: map<nat, Ref>,
    nodes: seq<Option<V>>,
    specs: seq<Option<Built<M, S>>>,
    rows: seq<S>,
    batches: seq<Batch<M, S>>)

  predicate Ready<M, V, S>(bulk: Bulk<M, V, S>, st: State<M, V, S>) {
    |st.nodes| == |bulk.builders| && |st.specs| == |bulk.builders| &&
    (forall k :: 0 <= k < |bulk.builders| ==> bulk.builders[k].ref in st.current) &&
    (forall x :: x in st.current ==> st.current[x] in st.store)
  }

  /** The mutator in slot `i`: the hooks of builder `i` around its own step. */
  function MutatorOf<M, V, S>(bulk: Bulk<M, V, S>, i: nat): Mutator
    requires i < |bulk.builders|
  {
    Compose(bulk.builders[i].hooks, Base)
  }

  /** The rows a list of slots describes. */
  function RowsOf<M, S>(specs: seq<Option<Built<M, S>>>): seq<S> {
    if specs == [] then []
    else (if specs[0].Some? then [specs[0].value.spec] else []) + RowsOf(specs[1..])
  }

  /** `BatchCreate` inserts every spec, or none. */
  function BatchCreate<M, V, S>(bulk: Bulk<M, V, S>, st: State<M, V, S>): (Option<Error>, State<M, V, S>) {
    var fault := bulk.ent.reject(st.rows, RowsOf(st.specs));
    var st1 := st.(batches := st.batches + [Batch(st.specs, fault)]);
    match fault
    case Some(f) => (Some(WrapFault(f)), st1)
    case None => (None, st1.(rows := st.rows + RowsOf(st.specs)))
  }

  /** The check that the step of builder `i` makes: of the mutation the builder holds before the call. */
  function CheckAt<M, V, S>(bulk: Bulk<M, V, S>, i: nat, st: State<M, V, S>): Option<Error>
    requires i < |bulk.builders| && Ready(bulk, st)
  {
    bulk.ent.check(st.store[st.current[bulk.builders[i].ref]].data)
  }

  /** `builder.mutation = mutation` and `nodes[i], specs[i] = builder.createSpec()`. */
  function Fill<M, V, S>(bulk: Bulk<M, V, S>, i: nat, ref: Ref, st: State<M, V, S>): (r: State<M, V, S>)
    requires i < |bulk.builders| && Ready(bulk, st) && ref in st.store
    ensures Ready(bulk, r)
  {
    var data, builder := st.store[ref].data, bulk.builders[i].ref;
    var checked := st.store[st.current[builder]].data;
    st.(current := st.current[builder := ref],
        nodes := st.nodes[i := Some(bulk.ent.node(data))],
        specs := st.specs[i := Some(Built(builder, data, checked, bulk.ent.spec(data)))])
  }

  /** `mutation.id = &nodes[i].ID; mutation.done = true`. */
  function MarkDone<M, V, S>(bulk: Bulk<M, V, S>, ref: Ref, node: V, st: State<M, V, S>): State<M, V, S>
    requires ref in st.store
  {
    st.(store := st.store[ref := Cell(bulk.ent.stamp(st.store[ref].data, node), true)])
  }

  /** `mut.Mutate(ctx, arg)` for the mutator of builder `i`, or a part of it, with hooks behaving as `b`. */
  function Mutate<M, V, S>(bulk: Bulk<M, V, S>, i: nat, mut: Mutator, arg: Arg, b: Behaviour<M, V>,
                                 st: State<M, V, S>): (r: (Reply<V>, State<M, V, S>))
    requires i < |bulk.builders| && Ready(bulk, st)
    ensures Ready(bulk, r.1) && st.store.Keys <= r.1.store.Keys
    decreases |bulk.builders| - i, mut, 0, 0
  {
    match mut
    case Base =>
      if !Live(arg, st.store) then (Fail(UnexpectedMutationType), st)
      else if CheckAt(bulk, i, st).Some? then (Fail(CheckAt(bulk, i, st).value), st)
      else
        var st1 := Fill(bulk, i, arg.ref, st);
        var (err, st2) :=
          if i < |bulk.builders| - 1 then
            var next := Typed(st1.current[bulk.builders[i + 1].ref]);
            var r := Mutate(bulk, i + 1, MutatorOf(bulk, i + 1), next, b, st1);
            (if r.0.Fail? then Some(r.0.error) else None, r.1)
          else BatchCreate(bulk, st1);
        if err.Some? then (Fail(err.value), st2)
        else
          var node := bulk.ent.node(st1.specs[i].value.data);
          (Value(node), MarkDone(bulk, arg.ref, node, st2))
    case Wrap(Schema, next) => Mutate(bulk, i, next, arg, b, Normalised(bulk, arg, st))
    case Wrap(_, next) =>
      var r := RunSteps(bulk, i, next, b.steps, Junk, st);
      (if b.answer.Forward? then r.0 else b.answer.reply, r.1)
  }

  function Normalised<M, V, S>(bulk: Bulk<M, V, S>, arg: Arg, st: State<M, V, S>): State<M, V, S> {
    if Live(arg, st.store)
    then st.(store := Write(st.store, arg.ref, bulk.ent.normalise(st.store[arg.ref].data)))
    else st
  }

  function RunSteps<M, V, S>(bulk: Bulk<M, V, S>, i: nat, next: Mutator, steps: seq<Step<M, V>>,
                                   last: Reply<V>, st: State<M, V, S>): (r: (Reply<V>, State<M, V, S>))
    requires i < |bulk.builders| && Ready(bulk, st)
    ensures Ready(bulk, r.1) && st.store.Keys <= r.1.store.Keys
    decreases |bulk.builders| - i, next, 1, |steps|
  {
    if steps == [] then (last, st)
    else match steps[0]
      case Put(ref, data) =>
        RunSteps(bulk, i, next, steps[1..], last, st.(store := Write(st.store, ref, data)))
      case Next(arg, below) =>
        var r := Mutate(bulk, i, next, arg, below, st);
        RunSteps(bulk, i, next, steps[1..], r.0, r.1)
  }

  /** The call that `Save` makes: the mutator of the first builder, with that builder's mutation. */
  function Chain<M, V, S>(bulk: Bulk<M, V, S>, b: Behaviour<M, V>, st: State<M, V, S>): (Reply<V>, State<M, V, S>)
    requires bulk.builders != [] && Ready(bulk, st)
  {
    Mutate(bulk, 0, MutatorOf(bulk, 0), Typed(st.current[bulk.builders[0].ref]), b, st)
  }

  // ---------------------------------------------------------------- what every behaviour keeps

  /** Slot `k` holds what builder `k` made from contents it took after a check that passed. */
  ghost predicate Slot<M, V, S>(bulk: Bulk<M, V, S>, k: nat, x: Built<M, S>)
    requires k < |bulk.builders|
  {
    x.owner == bulk.builders[k].ref && x.spec == bulk.ent.spec(x.data) && bulk.ent.check(x.checked).None?
  }

  /** Node and spec slots are filled together, each by its own builder. */
  ghost predicate Matched<M, V, S>(bulk: Bulk<M, V, S>, st: State<M, V, S>)
    requires Ready(bulk, st)
  {
    forall k :: 0 <= k < |bulk.builders| ==>
      (st.specs[k].Some? <==> st.nodes[k].Some?) &&
      (st.specs[k].Some? ==>
         Slot(bulk, k, st.specs[k].value) && st.nodes[k].value == bulk.ent.node(st.specs[k].value.data))
  }

  ghost predicate FilledTo<M, V, S>(st: State<M, V, S>, i: nat)
    requires i <= |st.specs|
  {
    forall k :: 0 <= k < i ==> st.specs[k].Some?
  }

  /** All slots filled, each by its own builder. */
  ghost predicate Complete<M, V, S>(bulk: Bulk<M, V, S>, batch: Batch<M, S>) {
    |batch.specs| == |bulk.builders| &&
    forall k :: 0 <= k < |bulk.builders| ==> batch.specs[k].Some? && Slot(bulk, k, batch.specs[k].value)
  }

  /** The rows of the accepted batches, in order. */
  function Written<M, S>(batches: seq<Batch<M, S>>): seq<S> {
    if batches == [] then []
    else (if batches[0].fault.None? then RowsOf(batches[0].specs) else []) + Written(batches[1..])
  }

  lemma {:induction false} WrittenAppend<M, S>(a: seq<Batch<M, S>>, b: seq<Batch<M, S>>)
    ensures Written(a + b) == Written(a) + Written(b)
  {
    if a == [] {
      assert a + b == b;
    } else {
      assert (a + b)[1..] == a[1..] + b;
      WrittenAppend(a[1..], b);
    }
  }

  /** What a call at builder `i` may change: slots from `i` on, and the table by whole complete batches. */
  ghost predicate Kept<M, V, S>(bulk: Bulk<M, V, S>, i: nat, s: State<M, V, S>, s': State<M, V, S>)
    requires i < |bulk.builders| && Ready(bulk, s) && Ready(bulk, s')
  {
    var last := |bulk.builders| - 1;
    (forall k :: 0 <= k < i ==> s'.specs[k] == s.specs[k] && s'.nodes[k] == s.nodes[k]) &&
    s.batches <= s'.batches &&
    (forall k :: |s.batches| <= k < |s'.batches| ==> Complete(bulk, s'.batches[k])) &&
    s'.rows == s.rows + Written(s'.batches[|s.batches|..]) &&
    (s'.specs[last] == s.specs[last] || s'.batches != s.batches) &&
    (s'.batches != s.batches ==> FilledTo(s', |bulk.builders|)) &&
    (forall k :: 0 <= k < |bulk.builders| && s.specs[k].Some? ==> s'.specs[k].Some?) &&
    Matched(bulk, s')
  }

  lemma KeptTrans<M, V, S>(bulk: Bulk<M, V, S>, i: nat, a: State<M, V, S>, b: State<M, V, S>, c: State<M, V, S>)
    requires i < |bulk.builders| && Ready(bulk, a) && Ready(bulk, b) && Ready(bulk, c)
    requires Kept(bulk, i, a, b) && Kept(bulk, i, b, c)
    ensures Kept(bulk, i, a, c)
  {
    var ab, bc := b.batches[|a.batches|..], c.batches[|b.batches|..];
    assert c.batches[|a.batches|..] == ab + bc;
    WrittenAppend(ab, bc);
    forall k | |a.batches| <= k < |c.batches| ensures Complete(bulk, c.batches[k]) {
      if k < |b.batches| {
        assert c.batches[k] == b.batches[k];
      }
    }
  }

  /** Only the store moves. */
  lemma KeptStore<M, V, S>(bulk: Bulk<M, V, S>, i: nat, s: State<M, V, S>, store: Store<M>)
    requires i < |bulk.builders| && Ready(bulk, s) && Matched(bulk, s) && s.store.Keys <= store.Keys
    ensures Kept(bulk, i, s, s.(store := store))
  {
    assert s.batches[|s.batches|..] == [];
  }

  lemma KeptBatch<M, V, S>(bulk: Bulk<M, V, S>, s: State<M, V, S>)
    requires bulk.builders != [] && Ready(bulk, s) && Matched(bulk, s) && FilledTo(s, |bulk.builders|)
    ensures Kept(bulk, |bulk.builders| - 1, s, BatchCreate(bulk, s).1)
  {
    var s' := BatchCreate(bulk, s).1;
    assert s'.batches[|s.batches|..] == [s'.batches[|s.batches|]];
    assert Written(s'.batches[|s.batches|..]) == s'.rows[|s.rows|..] by {
      assert [s'.batches[|s.batches|]][1..] == [];
    }
  }

  /** The step of builder `i` itself, given what holds of the rest of the chain. */
  lemma KeptBase<M, V, S>(bulk: Bulk<M, V, S>, i: nat, arg: Arg, b: Behaviour<M, V>, st: State<M, V, S>,
                          st2: State<M, V, S>)
    requires i < |bulk.builders| && Ready(bulk, st) && Matched(bulk, st) && FilledTo(st, i)
    requires Live(arg, st.store) && CheckAt(bulk, i, st).None?
    requires Ready(bulk, st2) &&
      Kept(bulk, if i < |bulk.builders| - 1 then i + 1 else i, Fill(bulk, i, arg.ref, st), st2)
    requires i == |bulk.builders| - 1 ==> st2.batches != st.batches
    ensures Kept(bulk, i, st, st2)
  {
    var st1 := Fill(bulk, i, arg.ref, st);
    assert st1.batches == st.batches && st1.rows == st.rows;
  }

  /** The state after the rest of the chain that follows the step of builder `i`. */
  function AfterRest<M, V, S>(bulk: Bulk<M, V, S>, i: nat, b: Behaviour<M, V>, st1: State<M, V, S>): (r: State<M, V, S>)
    requires i < |bulk.builders| && Ready(bulk, st1)
    ensures Ready(bulk, r) && st1.store.Keys <= r.store.Keys
  {
    if i < |bulk.builders| - 1
    then Mutate(bulk, i + 1, MutatorOf(bulk, i + 1), Typed(st1.current[bulk.builders[i + 1].ref]), b, st1).1
    else BatchCreate(bulk, st1).1
  }

  lemma StepKeeps<M, V, S>(bulk: Bulk<M, V, S>, i: nat, arg: Arg, b: Behaviour<M, V>, st: State<M, V, S>)
    requires i < |bulk.builders| && Ready(bulk, st) && Matched(bulk, st) && FilledTo(st, i)
    requires Live(arg, st.store) && CheckAt(bulk, i, st).None?
    requires var st1 := Fill(bulk, i, arg.ref, st);
      Kept(bulk, if i < |bulk.builders| - 1 then i + 1 else i, st1, AfterRest(bulk, i, b, st1))
    requires i == |bulk.builders| - 1 ==> AfterRest(bulk, i, b, Fill(bulk, i, arg.ref, st)).batches != st.batches
    ensures Kept(bulk, i, st, Mutate(bulk, i, Base, arg, b, st).1)
  {
    var st2 := AfterRest(bulk, i, b, Fill(bulk, i, arg.ref, st));
    KeptBase(bulk, i, arg, b, st, st2);
    var st' := Mutate(bulk, i, Base, arg, b, st).1;
    assert st' == st2.(store := st'.store);
    KeptStore(bulk, i, st2, st'.store);
    KeptTrans(bulk, i, st, st2, st');
  }

  lemma FillMatches<M, V, S>(bulk: Bulk<M, V, S>, i: nat, ref: Ref, st: State<M, V, S>)
    requires i < |bulk.builders| && Ready(bulk, st) && Matched(bulk, st) && FilledTo(st, i)
    requires ref in st.store && CheckAt(bulk, i, st).None?
    ensures Matched(bulk, Fill(bulk, i, ref, st)) && FilledTo(Fill(bulk, i, ref, st), i + 1)
  {
  }

  /** The schema hook only writes. */
  lemma SchemaKeeps<M, V, S>(bulk: Bulk<M, V, S>, i: nat, arg: Arg, st: State<M, V, S>, st': State<M, V, S>)
    requires i < |bulk.builders| && Ready(bulk, st) && Ready(bulk, st') && Matched(bulk, st)
    requires Kept(bulk, i, Normalised(bulk, arg, st), st')
    ensures Kept(bulk, i, st, st')
  {
    var st1 := Normalised(bulk, arg, st);
    KeptStore(bulk, i, st, st1.store);
    KeptTrans(bulk, i, st, st1, st');
  }

  /** The step of builder `i`, and what follows it. */
  lemma {:induction false} BaseKeeps<M, V, S>(bulk: Bulk<M, V, S>, i: nat, arg: Arg, b: Behaviour<M, V>,
                                              st: State<M, V, S>)
    requires i < |bulk.builders| && Ready(bulk, st) && Matched(bulk, st) && FilledTo(st, i)
    ensures Kept(bulk, i, st, Mutate(bulk, i, Base, arg, b, st).1)
    decreases |bulk.builders| - i, 0
  {
    if !Live(arg, st.store) || CheckAt(bulk, i, st).Some? {
      KeptStore(bulk, i, st, st.store);
    } else {
      var st1 := Fill(bulk, i, arg.ref, st);
      FillMatches(bulk, i, arg.ref, st);
      if i < |bulk.builders| - 1 {
        MutateKeeps(bulk, i + 1, MutatorOf(bulk, i + 1), Typed(st1.current[bulk.builders[i + 1].ref]), b, st1);
      } else {
        KeptBatch(bulk, st1);
      }
      StepKeeps(bulk, i, arg, b, st);
    }
  }

  /**
   Whatever the hooks do, `BatchCreate` is only ever called with every slot filled by its own builder,
   the table only grows by whole batches, and the last slot is filled exactly when a batch was sent.
   */
  lemma {:induction false} MutateKeeps<M, V, S>(bulk: Bulk<M, V, S>, i: nat, mut: Mutator, arg: Arg,
                                                b: Behaviour<M, V>, st: State<M, V, S>)
    requires i < |bulk.builders| && Ready(bulk, st) && Matched(bulk, st) && FilledTo(st, i)
    ensures Kept(bulk, i, st, Mutate(bulk, i, mut, arg, b, st).1)
    decreases |bulk.builders| - i, 1, mut, 0, 0
  {
    match mut
    case Base => BaseKeeps(bulk, i, arg, b, st);
    case Wrap(Schema, next) =>
      var st1 := Normalised(bulk, arg, st);
      MutateKeeps(bulk, i, next, arg, b, st1);
      SchemaKeeps(bulk, i, arg, st, Mutate(bulk, i, next, arg, b, st1).1);
    case Wrap(_, next) => StepsKeep(bulk, i, next, b.steps, Junk, st);
  }

  lemma {:induction false} StepsKeep<M, V, S>(bulk: Bulk<M, V, S>, i: nat, next: Mutator, steps: seq<Step<M, V>>,
                                              last: Reply<V>, st: State<M, V, S>)
    requires i < |bulk.builders| && Ready(bulk, st) && Matched(bulk, st) && FilledTo(st, i)
    ensures Kept(bulk, i, st, RunSteps(bulk, i, next, steps, last, st).1)
    decreases |bulk.builders| - i, 1, next, 1, |steps|
  {
    if steps == [] {
      KeptStore(bulk, i, st, st.store);
    } else {
      var st' := RunSteps(bulk, i, next, steps, last, st).1;
      match steps[0]
      case Put(ref, data) =>
        var st1 := st.(store := Write(st.store, ref, data));
        KeptStore(bulk, i, st, st1.store);
        StepsKeep(bulk, i, next, steps[1..], last, st1);
        KeptTrans(bulk, i, st, st1, st');
      case Next(arg, below) =>
        var r := Mutate(bulk, i, next, arg, below, st);
        MutateKeeps(bulk, i, next, arg, below, st);
        StepsKeep(bulk, i, next, steps[1..], r.0, r.1);
        KeptTrans(bulk, i, st, r.1, st');
    }
  }
}
