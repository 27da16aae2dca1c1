/**
 What a bulk create validates. The step of a builder checks the mutation that the builder holds and then
 saves the one it is passed; these are the same object as long as the hooks in between hand back, in the
 end, the mutation that the builder holds.
 */
module BulkValidation {
  import opened Prelude
  import opened Middleware
  import SaveOne
  import opened BulkCreate

  // ---------------------------------------------------------------- one step

  /**
   The step checks the mutation its builder holds, then saves the one it was passed. What it puts into
   its slot passes the check for all contents of the mutations exactly when the two are the same object,
   that is, when the hooks forwarded rather than substituted.
   */
  lemma SlotIsValidatedIff<M, V, S>(bulk: Bulk<M, V, S>, i: nat, ref: Ref, s: State<M, V, S>, good: M, bad: M)
    requires i < |bulk.builders| && Ready(bulk, s) && ref in s.store
    requires bulk.ent.check(good).None? && bulk.ent.check(bad).Some?
    ensures (forall store: Store<M> :: store.Keys == s.store.Keys && CheckAt(bulk, i, s.(store := store)).None? ==>
              bulk.ent.check(Fill(bulk, i, ref, s.(store := store)).specs[i].value.data).None?)
            <==> ref == s.current[bulk.builders[i].ref]
  {
    var own := s.current[bulk.builders[i].ref];
    if ref != own {
      var store: Store<M> := map x | x in s.store :: Cell(if x == own then good else bad, false);
      assert store.Keys == s.store.Keys;
      assert CheckAt(bulk, i, s.(store := store)).None?;
      assert Fill(bulk, i, ref, s.(store := store)).specs[i].value.data == bad;
    }
  }

  // ---------------------------------------------------------------- honest hooks

  /** Builder `i` holds a mutation of its own in `cur`. */
  predicate Named(builders: seq<Builder>, cur: map<nat, Ref>) {
    forall k :: 0 <= k < |builders| ==> builders[k].ref in cur
  }

  function OwnArg(builders: seq<Builder>, i: nat, cur: map<nat, Ref>): Arg
    requires i < |builders| && Named(builders, cur)
  {
    Typed(cur[builders[i].ref])
  }

  /**
   Hooks that may write, call any number of times, answer as they like and pass anything to each other, but
   whose calls that reach the step of a builder reach it with the mutation that the builder holds.
   */
  predicate Honest<M, V>(builders: seq<Builder>, i: nat, mut: Mutator, arg: Arg, cur: map<nat, Ref>, b: Behaviour<M, V>)
    requires i < |builders| && Named(builders, cur)
    decreases |builders| - i, mut, 0, 0
  {
    match mut
    case Base =>
      arg.Foreign? ||
      (arg == OwnArg(builders, i, cur) &&
       (i == |builders| - 1 ||
        Honest(builders, i + 1, Compose(builders[i + 1].hooks, Base), OwnArg(builders, i + 1, cur), cur, b)))
    case Wrap(Schema, next) => Honest(builders, i, next, arg, cur, b)
    case Wrap(_, next) => HonestSteps(builders, i, next, cur, b.steps)
  }

  predicate HonestSteps<M, V>(builders: seq<Builder>, i: nat, next: Mutator, cur: map<nat, Ref>, steps: seq<Step<M, V>>)
    requires i < |builders| && Named(builders, cur)
    decreases |builders| - i, next, 1, |steps|
  {
    steps == [] ||
    ((match steps[0]
      case Put(_, _) => true
      case Next(arg, below) => Honest(builders, i, next, arg, cur, below)) &&
     HonestSteps(builders, i, next, cur, steps[1..]))
  }

  /** Nothing was built or sent yet. */
  ghost predicate Fresh<M, V, S>(st: State<M, V, S>) {
    st.batches == [] && forall k :: 0 <= k < |st.specs| ==> st.specs[k].None?
  }

  /** Every filled slot holds contents that pass the check. */
  ghost predicate Valid<M, V, S>(bulk: Bulk<M, V, S>, specs: seq<Option<Built<M, S>>>) {
    forall k :: 0 <= k < |specs| && specs[k].Some? ==> bulk.ent.check(specs[k].value.data).None?
  }

  /** So do the slots of every batch that was ever sent. */
  ghost predicate AllValid<M, V, S>(bulk: Bulk<M, V, S>, st: State<M, V, S>) {
    Valid(bulk, st.specs) && forall k :: 0 <= k < |st.batches| ==> Valid(bulk, st.batches[k].specs)
  }

  lemma FillIsValid<M, V, S>(bulk: Bulk<M, V, S>, i: nat, st: State<M, V, S>)
    requires i < |bulk.builders| && Ready(bulk, st) && AllValid(bulk, st) && CheckAt(bulk, i, st).None?
    ensures var st1 := Fill(bulk, i, st.current[bulk.builders[i].ref], st);
      st1.current == st.current && AllValid(bulk, st1)
  {
  }

  /** How the step of builder `i` ends, given how the rest of the chain ended. */
  lemma StepIsValid<M, V, S>(bulk: Bulk<M, V, S>, i: nat, b: Behaviour<M, V>, st: State<M, V, S>)
    requires i < |bulk.builders| && Ready(bulk, st) && CheckAt(bulk, i, st).None?
    requires var st2 := AfterRest(bulk, i, b, Fill(bulk, i, st.current[bulk.builders[i].ref], st));
      st2.current == st.current && AllValid(bulk, st2)
    ensures var st' := Mutate(bulk, i, Base, Typed(st.current[bulk.builders[i].ref]), b, st).1;
      st'.current == st.current && AllValid(bulk, st')
  {
  }

  /** Honest hooks leave every builder its mutation, and whatever a builder saves has passed its check. */
  lemma {:induction false} HonestRunIsValid<M, V, S>(bulk: Bulk<M, V, S>, i: nat, mut: Mutator, arg: Arg,
                                                     b: Behaviour<M, V>, st: State<M, V, S>)
    requires i < |bulk.builders| && Ready(bulk, st) && AllValid(bulk, st)
    requires Honest(bulk.builders, i, mut, arg, st.current, b)
    ensures var st' := Mutate(bulk, i, mut, arg, b, st).1; st'.current == st.current && AllValid(bulk, st')
    decreases |bulk.builders| - i, mut, 0, 0
  {
    match mut
    case Base =>
      if Live(arg, st.store) && CheckAt(bulk, i, st).None? {
        var st1 := Fill(bulk, i, arg.ref, st);
        FillIsValid(bulk, i, st);
        if i < |bulk.builders| - 1 {
          HonestRunIsValid(bulk, i + 1, MutatorOf(bulk, i + 1), Typed(st1.current[bulk.builders[i + 1].ref]), b, st1);
        }
        StepIsValid(bulk, i, b, st);
      }
    case Wrap(Schema, next) => HonestRunIsValid(bulk, i, next, arg, b, Normalised(bulk, arg, st));
    case Wrap(_, next) => HonestStepsAreValid(bulk, i, next, b.steps, Junk, st);
  }

  lemma {:induction false} HonestStepsAreValid<M, V, S>(bulk: Bulk<M, V, S>, i: nat, next: Mutator,
                                                        steps: seq<Step<M, V>>, last: Reply<V>, st: State<M, V, S>)
    requires i < |bulk.builders| && Ready(bulk, st) && AllValid(bulk, st)
    requires HonestSteps(bulk.builders, i, next, st.current, steps)
    ensures var st' := RunSteps(bulk, i, next, steps, last, st).1; st'.current == st.current && AllValid(bulk, st')
    decreases |bulk.builders| - i, next, 1, |steps|
  {
    if steps != [] {
      match steps[0]
      case Put(ref, data) =>
        HonestStepsAreValid(bulk, i, next, steps[1..], last, st.(store := Write(st.store, ref, data)));
      case Next(arg, below) =>
        var r := Mutate(bulk, i, next, arg, below, st);
        HonestRunIsValid(bulk, i, next, arg, below, st);
        HonestStepsAreValid(bulk, i, next, steps[1..], r.0, r.1);
    }
  }

  /** The row describes contents that pass the check. */
  ghost predicate Describes<M, V, S>(bulk: Bulk<M, V, S>, m: M, row: S) {
    bulk.ent.check(m).None? && bulk.ent.spec(m) == row
  }

  lemma {:induction false} SlotsAreValid<M, V, S>(bulk: Bulk<M, V, S>, specs: seq<Option<Built<M, S>>>, row: S)
    requires Valid(bulk, specs) && row in BulkCreate.RowsOf(specs)
    requires forall k :: 0 <= k < |specs| && specs[k].Some? ==>
      specs[k].value.spec == bulk.ent.spec(specs[k].value.data)
    ensures exists m :: Describes(bulk, m, row)
  {
    if specs[0].Some? && specs[0].value.spec == row {
      assert Describes(bulk, specs[0].value.data, row);
    } else {
      assert forall k :: 0 <= k < |specs[1..]| ==> specs[1..][k] == specs[k + 1];
      SlotsAreValid(bulk, specs[1..], row);
    }
  }

  lemma {:induction false} WrittenAreValid<M, V, S>(bulk: Bulk<M, V, S>, batches: seq<Batch<M, S>>, row: S)
    requires forall k :: 0 <= k < |batches| ==> Complete(bulk, batches[k]) && Valid(bulk, batches[k].specs)
    requires row in Written(batches)
    ensures exists m :: Describes(bulk, m, row)
  {
    assert Complete(bulk, batches[0]);
    if batches[0].fault.None? && row in BulkCreate.RowsOf(batches[0].specs) {
      SlotsAreValid(bulk, batches[0].specs, row);
    } else {
      assert forall k :: 0 <= k < |batches[1..]| ==> batches[1..][k] == batches[k + 1];
      WrittenAreValid(bulk, batches[1..], row);
    }
  }

  /** Under honest hooks, every row that a bulk create adds to the table describes contents that pass the check. */
  lemma HonestStoresOnlyValid<M, V, S>(bulk: Bulk<M, V, S>, b: Behaviour<M, V>, st: State<M, V, S>)
    requires bulk.builders != [] && Ready(bulk, st) && Fresh(st) &&
      forall k :: 0 <= k < |st.nodes| ==> st.nodes[k].None?
    requires Honest(bulk.builders, 0, MutatorOf(bulk, 0), OwnArg(bulk.builders, 0, st.current), st.current, b)
    ensures var st' := Chain(bulk, b, st).1;
      st.rows <= st'.rows && forall row :: row in st'.rows[|st.rows|..] ==> exists m :: Describes(bulk, m, row)
  {
    var st' := Chain(bulk, b, st).1;
    HonestRunIsValid(bulk, 0, MutatorOf(bulk, 0), OwnArg(bulk.builders, 0, st.current), b, st);
    MutateKeeps(bulk, 0, MutatorOf(bulk, 0), OwnArg(bulk.builders, 0, st.current), b, st);
    assert st'.batches[|st.batches|..] == st'.batches;
    assert st'.rows[|st.rows|..] == Written(st'.batches);
    forall row | row in st'.rows[|st.rows|..] ensures exists m :: Describes(bulk, m, row) {
      WrittenAreValid(bulk, st'.batches, row);
    }
  }

  // ---------------------------------------------------------------- the converse

  /** Some run-time hook stands between `mut` and the insert. */
  predicate Exposed(builders: seq<Builder>, i: nat, mut: Mutator)
    requires i < |builders|
    decreases |builders| - i, mut
  {
    match mut
    case Base => i < |builders| - 1 && Exposed(builders, i + 1, Compose(builders[i + 1].hooks, Base))
    case Wrap(Schema, next) => Exposed(builders, i, next)
    case Wrap(_, _) => true
  }

  /** Without run-time hooks there is no way to be dishonest. */
  lemma {:induction false} UnexposedIsHonest<M, V>(builders: seq<Builder>, i: nat, mut: Mutator, cur: map<nat, Ref>,
                                                   b: Behaviour<M, V>)
    requires i < |builders| && Named(builders, cur) && !Exposed(builders, i, mut)
    ensures Honest(builders, i, mut, OwnArg(builders, i, cur), cur, b)
    decreases |builders| - i, mut
  {
    match mut
    case Base =>
      if i < |builders| - 1 {
        UnexposedIsHonest(builders, i + 1, Compose(builders[i + 1].hooks, Base), cur, b);
      }
    case Wrap(Schema, next) => UnexposedIsHonest(builders, i, next, cur, b);
    case Wrap(_, _) =>
  }

  /** Hooks that forward: `ref` up to the step of builder `i`, then every builder's own mutation. */
  function Straight<M, V>(builders: seq<Builder>, i: nat, mut: Mutator, ref: Ref, cur: map<nat, Ref>): Behaviour<M, V>
    requires i < |builders| && Named(builders, cur)
    decreases |builders| - i, mut
  {
    match mut
    case Base =>
      if i == |builders| - 1 then Behaviour([], Forward)
      else Straight(builders, i + 1, Compose(builders[i + 1].hooks, Base), cur[builders[i + 1].ref], cur)
    case Wrap(Schema, next) => Straight(builders, i, next, ref, cur)
    case Wrap(_, next) => Behaviour([Next(Typed(ref), Straight(builders, i, next, ref, cur))], Forward)
  }

  /** Hooks that forward, except that the first one passes on `bad`. */
  function Substituting<M, V>(builders: seq<Builder>, i: nat, mut: Mutator, bad: Ref,
                              cur: map<nat, Ref>): Behaviour<M, V>
    requires i < |builders| && Named(builders, cur)
    decreases |builders| - i, mut
  {
    match mut
    case Base =>
      if i == |builders| - 1 then Behaviour([], Forward)
      else Substituting(builders, i + 1, Compose(builders[i + 1].hooks, Base), bad, cur)
    case Wrap(Schema, next) => Substituting(builders, i, next, bad, cur)
    case Wrap(_, next) => Behaviour([Next(Typed(bad), Straight(builders, i, next, bad, cur))], Forward)
  }

  predicate DistinctBuilders(builders: seq<Builder>) {
    forall j, k :: 0 <= j < k < |builders| ==> builders[j].ref != builders[k].ref
  }

  /** The schema hook does not decide validity. */
  ghost predicate NormaliseKeepsCheck<M(!new), V, S>(ent: SaveOne.Entity<M, V, S>) {
    forall m :: ent.check(ent.normalise(m)).None? <==> ent.check(m).None?
  }

  /** The mutations of builders `i..` are valid, and are those that `cur` names after builder `i`. */
  ghost predicate Prepared<M, V, S>(bulk: Bulk<M, V, S>, i: nat, cur: map<nat, Ref>, st: State<M, V, S>)
    requires Ready(bulk, st) && Named(bulk.builders, cur)
  {
    (forall k :: i <= k < |bulk.builders| ==> CheckAt(bulk, k, st).None?) &&
    (forall k :: i < k < |bulk.builders| ==> cur[bulk.builders[k].ref] == st.current[bulk.builders[k].ref])
  }

  /** The batch that a run sends first. */
  ghost predicate FirstBatch<M, V, S>(bulk: Bulk<M, V, S>, i: nat, st: State<M, V, S>, st': State<M, V, S>, ok: bool)
    requires i < |bulk.builders| && Ready(bulk, st)
  {
    |st'.batches| > |st.batches| &&
    var specs := st'.batches[|st.batches|].specs;
    |specs| == |bulk.builders| && specs[..i] == st.specs[..i] && specs[i].Some? &&
    (bulk.ent.check(specs[i].value.data).None? <==> ok)
  }

  lemma OneCall<M, V, S>(bulk: Bulk<M, V, S>, i: nat, next: Mutator, arg: Arg, below: Behaviour<M, V>,
                         st: State<M, V, S>)
    requires i < |bulk.builders| && Ready(bulk, st)
    ensures RunSteps(bulk, i, next, [Next(arg, below)], Junk, st) == Mutate(bulk, i, next, arg, below, st)
  {
    var r := Mutate(bulk, i, next, arg, below, st);
    assert [Next(arg, below)][1..] == [];
    assert RunSteps(bulk, i, next, [], r.0, r.1) == r;
  }

  lemma PreparedAfterFill<M, V, S>(bulk: Bulk<M, V, S>, i: nat, ref: Ref, cur: map<nat, Ref>, st: State<M, V, S>)
    requires i < |bulk.builders| - 1 && Ready(bulk, st) && Named(bulk.builders, cur) && ref in st.store
    requires DistinctBuilders(bulk.builders) && Prepared(bulk, i, cur, st)
    ensures Prepared(bulk, i + 1, cur, Fill(bulk, i, ref, st))
    ensures Fill(bulk, i, ref, st).current[bulk.builders[i + 1].ref] == cur[bulk.builders[i + 1].ref]
  {
    var st1 := Fill(bulk, i, ref, st);
    forall k | i + 1 <= k < |bulk.builders| ensures CheckAt(bulk, k, st1) == CheckAt(bulk, k, st) { }
  }

  lemma PreparedAfterNormalise<M(!new), V, S>(bulk: Bulk<M, V, S>, i: nat, ref: Ref, cur: map<nat, Ref>,
                                              st: State<M, V, S>)
    requires i < |bulk.builders| && Ready(bulk, st) && Named(bulk.builders, cur)
    requires NormaliseKeepsCheck(bulk.ent) && Prepared(bulk, i, cur, st)
    ensures Ready(bulk, Normalised(bulk, Typed(ref), st)) && Prepared(bulk, i, cur, Normalised(bulk, Typed(ref), st))
  {
    var st1 := Normalised(bulk, Typed(ref), st);
    forall k | i <= k < |bulk.builders| ensures CheckAt(bulk, k, st1).None? {
      assert CheckAt(bulk, k, st).None?;
    }
  }

  /** The step of builder `i` sends what the rest of the chain sends. */
  lemma StepSends<M, V, S>(bulk: Bulk<M, V, S>, i: nat, ref: Ref, b: Behaviour<M, V>, st: State<M, V, S>, ok: bool)
    requires i < |bulk.builders| - 1 && Ready(bulk, st) && ref in st.store && CheckAt(bulk, i, st).None?
    requires var st1 := Fill(bulk, i, ref, st); FirstBatch(bulk, i + 1, st1, AfterRest(bulk, i, b, st1), ok)
    ensures FirstBatch(bulk, i, st, Mutate(bulk, i, Base, Typed(ref), b, st).1,
      bulk.ent.check(st.store[ref].data).None?)
  {
    var st1 := Fill(bulk, i, ref, st);
    var st2 := AfterRest(bulk, i, b, st1);
    var specs := st2.batches[|st.batches|].specs;
    assert st1.specs[..i] == st.specs[..i] && specs[..i] == specs[..i + 1][..i] && specs[i] == specs[..i + 1][i];
    assert Mutate(bulk, i, Base, Typed(ref), b, st).1.batches == st2.batches;
  }

  /** Forwarding hooks send a batch whose slot `i` is as valid as the mutation they were given. */
  lemma {:induction false} StraightSends<M(!new), V, S>(bulk: Bulk<M, V, S>, i: nat, mut: Mutator, ref: Ref,
                                                        cur: map<nat, Ref>, st: State<M, V, S>)
    requires i < |bulk.builders| && Ready(bulk, st) && Named(bulk.builders, cur) && ref in st.store
    requires DistinctBuilders(bulk.builders) && NormaliseKeepsCheck(bulk.ent) && Prepared(bulk, i, cur, st)
    ensures FirstBatch(bulk, i, st, Mutate(bulk, i, mut, Typed(ref), Straight(bulk.builders, i, mut, ref, cur), st).1,
                       bulk.ent.check(st.store[ref].data).None?)
    decreases |bulk.builders| - i, mut
  {
    match mut
    case Base =>
      var st1 := Fill(bulk, i, ref, st);
      if i < |bulk.builders| - 1 {
        PreparedAfterFill(bulk, i, ref, cur, st);
        var own := cur[bulk.builders[i + 1].ref];
        StraightSends(bulk, i + 1, MutatorOf(bulk, i + 1), own, cur, st1);
        StepSends(bulk, i, ref, Straight(bulk.builders, i, Base, ref, cur), st,
          bulk.ent.check(st1.store[own].data).None?);
      } else {
        assert st1.specs[..i] == st.specs[..i];
      }
    case Wrap(Schema, next) =>
      PreparedAfterNormalise(bulk, i, ref, cur, st);
      StraightSends(bulk, i, next, ref, cur, Normalised(bulk, Typed(ref), st));
    case Wrap(_, next) =>
      OneCall(bulk, i, next, Typed(ref), Straight(bulk.builders, i, next, ref, cur), st);
      StraightSends(bulk, i, next, ref, cur, st);
  }

  ghost predicate SentInvalid<M, V, S>(bulk: Bulk<M, V, S>, st: State<M, V, S>) {
    exists k :: 0 <= k < |st.batches| && !Valid(bulk, st.batches[k].specs)
  }

  /** If the first run-time hook passes on an invalid mutation, an invalid batch is sent. */
  lemma {:induction false} SubstitutingSends<M(!new), V, S>(bulk: Bulk<M, V, S>, i: nat, mut: Mutator, bad: Ref,
                                                            cur: map<nat, Ref>, st: State<M, V, S>)
    requires i < |bulk.builders| && Ready(bulk, st) && Named(bulk.builders, cur) && bad in st.store
    requires DistinctBuilders(bulk.builders) && NormaliseKeepsCheck(bulk.ent) && Prepared(bulk, i, cur, st)
    requires Exposed(bulk.builders, i, mut) && bulk.ent.check(st.store[bad].data).Some?
    ensures SentInvalid(bulk, Mutate(bulk, i, mut, Typed(st.current[bulk.builders[i].ref]),
                                     Substituting(bulk.builders, i, mut, bad, cur), st).1)
    decreases |bulk.builders| - i, mut
  {
    var own := st.current[bulk.builders[i].ref];
    var b: Behaviour<M, V> := Substituting(bulk.builders, i, mut, bad, cur);
    assert CheckAt(bulk, i, st).None?;
    match mut
    case Base =>
      var st1 := Fill(bulk, i, own, st);
      assert st1.current == st.current && st1.store == st.store;
      PreparedAfterFill(bulk, i, own, cur, st);
      SubstitutingSends(bulk, i + 1, MutatorOf(bulk, i + 1), bad, cur, st1);
      var st2 := Mutate(bulk, i + 1, MutatorOf(bulk, i + 1), Typed(st1.current[bulk.builders[i + 1].ref]), b, st1).1;
      assert Mutate(bulk, i, Base, Typed(own), b, st).1.batches == st2.batches;
    case Wrap(Schema, next) =>
      var st1 := Normalised(bulk, Typed(own), st);
      PreparedAfterNormalise(bulk, i, own, cur, st);
      SubstitutingSends(bulk, i, next, bad, cur, st1);
    case Wrap(_, next) =>
      OneCall(bulk, i, next, Typed(bad), Straight(bulk.builders, i, next, bad, cur), st);
      StraightSends(bulk, i, next, bad, cur, st);
      var st' := Mutate(bulk, i, mut, Typed(own), b, st).1;
      assert !Valid(bulk, st'.batches[|st.batches|].specs);
  }

  /** A number larger than every builder's. */
  function Above(builders: seq<Builder>): (n: nat)
    ensures forall k :: 0 <= k < |builders| ==> builders[k].ref < n
  {
    if builders == [] then 0
    else
      var rest := Above(builders[1..]);
      assert forall k :: 0 < k < |builders| ==> builders[k] == builders[1..][k - 1];
      if builders[0].ref < rest then rest else builders[0].ref + 1
  }

  /** Every builder with a valid mutation of its own, and one invalid mutation beside them. */
  function Beside<M, V, S>(builders: seq<Builder>, good: M, bad: M): (st: State<M, V, S>)
    ensures |st.nodes| == |builders| && |st.specs| == |builders| && st.batches == [] && st.rows == []
    ensures forall k :: 0 <= k < |builders| ==> st.specs[k].None?
    ensures forall k :: 0 <= k < |builders| ==> builders[k].ref in st.current
    ensures forall x :: x in st.current ==> st.current[x] in st.store && st.store[st.current[x]].data == good
    ensures Above(builders) in st.store && st.store[Above(builders)].data == bad
  {
    var own := set k | 0 <= k < |builders| :: builders[k].ref;
    State(map r | r in own + {Above(builders)} :: Cell(if r in own then good else bad, false), map r | r in own :: r,
          seq(|builders|, _ => None), seq(|builders|, _ => None), [], [])
  }

  /**
   The converse: a bulk create of distinct builders validates everything it sends, under all behaviours of
   its hooks and for all contents, if and only if none of its builders has a run-time hook.
   */
  lemma AlwaysValidIff<M(!new), V, S>(bulk: Bulk<M, V, S>, good: M, bad: M)
    requires bulk.builders != [] && DistinctBuilders(bulk.builders) && NormaliseKeepsCheck(bulk.ent)
    requires bulk.ent.check(good).None? && bulk.ent.check(bad).Some?
    ensures (forall b: Behaviour<M, V>, st: State<M, V, S> ::
      Ready(bulk, st) && Fresh(st) ==> AllValid(bulk, Chain(bulk, b, st).1))
            <==> !Exposed(bulk.builders, 0, MutatorOf(bulk, 0))
  {
    if !Exposed(bulk.builders, 0, MutatorOf(bulk, 0)) {
      forall b: Behaviour<M, V>, st: State<M, V, S> | Ready(bulk, st) && Fresh(st)
        ensures AllValid(bulk, Chain(bulk, b, st).1) {
        UnexposedIsHonest(bulk.builders, 0, MutatorOf(bulk, 0), st.current, b);
        HonestRunIsValid(bulk, 0, MutatorOf(bulk, 0), OwnArg(bulk.builders, 0, st.current), b, st);
      }
    } else {
      var st: State<M, V, S> := Beside(bulk.builders, good, bad);
      var b: Behaviour<M, V> := Substituting(bulk.builders, 0, MutatorOf(bulk, 0), Above(bulk.builders), st.current);
      SubstitutingSends(bulk, 0, MutatorOf(bulk, 0), Above(bulk.builders), st.current, st);
      assert Ready(bulk, st) && Fresh(st) && !AllValid(bulk, Chain(bulk, b, st).1);
    }
  }

  // ---------------------------------------------------------------- a second call

  ghost predicate SameMutation(x: nat, a: map<nat, Ref>, b: map<nat, Ref>) {
    (x in a <==> x in b) && (x in a ==> a[x] == b[x])
  }

  /** From builder `i` on, only those builders change the mutation that they hold. */
  lemma {:induction false} OthersHold<M, V, S>(bulk: Bulk<M, V, S>, i: nat, mut: Mutator, arg: Arg,
                                               b: Behaviour<M, V>, st: State<M, V, S>, x: nat)
    requires i < |bulk.builders| && Ready(bulk, st)
    requires forall k :: i <= k < |bulk.builders| ==> bulk.builders[k].ref != x
    ensures SameMutation(x, st.current, Mutate(bulk, i, mut, arg, b, st).1.current)
    decreases |bulk.builders| - i, mut, 0, 0
  {
    match mut
    case Base =>
      if Live(arg, st.store) && CheckAt(bulk, i, st).None? && i < |bulk.builders| - 1 {
        var st1 := Fill(bulk, i, arg.ref, st);
        OthersHold(bulk, i + 1, MutatorOf(bulk, i + 1), Typed(st1.current[bulk.builders[i + 1].ref]), b, st1, x);
      }
    case Wrap(Schema, next) => OthersHold(bulk, i, next, arg, b, Normalised(bulk, arg, st), x);
    case Wrap(_, next) => OthersHoldSteps(bulk, i, next, b.steps, Junk, st, x);
  }

  lemma {:induction false} OthersHoldSteps<M, V, S>(bulk: Bulk<M, V, S>, i: nat, next: Mutator,
                                                    steps: seq<Step<M, V>>, last: Reply<V>, st: State<M, V, S>, x: nat)
    requires i < |bulk.builders| && Ready(bulk, st)
    requires forall k :: i <= k < |bulk.builders| ==> bulk.builders[k].ref != x
    ensures SameMutation(x, st.current, RunSteps(bulk, i, next, steps, last, st).1.current)
    decreases |bulk.builders| - i, next, 1, |steps|
  {
    if steps != [] {
      match steps[0]
      case Put(ref, data) =>
        OthersHoldSteps(bulk, i, next, steps[1..], last, st.(store := Write(st.store, ref, data)), x);
      case Next(arg, below) =>
        var r := Mutate(bulk, i, next, arg, below, st);
        OthersHold(bulk, i, next, arg, below, st, x);
        OthersHoldSteps(bulk, i, next, steps[1..], r.0, r.1, x);
    }
  }

  /**
   The mutation that a step was passed is the builder's from then on, whatever the hooks of later builders do:
   a second call of the step checks it, whatever that call passes.
   */
  lemma SecondCallChecksTheFirst<M, V, S>(bulk: Bulk<M, V, S>, i: nat, ref: Ref, b: Behaviour<M, V>,
                                          st: State<M, V, S>, again: Ref, b2: Behaviour<M, V>)
    requires i < |bulk.builders| && Ready(bulk, st) && DistinctBuilders(bulk.builders)
    requires ref in st.store && again in st.store && CheckAt(bulk, i, st).None?
    ensures var r := Mutate(bulk, i, Base, Typed(ref), b, st);
      r.1.current[bulk.builders[i].ref] == ref &&
      (bulk.ent.check(r.1.store[ref].data).Some? ==>
        Mutate(bulk, i, Base, Typed(again), b2, r.1) == (Fail(bulk.ent.check(r.1.store[ref].data).value), r.1))
  {
    var x := bulk.builders[i].ref;
    var st1 := Fill(bulk, i, ref, st);
    if i < |bulk.builders| - 1 {
      OthersHold(bulk, i + 1, MutatorOf(bulk, i + 1), Typed(st1.current[bulk.builders[i + 1].ref]), b, st1, x);
    }
    var r := Mutate(bulk, i, Base, Typed(ref), b, st);
    assert r.1.current == AfterRest(bulk, i, b, st1).current;
  }
}
