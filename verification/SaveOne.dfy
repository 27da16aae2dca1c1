/**
 Saving one entity: `withHooks` around `sqlSave`.

 The model is generic in the entity: `M` is what a mutation holds, `V` the node a create returns and
 `S` the row it writes. The table is the sequence of rows written so far.
 */
module SaveOne {
  import opened Prelude
  import opened Middleware

  /** What the generated code of one entity contributes to the template. */
  datatype Entity<!M, !V, !S> = Entity(
    check: M -> Option<Error>,
    node: M -> V,
    spec: M -> S,
    stamp: (M, V) -> M,
    normalise: M -> M,
    reject: (seq<S>, seq<S>) -> Option<DriverFault>)

  datatype Event<M> = Enter(hook: Hook) | Exec(saw: M) | Leave(hook: Hook)

  datatype SaveState<M, S> = SaveState(store: Store<M>, rows: seq<S>, trace: seq<Event<M>>)

  /** `sqlSave`: check, build the spec, insert, then record id and `done` on the builder's mutation. */
  function SqlSave<M, V, S>(ent: Entity<M, V, S>, own: Ref, st: SaveState<M, S>): (Reply<V>, SaveState<M, S>)
    requires own in st.store
  {
    var m := st.store[own].data;
    var st1 := st.(trace := st.trace + [Exec(m)]);
    match ent.check(m)
    case Some(e) => (Fail(e), st1)
    case None =>
      match ent.reject(st.rows, [ent.spec(m)])
      case Some(f) => (Fail(WrapFault(f)), st1)
      case None =>
        var n := ent.node(m);
        (Value(n), st1.(rows := st.rows + [ent.spec(m)],
                        store := st.store[own := Cell(ent.stamp(m, n), true)]))
  }

  /** The innermost mutator: `*mutation = *mutationT` and then `exec`. */
  function Execute<M, V, S>(ent: Entity<M, V, S>, own: Ref, arg: Arg, st: SaveState<M, S>):
      (Reply<V>, SaveState<M, S>)
    requires own in st.store
  {
    if !Live(arg, st.store) then (Fail(UnexpectedMutationType), st)
    else SqlSave(ent, own, st.(store := st.store[own := st.store[arg.ref]]))
  }

  /** `mut.Mutate(ctx, arg)`, where the hooks of `mut` behave as `b` records. */
  function Invoke<M, V, S>(ent: Entity<M, V, S>, own: Ref, mut: Mutator, arg: Arg, b: Behaviour<M, V>,
                           st: SaveState<M, S>): (r: (Reply<V>, SaveState<M, S>))
    requires own in st.store
    ensures st.store.Keys <= r.1.store.Keys
    decreases mut, 0, 0
  {
    match mut
    case Base => Execute(ent, own, arg, st)
    case Wrap(Schema, next) =>
      var st1 := st.(trace := st.trace + [Enter(Schema)]);
      var r := Invoke(ent, own, next, arg, b, Normalise(ent, arg, st1));
      (r.0, r.1.(trace := r.1.trace + [Leave(Schema)]))
    case Wrap(hook, next) =>
      var st1 := st.(trace := st.trace + [Enter(hook)]);
      var r := RunSteps(ent, own, next, b.steps, Junk, st1);
      (if b.answer.Forward? then r.0 else b.answer.reply, r.1.(trace := r.1.trace + [Leave(hook)]))
  }

  /** The schema hook rewrites the mutation in place before it calls the next mutator. */
  function Normalise<M, V, S>(ent: Entity<M, V, S>, arg: Arg, st: SaveState<M, S>): SaveState<M, S> {
    if Live(arg, st.store)
    then st.(store := Write(st.store, arg.ref, ent.normalise(st.store[arg.ref].data)))
    else st
  }

  function RunSteps<M, V, S>(ent: Entity<M, V, S>, own: Ref, next: Mutator, steps: seq<Step<M, V>>,
                             last: Reply<V>, st: SaveState<M, S>): (r: (Reply<V>, SaveState<M, S>))
    requires own in st.store
    ensures st.store.Keys <= r.1.store.Keys
    decreases next, 1, |steps|
  {
    if steps == [] then (last, st)
    else match steps[0]
      case Put(ref, data) =>
        RunSteps(ent, own, next, steps[1..], last, st.(store := Write(st.store, ref, data)))
      case Next(arg, below) =>
        var r := Invoke(ent, own, next, arg, below, st);
        RunSteps(ent, own, next, steps[1..], r.0, r.1)
  }

  /** The type assertion at the end of `withHooks`. */
  function Finish<V>(r: Reply<V>): Result<V> {
    match r
    case Value(n) => Success(n)
    case Junk => Failure(UnexpectedNodeType)
    case Fail(e) => Failure(e)
  }

  /** `done` is where it was, and new mutations are not done. */
  ghost predicate SameDone<M>(a: Store<M>, b: Store<M>) {
    a.Keys <= b.Keys && forall x :: x in b ==> b[x].done == (x in a && a[x].done)
  }

  /**
   What a save of the contents `m` answers and leaves. A failing check is the error, and so is a refusal by
   the database, as a constraint error iff it is one; neither writes a row or marks a mutation. Otherwise the
   caller gets the node, the row is there, and the builder's mutation is done and has been stamped; hooks may
   have written to it `later`.
   */
  ghost predicate SavesAs<M, V, S>(ent: Entity<M, V, S>, own: Ref, m: M, later: seq<Step<M, V>>, st: SaveState<M, S>,
                                   value: Result<V>, st': SaveState<M, S>)
    requires OnlyPuts(later)
  {
    match (ent.check(m), ent.reject(st.rows, [ent.spec(m)]))
    case (Some(e), _) => value == Failure(e) && st'.rows == st.rows && SameDone(st.store, st'.store)
    case (None, Some(f)) =>
      value == Failure(if f.constraint then ConstraintError(f.code) else DriverError(f.code)) &&
      st'.rows == st.rows && SameDone(st.store, st'.store)
    case (None, None) =>
      value == Success(ent.node(m)) && st'.rows == st.rows + [ent.spec(m)] &&
      own in st'.store && st'.store[own].done && SameDone(st.store - {own}, st'.store - {own}) &&
      EndsWith(later, own, ent.stamp(m, ent.node(m)), st'.store[own].data)
  }

  /** Under forwarding hooks: the trace around one `exec`, and a save of the contents that it saw. */
  ghost predicate ForwardedSavesAs<M, V, S>(ent: Entity<M, V, S>, own: Ref, hooks: seq<Hook>, b: Behaviour<M, V>,
                                            st: SaveState<M, S>, value: Result<V>, st': SaveState<M, S>)
    requires own in st.store && Transparent(Compose(hooks, Base), Typed(own), b)
  {
    var mut := Compose(hooks, Base);
    var m := StoreAtExec(ent, mut, Typed(own), b, st.store)[own].data;
    st'.trace == st.trace + (Enters(hooks) + [Exec(m)] + Leaves(hooks)) &&
    SavesAs(ent, own, m, LaterSteps(mut, Typed(own), b), st, value, st')
  }

  predicate NoNil(hooks: seq<Option<Hook>>) {
    forall i :: 0 <= i < |hooks| ==> hooks[i].Some?
  }

  function Unwrap(hooks: seq<Option<Hook>>): (r: seq<Hook>)
    requires NoNil(hooks)
    ensures |r| == |hooks| && forall i :: 0 <= i < |r| ==> hooks[i] == Some(r[i])
  {
    seq(|hooks|, i requires 0 <= i < |hooks| => hooks[i].value)
  }

  /** `withHooks(ctx, sqlSave, mutation, hooks)`: the loop that wraps, or stops at a nil hook. */
  method WithHooks<M, V, S>(ent: Entity<M, V, S>, own: Ref, hooks: seq<Option<Hook>>, b: Behaviour<M, V>,
                            st: SaveState<M, S>) returns (value: Result<V>, st': SaveState<M, S>)
    requires own in st.store
    // a nil hook anywhere: neither `exec` nor any `Mutate` runs
    ensures !NoNil(hooks) ==> value == Failure(UninitializedHook) && st' == st
    ensures NoNil(hooks) ==>
      (value, st') == var r := Invoke(ent, own, Compose(Unwrap(hooks), Base), Typed(own), b, st); (Finish(r.0), r.1)
    // without hooks, and with forwarding hooks: what the caller gets, and what is stored and marked
    ensures hooks == [] ==> SavesAs(ent, own, st.store[own].data, [], st, value, st')
    ensures NoNil(hooks) && Transparent(Compose(Unwrap(hooks), Base), Typed(own), b) ==>
      ForwardedSavesAs(ent, own, Unwrap(hooks), b, st, value, st')
    // the outermost hook has the last word
    ensures NoNil(hooks) && hooks != [] && !hooks[0].value.Schema? && b.answer.Fixed? ==>
      match b.answer.reply
      case Value(n) => value == Success(n)
      case Fail(e) => value == Failure(e)
      case Junk => value == Failure(UnexpectedNodeType)
  {
    if NoNil(hooks) && Transparent(Compose(Unwrap(hooks), Base), Typed(own), b) {
      ForwardingSave(ent, own, Unwrap(hooks), b, st);
    }
    if |hooks| == 0 {
      var r := SqlSave(ent, own, st);
      assert st.(store := st.store[own := st.store[own]]) == st;
      return Finish(r.0), r.1;
    }
    var mut := WrapNonNil(hooks);
    if mut.None? {
      return Failure(UninitializedHook), st;
    }
    var r := Invoke(ent, own, mut.value, Typed(own), b, st);
    return Finish(r.0), r.1;
  }

  /** The loop of `withHooks`; it stops at the first nil hook from the end. */
  method WrapNonNil(hooks: seq<Option<Hook>>) returns (wrapped: Option<Mutator>)
    ensures wrapped == if NoNil(hooks) then Some(Compose(Unwrap(hooks), Base)) else None
  {
    var mut := Base;
    var i := |hooks|;
    while i > 0
      invariant 0 <= i <= |hooks|
      invariant NoNil(hooks[i..])
      invariant mut == Compose(Unwrap(hooks[i..]), Base)
    {
      i := i - 1;
      assert hooks[i..] == [hooks[i]] + hooks[i + 1..];
      if hooks[i].None? {
        return None;
      }
      assert Unwrap(hooks[i..])[1..] == Unwrap(hooks[i + 1..]);
      mut := Wrap(hooks[i].value, mut);
    }
    assert hooks[0..] == hooks;
    return Some(mut);
  }

  /** `Save`: the defaults, which `fill` stands for, and then `withHooks`. */
  method Save<M, V, S>(ent: Entity<M, V, S>, own: Ref, fill: M -> M, hooks: seq<Option<Hook>>, b: Behaviour<M, V>,
                       st: SaveState<M, S>) returns (value: Result<V>, st': SaveState<M, S>)
    requires own in st.store
    ensures !NoNil(hooks) ==> value == Failure(UninitializedHook) && st'.rows == st.rows
    ensures var filled := st.(store := st.store[own := Cell(fill(st.store[own].data), st.store[own].done)]);
      (hooks == [] ==> SavesAs(ent, own, fill(st.store[own].data), [], filled, value, st')) &&
      (NoNil(hooks) && Transparent(Compose(Unwrap(hooks), Base), Typed(own), b) ==>
        ForwardedSavesAs(ent, own, Unwrap(hooks), b, filled, value, st'))
  {
    var filled := st.(store := Write(st.store, own, fill(st.store[own].data)));
    value, st' := WithHooks(ent, own, hooks, b, filled);
  }

  // ---------------------------------------------------------------- what every behaviour keeps

  /** Reads a trace as a bracket language: the hooks in `hooks[..d]` are open, `Exec` needs all of them. */
  function Scan<M>(hooks: seq<Hook>, d: nat, trace: seq<Event<M>>): (r: Option<nat>)
    requires d <= |hooks|
    ensures r.Some? ==> r.value <= |hooks|
    decreases |trace|
  {
    if trace == [] then Some(d)
    else match trace[0]
      case Enter(h) => if d < |hooks| && hooks[d] == h then Scan(hooks, d + 1, trace[1..]) else None
      case Leave(h) => if d > 0 && hooks[d - 1] == h then Scan(hooks, d - 1, trace[1..]) else None
      case Exec(_) => if d == |hooks| then Scan(hooks, d, trace[1..]) else None
  }

  /** The table that results when each `Exec` of a trace is checked and inserted on its own. */
  function Replay<M, V, S>(ent: Entity<M, V, S>, rows: seq<S>, trace: seq<Event<M>>): seq<S>
    decreases |trace|
  {
    if trace == [] then rows
    else if trace[0].Exec? && ent.check(trace[0].saw).None? && ent.reject(rows, [ent.spec(trace[0].saw)]).None?
    then Replay(ent, rows + [ent.spec(trace[0].saw)], trace[1..])
    else Replay(ent, rows, trace[1..])
  }

  lemma {:induction false} ScanAppend<M>(hooks: seq<Hook>, d: nat, a: seq<Event<M>>, b: seq<Event<M>>)
    requires d <= |hooks|
    ensures Scan(hooks, d, a + b) ==
            match Scan(hooks, d, a) case None => None case Some(e) => Scan(hooks, e, b)
    decreases |a|
  {
    if a == [] {
      assert a + b == b;
    } else {
      assert (a + b)[1..] == a[1..] + b;
      match a[0]
      case Enter(h) => if d < |hooks| && hooks[d] == h { ScanAppend(hooks, d + 1, a[1..], b); }
      case Leave(h) => if d > 0 && hooks[d - 1] == h { ScanAppend(hooks, d - 1, a[1..], b); }
      case Exec(_) => if d == |hooks| { ScanAppend(hooks, d, a[1..], b); }
    }
  }

  lemma {:induction false} ReplayAppend<M, V, S>(ent: Entity<M, V, S>, rows: seq<S>, a: seq<Event<M>>, b: seq<Event<M>>)
    ensures Replay(ent, rows, a + b) == Replay(ent, Replay(ent, rows, a), b)
    decreases |a|
  {
    if a == [] {
      assert a + b == b;
    } else {
      assert (a + b)[1..] == a[1..] + b;
      if a[0].Exec? && ent.check(a[0].saw).None? && ent.reject(rows, [ent.spec(a[0].saw)]).None? {
        ReplayAppend(ent, rows + [ent.spec(a[0].saw)], a[1..], b);
      } else {
        ReplayAppend(ent, rows, a[1..], b);
      }
    }
  }

  /** From depth `d` to depth `e`: the new events are well bracketed, and they alone explain the table. */
  ghost predicate Sound<M, V, S>(ent: Entity<M, V, S>, hooks: seq<Hook>, d: nat, e: nat,
                                 st: SaveState<M, S>, st': SaveState<M, S>)
    requires d <= |hooks|
  {
    st.trace <= st'.trace &&
    var added := st'.trace[|st.trace|..];
    Scan(hooks, d, added) == Some(e) && st'.rows == Replay(ent, st.rows, added)
  }

  lemma SoundTrans<M, V, S>(ent: Entity<M, V, S>, hooks: seq<Hook>, d: nat, e: nat, f: nat,
                            s0: SaveState<M, S>, s1: SaveState<M, S>, s2: SaveState<M, S>)
    requires d <= |hooks| && e <= |hooks|
    requires Sound(ent, hooks, d, e, s0, s1) && Sound(ent, hooks, e, f, s1, s2)
    ensures Sound(ent, hooks, d, f, s0, s2)
  {
    var a, b := s1.trace[|s0.trace|..], s2.trace[|s1.trace|..];
    assert s2.trace[|s0.trace|..] == a + b;
    ScanAppend(hooks, d, a, b);
    ReplayAppend(ent, s0.rows, a, b);
  }

  /** One event that does not touch the table. */
  lemma SoundEvent<M, V, S>(ent: Entity<M, V, S>, hooks: seq<Hook>, d: nat, ev: Event<M>,
                            st: SaveState<M, S>, st': SaveState<M, S>)
    requires d <= |hooks| && !ev.Exec?
    requires st'.trace == st.trace + [ev] && st'.rows == st.rows
    requires ev.Enter? ==> d < |hooks| && ev.hook == hooks[d]
    requires ev.Leave? ==> d > 0 && ev.hook == hooks[d - 1]
    ensures Sound(ent, hooks, d, if ev.Enter? then d + 1 else d - 1, st, st')
  {
    assert st'.trace[|st.trace|..] == [ev];
    assert [ev][1..] == [];
  }

  lemma SqlSaveSound<M, V, S>(ent: Entity<M, V, S>, own: Ref, hooks: seq<Hook>, st: SaveState<M, S>)
    requires own in st.store
    ensures Sound(ent, hooks, |hooks|, |hooks|, st, SqlSave(ent, own, st).1)
  {
    var ev := Exec(st.store[own].data);
    assert SqlSave(ent, own, st).1.trace[|st.trace|..] == [ev];
    assert [ev][1..] == [];
  }

  /**
   For every behaviour of the hooks: hooks open and close in stack order, `exec` runs only inside all
   of them, and every row in the table was checked immediately before it was inserted.
   */
  lemma {:induction false} InvokeSound<M, V, S>(ent: Entity<M, V, S>, own: Ref, hooks: seq<Hook>, d: nat, mut: Mutator,
                                                arg: Arg, b: Behaviour<M, V>, st: SaveState<M, S>)
    requires own in st.store
    requires d <= |hooks| && Hooks(mut) == hooks[d..]
    ensures Sound(ent, hooks, d, d, st, Invoke(ent, own, mut, arg, b, st).1)
    decreases mut, 0, 0
  {
    match mut
    case Base =>
      assert d == |hooks|;
      if Live(arg, st.store) {
        SqlSaveSound(ent, own, hooks, st.(store := st.store[own := st.store[arg.ref]]));
      }
    case Wrap(hook, next) =>
      assert hooks[d] == hook && hooks[d + 1..] == Hooks(next) by {
        assert hooks[d..][0] == hook;
        assert hooks[d + 1..] == hooks[d..][1..];
      }
      var st1 := st.(trace := st.trace + [Enter(hook)]);
      SoundEvent(ent, hooks, d, Enter(hook), st, st1);
      var s2: SaveState<M, S>;
      if hook.Schema? {
        s2 := Invoke(ent, own, next, arg, b, Normalise(ent, arg, st1)).1;
        InvokeSound(ent, own, hooks, d + 1, next, arg, b, Normalise(ent, arg, st1));
        assert Sound(ent, hooks, d + 1, d + 1, st1, s2);
      } else {
        s2 := RunSteps(ent, own, next, b.steps, Junk, st1).1;
        StepsSound(ent, own, hooks, d + 1, next, b.steps, Junk, st1);
      }
      var st' := Invoke(ent, own, mut, arg, b, st).1;
      SoundEvent(ent, hooks, d + 1, Leave(hook), s2, st');
      SoundTrans(ent, hooks, d, d + 1, d + 1, st, st1, s2);
      SoundTrans(ent, hooks, d, d + 1, d, st, s2, st');
  }

  lemma {:induction false} StepsSound<M, V, S>(ent: Entity<M, V, S>, own: Ref, hooks: seq<Hook>, d: nat, next: Mutator,
                                               steps: seq<Step<M, V>>, last: Reply<V>, st: SaveState<M, S>)
    requires own in st.store
    requires d <= |hooks| && Hooks(next) == hooks[d..]
    ensures Sound(ent, hooks, d, d, st, RunSteps(ent, own, next, steps, last, st).1)
    decreases next, 1, |steps|
  {
    if steps == [] {
      assert st.trace[|st.trace|..] == [];
    } else {
      match steps[0]
      case Put(ref, data) =>
        StepsSound(ent, own, hooks, d, next, steps[1..], last, st.(store := Write(st.store, ref, data)));
      case Next(arg, below) =>
        var r := Invoke(ent, own, next, arg, below, st);
        InvokeSound(ent, own, hooks, d, next, arg, below, st);
        StepsSound(ent, own, hooks, d, next, steps[1..], r.0, r.1);
        SoundTrans(ent, hooks, d, d, d, st, r.1, RunSteps(ent, own, next, steps, last, st).1);
    }
  }

  /** Some `exec` of the trace saw a mutation that passed its check and describes this row. */
  ghost predicate Justified<M, V, S>(ent: Entity<M, V, S>, trace: seq<Event<M>>, row: S) {
    exists i :: 0 <= i < |trace| && trace[i].Exec? && ent.check(trace[i].saw).None? && ent.spec(trace[i].saw) == row
  }

  lemma JustifiedInSuffix<M, V, S>(ent: Entity<M, V, S>, trace: seq<Event<M>>, from: nat, row: S)
    requires from <= |trace| && Justified(ent, trace[from..], row)
    ensures Justified(ent, trace, row)
  {
    var rest := trace[from..];
    var i :| 0 <= i < |rest| && rest[i].Exec? && ent.check(rest[i].saw).None? && ent.spec(rest[i].saw) == row;
    assert trace[from + i] == rest[i];
  }

  lemma {:induction false} ReplayedRowsAreChecked<M, V, S>(ent: Entity<M, V, S>, rows: seq<S>, trace: seq<Event<M>>)
    ensures rows <= Replay(ent, rows, trace)
    ensures forall i :: |rows| <= i < |Replay(ent, rows, trace)| ==> Justified(ent, trace, Replay(ent, rows, trace)[i])
    decreases |trace|
  {
    if trace != [] {
      var ev := trace[0];
      var rows1 :=
        if ev.Exec? && ent.check(ev.saw).None? && ent.reject(rows, [ent.spec(ev.saw)]).None?
        then rows + [ent.spec(ev.saw)] else rows;
      var all := Replay(ent, rows, trace);
      assert all == Replay(ent, rows1, trace[1..]);
      ReplayedRowsAreChecked(ent, rows1, trace[1..]);
      forall i | |rows| <= i < |all| ensures Justified(ent, trace, all[i]) {
        if i >= |rows1| {
          JustifiedInSuffix(ent, trace, 1, all[i]);
        } else {
          assert all[i] == rows1[i];
        }
      }
    }
  }

  /** A saved row is never one that failed its check, whatever the hooks passed on. */
  lemma SaveStoresOnlyCheckedRows<M, V, S>(ent: Entity<M, V, S>, own: Ref, mut: Mutator, arg: Arg,
                                           b: Behaviour<M, V>, st: SaveState<M, S>)
    requires own in st.store
    ensures var st' := Invoke(ent, own, mut, arg, b, st).1;
      st.rows <= st'.rows && forall i :: |st.rows| <= i < |st'.rows| ==> Justified(ent, st'.trace, st'.rows[i])
  {
    var st' := Invoke(ent, own, mut, arg, b, st).1;
    InvokeSound(ent, own, Hooks(mut), 0, mut, arg, b, st);
    ReplayedRowsAreChecked(ent, st.rows, st'.trace[|st.trace|..]);
    forall i | |st.rows| <= i < |st'.rows| ensures Justified(ent, st'.trace, st'.rows[i]) {
      JustifiedInSuffix(ent, st'.trace, |st.trace|, st'.rows[i]);
    }
  }

  // ---------------------------------------------------------------- forwarding hooks

  /** Every hook passes on the mutation it was given, once, and returns what came back. */
  predicate Transparent<M, V>(mut: Mutator, arg: Arg, b: Behaviour<M, V>)
    decreases mut
  {
    match mut
    case Base => true
    case Wrap(Schema, next) => Transparent(next, arg, b)
    case Wrap(_, next) =>
      b.answer.Forward? && ForwardsOnce(b.steps, arg) && Transparent(next, arg, Below(b.steps, arg))
  }

  /** The store when `exec` starts: the writes the hooks made before forwarding, outermost first. */
  function StoreAtExec<M, V, S>(ent: Entity<M, V, S>, mut: Mutator, arg: Arg, b: Behaviour<M, V>, store: Store<M>):
      (r: Store<M>)
    requires Transparent(mut, arg, b) && Live(arg, store)
    ensures store.Keys <= r.Keys && SameDone(store, r)
    decreases mut
  {
    match mut
    case Base => store
    case Wrap(Schema, next) =>
      StoreAtExec(ent, next, arg, b, Write(store, arg.ref, ent.normalise(store[arg.ref].data)))
    case Wrap(_, next) =>
      StoreAtExec(ent, next, arg, Below(b.steps, arg), Before(b.steps, arg, store))
  }

  /** The writes that the hooks make after forwarding, innermost first. */
  function LaterSteps<M, V>(mut: Mutator, arg: Arg, b: Behaviour<M, V>): (r: seq<Step<M, V>>)
    requires Transparent(mut, arg, b)
    ensures OnlyPuts(r)
    decreases mut
  {
    match mut
    case Base => []
    case Wrap(Schema, next) => LaterSteps(next, arg, b)
    case Wrap(_, next) => LaterSteps(next, arg, Below(b.steps, arg)) + Rest(b.steps, arg)
  }

  function Enters<M>(hooks: seq<Hook>): seq<Event<M>> {
    seq(|hooks|, i requires 0 <= i < |hooks| => Enter(hooks[i]))
  }

  function Leaves<M>(hooks: seq<Hook>): seq<Event<M>> {
    seq(|hooks|, i requires 0 <= i < |hooks| => Leave(hooks[|hooks| - 1 - i]))
  }

  /** A run of only writes keeps the reply and touches nothing but the store. */
  lemma {:induction false} PutsKeepReply<M, V, S>(ent: Entity<M, V, S>, own: Ref, next: Mutator, steps: seq<Step<M, V>>,
                                                  last: Reply<V>, st: SaveState<M, S>)
    requires own in st.store && OnlyPuts(steps)
    ensures RunSteps(ent, own, next, steps, last, st) == (last, st.(store := Puts(steps, st.store)))
    decreases |steps|
  {
    if steps != [] {
      assert steps[0].Put?;
      PutsKeepReply(ent, own, next, steps[1..], last, st.(store := Write(st.store, steps[0].ref, steps[0].data)));
    }
  }

  /** A forwarding hook behaves like its one call, made after its earlier writes. */
  lemma {:induction false} ForwardStep<M, V, S>(ent: Entity<M, V, S>, own: Ref, next: Mutator, steps: seq<Step<M, V>>,
                                                arg: Arg, last: Reply<V>, st: SaveState<M, S>)
    requires own in st.store && ForwardsOnce(steps, arg)
    ensures var r := RunSteps(ent, own, next, steps, last, st);
      var c := Invoke(ent, own, next, arg, Below(steps, arg), st.(store := Before(steps, arg, st.store)));
      r == (c.0, c.1.(store := Puts(Rest(steps, arg), c.1.store)))
    decreases |steps|
  {
    match steps[0]
    case Put(ref, data) =>
      ForwardStep(ent, own, next, steps[1..], arg, last, st.(store := Write(st.store, ref, data)));
    case Next(_, below) =>
      var c := Invoke(ent, own, next, arg, below, st);
      PutsKeepReply(ent, own, next, steps[1..], c.0, c.1);
  }

  /** Each hook around what it wraps. */
  function Nest<M>(hooks: seq<Hook>, ev: Event<M>): seq<Event<M>> {
    if hooks == [] then [ev] else [Enter(hooks[0])] + Nest(hooks[1..], ev) + [Leave(hooks[0])]
  }

  lemma {:induction false} NestIsEntersThenLeaves<M>(hooks: seq<Hook>, ev: Event<M>)
    ensures Nest(hooks, ev) == Enters(hooks) + [ev] + Leaves(hooks)
  {
    if hooks != [] {
      NestIsEntersThenLeaves(hooks[1..], ev);
      assert Enters<M>(hooks) == [Enter(hooks[0])] + Enters(hooks[1..]);
      assert Leaves<M>(hooks) == Leaves(hooks[1..]) + [Leave(hooks[0])];
    }
  }

  /** The outcome of `exec` when the hooks have made their writes. */
  function AtExec<M, V, S>(ent: Entity<M, V, S>, own: Ref, mut: Mutator, arg: Arg, b: Behaviour<M, V>,
                           st: SaveState<M, S>): (Reply<V>, SaveState<M, S>)
    requires own in st.store && Live(arg, st.store) && Transparent(mut, arg, b)
  {
    var at := StoreAtExec(ent, mut, arg, b, st.store);
    SqlSave(ent, own, st.(store := at[own := at[arg.ref]]))
  }

  ghost predicate RunsLikeExec<M, V, S>(ent: Entity<M, V, S>, own: Ref, mut: Mutator, arg: Arg,
                                        b: Behaviour<M, V>, st: SaveState<M, S>)
    requires own in st.store && Live(arg, st.store) && Transparent(mut, arg, b)
  {
    var r := Invoke(ent, own, mut, arg, b, st);
    var x := AtExec(ent, own, mut, arg, b, st);
    var saw := StoreAtExec(ent, mut, arg, b, st.store)[arg.ref].data;
    r.0 == x.0 && r.1.rows == x.1.rows && r.1.trace == st.trace + Nest(Hooks(mut), Exec(saw)) &&
    r.1.store == Puts(LaterSteps(mut, arg, b), x.1.store)
  }

  /** The trace around the run of the mutators inside a hook. */
  lemma TraceAround<M>(trace: seq<Event<M>>, hook: Hook, inner: seq<Hook>, ev: Event<M>)
    ensures trace + [Enter(hook)] + Nest(inner, ev) + [Leave(hook)] == trace + Nest([hook] + inner, ev)
  {
    assert ([hook] + inner)[1..] == inner;
  }

  /** The trace has no part in what `exec` answers and stores. */
  lemma SaveIgnoresTrace<M, V, S>(ent: Entity<M, V, S>, own: Ref, s: SaveState<M, S>, t: SaveState<M, S>)
    requires own in s.store && t.store == s.store && t.rows == s.rows
    ensures var x, y := SqlSave(ent, own, s), SqlSave(ent, own, t);
      x.0 == y.0 && x.1.rows == y.1.rows && x.1.store == y.1.store
  {
  }

  lemma SchemaRun<M, V, S>(ent: Entity<M, V, S>, own: Ref, next: Mutator, arg: Arg, b: Behaviour<M, V>,
                           st: SaveState<M, S>)
    requires own in st.store && Live(arg, st.store) && Transparent(next, arg, b)
    requires var st1 := st.(trace := st.trace + [Enter(Schema)]);
      RunsLikeExec(ent, own, next, arg, b, Normalise(ent, arg, st1))
    ensures RunsLikeExec(ent, own, Wrap(Schema, next), arg, b, st)
  {
    var inner := Normalise(ent, arg, st.(trace := st.trace + [Enter(Schema)]));
    var at := StoreAtExec(ent, Wrap(Schema, next), arg, b, st.store);
    assert at == StoreAtExec(ent, next, arg, b, inner.store);
    var stored := at[own := at[arg.ref]];
    SaveIgnoresTrace(ent, own, inner.(store := stored), st.(store := stored));
    TraceAround(st.trace, Schema, Hooks(next), Exec(at[arg.ref].data));
    var c, r := Invoke(ent, own, next, arg, b, inner), Invoke(ent, own, Wrap(Schema, next), arg, b, st);
    assert r == (c.0, c.1.(trace := c.1.trace + [Leave(Schema)]));
  }

  lemma HookRun<M, V, S>(ent: Entity<M, V, S>, own: Ref, hook: Hook, next: Mutator, arg: Arg, b: Behaviour<M, V>,
                         st: SaveState<M, S>)
    requires own in st.store && Live(arg, st.store) && !hook.Schema? && Transparent(Wrap(hook, next), arg, b)
    requires var st1 := st.(trace := st.trace + [Enter(hook)], store := Before(b.steps, arg, st.store));
      RunsLikeExec(ent, own, next, arg, Below(b.steps, arg), st1)
    ensures RunsLikeExec(ent, own, Wrap(hook, next), arg, b, st)
  {
    var inner := st.(trace := st.trace + [Enter(hook)], store := Before(b.steps, arg, st.store));
    var below := Below(b.steps, arg);
    var at := StoreAtExec(ent, Wrap(hook, next), arg, b, st.store);
    assert at == StoreAtExec(ent, next, arg, below, inner.store);
    var stored := at[own := at[arg.ref]];
    SaveIgnoresTrace(ent, own, inner.(store := stored), st.(store := stored));
    var x := AtExec(ent, own, Wrap(hook, next), arg, b, st);
    ForwardStep(ent, own, next, b.steps, arg, Junk, st.(trace := st.trace + [Enter(hook)]));
    PutsAppend(LaterSteps(next, arg, below), Rest(b.steps, arg), x.1.store);
    TraceAround(st.trace, hook, Hooks(next), Exec(at[arg.ref].data));
    var c, r := Invoke(ent, own, next, arg, below, inner), Invoke(ent, own, Wrap(hook, next), arg, b, st);
    assert r == (c.0, c.1.(store := Puts(Rest(b.steps, arg), c.1.store), trace := c.1.trace + [Leave(hook)]));
  }

  lemma {:induction false} ForwardingRun<M, V, S>(ent: Entity<M, V, S>, own: Ref, mut: Mutator, arg: Arg,
                                                  b: Behaviour<M, V>, st: SaveState<M, S>)
    requires own in st.store && Live(arg, st.store) && Transparent(mut, arg, b)
    ensures RunsLikeExec(ent, own, mut, arg, b, st)
    decreases mut
  {
    match mut
    case Base =>
    case Wrap(Schema, next) =>
      ForwardingRun(ent, own, next, arg, b, Normalise(ent, arg, st.(trace := st.trace + [Enter(Schema)])));
      SchemaRun(ent, own, next, arg, b, st);
    case Wrap(hook, next) =>
      var st1 := st.(trace := st.trace + [Enter(hook)], store := Before(b.steps, arg, st.store));
      ForwardingRun(ent, own, next, arg, Below(b.steps, arg), st1);
      HookRun(ent, own, hook, next, arg, b, st);
  }

  /**
   Hooks that pass on something that is not a mutation of the entity, and return what came back: the caller
   gets the type error, `exec` does not run, and nothing is stored or marked.
   */
  lemma {:induction false} ForeignIsRefused<M, V, S>(ent: Entity<M, V, S>, own: Ref, mut: Mutator, b: Behaviour<M, V>,
                                                     st: SaveState<M, S>)
    requires own in st.store && Transparent(mut, Foreign, b)
    ensures var r := Invoke(ent, own, mut, Foreign, b, st);
      r.0 == Fail(UnexpectedMutationType) && r.1.rows == st.rows && SameDone(st.store, r.1.store) &&
      r.1.trace == st.trace + (Enters(Hooks(mut)) + Leaves(Hooks(mut)))
    decreases mut
  {
    match mut
    case Base =>
    case Wrap(hook, next) =>
      var st1 := st.(trace := st.trace + [Enter(hook)]);
      if hook.Schema? {
        ForeignIsRefused(ent, own, next, b, st1);
      } else {
        ForwardStep(ent, own, next, b.steps, Foreign, Junk, st1);
        ForeignIsRefused(ent, own, next, Below(b.steps, Foreign), st1.(store := Before(b.steps, Foreign, st.store)));
      }
      AroundBoth<M>(st.trace, hook, Hooks(next));
  }

  lemma AroundBoth<M>(trace: seq<Event<M>>, hook: Hook, inner: seq<Hook>)
    ensures trace + [Enter(hook)] + (Enters(inner) + Leaves(inner)) + [Leave(hook)] ==
            trace + (Enters([hook] + inner) + Leaves([hook] + inner))
  {
    assert Enters<M>([hook] + inner) == [Enter(hook)] + Enters(inner);
    assert Leaves<M>([hook] + inner) == Leaves(inner) + [Leave(hook)];
  }

  /** The outcome of `exec`, read off the entity alone. */
  lemma SqlSaveSavesAs<M, V, S>(ent: Entity<M, V, S>, own: Ref, st: SaveState<M, S>, at: Store<M>,
                                later: seq<Step<M, V>>)
    requires own in st.store && SameDone(st.store, at) && OnlyPuts(later)
    ensures var x := SqlSave(ent, own, st.(store := at));
      SavesAs(ent, own, at[own].data, later, st, Finish(x.0), x.1.(store := Puts(later, x.1.store)))
  {
    var x := SqlSave(ent, own, st.(store := at));
    var after := Puts(later, x.1.store);
    LastPutStays(later, x.1.store, own);
    if x.0.Value? {
      assert SameDone(x.1.store - {own}, after - {own});
    } else {
      assert x.1.store == at;
    }
  }

  /**
   The answer of a save under forwarding hooks, and what it leaves; `exec` sees the contents `m` that the
   innermost hook left.
   */
  lemma ForwardingSave<M, V, S>(ent: Entity<M, V, S>, own: Ref, hooks: seq<Hook>, b: Behaviour<M, V>,
                                st: SaveState<M, S>)
    requires own in st.store && Transparent(Compose(hooks, Base), Typed(own), b)
    ensures var r := Invoke(ent, own, Compose(hooks, Base), Typed(own), b, st);
      ForwardedSavesAs(ent, own, hooks, b, st, Finish(r.0), r.1)
  {
    var mut := Compose(hooks, Base);
    ForwardingTrace(ent, own, hooks, Typed(own), b, st);
    ForwardingRun(ent, own, mut, Typed(own), b, st);
    var at := StoreAtExec(ent, mut, Typed(own), b, st.store);
    assert at[own := at[own]] == at;
    SqlSaveSavesAs(ent, own, st, at, LaterSteps(mut, Typed(own), b));
  }

  /**
   For forwarding hooks the trace is every hook in registration order, one `exec`, every hook in
   reverse; `exec` sees the mutation as the innermost hook left it; the outcome is that of `exec`.
   */
  lemma ForwardingTrace<M, V, S>(ent: Entity<M, V, S>, own: Ref, hooks: seq<Hook>, arg: Arg,
                                 b: Behaviour<M, V>, st: SaveState<M, S>)
    requires own in st.store && Live(arg, st.store) && Transparent(Compose(hooks, Base), arg, b)
    ensures var mut := Compose(hooks, Base);
      var r := Invoke(ent, own, mut, arg, b, st);
      var x := AtExec(ent, own, mut, arg, b, st);
      var saw := StoreAtExec(ent, mut, arg, b, st.store)[arg.ref].data;
      r.0 == x.0 && r.1.rows == x.1.rows &&
      r.1.trace == st.trace + (Enters(hooks) + [Exec(saw)] + Leaves(hooks))
  {
    var mut := Compose(hooks, Base);
    assert Hooks(mut) == hooks;
    ForwardingRun(ent, own, mut, arg, b, st);
    NestIsEntersThenLeaves(hooks, Exec(StoreAtExec(ent, mut, arg, b, st.store)[arg.ref].data));
  }
}
