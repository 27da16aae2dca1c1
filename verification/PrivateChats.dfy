/**
 The schema hook of PrivateChat: a chat between two users is stored with the smaller user first.

 `Hooks()` of the PrivateChat client puts the schema hook after the hooks registered at run time, so it
 is the innermost one and sees whatever the others pass on. It acts only if the operation of the mutation
 it is given is a create, and a hook can change that operation: `SetOp` is public, and the create that
 follows never looks at it. Together with the unique index on (user1_id, user2_id) the hook gives two
 users at most one private chat, exactly as far as the operation stays a create.
 */
module PrivateChats {
  import opened Prelude
  import opened Middleware
  import opened SaveOne

  /** The two user columns of a private chat, both optional. */
  datatype Pair = Pair(user1: Option<Uuid>, user2: Option<Uuid>) {

    predicate Full() { user1.Some? && user2.Some? }

    predicate Ordered() { Full() ==> user1.value <= user2.value }

    /** The same two users, in either order. */
    predicate SameUsers(other: Pair) {
      Full() && other.Full() && {user1.value, user2.value} == {other.user1.value, other.user2.value}
    }
  }

  /** A mutation: the user columns, whether its operation is a create, and the chat it belongs to. */
  datatype Draft = Draft(pair: Pair, create: bool, chat: Option<Uuid>) {

    /** Ordered, or not to be stored for want of a chat. */
    predicate Fit() { pair.Ordered() || chat.None? }

    /** Fit, or going to be ordered by the hook. */
    predicate Harmless() { create || Fit() }
  }

  /** A stored row. */
  datatype ChatRow = ChatRow(pair: Pair, chat: Option<Uuid>) {

    predicate Fit() { pair.Ordered() || chat.None? }
  }

  function OrderPair(p: Pair): (r: Pair)
    ensures r.Ordered() && (p.Full() ==> r.SameUsers(p))
    ensures p.Ordered() ==> r == p
  {
    if p.Full() && p.user1.value > p.user2.value then Pair(p.user2, p.user1) else p
  }

  /** What the schema hook does to the mutation it is given, before it calls on. */
  function ApplyHook(d: Draft): Draft {
    if d.create then d.(pair := OrderPair(d.pair)) else d
  }

  /**
   The exact reach of the hook: it leaves an ordered pair iff the operation is a create or the pair was
   ordered; and it never changes the users, the operation or the chat.
   */
  lemma HookOrdersIff(d: Draft)
    ensures var r := ApplyHook(d);
      (r.pair.Ordered() <==> d.create || d.pair.Ordered()) &&
      (d.pair.Full() ==> r.pair.SameUsers(d.pair)) && r.create == d.create && r.chat == d.chat
  {
  }

  /** `c.hooks.PrivateChat` followed by `privatechat.Hooks[:]`. */
  function ClientHooks(runtime: seq<nat>): seq<Hook> {
    seq(|runtime|, i requires 0 <= i < |runtime| => Runtime(runtime[i])) + [Schema]
  }

  /** The unique index on the pair: no two rows agree on both columns; NULL agrees with nothing. */
  ghost predicate IndexHolds(rows: seq<ChatRow>) {
    forall i, j :: 0 <= i < j < |rows| && rows[i].pair.Full() ==> rows[i].pair != rows[j].pair
  }

  /** The constraints of the table: that index, and the chat column, which is unique and not nullable. */
  ghost predicate TableHolds(rows: seq<ChatRow>) {
    IndexHolds(rows) && (forall i :: 0 <= i < |rows| ==> rows[i].chat.Some?) &&
    forall i, j :: 0 <= i < j < |rows| ==> rows[i].chat != rows[j].chat
  }

  /** What the application relies on: at most one chat for two users. */
  ghost predicate OneChatPerPair(rows: seq<ChatRow>) {
    forall i, j :: 0 <= i < j < |rows| ==> !rows[i].pair.SameUsers(rows[j].pair)
  }

  ghost predicate AllOrdered(rows: seq<ChatRow>) {
    forall i :: 0 <= i < |rows| ==> rows[i].pair.Ordered()
  }

  lemma OrderedPairsAgree(p: Pair, q: Pair)
    requires p.Ordered() && q.Ordered() && p.SameUsers(q)
    ensures p == q
  {
    assert p.user1.value in {q.user1.value, q.user2.value} && p.user2.value in {q.user1.value, q.user2.value};
    assert q.user1.value in {p.user1.value, p.user2.value} && q.user2.value in {p.user1.value, p.user2.value};
  }

  lemma OrderedIndexIsPairwise(rows: seq<ChatRow>)
    requires AllOrdered(rows) && IndexHolds(rows)
    ensures OneChatPerPair(rows)
  {
    forall i, j | 0 <= i < j < |rows| ensures !rows[i].pair.SameUsers(rows[j].pair) {
      if rows[i].pair.SameUsers(rows[j].pair) {
        OrderedPairsAgree(rows[i].pair, rows[j].pair);
      }
    }
  }

  type ChatEntity<!V> = Entity<Draft, V, ChatRow>

  /**
   The entity uses the schema hook above, stores the user columns and the chat as they are, records the id
   without touching them, and its table has the constraints.
   */
  ghost predicate IsPrivateChat<V(!new)>(ent: ChatEntity<V>) {
    (forall d :: ent.normalise(d) == ApplyHook(d)) &&
    (forall d :: ent.spec(d) == ChatRow(d.pair, d.chat)) &&
    (forall d, v :: ent.stamp(d, v) == d) &&
    (forall rows, added :: TableHolds(rows) && ent.reject(rows, added).None? ==> TableHolds(rows + added))
  }

  /** The schema hook is the innermost hook. */
  predicate SchemaInnermost(mut: Mutator) {
    mut.Wrap? && if mut.next.Base? then mut.hook.Schema? else SchemaInnermost(mut.next)
  }

  lemma {:induction false} ClientHooksEndInSchema(runtime: seq<nat>)
    ensures SchemaInnermost(Compose(ClientHooks(runtime), Base))
  {
    var hooks := ClientHooks(runtime);
    if runtime == [] {
      assert hooks == [Schema] && hooks[1..] == [];
    } else {
      ClientHooksEndInSchema(runtime[1..]);
      assert hooks[1..] == ClientHooks(runtime[1..]);
    }
  }

  // ---------------------------------------------------------------- arbitrary hooks

  /** Every `exec` that saw a create saw an ordered pair. */
  ghost predicate CreatesOrdered(trace: seq<Event<Draft>>) {
    forall i :: 0 <= i < |trace| && trace[i].Exec? && trace[i].saw.create ==> trace[i].saw.pair.Ordered()
  }

  /** Whatever the outer hooks do: an unordered pair reaches `exec` only under an operation that is no create. */
  lemma {:induction false} CreatesStayOrdered<V(!new)>(ent: ChatEntity<V>, own: Ref, mut: Mutator, arg: Arg,
                                                 b: Behaviour<Draft, V>, st: SaveState<Draft, ChatRow>)
    requires own in st.store && IsPrivateChat(ent) && SchemaInnermost(mut) && CreatesOrdered(st.trace)
    ensures CreatesOrdered(Invoke(ent, own, mut, arg, b, st).1.trace)
    decreases mut, 0, 0
  {
    var st1 := st.(trace := st.trace + [Enter(mut.hook)]);
    if mut.hook.Schema? {
      if mut.next.Wrap? {
        CreatesStayOrdered(ent, own, mut.next, arg, b, Normalise(ent, arg, st1));
      }
    } else {
      StepsKeepCreatesOrdered(ent, own, mut.next, b.steps, Junk, st1);
    }
  }

  lemma {:induction false} StepsKeepCreatesOrdered<V(!new)>(ent: ChatEntity<V>, own: Ref, next: Mutator,
                                                      steps: seq<Step<Draft, V>>, last: Reply<V>,
                                                      st: SaveState<Draft, ChatRow>)
    requires own in st.store && IsPrivateChat(ent) && SchemaInnermost(next) && CreatesOrdered(st.trace)
    ensures CreatesOrdered(RunSteps(ent, own, next, steps, last, st).1.trace)
    decreases next, 1, |steps|
  {
    if steps != [] {
      match steps[0]
      case Put(ref, data) =>
        StepsKeepCreatesOrdered(ent, own, next, steps[1..], last, st.(store := Write(st.store, ref, data)));
      case Next(arg, below) =>
        var r := Invoke(ent, own, next, arg, below, st);
        CreatesStayOrdered(ent, own, next, arg, below, st);
        StepsKeepCreatesOrdered(ent, own, next, steps[1..], r.0, r.1);
    }
  }

  // ---------------------------------------------------------------- hooks that write harmless mutations only

  /** The hook, and every hook it calls into, writes harmless mutations only. */
  predicate OnlyHarmless<V>(b: Behaviour<Draft, V>)
    decreases b
  {
    forall i :: 0 <= i < |b.steps| ==> HarmlessStep(b.steps[i])
  }

  predicate HarmlessStep<V>(s: Step<Draft, V>)
    decreases s
  {
    match s
    case Put(_, data) => data.Harmless()
    case Next(_, below) => OnlyHarmless(below)
  }

  /** The mutations that exist are harmless. */
  predicate HarmlessStore(store: Store<Draft>) {
    forall x :: x in store ==> store[x].data.Harmless()
  }

  ghost predicate SawHarmless(trace: seq<Event<Draft>>) {
    forall i :: 0 <= i < |trace| && trace[i].Exec? ==> trace[i].saw.Harmless()
  }

  /** Then no mutation becomes anything else, and `exec` sees nothing else. */
  lemma {:induction false} StaysHarmless<V(!new)>(ent: ChatEntity<V>, own: Ref, mut: Mutator, arg: Arg,
                                                b: Behaviour<Draft, V>, st: SaveState<Draft, ChatRow>)
    requires own in st.store && IsPrivateChat(ent) && OnlyHarmless(b) && HarmlessStore(st.store) &&
      SawHarmless(st.trace)
    ensures var st' := Invoke(ent, own, mut, arg, b, st).1; HarmlessStore(st'.store) && SawHarmless(st'.trace)
    decreases mut, 0, 0
  {
    match mut
    case Base =>
    case Wrap(Schema, next) =>
      StaysHarmless(ent, own, next, arg, b, Normalise(ent, arg, st.(trace := st.trace + [Enter(Schema)])));
    case Wrap(hook, next) =>
      StepsStayHarmless(ent, own, next, b.steps, Junk, st.(trace := st.trace + [Enter(hook)]));
  }

  lemma {:induction false} StepsStayHarmless<V(!new)>(ent: ChatEntity<V>, own: Ref, next: Mutator,
                                                    steps: seq<Step<Draft, V>>, last: Reply<V>,
                                                    st: SaveState<Draft, ChatRow>)
    requires own in st.store && IsPrivateChat(ent) && (forall i :: 0 <= i < |steps| ==> HarmlessStep(steps[i]))
    requires HarmlessStore(st.store) && SawHarmless(st.trace)
    ensures var st' := RunSteps(ent, own, next, steps, last, st).1;
      HarmlessStore(st'.store) && SawHarmless(st'.trace)
    decreases next, 1, |steps|
  {
    if steps != [] {
      assert HarmlessStep(steps[0]);
      match steps[0]
      case Put(ref, data) =>
        StepsStayHarmless(ent, own, next, steps[1..], last, st.(store := Write(st.store, ref, data)));
      case Next(arg, below) =>
        var r := Invoke(ent, own, next, arg, below, st);
        StaysHarmless(ent, own, next, arg, below, st);
        StepsStayHarmless(ent, own, next, steps[1..], r.0, r.1);
    }
  }

  ghost predicate ExecsFit(trace: seq<Event<Draft>>) {
    forall i :: 0 <= i < |trace| && trace[i].Exec? ==> trace[i].saw.Fit()
  }

  /** Inserting ordered pairs one by one keeps the table ordered; rows without a chat do not get in. */
  lemma {:induction false} ReplayKeepsPairs<V(!new)>(ent: ChatEntity<V>, rows: seq<ChatRow>, trace: seq<Event<Draft>>)
    requires IsPrivateChat(ent) && ExecsFit(trace) && AllOrdered(rows) && TableHolds(rows)
    ensures AllOrdered(Replay(ent, rows, trace)) && TableHolds(Replay(ent, rows, trace))
    decreases |trace|
  {
    if trace != [] {
      var ev := trace[0];
      if ev.Exec? && ent.check(ev.saw).None? && ent.reject(rows, [ent.spec(ev.saw)]).None? {
        var rows' := rows + [ent.spec(ev.saw)];
        assert rows'[|rows|] == ent.spec(ev.saw);
        ReplayKeepsPairs(ent, rows', trace[1..]);
      } else {
        ReplayKeepsPairs(ent, rows, trace[1..]);
      }
    }
  }

  /** One create under hooks that write harmless mutations only. */
  lemma CreateKeepsPairs<V(!new)>(ent: ChatEntity<V>, runtime: seq<nat>, own: Ref, store: Store<Draft>,
                                  b: Behaviour<Draft, V>, rows: seq<ChatRow>)
    requires own in store && IsPrivateChat(ent) && OnlyHarmless(b) && HarmlessStore(store)
    requires AllOrdered(rows) && TableHolds(rows)
    ensures var rows' := Invoke(ent, own, Compose(ClientHooks(runtime), Base), Typed(own), b,
                                SaveState(store, rows, [])).1.rows;
      AllOrdered(rows') && TableHolds(rows')
  {
    var mut := Compose(ClientHooks(runtime), Base);
    var st := SaveState(store, rows, []);
    var st' := Invoke(ent, own, mut, Typed(own), b, st).1;
    ClientHooksEndInSchema(runtime);
    CreatesStayOrdered(ent, own, mut, Typed(own), b, st);
    StaysHarmless(ent, own, mut, Typed(own), b, st);
    InvokeSound(ent, own, Hooks(mut), 0, mut, Typed(own), b, st);
    assert st'.trace[0..] == st'.trace;
    ReplayKeepsPairs(ent, rows, st'.trace);
  }

  // ---------------------------------------------------------------- where it fails

  const STRAIGHT: Pair := Pair(Some(1), Some(2))

  const SWAPPED: Pair := Pair(Some(2), Some(1))

  /** A hook that overwrites the mutation it was given and forwards it. */
  function Overwrite<V>(d: Draft): Behaviour<Draft, V> {
    Behaviour([Put(0, d), Next(Typed(0), Behaviour([], Forward))], Forward)
  }

  /** What runs inside such a hook sees the new contents. */
  lemma OverwriteRuns<V>(ent: ChatEntity<V>, next: Mutator, d: Draft, st: SaveState<Draft, ChatRow>)
    requires 0 in st.store
    ensures RunSteps(ent, 0, next, Overwrite<V>(d).steps, Junk, st)
         == Invoke(ent, 0, next, Typed(0), Behaviour([], Forward), st.(store := Write(st.store, 0, d)))
  {
    var steps := Overwrite<V>(d).steps;
    var st1 := st.(store := Write(st.store, 0, d));
    var r := Invoke(ent, 0, next, Typed(0), Behaviour([], Forward), st1);
    assert steps[1..][1..] == [];
    assert steps[1..][0] == Next(Typed(0), Behaviour([], Forward));
    assert RunSteps(ent, 0, next, steps[1..], Junk, st1) == RunSteps(ent, 0, next, [], r.0, r.1);
  }

  lemma ExecuteStores<V>(ent: ChatEntity<V>, d: Draft, st: SaveState<Draft, ChatRow>)
    requires 0 in st.store && st.store[0].data == d
    requires ent.check(d).None? && ent.reject(st.rows, [ent.spec(d)]).None?
    ensures Execute(ent, 0, Typed(0), st).1.rows == st.rows + [ent.spec(d)]
  {
  }

  /** The table after a create of `own` under one run-time hook that overwrites it with `d`. */
  function AfterOverwrite<V>(ent: ChatEntity<V>, own: Draft, d: Draft, rows: seq<ChatRow>): seq<ChatRow> {
    Invoke(ent, 0, Compose(ClientHooks([0]), Base), Typed(0), Overwrite<V>(d),
           SaveState(map[0 := Cell(own, false)], rows, [])).1.rows
  }

  lemma OverwriteStores<V(!new)>(ent: ChatEntity<V>, own: Draft, d: Draft, rows: seq<ChatRow>)
    requires IsPrivateChat(ent)
    requires ent.check(ApplyHook(d)).None? && ent.reject(rows, [ent.spec(ApplyHook(d))]).None?
    ensures AfterOverwrite(ent, own, d, rows) == rows + [ent.spec(ApplyHook(d))]
  {
    var st: SaveState<Draft, ChatRow> := SaveState(map[0 := Cell(own, false)], rows, []);
    assert ClientHooks([0]) == [Runtime(0), Schema] && [Runtime(0), Schema][1..] == [Schema] && [Schema][1..] == [];
    var st1 := st.(trace := st.trace + [Enter(Runtime(0))]);
    OverwriteRuns(ent, Wrap(Schema, Base), d, st1);
    var st2 := st1.(store := Write(st1.store, 0, d));
    var st3 := Normalise(ent, Typed(0), st2.(trace := st2.trace + [Enter(Schema)]));
    assert st3.store[0].data == ApplyHook(d);
    ExecuteStores(ent, ApplyHook(d), st3);
  }

  /**
   What a create stores of the mutation that its hooks leave, once the check and the table accept it: the
   table stays ordered iff the operation is a create or the pair was ordered. Otherwise, beside the chat the
   two users already have, they get a second one, although every constraint of the table holds.
   */
  lemma LeftMutationIff<V(!new)>(ent: ChatEntity<V>, own: Draft, d: Draft, rows: seq<ChatRow>)
    requires IsPrivateChat(ent) && AllOrdered(rows) && TableHolds(rows)
    requires ent.check(ApplyHook(d)).None? && ent.reject(rows, [ent.spec(ApplyHook(d))]).None?
    ensures var rows' := AfterOverwrite(ent, own, d, rows);
      TableHolds(rows') && (AllOrdered(rows') <==> d.create || d.pair.Ordered()) &&
      (!AllOrdered(rows') && (exists i :: 0 <= i < |rows| && rows[i].pair == OrderPair(d.pair)) ==>
        !OneChatPerPair(rows'))
  {
    var rows' := rows + [ent.spec(ApplyHook(d))];
    OverwriteStores(ent, own, d, rows);
    HookOrdersIff(d);
    assert rows'[|rows|] == ent.spec(ApplyHook(d));
    if i :| 0 <= i < |rows| && rows[i].pair == OrderPair(d.pair) {
      assert rows'[i] == rows[i];
    }
  }

  /**
   A hook that calls `SetOp` with another operation and swaps the users: the schema hook stands aside, the
   create stores the swapped pair, and the two users have two chats although the constraints hold.
   */
  lemma ChangedOperationSlipsThrough<V(!new)>(ent: ChatEntity<V>, a: Uuid, c: Uuid)
    requires IsPrivateChat(ent) && a != c
    requires var d := Draft(SWAPPED, false, Some(c));
      ent.check(d).None? && ent.reject([ChatRow(STRAIGHT, Some(a))], [ent.spec(d)]).None?
    ensures var d := Draft(SWAPPED, false, Some(c));
      var rows := AfterOverwrite(ent, Draft(STRAIGHT, true, Some(c)), d, [ChatRow(STRAIGHT, Some(a))]);
      rows == [ChatRow(STRAIGHT, Some(a)), ChatRow(SWAPPED, Some(c))] &&
      TableHolds(rows) && !AllOrdered(rows) && !OneChatPerPair(rows)
  {
    var d := Draft(SWAPPED, false, Some(c));
    var first := ChatRow(STRAIGHT, Some(a));
    OverwriteStores(ent, Draft(STRAIGHT, true, Some(c)), d, [first]);
    var rows := [first, ChatRow(SWAPPED, Some(c))];
    assert rows == [first] + [ent.spec(d)];
    assert rows[0].pair.SameUsers(rows[1].pair) && !rows[1].pair.Ordered();
  }

  /**
   The position of the hook matters too: as the outermost hook it would let a later hook swap the pair.
   */
  lemma SchemaOutermostIsNotEnough<V(!new)>(ent: ChatEntity<V>, c: Uuid)
    requires IsPrivateChat(ent)
    requires var d := Draft(SWAPPED, true, Some(c)); ent.check(d).None? && ent.reject([], [ent.spec(d)]).None?
    ensures var d := Draft(SWAPPED, true, Some(c));
      var rows := Invoke(ent, 0, Wrap(Schema, Wrap(Runtime(0), Base)), Typed(0), Overwrite<V>(d),
                         SaveState(map[0 := Cell(Draft(STRAIGHT, true, Some(c)), false)], [], [])).1.rows;
      rows == [ent.spec(d)] && !AllOrdered(rows)
  {
    var d := Draft(SWAPPED, true, Some(c));
    var st: SaveState<Draft, ChatRow> :=
      SaveState(map[0 := Cell(Draft(STRAIGHT, true, Some(c)), false)], [], []);
    var st1 := Normalise(ent, Typed(0), st.(trace := st.trace + [Enter(Schema)]));
    var st2 := st1.(trace := st1.trace + [Enter(Runtime(0))]);
    OverwriteRuns(ent, Base, d, st2);
    ExecuteStores(ent, d, st2.(store := Write(st2.store, 0, d)));
    var rows: seq<ChatRow> := [] + [ent.spec(d)];
    assert !rows[0].pair.Ordered();
  }

  // ---------------------------------------------------------------- updates

  /** A chat id that no row has. */
  function FreshChat(rows: seq<ChatRow>): (c: Uuid)
    ensures forall i :: 0 <= i < |rows| && rows[i].chat.Some? ==> rows[i].chat.value < c
  {
    if rows == [] then 0
    else
      var rest := FreshChat(rows[1..]);
      assert forall i :: 0 < i < |rows| ==> rows[i] == rows[1..][i - 1];
      if rows[0].chat.Some? && rows[0].chat.value >= rest then rows[0].chat.value + 1 else rest
  }

  lemma FreshRowAccepted(rows: seq<ChatRow>, p: Pair)
    requires TableHolds(rows) && forall i :: 0 <= i < |rows| && p.Full() ==> rows[i].pair != p
    ensures TableHolds(rows + [ChatRow(p, Some(FreshChat(rows)))])
  {
    var all := rows + [ChatRow(p, Some(FreshChat(rows)))];
    forall i, j | 0 <= i < j < |all|
      ensures all[i].chat != all[j].chat && (all[i].pair.Full() ==> all[i].pair != all[j].pair) {
      assert j < |rows| ==> all[j] == rows[j];
    }
  }

  /**
   The hook acts on creates only. An update that the table accepts and that leaves row `i` as `r` keeps the
   guarantee for every ordered row that the table will accept afterwards exactly when the pair of `r` is ordered.
   */
  lemma UpdateKeepsGuaranteeIff(rows: seq<ChatRow>, i: nat, r: ChatRow)
    requires i < |rows| && AllOrdered(rows) && TableHolds(rows[i := r])
    ensures var rows' := rows[i := r];
      (forall q: ChatRow :: q.pair.Ordered() && TableHolds(rows' + [q]) ==> OneChatPerPair(rows' + [q])) <==>
        r.pair.Ordered()
  {
    var rows' := rows[i := r];
    if r.pair.Ordered() {
      forall q: ChatRow | q.pair.Ordered() && TableHolds(rows' + [q]) ensures OneChatPerPair(rows' + [q]) {
        OrderedIndexIsPairwise(rows' + [q]);
      }
    } else {
      var p := OrderPair(r.pair);
      if k :| 0 <= k < |rows'| && rows'[k].pair == p {
        FreshRowAccepted(rows', Pair(None, None));
        var all := rows' + [ChatRow(Pair(None, None), Some(FreshChat(rows')))];
        assert all[i].pair.SameUsers(all[k].pair) && all[k].pair.SameUsers(all[i].pair);
        assert !OneChatPerPair(all);
      } else {
        FreshRowAccepted(rows', p);
        var all := rows' + [ChatRow(p, Some(FreshChat(rows')))];
        assert all[i].pair.SameUsers(all[|rows|].pair);
        assert !OneChatPerPair(all);
      }
    }
  }
}
