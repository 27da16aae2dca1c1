/**
 Runs of private chat creates, single and bulk, each with run-time hooks of its own.
 */
module PrivateChatRuns {
  import opened Prelude
  import opened Middleware
  import SaveOne
  import opened BulkCreate
  import opened BulkSave
  import opened PrivateChats

  type ChatBulk<!V> = Bulk<Draft, V, ChatRow>

  type ChatState<V> = State<Draft, V, ChatRow>

  /** Every builder carries the hooks of the PrivateChat client. */
  predicate SchemaEverywhere(builders: seq<Builder>) {
    forall k :: 0 <= k < |builders| ==> HasSchema(builders[k])
  }

  predicate HasSchema(builder: Builder) {
    SchemaInnermost(Compose(builder.hooks, Base))
  }

  /** What every call in a bulk create keeps: harmless mutations, fit slots, and the table invariant. */
  ghost predicate Kept<V>(st: ChatState<V>) {
    HarmlessStore(st.store) && AllOrdered(st.rows) && TableHolds(st.rows) &&
    forall k :: 0 <= k < |st.specs| && st.specs[k].Some? ==> st.specs[k].value.spec.Fit()
  }

  lemma {:induction false} SlotsDescribeFit(specs: seq<Option<Built<Draft, ChatRow>>>)
    requires forall k :: 0 <= k < |specs| && specs[k].Some? ==> specs[k].value.spec.Fit()
    ensures forall i :: 0 <= i < |RowsOf(specs)| ==> RowsOf(specs)[i].Fit()
  {
    if specs != [] {
      assert forall k :: 0 <= k < |specs[1..]| ==> specs[1..][k] == specs[k + 1];
      SlotsDescribeFit(specs[1..]);
    }
  }

  lemma BatchKeeps<V(!new)>(bulk: ChatBulk<V>, st: ChatState<V>)
    requires IsPrivateChat(bulk.ent) && Kept(st)
    ensures Kept(BatchCreate(bulk, st).1)
  {
    SlotsDescribeFit(st.specs);
    var added := RowsOf(st.specs);
    if bulk.ent.reject(st.rows, added).None? {
      var rows := st.rows + added;
      assert forall i :: 0 <= i < |added| ==> rows[|st.rows| + i] == added[i];
    }
  }

  lemma FillKeeps<V(!new)>(bulk: ChatBulk<V>, i: nat, ref: Ref, st: ChatState<V>)
    requires i < |bulk.builders| && Ready(bulk, st) && IsPrivateChat(bulk.ent) && Kept(st)
    requires ref in st.store && st.store[ref].data.Fit()
    ensures Kept(Fill(bulk, i, ref, st))
  {
  }

  lemma MarkKeeps<V(!new)>(bulk: ChatBulk<V>, ref: Ref, node: V, st: ChatState<V>)
    requires IsPrivateChat(bulk.ent) && Kept(st) && ref in st.store
    ensures Kept(MarkDone(bulk, ref, node, st))
  {
  }

  /** The schema hook leaves a harmless mutation fit. */
  lemma NormaliseKeeps<V(!new)>(bulk: ChatBulk<V>, arg: Arg, st: ChatState<V>)
    requires IsPrivateChat(bulk.ent) && Kept(st)
    ensures var st1 := Normalised(bulk, arg, st);
      Kept(st1) &&
      (Live(arg, st1.store) ==> st1.store[arg.ref].data.Fit())
  {
    if Live(arg, st.store) {
      HookOrdersIff(st.store[arg.ref].data);
    }
  }

  lemma SchemaAt<V>(bulk: ChatBulk<V>, k: nat)
    requires k < |bulk.builders| && SchemaEverywhere(bulk.builders)
    ensures SchemaInnermost(MutatorOf(bulk, k))
  {
    assert HasSchema(bulk.builders[k]);
  }

  /** How the step of a builder that is not the last ends, when the rest of the chain ends in `st2`. */
  lemma EarlierEnds<V(!new)>(bulk: ChatBulk<V>, i: nat, arg: Arg, b: Behaviour<Draft, V>, st: ChatState<V>,
                             st2: ChatState<V>)
    requires i < |bulk.builders| - 1 && Ready(bulk, st) && IsPrivateChat(bulk.ent)
    requires Live(arg, st.store) && CheckAt(bulk, i, st).None? && Kept(st2)
    requires st2 == AfterRest(bulk, i, b, Fill(bulk, i, arg.ref, st))
    ensures Kept(Mutate(bulk, i, Base, arg, b, st).1)
  {
    MarkKeeps(bulk, arg.ref, bulk.ent.node(Fill(bulk, i, arg.ref, st).specs[i].value.data), st2);
  }

  /** How the step of the last builder ends. */
  lemma LastEnds<V(!new)>(bulk: ChatBulk<V>, i: nat, arg: Arg, b: Behaviour<Draft, V>, st: ChatState<V>)
    requires i == |bulk.builders| - 1 && Ready(bulk, st) && IsPrivateChat(bulk.ent)
    requires Live(arg, st.store) && CheckAt(bulk, i, st).None? && Kept(Fill(bulk, i, arg.ref, st))
    ensures Kept(Mutate(bulk, i, Base, arg, b, st).1)
  {
    var st1 := Fill(bulk, i, arg.ref, st);
    BatchKeeps(bulk, st1);
    MarkKeeps(bulk, arg.ref, bulk.ent.node(st1.specs[i].value.data), BatchCreate(bulk, st1).1);
  }

  /** The step of a builder that is not the last, given a fit mutation. */
  lemma {:induction false} EarlierKeeps<V(!new)>(bulk: ChatBulk<V>, i: nat, arg: Arg, b: Behaviour<Draft, V>,
                                                 st: ChatState<V>)
    requires i < |bulk.builders| - 1 && Ready(bulk, st) && IsPrivateChat(bulk.ent) && SchemaEverywhere(bulk.builders)
    requires Kept(st) && OnlyHarmless(b) && Live(arg, st.store) && st.store[arg.ref].data.Fit()
    requires CheckAt(bulk, i, st).None?
    ensures Kept(Mutate(bulk, i, Base, arg, b, st).1)
    decreases |bulk.builders| - i, 0
  {
    var st1 := Fill(bulk, i, arg.ref, st);
    FillKeeps(bulk, i, arg.ref, st);
    SchemaAt(bulk, i + 1);
    var mut, own := MutatorOf(bulk, i + 1), Typed(st1.current[bulk.builders[i + 1].ref]);
    var st2 := BulkKeeps(bulk, i + 1, mut, own, b, st1);
    EarlierEnds(bulk, i, arg, b, st, st2);
  }

  /** The step of builder `i`, given a fit mutation. */
  lemma {:induction false} StepKeeps<V(!new)>(bulk: ChatBulk<V>, i: nat, arg: Arg, b: Behaviour<Draft, V>,
                                              st: ChatState<V>)
    requires i < |bulk.builders| && Ready(bulk, st) && IsPrivateChat(bulk.ent) && SchemaEverywhere(bulk.builders)
    requires Kept(st) && OnlyHarmless(b) && (Live(arg, st.store) ==> st.store[arg.ref].data.Fit())
    ensures Kept(Mutate(bulk, i, Base, arg, b, st).1)
    decreases |bulk.builders| - i, 1
  {
    if Live(arg, st.store) && CheckAt(bulk, i, st).None? {
      if i < |bulk.builders| - 1 {
        EarlierKeeps(bulk, i, arg, b, st);
      } else {
        FillKeeps(bulk, i, arg.ref, st);
        LastEnds(bulk, i, arg, b, st);
      }
    }
  }

  /** With the schema hook innermost, each step is given a fit mutation, whatever its outer hooks do. */
  lemma {:induction false} BulkKeeps<V(!new)>(bulk: ChatBulk<V>, i: nat, mut: Mutator, arg: Arg, b: Behaviour<Draft, V>,
                                              st: ChatState<V>) returns (st': ChatState<V>)
    requires i < |bulk.builders| && Ready(bulk, st) && IsPrivateChat(bulk.ent) && SchemaEverywhere(bulk.builders)
    requires SchemaInnermost(mut) && Kept(st) && OnlyHarmless(b)
    ensures st' == Mutate(bulk, i, mut, arg, b, st).1 && Kept(st')
    decreases |bulk.builders| - i, 2, mut, 0, 0
  {
    st' := Mutate(bulk, i, mut, arg, b, st).1;
    if mut.hook.Schema? {
      var st1 := Normalised(bulk, arg, st);
      NormaliseKeeps(bulk, arg, st);
      if mut.next.Base? {
        StepKeeps(bulk, i, arg, b, st1);
      } else {
        var same := BulkKeeps(bulk, i, mut.next, arg, b, st1);
      }
    } else {
      StepsKeepBulk(bulk, i, mut.next, b.steps, Junk, st);
    }
  }

  lemma {:induction false} StepsKeepBulk<V(!new)>(bulk: ChatBulk<V>, i: nat, next: Mutator, steps: seq<Step<Draft, V>>,
                                                  last: Reply<V>, st: ChatState<V>)
    requires i < |bulk.builders| && Ready(bulk, st) && IsPrivateChat(bulk.ent) && SchemaEverywhere(bulk.builders)
    requires SchemaInnermost(next) && Kept(st)
    requires forall k :: 0 <= k < |steps| ==> HarmlessStep(steps[k])
    ensures Kept(RunSteps(bulk, i, next, steps, last, st).1)
    decreases |bulk.builders| - i, 2, next, 1, |steps|
  {
    if steps != [] {
      assert HarmlessStep(steps[0]);
      match steps[0]
      case Put(ref, data) =>
        StepsKeepBulk(bulk, i, next, steps[1..], last, st.(store := Write(st.store, ref, data)));
      case Next(arg, below) =>
        var r := Mutate(bulk, i, next, arg, below, st);
        var st1 := BulkKeeps(bulk, i, next, arg, below, st);
        StepsKeepBulk(bulk, i, next, steps[1..], r.0, st1);
    }
  }

  // ---------------------------------------------------------------- runs

  /** A builder of a bulk create: its identity, and the hooks registered when it was created. */
  datatype ChatBuilder = ChatBuilder(ref: nat, runtime: seq<nat>)

  /** One create, or one bulk create, with what its hooks did. */
  datatype Action<V> =
    | One(runtime: seq<nat>, own: Ref, store: Store<Draft>, b: Behaviour<Draft, V>)
    | Many(builders: seq<ChatBuilder>, current: map<nat, Ref>, store: Store<Draft>, b: Behaviour<Draft, V>)

  function WithHooks(builders: seq<ChatBuilder>): (r: seq<Builder>)
    ensures |r| == |builders|
  {
    seq(|builders|, k requires 0 <= k < |builders| => Builder(builders[k].ref, ClientHooks(builders[k].runtime)))
  }

  predicate WellFormed<V>(a: Action<V>) {
    match a
    case One(_, own, store, _) => own in store
    case Many(builders, current, store, _) => BulkSave.Linked(WithHooks(builders), store, current)
  }

  /** The mutations of the action, and those its hooks write, are harmless. */
  predicate KeepsHarmless<V>(a: Action<V>) {
    HarmlessStore(a.store) && OnlyHarmless(a.b)
  }

  /** Defaults fill counters and the id only. */
  const UNTOUCHED: (nat, Draft) -> Draft := (_, d) => d

  /** The rows after one action; defaults touch neither the users nor the operation. */
  function After<V>(ent: ChatEntity<V>, a: Action<V>, rows: seq<ChatRow>): seq<ChatRow>
    requires WellFormed(a)
  {
    match a
    case One(runtime, own, store, b) =>
      SaveOne.Invoke(ent, own, Compose(ClientHooks(runtime), Base), Typed(own), b,
        SaveOne.SaveState(store, rows, [])).1.rows
    case Many(builders, current, store, b) =>
      var bulk := Bulk(ent, WithHooks(builders));
      if builders == [] then rows else Chain(bulk, b, Start(bulk, UNTOUCHED, store, current, rows)).1.rows
  }

  function Run<V>(ent: ChatEntity<V>, actions: seq<Action<V>>, rows: seq<ChatRow>): seq<ChatRow>
    requires forall a :: a in actions ==> WellFormed(a)
  {
    if actions == [] then rows else Run(ent, actions[1..], After(ent, actions[0], rows))
  }

  lemma {:induction false} DefaultsStayHarmless(builders: seq<Builder>, k: nat, store: Store<Draft>,
                                                current: map<nat, Ref>)
    requires k <= |builders| && BulkSave.Linked(builders, store, current) && HarmlessStore(store)
    ensures HarmlessStore(WithDefaults(builders, k, UNTOUCHED, store, current))
    decreases |builders| - k
  {
    if k < |builders| {
      var ref := current[builders[k].ref];
      DefaultsStayHarmless(builders, k + 1, Write(store, ref, UNTOUCHED(k, store[ref].data)), current);
    }
  }

  lemma SchemaEverywhereHolds(builders: seq<ChatBuilder>)
    ensures SchemaEverywhere(WithHooks(builders))
  {
    forall k | 0 <= k < |builders| ensures HasSchema(WithHooks(builders)[k]) {
      ClientHooksEndInSchema(builders[k].runtime);
    }
  }

  /** One bulk create under hooks that write harmless mutations only. */
  lemma BulkKeepsPairs<V(!new)>(bulk: ChatBulk<V>, current: map<nat, Ref>, store: Store<Draft>, b: Behaviour<Draft, V>,
                                rows: seq<ChatRow>)
    requires bulk.builders != [] && BulkSave.Linked(bulk.builders, store, current) && SchemaEverywhere(bulk.builders)
    requires IsPrivateChat(bulk.ent) && HarmlessStore(store) && OnlyHarmless(b) && AllOrdered(rows) && TableHolds(rows)
    ensures var rows' := Chain(bulk, b, Start(bulk, UNTOUCHED, store, current, rows)).1.rows;
      AllOrdered(rows') && TableHolds(rows')
  {
    var st := Start(bulk, UNTOUCHED, store, current, rows);
    DefaultsStayHarmless(bulk.builders, 0, store, current);
    SchemaAt(bulk, 0);
    var st' := BulkKeeps(bulk, 0, MutatorOf(bulk, 0), Typed(st.current[bulk.builders[0].ref]), b, st);
  }

  lemma ActionKeepsPairs<V(!new)>(ent: ChatEntity<V>, a: Action<V>, rows: seq<ChatRow>)
    requires IsPrivateChat(ent) && WellFormed(a) && KeepsHarmless(a) && AllOrdered(rows) && TableHolds(rows)
    ensures AllOrdered(After(ent, a, rows)) && TableHolds(After(ent, a, rows))
  {
    match a
    case One(runtime, own, store, b) => CreateKeepsPairs(ent, runtime, own, store, b, rows);
    case Many(builders, current, store, b) =>
      if builders != [] {
        SchemaEverywhereHolds(builders);
        BulkKeepsPairs(Bulk(ent, WithHooks(builders)), current, store, b, rows);
      }
  }

  /**
   Over every run of single and bulk creates, with run-time hooks that may do anything but write a harmful
   mutation, or pass one on, two users never get two chats.
   */
  lemma {:induction false} OneChatPerPairOverRuns<V(!new)>(ent: ChatEntity<V>, actions: seq<Action<V>>,
                                                           rows: seq<ChatRow>)
    requires IsPrivateChat(ent) && AllOrdered(rows) && TableHolds(rows)
    requires forall a :: a in actions ==> WellFormed(a) && KeepsHarmless(a)
    ensures var rows' := Run(ent, actions, rows);
      AllOrdered(rows') && TableHolds(rows') && OneChatPerPair(rows')
    decreases |actions|
  {
    if actions == [] {
      OrderedIndexIsPairwise(rows);
    } else {
      assert actions[0] in actions;
      ActionKeepsPairs(ent, actions[0], rows);
      OneChatPerPairOverRuns(ent, actions[1..], After(ent, actions[0], rows));
    }
  }

  // ---------------------------------------------------------------- the exact condition

  /** The check asks for the chat, and the database accepts whatever meets the constraints of the table. */
  ghost predicate AcceptsAll<V(!new)>(ent: ChatEntity<V>) {
    (forall d :: ent.check(d).None? <==> d.chat.Some?) &&
    (forall rows, added :: TableHolds(rows + added) ==> ent.reject(rows, added).None?)
  }

  /** The hook, and every hook it calls into, writes only creates and mutations in `w`. */
  predicate Writes<V>(w: Draft -> bool, b: Behaviour<Draft, V>)
    decreases b
  {
    forall i :: 0 <= i < |b.steps| ==> StepWrites(w, b.steps[i])
  }

  predicate StepWrites<V>(w: Draft -> bool, s: Step<Draft, V>)
    decreases s
  {
    match s
    case Put(_, data) => data.create || w(data)
    case Next(_, below) => Writes(w, below)
  }

  /** A possible run: the mutations that exist, and those that hooks write, are creates or in `w`. */
  ghost predicate Possible<V>(w: Draft -> bool, actions: seq<Action<V>>) {
    forall a :: a in actions ==> WellFormed(a) && KeepsTo(w, a)
  }

  predicate KeepsTo<V>(w: Draft -> bool, a: Action<V>) {
    (forall x :: x in a.store ==> a.store[x].data.create || w(a.store[x].data)) && Writes(w, a.b)
  }

  ghost predicate AllHarmless(w: Draft -> bool) {
    forall d :: w(d) ==> d.Harmless()
  }

  lemma {:induction false} WritesHarmless<V>(w: Draft -> bool, b: Behaviour<Draft, V>)
    requires AllHarmless(w) && Writes(w, b)
    ensures OnlyHarmless(b)
    decreases b
  {
    forall i | 0 <= i < |b.steps| ensures HarmlessStep(b.steps[i]) {
      assert StepWrites(w, b.steps[i]);
      if b.steps[i].Next? {
        WritesHarmless(w, b.steps[i].below);
      }
    }
  }

  /** A create of `own` under one run-time hook that overwrites it with `d`. */
  function Overwriting<V>(own: Draft, d: Draft): Action<V> {
    One([0], 0, map[0 := Cell(own, false)], Overwrite<V>(d))
  }

  lemma OverwritingKeepsTo<V>(w: Draft -> bool, own: Draft, d: Draft)
    requires own.create && (d.create || w(d))
    ensures WellFormed(Overwriting<V>(own, d)) && KeepsTo(w, Overwriting<V>(own, d))
  {
    var inner: Behaviour<Draft, V> := Behaviour([], Forward);
    assert Writes(w, inner);
    var steps := Overwrite<V>(d).steps;
    assert StepWrites(w, steps[0]) && steps[1] == Next(Typed(0), inner) && StepWrites(w, steps[1]);
  }

  /** The table after the ordered pair was stored, and then the harmful mutation. */
  lemma HarmfulRows(d: Draft, row: ChatRow)
    requires !d.Harmless() && row == ChatRow(OrderPair(d.pair), Some(d.chat.value + 1))
    ensures TableHolds([row]) && TableHolds([row] + [ChatRow(d.pair, d.chat)])
    ensures !OneChatPerPair([row] + [ChatRow(d.pair, d.chat)])
  {
    var rows := [row] + [ChatRow(d.pair, d.chat)];
    assert rows[0].pair.SameUsers(rows[1].pair);
  }

  lemma TwoActions<V>(ent: ChatEntity<V>, one: Action<V>, two: Action<V>, rows: seq<ChatRow>)
    requires WellFormed(one) && WellFormed(two)
    ensures Run(ent, [one, two], rows) == After(ent, two, After(ent, one, rows))
  {
    var none: seq<Action<V>> := [];
    assert [one, two][1..] == [two] && [two][1..] == none;
    var rows1 := After(ent, one, rows);
    assert Run(ent, none, After(ent, two, rows1)) == After(ent, two, rows1);
    assert Run(ent, [two], rows1) == After(ent, two, rows1);
  }

  lemma OverwritingStores<V(!new)>(ent: ChatEntity<V>, own: Draft, d: Draft, rows: seq<ChatRow>)
    requires IsPrivateChat(ent) && AcceptsAll(ent) && d.chat.Some? && ApplyHook(d) == d
    requires TableHolds(rows + [ChatRow(d.pair, d.chat)])
    ensures After(ent, Overwriting<V>(own, d), rows) == rows + [ChatRow(d.pair, d.chat)]
  {
    OverwriteStores(ent, own, d, rows);
  }

  /** Two creates: the ordered pair, and then the mutation `d`. */
  lemma HarmfulRun<V(!new)>(ent: ChatEntity<V>, w: Draft -> bool, d: Draft) returns (actions: seq<Action<V>>)
    requires IsPrivateChat(ent) && AcceptsAll(ent) && w(d) && !d.Harmless()
    ensures Possible(w, actions) && !OneChatPerPair(Run(ent, actions, []))
  {
    var first := Draft(OrderPair(d.pair), true, Some(d.chat.value + 1));
    var one, two := Overwriting<V>(first, first), Overwriting<V>(first, d);
    OverwritingKeepsTo<V>(w, first, first);
    OverwritingKeepsTo<V>(w, first, d);
    actions := [one, two];
    var row := ChatRow(first.pair, first.chat);
    HarmfulRows(d, row);
    assert [] + [row] == [row];
    OverwritingStores(ent, first, first, []);
    OverwritingStores(ent, first, d, [row]);
    TwoActions(ent, one, two, []);
  }

  lemma PossibleRunsAreSafe<V(!new)>(ent: ChatEntity<V>, w: Draft -> bool, actions: seq<Action<V>>)
    requires IsPrivateChat(ent) && AllHarmless(w) && Possible(w, actions)
    ensures OneChatPerPair(Run(ent, actions, []))
  {
    forall a | a in actions ensures WellFormed(a) && KeepsHarmless(a) {
      assert KeepsTo(w, a);
      WritesHarmless(w, a.b);
    }
    OneChatPerPairOverRuns(ent, actions, []);
  }

  /**
   The exact condition over all runs. Let the mutations that hooks write or pass on be creates or in `w`. Then
   every run of single and bulk creates leaves two users at most one chat, if and only if `w` holds no
   mutation that is no create, has an unordered pair, and names a chat.
   */
  lemma OneChatPerPairIff<V(!new)>(ent: ChatEntity<V>, w: Draft -> bool)
    requires IsPrivateChat(ent) && AcceptsAll(ent)
    ensures (forall actions: seq<Action<V>> :: Possible(w, actions) ==> OneChatPerPair(Run(ent, actions, [])))
            <==> AllHarmless(w)
  {
    if AllHarmless(w) {
      forall actions: seq<Action<V>> | Possible(w, actions) ensures OneChatPerPair(Run(ent, actions, [])) {
        PossibleRunsAreSafe(ent, w, actions);
      }
    } else {
      var d :| w(d) && !d.Harmless();
      var actions := HarmfulRun(ent, w, d);
      assert Possible(w, actions) && !OneChatPerPair(Run(ent, actions, []));
    }
  }
}
