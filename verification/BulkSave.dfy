/**
 `Save` of a bulk builder: defaults, the wrapping of every step in its hooks, and the call of the first
 mutator.
 */
module BulkSave {
  import opened Prelude
  import opened Middleware
  import opened BulkCreate
  import opened BulkOutcome

  /** Every builder refers to a mutation that exists. */
  predicate Linked<M>(builders: seq<Builder>, store: Store<M>, current: map<nat, Ref>) {
    (forall k :: 0 <= k < |builders| ==> builders[k].ref in current) &&
    (forall x :: x in current ==> current[x] in store)
  }

  /** `builder.defaults()` for builders `k..`, in order; `fill` stands for the clock and the id generator. */
  function WithDefaults<M>(builders: seq<Builder>, k: nat, fill: (nat, M) -> M, store: Store<M>,
                           current: map<nat, Ref>): (r: Store<M>)
    requires k <= |builders| && Linked(builders, store, current)
    ensures r.Keys == store.Keys && Linked(builders, r, current)
    decreases |builders| - k
  {
    if k == |builders| then store
    else
      var ref := current[builders[k].ref];
      WithDefaults(builders, k + 1, fill, Write(store, ref, fill(k, store[ref].data)), current)
  }

  /** The builders from `k` on whose mutation is `x`, in order. */
  function Holders(builders: seq<Builder>, k: nat, current: map<nat, Ref>, x: Ref): (r: seq<nat>)
    requires k <= |builders| && forall i :: 0 <= i < |builders| ==> builders[i].ref in current
    ensures forall j :: j in r <==> k <= j < |builders| && current[builders[j].ref] == x
    ensures forall i, j :: 0 <= i < j < |r| ==> r[i] < r[j]
    ensures r == [] <==> forall j :: k <= j < |builders| ==> current[builders[j].ref] != x
    decreases |builders| - k
  {
    if k == |builders| then []
    else
      var rest := Holders(builders, k + 1, current, x);
      assert forall i :: 0 <= i < |rest| ==> rest[i] in rest;
      if current[builders[k].ref] == x then [k] + rest else rest
  }

  /** Filling in one mutation for some builders, one after the other. */
  function FillAll<M>(fill: (nat, M) -> M, turns: seq<nat>, data: M): M {
    if turns == [] then data else FillAll(fill, turns[1..], fill(turns[0], data))
  }

  /**
   Every mutation ends up filled in once for each builder that holds it, in the order of the builders; `done`
   stays, and a mutation that no builder holds is not touched.
   */
  lemma {:induction false} DefaultsInTurn<M>(builders: seq<Builder>, k: nat, fill: (nat, M) -> M, store: Store<M>,
                                             current: map<nat, Ref>, x: Ref)
    requires k <= |builders| && Linked(builders, store, current) && x in store
    ensures WithDefaults(builders, k, fill, store, current)[x] ==
            Cell(FillAll(fill, Holders(builders, k, current, x), store[x].data), store[x].done)
    decreases |builders| - k
  {
    if k < |builders| {
      var ref := current[builders[k].ref];
      var store1 := Write(store, ref, fill(k, store[ref].data));
      DefaultsInTurn(builders, k + 1, fill, store1, current, x);
      var rest := Holders(builders, k + 1, current, x);
      if ref == x {
        assert ([k] + rest)[1..] == rest;
      } else {
        assert Holders(builders, k, current, x) == rest;
      }
    }
  }

  predicate OwnMutations(builders: seq<Builder>, current: map<nat, Ref>)
    requires forall i :: 0 <= i < |builders| ==> builders[i].ref in current
  {
    forall j, k :: 0 <= j < k < |builders| ==> current[builders[j].ref] != current[builders[k].ref]
  }

  lemma OneHolder(builders: seq<Builder>, current: map<nat, Ref>, k: nat)
    requires k < |builders| && (forall i :: 0 <= i < |builders| ==> builders[i].ref in current)
    requires OwnMutations(builders, current)
    ensures Holders(builders, 0, current, current[builders[k].ref]) == [k]
  {
    var r := Holders(builders, 0, current, current[builders[k].ref]);
    forall j | j in r ensures j == k { }
    if |r| > 1 {
      FirstTwo(r);
      assert false;
    }
    assert k in r;
  }

  lemma FirstTwo(r: seq<nat>)
    requires |r| > 1 && r[0] < r[1]
    ensures exists i, j :: i in r && j in r && i < j
  {
    assert r[0] in r && r[1] in r;
  }

  /** Builders with mutations of their own: each is filled in with the defaults of its builder, once. */
  lemma DefaultsRunOnce<M>(builders: seq<Builder>, fill: (nat, M) -> M, store: Store<M>, current: map<nat, Ref>)
    requires Linked(builders, store, current) && OwnMutations(builders, current)
    ensures var filled := WithDefaults(builders, 0, fill, store, current);
      (forall k :: 0 <= k < |builders| ==>
        var ref := current[builders[k].ref];
        filled[ref] == Cell(fill(k, store[ref].data), store[ref].done)) &&
      (forall x :: x in store && (forall k :: 0 <= k < |builders| ==> x != current[builders[k].ref]) ==>
        filled[x] == store[x])
  {
    var filled := WithDefaults(builders, 0, fill, store, current);
    forall k | 0 <= k < |builders|
      ensures var ref := current[builders[k].ref]; filled[ref] == Cell(fill(k, store[ref].data), store[ref].done)
    {
      var ref := current[builders[k].ref];
      DefaultsInTurn(builders, 0, fill, store, current, ref);
      OneHolder(builders, current, k);
      assert FillAll(fill, [k], store[ref].data) == FillAll(fill, [], fill(k, store[ref].data)) by {
        assert [k][1..] == [];
      }
    }
    forall x | x in store && (forall k :: 0 <= k < |builders| ==> x != current[builders[k].ref])
      ensures filled[x] == store[x]
    {
      DefaultsInTurn(builders, 0, fill, store, current, x);
      assert Holders(builders, 0, current, x) == [];
    }
  }

  /** The state when the first mutator is called: all slots empty. */
  function Start<M, V, S>(bulk: Bulk<M, V, S>, fill: (nat, M) -> M, store: Store<M>, current: map<nat, Ref>,
                          rows: seq<S>): (r: State<M, V, S>)
    requires Linked(bulk.builders, store, current)
    ensures Ready(bulk, r)
  {
    var n := |bulk.builders|;
    State(WithDefaults(bulk.builders, 0, fill, store, current), current,
          seq(n, _ => None), seq(n, _ => None), rows, [])
  }

  /** The loop that runs `defaults` and wraps the step of every builder in its hooks. */
  method BuildMutators<M, V, S>(bulk: Bulk<M, V, S>, fill: (nat, M) -> M, store: Store<M>, current: map<nat, Ref>)
      returns (filled: Store<M>, mutators: seq<Mutator>)
    requires Linked(bulk.builders, store, current)
    ensures filled == WithDefaults(bulk.builders, 0, fill, store, current)
    ensures |mutators| == |bulk.builders| && forall k :: 0 <= k < |mutators| ==> mutators[k] == MutatorOf(bulk, k)
  {
    filled, mutators := store, [];
    for i := 0 to |bulk.builders|
      invariant Linked(bulk.builders, filled, current)
      invariant WithDefaults(bulk.builders, i, fill, filled, current) ==
        WithDefaults(bulk.builders, 0, fill, store, current)
      invariant |mutators| == i && forall k :: 0 <= k < i ==> mutators[k] == MutatorOf(bulk, k)
    {
      var ref := current[bulk.builders[i].ref];
      filled := Write(filled, ref, fill(i, filled[ref].data));
      var mut := WrapAll(bulk.builders[i].hooks);
      mutators := mutators + [mut];
    }
  }

  /**
   `Save`, for hooks of any behaviour: every batch is complete, and a returned list has no gap exactly when
   a batch was sent. Under faithful hooks a returned list is what the table ends in: its last rows and the
   returned nodes describe the same contents, one by one.
   */
  method Save<M, V, S>(bulk: Bulk<M, V, S>, err: Option<Error>, fill: (nat, M) -> M, b: Behaviour<M, V>,
                       store: Store<M>, current: map<nat, Ref>, rows: seq<S>)
      returns (nodes: Result<seq<Option<V>>>, st: State<M, V, S>)
    requires Linked(bulk.builders, store, current)
    ensures err.Some? ==> nodes == Failure(err.value) && st.store == store && st.rows == rows && st.batches == []
    ensures forall k :: 0 <= k < |st.batches| ==> Complete(bulk, st.batches[k])
    ensures st.rows == rows + Written(st.batches)
    ensures nodes.Success? && bulk.builders != [] ==>
      |nodes.value| == |bulk.builders| &&
      ((forall k :: 0 <= k < |nodes.value| ==> nodes.value[k].Some?) <==> st.batches != [])
    ensures nodes.Success? && bulk.builders != [] && Faithful(bulk.builders, 0, MutatorOf(bulk, 0), false, b) ==>
      Stored(st) && Returned(bulk, nodes.value, st.specs, st.rows)
    ensures err.None? && bulk.builders != [] ==>
      var r := Chain(bulk, b, Start(bulk, fill, store, current, rows));
      st == r.1 && nodes == if r.0.Fail? then Failure(r.0.error) else Success(r.1.nodes)
    ensures err.None? && bulk.builders == [] ==> nodes == Success([]) && st.store == store
  {
    var n := |bulk.builders|;
    if err.Some? {
      st := State(store, current, seq(n, _ => None), seq(n, _ => None), rows, []);
      return Failure(err.value), st;
    }
    var filled, mutators := BuildMutators(bulk, fill, store, current);
    st := State(filled, current, seq(n, _ => None), seq(n, _ => None), rows, []);
    if |mutators| > 0 {
      ghost var st0 := st;
      MutateKeeps(bulk, 0, mutators[0], Typed(current[bulk.builders[0].ref]), b, st);
      FaithfulStores(bulk, 0, mutators[0], Typed(current[bulk.builders[0].ref]), b, st);
      var r := Mutate(bulk, 0, mutators[0], Typed(current[bulk.builders[0].ref]), b, st);
      st := r.1;
      assert st.batches[|st0.batches|..] == st.batches;
      BatchMeansNoGap(bulk, st0, st);
      if r.0.Fail? {
        return Failure(r.0.error), st;
      }
      if Faithful(bulk.builders, 0, MutatorOf(bulk, 0), false, b) {
        StoredIsReturned(bulk, st);
      }
    }
    assert n == 0 ==> st.nodes == [];
    return Success(st.nodes), st;
  }

  /** Node `k` and the `k`-th of the last rows describe the contents that builder `k` saved. */
  ghost predicate Returned<M, V, S>(bulk: Bulk<M, V, S>, nodes: seq<Option<V>>, specs: seq<Option<Built<M, S>>>,
                                    rows: seq<S>)
  {
    var n := |bulk.builders|;
    |nodes| == n && |specs| == n && n <= |rows| &&
    forall k :: 0 <= k < n ==>
      specs[k].Some? && specs[k].value.owner == bulk.builders[k].ref &&
      nodes[k] == Some(bulk.ent.node(specs[k].value.data)) &&
      rows[|rows| - n + k] == bulk.ent.spec(specs[k].value.data)
  }

  lemma {:induction false} RowsOfFilled<M, S>(specs: seq<Option<Built<M, S>>>)
    requires forall k :: 0 <= k < |specs| ==> specs[k].Some?
    ensures |RowsOf(specs)| == |specs| && forall k :: 0 <= k < |specs| ==> RowsOf(specs)[k] == specs[k].value.spec
  {
    if specs != [] {
      assert forall k :: 0 <= k < |specs[1..]| ==> specs[1..][k] == specs[k + 1];
      RowsOfFilled(specs[1..]);
    }
  }

  lemma StoredIsReturned<M, V, S>(bulk: Bulk<M, V, S>, st: State<M, V, S>)
    requires Ready(bulk, st) && Matched(bulk, st) && Stored(st)
    requires Complete(bulk, st.batches[|st.batches| - 1])
    ensures Returned(bulk, st.nodes, st.specs, st.rows)
  {
    RowsOfFilled(st.specs);
    var n := |bulk.builders|;
    var added := st.rows[|st.rows| - n..];
    forall k | 0 <= k < n ensures st.rows[|st.rows| - n + k] == st.specs[k].value.spec {
      assert added[k] == st.specs[k].value.spec;
    }
  }

  /** A complete batch leaves no slot empty afterwards; without a batch the last slot stays empty. */
  lemma BatchMeansNoGap<M, V, S>(bulk: Bulk<M, V, S>, st0: State<M, V, S>, st: State<M, V, S>)
    requires bulk.builders != [] && Ready(bulk, st0) && Ready(bulk, st)
    requires st0.batches == [] && forall k :: 0 <= k < |bulk.builders| ==> st0.specs[k].None?
    requires Kept(bulk, 0, st0, st)
    ensures (forall k :: 0 <= k < |bulk.builders| ==> st.nodes[k].Some?) <==> st.batches != []
  {
    assert Matched(bulk, st);
  }
}
