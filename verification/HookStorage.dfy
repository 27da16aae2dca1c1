/**
 Go slices with their sharing, and the hook lists of the clients built from them.

 A builder keeps the slice that `Hooks()` returned when it was created. For most clients that is the
 client's own slice, so builder and client share one backing array that later `Use` calls may write to.
 */
module HookStorage {
  import opened Middleware

  /** The slice `arr[:len:cap]`. */
  datatype Slice<!T> = Slice(arr: array<T>, len: nat, cap: nat) {

    predicate Valid() { len <= cap <= arr.Length }

    /** The elements a reader of the slice sees. */
    function View(): seq<T>
      requires Valid()
      reads arr
    {
      arr[..len]
    }

    /** The full slice expression `s[:len(s):len(s)]`, which gives up the spare capacity. */
    function Clip(): Slice<T> {
      Slice(arr, len, len)
    }
  }

  /**
   `append(s, xs...)`: in place while the capacity suffices, otherwise into a new array. `spare` is the
   extra capacity the runtime chooses when it grows.
   */
  method Append<T(0)>(s: Slice<T>, xs: seq<T>, spare: nat) returns (r: Slice<T>)
    requires s.Valid()
    modifies s.arr
    ensures r.Valid() && r.len == s.len + |xs|
    ensures r.View() == old(s.View()) + xs
    ensures if s.len + |xs| <= s.cap then r.arr == s.arr && r.cap == s.cap
      else fresh(r.arr) && r.cap == s.len + |xs| + spare
    ensures forall i :: 0 <= i < s.arr.Length && (i < s.len || i >= s.len + |xs|) ==> s.arr[i] == old(s.arr[i])
    ensures s.len + |xs| > s.cap ==> forall i :: 0 <= i < s.arr.Length ==> s.arr[i] == old(s.arr[i])
  {
    var n := s.len + |xs|;
    if n <= s.cap {
      r := Slice(s.arr, n, s.cap);
    } else {
      var arr := new T[n + spare];
      for i := 0 to s.len
        invariant forall j :: 0 <= j < i ==> arr[j] == s.arr[j]
        invariant forall i :: 0 <= i < s.arr.Length ==> s.arr[i] == old(s.arr[i])
      {
        arr[i] := s.arr[i];
      }
      r := Slice(arr, n, n + spare);
    }
    for i := 0 to |xs|
      invariant r.arr[..s.len] == old(s.arr[..s.len])
      invariant forall j :: 0 <= j < i ==> r.arr[s.len + j] == xs[j]
      invariant forall i :: 0 <= i < s.arr.Length && (i < s.len || i >= n) ==> s.arr[i] == old(s.arr[i])
      invariant r.arr != s.arr ==> forall i :: 0 <= i < s.arr.Length ==> s.arr[i] == old(s.arr[i])
    {
      r.arr[s.len + i] := xs[i];
    }
    assert r.arr[..n] == old(s.arr[..s.len]) + xs;
  }

  /** A slice handed to a builder, and what it read when it was handed out. */
  datatype Snapshot = Snapshot(slice: Slice<Hook>, value: seq<Hook>)

  /** What an application does with a client. */
  datatype Op = Use(hooks: seq<Hook>) | Create

  /** The hook list of one entity client; `schema` are the hooks its schema declares. */
  class Client {
    const schema: seq<Hook>
    var hooks: Slice<Hook>
    ghost var registered: seq<Hook>
    ghost var snapshots: seq<Snapshot>

    ghost predicate Valid()
      reads this, hooks.arr, set i | 0 <= i < |snapshots| :: snapshots[i].slice.arr
    {
      hooks.Valid() && hooks.View() == registered &&
      forall i :: 0 <= i < |snapshots| ==> Stable(snapshots[i])
    }

    /** The snapshot still reads as it did, and lies in the part of a shared array that is never rewritten. */
    ghost predicate Stable(s: Snapshot)
      reads this, s.slice.arr
    {
      s.slice.Valid() && s.slice.View() == s.value &&
      (s.slice.arr == hooks.arr ==> s.slice.len <= hooks.len)
    }

    constructor (schema: seq<Hook>)
      ensures Valid() && fresh(hooks.arr) && this.schema == schema && registered == [] && snapshots == []
    {
      this.schema := schema;
      var empty := new Hook[0];
      hooks := Slice(empty, 0, 0);
      registered, snapshots := [], [];
    }

    /** `c.hooks.X = append(c.hooks.X, hooks...)`. */
    method Use(hs: seq<Hook>, spare: nat)
      requires Valid()
      modifies this, hooks.arr
      ensures Valid() && registered == old(registered) + hs && snapshots == old(snapshots)
      ensures hooks.arr == old(hooks.arr) || fresh(hooks.arr)
    {
      ghost var before := hooks;
      hooks := Append(hooks, hs, spare);
      registered := registered + hs;
      forall i | 0 <= i < |snapshots| ensures Stable(snapshots[i]) {
        assert old(Stable(snapshots[i]));
        var s := snapshots[i].slice;
        assert s.arr[..s.len] == old(s.arr[..s.len]);
      }
    }

    /**
     `Create`, keeping `Hooks()`: the client's own slice, or, where the schema declares hooks, a clipped
     slice with those appended.
     */
    method Create(spare: nat) returns (s: Slice<Hook>)
      requires Valid()
      modifies this`snapshots, hooks.arr
      ensures Valid() && hooks == old(hooks) && registered == old(registered)
      ensures snapshots == old(snapshots) + [Snapshot(s, registered + schema)]
      ensures s.Valid() && s.View() == registered + schema
      ensures hooks.arr[..] == old(hooks.arr[..])
      ensures s.arr == hooks.arr || fresh(s.arr)
    {
      if |schema| == 0 {
        s := hooks;
      } else {
        s := Append(hooks.Clip(), schema, spare);
      }
      assert forall i :: 0 <= i < |snapshots| ==> old(Stable(snapshots[i])) && Stable(snapshots[i]) by {
        forall i | 0 <= i < |snapshots| ensures old(Stable(snapshots[i])) && Stable(snapshots[i]) {
          var x := snapshots[i].slice;
          assert x.arr[..x.len] == old(x.arr[..x.len]);
        }
      }
      snapshots := snapshots + [Snapshot(s, registered + schema)];
    }
  }

  /** The hooks each builder should hold, given the history of the client. */
  function Expected(ops: seq<Op>, registered: seq<Hook>, schema: seq<Hook>): seq<seq<Hook>> {
    if ops == [] then []
    else match ops[0]
      case Use(hs) => Expected(ops[1..], registered + hs, schema)
      case Create => [registered + schema] + Expected(ops[1..], registered, schema)
  }

  ghost function Values(s: seq<Snapshot>): seq<seq<Hook>> {
    seq(|s|, i requires 0 <= i < |s| => s[i].value)
  }

  /** After `k` operations: the slices are those of the snapshots, and the snapshots are as expected so far. */
  ghost predicate OnTrack(ops: seq<Op>, k: nat, slices: seq<Slice<Hook>>, snapshots: seq<Snapshot>,
                          registered: seq<Hook>, schema: seq<Hook>)
    requires k <= |ops|
  {
    |slices| == |snapshots| && (forall i :: 0 <= i < |slices| ==> snapshots[i].slice == slices[i]) &&
    Values(snapshots) + Expected(ops[k..], registered, schema) == Expected(ops, [], schema)
  }

  lemma TrackUse(ops: seq<Op>, k: nat, slices: seq<Slice<Hook>>, snapshots: seq<Snapshot>, registered: seq<Hook>,
                 schema: seq<Hook>)
    requires k < |ops| && ops[k].Use? && OnTrack(ops, k, slices, snapshots, registered, schema)
    ensures OnTrack(ops, k + 1, slices, snapshots, registered + ops[k].hooks, schema)
  {
    assert ops[k..][0] == ops[k] && ops[k..][1..] == ops[k + 1..];
  }

  lemma TrackCreate(ops: seq<Op>, k: nat, slices: seq<Slice<Hook>>, snapshots: seq<Snapshot>, registered: seq<Hook>,
                    schema: seq<Hook>, s: Slice<Hook>)
    requires k < |ops| && ops[k].Create? && OnTrack(ops, k, slices, snapshots, registered, schema)
    ensures OnTrack(ops, k + 1, slices + [s], snapshots + [Snapshot(s, registered + schema)], registered, schema)
  {
    assert ops[k..][0] == ops[k] && ops[k..][1..] == ops[k + 1..];
    assert Values(snapshots + [Snapshot(s, registered + schema)]) == Values(snapshots) + [registered + schema];
  }

  /** Runs a history against a new client, keeping the slice of every builder. */
  method Play(schema: seq<Hook>, ops: seq<Op>, spare: seq<nat>) returns (client: Client, slices: seq<Slice<Hook>>)
    requires |spare| == |ops|
    ensures client.Valid() && OnTrack(ops, |ops|, slices, client.snapshots, client.registered, schema)
  {
    client := new Client(schema);
    slices := [];
    for k := 0 to |ops|
      invariant client.Valid() && client.schema == schema
      invariant fresh(client) && fresh(client.hooks.arr)
      invariant OnTrack(ops, k, slices, client.snapshots, client.registered, schema)
    {
      match ops[k]
      case Use(hs) =>
        TrackUse(ops, k, slices, client.snapshots, client.registered, schema);
        client.Use(hs, spare[k]);
      case Create =>
        ghost var snapshots, registered := client.snapshots, client.registered;
        var s := client.Create(spare[k]);
        TrackCreate(ops, k, slices, snapshots, registered, schema, s);
        slices := slices + [s];
    }
  }

  /**
   For every interleaving of `Use` and `Create`, and however the runtime grows its arrays, each builder in
   the end still reads the hooks registered when it was created, followed by the schema hooks.
   */
  method Interleave(schema: seq<Hook>, ops: seq<Op>, spare: seq<nat>) returns (held: seq<seq<Hook>>)
    requires |spare| == |ops|
    ensures held == Expected(ops, [], schema)
  {
    var client, slices := Play(schema, ops, spare);
    held := [];
    for i := 0 to |slices|
      invariant |held| == i && forall j :: 0 <= j < i ==> held[j] == client.snapshots[j].value
    {
      assert client.Stable(client.snapshots[i]);
      held := held + [slices[i].View()];
    }
    assert held == Values(client.snapshots);
    assert ops[|ops|..] == [];
  }

  /** Registering in two calls or in one makes no difference to any later builder. */
  lemma UseSplits(fs: seq<Hook>, gs: seq<Hook>, rest: seq<Op>, registered: seq<Hook>, schema: seq<Hook>)
    ensures Expected([Use(fs), Use(gs)] + rest, registered, schema) ==
      Expected([Use(fs + gs)] + rest, registered, schema)
  {
    var two, one := [Use(fs), Use(gs)] + rest, [Use(fs + gs)] + rest;
    assert two[1..] == [Use(gs)] + rest && two[1..][1..] == rest && one[1..] == rest;
    assert registered + fs + gs == registered + (fs + gs);
  }

  /**
   Why `Hooks()` clips before it appends: with spare capacity left in the slice, the schema hook would be
   written into the client's array, and the next `Use` would overwrite it under the builder.
   */
  method UnclippedSnapshotBreaks(f: Hook, g: Hook, schemaHook: Hook) returns (before: seq<Hook>, after: seq<Hook>)
    ensures before == [f, schemaHook] && after == [f, g]
  {
    var empty := new Hook[0];
    var hooks := Slice(empty, 0, 0);
    hooks := Append(hooks, [f], 1);
    var snapshot := Append(hooks, [schemaHook], 0);
    before := snapshot.View();
    hooks := Append(hooks, [g], 0);
    after := snapshot.View();
    assert snapshot.arr == hooks.arr;
    assert after == hooks.View();
  }
}
