/**
 Updating the "reports" edge of a group: the mutation collects ids, `sqlSave` turns them into clear and
 add steps, and the steps run against the nullable `group_id` of the reports table.
 */
module EdgePlan {
  import opened Prelude

  /** `group_id` of every report. */
  type Reports = map<Uuid, Option<Uuid>>

  function Of(table: Reports, group: Uuid): set<Uuid> {
    set r | r in table && table[r] == Some(group)
  }

  // ---------------------------------------------------------------- the mutation

  datatype Call = Add(ids: seq<Uuid>) | Remove(ids: seq<Uuid>) | Clear

  datatype Pending = Pending(added: set<Uuid>, removed: set<Uuid>, cleared: bool)

  function Elements(ids: seq<Uuid>): set<Uuid> {
    set x | x in ids
  }

  function Record(p: Pending, c: Call): Pending {
    match c
    case Add(ids) => p.(added := p.added + Elements(ids))
    case Remove(ids) => p.(added := p.added - Elements(ids), removed := p.removed + Elements(ids))
    case Clear => p.(cleared := true)
  }

  function RecordAll(calls: seq<Call>): Pending {
    if calls == [] then Pending({}, {}, false)
    else Record(RecordAll(calls[..|calls| - 1]), calls[|calls| - 1])
  }

  /** The sets `reports` and `removedreports` and the flag `clearedreports` of `GroupChatMutation`. */
  class Mutation {
    var added: set<Uuid>
    var removed: set<Uuid>
    var cleared: bool

    ghost function State(): Pending
      reads this
    {
      Pending(added, removed, cleared)
    }

    constructor ()
      ensures State() == RecordAll([])
    {
      added, removed, cleared := {}, {}, false;
    }

    method AddReportIDs(ids: seq<Uuid>)
      modifies this
      ensures State() == Record(old(State()), Add(ids))
      ensures added == old(added) + (set x | x in ids) && removed == old(removed) && cleared == old(cleared)
    {
      for i := 0 to |ids|
        invariant State() == Record(old(State()), Add(ids[..i]))
      {
        assert Elements(ids[..i + 1]) == Elements(ids[..i]) + {ids[i]};
        added := added + {ids[i]};
      }
      assert ids[..|ids|] == ids;
    }

    method RemoveReportIDs(ids: seq<Uuid>)
      modifies this
      ensures State() == Record(old(State()), Remove(ids))
      ensures added == old(added) - (set x | x in ids) && removed == old(removed) + (set x | x in ids)
      ensures cleared == old(cleared)
    {
      for i := 0 to |ids|
        invariant State() == Record(old(State()), Remove(ids[..i]))
      {
        assert Elements(ids[..i + 1]) == Elements(ids[..i]) + {ids[i]};
        added := added - {ids[i]};
        removed := removed + {ids[i]};
      }
      assert ids[..|ids|] == ids;
    }

    method ClearReports()
      modifies this
      ensures State() == Record(old(State()), Clear)
      ensures added == old(added) && removed == old(removed) && cleared
    {
      cleared := true;
    }

    /** The part of `sqlSave` that appends to `_spec.Edges.Clear` and `_spec.Edges.Add`. */
    method Plan() returns (plan: Steps)
      ensures IsPlan(State(), plan)
    {
      var clear: seq<seq<Uuid>> := [];
      var add: seq<seq<Uuid>> := [];
      if cleared {
        clear := clear + [[]];
      }
      var ids := Listing(removed);
      if |ids| > 0 && !cleared {
        clear := clear + [ids];
      }
      ids := Listing(added);
      if |ids| > 0 {
        add := add + [ids];
      }
      plan := Steps(clear, add);
    }
  }

  /** Ranging over a Go map: every key once, in no particular order. */
  method Listing(s: set<Uuid>) returns (ids: seq<Uuid>)
    ensures Elements(ids) == s && |ids| == |s|
  {
    ids := [];
    var left := s;
    while left != {}
      invariant left <= s && Elements(ids) == s - left && |ids| == |s| - |left|
    {
      var x :| x in left;
      assert Elements(ids + [x]) == Elements(ids) + {x};
      ids := ids + [x];
      left := left - {x};
    }
  }

  // ---------------------------------------------------------------- the plan

  /** Clear steps and add steps; a clear step without ids means the whole edge. */
  datatype Steps = Steps(clear: seq<seq<Uuid>>, add: seq<seq<Uuid>>)

  ghost predicate IsPlan(p: Pending, plan: Steps) {
    (if p.cleared then plan.clear == [[]]
     else if p.removed == {} then plan.clear == []
     else |plan.clear| == 1 && plan.clear[0] != [] && Elements(plan.clear[0]) == p.removed) &&
    (if p.added == {} then plan.add == [] else |plan.add| == 1 && Elements(plan.add[0]) == p.added)
  }

  /** `UPDATE reports SET group_id = NULL WHERE group_id = g [AND id IN ids]`. */
  function ClearStep(table: Reports, group: Uuid, ids: seq<Uuid>): Reports {
    map r | r in table :: if table[r] == Some(group) && (ids == [] || r in ids) then None else table[r]
  }

  /** `UPDATE reports SET group_id = g WHERE id IN ids AND group_id IS NULL`, refused unless it hits every id. */
  function AddStep(table: Reports, group: Uuid, ids: seq<Uuid>): Result<Reports> {
    if forall x :: x in ids ==> x in table && table[x].None?
    then Success(map r | r in table :: if r in ids then Some(group) else table[r])
    else Failure(ConstraintError(0))
  }

  function ClearAll(table: Reports, group: Uuid, steps: seq<seq<Uuid>>): Reports {
    if steps == [] then table else ClearAll(ClearStep(table, group, steps[0]), group, steps[1..])
  }

  function AddAll(table: Reports, group: Uuid, steps: seq<seq<Uuid>>): Result<Reports> {
    if steps == [] then Success(table)
    else match AddStep(table, group, steps[0])
      case Failure(e) => Failure(e)
      case Success(t) => AddAll(t, group, steps[1..])
  }

  /** The update runs in one transaction: clears, then adds. */
  function Execute(table: Reports, group: Uuid, plan: Steps): Result<Reports> {
    AddAll(ClearAll(table, group, plan.clear), group, plan.add)
  }

  /** The reports of the group once the clear steps have run. */
  function Kept(table: Reports, group: Uuid, p: Pending): set<Uuid> {
    if p.cleared then {} else Of(table, group) - p.removed
  }

  lemma ClearAllResult(table: Reports, group: Uuid, p: Pending, plan: Steps)
    requires IsPlan(p, plan)
    ensures var t := ClearAll(table, group, plan.clear);
      t.Keys == table.Keys &&
      forall r :: r in table ==>
        t[r] == if table[r] == Some(group) && r !in Kept(table, group, p) then None else table[r]
  {
    if plan.clear != [] {
      assert plan.clear[1..] == [];
      assert ClearAll(table, group, plan.clear) == ClearStep(table, group, plan.clear[0]);
      forall r | r in table
        ensures (plan.clear[0] == [] || r in plan.clear[0]) <==> p.cleared || r in p.removed
      {
        assert !p.cleared ==> (r in plan.clear[0] <==> r in Elements(plan.clear[0]));
      }
    }
  }

  lemma AddAllOne(table: Reports, group: Uuid, steps: seq<seq<Uuid>>)
    requires |steps| == 1
    ensures AddAll(table, group, steps) == AddStep(table, group, steps[0])
  {
    var r := AddStep(table, group, steps[0]);
    assert steps[1..] == [];
    if r.Success? {
      assert AddAll(r.value, group, []) == Success(r.value);
    }
  }

  /**
   The plan implements set algebra. It succeeds exactly when every added report exists and is free once
   the clears have run; then the group has what it kept plus what was added, no other group changes, and
   every report the plan does not name keeps its group.
   */
  lemma PlanIsSetAlgebra(table: Reports, group: Uuid, p: Pending, plan: Steps)
    requires IsPlan(p, plan)
    ensures var r := Execute(table, group, plan);
      (r.Success? <==>
        forall x :: x in p.added ==>
          x in table && (table[x].None? || (table[x] == Some(group) && x !in Kept(table, group, p)))) &&
      (r.Failure? ==> r.error.ConstraintError?) &&
      (r.Success? ==>
        r.value.Keys == table.Keys &&
        Of(r.value, group) == Kept(table, group, p) + p.added &&
        (forall g :: g != group ==> Of(r.value, g) == Of(table, g)) &&
        (forall x :: x in table && x !in p.added && x !in p.removed && !p.cleared ==> r.value[x] == table[x]))
  {
    ClearAllResult(table, group, p, plan);
    var t := ClearAll(table, group, plan.clear);
    var r := Execute(table, group, plan);
    if p.added == {} {
      assert r == Success(t);
    } else {
      AddAllOne(t, group, plan.add);
      assert r == AddStep(t, group, plan.add[0]);
      assert forall x :: x in plan.add[0] <==> x in Elements(plan.add[0]);
    }
    if r.Success? {
      assert forall x :: x in r.value <==> x in table;
      forall x | x in table ensures r.value[x] == if x in p.added then Some(group) else t[x] { }
      assert p.added <= table.Keys;
      assert Of(r.value, group) == Kept(table, group, p) + p.added;
      forall g | g != group ensures Of(r.value, g) == Of(table, g) {
        forall x ensures x in Of(r.value, g) <==> x in Of(table, g) { }
      }
    }
  }

  // ---------------------------------------------------------------- what the calls seem to say

  /** The calls read one after the other, as operations on the edge. */
  function Sequential(start: set<Uuid>, calls: seq<Call>): set<Uuid> {
    if calls == [] then start
    else
      var before := Sequential(start, calls[..|calls| - 1]);
      match calls[|calls| - 1]
      case Add(ids) => before + Elements(ids)
      case Remove(ids) => before - Elements(ids)
      case Clear => {}
  }

  /** What the update leaves: the mutation forgets the order of `Clear` and the other calls. */
  function Collected(start: set<Uuid>, calls: seq<Call>): set<Uuid> {
    var p := RecordAll(calls);
    (if p.cleared then {} else start - p.removed) + p.added
  }

  predicate NoClear(calls: seq<Call>) {
    forall i :: 0 <= i < |calls| ==> !calls[i].Clear?
  }

  /** The ids that the calls name. */
  function Named(calls: seq<Call>): set<Uuid> {
    if calls == [] then {}
    else Named(calls[..|calls| - 1]) +
         (match calls[|calls| - 1] case Add(ids) => Elements(ids) case Remove(ids) => Elements(ids) case Clear => {})
  }

  /** Without `Clear`, adds and removes in any order leave what they say. */
  lemma {:induction false} OrderIsKept(start: set<Uuid>, calls: seq<Call>)
    requires NoClear(calls)
    ensures !RecordAll(calls).cleared
    ensures Collected(start, calls) == Sequential(start, calls)
  {
    if calls != [] {
      var n := |calls| - 1;
      OrderIsKept(start, calls[..n]);
      assert calls[n] == calls[..][n] && !calls[n].Clear?;
    }
  }

  predicate Names(c: Call, x: Uuid) {
    !c.Clear? && x in c.ids
  }

  /** The last call that names the report adds it. */
  ghost predicate LastAdds(calls: seq<Call>, x: Uuid) {
    exists i :: LastWith(calls, i, c => Names(c, x)) && calls[i].Add?
  }

  predicate Unnamed(calls: seq<Call>, x: Uuid) {
    NoneWith(calls, c => Names(c, x))
  }

  lemma LastAddsStep(calls: seq<Call>, x: Uuid)
    requires calls != []
    ensures var n := |calls| - 1;
      (LastAdds(calls, x) <==> if Names(calls[n], x) then calls[n].Add? else LastAdds(calls[..n], x)) &&
      (Unnamed(calls, x) <==> !Names(calls[n], x) && Unnamed(calls[..n], x))
  {
    var n, names := |calls| - 1, (c: Call) => Names(c, x);
    LastWithStep(calls, names);
    if Names(calls[n], x) {
      assert LastWith(calls, n, names);
    } else {
      forall i ensures LastWith(calls, i, names) && calls[i].Add? <==>
          LastWith(calls[..n], i, names) && calls[..n][i].Add? {
        assert LastWith(calls, i, names) <==> LastWith(calls[..n], i, names);
      }
    }
  }

  lemma NoClearStep(calls: seq<Call>)
    requires calls != []
    ensures NoClear(calls) <==> NoClear(calls[..|calls| - 1]) && !calls[|calls| - 1].Clear?
  {
    assert forall i :: 0 <= i < |calls| - 1 ==> calls[..|calls| - 1][i] == calls[i];
  }

  /** What is pending for one report: its last call decides about adding; a later addition outdoes a removal. */
  lemma {:induction false} PendingFor(calls: seq<Call>, x: Uuid)
    ensures var p := RecordAll(calls);
      (x in p.added <==> LastAdds(calls, x)) && (x in p.removed ==> !Unnamed(calls, x)) &&
      (!Unnamed(calls, x) ==> x in p.added || x in p.removed) && (p.cleared <==> !NoClear(calls))
    decreases |calls|
  {
    if calls != [] {
      var n := |calls| - 1;
      PendingFor(calls[..n], x);
      LastAddsStep(calls, x);
      NoClearStep(calls);
      assert RecordAll(calls) == Record(RecordAll(calls[..n]), calls[n]);
    }
  }

  /**
   The whole update, for any calls: a report is in the group afterwards exactly when the last call that names
   it adds it, or no call names it, there was no `Clear`, and it was in the group before.
   */
  lemma LastCallDecides(table: Reports, group: Uuid, calls: seq<Call>, plan: Steps, x: Uuid)
    requires IsPlan(RecordAll(calls), plan) && Execute(table, group, plan).Success? && x in table
    ensures var r := Execute(table, group, plan).value;
      x in r && (r[x] == Some(group) <==>
        LastAdds(calls, x) || (Unnamed(calls, x) && NoClear(calls) && table[x] == Some(group)))
  {
    var r, p := Execute(table, group, plan).value, RecordAll(calls);
    PlanIsSetAlgebra(table, group, p, plan);
    PendingFor(calls, x);
    assert r[x] == Some(group) <==> x in Of(r, group);
  }

  lemma {:induction false} AfterClear(a: seq<Call>, b: seq<Call>)
    requires NoClear(b)
    ensures RecordAll(a + [Clear] + b).cleared
    ensures RecordAll(a + [Clear] + b).added == (RecordAll(a).added - Named(b)) + RecordAll(b).added
    ensures RecordAll(b).added <= Named(b)
    ensures Sequential({}, b) == RecordAll(b).added
  {
    var all := a + [Clear] + b;
    if b == [] {
      assert all[..|all| - 1] == a;
    } else {
      var n := |b| - 1;
      assert all[..|all| - 1] == a + [Clear] + b[..n] && all[|all| - 1] == b[n];
      AfterClear(a, b[..n]);
      assert !b[n].Clear?;
    }
  }

  lemma {:induction false} SequentialAppend(start: set<Uuid>, a: seq<Call>, b: seq<Call>)
    ensures Sequential(start, a + b) == Sequential(Sequential(start, a), b)
    decreases |b|
  {
    if b == [] {
      assert a + b == a;
    } else {
      var n := |b| - 1;
      assert (a + b)[..|a + b| - 1] == a + b[..n] && (a + b)[|a + b| - 1] == b[n];
      SequentialAppend(start, a, b[..n]);
    }
  }

  /**
   `Clear` does not cancel adds made before it. The update agrees with the calls read in order exactly
   when every id still waiting to be added at the last `Clear` is named again by a later call.
   */
  lemma ClearKeepsEarlierAddsIff(start: set<Uuid>, a: seq<Call>, b: seq<Call>)
    requires NoClear(b)
    ensures var calls := a + [Clear] + b;
      Collected(start, calls) == Sequential(start, calls) <==> RecordAll(a).added <= Named(b)
  {
    var calls := a + [Clear] + b;
    AfterClear(a, b);
    SequentialAppend(start, a + [Clear], b);
    assert (a + [Clear])[..|a|] == a;
    assert Sequential(start, calls) == RecordAll(b).added;
    assert Collected(start, calls) == (RecordAll(a).added - Named(b)) + RecordAll(b).added;
  }
}
