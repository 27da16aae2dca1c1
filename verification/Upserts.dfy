/**
 Upserts. `UpdateNewValues` queues two conflict options; the second is a closure that looks at the
 mutation only when the statement is built, after `defaults` has run.
 */
module Upserts {
  import opened Prelude
  import opened Codec
  import Members
  import Chats

  /** The right-hand side of one assignment in `DO UPDATE SET`. */
  datatype Expr = Excluded | Itself | Literal(v: Datum) | Plus(n: int)

  /** An option in `conflict`. `IgnoreFixed` is the closure of `UpdateNewValues`. */
  datatype Choice = Target(columns: seq<Column>) | NewValues | IgnoreFixed | Set(column: Column, expr: Expr)

  type Sets = map<Column, Expr>

  /** `UpdateSet`: setting a column again replaces the earlier assignment. */
  function SetExcluded(sets: Sets, spec: Record): Sets {
    map c | c in sets.Keys + spec.Keys :: if c in spec then Excluded else sets[c]
  }

  /** The closure: each fixed column that the mutation has by now is set to itself. */
  function SetIgnore(sets: Sets, fixed: seq<Column>, mutation: Record): Sets {
    map c | c in sets.Keys + (set d | d in fixed && d in mutation) ::
      if c in fixed && c in mutation then Itself else sets[c]
  }

  function Apply(sets: Sets, choice: Choice, fixed: seq<Column>, spec: Record): Sets {
    match choice
    case Target(_) => sets
    case NewValues => SetExcluded(sets, spec)
    case IgnoreFixed => SetIgnore(sets, fixed, spec)
    case Set(c, e) => sets[c := e]
  }

  /** All options in order, given the columns of the INSERT. */
  function Resolve(choices: seq<Choice>, fixed: seq<Column>, spec: Record): Sets {
    if choices == [] then map[]
    else Apply(Resolve(choices[..|choices| - 1], fixed, spec), choices[|choices| - 1], fixed, spec)
  }

  function Evaluate(e: Expr, current: Datum, excluded: Datum): Datum {
    match e
    case Excluded => excluded
    case Itself => current
    case Literal(v) => v
    case Plus(n) => (match current case AsInt(i) => AsInt(i + n) case _ => AsInt(n))
  }

  /** The conflicting row after the statement. */
  function Merge(existing: Record, spec: Record, sets: Sets): Record {
    map c | c in existing ::
      if c in sets then Evaluate(sets[c], existing[c], if c in spec then spec[c] else Null) else existing[c]
  }

  /** The create builder and its `OnConflict` chain. */
  class Upsert {
    const fixed: seq<Column>
    var proposed: Record
    var conflict: seq<Choice>

    constructor (fixed: seq<Column>, proposed: Record)
      ensures this.fixed == fixed && this.proposed == proposed && conflict == []
    {
      this.fixed, this.proposed, conflict := fixed, proposed, [];
    }

    /** `OnConflict` replaces the options. */
    method OnConflict(opts: seq<Choice>)
      modifies this`conflict
      ensures conflict == opts
    {
      conflict := opts;
    }

    method OnConflictColumns(columns: seq<Column>)
      modifies this`conflict
      ensures conflict == old(conflict) + [Target(columns)]
    {
      conflict := conflict + [Target(columns)];
    }

    method UpdateNewValues()
      modifies this`conflict
      ensures conflict == old(conflict) + [NewValues, IgnoreFixed]
    {
      conflict := conflict + [NewValues];
      conflict := conflict + [IgnoreFixed];
    }

    method Update(c: Column, e: Expr)
      modifies this`conflict
      ensures conflict == old(conflict) + [Set(c, e)]
    {
      conflict := conflict + [Set(c, e)];
    }

    /**
     `Exec` against a conflicting row: an error without options; else defaults, then the hooks, which leave
     the mutation as `hooked` says, then the check, and then the options in order.
     */
    method Exec(defaults: Record, hooked: Record -> Record, check: Record -> Option<Error>, existing: Record)
      returns (row: Result<Record>)
      modifies this`proposed
      ensures conflict == [] ==> row == Failure(DriverError(0)) && proposed == old(proposed)
      ensures conflict != [] ==>
        proposed == hooked(defaults + old(proposed)) &&
        row == match check(proposed)
          case Some(e) => Failure(e)
          case None => Success(Merge(existing, proposed, Resolve(conflict, fixed, proposed)))
    {
      if |conflict| == 0 {
        return Failure(DriverError(0));
      }
      proposed := hooked(defaults + proposed);
      var invalid := check(proposed);
      if invalid.Some? {
        return Failure(invalid.value);
      }
      var sets: Sets := map[];
      for i := 0 to |conflict|
        invariant sets == Resolve(conflict[..i], fixed, proposed)
      {
        assert conflict[..i + 1][..i] == conflict[..i];
        sets := Apply(sets, conflict[i], fixed, proposed);
      }
      assert conflict[..|conflict|] == conflict;
      row := Success(Merge(existing, proposed, sets));
    }
  }

  // ---------------------------------------------------------------- what an upsert preserves

  /** What one option says about a column, if anything. */
  function Says(choice: Choice, fixed: seq<Column>, spec: Record, c: Column): Option<Expr> {
    match choice
    case Target(_) => None
    case NewValues => if c in spec then Some(Excluded) else None
    case IgnoreFixed => if c in fixed && c in spec then Some(Itself) else None
    case Set(d, e) => if c == d then Some(e) else None
  }

  lemma ApplySays(sets: Sets, choice: Choice, fixed: seq<Column>, spec: Record, c: Column)
    ensures var sets' := Apply(sets, choice, fixed, spec);
      match Says(choice, fixed, spec, c)
      case Some(e) => c in sets' && sets'[c] == e
      case None => (c in sets' <==> c in sets) && (c in sets ==> sets'[c] == sets[c])
  {
  }

  /** For any list of options, the last one that says something about a column decides. */
  lemma {:induction false} LastWordDecides(choices: seq<Choice>, fixed: seq<Column>, spec: Record, c: Column)
    ensures var sets := Resolve(choices, fixed, spec);
      var about := (o: Choice) => Says(o, fixed, spec, c).Some?;
      (c !in sets <==> NoneWith(choices, about)) &&
      forall i :: LastWith(choices, i, about) ==> c in sets && Some(sets[c]) == Says(choices[i], fixed, spec, c)
    decreases |choices|
  {
    if choices != [] {
      var n := |choices| - 1;
      LastWordDecides(choices[..n], fixed, spec, c);
      LastWithStep(choices, (o: Choice) => Says(o, fixed, spec, c).Some?);
      ApplySays(Resolve(choices[..n], fixed, spec), choices[n], fixed, spec, c);
    }
  }

  /** Overrides that leave the fixed columns alone, as all typed setters do. */
  predicate Overrides(choices: seq<Choice>, fixed: seq<Column>) {
    forall i :: 0 <= i < |choices| ==> choices[i].Set? && choices[i].column !in fixed
  }

  /** The last override of a column, if any. */
  function LastOverride(choices: seq<Choice>, c: Column): Option<Expr> {
    if choices == [] then None
    else
      var last := choices[|choices| - 1];
      if last.Set? && last.column == c then Some(last.expr) else LastOverride(choices[..|choices| - 1], c)
  }

  lemma {:induction false} ResolveOverrides(before: seq<Choice>, choices: seq<Choice>, fixed: seq<Column>,
                                            spec: Record, c: Column)
    requires Overrides(choices, fixed)
    ensures var base, all := Resolve(before, fixed, spec), Resolve(before + choices, fixed, spec);
      match LastOverride(choices, c)
      case Some(e) => c in all && all[c] == e
      case None => (c in all <==> c in base) && (c in base ==> all[c] == base[c])
    decreases |choices|
  {
    var all := before + choices;
    if choices == [] {
      assert all == before;
    } else {
      var n := |choices| - 1;
      assert all[..|all| - 1] == before + choices[..n] && all[|all| - 1] == choices[n];
      ResolveOverrides(before, choices[..n], fixed, spec, c);
    }
  }

  /** `UpdateNewValues()` after some options and before others. */
  function Options(before: seq<Choice>, after: seq<Choice>): seq<Choice> {
    before + [NewValues, IgnoreFixed] + after
  }

  lemma HeadResolved(before: seq<Choice>, fixed: seq<Column>, spec: Record)
    ensures Resolve(before + [NewValues, IgnoreFixed], fixed, spec) ==
      SetIgnore(SetExcluded(Resolve(before, fixed, spec), spec), fixed, spec)
  {
    var one := before + [NewValues];
    var two := before + [NewValues, IgnoreFixed];
    assert one[..|before|] == before && two[..|before| + 1] == one;
    assert Resolve(one, fixed, spec) == SetExcluded(Resolve(before, fixed, spec), spec);
  }

  /** An option other than an override does not reach a column that is not proposed. */
  lemma {:induction false} ResolveUnproposed(choices: seq<Choice>, fixed: seq<Column>, spec: Record, c: Column)
    requires c !in spec
    ensures var all := Resolve(choices, fixed, spec);
      match LastOverride(choices, c)
      case Some(e) => c in all && all[c] == e
      case None => c !in all
    decreases |choices|
  {
    if choices != [] {
      ResolveUnproposed(choices[..|choices| - 1], fixed, spec, c);
    }
  }

  /** What an override makes of a column: the stored value, another, or the stored counter raised. */
  function Overridden(e: Expr, stored: Datum, proposed: Option<Datum>): Datum {
    match e
    case Itself => stored
    case Literal(v) => v
    case Excluded => if proposed.Some? then proposed.value else Null
    case Plus(n) => AsInt(n + if stored.AsInt? then stored.i else 0)
  }

  /** What a column of the conflicting row becomes. */
  function After(before: seq<Choice>, after: seq<Choice>, fixed: seq<Column>, spec: Record, existing: Record,
                 c: Column): Datum
    requires c in existing
  {
    var proposed := if c in spec then Some(spec[c]) else None;
    if c in fixed then existing[c]
    else match (LastOverride(after, c), proposed, LastOverride(before, c))
      case (Some(e), _, _) => Overridden(e, existing[c], proposed)
      case (None, Some(v), _) => v
      case (None, None, Some(e)) => Overridden(e, existing[c], None)
      case (None, None, None) => existing[c]
  }

  /**
   Wherever `UpdateNewValues` stands among the options, as long as only overrides follow it: the fixed columns
   of the conflicting row survive every proposal and every earlier option; any other column takes its last
   later override, else the proposed value; and only a column that is not proposed takes its last earlier
   override, or stays.
   */
  lemma UpdateNewValuesResult(before: seq<Choice>, after: seq<Choice>, fixed: seq<Column>, spec: Record,
                              existing: Record)
    requires Overrides(after, fixed) && forall c :: c in fixed ==> c in spec
    ensures var row := Merge(existing, spec, Resolve(Options(before, after), fixed, spec));
      row.Keys == existing.Keys &&
        forall c :: c in existing ==> row[c] == After(before, after, fixed, spec, existing, c)
  {
    var row := Merge(existing, spec, Resolve(Options(before, after), fixed, spec));
    forall c | c in existing ensures row[c] == After(before, after, fixed, spec, existing, c) {
      ColumnResolved(before, after, fixed, spec, c);
    }
  }

  /** The assignment that the options leave for a column, if any. */
  lemma ColumnResolved(before: seq<Choice>, after: seq<Choice>, fixed: seq<Column>, spec: Record, c: Column)
    requires Overrides(after, fixed) && (c in fixed ==> c in spec)
    ensures var sets := Resolve(Options(before, after), fixed, spec);
      var assignment := if c in sets then Some(sets[c]) else None;
      assignment ==
        if c in fixed then Some(Itself)
        else if LastOverride(after, c).Some? then LastOverride(after, c)
        else if c in spec then Some(Excluded)
        else LastOverride(before, c)
  {
    HeadResolved(before, fixed, spec);
    ResolveOverrides(before + [NewValues, IgnoreFixed], after, fixed, spec, c);
    if c in fixed {
      NoOverride(after, fixed, c);
    }
    if c !in spec {
      ResolveUnproposed(before, fixed, spec, c);
    }
  }

  lemma {:induction false} NoOverride(choices: seq<Choice>, fixed: seq<Column>, c: Column)
    requires Overrides(choices, fixed) && c in fixed
    ensures LastOverride(choices, c).None?
    decreases |choices|
  {
    if choices != [] {
      var n := |choices| - 1;
      NoOverride(choices[..n], fixed, c);
      assert choices[n].column !in fixed;
    }
  }

  lemma MemberSpec(m: Members.Mutation)
    requires m.id.Some? && m.role.Some? && m.joinedAt.Some?
    ensures var spec := Members.SpecOf(m);
      Members.ID in spec && Members.JOINED_AT in spec &&
      Members.ROLE in spec && spec[Members.ROLE] == AsText(m.role.value) &&
      (m.lastReadAt.None? ==> Members.LAST_READ_AT !in spec)
  {
    assert Members.ID in Members.COLUMNS && Members.JOINED_AT in Members.COLUMNS && Members.ROLE in Members.COLUMNS;
  }

  const MEMBER_FIXED: seq<Column> := [Members.ID, Members.JOINED_AT]

  /** The conflicting member row after the upsert of a mutation, with defaults filled in first. */
  function UpsertedMember(m: Members.Mutation, now: int, newId: Uuid, before: seq<Choice>, choices: seq<Choice>,
                          existing: Record): Record
  {
    var spec := Members.SpecOf(Members.Defaults(m, now, newId));
    Merge(existing, spec, Resolve(Options(before, choices), MEMBER_FIXED, spec))
  }

  lemma UpsertedMemberColumn(m: Members.Mutation, now: int, newId: Uuid, before: seq<Choice>, choices: seq<Choice>,
                             existing: Record, c: Column)
    requires Overrides(choices, MEMBER_FIXED) && c in existing
    ensures var row := UpsertedMember(m, now, newId, before, choices, existing);
      c in row && row[c] ==
        After(before, choices, MEMBER_FIXED, Members.SpecOf(Members.Defaults(m, now, newId)), existing, c)
  {
    var d := Members.Defaults(m, now, newId);
    MemberSpec(d);
    UpdateNewValuesResult(before, choices, MEMBER_FIXED, Members.SpecOf(d), existing);
  }

  /** GroupMember: id and joined_at survive every proposal, although the caller may have set neither. */
  lemma MemberUpsert(m: Members.Mutation, now: int, newId: Uuid, before: seq<Choice>, choices: seq<Choice>,
                     existing: Record)
    requires Overrides(choices, MEMBER_FIXED) && forall c :: c in Members.COLUMNS ==> c in existing
    ensures var row := UpsertedMember(m, now, newId, before, choices, existing);
      Members.ID in row && row[Members.ID] == existing[Members.ID] &&
      Members.JOINED_AT in row && row[Members.JOINED_AT] == existing[Members.JOINED_AT]
  {
    assert Members.ID in Members.COLUMNS && Members.JOINED_AT in Members.COLUMNS;
    UpsertedMemberColumn(m, now, newId, before, choices, existing, Members.ID);
    UpsertedMemberColumn(m, now, newId, before, choices, existing, Members.JOINED_AT);
  }

  /** Overrides apply on top: a counter is raised from the stored value, the rest takes what was proposed. */
  lemma MemberUpsertOverrides(m: Members.Mutation, now: int, newId: Uuid, before: seq<Choice>, choices: seq<Choice>,
                              existing: Record, n: int, was: int)
    requires Overrides(choices, MEMBER_FIXED) && forall c :: c in Members.COLUMNS ==> c in existing
    requires LastOverride(choices, Members.UNREAD_COUNT) == Some(Plus(n))
    requires Members.UNREAD_COUNT in existing && existing[Members.UNREAD_COUNT] == AsInt(was)
    requires LastOverride(choices, Members.ROLE).None? && LastOverride(choices, Members.LAST_READ_AT).None?
    requires LastOverride(before, Members.LAST_READ_AT).None?
    ensures var row := UpsertedMember(m, now, newId, before, choices, existing);
      Members.UNREAD_COUNT in row && row[Members.UNREAD_COUNT] == AsInt(was + n) &&
      Members.ROLE in row && row[Members.ROLE] == AsText(if m.role.Some? then m.role.value else "member") &&
      Members.LAST_READ_AT in row &&
        (m.lastReadAt.None? ==> row[Members.LAST_READ_AT] == existing[Members.LAST_READ_AT])
  {
    assert Members.ROLE in Members.COLUMNS && Members.LAST_READ_AT in Members.COLUMNS;
    MemberSpec(Members.Defaults(m, now, newId));
    UpsertedMemberColumn(m, now, newId, before, choices, existing, Members.UNREAD_COUNT);
    UpsertedMemberColumn(m, now, newId, before, choices, existing, Members.ROLE);
    UpsertedMemberColumn(m, now, newId, before, choices, existing, Members.LAST_READ_AT);
  }

  lemma ChatSpec(m: Chats.Mutation)
    requires m.id.Some? && Chats.Check(m).None?
    ensures var spec := Chats.SpecOf(m);
      Chats.ID in spec && Chats.CREATED_AT in spec && Chats.TYPE in spec &&
      Chats.UPDATED_AT in spec && spec[Chats.UPDATED_AT] == AsTime(m.updatedAt.value)
  {
    assert Chats.ID in Chats.COLUMNS && Chats.CREATED_AT in Chats.COLUMNS;
    assert Chats.TYPE in Chats.COLUMNS && Chats.UPDATED_AT in Chats.COLUMNS;
  }

  /** Chat: id, created_at and type survive whenever the create passes its check. */
  lemma ChatUpsert(m: Chats.Mutation, now: int, newId: Uuid, before: seq<Choice>, choices: seq<Choice>,
                   existing: Record)
    requires Overrides(choices, [Chats.ID, Chats.CREATED_AT, Chats.TYPE])
    requires Chats.Check(Chats.Defaults(m, now, newId)).None?
    requires forall c :: c in Chats.COLUMNS ==> c in existing
    ensures var fixed := [Chats.ID, Chats.CREATED_AT, Chats.TYPE];
      var spec := Chats.SpecOf(Chats.Defaults(m, now, newId));
      var row := Merge(existing, spec, Resolve(Options(before, choices), fixed, spec));
      Chats.ID in row && row[Chats.ID] == existing[Chats.ID] &&
      Chats.CREATED_AT in row && row[Chats.CREATED_AT] == existing[Chats.CREATED_AT] &&
      Chats.TYPE in row && row[Chats.TYPE] == existing[Chats.TYPE] &&
      Chats.UPDATED_AT in row &&
      (m.updatedAt.None? && LastOverride(choices, Chats.UPDATED_AT).None? ==> row[Chats.UPDATED_AT] == AsTime(now))
  {
    var fixed := [Chats.ID, Chats.CREATED_AT, Chats.TYPE];
    var d := Chats.Defaults(m, now, newId);
    ChatSpec(d);
    UpdateNewValuesResult(before, choices, fixed, Chats.SpecOf(d), existing);
    assert Chats.ID in Chats.COLUMNS && Chats.CREATED_AT in Chats.COLUMNS;
    assert Chats.TYPE in Chats.COLUMNS && Chats.UPDATED_AT in Chats.COLUMNS;
  }

  /**
   The delay of the closure matters: looking at the mutation when `UpdateNewValues` is called would keep a
   fixed column of the conflicting row exactly when the caller had set it, or the values agree anyway.
   */
  lemma EarlyLookIff(fixed: seq<Column>, early: Record, spec: Record, existing: Record, c: Column)
    requires c in fixed && c in spec && c in existing && early.Keys <= spec.Keys
    ensures var sets := SetIgnore(SetExcluded(map[], spec), fixed, early);
      Merge(existing, spec, sets)[c] == existing[c] <==> c in early || spec[c] == existing[c]
  {
  }
}
