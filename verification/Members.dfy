/** GroupMember: defaults, checks, the insert it describes, and reading it back. */
module Members {
  import opened Prelude
  import opened Codec
  import opened Middleware
  import SaveOne
  import opened BulkCreate
  import BulkSave
  import BulkForwarding

  const ID: Column := "id"
  const GROUP_CHAT_ID: Column := "group_chat_id"
  const USER_ID: Column := "user_id"
  const ROLE: Column := "role"
  const LAST_READ_AT: Column := "last_read_at"
  const JOINED_AT: Column := "joined_at"
  const UNREAD_COUNT: Column := "unread_count"

  const COLUMNS: seq<Column> := [ID, GROUP_CHAT_ID, USER_ID, ROLE, LAST_READ_AT, JOINED_AT, UNREAD_COUNT]

  /** The fields of `GroupMemberMutation` that a create reads; the edges are the ids they refer to. */
  datatype Mutation = Mutation(
    id: Option<Uuid>,
    groupChat: Option<Uuid>,
    user: Option<Uuid>,
    role: Option<string>,
    lastReadAt: Option<int>,
    joinedAt: Option<int>,
    unreadCount: Option<int>)

  datatype Member = Member(
    id: Uuid,
    groupChatId: Uuid,
    userId: Uuid,
    role: string,
    lastReadAt: Option<int>,
    joinedAt: int,
    unreadCount: int)

  const ZERO: Member := Member(NIL_UUID, NIL_UUID, NIL_UUID, "", None, 0, 0)

  const ROLES: set<string> := {"owner", "admin", "member"}

  /** `defaults`, with the clock and the id generator as arguments. */
  function Defaults(m: Mutation, now: int, newId: Uuid): (r: Mutation)
    ensures r.id.Some? && r.role.Some? && r.joinedAt.Some? && r.unreadCount.Some?
  {
    m.(role := if m.role.None? then Some("member") else m.role,
       joinedAt := if m.joinedAt.None? then Some(now) else m.joinedAt,
       unreadCount := if m.unreadCount.None? then Some(0) else m.unreadCount,
       id := if m.id.None? then Some(newId) else m.id)
  }

  /** `check`: the first missing or invalid field, in the order of the code. */
  function Check(m: Mutation): Option<Error> {
    if m.groupChat.None? then Some(ValidationError(GROUP_CHAT_ID))
    else if m.user.None? then Some(ValidationError(USER_ID))
    else if m.role.None? || m.role.value !in ROLES then Some(ValidationError(ROLE))
    else if m.joinedAt.None? then Some(ValidationError(JOINED_AT))
    else if m.unreadCount.None? then Some(ValidationError(UNREAD_COUNT))
    else None
  }

  /** The check, also of what hooks leave: it names the first required field that is missing or invalid. */
  lemma CheckIff(m: Mutation)
    ensures var okRole := m.role.Some? && m.role.value in ROLES;
      (Check(m).None? <==> m.groupChat.Some? && m.user.Some? && okRole && m.joinedAt.Some? && m.unreadCount.Some?) &&
      (m.groupChat.None? ==> Check(m) == Some(ValidationError(GROUP_CHAT_ID))) &&
      (m.groupChat.Some? && m.user.None? ==> Check(m) == Some(ValidationError(USER_ID))) &&
      (m.groupChat.Some? && m.user.Some? && !okRole ==> Check(m) == Some(ValidationError(ROLE))) &&
      (m.groupChat.Some? && m.user.Some? && okRole && m.joinedAt.None? ==>
        Check(m) == Some(ValidationError(JOINED_AT))) &&
      (m.groupChat.Some? && m.user.Some? && okRole && m.joinedAt.Some? && m.unreadCount.None? ==>
        Check(m) == Some(ValidationError(UNREAD_COUNT)))
  {
  }

  /** Defaults fill exactly four gaps, each with its default, so running them again changes nothing. */
  lemma DefaultsFillGaps(m: Mutation, now: int, newId: Uuid, later: int, otherId: Uuid)
    ensures var d := Defaults(m, now, newId);
      Defaults(d, later, otherId) == d &&
      (m.id.Some? ==> d.id == m.id) && (m.role.Some? ==> d.role == m.role) &&
      (m.joinedAt.Some? ==> d.joinedAt == m.joinedAt) && (m.unreadCount.Some? ==> d.unreadCount == m.unreadCount) &&
      (m.id.None? ==> d.id == Some(newId)) && (m.role.None? ==> d.role == Some("member")) &&
      (m.joinedAt.None? ==> d.joinedAt == Some(now)) && (m.unreadCount.None? ==> d.unreadCount == Some(0)) &&
      d.groupChat == m.groupChat && d.user == m.user && d.lastReadAt == m.lastReadAt
  {
  }

  /**
   After the defaults, a member can be saved iff it has a group and a user and its role, if given, is one of
   the three; the error otherwise names the first of these that fails.
   */
  lemma SaveableIff(m: Mutation, now: int, newId: Uuid)
    ensures var e := Check(Defaults(m, now, newId));
      (e.None? <==> m.groupChat.Some? && m.user.Some? && (m.role.Some? ==> m.role.value in ROLES)) &&
      (e == Some(ValidationError(GROUP_CHAT_ID)) <==> m.groupChat.None?) &&
      (e == Some(ValidationError(USER_ID)) <==> m.groupChat.Some? && m.user.None?) &&
      (e == Some(ValidationError(ROLE)) <==>
        m.groupChat.Some? && m.user.Some? && m.role.Some? && m.role.value !in ROLES)
  {
    assert "member" in ROLES;
    assert |GROUP_CHAT_ID| == 13 && |USER_ID| == 7 && |ROLE| == 4;
  }

  /** The node that `createSpec` returns: unset fields keep their zero value. */
  function NodeOf(m: Mutation): Member {
    Member(
      if m.id.Some? then m.id.value else ZERO.id,
      if m.groupChat.Some? then m.groupChat.value else ZERO.groupChatId,
      if m.user.Some? then m.user.value else ZERO.userId,
      if m.role.Some? then m.role.value else ZERO.role,
      m.lastReadAt,
      if m.joinedAt.Some? then m.joinedAt.value else ZERO.joinedAt,
      if m.unreadCount.Some? then m.unreadCount.value else ZERO.unreadCount)
  }

  /** What `createSpec` sets for a column, if anything: fields, and the foreign keys of the edges. */
  function Proposed(m: Mutation, c: Column): Option<Datum> {
    if c == ID then (if m.id.None? then None else Some(AsUuid(m.id.value)))
    else if c == ROLE then (if m.role.None? then None else Some(AsText(m.role.value)))
    else if c == LAST_READ_AT then (if m.lastReadAt.None? then None else Some(AsTime(m.lastReadAt.value)))
    else if c == JOINED_AT then (if m.joinedAt.None? then None else Some(AsTime(m.joinedAt.value)))
    else if c == UNREAD_COUNT then (if m.unreadCount.None? then None else Some(AsInt(m.unreadCount.value)))
    else if c == GROUP_CHAT_ID then (if m.groupChat.None? then None else Some(AsUuid(m.groupChat.value)))
    else if c == USER_ID then (if m.user.None? then None else Some(AsUuid(m.user.value)))
    else None
  }

  /** The columns of the INSERT. */
  function SpecOf(m: Mutation): Record {
    map c | c in COLUMNS && Proposed(m, c).Some? :: Proposed(m, c).value
  }

  /** The row as stored: columns the INSERT leaves out are NULL. */
  function Stored(spec: Record): Record {
    map c | c in COLUMNS :: if c in spec then spec[c] else Null
  }

  /**
   The stored row holds, column by column, what the mutation holds, and NULL exactly where it holds nothing.
   */
  lemma StoresWhatIsSet(m: Mutation)
    ensures var row := Stored(SpecOf(m));
      (forall c :: c in row <==> c in COLUMNS) &&
      row[ID] == OfUuid(m.id) && row[GROUP_CHAT_ID] == OfUuid(m.groupChat) && row[USER_ID] == OfUuid(m.user) &&
      row[ROLE] == OfText(m.role) && row[LAST_READ_AT] == OfTime(m.lastReadAt) &&
      row[JOINED_AT] == OfTime(m.joinedAt) && row[UNREAD_COUNT] == OfInt(m.unreadCount)
  {
    assert ID in COLUMNS && GROUP_CHAT_ID in COLUMNS && USER_ID in COLUMNS && ROLE in COLUMNS;
    assert LAST_READ_AT in COLUMNS && JOINED_AT in COLUMNS && UNREAD_COUNT in COLUMNS;
    StoredAt(m, ID);
    StoredAt(m, GROUP_CHAT_ID);
    StoredAt(m, USER_ID);
    StoredAt(m, ROLE);
    StoredAt(m, LAST_READ_AT);
    StoredAt(m, JOINED_AT);
    StoredAt(m, UNREAD_COUNT);
  }

  lemma StoredAt(m: Mutation, c: Column)
    requires c in COLUMNS
    ensures c in Stored(SpecOf(m))
    ensures Stored(SpecOf(m))[c] == if Proposed(m, c).Some? then Proposed(m, c).value else Null
  {
  }

  // ---------------------------------------------------------------- the two switches

  /** `scanValues`. */
  function TargetOf(c: Column): Slot {
    if c == UNREAD_COUNT then NullInt64(None)
    else if c == ROLE then NullString(None)
    else if c == LAST_READ_AT || c == JOINED_AT then NullTime(None)
    else if c == ID || c == GROUP_CHAT_ID || c == USER_ID then UuidSlot(NIL_UUID)
    else Unknown
  }

  /** `assignValues`, one column. */
  function Assign(n: Member, c: Column, s: Slot): Result<Member> {
    if c == ID then
      if s.UuidSlot? then Success(n.(id := s.u)) else Failure(DriverError(2))
    else if c == GROUP_CHAT_ID then
      if s.UuidSlot? then Success(n.(groupChatId := s.u)) else Failure(DriverError(2))
    else if c == USER_ID then
      if s.UuidSlot? then Success(n.(userId := s.u)) else Failure(DriverError(2))
    else if c == ROLE then
      if !s.NullString? then Failure(DriverError(2))
      else Success(if s.text.Some? then n.(role := s.text.value) else n)
    else if c == LAST_READ_AT then
      if !s.NullTime? then Failure(DriverError(2))
      else Success(if s.time.Some? then n.(lastReadAt := s.time) else n)
    else if c == JOINED_AT then
      if !s.NullTime? then Failure(DriverError(2))
      else Success(if s.time.Some? then n.(joinedAt := s.time.value) else n)
    else if c == UNREAD_COUNT then
      if !s.NullInt64? then Failure(DriverError(2))
      else Success(if s.int64.Some? then n.(unreadCount := s.int64.value) else n)
    else Success(n)
  }

  const SWITCHES: Switches<Member> := Switches((set c | c in COLUMNS), c => TargetOf(c), (n, c, s) => Assign(n, c, s))

  /** Assigning a row fails iff some value does not have the type of the scan target of its column. */
  lemma AssignFailsIff(n: Member, columns: seq<Column>, values: seq<Slot>)
    requires |values| >= |columns|
    ensures AssignAll(SWITCHES, n, columns, values).Failure? <==>
            exists i :: 0 <= i < |columns| && Mistyped(TargetOf(columns[i]), values[i])
  {
    AssignAllFailsIff(SWITCHES, n, columns, values, (c, s) => Mistyped(TargetOf(c), s));
  }

  /** A field as the value of its column: nil is NULL. */
  function Show(n: Member, c: Column): Datum {
    if c == ID then AsUuid(n.id)
    else if c == GROUP_CHAT_ID then AsUuid(n.groupChatId)
    else if c == USER_ID then AsUuid(n.userId)
    else if c == ROLE then AsText(n.role)
    else if c == LAST_READ_AT then (if n.lastReadAt.None? then Null else AsTime(n.lastReadAt.value))
    else if c == JOINED_AT then AsTime(n.joinedAt)
    else if c == UNREAD_COUNT then AsInt(n.unreadCount)
    else Null
  }

  predicate Legal(c: Column, v: Datum) {
    if c == ID || c == GROUP_CHAT_ID || c == USER_ID then v.AsUuid?
    else if c == ROLE then v.AsText?
    else if c == LAST_READ_AT then v.AsTime? || v.Null?
    else if c == JOINED_AT then v.AsTime?
    else c == UNREAD_COUNT && v.AsInt?
  }

  const SHOW: (Member, Column) -> Datum := (n, c) => Show(n, c)

  const LEGAL: (Column, Datum) -> bool := (c, v) => Legal(c, v)

  /** The two switches fit together on every column. */
  lemma SwitchesAreLawful()
    ensures Lawful(SWITCHES, SHOW, LEGAL, ZERO)
  {
    forall n: Member, c, v | LEGAL(c, v) && (v == Null ==> SHOW(n, c) == SHOW(ZERO, c))
      ensures FitsAt(SWITCHES, SHOW, n, c, v)
    {
      var s := Scan(TargetOf(c), v);
      var r := Assign(n, c, s.value);
      assert r.Success? && Show(r.value, c) == v;
    }
  }

  /** Every field of the node is what the mutation holds for it. */
  predicate HoldsFields(n: Member, m: Mutation) {
    Some(n.id) == m.id && Some(n.groupChatId) == m.groupChat && Some(n.userId) == m.user &&
    Some(n.role) == m.role && n.lastReadAt == m.lastReadAt &&
    Some(n.joinedAt) == m.joinedAt && Some(n.unreadCount) == m.unreadCount
  }

  lemma StoredShows(m: Mutation, c: Column)
    requires Check(m).None? && m.id.Some? && c in COLUMNS
    ensures c in Stored(SpecOf(m)) && Legal(c, Stored(SpecOf(m))[c]) && Stored(SpecOf(m))[c] == Show(NodeOf(m), c)
  {
  }

  lemma ScanShowsNode(m: Mutation, columns: seq<Column>)
    requires Check(m).None? && m.id.Some?
    requires forall c :: c in columns <==> c in COLUMNS
    ensures forall c :: c in columns ==> c in Stored(SpecOf(m))
    ensures var r := Decode(SWITCHES, ZERO, columns, Stored(SpecOf(m)));
      r.Success? && forall c :: c in COLUMNS ==> Show(r.value, c) == Show(NodeOf(m), c)
  {
    var row := Stored(SpecOf(m));
    forall c | c in columns ensures c in row && LEGAL(c, row[c]) && row[c] == Show(NodeOf(m), c) {
      StoredShows(m, c);
    }
    SwitchesAreLawful();
    assert Shows(ZERO, SHOW, ZERO, row, {});
    DecodeShows(SWITCHES, SHOW, LEGAL, ZERO, ZERO, {}, columns, row);
    var n := Decode(SWITCHES, ZERO, columns, row).value;
    forall c | c in COLUMNS ensures Show(n, c) == Show(NodeOf(m), c) {
      assert c in columns && c in {} + (set d | d in columns);
      StoredShows(m, c);
      assert SHOW(n, c) == row[c];
    }
  }

  lemma NodeHolds(m: Mutation)
    requires Check(m).None? && m.id.Some?
    ensures HoldsFields(NodeOf(m), m)
  {
  }

  /**
   Round trip: for every mutation that passes its check and every list of columns that covers the table, in
   any order, reading back the row that the create describes never fails on a type and gives exactly the
   node the create returned, which holds what the mutation holds.
   */
  lemma CreateThenScan(m: Mutation, columns: seq<Column>)
    requires Check(m).None? && m.id.Some?
    requires forall c :: c in columns <==> c in COLUMNS
    ensures forall c :: c in columns ==> c in Stored(SpecOf(m))
    ensures var r := Decode(SWITCHES, ZERO, columns, Stored(SpecOf(m)));
      r == Success(NodeOf(m)) && HoldsFields(r.value, m)
  {
    ScanShowsNode(m, columns);
    SameFieldsSameMember(Decode(SWITCHES, ZERO, columns, Stored(SpecOf(m))).value, NodeOf(m));
    NodeHolds(m);
  }

  lemma SameFieldsSameMember(a: Member, b: Member)
    requires forall c :: c in COLUMNS ==> Show(a, c) == Show(b, c)
    ensures a == b
  {
    assert ID in COLUMNS && GROUP_CHAT_ID in COLUMNS && USER_ID in COLUMNS && ROLE in COLUMNS;
    assert LAST_READ_AT in COLUMNS && JOINED_AT in COLUMNS && UNREAD_COUNT in COLUMNS;
    assert Show(a, LAST_READ_AT) == Show(b, LAST_READ_AT);
    assert Show(a, ID) == Show(b, ID) && Show(a, GROUP_CHAT_ID) == Show(b, GROUP_CHAT_ID) &&
      Show(a, USER_ID) == Show(b, USER_ID);
    assert Show(a, ROLE) == Show(b, ROLE) && Show(a, JOINED_AT) == Show(b, JOINED_AT) &&
      Show(a, UNREAD_COUNT) == Show(b, UNREAD_COUNT);
  }

  // ---------------------------------------------------------------- bulk create of members

  /** GroupMember as an instance of the create template; `reject` is the database. */
  function MemberEntity(reject: (seq<Record>, seq<Record>) -> Option<DriverFault>)
    : SaveOne.Entity<Mutation, Member, Record>
  {
    SaveOne.Entity(m => Check(m), m => NodeOf(m), m => SpecOf(m), (m: Mutation, n: Member) => m.(id := Some(n.id)),
                   m => m, reject)
  }

  /**
   A bulk create of members under hooks that write nothing: if every builder has a group, a user and, if any,
   a known role, one batch is sent, with what each builder holds and the defaults for what it lacks.
   */
  lemma BulkFillsDefaults(reject: (seq<Record>, seq<Record>) -> Option<DriverFault>, builders: seq<Builder>,
                          b: Behaviour<Mutation, Member>, store: Store<Mutation>, current: map<nat, Ref>,
                          rows: seq<Record>, now: int, newId: nat -> Uuid)
    requires builders != [] && BulkSave.Linked(builders, store, current) && BulkSave.OwnMutations(builders, current)
    requires var bulk := Bulk(MemberEntity(reject), builders);
      BulkForwarding.Quiet(bulk, 0, MutatorOf(bulk, 0), current, b)
    requires forall k :: 0 <= k < |builders| ==>
      var m := store[current[builders[k].ref]].data;
      m.groupChat.Some? && m.user.Some? && (m.role.Some? ==> m.role.value in ROLES)
    ensures var bulk := Bulk(MemberEntity(reject), builders);
      var fill := (k: nat, m: Mutation) => Defaults(m, now, newId(k));
      var r := Chain(bulk, b, BulkSave.Start(bulk, fill, store, current, rows));
      var data := seq(|builders|, k requires 0 <= k < |builders| =>
        Defaults(store[current[builders[k].ref]].data, now, newId(k)));
      |r.1.batches| == 1 && BulkForwarding.Sends(bulk, data, rows, r.1.batches[0], r)
  {
    var bulk := Bulk(MemberEntity(reject), builders);
    var fill := (k: nat, m: Mutation) => Defaults(m, now, newId(k));
    var data := BulkForwarding.Filled(bulk, fill, store, current);
    BulkForwarding.QuietSave(bulk, fill, b, store, current, rows);
    forall k | 0 <= k < |data| ensures bulk.ent.check(data[k]).None? {
      SaveableIff(store[current[builders[k].ref]].data, now, newId(k));
    }
    assert data == seq(|builders|, k requires 0 <= k < |builders| =>
      Defaults(store[current[builders[k].ref]].data, now, newId(k)));
  }

  const GOOD: Mutation := Mutation(Some(1), Some(2), Some(3), Some("member"), None, Some(0), Some(0))

  const BAD: Mutation := GOOD.(role := Some("intruder"))

  /** A hook that passes mutation 1 on instead of the one it was given. */
  const SUBSTITUTE: Behaviour<Mutation, Member> := Behaviour([Next(Typed(1), Behaviour([], Forward))], Forward)

  const START: State<Mutation, Member, Record> :=
    State(map[0 := Cell(GOOD, false), 1 := Cell(BAD, false)], map[0 := 0], [None], [None], [], [])

  function OneBuilder(reject: (seq<Record>, seq<Record>) -> Option<DriverFault>): Bulk<Mutation, Member, Record> {
    Bulk(MemberEntity(reject), [Builder(0, [Runtime(0)])])
  }

  lemma StepStoresBad(reject: (seq<Record>, seq<Record>) -> Option<DriverFault>)
    requires forall a, b :: reject(a, b).None?
    ensures Ready(OneBuilder(reject), START)
    ensures var r := Mutate(OneBuilder(reject), 0, Base, Typed(1), Behaviour([], Forward), START);
      r.0.Value? && r.1.rows == [SpecOf(BAD)]
  {
    var bulk := OneBuilder(reject);
    var s1 := Fill(bulk, 0, 1, START);
    assert s1.specs[1..] == [];
    assert RowsOf(s1.specs) == [SpecOf(BAD)];
    assert BatchCreate(bulk, s1).1.rows == [SpecOf(BAD)];
  }

  /**
   A bulk create can store a member whose role its own check refuses: the hook passes on another mutation,
   and the step has already checked the one its builder held.
   */
  lemma BulkStoresInvalidRole(reject: (seq<Record>, seq<Record>) -> Option<DriverFault>)
    requires forall a, b :: reject(a, b).None?
    ensures Check(GOOD).None? && Check(BAD) == Some(ValidationError(ROLE))
    ensures Ready(OneBuilder(reject), START)
    ensures var r := Chain(OneBuilder(reject), SUBSTITUTE, START);
      !r.0.Fail? && r.1.rows == [SpecOf(BAD)]
  {
    StepStoresBad(reject);
    var bulk := OneBuilder(reject);
    assert [Runtime(0)][1..] == [];
    assert MutatorOf(bulk, 0) == Wrap(Runtime(0), Base);
    var steps := SUBSTITUTE.steps;
    assert steps[1..] == [];
    var r := Mutate(bulk, 0, Base, Typed(1), Behaviour([], Forward), START);
    assert BulkCreate.RunSteps(bulk, 0, Base, [], r.0, r.1) == r;
    assert BulkCreate.RunSteps(bulk, 0, Base, steps, Junk, START) == r;
  }
}
