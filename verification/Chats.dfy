/** Chat: defaults, checks, the insert it describes, and reading it back. */
module Chats {
  import opened Prelude
  import opened Codec

  const ID: Column := "id"
  const CREATED_AT: Column := "created_at"
  const UPDATED_AT: Column := "updated_at"
  const TYPE: Column := "type"
  const LAST_MESSAGE_ID: Column := "last_message_id"
  const LAST_MESSAGE_AT: Column := "last_message_at"
  const DELETED_AT: Column := "deleted_at"

  const COLUMNS: seq<Column> := [ID, CREATED_AT, UPDATED_AT, TYPE, LAST_MESSAGE_ID, LAST_MESSAGE_AT, DELETED_AT]

  datatype Mutation = Mutation(
    id: Option<Uuid>,
    createdAt: Option<int>,
    updatedAt: Option<int>,
    kind: Option<string>,
    lastMessage: Option<Uuid>,
    lastMessageAt: Option<int>,
    deletedAt: Option<int>)

  datatype Chat = Chat(
    id: Uuid,
    createdAt: int,
    updatedAt: int,
    kind: string,
    lastMessageId: Option<Uuid>,
    lastMessageAt: Option<int>,
    deletedAt: Option<int>)

  const ZERO: Chat := Chat(NIL_UUID, 0, 0, "", None, None, None)

  const TYPES: set<string> := {"private", "group"}

  function Defaults(m: Mutation, now: int, newId: Uuid): (r: Mutation)
    ensures r.id.Some? && r.createdAt.Some? && r.updatedAt.Some? && r.kind == m.kind
  {
    m.(createdAt := if m.createdAt.None? then Some(now) else m.createdAt,
       updatedAt := if m.updatedAt.None? then Some(now) else m.updatedAt,
       id := if m.id.None? then Some(newId) else m.id)
  }

  /** Defaults fill exactly three gaps, each with its default, so running them again changes nothing. */
  lemma DefaultsFillGaps(m: Mutation, now: int, newId: Uuid, later: int, otherId: Uuid)
    ensures var d := Defaults(m, now, newId);
      Defaults(d, later, otherId) == d &&
      d.id == Some(if m.id.Some? then m.id.value else newId) &&
      d.createdAt == Some(if m.createdAt.Some? then m.createdAt.value else now) &&
      d.updatedAt == Some(if m.updatedAt.Some? then m.updatedAt.value else now) &&
      d.kind == m.kind && d.lastMessage == m.lastMessage && d.lastMessageAt == m.lastMessageAt &&
      d.deletedAt == m.deletedAt
  {
  }

  function Check(m: Mutation): Option<Error> {
    if m.createdAt.None? then Some(ValidationError(CREATED_AT))
    else if m.updatedAt.None? then Some(ValidationError(UPDATED_AT))
    else if m.kind.None? || m.kind.value !in TYPES then Some(ValidationError(TYPE))
    else None
  }

  /** The check, also of what hooks leave: it names the first required field that is missing or invalid. */
  lemma CheckIff(m: Mutation)
    ensures var okType := m.kind.Some? && m.kind.value in TYPES;
      (Check(m).None? <==> m.createdAt.Some? && m.updatedAt.Some? && okType) &&
      (m.createdAt.None? ==> Check(m) == Some(ValidationError(CREATED_AT))) &&
      (m.createdAt.Some? && m.updatedAt.None? ==> Check(m) == Some(ValidationError(UPDATED_AT))) &&
      (m.createdAt.Some? && m.updatedAt.Some? && !okType ==> Check(m) == Some(ValidationError(TYPE)))
  {
  }

  /** After the defaults, a chat can be saved iff its type was given and is one of the two; there is no default type. */
  lemma SaveableIff(m: Mutation, now: int, newId: Uuid)
    ensures var e := Check(Defaults(m, now, newId));
      (e.None? <==> m.kind.Some? && m.kind.value in TYPES) && (e.Some? ==> e.value == ValidationError(TYPE))
  {
  }

  function NodeOf(m: Mutation): Chat {
    Chat(
      if m.id.Some? then m.id.value else ZERO.id,
      if m.createdAt.Some? then m.createdAt.value else ZERO.createdAt,
      if m.updatedAt.Some? then m.updatedAt.value else ZERO.updatedAt,
      if m.kind.Some? then m.kind.value else ZERO.kind,
      m.lastMessage, m.lastMessageAt, m.deletedAt)
  }

  function Proposed(m: Mutation, c: Column): Option<Datum> {
    if c == ID then (if m.id.None? then None else Some(AsUuid(m.id.value)))
    else if c == CREATED_AT then (if m.createdAt.None? then None else Some(AsTime(m.createdAt.value)))
    else if c == UPDATED_AT then (if m.updatedAt.None? then None else Some(AsTime(m.updatedAt.value)))
    else if c == TYPE then (if m.kind.None? then None else Some(AsText(m.kind.value)))
    else if c == LAST_MESSAGE_AT then (if m.lastMessageAt.None? then None else Some(AsTime(m.lastMessageAt.value)))
    else if c == DELETED_AT then (if m.deletedAt.None? then None else Some(AsTime(m.deletedAt.value)))
    else if c == LAST_MESSAGE_ID then (if m.lastMessage.None? then None else Some(AsUuid(m.lastMessage.value)))
    else None
  }

  function SpecOf(m: Mutation): Record {
    map c | c in COLUMNS && Proposed(m, c).Some? :: Proposed(m, c).value
  }

  function Stored(spec: Record): Record {
    map c | c in COLUMNS :: if c in spec then spec[c] else Null
  }

  /**
   The stored row holds, column by column, what the mutation holds, and NULL exactly where it holds nothing.
   */
  lemma StoresWhatIsSet(m: Mutation)
    ensures var row := Stored(SpecOf(m));
      (forall c :: c in row <==> c in COLUMNS) &&
      row[ID] == OfUuid(m.id) && row[CREATED_AT] == OfTime(m.createdAt) && row[UPDATED_AT] == OfTime(m.updatedAt) &&
      row[TYPE] == OfText(m.kind) && row[LAST_MESSAGE_ID] == OfUuid(m.lastMessage) &&
      row[LAST_MESSAGE_AT] == OfTime(m.lastMessageAt) && row[DELETED_AT] == OfTime(m.deletedAt)
  {
    StoresKeys(m);
    StoresTimes(m);
  }

  lemma StoresKeys(m: Mutation)
    ensures var row := Stored(SpecOf(m));
      ID in row && TYPE in row && LAST_MESSAGE_ID in row &&
      row[ID] == OfUuid(m.id) && row[TYPE] == OfText(m.kind) && row[LAST_MESSAGE_ID] == OfUuid(m.lastMessage)
  {
    assert ID in COLUMNS && TYPE in COLUMNS && LAST_MESSAGE_ID in COLUMNS;
    StoredAt(m, ID);
    StoredAt(m, TYPE);
    StoredAt(m, LAST_MESSAGE_ID);
  }

  lemma StoresTimes(m: Mutation)
    ensures var row := Stored(SpecOf(m));
      CREATED_AT in row && UPDATED_AT in row && LAST_MESSAGE_AT in row && DELETED_AT in row &&
      row[CREATED_AT] == OfTime(m.createdAt) && row[UPDATED_AT] == OfTime(m.updatedAt) &&
      row[LAST_MESSAGE_AT] == OfTime(m.lastMessageAt) && row[DELETED_AT] == OfTime(m.deletedAt)
  {
    assert CREATED_AT in COLUMNS && UPDATED_AT in COLUMNS && LAST_MESSAGE_AT in COLUMNS && DELETED_AT in COLUMNS;
    StoredAt(m, CREATED_AT);
    StoredAt(m, UPDATED_AT);
    StoredAt(m, LAST_MESSAGE_AT);
    StoredAt(m, DELETED_AT);
  }

  lemma StoredAt(m: Mutation, c: Column)
    requires c in COLUMNS
    ensures c in Stored(SpecOf(m))
    ensures Stored(SpecOf(m))[c] == if Proposed(m, c).Some? then Proposed(m, c).value else Null
  {
  }

  /** `scanValues`: the nullable key is scanned through a `NullScanner`. */
  function TargetOf(c: Column): Slot {
    if c == LAST_MESSAGE_ID then NullScanner(None)
    else if c == TYPE then NullString(None)
    else if c == CREATED_AT || c == UPDATED_AT || c == LAST_MESSAGE_AT || c == DELETED_AT then NullTime(None)
    else if c == ID then UuidSlot(NIL_UUID)
    else Unknown
  }

  /** `assignValues`, one column. */
  function Assign(n: Chat, c: Column, s: Slot): Result<Chat> {
    if c == ID then
      if s.UuidSlot? then Success(n.(id := s.u)) else Failure(DriverError(2))
    else if c == CREATED_AT then
      if !s.NullTime? then Failure(DriverError(2))
      else Success(if s.time.Some? then n.(createdAt := s.time.value) else n)
    else if c == UPDATED_AT then
      if !s.NullTime? then Failure(DriverError(2))
      else Success(if s.time.Some? then n.(updatedAt := s.time.value) else n)
    else if c == TYPE then
      if !s.NullString? then Failure(DriverError(2))
      else Success(if s.text.Some? then n.(kind := s.text.value) else n)
    else if c == LAST_MESSAGE_ID then
      if !s.NullScanner? then Failure(DriverError(2))
      else Success(if s.cell.Some? then n.(lastMessageId := s.cell) else n)
    else if c == LAST_MESSAGE_AT then
      if !s.NullTime? then Failure(DriverError(2))
      else Success(if s.time.Some? then n.(lastMessageAt := s.time) else n)
    else if c == DELETED_AT then
      if !s.NullTime? then Failure(DriverError(2))
      else Success(if s.time.Some? then n.(deletedAt := s.time) else n)
    else Success(n)
  }

  const SWITCHES: Switches<Chat> := Switches((set c | c in COLUMNS), c => TargetOf(c), (n, c, s) => Assign(n, c, s))

  /** Assigning a row fails iff some value does not have the type of the scan target of its column. */
  lemma AssignFailsIff(n: Chat, columns: seq<Column>, values: seq<Slot>)
    requires |values| >= |columns|
    ensures AssignAll(SWITCHES, n, columns, values).Failure? <==>
            exists i :: 0 <= i < |columns| && Mistyped(TargetOf(columns[i]), values[i])
  {
    AssignAllFailsIff(SWITCHES, n, columns, values, (c, s) => Mistyped(TargetOf(c), s));
  }

  function Show(n: Chat, c: Column): Datum {
    if c == ID then AsUuid(n.id)
    else if c == CREATED_AT then AsTime(n.createdAt)
    else if c == UPDATED_AT then AsTime(n.updatedAt)
    else if c == TYPE then AsText(n.kind)
    else if c == LAST_MESSAGE_ID then (if n.lastMessageId.None? then Null else AsUuid(n.lastMessageId.value))
    else if c == LAST_MESSAGE_AT then OfTime(n.lastMessageAt)
    else if c == DELETED_AT then OfTime(n.deletedAt)
    else Null
  }

  predicate Legal(c: Column, v: Datum) {
    if c == ID then v.AsUuid?
    else if c == LAST_MESSAGE_ID then v.AsUuid? || v.Null?
    else if c == CREATED_AT || c == UPDATED_AT then v.AsTime?
    else if c == LAST_MESSAGE_AT || c == DELETED_AT then v.AsTime? || v.Null?
    else c == TYPE && v.AsText?
  }

  const SHOW: (Chat, Column) -> Datum := (n, c) => Show(n, c)

  const LEGAL: (Column, Datum) -> bool := (c, v) => Legal(c, v)

  lemma SwitchesAreLawful()
    ensures Lawful(SWITCHES, SHOW, LEGAL, ZERO)
  {
    forall n: Chat, c, v | LEGAL(c, v) && (v == Null ==> SHOW(n, c) == SHOW(ZERO, c))
      ensures FitsAt(SWITCHES, SHOW, n, c, v)
    {
      var s := Scan(TargetOf(c), v);
      var r := Assign(n, c, s.value);
      assert r.Success? && Show(r.value, c) == v;
    }
  }

  /** Every field of the node is what the mutation holds for it. */
  predicate HoldsFields(n: Chat, m: Mutation) {
    Some(n.id) == m.id && Some(n.createdAt) == m.createdAt && Some(n.updatedAt) == m.updatedAt &&
    Some(n.kind) == m.kind && n.lastMessageId == m.lastMessage &&
    n.lastMessageAt == m.lastMessageAt && n.deletedAt == m.deletedAt
  }

  lemma StoredShows(m: Mutation, c: Column)
    requires Check(m).None? && m.id.Some? && c in COLUMNS
    ensures c in Stored(SpecOf(m)) && Legal(c, Stored(SpecOf(m))[c]) && Stored(SpecOf(m))[c] == Show(NodeOf(m), c)
  {
  }

  lemma ScanShowsNode(m: Mutation, columns: seq<Column>)
    requires Check(m).None? && m.id.Some?
    requires forall c :: c in columns <==> c in COLUMNS
    ensures forall c :: c in columns ==> c in Stored(SpecOf(m))
    ensures var r := Decode(SWITCHES, ZERO, columns, Stored(SpecOf(m)));
      r.Success? && forall c :: c in COLUMNS ==> Show(r.value, c) == Show(NodeOf(m), c)
  {
    var row := Stored(SpecOf(m));
    forall c | c in columns ensures c in row && LEGAL(c, row[c]) && row[c] == Show(NodeOf(m), c) {
      StoredShows(m, c);
    }
    SwitchesAreLawful();
    assert Shows(ZERO, SHOW, ZERO, row, {});
    DecodeShows(SWITCHES, SHOW, LEGAL, ZERO, ZERO, {}, columns, row);
    var n := Decode(SWITCHES, ZERO, columns, row).value;
    forall c | c in COLUMNS ensures Show(n, c) == Show(NodeOf(m), c) {
      assert c in columns && c in {} + (set d | d in columns);
      StoredShows(m, c);
      assert SHOW(n, c) == row[c];
    }
  }

  lemma NodeHolds(m: Mutation)
    requires Check(m).None? && m.id.Some?
    ensures HoldsFields(NodeOf(m), m)
  {
  }

  /** The round trip of a chat, for any order of the columns. */
  lemma CreateThenScan(m: Mutation, columns: seq<Column>)
    requires Check(m).None? && m.id.Some?
    requires forall c :: c in columns <==> c in COLUMNS
    ensures forall c :: c in columns ==> c in Stored(SpecOf(m))
    ensures var r := Decode(SWITCHES, ZERO, columns, Stored(SpecOf(m)));
      r == Success(NodeOf(m)) && HoldsFields(r.value, m)
  {
    ScanShowsNode(m, columns);
    SameFieldsSameChat(Decode(SWITCHES, ZERO, columns, Stored(SpecOf(m))).value, NodeOf(m));
    NodeHolds(m);
  }

  lemma SameFieldsSameChat(a: Chat, b: Chat)
    requires forall c :: c in COLUMNS ==> Show(a, c) == Show(b, c)
    ensures a == b
  {
    assert ID in COLUMNS && CREATED_AT in COLUMNS && UPDATED_AT in COLUMNS && TYPE in COLUMNS;
    assert LAST_MESSAGE_ID in COLUMNS && LAST_MESSAGE_AT in COLUMNS && DELETED_AT in COLUMNS;
    assert Show(a, ID) == Show(b, ID) && Show(a, CREATED_AT) == Show(b, CREATED_AT) &&
      Show(a, UPDATED_AT) == Show(b, UPDATED_AT);
    assert Show(a, TYPE) == Show(b, TYPE) && Show(a, LAST_MESSAGE_ID) == Show(b, LAST_MESSAGE_ID);
    assert Show(a, LAST_MESSAGE_AT) == Show(b, LAST_MESSAGE_AT) && Show(a, DELETED_AT) == Show(b, DELETED_AT);
  }
}
