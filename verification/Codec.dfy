/**
 Reading rows back into nodes. `scanValues` chooses a scan target per column, the driver fills it, and
 `assignValues` copies it into a field after a type assertion. The two switches are written separately
 for every entity; `Lawful` is what makes them fit together.
 */
module Codec {
  import opened Prelude

  type Column = string

  /** A value in the database. */
  datatype Datum = Null | AsUuid(u: Uuid) | AsText(s: string) | AsTime(t: int) | AsInt(i: int)

  type Record = map<Column, Datum>

  /** What may be missing, as the value of a column: nothing is NULL. */
  function OfUuid(v: Option<Uuid>): Datum {
    if v.None? then Null else AsUuid(v.value)
  }

  function OfText(v: Option<string>): Datum {
    if v.None? then Null else AsText(v.value)
  }

  function OfTime(v: Option<int>): Datum {
    if v.None? then Null else AsTime(v.value)
  }

  function OfInt(v: Option<int>): Datum {
    if v.None? then Null else AsInt(v.value)
  }

  /** The scan targets: `*uuid.UUID`, `*sql.NullScanner` over one, `*sql.NullString`, `*sql.NullTime`,
      `*sql.NullInt64` and `*sql.UnknownType`. */
  datatype Slot =
    | UuidSlot(u: Uuid)
    | NullScanner(cell: Option<Uuid>)
    | NullString(text: Option<string>)
    | NullTime(time: Option<int>)
    | NullInt64(int64: Option<int>)
    | Unknown

  /** `rows.Scan` into one target; a NULL leaves a plain UUID as it was. */
  function Scan(slot: Slot, v: Datum): Result<Slot> {
    match (slot, v)
    case (UuidSlot(_), AsUuid(u)) => Success(UuidSlot(u))
    case (UuidSlot(_), Null) => Success(slot)
    case (NullScanner(_), AsUuid(u)) => Success(NullScanner(Some(u)))
    case (NullScanner(_), Null) => Success(NullScanner(None))
    case (NullString(_), AsText(s)) => Success(NullString(Some(s)))
    case (NullString(_), Null) => Success(NullString(None))
    case (NullTime(_), AsTime(t)) => Success(NullTime(Some(t)))
    case (NullTime(_), Null) => Success(NullTime(None))
    case (NullInt64(_), AsInt(i)) => Success(NullInt64(Some(i)))
    case (NullInt64(_), Null) => Success(NullInt64(None))
    case (Unknown, _) => Success(Unknown)
    case (_, _) => Failure(DriverError(0))
  }

  /** The two switches of an entity; columns that they do not know are kept beside its fields. */
  datatype Switches<!N> = Switches(known: set<Column>, target: Column -> Slot, assign: (N, Column, Slot) -> Result<N>)

  /** `scanValues`, the driver's scan of one row, and its errors. */
  function ScanAll<N>(sw: Switches<N>, columns: seq<Column>, row: Record): Result<seq<Slot>>
    requires forall c :: c in columns ==> c in row
  {
    if columns == [] then Success([])
    else
      match Scan(sw.target(columns[0]), row[columns[0]])
      case Failure(e) => Failure(e)
      case Success(s) =>
        match ScanAll(sw, columns[1..], row)
        case Failure(e) => Failure(e)
        case Success(rest) => Success([s] + rest)
  }

  /** `assignValues`, column by column. */
  function AssignAll<N>(sw: Switches<N>, node: N, columns: seq<Column>, values: seq<Slot>): Result<N>
    requires |values| >= |columns|
    decreases |columns|
  {
    if columns == [] then Success(node)
    else
      match sw.assign(node, columns[0], values[0])
      case Failure(e) => Failure(e)
      case Success(n) => AssignAll(sw, n, columns[1..], values[1..])
  }

  /** `selectValues` after a row: the last value of every column that is not a field. */
  function SelectAll<N>(sw: Switches<N>, selected: map<Column, Slot>, columns: seq<Column>,
                        values: seq<Slot>): (r: map<Column, Slot>)
    requires |values| >= |columns|
    ensures forall c :: c in r <==> c in selected || (c in columns && c !in sw.known)
    decreases |columns|
  {
    if columns == [] then selected
    else SelectAll(sw, if columns[0] in sw.known then selected else selected[columns[0] := values[0]],
                   columns[1..], values[1..])
  }

  /** The last value of an unknown column stays beside the fields. */
  lemma {:induction false} LastSelected<N>(sw: Switches<N>, selected: map<Column, Slot>, columns: seq<Column>,
                                           values: seq<Slot>, i: nat)
    requires |values| >= |columns| && i < |columns| && columns[i] !in sw.known && columns[i] !in columns[i + 1..]
    ensures columns[i] in SelectAll(sw, selected, columns, values)
    ensures SelectAll(sw, selected, columns, values)[columns[i]] == values[i]
    decreases |columns|
  {
    var selected1 := if columns[0] in sw.known then selected else selected[columns[0] := values[0]];
    if i == 0 {
      SelectedStays(sw, selected1, columns[1..], values[1..], columns[0]);
    } else {
      assert columns[1..][i..] == columns[i + 1..];
      LastSelected(sw, selected1, columns[1..], values[1..], i - 1);
    }
  }

  /** Columns that are fields, and columns that are not read, leave it alone. */
  lemma {:induction false} SelectedStays<N>(sw: Switches<N>, selected: map<Column, Slot>, columns: seq<Column>,
                                            values: seq<Slot>, c: Column)
    requires |values| >= |columns| && c in selected && (c in sw.known || c !in columns)
    ensures SelectAll(sw, selected, columns, values)[c] == selected[c]
    decreases |columns|
  {
    if columns != [] {
      var selected1 := if columns[0] in sw.known then selected else selected[columns[0] := values[0]];
      SelectedStays(sw, selected1, columns[1..], values[1..], c);
    }
  }

  /** If an assignment fails on the column and the value alone, a row fails on its first such value. */
  lemma {:induction false} AssignAllFailsIff<N(!new)>(sw: Switches<N>, node: N, columns: seq<Column>,
                                                      values: seq<Slot>, bad: (Column, Slot) -> bool)
    requires |values| >= |columns|
    requires forall n: N, c, s :: if bad(c, s) then sw.assign(n, c, s) == Failure(DriverError(2))
                                  else sw.assign(n, c, s).Success?
    ensures AssignAll(sw, node, columns, values) == Failure(DriverError(2)) ||
            AssignAll(sw, node, columns, values).Success?
    ensures AssignAll(sw, node, columns, values).Failure? <==>
            exists i :: 0 <= i < |columns| && bad(columns[i], values[i])
    decreases |columns|
  {
    if columns != [] && !bad(columns[0], values[0]) {
      AssignAllFailsIff(sw, sw.assign(node, columns[0], values[0]).value, columns[1..], values[1..], bad);
      assert forall i :: 0 < i < |columns| ==> columns[i] == columns[1..][i - 1] && values[i] == values[1..][i - 1];
      assert forall i :: 0 <= i < |columns| - 1 ==>
        columns[1..][i] == columns[i + 1] && values[1..][i] == values[i + 1];
    }
  }

  /** The value does not have the type of the target. */
  predicate Mistyped(target: Slot, s: Slot) {
    match target
    case UuidSlot(_) => !s.UuidSlot?
    case NullScanner(_) => !s.NullScanner?
    case NullString(_) => !s.NullString?
    case NullTime(_) => !s.NullTime?
    case NullInt64(_) => !s.NullInt64?
    case Unknown => false
  }

  /** The loop of `scanValues`. */
  method ScanValues<N>(sw: Switches<N>, columns: seq<Column>) returns (values: seq<Slot>)
    ensures |values| == |columns| && forall i :: 0 <= i < |columns| ==> values[i] == sw.target(columns[i])
  {
    values := [];
    for i := 0 to |columns|
      invariant |values| == i && forall j :: 0 <= j < i ==> values[j] == sw.target(columns[j])
    {
      values := values + [sw.target(columns[i])];
    }
  }

  /** An entity object that rows are scanned into. */
  class Target<N> {
    var node: N
    var selected: map<Column, Slot>

    constructor (zero: N)
      ensures node == zero && selected == map[]
    {
      node, selected := zero, map[];
    }

    /** `assignValues`: too few values is an error, and so is a value of the wrong type. */
    method AssignValues(sw: Switches<N>, columns: seq<Column>, values: seq<Slot>) returns (err: Option<Error>)
      modifies this
      ensures |values| < |columns| ==> err.Some? && node == old(node) && selected == old(selected)
      ensures |values| >= |columns| ==>
        match AssignAll(sw, old(node), columns, values)
        case Failure(e) => err == Some(e)
        case Success(n) => err.None? && node == n && selected == SelectAll(sw, old(selected), columns, values)
    {
      if |values| < |columns| {
        return Some(DriverError(1));
      }
      for i := 0 to |columns|
        invariant AssignAll(sw, old(node), columns, values) == AssignAll(sw, node, columns[i..], values[i..])
        invariant SelectAll(sw, old(selected), columns, values) == SelectAll(sw, selected, columns[i..], values[i..])
      {
        assert columns[i..][1..] == columns[i + 1..] && values[i..][1..] == values[i + 1..];
        var r := sw.assign(node, columns[i], values[i]);
        if r.Failure? {
          return Some(r.error);
        }
        node := r.value;
        if columns[i] !in sw.known {
          selected := selected[columns[i] := values[i]];
        }
      }
      err := None;
    }
  }

  /** Scanning a row and assigning it to a node. */
  function Decode<N>(sw: Switches<N>, zero: N, columns: seq<Column>, row: Record): Result<N>
    requires forall c :: c in columns ==> c in row
  {
    match ScanAll(sw, columns, row)
    case Failure(e) => Failure(e)
    case Success(values) =>
      if |values| >= |columns| then AssignAll(sw, zero, columns, values) else Failure(DriverError(1))
  }

  /**
   Both switches agree on a column: a legal value scans, passes the type assertion, and changes what the
   node shows for this column and no other. `show` reads a field as the value of its column.
   */
  ghost predicate FitsAt<N>(sw: Switches<N>, show: (N, Column) -> Datum, n: N, c: Column, v: Datum) {
    var s := Scan(sw.target(c), v);
    s.Success? && var r := sw.assign(n, c, s.value);
    r.Success? && show(r.value, c) == v && forall d :: d != c ==> show(r.value, d) == show(n, d)
  }

  ghost predicate Lawful<N(!new)>(sw: Switches<N>, show: (N, Column) -> Datum, legal: (Column, Datum) -> bool,
                                  zero: N)
  {
    forall n: N, c, v :: legal(c, v) && (v == Null ==> show(n, c) == show(zero, c)) ==> FitsAt(sw, show, n, c, v)
  }

  /** The node shows the row where columns have been read, and its zero value elsewhere. */
  ghost predicate Shows<N>(n: N, show: (N, Column) -> Datum, zero: N, row: Record, seen: set<Column>) {
    forall c :: show(n, c) == if c in seen && c in row then row[c] else show(zero, c)
  }

  lemma {:induction false} ScanAllLength<N>(sw: Switches<N>, columns: seq<Column>, row: Record)
    requires forall c :: c in columns ==> c in row
    ensures ScanAll(sw, columns, row).Success? ==> |ScanAll(sw, columns, row).value| == |columns|
  {
    if columns != [] {
      ScanAllLength(sw, columns[1..], row);
    }
  }

  /** For every list of columns, in any order and with repetitions, decoding succeeds and shows the row. */
  lemma {:induction false} DecodeShows<N(!new)>(sw: Switches<N>, show: (N, Column) -> Datum,
                                                legal: (Column, Datum) -> bool, zero: N, n: N, seen: set<Column>,
                                                columns: seq<Column>, row: Record)
    requires Lawful(sw, show, legal, zero) && Shows(n, show, zero, row, seen)
    requires forall c :: c in columns ==> c in row && legal(c, row[c])
    requires forall c :: c in row && row[c] == Null ==> show(zero, c) == Null
    ensures Decode(sw, n, columns, row).Success?
    ensures Shows(Decode(sw, n, columns, row).value, show, zero, row, seen + set c | c in columns)
    decreases |columns|
  {
    if columns == [] {
      assert seen + (set c | c in columns) == seen;
    } else {
      var c := columns[0];
      assert c in columns;
      var s := Scan(sw.target(c), row[c]);
      assert FitsAt(sw, show, n, c, row[c]);
      var n1 := sw.assign(n, c, s.value).value;
      assert Shows(n1, show, zero, row, seen + {c});
      forall d | d in columns[1..] ensures d in columns { }
      DecodeShows(sw, show, legal, zero, n1, seen + {c}, columns[1..], row);
      ScanAllLength(sw, columns[1..], row);
      var rest := ScanAll(sw, columns[1..], row).value;
      assert ([s.value] + rest)[1..] == rest;
      assert Decode(sw, n, columns, row) == Decode(sw, n1, columns[1..], row);
      assert seen + {c} + (set d | d in columns[1..]) == seen + (set d | d in columns);
    }
  }
}
