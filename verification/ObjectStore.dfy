/**
 * Creating and updating rows of one table from loosely typed input, as values: which cells a call
 * writes, when it throws, and what is left behind when it does. ObjectTable.dfy has the calls
 * themselves, working in place.
 */
module ObjectStore {

  import opened Options

  datatype Base = Int | Bool | String | Data | Date | Float | Double | Any

  datatype Property = Property(name: string, base: Base, nullable: bool, isPrimary: bool)

  datatype Value =
    | Null
    | IntValue(i: int)
    | BoolValue(b: bool)
    | StringValue(s: string)
    | DataValue(bytes: seq<int>)
    | DateValue(seconds: int, nanoseconds: int)
    | FloatValue(f: real)
    | DoubleValue(d: real)

  datatype Error =
    | MissingPropertyValue(name: string)
    | ModifyPrimaryKey(name: string)
    | InvalidProperty(name: string)
    | DuplicateKey
    | NullKey
    | BadValue(name: string)
    | NotSupported

  /** A dictionary of values, and whether the binding tolerates missing ones. */
  datatype Input = Input(given: map<string, Value>, allowMissing: bool)

  datatype Cell = Cell(row: nat, col: nat)

  /** A table's rows, and the cells written through table.set so far. */
  datatype Cells = Cells(rows: seq<seq<Value>>, writes: seq<Cell>)

  /**
   * How to populate a row. What core returns for a null cell read as a plain value is not visible,
   * so it is a parameter.
   */
  datatype Mode = Mode(
    input: Input,
    defaults: map<string, Value>,
    created: bool,
    skipPrimary: bool,
    diff: bool,
    nullRead: Base -> Value)

  function Lookup(m: map<string, Value>, name: string): Option<Value> {
    if name in m then Some(m[name]) else None
  }

  function BaseOf(v: Value): Base
    requires !v.Null?
  {
    match v
    case IntValue(_) => Int
    case BoolValue(_) => Bool
    case StringValue(_) => String
    case DataValue(_) => Data
    case DateValue(_, _) => Date
    case FloatValue(_) => Float
    case DoubleValue(_) => Double
  }

  /** The value of a new cell. */
  function Empty(p: Property): Value {
    if p.nullable then Null
    else match p.base
      case Int => IntValue(0)
      case Bool => BoolValue(false)
      case String => StringValue("")
      case Data => DataValue([])
      case Date => DateValue(0, 0)
      case Float => FloatValue(0.0)
      case Double => DoubleValue(0.0)
      case Any => IntValue(0)
  }

  /** Null strings and data unbox to null; anything else must hold exactly the wanted type. */
  function Unbox(base: Base, v: Value): Option<Value> {
    if v.Null? then (if base.String? || base.Data? then Some(Null) else None)
    else if BaseOf(v) == base then Some(v)
    else None
  }

  // ----- One cell -----

  datatype Decision = Keep | Write(value: Value) | Fail(error: Error)

  function Read(p: Property, cell: Value, nullRead: Base -> Value): Value {
    if cell.Null? then nullRead(p.base) else cell
  }

  /** What setting a property to v does to its cell. A null that reaches a required column is refused. */
  function SetDecision(p: Property, cell: Value, v: Value, diff: bool, nullRead: Base -> Value): Decision {
    if p.nullable && v.Null? then (if !diff || !cell.Null? then Write(Null) else Keep)
    else if p.base.Any? then Fail(NotSupported)
    else match Unbox(p.base, v)
      case None => Fail(BadValue(p.name))
      case Some(u) =>
        if diff && Read(p, cell, nullRead) == u then Keep
        else if u.Null? then Fail(BadValue(p.name))
        else Write(u)
  }

  /** The value the input supplies for a property, or, for a new row, its default. */
  function Supplied(p: Property, m: Mode): Option<Value> {
    var v := Lookup(m.input.given, p.name);
    if v.None? && m.created then Lookup(m.defaults, p.name) else v
  }

  function Column(p: Property, cell: Value, m: Mode): Decision {
    var v := Supplied(p, m);
    if m.skipPrimary && p.isPrimary then Keep
    else if !m.created && v.None? then Keep
    else if (v.None? || v.value.Null?) && !p.nullable && (p.isPrimary || !m.input.allowMissing)
      then Fail(MissingPropertyValue(p.name))
    else if v.None? then Keep
    else SetDecision(p, cell, v.value, m.diff, m.nullRead)
  }

  // ----- One row -----

  ghost predicate Shaped(schema: seq<Property>, rows: seq<seq<Value>>) {
    forall r :: 0 <= r < |rows| ==> |rows[r]| == |schema|
  }

  function SetCell(t: Cells, row: nat, col: nat, v: Value): Cells
    requires row < |t.rows| && col < |t.rows[row]|
  {
    Cells(t.rows[row := t.rows[row][col := v]], t.writes + [Cell(row, col)])
  }

  /** Populate the columns from i on, in order, up to the first that fails. */
  function Populate(schema: seq<Property>, t: Cells, row: nat, m: Mode, i: nat): (r: (Cells, Option<Error>))
    requires row < |t.rows| && |t.rows[row]| == |schema| && i <= |schema|
    ensures |r.0.rows| == |t.rows| && |r.0.rows[row]| == |schema|
    decreases |schema| - i
  {
    if i == |schema| then (t, None)
    else match Column(schema[i], t.rows[row][i], m)
      case Keep => Populate(schema, t, row, m, i + 1)
      case Write(u) => Populate(schema, SetCell(t, row, i, u), row, m, i + 1)
      case Fail(e) => (t, Some(e))
  }

  // ----- The primary key -----

  function PrimaryIndex(schema: seq<Property>): (r: Option<nat>)
    ensures r.Some? ==> r.value < |schema| && schema[r.value].isPrimary
    ensures r.Some? ==> forall i :: 0 <= i < r.value ==> !schema[i].isPrimary
    ensures r.None? <==> forall i :: 0 <= i < |schema| ==> !schema[i].isPrimary
  {
    if schema == [] then None
    else if schema[0].isPrimary then Some(0)
    else match PrimaryIndex(schema[1..])
      case None =>
        assert forall i :: 1 <= i < |schema| ==> schema[i] == schema[1..][i - 1];
        None
      case Some(k) => Some(k + 1)
  }

  /** Only integers and strings can be keys. */
  predicate ValidSchema(schema: seq<Property>) {
    forall i :: 0 <= i < |schema| && schema[i].isPrimary ==> schema[i].base.Int? || schema[i].base.String?
  }

  function FindFirst(rows: seq<seq<Value>>, col: nat, v: Value): (r: Option<nat>)
    requires forall i :: 0 <= i < |rows| ==> col < |rows[i]|
    ensures r.Some? ==> r.value < |rows| && rows[r.value][col] == v
    ensures r.Some? ==> forall i :: 0 <= i < r.value ==> rows[i][col] != v
    ensures r.None? <==> forall i :: 0 <= i < |rows| ==> rows[i][col] != v
  {
    if rows == [] then None
    else if rows[0][col] == v then Some(0)
    else match FindFirst(rows[1..], col, v)
      case None =>
        assert forall i :: 1 <= i < |rows| ==> rows[i] == rows[1..][i - 1];
        None
      case Some(k) => Some(k + 1)
  }

  datatype KeyResult = Key(value: Value) | NoKey(error: Error)

  /** The key the input names, as it will be stored. */
  function KeyOf(p: Property, input: Input, defaults: map<string, Value>): KeyResult {
    var given := Lookup(input.given, p.name);
    var v := if given.None? then Lookup(defaults, p.name) else given;
    if v.None? && !p.nullable then NoKey(MissingPropertyValue(p.name))
    else
      var key := if v.None? then Null else v.value;
      if key.Null? && !p.nullable then NoKey(NullKey)
      else if key.Null? then Key(Null)
      else if Unbox(p.base, key).None? then NoKey(BadValue(p.name))
      else Key(key)
  }

  // ----- Creating an object -----

  datatype Request = Request(
    input: Input,
    defaults: map<string, Value>,
    tryUpdate: bool,
    diff: bool,
    currentRow: Option<nat>,
    inMigration: bool,
    nullRead: Base -> Value)

  function ModeOf(q: Request, created: bool, skipPrimary: bool): Mode {
    Mode(q.input, q.defaults, created, skipPrimary, q.diff, q.nullRead)
  }

  datatype Outcome = Done(row: nat) | Threw(error: Error)

  function EmptyRow(schema: seq<Property>): (r: seq<Value>)
    ensures |r| == |schema|
    ensures forall i :: 0 <= i < |schema| ==> r[i] == Empty(schema[i])
  {
    seq(|schema|, i requires 0 <= i < |schema| => Empty(schema[i]))
  }

  /** Where to populate, and how; the table already has the row. */
  datatype Target = Target(t: Cells, row: nat, created: bool, skipPrimary: bool) | NoTarget(error: Error)

  function NewRow(schema: seq<Property>, t: Cells): Cells {
    t.(rows := t.rows + [EmptyRow(schema)])
  }

  function FindTarget(schema: seq<Property>, t: Cells, q: Request): (r: Target)
    requires Shaped(schema, t.rows) && ValidSchema(schema)
    requires q.currentRow.Some? ==> q.currentRow.value < |t.rows|
    ensures r.Target? ==> r.row < |r.t.rows| && Shaped(schema, r.t.rows)
  {
    match PrimaryIndex(schema)
    case None =>
      if q.diff && q.currentRow.Some? then Target(t, q.currentRow.value, false, true)
      else Target(NewRow(schema, t), |t.rows|, true, true)
    case Some(k) =>
      match KeyOf(schema[k], q.input, q.defaults)
      case NoKey(e) => NoTarget(e)
      case Key(key) =>
        match FindFirst(t.rows, k, key)
        case None =>
          // set_unique on the new row: no other row holds the key
          var added := NewRow(schema, t);
          Target(added.(rows := added.rows[|t.rows| := added.rows[|t.rows|][k := key]]), |t.rows|, true, true)
        case Some(r) =>
          if q.tryUpdate then Target(t, r, false, true)
          else if q.inMigration then Target(NewRow(schema, t), |t.rows|, true, false)
          else NoTarget(DuplicateKey)
  }

  function Create(schema: seq<Property>, t: Cells, q: Request): (Cells, Outcome)
    requires Shaped(schema, t.rows) && ValidSchema(schema)
    requires q.currentRow.Some? ==> q.currentRow.value < |t.rows|
  {
    match FindTarget(schema, t, q)
    case NoTarget(e) => (t, Threw(e))
    case Target(t', row, created, skipPrimary) =>
      var (t'', error) := Populate(schema, t', row, ModeOf(q, created, skipPrimary), 0);
      (t'', if error.Some? then Threw(error.value) else Done(row))
  }

  function IndexOf(schema: seq<Property>, name: string): (r: Option<nat>)
    ensures r.Some? ==> r.value < |schema| && schema[r.value].name == name
    ensures r.Some? ==> forall i :: 0 <= i < r.value ==> schema[i].name != name
    ensures r.None? <==> forall i :: 0 <= i < |schema| ==> schema[i].name != name
  {
    if schema == [] then None
    else if schema[0].name == name then Some(0)
    else match IndexOf(schema[1..], name)
      case None =>
        assert forall i :: 1 <= i < |schema| ==> schema[i] == schema[1..][i - 1];
        None
      case Some(k) => Some(k + 1)
  }

  function SetProperty(schema: seq<Property>, t: Cells, row: nat, name: string, v: Value, inMigration: bool,
                       nullRead: Base -> Value): (Cells, Option<Error>)
    requires Shaped(schema, t.rows) && row < |t.rows|
  {
    match IndexOf(schema, name)
    case None => (t, Some(InvalidProperty(name)))
    case Some(c) =>
      if schema[c].isPrimary && !inMigration then (t, Some(ModifyPrimaryKey(name)))
      else match SetDecision(schema[c], t.rows[row][c], v, false, nullRead)
        case Keep => (t, None)
        case Write(u) => (SetCell(t, row, c, u), None)
        case Fail(e) => (t, Some(e))
  }
}
