/** Laws of creating and updating rows: keys, upserts, and writing only what changed. */
module StoreLaws {
  import opened ObjectStore
  import opened Options

  /** A cell or value that a property may hold. */
  predicate Fits(p: Property, v: Value) {
    if v.Null? then p.nullable else p.base.Any? || BaseOf(v) == p.base
  }

  ghost predicate WellTyped(schema: seq<Property>, rows: seq<seq<Value>>) {
    && Shaped(schema, rows)
    && forall r, c :: 0 <= r < |rows| && 0 <= c < |schema| ==> Fits(schema[c], rows[r][c])
  }

  // ----- What populating does, column by column -----

  /** The first column from i on that fails, or their number. */
  ghost function Stop(schema: seq<Property>, cells: seq<Value>, m: Mode, i: nat): (s: nat)
    requires |cells| == |schema| && i <= |schema|
    ensures i <= s <= |schema|
    ensures forall c :: i <= c < s ==> !Column(schema[c], cells[c], m).Fail?
    ensures s < |schema| ==> Column(schema[s], cells[s], m).Fail?
    decreases |schema| - i
  {
    if i == |schema| || Column(schema[i], cells[i], m).Fail? then i else Stop(schema, cells, m, i + 1)
  }

  function After(d: Decision, cell: Value): Value {
    if d.Write? then d.value else cell
  }

  lemma {:induction false} StopIgnoresPast(schema: seq<Property>, a: seq<Value>, b: seq<Value>, m: Mode, i: nat)
    requires |a| == |b| == |schema| && i <= |schema|
    requires forall c :: i <= c < |schema| ==> a[c] == b[c]
    ensures Stop(schema, a, m, i) == Stop(schema, b, m, i)
    decreases |schema| - i
  {
    if i == |schema| {
    } else {
      StopIgnoresPast(schema, a, b, m, i + 1);
    }
  }

  /** The value of column c after populating the columns from i on, if it is reached before the first failure. */
  ghost function CellAfter(schema: seq<Property>, cells: seq<Value>, m: Mode, i: nat, c: nat): Value
    requires |cells| == |schema| && i <= |schema| && c < |schema|
  {
    if i <= c < Stop(schema, cells, m, i) then After(Column(schema[c], cells[c], m), cells[c]) else cells[c]
  }

  /**
   * Each column before the first failure gets its own decision applied to the cell it had; nothing
   * else in the table changes, and an error is reported exactly when some column fails.
   */
  lemma {:induction false} PopulateCells(schema: seq<Property>, t: Cells, row: nat, m: Mode, i: nat)
    requires Shaped(schema, t.rows) && row < |t.rows| && i <= |schema|
    ensures var (t', error) := Populate(schema, t, row, m, i);
      && Shaped(schema, t'.rows)
      && (forall r :: 0 <= r < |t.rows| && r != row ==> t'.rows[r] == t.rows[r])
      && (forall c :: 0 <= c < |schema| ==> t'.rows[row][c] == CellAfter(schema, t.rows[row], m, i, c))
    decreases |schema| - i
  {
    if i == |schema| {
    } else {
      var d := Column(schema[i], t.rows[row][i], m);
      if d.Keep? {
        PopulateCells(schema, t, row, m, i + 1);
      } else if d.Write? {
        var next := SetCell(t, row, i, d.value);
        PopulateCells(schema, next, row, m, i + 1);
        StopIgnoresPast(schema, t.rows[row], next.rows[row], m, i + 1);
      }
    }
  }

  /** Populating throws exactly when some column fails, and then with that column's error. */
  lemma {:induction false} PopulateError(schema: seq<Property>, t: Cells, row: nat, m: Mode, i: nat)
    requires Shaped(schema, t.rows) && row < |t.rows| && i <= |schema|
    ensures var error, stop := Populate(schema, t, row, m, i).1, Stop(schema, t.rows[row], m, i);
      && (error.None? <==> stop == |schema|)
      && (error.Some? ==> Column(schema[stop], t.rows[row][stop], m) == Fail(error.value))
    decreases |schema| - i
  {
    if i == |schema| {
    } else {
      var d := Column(schema[i], t.rows[row][i], m);
      if d.Keep? {
        PopulateError(schema, t, row, m, i + 1);
      } else if d.Write? {
        var next := SetCell(t, row, i, d.value);
        PopulateError(schema, next, row, m, i + 1);
        StopIgnoresPast(schema, t.rows[row], next.rows[row], m, i + 1);
      }
    }
  }

  lemma {:induction false} WritesSince(before: seq<Cell>, x: Cell, after: seq<Cell>)
    requires before + [x] <= after
    ensures before <= after && after[|before|..] == [x] + after[|before + [x]|..]
  {
  }

  /** The cells written are those of the columns, before the first failure, that decide to write. */
  lemma {:induction false} PopulateWrites(schema: seq<Property>, t: Cells, row: nat, m: Mode, i: nat)
    requires Shaped(schema, t.rows) && row < |t.rows| && i <= |schema|
    ensures var t' := Populate(schema, t, row, m, i).0;
      && t.writes <= t'.writes
      && forall x :: x in t'.writes[|t.writes|..] <==>
           (x.row == row && i <= x.col < Stop(schema, t.rows[row], m, i)
            && Column(schema[x.col], t.rows[row][x.col], m).Write?)
    decreases |schema| - i
  {
    if i == |schema| {
    } else {
      var d := Column(schema[i], t.rows[row][i], m);
      if d.Keep? {
        PopulateWrites(schema, t, row, m, i + 1);
      } else if d.Write? {
        var next := SetCell(t, row, i, d.value);
        PopulateWrites(schema, next, row, m, i + 1);
        StopIgnoresPast(schema, t.rows[row], next.rows[row], m, i + 1);
        WritesSince(t.writes, Cell(row, i), Populate(schema, t, row, m, i).0.writes);
      }
    }
  }

  // ----- When a column accepts its input, and what it then holds -----

  predicate Acceptable(p: Property, v: Value) {
    if v.Null? then p.nullable else !p.base.Any? && BaseOf(v) == p.base
  }

  predicate Skipped(p: Property, m: Mode) {
    (m.skipPrimary && p.isPrimary) || (!m.created && Supplied(p, m).None?)
  }

  /** What a caller can check beforehand: the supplied value fits, or nothing needs to be supplied. */
  predicate Accepts(p: Property, m: Mode) {
    Skipped(p, m) || match Supplied(p, m)
      case None => p.nullable || (m.input.allowMissing && !p.isPrimary)
      case Some(v) => Acceptable(p, v)
  }

  /** A null cell reads just like this value, which the write-only-what-changed mode then does not write. */
  predicate Hides(p: Property, cell: Value, v: Value, nullRead: Base -> Value) {
    cell.Null? && !v.Null? && nullRead(p.base) == v
  }

  /** What core's documentation says of reading a null cell: a default, but null for strings, data and dates. */
  function DocumentedNullRead(base: Base): Value {
    match base
    case String => Null
    case Data => Null
    case Date => Null
    case _ => Empty(Property("", base, false, false))
  }

  /** A column fails exactly when it does not accept its input, and otherwise takes it unless a null hides it. */
  lemma {:induction false} ColumnLaw(p: Property, cell: Value, m: Mode)
    requires Fits(p, cell)
    ensures Column(p, cell, m).Fail? <==> !Accepts(p, m)
    ensures Column(p, cell, m).Write? ==> Fits(p, Column(p, cell, m).value)
    ensures Skipped(p, m) ==> Column(p, cell, m) == Keep
    ensures Accepts(p, m) ==>
      After(Column(p, cell, m), cell)
      == if Skipped(p, m) || Supplied(p, m).None? || (m.diff && Hides(p, cell, Supplied(p, m).value, m.nullRead))
         then cell else Supplied(p, m).value
  {
  }

  lemma {:induction false} PopulateSucceedsIff(schema: seq<Property>, t: Cells, row: nat, m: Mode)
    requires WellTyped(schema, t.rows) && row < |t.rows|
    ensures Populate(schema, t, row, m, 0).1.None? <==> forall c :: 0 <= c < |schema| ==> Accepts(schema[c], m)
  {
    PopulateError(schema, t, row, m, 0);
    forall c | 0 <= c < |schema| ensures Column(schema[c], t.rows[row][c], m).Fail? <==> !Accepts(schema[c], m) {
      ColumnLaw(schema[c], t.rows[row][c], m);
    }
  }

  lemma {:induction false} PopulateKeepsTypes(schema: seq<Property>, t: Cells, row: nat, m: Mode)
    requires WellTyped(schema, t.rows) && row < |t.rows|
    ensures WellTyped(schema, Populate(schema, t, row, m, 0).0.rows)
  {
    PopulateCells(schema, t, row, m, 0);
    var t' := Populate(schema, t, row, m, 0).0;
    forall r, c | 0 <= r < |t'.rows| && 0 <= c < |schema| ensures Fits(schema[c], t'.rows[r][c]) {
      ColumnLaw(schema[c], t.rows[r][c], m);
    }
  }

  // ----- Keys over every run -----

  ghost predicate KeysUnique(rows: seq<seq<Value>>, k: nat)
    requires forall r :: 0 <= r < |rows| ==> k < |rows[r]|
  {
    forall i, j :: 0 <= i < j < |rows| ==> rows[i][k] != rows[j][k]
  }

  /** No row is lost, and each old row has the key it had. */
  ghost predicate KeysKept(before: seq<seq<Value>>, after: seq<seq<Value>>, k: nat)
    requires forall r :: 0 <= r < |before| ==> k < |before[r]|
    requires forall r :: 0 <= r < |after| ==> k < |after[r]|
  {
    |before| <= |after| && forall r :: 0 <= r < |before| ==> after[r][k] == before[r][k]
  }

  lemma {:induction false} NewRowTyped(schema: seq<Property>, t: Cells)
    requires WellTyped(schema, t.rows)
    ensures WellTyped(schema, NewRow(schema, t).rows)
  {
  }

  lemma {:induction false} KeyFits(p: Property, input: Input, defaults: map<string, Value>)
    ensures KeyOf(p, input, defaults).Key? ==> Fits(p, KeyOf(p, input, defaults).value)
  {
  }

  lemma {:induction false} TargetKeeps(schema: seq<Property>, t: Cells, q: Request)
    requires WellTyped(schema, t.rows) && ValidSchema(schema)
    requires q.currentRow.Some? ==> q.currentRow.value < |t.rows|
    ensures var target := FindTarget(schema, t, q);
      target.Target? ==> (
        && WellTyped(schema, target.t.rows)
        && |t.rows| <= |target.t.rows| <= |t.rows| + 1
        && target.t.writes == t.writes
        && forall r :: 0 <= r < |t.rows| ==> target.t.rows[r] == t.rows[r])
  {
    NewRowTyped(schema, t);
    if PrimaryIndex(schema).Some? {
      KeyFits(schema[PrimaryIndex(schema).value], q.input, q.defaults);
    }
  }

  lemma {:induction false} TargetKeysUnique(schema: seq<Property>, t: Cells, q: Request, k: nat)
    requires WellTyped(schema, t.rows) && ValidSchema(schema)
    requires q.currentRow.Some? ==> q.currentRow.value < |t.rows|
    requires PrimaryIndex(schema) == Some(k) && KeysUnique(t.rows, k) && !q.inMigration
    ensures var target := FindTarget(schema, t, q);
      target.Target? ==> target.skipPrimary && KeysUnique(target.t.rows, k)
  {
  }

  /** Whatever comes of it, a creation outside migration keeps types, keys and rows. */
  lemma {:induction false} CreateKeepsKeys(schema: seq<Property>, t: Cells, q: Request, k: nat)
    requires WellTyped(schema, t.rows) && ValidSchema(schema)
    requires q.currentRow.Some? ==> q.currentRow.value < |t.rows|
    requires PrimaryIndex(schema) == Some(k) && KeysUnique(t.rows, k) && !q.inMigration
    ensures var t' := Create(schema, t, q).0;
      WellTyped(schema, t'.rows) && KeysUnique(t'.rows, k) && KeysKept(t.rows, t'.rows, k)
  {
    TargetKeeps(schema, t, q);
    TargetKeysUnique(schema, t, q, k);
    var target := FindTarget(schema, t, q);
    if target.Target? {
      var m := ModeOf(q, target.created, target.skipPrimary);
      PopulateKeepsTypes(schema, target.t, target.row, m);
      PopulateCells(schema, target.t, target.row, m, 0);
      var t' := Populate(schema, target.t, target.row, m, 0).0;
      forall r | 0 <= r < |t'.rows| ensures t'.rows[r][k] == target.t.rows[r][k] {
        ColumnLaw(schema[k], target.t.rows[r][k], m);
      }
    }
  }

  /** Setting a property writes its one cell if the value is acceptable and no key is protected, and else nothing. */
  lemma {:induction false} SetPropertyCell(schema: seq<Property>, t: Cells, row: nat, name: string, v: Value,
                                           inMigration: bool, nullRead: Base -> Value)
    requires WellTyped(schema, t.rows) && row < |t.rows|
    ensures var t' := SetProperty(schema, t, row, name, v, inMigration, nullRead).0; var c := IndexOf(schema, name);
      if c.Some? && (!schema[c.value].isPrimary || inMigration) && Acceptable(schema[c.value], v)
      then t'.rows == t.rows[row := t.rows[row][c.value := v]]
      else t' == t
  {
  }

  lemma {:induction false} CellKeepsTypes(schema: seq<Property>, rows: seq<seq<Value>>, row: nat, c: nat, v: Value)
    requires WellTyped(schema, rows) && row < |rows| && c < |schema| && Fits(schema[c], v)
    ensures WellTyped(schema, rows[row := rows[row][c := v]])
  {
  }

  lemma {:induction false} SetPropertyKeepsKeys(schema: seq<Property>, t: Cells, row: nat, name: string, v: Value,
                                                nullRead: Base -> Value, k: nat)
    requires WellTyped(schema, t.rows) && row < |t.rows|
    requires PrimaryIndex(schema) == Some(k) && KeysUnique(t.rows, k)
    ensures var t' := SetProperty(schema, t, row, name, v, false, nullRead).0;
      WellTyped(schema, t'.rows) && KeysUnique(t'.rows, k) && KeysKept(t.rows, t'.rows, k)
  {
    SetPropertyCell(schema, t, row, name, v, false, nullRead);
    var t', c := SetProperty(schema, t, row, name, v, false, nullRead).0, IndexOf(schema, name);
    if t' != t {
      CellKeepsTypes(schema, t.rows, row, c.value, v);
      assert forall r :: 0 <= r < |t.rows| ==> t'.rows[r][k] == t.rows[r][k];
    }
  }

  datatype Call =
    | CreateCall(request: Request)
    | SetCall(row: nat, name: string, value: Value, nullRead: Base -> Value)

  /** A call can be made when the rows it refers to exist. */
  predicate Callable(t: Cells, call: Call) {
    match call
    case CreateCall(q) => !q.inMigration && (q.currentRow.Some? ==> q.currentRow.value < |t.rows|)
    case SetCall(row, _, _, _) => row < |t.rows|
  }

  function Perform(schema: seq<Property>, t: Cells, call: Call): Cells
    requires Shaped(schema, t.rows) && ValidSchema(schema) && Callable(t, call)
  {
    match call
    case CreateCall(q) => Create(schema, t, q).0
    case SetCall(row, name, value, nullRead) => SetProperty(schema, t, row, name, value, false, nullRead).0
  }

  ghost predicate IsHistory(schema: seq<Property>, ts: seq<Cells>, calls: seq<Call>) {
    && |ts| == |calls| + 1
    && forall i {:trigger calls[i]} :: 0 <= i < |calls| ==>
         && Shaped(schema, ts[i].rows) && ValidSchema(schema) && Callable(ts[i], calls[i])
         && ts[i + 1] == Perform(schema, ts[i], calls[i])
  }

  lemma {:induction false} PerformKeepsKeys(schema: seq<Property>, t: Cells, call: Call, k: nat)
    requires WellTyped(schema, t.rows) && ValidSchema(schema) && Callable(t, call)
    requires PrimaryIndex(schema) == Some(k) && KeysUnique(t.rows, k)
    ensures var t' := Perform(schema, t, call);
      WellTyped(schema, t'.rows) && KeysUnique(t'.rows, k) && KeysKept(t.rows, t'.rows, k)
  {
    match call
    case CreateCall(q) => CreateKeepsKeys(schema, t, q, k);
    case SetCall(row, name, value, nullRead) => SetPropertyKeepsKeys(schema, t, row, name, value, nullRead, k);
  }

  lemma {:induction false} KeysKeptTwice(a: seq<seq<Value>>, b: seq<seq<Value>>, c: seq<seq<Value>>, k: nat)
    requires forall r :: 0 <= r < |a| ==> k < |a[r]|
    requires forall r :: 0 <= r < |b| ==> k < |b[r]|
    requires forall r :: 0 <= r < |c| ==> k < |c[r]|
    requires KeysKept(a, b, k) && KeysKept(b, c, k)
    ensures KeysKept(a, c, k)
  {
    forall r | 0 <= r < |a| ensures c[r][k] == a[r][k] {
      assert b[r][k] == a[r][k];
    }
  }

  /**
   * Over every sequence of calls outside migration, those that throw halfway included, no two rows
   * ever share a key, no row disappears and no row's key ever changes.
   */
  lemma {:induction false} KeysOverHistory(schema: seq<Property>, ts: seq<Cells>, calls: seq<Call>, k: nat, i: nat)
    requires IsHistory(schema, ts, calls) && ValidSchema(schema) && i < |ts|
    requires PrimaryIndex(schema) == Some(k) && WellTyped(schema, ts[0].rows) && KeysUnique(ts[0].rows, k)
    ensures WellTyped(schema, ts[i].rows) && KeysUnique(ts[i].rows, k) && KeysKept(ts[0].rows, ts[i].rows, k)
  {
    if i == 0 {
    } else {
      KeysOverHistory(schema, ts, calls, k, i - 1);
      var before, call := ts[i - 1], calls[i - 1];
      PerformKeepsKeys(schema, before, call, k);
      KeysKeptTwice(ts[0].rows, before.rows, ts[i].rows, k);
    }
  }
}
