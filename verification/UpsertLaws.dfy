/** What create does to a table with a primary key when updating is allowed, and in each write mode. */
module UpsertLaws {
  import opened ObjectStore
  import opened Options
  import opened StoreLaws

  ghost predicate HasKey(rows: seq<seq<Value>>, k: nat, key: Value)
    requires forall r :: 0 <= r < |rows| ==> k < |rows[r]|
  {
    exists r :: 0 <= r < |rows| && rows[r][k] == key
  }

  /** The value a property of a new object has: supplied, or the default, or empty. */
  function NewValue(p: Property, given: map<string, Value>, defaults: map<string, Value>): Value {
    if p.name in given then given[p.name] else if p.name in defaults then defaults[p.name] else Empty(p)
  }

  /** The value a column of the row must end with: on a hit, what is not supplied stays. */
  function Expected(p: Property, cell: Value, q: Request, hit: bool): Value {
    if hit && p.name !in q.input.given then cell else NewValue(p, q.input.given, q.defaults)
  }

  /** The row a creation ends with: each column of the target row gets its decision; no other row changes. */
  lemma {:induction false} CreateCells(schema: seq<Property>, t: Cells, q: Request)
    requires WellTyped(schema, t.rows) && ValidSchema(schema)
    requires q.currentRow.Some? ==> q.currentRow.value < |t.rows|
    requires Create(schema, t, q).1.Done?
    ensures var target, t' := FindTarget(schema, t, q), Create(schema, t, q).0;
      && target.Target?
      && Create(schema, t, q).1 == Done(target.row)
      && WellTyped(schema, target.t.rows)
      && WellTyped(schema, t'.rows) && |t'.rows| == |target.t.rows|
      && (forall r :: 0 <= r < |t'.rows| && r != target.row ==> t'.rows[r] == target.t.rows[r])
      && var m := ModeOf(q, target.created, target.skipPrimary);
         forall c :: 0 <= c < |schema| ==>
           && Accepts(schema[c], m)
           && t'.rows[target.row][c]
              == After(Column(schema[c], target.t.rows[target.row][c], m), target.t.rows[target.row][c])
  {
    var target := FindTarget(schema, t, q);
    var m := ModeOf(q, target.created, target.skipPrimary);
    TargetKeeps(schema, t, q);
    PopulateSucceedsIff(schema, target.t, target.row, m);
    PopulateError(schema, target.t, target.row, m, 0);
    PopulateCells(schema, target.t, target.row, m, 0);
    PopulateKeepsTypes(schema, target.t, target.row, m);
  }

  /** With a primary key and update allowed, the target is the first row with the key, or a new row that has it. */
  lemma {:induction false} UpsertTarget(schema: seq<Property>, t: Cells, q: Request, k: nat)
    requires Shaped(schema, t.rows) && ValidSchema(schema) && PrimaryIndex(schema) == Some(k)
    requires q.currentRow.Some? ==> q.currentRow.value < |t.rows|
    requires q.tryUpdate && FindTarget(schema, t, q).Target?
    ensures var target, key := FindTarget(schema, t, q), KeyOf(schema[k], q.input, q.defaults);
      && key.Key? && target.skipPrimary
      && (target.created <==> !HasKey(t.rows, k, key.value))
      && target.t.rows[target.row][k] == key.value
      && (!target.created ==> target.t == t)
      && (target.created ==>
            && target.row == |t.rows| && |target.t.rows| == |t.rows| + 1 && target.t.rows[..|t.rows|] == t.rows
            && forall c :: 0 <= c < |schema| && c != k ==> target.t.rows[target.row][c] == Empty(schema[c]))
  {
  }

  /** The first row with the key, or the row after the last. */
  function UpsertRow(rows: seq<seq<Value>>, k: nat, key: Value): nat
    requires forall r :: 0 <= r < |rows| ==> k < |rows[r]|
  {
    var found := FindFirst(rows, k, key);
    if found.Some? then found.value else |rows|
  }

  /**
   * Creating with update allowed, whether it goes through or throws: without a usable key nothing
   * changes; with one, a row is added exactly when no row has the key, the row that the call is
   * about has it, and no other row changes.
   */
  lemma {:induction false} UpsertRows(schema: seq<Property>, t: Cells, q: Request, k: nat)
    requires WellTyped(schema, t.rows) && ValidSchema(schema) && PrimaryIndex(schema) == Some(k)
    requires q.currentRow.Some? ==> q.currentRow.value < |t.rows|
    requires q.tryUpdate
    ensures var (t', outcome) := Create(schema, t, q);
      match KeyOf(schema[k], q.input, q.defaults)
      case NoKey(e) => t' == t && outcome == Threw(e)
      case Key(key) =>
        var row := UpsertRow(t.rows, k, key);
        && Shaped(schema, t'.rows)
        && |t'.rows| == |t.rows| + (if HasKey(t.rows, k, key) then 0 else 1)
        && (row < |t.rows| <==> HasKey(t.rows, k, key))
        && (forall r :: 0 <= r < |t.rows| && r != row ==> t'.rows[r] == t.rows[r])
        && t'.rows[row][k] == key
        && (outcome.Done? ==> outcome.row == row)
  {
    var target := FindTarget(schema, t, q);
    if target.Target? {
      var m := ModeOf(q, target.created, target.skipPrimary);
      UpsertTarget(schema, t, q, k);
      TargetKeeps(schema, t, q);
      PopulateCells(schema, target.t, target.row, m, 0);
      ColumnLaw(schema[k], target.t.rows[target.row][k], m);
    }
  }

  /** In the write-only-what-changed mode, a null cell reads just like the value that should replace it. */
  predicate Mistaken(p: Property, start: Value, wanted: Value, q: Request) {
    q.diff && Hides(p, start, wanted, q.nullRead)
  }

  lemma {:induction false} ExpectedColumn(p: Property, q: Request, created: bool, start: Value)
    requires !p.isPrimary && (created ==> start == Empty(p)) && Fits(p, start)
    requires Accepts(p, ModeOf(q, created, true))
    ensures var wanted := Expected(p, start, q, !created);
      After(Column(p, start, ModeOf(q, created, true)), start) == wanted <==> !Mistaken(p, start, wanted, q)
  {
    ColumnLaw(p, start, ModeOf(q, created, true));
  }

  /**
   * The other columns of that row hold the supplied values, and elsewhere what they held before, or
   * in a new row the defaults, exactly unless a null cell is mistaken for its new value.
   */
  lemma {:induction false} UpsertCells(schema: seq<Property>, t: Cells, q: Request, k: nat, c: nat)
    requires WellTyped(schema, t.rows) && ValidSchema(schema) && PrimaryIndex(schema) == Some(k)
    requires q.currentRow.Some? ==> q.currentRow.value < |t.rows|
    requires q.tryUpdate && Create(schema, t, q).1.Done?
    requires c < |schema| && !schema[c].isPrimary
    ensures var (t', done) := Create(schema, t, q);
      var hit := done.row < |t.rows|;
      var start := if hit then t.rows[done.row][c] else Empty(schema[c]);
      var wanted := Expected(schema[c], start, q, hit);
      && done.row < |t'.rows| && |t'.rows[done.row]| == |schema|
      && (t'.rows[done.row][c] == wanted <==> !Mistaken(schema[c], start, wanted, q))
  {
    CreateCells(schema, t, q);
    UpsertTarget(schema, t, q, k);
    var target := FindTarget(schema, t, q);
    ExpectedColumn(schema[c], q, target.created, target.t.rows[target.row][c]);
  }

  /** With nulls read as documented, writing zero over a null integer in that mode writes nothing. */
  lemma {:induction false} NullIntegerMistaken()
    ensures var schema := [Property("key", Int, false, true), Property("n", Int, true, false)];
      var t := Cells([[IntValue(1), Null]], []);
      var q := Request(Input(map["key" := IntValue(1), "n" := IntValue(0)], false), map[], true, true, None, false,
                       DocumentedNullRead);
      && WellTyped(schema, t.rows)
      && Create(schema, t, q) == (t, Done(0))
  {
    var schema := [Property("key", Int, false, true), Property("n", Int, true, false)];
    var t := Cells([[IntValue(1), Null]], []);
    var q := Request(Input(map["key" := IntValue(1), "n" := IntValue(0)], false), map[], true, true, None, false,
                     DocumentedNullRead);
    var m := ModeOf(q, false, true);
    assert PrimaryIndex(schema) == Some(0);
    assert FindFirst(t.rows, 0, IntValue(1)) == Some(0);
    assert Column(schema[0], t.rows[0][0], m) == Keep && Column(schema[1], t.rows[0][1], m) == Keep;
    assert Populate(schema, t, 0, m, 2) == (t, None);
    assert Populate(schema, t, 0, m, 1) == (t, None);
  }

  /** With update allowed, creation goes through exactly when the key and every other supplied value are acceptable. */
  lemma {:induction false} UpsertSucceedsIff(schema: seq<Property>, t: Cells, q: Request, k: nat)
    requires WellTyped(schema, t.rows) && ValidSchema(schema) && PrimaryIndex(schema) == Some(k)
    requires q.currentRow.Some? ==> q.currentRow.value < |t.rows|
    requires q.tryUpdate
    ensures var key := KeyOf(schema[k], q.input, q.defaults);
      Create(schema, t, q).1.Done? <==>
        && key.Key?
        && forall c :: 0 <= c < |schema| ==>
             Accepts(schema[c], ModeOf(q, !HasKey(t.rows, k, key.value), true))
  {
    var target := FindTarget(schema, t, q);
    if target.Target? {
      TargetKeeps(schema, t, q);
      PopulateSucceedsIff(schema, target.t, target.row, ModeOf(q, target.created, target.skipPrimary));
    }
  }

  lemma {:induction false} FindFirstSame(a: seq<seq<Value>>, b: seq<seq<Value>>, k: nat, v: Value)
    requires |a| == |b| && forall r :: 0 <= r < |a| ==> k < |a[r]| && k < |b[r]| && a[r][k] == b[r][k]
    ensures FindFirst(a, k, v) == FindFirst(b, k, v)
  {
    if a == [] {
    } else {
      FindFirstSame(a[1..], b[1..], k, v);
    }
  }

  /** Looking the key up again finds the row that the first call created or updated. */
  lemma {:induction false} FindAgain(schema: seq<Property>, t: Cells, q: Request, k: nat)
    requires WellTyped(schema, t.rows) && ValidSchema(schema) && PrimaryIndex(schema) == Some(k)
    requires q.currentRow.Some? ==> q.currentRow.value < |t.rows|
    requires q.tryUpdate && Create(schema, t, q).1.Done?
    ensures var (t', done) := Create(schema, t, q);
      && Shaped(schema, t'.rows) && done.row < |t'.rows| && |t.rows| <= |t'.rows|
      && FindTarget(schema, t', q) == Target(t', done.row, false, true)
  {
    UpsertRows(schema, t, q, k);
    var (t', done) := Create(schema, t, q);
    var key := KeyOf(schema[k], q.input, q.defaults).value;
    if HasKey(t.rows, k, key) {
      FindFirstSame(t.rows, t'.rows, k, key);
    } else {
      assert forall r :: 0 <= r < |t.rows| ==> t'.rows[r][k] != key;
    }
    assert FindFirst(t'.rows, k, key) == Some(done.row);
  }

  /** A column that has taken its input takes it again without changing. */
  lemma {:induction false} ColumnAgain(p: Property, cell: Value, q: Request, created: bool)
    requires Fits(p, cell) && Accepts(p, ModeOf(q, created, true))
    ensures var after, m := After(Column(p, cell, ModeOf(q, created, true)), cell), ModeOf(q, false, true);
      Accepts(p, m) && After(Column(p, after, m), after) == after
  {
  }

  /** Populating a row whose columns all keep their values changes nothing. */
  lemma {:induction false} PopulateFixpoint(schema: seq<Property>, t: Cells, row: nat, m: Mode)
    requires WellTyped(schema, t.rows) && row < |t.rows|
    requires forall c :: 0 <= c < |schema| ==>
      Accepts(schema[c], m) && After(Column(schema[c], t.rows[row][c], m), t.rows[row][c]) == t.rows[row][c]
    ensures Populate(schema, t, row, m, 0).1.None? && Populate(schema, t, row, m, 0).0.rows == t.rows
  {
    PopulateSucceedsIff(schema, t, row, m);
    PopulateError(schema, t, row, m, 0);
    PopulateCells(schema, t, row, m, 0);
    var t' := Populate(schema, t, row, m, 0).0;
    assert t'.rows[row] == t.rows[row];
    assert t'.rows == t.rows;
  }

  /** Repeating a successful upsert succeeds on the same row and leaves every row as it is. */
  lemma {:induction false} UpsertIdempotent(schema: seq<Property>, t: Cells, q: Request, k: nat)
    requires WellTyped(schema, t.rows) && ValidSchema(schema) && PrimaryIndex(schema) == Some(k)
    requires q.currentRow.Some? ==> q.currentRow.value < |t.rows|
    requires q.tryUpdate && Create(schema, t, q).1.Done?
    ensures var (t', done) := Create(schema, t, q);
      && Shaped(schema, t'.rows) && |t.rows| <= |t'.rows|
      && Create(schema, t', q).1 == done
      && Create(schema, t', q).0.rows == t'.rows
  {
    FindAgain(schema, t, q, k);
    CreateCells(schema, t, q);
    UpsertTarget(schema, t, q, k);
    var (t', done) := Create(schema, t, q);
    var target := FindTarget(schema, t, q);
    forall c | 0 <= c < |schema|
      ensures var m, cell := ModeOf(q, false, true), t'.rows[done.row][c];
        Accepts(schema[c], m) && After(Column(schema[c], cell, m), cell) == cell
    {
      ColumnAgain(schema[c], target.t.rows[target.row][c], q, target.created);
    }
    PopulateFixpoint(schema, t', done.row, ModeOf(q, false, true));
  }

  // ----- Writing only what changed -----

  /** A null cell whose new value looks, when read, as if it were there already. */
  predicate Clash(p: Property, cell: Value, m: Mode) {
    && !Skipped(p, m)
    && Supplied(p, m).Some?
    && Hides(p, cell, Supplied(p, m).value, m.nullRead)
  }

  lemma {:induction false} DiffColumn(p: Property, cell: Value, m: Mode)
    requires Fits(p, cell) && m.diff
    ensures var plain := m.(diff := false);
      && (Column(p, cell, m).Fail? <==> Column(p, cell, plain).Fail?)
      && (Accepts(p, m) ==>
            (After(Column(p, cell, m), cell) == After(Column(p, cell, plain), cell) <==> !Clash(p, cell, m)))
      && (Column(p, cell, m).Write? <==>
            Column(p, cell, plain).Write? && Column(p, cell, plain).value != cell && !Clash(p, cell, m))
  {
    ColumnLaw(p, cell, m);
    ColumnLaw(p, cell, m.(diff := false));
  }

  lemma {:induction false} DiffStop(schema: seq<Property>, cells: seq<Value>, m: Mode, i: nat)
    requires |cells| == |schema| && i <= |schema| && m.diff
    requires forall c :: 0 <= c < |schema| ==> Fits(schema[c], cells[c])
    ensures Stop(schema, cells, m, i) == Stop(schema, cells, m.(diff := false), i)
    decreases |schema| - i
  {
    if i == |schema| {
    } else {
      DiffColumn(schema[i], cells[i], m);
      DiffStop(schema, cells, m, i + 1);
    }
  }

  /**
   * Populating in the write-only-what-changed mode fails when the plain mode does, and otherwise
   * ends in the same table exactly when no null cell is mistaken for its new value.
   */
  lemma {:induction false} DiffEndsAsPlain(schema: seq<Property>, t: Cells, row: nat, m: Mode)
    requires WellTyped(schema, t.rows) && row < |t.rows| && m.diff
    ensures var (a, ea) := Populate(schema, t, row, m, 0);
      var (b, eb) := Populate(schema, t, row, m.(diff := false), 0);
      && (ea.None? <==> eb.None?)
      && (ea.None? ==> (a.rows == b.rows <==> forall c :: 0 <= c < |schema| ==> !Clash(schema[c], t.rows[row][c], m)))
  {
    var plain := m.(diff := false);
    var (a, ea) := Populate(schema, t, row, m, 0);
    var (b, eb) := Populate(schema, t, row, plain, 0);
    DiffStop(schema, t.rows[row], m, 0);
    PopulateError(schema, t, row, m, 0);
    PopulateError(schema, t, row, plain, 0);
    if ea.None? {
      PopulateCells(schema, t, row, m, 0);
      PopulateCells(schema, t, row, plain, 0);
      PopulateSucceedsIff(schema, t, row, m);
      forall c | 0 <= c < |schema|
        ensures a.rows[row][c] == b.rows[row][c] <==> !Clash(schema[c], t.rows[row][c], m)
      {
        DiffColumn(schema[c], t.rows[row][c], m);
      }
      if forall c :: 0 <= c < |schema| ==> !Clash(schema[c], t.rows[row][c], m) {
        assert a.rows[row] == b.rows[row];
        assert a.rows == b.rows;
      }
    }
  }

  /**
   * It calls table.set on exactly those cells that the plain mode would set to something else than
   * they hold, but for null cells mistaken for their new value.
   */
  lemma {:induction false} DiffWritesChanges(schema: seq<Property>, t: Cells, row: nat, m: Mode, x: Cell)
    requires WellTyped(schema, t.rows) && row < |t.rows| && m.diff
    ensures var a := Populate(schema, t, row, m, 0).0;
      var b := Populate(schema, t, row, m.(diff := false), 0).0;
      && t.writes <= a.writes && t.writes <= b.writes
      && (x in a.writes[|t.writes|..] <==>
            && x in b.writes[|t.writes|..]
            && x.row == row && x.col < |schema| && b.rows[row][x.col] != t.rows[row][x.col]
            && !Clash(schema[x.col], t.rows[row][x.col], m))
  {
    var plain := m.(diff := false);
    DiffStop(schema, t.rows[row], m, 0);
    PopulateWrites(schema, t, row, m, 0);
    PopulateWrites(schema, t, row, plain, 0);
    PopulateCells(schema, t, row, plain, 0);
    if x.col < |schema| {
      DiffColumn(schema[x.col], t.rows[row][x.col], m);
    }
  }

  // ----- Keys in migrations -----

  /** A migration with update off and a key already there: the case in which a second row is added for it. */
  ghost predicate AddsDuplicate(schema: seq<Property>, rows: seq<seq<Value>>, q: Request, k: nat)
    requires Shaped(schema, rows) && k < |schema|
  {
    var key := KeyOf(schema[k], q.input, q.defaults);
    q.inMigration && !q.tryUpdate && key.Key? && HasKey(rows, k, key.value)
  }

  /**
   * The key that the second row ends with: the one asked for, unless populating throws before it
   * gets there, or the null in the new row hides it.
   */
  ghost function MigratedKey(schema: seq<Property>, q: Request, k: nat): Value
    requires k < |schema| && KeyOf(schema[k], q.input, q.defaults).Key?
  {
    var key := KeyOf(schema[k], q.input, q.defaults).value;
    if exists c :: 0 <= c < k && !Accepts(schema[c], ModeOf(q, true, false)) then Empty(schema[k])
    else if q.diff && Hides(schema[k], Empty(schema[k]), key, q.nullRead) then Empty(schema[k])
    else key
  }

  /** A property whose value can serve as the key accepts that value. */
  lemma {:induction false} KeyColumn(p: Property, q: Request)
    requires p.base.Int? || p.base.String?
    requires KeyOf(p, q.input, q.defaults).Key?
    ensures var m, key := ModeOf(q, true, false), KeyOf(p, q.input, q.defaults).value;
      && Accepts(p, m)
      && After(Column(p, Empty(p), m), Empty(p))
         == if q.diff && Hides(p, Empty(p), key, q.nullRead) then Empty(p) else key
  {
    ColumnLaw(p, Empty(p), ModeOf(q, true, false));
  }

  /** Populating an empty row for a second object leaves that key in it. */
  lemma {:induction false} KeyAfterPopulating(schema: seq<Property>, q: Request, k: nat)
    requires k < |schema| && (schema[k].base.Int? || schema[k].base.String?)
    requires KeyOf(schema[k], q.input, q.defaults).Key?
    ensures CellAfter(schema, EmptyRow(schema), ModeOf(q, true, false), 0, k) == MigratedKey(schema, q, k)
  {
    var cells, m := EmptyRow(schema), ModeOf(q, true, false);
    KeyColumn(schema[k], q);
    forall c | 0 <= c <= k ensures Column(schema[c], cells[c], m).Fail? <==> !Accepts(schema[c], m) {
      ColumnLaw(schema[c], cells[c], m);
    }
    if Stop(schema, cells, m, 0) < k {
      assert !Accepts(schema[Stop(schema, cells, m, 0)], m);
    }
  }

  /** Whatever comes of it, that case adds one row with that key after all the others. */
  lemma {:induction false} DuplicateRow(schema: seq<Property>, t: Cells, q: Request, k: nat)
    requires WellTyped(schema, t.rows) && ValidSchema(schema) && PrimaryIndex(schema) == Some(k)
    requires q.currentRow.Some? ==> q.currentRow.value < |t.rows|
    requires AddsDuplicate(schema, t.rows, q, k)
    ensures var t' := Create(schema, t, q).0;
      && WellTyped(schema, t'.rows)
      && |t'.rows| == |t.rows| + 1 && t'.rows[..|t.rows|] == t.rows
      && t'.rows[|t.rows|][k] == MigratedKey(schema, q, k)
  {
    var added, m := NewRow(schema, t), ModeOf(q, true, false);
    NewRowTyped(schema, t);
    assert FindTarget(schema, t, q) == Target(added, |t.rows|, true, false);
    PopulateCells(schema, added, |t.rows|, m, 0);
    PopulateKeepsTypes(schema, added, |t.rows|, m);
    KeyAfterPopulating(schema, q, k);
    assert added.rows[|t.rows|] == EmptyRow(schema);
  }

  /** In every other case a migration makes no difference. */
  lemma {:induction false} MigrationOtherwiseCalm(schema: seq<Property>, t: Cells, q: Request, k: nat)
    requires Shaped(schema, t.rows) && ValidSchema(schema) && PrimaryIndex(schema) == Some(k)
    requires q.currentRow.Some? ==> q.currentRow.value < |t.rows|
    requires !AddsDuplicate(schema, t.rows, q, k)
    ensures Create(schema, t, q) == Create(schema, t, q.(inMigration := false))
  {
    assert FindTarget(schema, t, q) == FindTarget(schema, t, q.(inMigration := false));
  }

  /** One more row keeps keys unique exactly if its key is new. */
  lemma {:induction false} OneMoreKey(rows: seq<seq<Value>>, all: seq<seq<Value>>, k: nat)
    requires (forall r :: 0 <= r < |rows| ==> k < |rows[r]|) && (forall r :: 0 <= r < |all| ==> k < |all[r]|)
    requires |all| == |rows| + 1 && all[..|rows|] == rows && KeysUnique(rows, k)
    ensures KeysUnique(all, k) <==> !HasKey(rows, k, all[|rows|][k])
  {
    assert forall r :: 0 <= r < |rows| ==> all[r] == rows[r];
    if KeysUnique(all, k) {
      forall r | 0 <= r < |rows| ensures rows[r][k] != all[|rows|][k] {
        assert all[r][k] != all[|rows|][k];
      }
    }
  }

  /**
   * Of all creations, whether they go through or throw halfway, exactly those end with two rows of
   * one key that add a second row in a migration whose key, as it ends up, is there already.
   */
  lemma {:induction false} KeysUniqueUnlessMigrated(schema: seq<Property>, t: Cells, q: Request, k: nat)
    requires WellTyped(schema, t.rows) && ValidSchema(schema) && PrimaryIndex(schema) == Some(k)
    requires q.currentRow.Some? ==> q.currentRow.value < |t.rows|
    requires KeysUnique(t.rows, k)
    ensures var t' := Create(schema, t, q).0;
      && WellTyped(schema, t'.rows)
      && (KeysUnique(t'.rows, k) <==>
            !(AddsDuplicate(schema, t.rows, q, k) && HasKey(t.rows, k, MigratedKey(schema, q, k))))
  {
    if AddsDuplicate(schema, t.rows, q, k) {
      DuplicateRow(schema, t, q, k);
      OneMoreKey(t.rows, Create(schema, t, q).0.rows, k);
    } else {
      MigrationOtherwiseCalm(schema, t, q, k);
      CreateKeepsKeys(schema, t, q.(inMigration := false), k);
    }
  }

  /** Creating with a key that is there, without update, in a migration: two rows have the key. */
  lemma {:induction false} MigrationDuplicates(schema: seq<Property>, t: Cells, q: Request)
    requires schema == [Property("key", Int, false, true)] && t.rows == [[IntValue(1)]]
    requires q.input == Input(map["key" := IntValue(1)], false) && q.currentRow.None?
    requires q.inMigration && !q.tryUpdate
    ensures WellTyped(schema, t.rows) && ValidSchema(schema)
    ensures KeysUnique(t.rows, 0) && Shaped(schema, Create(schema, t, q).0.rows)
    ensures !KeysUnique(Create(schema, t, q).0.rows, 0)
  {
    assert PrimaryIndex(schema) == Some(0);
    assert t.rows[0][0] == IntValue(1);
    KeysUniqueUnlessMigrated(schema, t, q, 0);
  }

  /** Setting a property in a migration leaves two rows of one key exactly if it sets the key to another row's. */
  lemma {:induction false} SetKeyInMigration(schema: seq<Property>, t: Cells, row: nat, name: string, v: Value,
                                             nullRead: Base -> Value, k: nat)
    requires WellTyped(schema, t.rows) && ValidSchema(schema) && PrimaryIndex(schema) == Some(k)
    requires row < |t.rows| && KeysUnique(t.rows, k)
    ensures var (t', error) := SetProperty(schema, t, row, name, v, true, nullRead);
      && WellTyped(schema, t'.rows) && |t'.rows| == |t.rows|
      && (forall r :: 0 <= r < |t.rows| && r != row ==> t'.rows[r] == t.rows[r])
      && (KeysUnique(t'.rows, k) <==>
            !(IndexOf(schema, name) == Some(k) && Acceptable(schema[k], v)
              && exists r :: 0 <= r < |t.rows| && r != row && t.rows[r][k] == v))
  {
    SetPropertyCell(schema, t, row, name, v, true, nullRead);
    var c, t' := IndexOf(schema, name), SetProperty(schema, t, row, name, v, true, nullRead).0;
    if t' != t {
      CellKeepsTypes(schema, t.rows, row, c.value, v);
    }
    if c == Some(k) && Acceptable(schema[k], v) {
      assert t'.rows[row][k] == v;
      if exists r :: 0 <= r < |t.rows| && r != row && t.rows[r][k] == v {
        var r :| 0 <= r < |t.rows| && r != row && t.rows[r][k] == v;
        assert t'.rows[r][k] == t'.rows[row][k];
      }
    } else {
      assert forall r :: 0 <= r < |t.rows| ==> t'.rows[r][k] == t.rows[r][k];
    }
  }
}
