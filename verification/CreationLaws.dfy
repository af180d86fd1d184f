/**
 * What create does in each case there is, whether it goes through or throws: with a key that is
 * unusable, taken, to be updated, new, or repeated in a migration, and without keys. None of these
 * laws speaks of how the target row is found or populated.
 */
module CreationLaws {
  import opened ObjectStore
  import opened Options
  import opened StoreLaws
  import opened UpsertLaws

  // ----- Keys -----

  /** The value that the input, or the defaults, or null where it is allowed, give for the key, if it fits. */
  predicate UsableKey(p: Property, q: Request, key: Value) {
    && (p.name in q.input.given || p.name in q.defaults || p.nullable)
    && key == NewValue(p, q.input.given, q.defaults)
    && Acceptable(p, key)
  }

  lemma {:induction false} KeyExact(p: Property, q: Request, key: Value)
    requires p.base.Int? || p.base.String?
    ensures KeyOf(p, q.input, q.defaults) == Key(key) <==> UsableKey(p, q, key)
  {
  }

  /** Why a key cannot be used. */
  function KeyError(p: Property, q: Request): Error {
    if p.name !in q.input.given && p.name !in q.defaults then MissingPropertyValue(p.name)
    else if NewValue(p, q.input.given, q.defaults).Null? then NullKey
    else BadValue(p.name)
  }

  // ----- Filling in a row -----

  /** Why a column does not accept its input. */
  function ColumnError(p: Property, m: Mode): Error {
    var v := Supplied(p, m);
    if v.None? || (v.value.Null? && !p.nullable && (p.isPrimary || !m.input.allowMissing))
    then MissingPropertyValue(p.name)
    else if p.base.Any? then NotSupported
    else BadValue(p.name)
  }

  lemma {:induction false} ColumnFailsSo(p: Property, cell: Value, m: Mode)
    requires Fits(p, cell) && !Accepts(p, m)
    ensures Column(p, cell, m) == Fail(ColumnError(p, m))
  {
  }

  /** Every property up to column c accepts its input. */
  ghost predicate Reached(schema: seq<Property>, m: Mode, c: nat) {
    forall i :: 0 <= i <= c && i < |schema| ==> Accepts(schema[i], m)
  }

  /** The first property that does not accept its input. */
  ghost predicate FirstRefused(schema: seq<Property>, m: Mode, s: int) {
    0 <= s < |schema| && !Accepts(schema[s], m) && forall i :: 0 <= i < s ==> Accepts(schema[i], m)
  }

  /** What a cell is to hold in the end, when populating gets to it. */
  function Wanted(p: Property, start: Value, q: Request, created: bool): Value {
    var wanted := Expected(p, start, q, !created);
    if Mistaken(p, start, wanted, q) then start else wanted
  }

  /**
   * The row has been filled in from start to end: it goes through exactly if every property accepts
   * its input, and otherwise throws what the first that does not calls for; the cells before that one
   * hold what they should, and the others what they did.
   */
  ghost predicate Filled(schema: seq<Property>, q: Request, created: bool, skip: bool, start: seq<Value>,
                         end: seq<Value>, outcome: Outcome, row: nat) {
    var m := ModeOf(q, created, skip);
    && |start| == |end| == |schema|
    && (outcome.Done? <==> forall c :: 0 <= c < |schema| ==> Accepts(schema[c], m))
    && (outcome.Done? ==> outcome.row == row)
    && (outcome.Threw? ==> exists s :: FirstRefused(schema, m, s) && outcome.error == ColumnError(schema[s], m))
    && forall c :: 0 <= c < |schema| ==>
         end[c] == if (skip && schema[c].isPrimary) || !Reached(schema, m, c) then start[c]
                   else Wanted(schema[c], start[c], q, created)
  }

  lemma {:induction false} WantedColumn(p: Property, start: Value, q: Request, created: bool, skip: bool)
    requires Fits(p, start) && Accepts(p, ModeOf(q, created, skip))
    requires (skip && p.isPrimary) || (created ==> start == Empty(p))
    ensures After(Column(p, start, ModeOf(q, created, skip)), start)
         == if skip && p.isPrimary then start else Wanted(p, start, q, created)
  {
    ColumnLaw(p, start, ModeOf(q, created, skip));
  }

  /** Before the first column that fails, each is accepted, and that one is not. */
  lemma {:induction false} StopIsFirst(schema: seq<Property>, cells: seq<Value>, m: Mode)
    requires |cells| == |schema| && forall c :: 0 <= c < |schema| ==> Fits(schema[c], cells[c])
    ensures var stop := Stop(schema, cells, m, 0);
      && (stop < |schema| ==> FirstRefused(schema, m, stop))
      && (stop == |schema| <==> forall c :: 0 <= c < |schema| ==> Accepts(schema[c], m))
      && forall c :: 0 <= c < |schema| ==> (c < stop <==> Reached(schema, m, c))
  {
    forall c | 0 <= c < |schema| ensures Column(schema[c], cells[c], m).Fail? <==> !Accepts(schema[c], m) {
      ColumnLaw(schema[c], cells[c], m);
    }
  }

  lemma {:induction false} PopulateIsFilled(schema: seq<Property>, t: Cells, row: nat, q: Request, created: bool,
                                            skip: bool)
    requires WellTyped(schema, t.rows) && row < |t.rows|
    requires created ==> forall c :: 0 <= c < |schema| && !(skip && schema[c].isPrimary) ==>
      t.rows[row][c] == Empty(schema[c])
    ensures var (t', error) := Populate(schema, t, row, ModeOf(q, created, skip), 0);
      && WellTyped(schema, t'.rows) && |t'.rows| == |t.rows|
      && (forall r :: 0 <= r < |t.rows| && r != row ==> t'.rows[r] == t.rows[r])
      && Filled(schema, q, created, skip, t.rows[row], t'.rows[row],
                if error.Some? then Threw(error.value) else Done(row), row)
  {
    var m := ModeOf(q, created, skip);
    var (t', error) := Populate(schema, t, row, m, 0);
    PopulateCells(schema, t, row, m, 0);
    PopulateError(schema, t, row, m, 0);
    PopulateKeepsTypes(schema, t, row, m);
    StopIsFirst(schema, t.rows[row], m);
    var stop := Stop(schema, t.rows[row], m, 0);
    if error.Some? {
      ColumnFailsSo(schema[stop], t.rows[row][stop], m);
      assert FirstRefused(schema, m, stop);
    }
    forall c | 0 <= c < |schema|
      ensures t'.rows[row][c] == if (skip && schema[c].isPrimary) || !Reached(schema, m, c) then t.rows[row][c]
                                 else Wanted(schema[c], t.rows[row][c], q, created)
    {
      if c < stop {
        WantedColumn(schema[c], t.rows[row][c], q, created, skip);
      }
    }
  }

  // ----- With a primary key -----

  /** Without a usable key nothing is changed, and the error says why. */
  lemma {:induction false} CreateWithoutKey(schema: seq<Property>, t: Cells, q: Request, k: nat)
    requires WellTyped(schema, t.rows) && ValidSchema(schema) && PrimaryIndex(schema) == Some(k)
    requires q.currentRow.Some? ==> q.currentRow.value < |t.rows|
    requires !UsableKey(schema[k], q, NewValue(schema[k], q.input.given, q.defaults))
    ensures Create(schema, t, q) == (t, Threw(KeyError(schema[k], q)))
  {
  }

  /** A key that is taken is refused, unless updating is allowed or a migration is on; nothing is changed. */
  lemma {:induction false} CreateRefused(schema: seq<Property>, t: Cells, q: Request, k: nat, key: Value)
    requires WellTyped(schema, t.rows) && ValidSchema(schema) && PrimaryIndex(schema) == Some(k)
    requires q.currentRow.Some? ==> q.currentRow.value < |t.rows|
    requires UsableKey(schema[k], q, key) && HasKey(t.rows, k, key) && !q.tryUpdate && !q.inMigration
    ensures Create(schema, t, q) == (t, Threw(DuplicateKey))
  {
    KeyExact(schema[k], q, key);
  }

  /** With updating allowed, a key that is taken makes the call fill in the first row that has it, and no other. */
  lemma {:induction false} CreateUpdates(schema: seq<Property>, t: Cells, q: Request, k: nat, key: Value, row: nat)
    requires WellTyped(schema, t.rows) && ValidSchema(schema) && PrimaryIndex(schema) == Some(k)
    requires q.currentRow.Some? ==> q.currentRow.value < |t.rows|
    requires UsableKey(schema[k], q, key) && q.tryUpdate
    requires row < |t.rows| && t.rows[row][k] == key && forall r :: 0 <= r < row ==> t.rows[r][k] != key
    ensures var (t', outcome) := Create(schema, t, q);
      && WellTyped(schema, t'.rows) && |t'.rows| == |t.rows|
      && (forall r :: 0 <= r < |t.rows| && r != row ==> t'.rows[r] == t.rows[r])
      && Filled(schema, q, false, true, t.rows[row], t'.rows[row], outcome, row)
  {
    KeyExact(schema[k], q, key);
    PopulateIsFilled(schema, t, row, q, false, true);
  }

  /** A key that is not taken gets a new row, after all the others, which are as they were. */
  lemma {:induction false} CreateAdds(schema: seq<Property>, t: Cells, q: Request, k: nat, key: Value)
    requires WellTyped(schema, t.rows) && ValidSchema(schema) && PrimaryIndex(schema) == Some(k)
    requires q.currentRow.Some? ==> q.currentRow.value < |t.rows|
    requires UsableKey(schema[k], q, key) && !HasKey(t.rows, k, key)
    ensures var (t', outcome) := Create(schema, t, q);
      && WellTyped(schema, t'.rows) && |t'.rows| == |t.rows| + 1 && t'.rows[..|t.rows|] == t.rows
      && Filled(schema, q, true, true, EmptyRow(schema)[k := key], t'.rows[|t.rows|], outcome, |t.rows|)
  {
    KeyExact(schema[k], q, key);
    TargetKeeps(schema, t, q);
    var added := FindTarget(schema, t, q).t;
    assert added.rows[|t.rows|] == EmptyRow(schema)[k := key];
    OnlyKey(schema, k);
    PopulateIsFilled(schema, added, |t.rows|, q, true, true);
  }

  lemma {:induction false} OnlyKey(schema: seq<Property>, k: nat)
    requires PrimaryIndex(schema) == Some(k)
    ensures schema[k].isPrimary
  {
  }

  /** In a migration, without updating, a key that is taken gets a second row, its key filled in like the rest. */
  lemma {:induction false} CreateDuplicates(schema: seq<Property>, t: Cells, q: Request, k: nat, key: Value)
    requires WellTyped(schema, t.rows) && ValidSchema(schema) && PrimaryIndex(schema) == Some(k)
    requires q.currentRow.Some? ==> q.currentRow.value < |t.rows|
    requires UsableKey(schema[k], q, key) && HasKey(t.rows, k, key) && !q.tryUpdate && q.inMigration
    ensures var (t', outcome) := Create(schema, t, q);
      && WellTyped(schema, t'.rows) && |t'.rows| == |t.rows| + 1 && t'.rows[..|t.rows|] == t.rows
      && Filled(schema, q, true, false, EmptyRow(schema), t'.rows[|t.rows|], outcome, |t.rows|)
  {
    KeyExact(schema[k], q, key);
    NewRowTyped(schema, t);
    assert NewRow(schema, t).rows[|t.rows|] == EmptyRow(schema);
    PopulateIsFilled(schema, NewRow(schema, t), |t.rows|, q, true, false);
  }

  // ----- Without one -----

  /** Without keys, the row that is linked now is filled in, if there is one and only changes are to be written. */
  lemma {:induction false} KeylessUpdates(schema: seq<Property>, t: Cells, q: Request, row: nat)
    requires WellTyped(schema, t.rows) && PrimaryIndex(schema).None? && ValidSchema(schema)
    requires q.diff && q.currentRow == Some(row) && row < |t.rows|
    ensures var (t', outcome) := Create(schema, t, q);
      && WellTyped(schema, t'.rows) && |t'.rows| == |t.rows|
      && (forall r :: 0 <= r < |t.rows| && r != row ==> t'.rows[r] == t.rows[r])
      && Filled(schema, q, false, true, t.rows[row], t'.rows[row], outcome, row)
  {
    PopulateIsFilled(schema, t, row, q, false, true);
  }

  /** Otherwise there is a new row, after all the others, which are as they were. */
  lemma {:induction false} KeylessAdds(schema: seq<Property>, t: Cells, q: Request)
    requires WellTyped(schema, t.rows) && PrimaryIndex(schema).None? && ValidSchema(schema)
    requires q.currentRow.Some? ==> q.currentRow.value < |t.rows|
    requires !q.diff || q.currentRow.None?
    ensures var (t', outcome) := Create(schema, t, q);
      && WellTyped(schema, t'.rows) && |t'.rows| == |t.rows| + 1 && t'.rows[..|t.rows|] == t.rows
      && Filled(schema, q, true, true, EmptyRow(schema), t'.rows[|t.rows|], outcome, |t.rows|)
  {
    NewRowTyped(schema, t);
    assert NewRow(schema, t).rows[|t.rows|] == EmptyRow(schema);
    PopulateIsFilled(schema, NewRow(schema, t), |t.rows|, q, true, true);
  }

  // ----- Setting one property -----

  /** Why setting a property fails, if it does. */
  function SetError(schema: seq<Property>, name: string, v: Value, inMigration: bool): Option<Error> {
    match IndexOf(schema, name)
    case None => Some(InvalidProperty(name))
    case Some(c) =>
      if schema[c].isPrimary && !inMigration then Some(ModifyPrimaryKey(name))
      else if Acceptable(schema[c], v) then None
      else if schema[c].base.Any? then Some(NotSupported)
      else Some(BadValue(name))
  }

  /**
   * Setting a property throws exactly if there is none of that name, if it is the key outside
   * migration, or if the value does not fit; and if not, the first property of that name gets the value.
   */
  lemma {:induction false} SetPropertyExact(schema: seq<Property>, t: Cells, row: nat, name: string, v: Value,
                                            inMigration: bool, nullRead: Base -> Value)
    requires WellTyped(schema, t.rows) && row < |t.rows|
    ensures var (t', error) := SetProperty(schema, t, row, name, v, inMigration, nullRead);
      && error == SetError(schema, name, v, inMigration)
      && t'.rows == if error.Some? then t.rows
                    else t.rows[row := t.rows[row][IndexOf(schema, name).value := v]]
  {
    SetPropertyCell(schema, t, row, name, v, inMigration, nullRead);
  }
}
