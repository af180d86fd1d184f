/** The calls that create objects and set properties, changing the table in place. */
module ObjectTable {
  import opened ObjectStore
  import opened Options

  class Table {
    const schema: seq<Property>
    const nullRead: Base -> Value
    var rows: seq<seq<Value>>

    /** The cells that table.set was called on. */
    var writes: seq<Cell>

    ghost predicate Valid()
      reads this
    {
      Shaped(schema, rows) && ValidSchema(schema)
    }

    function Contents(): Cells
      reads this
    {
      Cells(rows, writes)
    }

    constructor (schema: seq<Property>, nullRead: Base -> Value)
      requires ValidSchema(schema)
      ensures Valid() && this.schema == schema && Contents() == Cells([], [])
    {
      this.schema := schema;
      this.nullRead := nullRead;
      rows, writes := [], [];
    }

    method AddEmptyRow() returns (row: nat)
      requires Valid()
      modifies this`rows
      ensures Valid() && row == |old(rows)|
      ensures Contents() == NewRow(schema, old(Contents()))
    {
      row := |rows|;
      rows := rows + [EmptyRow(schema)];
    }

    /** Setting a unique value would merge rows if another row had it; create makes sure that none does. */
    method SetUnique(col: nat, row: nat, v: Value)
      requires Valid() && row < |rows| && col < |schema|
      requires forall r :: 0 <= r < |rows| && r != row ==> rows[r][col] != v
      modifies this`rows
      ensures Valid() && rows == old(rows)[row := old(rows)[row][col := v]]
    {
      rows := rows[row := rows[row][col := v]];
    }

    method Set(col: nat, row: nat, v: Value)
      requires Valid() && row < |rows| && col < |schema|
      modifies this
      ensures Valid() && Contents() == SetCell(old(Contents()), row, col, v)
    {
      rows := rows[row := rows[row][col := v]];
      writes := writes + [Cell(row, col)];
    }

    method FindFirstRow(col: nat, v: Value) returns (row: Option<nat>)
      requires Valid() && col < |schema|
      ensures row == FindFirst(rows, col, v)
    {
      for i := 0 to |rows|
        invariant forall r :: 0 <= r < i ==> rows[r][col] != v
      {
        if rows[i][col] == v {
          FirstIs(rows, col, v, i);
          return Some(i);
        }
      }
      return None;
    }

    method DoUpdateValue(p: Property, col: nat, row: nat, v: Value, diff: bool) returns (error: Option<Error>)
      requires Valid() && row < |rows| && col < |schema| && p == schema[col]
      requires !(p.nullable && v.Null?) && !p.base.Any?
      modifies this
      ensures Valid()
      ensures match SetDecision(p, old(rows)[row][col], v, diff, nullRead)
        case Keep => error == None && Contents() == old(Contents())
        case Write(u) => error == None && Contents() == SetCell(old(Contents()), row, col, u)
        case Fail(e) => error == Some(e) && Contents() == old(Contents())
    {
      var unboxed := Unbox(p.base, v);
      if unboxed.None? {
        return Some(BadValue(p.name));
      }
      var newVal := unboxed.value;
      if !diff || Read(p, rows[row][col], nullRead) != newVal {
        if newVal.Null? {
          return Some(BadValue(p.name));
        }
        Set(col, row, newVal);
      }
      return None;
    }

    method SetPropertyValueImpl(col: nat, row: nat, v: Value, diff: bool) returns (error: Option<Error>)
      requires Valid() && row < |rows| && col < |schema|
      modifies this
      ensures Valid()
      ensures match SetDecision(schema[col], old(rows)[row][col], v, diff, nullRead)
        case Keep => error == None && Contents() == old(Contents())
        case Write(u) => error == None && Contents() == SetCell(old(Contents()), row, col, u)
        case Fail(e) => error == Some(e) && Contents() == old(Contents())
    {
      var property := schema[col];
      if property.nullable && v.Null? {
        if !diff || !rows[row][col].Null? {
          Set(col, row, Null);
        }
        return None;
      }
      if property.base.Any? {
        return Some(NotSupported);
      }
      error := DoUpdateValue(property, col, row, v, diff);
    }

    method SetPropertyValue(row: nat, name: string, v: Value, inMigration: bool) returns (error: Option<Error>)
      requires Valid() && row < |rows|
      modifies this
      ensures Valid()
      ensures (Contents(), error) == SetProperty(schema, old(Contents()), row, name, v, inMigration, nullRead)
    {
      var col := IndexOf(schema, name);
      if col.None? {
        return Some(InvalidProperty(name));
      }
      if schema[col.value].isPrimary && !inMigration {
        return Some(ModifyPrimaryKey(name));
      }
      error := SetPropertyValueImpl(col.value, row, v, false);
    }

    /** Fill in a row, property by property, stopping at the first that throws. */
    method PopulateRow(row: nat, m: Mode) returns (error: Option<Error>)
      requires Valid() && row < |rows| && m.nullRead == nullRead
      modifies this
      ensures Valid()
      ensures (Contents(), error) == Populate(schema, old(Contents()), row, m, 0)
    {
      for i := 0 to |schema|
        invariant Valid() && row < |rows|
        invariant Populate(schema, Contents(), row, m, i) == Populate(schema, old(Contents()), row, m, 0)
      {
        var prop := schema[i];
        if m.skipPrimary && prop.isPrimary {
          continue;
        }
        var v := Lookup(m.input.given, prop.name);
        if !m.created && v.None? {
          continue;
        }
        if v.None? {
          v := Lookup(m.defaults, prop.name);
        }
        if (v.None? || v.value.Null?) && !prop.nullable {
          if prop.isPrimary || !m.input.allowMissing {
            return Some(MissingPropertyValue(prop.name));
          }
        }
        if v.Some? {
          error := SetPropertyValueImpl(i, row, v.value, m.diff);
          if error.Some? {
            return;
          }
        }
      }
      return None;
    }

    method CreateObject(q: Request) returns (outcome: Outcome)
      requires Valid() && q.nullRead == nullRead
      requires q.currentRow.Some? ==> q.currentRow.value < |rows|
      modifies this
      ensures Valid()
      ensures (Contents(), outcome) == Create(schema, old(Contents()), q)
    {
      var created := false;
      var skipPrimary := true;
      var row := 0;
      var primary := PrimaryIndex(schema);
      if primary.Some? {
        var k := primary.value;
        var key := KeyOf(schema[k], q.input, q.defaults);
        if key.NoKey? {
          return Threw(key.error);
        }
        var existing := FindFirstRow(k, key.value);
        if existing.None? {
          created := true;
          row := AddEmptyRow();
          SetUnique(k, row, key.value);
        } else if q.tryUpdate {
          row := existing.value;
        } else if q.inMigration {
          row := AddEmptyRow();
          created := true;
          skipPrimary := false;
        } else {
          return Threw(DuplicateKey);
        }
      } else if q.diff && q.currentRow.Some? {
        row := q.currentRow.value;
      } else {
        row := AddEmptyRow();
        created := true;
      }
      assert FindTarget(schema, old(Contents()), q) == Target(Contents(), row, created, skipPrimary);
      var error := PopulateRow(row, ModeOf(q, created, skipPrimary));
      return if error.Some? then Threw(error.value) else Done(row);
    }
  }

  lemma {:induction false} FirstIs(rows: seq<seq<Value>>, col: nat, v: Value, i: nat)
    requires forall r :: 0 <= r < |rows| ==> col < |rows[r]|
    requires i < |rows| && rows[i][col] == v && forall r :: 0 <= r < i ==> rows[r][col] != v
    ensures FindFirst(rows, col, v) == Some(i)
  {
    if i == 0 {
    } else {
      FirstIs(rows[1..], col, v, i - 1);
    }
  }
}
