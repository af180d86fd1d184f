/** The list objects and their assign call, working in place: lists of values and lists of links. */
module RealmList {
  import opened ObjectStore
  import opened Options
  import opened ObjectLists
  import opened ObjectTable

  // ----- Lists of primitive values -----

  /** What assign is given: the same list, null, or values, each of which may fail to unbox. */
  datatype Values<T> = SameList | NullValues | Enumerable(values: seq<Option<T>>)

  /** The number of values before the first that fails to unbox. */
  function Readable<T>(values: seq<Option<T>>): (k: nat)
    ensures k <= |values|
    ensures forall i :: 0 <= i < k ==> values[i].Some?
    ensures k < |values| ==> values[k].None?
  {
    if values == [] || values[0].None? then 0 else 1 + Readable(values[1..])
  }

  function Unboxed<T>(values: seq<Option<T>>): (r: seq<T>)
    requires forall i :: 0 <= i < |values| ==> values[i].Some?
    ensures |r| == |values| && forall i :: 0 <= i < |r| ==> r[i] == values[i].value
  {
    seq(|values|, i requires 0 <= i < |values| => values[i].value)
  }

  /** The contents after assigning: the readable values, and in place, after a failure, the old rest. */
  function Assigned<T>(list: seq<T>, values: seq<Option<T>>, diff: bool): (r: seq<T>)
    ensures Readable(values) <= |r| && forall i :: 0 <= i < Readable(values) ==> r[i] == values[i].value
    ensures forall i :: Readable(values) <= i < |r| ==> i < |list| && r[i] == list[i]
    ensures |r| > Readable(values) <==> diff && Readable(values) < |values| && Readable(values) < |list|
    ensures |r| > Readable(values) ==> |r| == |list|
  {
    var k := Readable(values);
    Unboxed(values[..k]) + (if diff && k < |values| && k < |list| then list[k..] else [])
  }

  /** The two modes end alike unless a value fails to unbox before the old list is used up. */
  lemma {:induction false} AssignedModesAgree<T>(list: seq<T>, values: seq<Option<T>>)
    ensures Assigned(list, values, true) == Assigned(list, values, false)
      <==> Readable(values) == |values| || |list| <= Readable(values)
    ensures Readable(values) == |values| ==> Assigned(list, values, true) == Unboxed(values)
  {
    var k := Readable(values);
    if k < |values| && k < |list| {
      assert |Assigned(list, values, true)| > |Assigned(list, values, false)|;
    }
  }

  class PrimitiveList<T(==)> {
    var elems: seq<T>

    /** The positions that set was called on. */
    var sets: seq<nat>

    constructor ()
      ensures elems == [] && sets == []
    {
      elems, sets := [], [];
    }

    method Set(i: nat, value: T)
      requires i < |elems|
      modifies this
      ensures elems == old(elems)[i := value] && sets == old(sets) + [i]
    {
      elems := elems[i := value];
      sets := sets + [i];
    }

    method Add(value: T)
      modifies this`elems
      ensures elems == old(elems) + [value]
    {
      elems := elems + [value];
    }

    method Remove(i: nat)
      requires i < |elems|
      modifies this`elems
      ensures elems == old(elems)[..i] + old(elems)[i + 1..]
    {
      elems := elems[..i] + elems[i + 1..];
    }

    method RemoveAll()
      modifies this`elems
      ensures elems == []
    {
      elems := [];
    }

    method SetIfDifferent(i: nat, value: T)
      requires i < |elems|
      modifies this
      ensures elems == old(elems)[i := value]
      ensures sets == old(sets) + (if old(elems)[i] != value then [i] else [])
    {
      if elems[i] != value {
        Set(i, value);
      }
    }

    /** Remove what is left from this position on. */
    method Trim(index: nat)
      requires index <= |elems|
      modifies this`elems
      ensures elems == old(elems)[..index]
    {
      var sz := |elems|;
      while index < sz
        invariant index <= sz == |elems|
        invariant elems[..index] == old(elems)[..index]
      {
        Remove(index);
        sz := sz - 1;
      }
    }

    /** The enumeration of the in-place mode; index counts the values that were read. */
    method Overwrite(values: seq<Option<T>>) returns (index: nat)
      modifies this
      ensures index == Readable(values)
      ensures elems == Unboxed(values[..index]) + (if index < |old(elems)| then old(elems)[index..] else [])
      ensures old(sets) <= sets
      ensures forall i :: i in sets[|old(sets)|..] <==>
        0 <= i < index && i < |old(elems)| && old(elems)[i] != values[i].value
    {
      var sz := |elems|;
      index := 0;
      ghost var was := elems;
      while index < |values|
        invariant index <= |values| && forall i :: 0 <= i < index ==> values[i].Some?
        invariant |elems| == if index < sz then sz else index
        invariant forall i :: 0 <= i < index ==> elems[i] == values[i].value
        invariant forall i :: index <= i < sz ==> elems[i] == was[i]
        invariant old(sets) <= sets
        invariant forall i :: i in sets[|old(sets)|..] <==> 0 <= i < index && i < sz && was[i] != values[i].value
      {
        if values[index].None? {
          ReadableIs(values, index);
          return;
        }
        ghost var before := sets;
        if index < sz {
          SetIfDifferent(index, values[index].value);
          assert sets[|old(sets)|..]
              == before[|old(sets)|..] + (if was[index] != values[index].value then [index] else []);
        } else {
          Add(values[index].value);
        }
        index := index + 1;
      }
      ReadableIs(values, index);
    }

    /**
     * Both modes end with exactly the values; the in-place mode sets only positions of the common
     * prefix whose value differs. A value that fails to unbox ends the call where it stands.
     */
    method Assign(values: Values<T>, updateOnlyDiff: bool) returns (threw: bool)
      modifies this
      ensures values.SameList? ==> elems == old(elems) && sets == old(sets) && !threw
      ensures values.NullValues? ==> elems == [] && sets == old(sets) && !threw
      ensures values.Enumerable? ==>
        && threw == (Readable(values.values) < |values.values|)
        && elems == Assigned(old(elems), values.values, updateOnlyDiff)
        && old(sets) <= sets
        && forall i :: i in sets[|old(sets)|..] <==>
             (updateOnlyDiff && 0 <= i < Readable(values.values) && i < |old(elems)|
              && old(elems)[i] != values.values[i].value)
    {
      threw := false;
      if values.SameList? {
        return;
      }
      if values.NullValues? {
        RemoveAll();
        return;
      }
      if updateOnlyDiff {
        var index := Overwrite(values.values);
        threw := index < |values.values|;
        if !threw {
          assert values.values[..index] == values.values;
          if index < |elems| {
            Trim(index);
          }
        }
      } else {
        RemoveAll();
        for i := 0 to |values.values|
          invariant forall j :: 0 <= j < i ==> values.values[j].Some?
          invariant |elems| == i && forall j :: 0 <= j < i ==> elems[j] == values.values[j].value
          invariant sets == old(sets)
        {
          if values.values[i].None? {
            ReadableIs(values.values, i);
            return true;
          }
          Add(values.values[i].value);
        }
        ReadableIs(values.values, |values.values|);
      }
    }
  }

  lemma {:induction false} ReadableIs<T>(values: seq<Option<T>>, k: nat)
    requires k <= |values| && (forall i :: 0 <= i < k ==> values[i].Some?) && (k < |values| ==> values[k].None?)
    ensures Readable(values) == k
  {
    if k == 0 {
    } else {
      ReadableIs(values[1..], k - 1);
    }
  }

  // ----- Lists of links -----

  datatype Assignment = SameLinks | NullLinks | Objects(elems: seq<Element>)

  class ObjectList {
    const table: Table
    const defaults: map<string, Value>
    const inMigration: bool
    var links: seq<nat>

    ghost predicate Valid()
      reads this, table
    {
      table.Valid() && Links(table.Contents(), links)
    }

    ghost function Where(): Context
      reads this
    {
      Context(table.schema, defaults, inMigration, table.nullRead)
    }

    constructor (table: Table, defaults: map<string, Value>, inMigration: bool)
      requires table.Valid()
      ensures Valid() && this.table == table && links == []
      ensures this.defaults == defaults && this.inMigration == inMigration
    {
      this.table := table;
      this.defaults := defaults;
      this.inMigration := inMigration;
      links := [];
    }

    /** The row of an element, which is created or updated first unless it is an object already. */
    method UnboxRow(e: Element, update: bool, diff: bool, currentRow: Option<nat>) returns (outcome: Outcome)
      requires table.Valid() && (currentRow.Some? ==> currentRow.value < |table.rows|)
      requires e.Managed? ==> e.row < |table.rows|
      modifies table
      ensures table.Valid() && |old(table.rows)| <= |table.rows|
      ensures (table.Contents(), outcome) == RowFor(Where(), old(table.Contents()), e, update, diff, currentRow)
      ensures outcome.Done? ==> outcome.row < |table.rows|
    {
      RowForShape(Where(), table.Contents(), e, update, diff, currentRow);
      match e
      case Managed(row) => outcome := Done(row);
      case Plain(input) =>
        outcome := table.CreateObject(Request(input, defaults, update, diff, currentRow, inMigration, table.nullRead));
    }

    method SetIfDifferent(i: nat, e: Element, update: bool) returns (error: Option<Error>)
      requires Valid() && i < |links| && (e.Managed? ==> e.row < |table.rows|)
      modifies this, table
      ensures Valid() && |old(table.rows)| <= |table.rows|
      ensures var (t, outcome) := RowFor(Where(), old(table.Contents()), e, update, true, Some(old(links)[i]));
        && table.Contents() == t
        && match outcome
           case Threw(x) => error == Some(x) && links == old(links)
           case Done(row) => error == None && links == old(links)[i := row]
    {
      var oldValue := links[i];
      var outcome := UnboxRow(e, update, true, Some(oldValue));
      if outcome.Threw? {
        return Some(outcome.error);
      }
      if oldValue != outcome.row {
        links := links[i := outcome.row];
      }
      return None;
    }

    method AddElement(e: Element, update: bool) returns (error: Option<Error>)
      requires Valid() && (e.Managed? ==> e.row < |table.rows|)
      modifies this, table
      ensures Valid() && |old(table.rows)| <= |table.rows|
      ensures var (t, outcome) := RowFor(Where(), old(table.Contents()), e, update, false, None);
        && table.Contents() == t
        && match outcome
           case Threw(x) => error == Some(x) && links == old(links)
           case Done(row) => error == None && links == old(links) + [row]
    {
      var outcome := UnboxRow(e, update, false, None);
      if outcome.Threw? {
        return Some(outcome.error);
      }
      links := links + [outcome.row];
      return None;
    }

    method Trim(index: nat)
      requires Valid() && index <= |links|
      modifies this`links
      ensures Valid() && links == old(links)[..index]
    {
      var sz := |links|;
      while index < sz
        invariant Valid() && index <= sz == |links|
        invariant links[..index] == old(links)[..index]
      {
        links := links[..index] + links[index + 1..];
        sz := sz - 1;
      }
    }

    method AssignInPlace(elems: seq<Element>, update: bool) returns (error: Option<Error>)
      requires Valid() && Attached(table.Contents(), elems)
      modifies this, table
      ensures Valid()
      ensures ObjectLists.Linked(table.Contents(), links, error)
           == AssignDiff(Where(), old(table.Contents()), old(links), elems, update, 0)
    {
      var sz := |links|;
      for index := 0 to |elems|
        invariant Valid() && Attached(table.Contents(), elems)
        invariant |links| == if index < sz then sz else index
        invariant AssignDiff(Where(), table.Contents(), links, elems, update, index)
               == AssignDiff(Where(), old(table.Contents()), old(links), elems, update, 0)
      {
        if index < sz {
          error := SetIfDifferent(index, elems[index], update);
        } else {
          error := AddElement(elems[index], update);
        }
        if error.Some? {
          return;
        }
      }
      if |elems| < |links| {
        Trim(|elems|);
      }
      return None;
    }

    method ClearAndAdd(elems: seq<Element>, update: bool) returns (error: Option<Error>)
      requires Valid() && Attached(table.Contents(), elems)
      modifies this, table
      ensures Valid()
      ensures ObjectLists.Linked(table.Contents(), links, error)
           == AddAll(Where(), old(table.Contents()), [], elems, update, 0)
    {
      links := [];
      for index := 0 to |elems|
        invariant Valid() && Attached(table.Contents(), elems)
        invariant AddAll(Where(), table.Contents(), links, elems, update, index)
               == AddAll(Where(), old(table.Contents()), [], elems, update, 0)
      {
        error := AddElement(elems[index], update);
        if error.Some? {
          return;
        }
      }
      return None;
    }

    method AssignObjects(values: Assignment, update: bool, updateOnlyDiff: bool) returns (error: Option<Error>)
      requires Valid() && (values.Objects? ==> Attached(table.Contents(), values.elems))
      modifies this, table
      ensures Valid()
      ensures match values
        case SameLinks => error == None && links == old(links) && table.Contents() == old(table.Contents())
        case NullLinks => error == None && links == [] && table.Contents() == old(table.Contents())
        case Objects(elems) =>
          ObjectLists.Linked(table.Contents(), links, error)
          == ObjectLists.Assign(Where(), old(table.Contents()), old(links), elems, update, updateOnlyDiff)
    {
      match values
      case SameLinks => error := None;
      case NullLinks =>
        links := [];
        error := None;
      case Objects(elems) =>
        if updateOnlyDiff {
          error := AssignInPlace(elems, update);
        } else {
          error := ClearAndAdd(elems, update);
        }
    }
  }
}
