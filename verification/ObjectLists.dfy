/**
 * Assigning a sequence of values to a list of links, as values: by clearing and adding, or in place,
 * updating the objects that are linked already. RealmList.dfy has the calls themselves.
 */
module ObjectLists {
  import opened ObjectStore
  import opened Options
  import opened StoreLaws

  /** A value for a list of links is an object that exists, or the contents of one to create. */
  datatype Element = Managed(row: nat) | Plain(input: Input)

  /** The table that is linked to, and what creating in it depends on. */
  datatype Context = Context(
    schema: seq<Property>,
    defaults: map<string, Value>,
    inMigration: bool,
    nullRead: Base -> Value)

  datatype Linked = Linked(t: Cells, list: seq<nat>, error: Option<Error>)

  ghost predicate Links(t: Cells, list: seq<nat>) {
    forall i :: 0 <= i < |list| ==> list[i] < |t.rows|
  }

  function CreateRequest(x: Context, input: Input, update: bool, diff: bool, currentRow: Option<nat>): Request {
    Request(input, x.defaults, update, diff, currentRow, x.inMigration, x.nullRead)
  }

  /** The row for an element: its own, or that of the object created from it. */
  function RowFor(x: Context, t: Cells, e: Element, update: bool, diff: bool, currentRow: Option<nat>): (Cells, Outcome)
    requires Shaped(x.schema, t.rows) && ValidSchema(x.schema)
    requires currentRow.Some? ==> currentRow.value < |t.rows|
  {
    match e
    case Managed(row) => (t, Done(row))
    case Plain(input) => Create(x.schema, t, CreateRequest(x, input, update, diff, currentRow))
  }

  /** The elements that are objects already are rows of the table. */
  ghost predicate Attached(t: Cells, elems: seq<Element>) {
    forall i :: 0 <= i < |elems| && elems[i].Managed? ==> elems[i].row < |t.rows|
  }

  lemma {:induction false} RowForShape(x: Context, t: Cells, e: Element, update: bool, diff: bool,
                                       currentRow: Option<nat>)
    requires Shaped(x.schema, t.rows) && ValidSchema(x.schema)
    requires currentRow.Some? ==> currentRow.value < |t.rows|
    requires e.Managed? ==> e.row < |t.rows|
    ensures var (t', outcome) := RowFor(x, t, e, update, diff, currentRow);
      Shaped(x.schema, t'.rows) && |t.rows| <= |t'.rows| && (outcome.Done? ==> outcome.row < |t'.rows|)
  {
    if e.Plain? {
      var q := CreateRequest(x, e.input, update, diff, currentRow);
      var target := FindTarget(x.schema, t, q);
      if target.Target? {
        PopulateCells(x.schema, target.t, target.row, ModeOf(q, target.created, target.skipPrimary), 0);
      }
    }
  }

  /** Assign the elements from i on in place, then drop what is left of the old list. */
  function AssignDiff(x: Context, t: Cells, list: seq<nat>, elems: seq<Element>, update: bool, i: nat): Linked
    requires Shaped(x.schema, t.rows) && ValidSchema(x.schema) && Links(t, list) && Attached(t, elems)
    requires i <= |elems|
    decreases |elems| - i
  {
    if i == |elems| then Linked(t, if i < |list| then list[..i] else list, None)
    else
      var current := if i < |list| then Some(list[i]) else None;
      var (t', outcome) := RowFor(x, t, elems[i], update, i < |list|, current);
      RowForShape(x, t, elems[i], update, i < |list|, current);
      match outcome
      case Threw(e) => Linked(t', list, Some(e))
      case Done(row) => AssignDiff(x, t', if i < |list| then list[i := row] else list + [row], elems, update, i + 1)
  }

  /** Add the elements from i on to the end of the list. */
  function AddAll(x: Context, t: Cells, list: seq<nat>, elems: seq<Element>, update: bool, i: nat): Linked
    requires Shaped(x.schema, t.rows) && ValidSchema(x.schema) && Links(t, list) && Attached(t, elems)
    requires i <= |elems|
    decreases |elems| - i
  {
    if i == |elems| then Linked(t, list, None)
    else
      var (t', outcome) := RowFor(x, t, elems[i], update, false, None);
      RowForShape(x, t, elems[i], update, false, None);
      match outcome
      case Threw(e) => Linked(t', list, Some(e))
      case Done(row) => AddAll(x, t', list + [row], elems, update, i + 1)
  }

  /** The two modes of assign: update in place, or clear and add. */
  function Assign(x: Context, t: Cells, list: seq<nat>, elems: seq<Element>, update: bool, diff: bool): Linked
    requires Shaped(x.schema, t.rows) && ValidSchema(x.schema) && Links(t, list) && Attached(t, elems)
  {
    if diff then AssignDiff(x, t, list, elems, update, 0) else AddAll(x, t, [], elems, update, 0)
  }
}
