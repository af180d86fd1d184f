/**
 * Assigning to a list of objects without primary keys in place, against clearing it and adding: what
 * each mode leaves, and exactly when the two leave the same contents.
 */
module ListLaws {
  import opened ObjectStore
  import opened Options
  import opened StoreLaws
  import opened UpsertLaws
  import opened ObjectLists

  // ----- One object -----

  /** The row of a new object. */
  function NewCells(x: Context, input: Input): (r: seq<Value>)
    ensures |r| == |x.schema|
    ensures forall c :: 0 <= c < |r| ==> r[c] == NewValue(x.schema[c], input.given, x.defaults)
  {
    seq(|x.schema|, c requires 0 <= c < |x.schema| => NewValue(x.schema[c], input.given, x.defaults))
  }

  /** A cell after an update in place: a null that reads like the new value stays. */
  function Settle(x: Context, c: nat, cell: Value, v: Value): Value
    requires c < |x.schema|
  {
    if Hides(x.schema[c], cell, v, x.nullRead) then cell else v
  }

  /** The row after an update in place. */
  function Updated(x: Context, input: Input, cells: seq<Value>): (r: seq<Value>)
    requires |cells| == |x.schema|
    ensures |r| == |x.schema|
    ensures forall c :: 0 <= c < |r| ==> (r[c] ==
      if x.schema[c].name in input.given then Settle(x, c, cells[c], input.given[x.schema[c].name]) else cells[c])
  {
    seq(|x.schema|, c requires 0 <= c < |x.schema| =>
      if x.schema[c].name in input.given then Settle(x, c, cells[c], input.given[x.schema[c].name]) else cells[c])
  }

  /** Every property accepts what the element gives it, in a new object or in an old one. */
  ghost predicate Takes(x: Context, e: Element, created: bool) {
    e.Plain? ==> forall c :: 0 <= c < |x.schema| ==>
      Accepts(x.schema[c], Mode(e.input, x.defaults, created, true, !created, x.nullRead))
  }

  ghost predicate KeylessTable(x: Context, t: Cells) {
    PrimaryIndex(x.schema).None? && ValidSchema(x.schema) && WellTyped(x.schema, t.rows)
  }

  /** Populating a row of a table without key goes through exactly if its input is accepted. */
  lemma {:induction false} PopulateFills(x: Context, t: Cells, row: nat, input: Input, created: bool)
    requires KeylessTable(x, t) && row < |t.rows| && (created ==> t.rows[row] == EmptyRow(x.schema))
    ensures var m := Mode(input, x.defaults, created, true, !created, x.nullRead);
      var (t', error) := Populate(x.schema, t, row, m, 0);
      && (error.None? <==> Takes(x, Plain(input), created))
      && WellTyped(x.schema, t'.rows)
      && (error.None? ==>
            t'.rows == t.rows[row := if created then NewCells(x, input) else Updated(x, input, t.rows[row])])
  {
    var m := Mode(input, x.defaults, created, true, !created, x.nullRead);
    var (t', error) := Populate(x.schema, t, row, m, 0);
    PopulateSucceedsIff(x.schema, t, row, m);
    PopulateError(x.schema, t, row, m, 0);
    PopulateCells(x.schema, t, row, m, 0);
    PopulateKeepsTypes(x.schema, t, row, m);
    if error.None? {
      var wanted := if created then NewCells(x, input) else Updated(x, input, t.rows[row]);
      forall c | 0 <= c < |x.schema| ensures t'.rows[row][c] == wanted[c] {
        ColumnLaw(x.schema[c], t.rows[row][c], m);
      }
      assert t'.rows[row] == wanted;
    }
  }

  /** In place, an object keeps its row; otherwise it gets a new one at the end of the table. */
  lemma {:induction false} RowForPlain(x: Context, t: Cells, input: Input, update: bool, current: Option<nat>)
    requires KeylessTable(x, t) && (current.Some? ==> current.value < |t.rows|)
    ensures var (t', outcome) := RowFor(x, t, Plain(input), update, current.Some?, current);
      && (outcome.Done? <==> Takes(x, Plain(input), current.None?))
      && KeylessTable(x, t')
      && (outcome.Done? ==>
            match current
            case Some(r) => outcome.row == r && t'.rows == t.rows[r := Updated(x, input, t.rows[r])]
            case None => outcome.row == |t.rows| && t'.rows == t.rows + [NewCells(x, input)])
  {
    if current.Some? {
      PopulateFills(x, t, current.value, input, false);
    } else {
      NewRowTyped(x.schema, t);
      PopulateFills(x, NewRow(x.schema, t), |t.rows|, input, true);
      assert NewRow(x.schema, t).rows[|t.rows| := NewCells(x, input)] == t.rows + [NewCells(x, input)];
    }
  }

  // ----- Adding -----

  /** The row that adding an element creates, if it creates one. */
  function Created(x: Context, e: Element): seq<seq<Value>> {
    if e.Plain? then [NewCells(x, e.input)] else []
  }

  function AddedLink(rows: nat, e: Element): nat {
    if e.Managed? then e.row else rows
  }

  /** The rows that adding creates. */
  function NewRows(x: Context, elems: seq<Element>): seq<seq<Value>> {
    if elems == [] then [] else Created(x, elems[0]) + NewRows(x, elems[1..])
  }

  /** The links that adding makes to a table that has this number of rows. */
  function NewLinks(rows: nat, elems: seq<Element>): (r: seq<nat>)
    ensures |r| == |elems|
    decreases elems
  {
    if elems == [] then []
    else [AddedLink(rows, elems[0])] + NewLinks(if elems[0].Plain? then rows + 1 else rows, elems[1..])
  }

  lemma {:induction false} Regroup<T>(a: seq<T>, b: seq<T>, c: seq<T>)
    ensures a + b + c == a + (b + c)
  {
  }

  /** The row of an element that is added, and the link to it. */
  lemma {:induction false} AddedRow(x: Context, t: Cells, e: Element, update: bool)
    requires KeylessTable(x, t) && (e.Managed? ==> e.row < |t.rows|)
    ensures var (t', outcome) := RowFor(x, t, e, update, false, None);
      && (outcome.Done? <==> Takes(x, e, true))
      && (outcome.Done? ==>
            && KeylessTable(x, t')
            && t'.rows == t.rows + Created(x, e)
            && outcome.row == AddedLink(|t.rows|, e))
  {
    if e.Plain? {
      RowForPlain(x, t, e.input, update, None);
    }
  }

  /** Every element from i on is accepted where assigning puts it: over a linked object, or as a new one. */
  ghost predicate TakesFrom(x: Context, list: seq<nat>, elems: seq<Element>, i: nat) {
    forall j :: i <= j < |elems| ==> Takes(x, elems[j], j >= |list|)
  }

  /**
   * Adding goes through exactly if every element is accepted; it appends one new row for each that
   * is not an object already, in order, and changes no row that was there.
   */
  lemma {:induction false} AddAllRows(x: Context, t: Cells, list: seq<nat>, elems: seq<Element>, update: bool, i: nat)
    requires KeylessTable(x, t) && Links(t, list) && Attached(t, elems) && i <= |elems|
    ensures var r := AddAll(x, t, list, elems, update, i);
      && (r.error.None? <==> forall j :: i <= j < |elems| ==> Takes(x, elems[j], true))
      && (r.error.None? ==>
            && r.t.rows == t.rows + NewRows(x, elems[i..])
            && r.list == list + NewLinks(|t.rows|, elems[i..]))
    decreases |elems| - i
  {
    if i == |elems| {
      assert elems[i..] == [];
    } else {
      AddedRow(x, t, elems[i], update);
      RowForShape(x, t, elems[i], update, false, None);
      var (t', outcome) := RowFor(x, t, elems[i], update, false, None);
      if outcome.Done? {
        AddAllRows(x, t', list + [outcome.row], elems, update, i + 1);
        assert elems[i..][1..] == elems[i + 1..];
        Regroup(t.rows, Created(x, elems[i]), NewRows(x, elems[i + 1..]));
        Regroup(list, [outcome.row], NewLinks(|t'.rows|, elems[i + 1..]));
      }
    }
  }

  /** What an element stands for when it is added: an object's row as it is, or a new object. */
  function AddedValue(x: Context, rows: seq<seq<Value>>, e: Element): seq<Value>
    requires e.Managed? ==> e.row < |rows|
  {
    match e
    case Managed(row) => rows[row]
    case Plain(input) => NewCells(x, input)
  }

  /** Following the new links among the old and the new rows gives what the elements stand for. */
  lemma {:induction false} NewLinksValue(x: Context, rows: seq<seq<Value>>, elems: seq<Element>, i: nat)
    requires i < |elems| && forall j :: 0 <= j < |elems| && elems[j].Managed? ==> elems[j].row < |rows|
    ensures var all := rows + NewRows(x, elems);
      && NewLinks(|rows|, elems)[i] < |all|
      && all[NewLinks(|rows|, elems)[i]] == AddedValue(x, rows, elems[i])
    decreases elems
  {
    Regroup(rows, Created(x, elems[0]), NewRows(x, elems[1..]));
    if i == 0 {
    } else {
      NewLinksValue(x, rows + Created(x, elems[0]), elems[1..], i - 1);
    }
  }

  /** The list as the rows it links to. */
  ghost function ByValue(r: Linked): (v: seq<seq<Value>>)
    requires Links(r.t, r.list)
    ensures |v| == |r.list| && forall i :: 0 <= i < |v| ==> v[i] == r.t.rows[r.list[i]]
  {
    seq(|r.list|, i requires 0 <= i < |r.list| => r.t.rows[r.list[i]])
  }

  /**
   * Clearing and adding goes through exactly if every element is accepted as a new object; the list
   * then holds the given objects as they are and new ones, and every old row is left alone.
   */
  lemma {:induction false} ReplaceByValue(x: Context, t: Cells, list: seq<nat>, elems: seq<Element>, update: bool)
    requires KeylessTable(x, t) && Links(t, list) && Attached(t, elems)
    ensures var r := Assign(x, t, list, elems, update, false);
      && (r.error.None? <==> TakesFrom(x, [], elems, 0))
      && (r.error.None? ==>
            && Links(r.t, r.list) && |r.list| == |elems| && t.rows <= r.t.rows
            && forall i :: 0 <= i < |elems| ==> ByValue(r)[i] == AddedValue(x, t.rows, elems[i]))
  {
    AddAllRows(x, t, [], elems, update, 0);
    assert elems[0..] == elems;
    var r := AddAll(x, t, [], elems, update, 0);
    if r.error.None? {
      assert r.list == NewLinks(|t.rows|, elems);
      forall i | 0 <= i < |elems|
        ensures r.list[i] < |r.t.rows| && r.t.rows[r.list[i]] == AddedValue(x, t.rows, elems[i])
      {
        NewLinksValue(x, t.rows, elems, i);
      }
    }
  }

  // ----- Assigning in place -----

  /** Past the end of the old list, assigning in place is adding. */
  lemma {:induction false} PastTheEnd(x: Context, t: Cells, list: seq<nat>, elems: seq<Element>, update: bool, i: nat)
    requires Shaped(x.schema, t.rows) && ValidSchema(x.schema) && Links(t, list) && Attached(t, elems)
    requires i <= |elems| && |list| == i
    ensures AssignDiff(x, t, list, elems, update, i) == AddAll(x, t, list, elems, update, i)
    decreases |elems| - i
  {
    if i == |elems| {
    } else {
      var (t', outcome) := RowFor(x, t, elems[i], update, false, None);
      RowForShape(x, t, elems[i], update, false, None);
      if outcome.Done? {
        PastTheEnd(x, t', list + [outcome.row], elems, update, i + 1);
      }
    }
  }

  function Common(list: seq<nat>, elems: seq<Element>): (m: nat)
    ensures m <= |list| && m <= |elems| && (m == |list| || m == |elems|)
  {
    if |list| < |elems| then |list| else |elems|
  }

  /** Position j is in the common prefix and its element updates the row that is linked there. */
  predicate Updates(list: seq<nat>, elems: seq<Element>, j: int) {
    0 <= j < Common(list, elems) && elems[j].Plain?
  }

  /** The links of the common prefix afterwards: a given object's row, or the row that was linked. */
  function Relinked(list: seq<nat>, elems: seq<Element>): (r: seq<nat>)
    ensures |r| == Common(list, elems)
    ensures forall j :: 0 <= j < |r| ==> r[j] == if elems[j].Managed? then elems[j].row else list[j]
  {
    seq(Common(list, elems), j requires 0 <= j < Common(list, elems) =>
      if elems[j].Managed? then elems[j].row else list[j])
  }

  ghost predicate Within(x: Context, rows: seq<seq<Value>>, list: seq<nat>) {
    Shaped(x.schema, rows) && forall j :: 0 <= j < |list| ==> list[j] < |rows|
  }

  /** The rows after the updates at the positions from i on, in order. */
  function Overwrite(x: Context, rows: seq<seq<Value>>, list: seq<nat>, elems: seq<Element>, i: nat):
    (r: seq<seq<Value>>)
    requires Within(x, rows, list) && i <= Common(list, elems)
    ensures |r| == |rows| && Within(x, r, list)
    decreases |elems| - i
  {
    if i == Common(list, elems) then rows
    else Overwrite(x, UpdateAt(x, rows, list, elems, i), list, elems, i + 1)
  }

  function UpdateAt(x: Context, rows: seq<seq<Value>>, list: seq<nat>, elems: seq<Element>, i: nat):
    (r: seq<seq<Value>>)
    requires Within(x, rows, list) && i < Common(list, elems)
    ensures |r| == |rows| && Within(x, r, list)
  {
    match elems[i]
    case Managed(_) => rows
    case Plain(input) => rows[list[i] := Updated(x, input, rows[list[i]])]
  }

  /** One step in the common prefix: the element's row is updated and linked, or the call throws. */
  lemma {:induction false} InPlaceStep(x: Context, t: Cells, list: seq<nat>, elems: seq<Element>, update: bool, i: nat)
    requires KeylessTable(x, t) && Links(t, list) && Attached(t, elems) && i < Common(list, elems)
    ensures var t' := RowFor(x, t, elems[i], update, true, Some(list[i])).0;
      var r := AssignDiff(x, t, list, elems, update, i);
      && (!Takes(x, elems[i], false) ==> r.error.Some?)
      && (Takes(x, elems[i], false) ==>
            && KeylessTable(x, t') && t'.rows == UpdateAt(x, t.rows, list, elems, i)
            && r == AssignDiff(x, t', list[i := Relinked(list, elems)[i]], elems, update, i + 1))
  {
    RowForShape(x, t, elems[i], update, true, Some(list[i]));
    if elems[i].Plain? {
      RowForPlain(x, t, elems[i].input, update, Some(list[i]));
    }
  }

  /** The list when assigning in place has come to position i. */
  function Halfway(list: seq<nat>, elems: seq<Element>, i: nat): (r: seq<nat>)
    requires i <= Common(list, elems)
    ensures |r| == |list| && forall j :: 0 <= j < |r| ==> r[j] == if j < i then Relinked(list, elems)[j] else list[j]
  {
    seq(|list|, j requires 0 <= j < |list| => if j < i then Relinked(list, elems)[j] else list[j])
  }

  lemma {:induction false} HalfwaySteps(list: seq<nat>, elems: seq<Element>, i: nat)
    requires i <= Common(list, elems)
    ensures var now := Halfway(list, elems, i);
      if i < Common(list, elems)
      then now[i] == list[i] && now[i := Relinked(list, elems)[i]] == Halfway(list, elems, i + 1)
      else now[..i] == Relinked(list, elems)
    ensures Halfway(list, elems, 0) == list
  {
  }

  /** What assigning in place does after the common prefix: it drops old links or adds elements. */
  lemma {:induction false} InPlaceRest(x: Context, t: Cells, list: seq<nat>, elems: seq<Element>, update: bool)
    requires KeylessTable(x, t) && Links(t, list) && Attached(t, elems)
    ensures var m := Common(list, elems); var r := AssignDiff(x, t, list, elems, update, m);
      && (r.error.None? <==> forall j :: m <= j < |elems| ==> Takes(x, elems[j], true))
      && (r.error.None? ==>
            && r.t.rows == t.rows + NewRows(x, elems[m..])
            && r.list == list[..m] + NewLinks(|t.rows|, elems[m..]))
  {
    var m := Common(list, elems);
    if m == |elems| {
      assert elems[m..] == [];
    } else {
      PastTheEnd(x, t, list, elems, update, m);
      AddAllRows(x, t, list, elems, update, m);
      assert list[..m] == list;
    }
  }

  /** Assigning in place from position i on. */
  lemma {:induction false} InPlace(x: Context, t: Cells, list: seq<nat>, elems: seq<Element>, update: bool, i: nat)
    requires KeylessTable(x, t) && Links(t, list) && Attached(t, elems) && i <= Common(list, elems)
    ensures var r, m := AssignDiff(x, t, Halfway(list, elems, i), elems, update, i), Common(list, elems);
      && (r.error.None? <==> TakesFrom(x, list, elems, i))
      && (r.error.None? ==>
            && r.t.rows == Overwrite(x, t.rows, list, elems, i) + NewRows(x, elems[m..])
            && r.list == Relinked(list, elems) + NewLinks(|t.rows|, elems[m..]))
    decreases |elems| - i
  {
    var now := Halfway(list, elems, i);
    HalfwaySteps(list, elems, i);
    if i < Common(list, elems) {
      InPlaceStep(x, t, now, elems, update, i);
      if Takes(x, elems[i], false) {
        InPlace(x, RowFor(x, t, elems[i], update, true, Some(list[i])).0, list, elems, update, i + 1);
      }
    } else {
      InPlaceRest(x, t, now, elems, update);
    }
  }

  /** A row is left alone unless an update lands on it. */
  lemma {:induction false} OverwriteElsewhere(x: Context, rows: seq<seq<Value>>, list: seq<nat>, elems: seq<Element>,
                                              i: nat, r: nat)
    requires Within(x, rows, list) && i <= Common(list, elems) && r < |rows|
    requires forall j :: i <= j && Updates(list, elems, j) ==> list[j] != r
    ensures Overwrite(x, rows, list, elems, i)[r] == rows[r]
    decreases |elems| - i
  {
    if i == Common(list, elems) {
    } else {
      assert elems[i].Plain? ==> Updates(list, elems, i);
      OverwriteElsewhere(x, UpdateAt(x, rows, list, elems, i), list, elems, i + 1, r);
    }
  }

  /** What position i of the list holds by value after assigning in place. */
  function PlacedValue(x: Context, rows: seq<seq<Value>>, list: seq<nat>, elems: seq<Element>, i: nat): seq<Value>
    requires Within(x, rows, list) && i < |elems|
    requires elems[i].Managed? ==> elems[i].row < |rows|
  {
    var after := Overwrite(x, rows, list, elems, 0);
    if Updates(list, elems, i) then after[list[i]] else AddedValue(x, after, elems[i])
  }

  /** Position i of the list that assigning in place leaves. */
  lemma {:induction false} PlacedAt(x: Context, rows: seq<seq<Value>>, list: seq<nat>, elems: seq<Element>, r: Linked,
                                    i: nat)
    requires Within(x, rows, list) && i < |elems|
    requires forall j :: 0 <= j < |elems| && elems[j].Managed? ==> elems[j].row < |rows|
    requires r.t.rows == Overwrite(x, rows, list, elems, 0) + NewRows(x, elems[Common(list, elems)..])
    requires r.list == Relinked(list, elems) + NewLinks(|rows|, elems[Common(list, elems)..])
    ensures r.list[i] < |r.t.rows| && r.t.rows[r.list[i]] == PlacedValue(x, rows, list, elems, i)
  {
    var m, after := Common(list, elems), Overwrite(x, rows, list, elems, 0);
    if i >= m {
      NewLinksValue(x, after, elems[m..], i - m);
    }
  }

  ghost predicate NotUpdated(list: seq<nat>, elems: seq<Element>, row: nat) {
    forall j :: Updates(list, elems, j) ==> list[j] != row
  }

  /**
   * Assigning in place goes through exactly if every element is accepted where it is put. Then the
   * common prefix keeps its links but for given objects, its rows hold the updates, new objects
   * follow, and rows that no update lands on are as they were.
   */
  lemma {:induction false} InPlaceByValue(x: Context, t: Cells, list: seq<nat>, elems: seq<Element>, update: bool)
    requires KeylessTable(x, t) && Links(t, list) && Attached(t, elems)
    ensures var r := Assign(x, t, list, elems, update, true);
      && (r.error.None? <==> TakesFrom(x, list, elems, 0))
      && (r.error.None? ==>
            && Links(r.t, r.list) && |r.list| == |elems| && |t.rows| <= |r.t.rows|
            && r.list[..Common(list, elems)] == Relinked(list, elems)
            && (forall i :: 0 <= i < |elems| ==> ByValue(r)[i] == PlacedValue(x, t.rows, list, elems, i))
            && (forall row :: 0 <= row < |t.rows| && NotUpdated(list, elems, row) ==> r.t.rows[row] == t.rows[row]))
  {
    var r := AssignDiff(x, t, list, elems, update, 0);
    InPlace(x, t, list, elems, update, 0);
    HalfwaySteps(list, elems, 0);
    if r.error.None? {
      forall i | 0 <= i < |elems|
        ensures r.list[i] < |r.t.rows| && r.t.rows[r.list[i]] == PlacedValue(x, t.rows, list, elems, i)
      {
        PlacedAt(x, t.rows, list, elems, r, i);
      }
      forall row | 0 <= row < |t.rows| && NotUpdated(list, elems, row)
        ensures r.t.rows[row] == t.rows[row]
      {
        OverwriteElsewhere(x, t.rows, list, elems, 0, row);
      }
    }
  }

  // ----- When the two modes agree -----

  /** An update from position i on lands on the row and supplies the column. */
  ghost predicate Supplies(x: Context, list: seq<nat>, elems: seq<Element>, i: nat, r: nat, c: nat)
    requires c < |x.schema|
  {
    exists j :: i <= j && Updates(list, elems, j) && list[j] == r && x.schema[c].name in elems[j].input.given
  }

  /** Updates that land on the same row are given the same object. */
  ghost predicate SameObjects(x: Context, list: seq<nat>, elems: seq<Element>) {
    forall i, j :: Updates(list, elems, i) && Updates(list, elems, j) && list[i] == list[j] ==>
      NewCells(x, elems[i].input) == NewCells(x, elems[j].input)
  }

  /**
   * In the rows that are updated, no null hides a value that is supplied, and a property that no
   * update supplies already holds what it has in the new object.
   */
  ghost predicate CellsReach(x: Context, rows: seq<seq<Value>>, list: seq<nat>, elems: seq<Element>)
    requires Within(x, rows, list)
  {
    forall j, c :: Updates(list, elems, j) && 0 <= c < |x.schema| ==>
      CellReaches(x, rows[list[j]][c], NewCells(x, elems[j].input)[c], c, Supplies(x, list, elems, 0, list[j], c))
  }

  predicate CellReaches(x: Context, cell: Value, wanted: Value, c: nat, supplied: bool)
    requires c < |x.schema|
  {
    if supplied then !Hides(x.schema[c], cell, wanted, x.nullRead) else cell == wanted
  }

  /** A given object that is updated on the way, at any position, holds the new values already. */
  ghost predicate ObjectsStay(x: Context, rows: seq<seq<Value>>, list: seq<nat>, elems: seq<Element>)
    requires Within(x, rows, list)
  {
    forall k, j :: 0 <= k < |elems| && elems[k].Managed? && Updates(list, elems, j) && list[j] == elems[k].row ==>
      NewCells(x, elems[j].input) == rows[list[j]]
  }

  /** All three; each of them can be checked before the call. */
  ghost predicate Compatible(x: Context, rows: seq<seq<Value>>, list: seq<nat>, elems: seq<Element>)
    requires Within(x, rows, list)
  {
    SameObjects(x, list, elems) && CellsReach(x, rows, list, elems) && ObjectsStay(x, rows, list, elems)
  }

  /** What a column ends with when all updates of its row are given the same object. */
  lemma {:induction false} OverwriteCell(x: Context, rows: seq<seq<Value>>, list: seq<nat>, elems: seq<Element>,
                                         i: nat, r: nat, c: nat, v: Value)
    requires Within(x, rows, list) && i <= Common(list, elems) && r < |rows| && c < |x.schema|
    requires forall j :: i <= j && Updates(list, elems, j) && list[j] == r ==> NewCells(x, elems[j].input)[c] == v
    ensures Overwrite(x, rows, list, elems, i)[r][c]
         == if Supplies(x, list, elems, i, r, c) then Settle(x, c, rows[r][c], v) else rows[r][c]
    decreases |elems| - i
  {
    if i == Common(list, elems) {
    } else {
      var next := UpdateAt(x, rows, list, elems, i);
      OverwriteCell(x, next, list, elems, i + 1, r, c, v);
      var here := Updates(list, elems, i) && list[i] == r && x.schema[c].name in elems[i].input.given;
      assert Supplies(x, list, elems, i, r, c) <==> here || Supplies(x, list, elems, i + 1, r, c);
    }
  }

  /** The row that an update lands on ends as the new object exactly when each of its cells gets there. */
  lemma {:induction false} OverwriteRow(x: Context, rows: seq<seq<Value>>, list: seq<nat>, elems: seq<Element>, j: nat)
    requires Within(x, rows, list) && Updates(list, elems, j) && SameObjects(x, list, elems)
    ensures var wanted := NewCells(x, elems[j].input);
      Overwrite(x, rows, list, elems, 0)[list[j]] == wanted <==>
        forall c :: 0 <= c < |x.schema| ==>
          CellReaches(x, rows[list[j]][c], wanted[c], c, Supplies(x, list, elems, 0, list[j], c))
  {
    var wanted, after := NewCells(x, elems[j].input), Overwrite(x, rows, list, elems, 0)[list[j]];
    forall c | 0 <= c < |x.schema|
      ensures after[c] == wanted[c] <==>
        CellReaches(x, rows[list[j]][c], wanted[c], c, Supplies(x, list, elems, 0, list[j], c))
    {
      OverwriteCell(x, rows, list, elems, 0, list[j], c, wanted[c]);
    }
  }

  /** A position gets by value what it would be given by adding. */
  ghost predicate Agrees(x: Context, rows: seq<seq<Value>>, list: seq<nat>, elems: seq<Element>, i: nat)
    requires Within(x, rows, list) && i < |elems| && (elems[i].Managed? ==> elems[i].row < |rows|)
  {
    PlacedValue(x, rows, list, elems, i) == AddedValue(x, rows, elems[i])
  }

  /** What both modes leave is equal, position by position, exactly under the three conditions. */
  lemma {:induction false} AgreesIff(x: Context, rows: seq<seq<Value>>, list: seq<nat>, elems: seq<Element>)
    requires Within(x, rows, list)
    requires forall i :: 0 <= i < |elems| && elems[i].Managed? ==> elems[i].row < |rows|
    ensures (forall i :: 0 <= i < |elems| ==> Agrees(x, rows, list, elems, i)) <==> Compatible(x, rows, list, elems)
  {
    if forall i :: 0 <= i < |elems| ==> Agrees(x, rows, list, elems, i) {
      var after := Overwrite(x, rows, list, elems, 0);
      forall j | Updates(list, elems, j) ensures after[list[j]] == NewCells(x, elems[j].input) {
        assert Agrees(x, rows, list, elems, j);
      }
      assert SameObjects(x, list, elems) by {
        forall i, j | Updates(list, elems, i) && Updates(list, elems, j) && list[i] == list[j]
          ensures NewCells(x, elems[i].input) == NewCells(x, elems[j].input)
        {
          assert after[list[i]] == after[list[j]];
        }
      }
      forall j | Updates(list, elems, j)
        ensures forall c :: 0 <= c < |x.schema| ==>
          CellReaches(x, rows[list[j]][c], NewCells(x, elems[j].input)[c], c, Supplies(x, list, elems, 0, list[j], c))
      {
        OverwriteRow(x, rows, list, elems, j);
      }
      forall k, j | 0 <= k < |elems| && elems[k].Managed? && Updates(list, elems, j) && list[j] == elems[k].row
        ensures NewCells(x, elems[j].input) == rows[list[j]]
      {
        assert Agrees(x, rows, list, elems, k) && !Updates(list, elems, k);
        assert after[list[j]] == NewCells(x, elems[j].input);
      }
    }
    if Compatible(x, rows, list, elems) {
      forall i | 0 <= i < |elems| ensures Agrees(x, rows, list, elems, i) {
        AgreesAt(x, rows, list, elems, i);
      }
    }
  }

  lemma {:induction false} AgreesAt(x: Context, rows: seq<seq<Value>>, list: seq<nat>, elems: seq<Element>, i: nat)
    requires Within(x, rows, list) && i < |elems| && (elems[i].Managed? ==> elems[i].row < |rows|)
    requires Compatible(x, rows, list, elems)
    ensures Agrees(x, rows, list, elems, i)
  {
    match elems[i]
    case Plain(_) =>
      if Updates(list, elems, i) {
        OverwriteRow(x, rows, list, elems, i);
      }
    case Managed(row) =>
      if exists j :: Updates(list, elems, j) && list[j] == row {
        var j :| Updates(list, elems, j) && list[j] == row;
        OverwriteRow(x, rows, list, elems, j);
        assert NewCells(x, elems[j].input) == rows[list[j]];
      } else {
        OverwriteElsewhere(x, rows, list, elems, 0, row);
      }
  }

  lemma {:induction false} SameContents(x: Context, rows: seq<seq<Value>>, list: seq<nat>, elems: seq<Element>,
                                        a: seq<seq<Value>>, b: seq<seq<Value>>)
    requires Within(x, rows, list) && |a| == |b| == |elems|
    requires forall i :: 0 <= i < |elems| && elems[i].Managed? ==> elems[i].row < |rows|
    requires forall i :: 0 <= i < |elems| ==> a[i] == PlacedValue(x, rows, list, elems, i)
    requires forall i :: 0 <= i < |elems| ==> b[i] == AddedValue(x, rows, elems[i])
    ensures a == b <==> Compatible(x, rows, list, elems)
  {
    AgreesIff(x, rows, list, elems);
    if a == b {
      forall i | 0 <= i < |elems| ensures Agrees(x, rows, list, elems, i) {
        assert a[i] == b[i];
      }
    }
    if forall i :: 0 <= i < |elems| ==> Agrees(x, rows, list, elems, i) {
      forall i | 0 <= i < |elems| ensures a[i] == b[i] {
        assert Agrees(x, rows, list, elems, i);
      }
    }
  }

  /**
   * When each mode of assign goes through; and if both do, they end with the same contents exactly when updates of the
   * same row are given the same object, each cell of it reaches its new value, and a given object is
   * not changed on the way.
   */
  lemma {:induction false} InPlaceEqualsReplace(x: Context, t: Cells, list: seq<nat>, elems: seq<Element>, update: bool)
    requires KeylessTable(x, t) && Links(t, list) && Attached(t, elems)
    ensures var a, b := Assign(x, t, list, elems, update, true), Assign(x, t, list, elems, update, false);
      && (a.error.None? <==> TakesFrom(x, list, elems, 0))
      && (b.error.None? <==> TakesFrom(x, [], elems, 0))
      && (a.error.None? && b.error.None? ==>
            && Links(a.t, a.list) && Links(b.t, b.list)
            && (ByValue(a) == ByValue(b) <==> Compatible(x, t.rows, list, elems)))
  {
    var a, b := Assign(x, t, list, elems, update, true), Assign(x, t, list, elems, update, false);
    InPlaceByValue(x, t, list, elems, update);
    ReplaceByValue(x, t, list, elems, update);
    if a.error.None? && b.error.None? {
      SameContents(x, t.rows, list, elems, ByValue(a), ByValue(b));
    }
  }

  /** The updated rows are all different. */
  ghost predicate DistinctUpdates(list: seq<nat>, elems: seq<Element>) {
    forall i, j :: Updates(list, elems, i) && Updates(list, elems, j) && i != j ==> list[i] != list[j]
  }

  /**
   * When the updated rows are distinct, the two modes agree exactly when no null hides a supplied
   * value, each property left out already holds what a new object would have, and no given object is
   * changed on the way.
   */
  lemma {:induction false} DistinctInPlaceEqualsReplace(x: Context, t: Cells, list: seq<nat>, elems: seq<Element>,
                                                        update: bool)
    requires KeylessTable(x, t) && Links(t, list) && Attached(t, elems) && DistinctUpdates(list, elems)
    ensures var a, b := Assign(x, t, list, elems, update, true), Assign(x, t, list, elems, update, false);
      a.error.None? && b.error.None? ==>
        && Links(a.t, a.list) && Links(b.t, b.list)
        && (ByValue(a) == ByValue(b) <==>
              && (forall j, c :: Updates(list, elems, j) && 0 <= c < |x.schema| ==>
                    CellReaches(x, t.rows[list[j]][c], NewCells(x, elems[j].input)[c], c,
                                x.schema[c].name in elems[j].input.given))
              && ObjectsStay(x, t.rows, list, elems))
  {
    InPlaceEqualsReplace(x, t, list, elems, update);
    forall j, c | Updates(list, elems, j) && 0 <= c < |x.schema|
      ensures Supplies(x, list, elems, 0, list[j], c) <==> x.schema[c].name in elems[j].input.given
    {
    }
  }

  // ----- Where they differ -----

  /** A table of required or nullable integers, with nulls read as core documents it. */
  function Integers(nullable: bool): Context {
    Context([Property("n", Int, nullable, false)], map[], false, DocumentedNullRead)
  }

  function Give(n: int): Element {
    Plain(Input(map["n" := IntValue(n)], false))
  }

  lemma {:induction false} GiveFits(nullable: bool, n: int, t: Cells)
    requires forall r :: 0 <= r < |t.rows| ==>
      |t.rows[r]| == 1 && (t.rows[r][0].IntValue? || (nullable && t.rows[r][0].Null?))
    ensures var x, e := Integers(nullable), Give(n);
      && KeylessTable(x, t)
      && Takes(x, e, false) && Takes(x, e, true)
      && NewCells(x, e.input) == [IntValue(n)]
  {
    assert PrimaryIndex(Integers(nullable).schema[1..]).None?;
  }

  /** A null integer that is to become zero: in place it stays null. */
  lemma {:induction false} NullHidesZero(x: Context, t: Cells, list: seq<nat>, elems: seq<Element>, update: bool)
    requires x == Integers(true) && t.rows == [[Null]]
    requires list == [0] && elems == [Give(0)]
    ensures KeylessTable(x, t) && Links(t, list) && Attached(t, elems)
    ensures var a, b := Assign(x, t, list, elems, update, true), Assign(x, t, list, elems, update, false);
      && a.error.None? && b.error.None? && Links(a.t, a.list) && Links(b.t, b.list)
      && ByValue(a) == [[Null]] && ByValue(b) == [[IntValue(0)]]
  {
    GiveFits(true, 0, t);
    InPlaceByValue(x, t, list, elems, update);
    ReplaceByValue(x, t, list, elems, update);
    assert Updates(list, elems, 0) && Updated(x, elems[0].input, t.rows[0]) == [Null];
    assert Overwrite(x, t.rows, list, elems, 0) == UpdateAt(x, t.rows, list, elems, 0);
  }

  /** An object that moves to the front while its old place is updated: in place it is seen updated. */
  lemma {:induction false} UpdateReachesGivenObject(x: Context, t: Cells, list: seq<nat>, elems: seq<Element>,
                                                    update: bool)
    requires x == Integers(false) && t.rows == [[IntValue(5)], [IntValue(6)]]
    requires list == [0, 1] && elems == [Managed(1), Give(7)]
    ensures KeylessTable(x, t) && Links(t, list) && Attached(t, elems)
    ensures var a, b := Assign(x, t, list, elems, update, true), Assign(x, t, list, elems, update, false);
      && a.error.None? && b.error.None? && Links(a.t, a.list) && Links(b.t, b.list)
      && ByValue(a) == [[IntValue(7)], [IntValue(7)]] && ByValue(b) == [[IntValue(6)], [IntValue(7)]]
  {
    GiveFits(false, 7, t);
    InPlaceByValue(x, t, list, elems, update);
    ReplaceByValue(x, t, list, elems, update);
    assert Updated(x, elems[1].input, t.rows[1]) == [IntValue(7)];
    assert Overwrite(x, t.rows, list, elems, 1) == UpdateAt(x, t.rows, list, elems, 1);
    assert Overwrite(x, t.rows, list, elems, 0) == Overwrite(x, t.rows, list, elems, 1);
  }
}
