/**
 * Assigning to a list of links, element by element: what one element more does, in either mode, and
 * where a call stops that throws.
 */
module ListSteps {
  import opened ObjectStore
  import opened Options
  import opened ObjectLists

  /** Adding one element more adds it to what adding the others leaves. */
  lemma {:induction false} AddOneMore(x: Context, t: Cells, list: seq<nat>, elems: seq<Element>, e: Element,
                                      update: bool, i: nat)
    requires Shaped(x.schema, t.rows) && ValidSchema(x.schema) && Links(t, list) && Attached(t, elems + [e])
    requires i <= |elems| && Attached(t, elems)
    ensures var r, r' := AddAll(x, t, list, elems, update, i), AddAll(x, t, list, elems + [e], update, i);
      if r.error.Some? then r' == r
      else
        && Shaped(x.schema, r.t.rows) && |t.rows| <= |r.t.rows|
        && var (t', outcome) := RowFor(x, r.t, e, update, false, None);
           match outcome
           case Done(row) => r' == Linked(t', r.list + [row], None)
           case Threw(error) => r' == Linked(t', r.list, Some(error))
    decreases |elems| - i
  {
    var (t', outcome) := RowFor(x, t, (elems + [e])[i], update, false, None);
    RowForShape(x, t, (elems + [e])[i], update, false, None);
    if i == |elems| {
    } else if outcome.Done? {
      AddOneMore(x, t', list + [outcome.row], elems, e, update, i + 1);
    }
  }

  /** An element that is the last one is put in place, and what follows in the list is dropped. */
  lemma {:induction false} PutLast(x: Context, t: Cells, list: seq<nat>, elems: seq<Element>, e: Element, update: bool)
    requires Shaped(x.schema, t.rows) && ValidSchema(x.schema) && Links(t, list) && Attached(t, elems + [e])
    requires |elems| <= |list|
    ensures var k := |elems|; var r' := AssignDiff(x, t, list, elems + [e], update, k);
      var (t', outcome) := RowFor(x, t, e, update, k < |list|, if k < |list| then Some(list[k]) else None);
      match outcome
      case Done(row) => r' == Linked(t', list[..k] + [row], None)
      case Threw(error) => r' == Linked(t', list, Some(error))
  {
    var k := |elems|;
    var (t', outcome) := RowFor(x, t, e, update, k < |list|, if k < |list| then Some(list[k]) else None);
    assert (elems + [e])[k] == e;
    RowForShape(x, t, e, update, k < |list|, if k < |list| then Some(list[k]) else None);
    if outcome.Done? {
      var next := if k < |list| then list[k := outcome.row] else list + [outcome.row];
      assert next[..k + 1] == list[..k] + [outcome.row];
    }
  }

  /** So does assigning in place; the element goes where the list, as it was, has its position. */
  lemma {:induction false} PutOneMore(x: Context, t: Cells, list: seq<nat>, elems: seq<Element>, e: Element,
                                      update: bool, i: nat)
    requires Shaped(x.schema, t.rows) && ValidSchema(x.schema) && Links(t, list) && Attached(t, elems + [e])
    requires i <= |elems| && i <= |list| && Attached(t, elems)
    ensures var r, r' := AssignDiff(x, t, list, elems, update, i), AssignDiff(x, t, list, elems + [e], update, i);
      var k := |elems|; var current := if k < |list| then Some(list[k]) else None;
      if r.error.Some? then r' == r
      else
        && Shaped(x.schema, r.t.rows) && |t.rows| <= |r.t.rows|
        && var (t', outcome) := RowFor(x, r.t, e, update, k < |list|, current);
           match outcome
           case Done(row) => r' == Linked(t', r.list + [row], None)
           case Threw(error) => r' == Linked(t', r.list + (if k < |list| then list[k..] else []), Some(error))
    decreases |elems| - i
  {
    if i == |elems| {
      PutLast(x, t, list, elems, e, update);
      assert AssignDiff(x, t, list, elems, update, i) == Linked(t, list[..i], None);
    } else {
      var current := if i < |list| then Some(list[i]) else None;
      var (t', outcome) := RowFor(x, t, elems[i], update, i < |list|, current);
      RowForShape(x, t, elems[i], update, i < |list|, current);
      assert (elems + [e])[i] == elems[i];
      if outcome.Done? {
        PutOneMore(x, t', if i < |list| then list[i := outcome.row] else list + [outcome.row], elems, e, update, i + 1);
      }
    }
  }

  /** What assigning the first n elements leaves, in one mode or the other. */
  function AfterSome(x: Context, t: Cells, list: seq<nat>, elems: seq<Element>, update: bool, diff: bool, n: nat):
    Linked
    requires Shaped(x.schema, t.rows) && ValidSchema(x.schema) && Links(t, list) && Attached(t, elems) && n <= |elems|
  {
    Assign(x, t, list, elems[..n], update, diff)
  }

  /** The row that element n is put over, in the mode that has one. */
  function Current(list: seq<nat>, diff: bool, n: nat): Option<nat> {
    if diff && n < |list| then Some(list[n]) else None
  }

  /**
   * One element more: if the elements before it have gone through, its row is found, created or
   * updated in what they left, and linked after theirs; if it throws, what it leaves stays, with the
   * links so far and, in place, the rest of the old ones.
   */
  lemma {:induction false} NextElementIs(x: Context, t: Cells, list: seq<nat>, elems: seq<Element>, update: bool,
                                         diff: bool, n: nat)
    requires Shaped(x.schema, t.rows) && ValidSchema(x.schema) && Links(t, list) && Attached(t, elems) && n < |elems|
    ensures var r := AfterSome(x, t, list, elems, update, diff, n);
      var r' := AfterSome(x, t, list, elems, update, diff, n + 1);
      if r.error.Some? then r' == r
      else
        && Shaped(x.schema, r.t.rows) && |t.rows| <= |r.t.rows|
        && var (t', outcome) := RowFor(x, r.t, elems[n], update, Current(list, diff, n).Some?, Current(list, diff, n));
           match outcome
           case Done(row) => r' == Linked(t', r.list + [row], None)
           case Threw(e) => r' == Linked(t', r.list + (if diff && n < |list| then list[n..] else []), Some(e))
  {
    assert elems[..n + 1] == elems[..n] + [elems[n]];
    if diff {
      PutOneMore(x, t, list, elems[..n], elems[n], update, 0);
    } else {
      AddOneMore(x, t, [], elems[..n], elems[n], update, 0);
    }
  }

  /** A call that has thrown does nothing more. */
  lemma {:induction false} StopsThere(x: Context, t: Cells, list: seq<nat>, elems: seq<Element>, update: bool,
                                      diff: bool, n: nat, m: nat)
    requires Shaped(x.schema, t.rows) && ValidSchema(x.schema) && Links(t, list) && Attached(t, elems)
    requires n <= m <= |elems| && AfterSome(x, t, list, elems, update, diff, n).error.Some?
    ensures AfterSome(x, t, list, elems, update, diff, m) == AfterSome(x, t, list, elems, update, diff, n)
  {
    if m == n {
    } else {
      StopsThere(x, t, list, elems, update, diff, n, m - 1);
      NextElementIs(x, t, list, elems, update, diff, m - 1);
    }
  }

  /** With no element before it left to put, assigning leaves the table alone and, in either mode, no link. */
  lemma {:induction false} StartsThere(x: Context, t: Cells, list: seq<nat>, elems: seq<Element>, update: bool,
                                       diff: bool)
    requires Shaped(x.schema, t.rows) && ValidSchema(x.schema) && Links(t, list) && Attached(t, elems)
    ensures AfterSome(x, t, list, elems, update, diff, 0) == Linked(t, [], None)
  {
    assert elems[..0] == [];
  }
}
