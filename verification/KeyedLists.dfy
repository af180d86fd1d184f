/**
 * Assigning to a list of objects with primary keys. Elements find their rows by key, so assigning in
 * place and clearing and adding do the same, step by step, but for nulls that hide a value.
 */
module KeyedLists {
  import opened ObjectStore
  import opened Options
  import opened StoreLaws
  import opened UpsertLaws
  import opened ObjectLists
  import opened ListSteps

  ghost predicate KeyedTable(x: Context, t: Cells) {
    PrimaryIndex(x.schema).Some? && ValidSchema(x.schema) && WellTyped(x.schema, t.rows)
  }

  // ----- One element -----

  /** What populating does to the rows, and whether it throws, does not depend on what was written before. */
  lemma {:induction false} PopulateSameRows(schema: seq<Property>, a: Cells, b: Cells, row: nat, m: Mode, i: nat)
    requires a.rows == b.rows && row < |a.rows| && |a.rows[row]| == |schema| && i <= |schema|
    ensures var (a', ea) := Populate(schema, a, row, m, i); var (b', eb) := Populate(schema, b, row, m, i);
      a'.rows == b'.rows && ea == eb
    decreases |schema| - i
  {
    if i == |schema| {
    } else {
      match Column(schema[i], a.rows[row][i], m)
      case Keep => PopulateSameRows(schema, a, b, row, m, i + 1);
      case Write(u) => PopulateSameRows(schema, SetCell(a, row, i, u), SetCell(b, row, i, u), row, m, i + 1);
      case Fail(_) =>
    }
  }

  /** Updating in place, adding the element to this table would overlook a value: a null cell reads just like it. */
  ghost predicate Overlooks(x: Context, t: Cells, e: Element, update: bool)
    requires KeyedTable(x, t)
  {
    e.Plain? &&
      var target := FindTarget(x.schema, t, CreateRequest(x, e.input, update, true, None));
      target.Target? &&
      var m := ModeOf(CreateRequest(x, e.input, update, true, None), target.created, target.skipPrimary);
      exists c :: 0 <= c < |x.schema| && Clash(x.schema[c], target.t.rows[target.row][c], m)
  }

  /** With keys, the way of writing and the row that is linked now make no difference to where an element goes. */
  lemma {:induction false} SameTarget(x: Context, a: Cells, b: Cells, input: Input, update: bool, diff: bool,
                                      current: Option<nat>)
    requires KeyedTable(x, a) && a.rows == b.rows && (current.Some? ==> current.value < |a.rows|)
    ensures var p := FindTarget(x.schema, a, CreateRequest(x, input, update, diff, current));
      var q := FindTarget(x.schema, b, CreateRequest(x, input, update, true, None));
      match p
      case NoTarget(_) => p == q
      case Target(t, row, created, skipPrimary) =>
        q.Target? && t.rows == q.t.rows && row == q.row && created == q.created && skipPrimary == q.skipPrimary
  {
  }

  /**
   * On equal rows, adding an element and putting it in place go through together, give the same
   * link, and leave equal rows exactly if nothing is overlooked.
   */
  lemma {:induction false} SameStep(x: Context, a: Cells, b: Cells, e: Element, update: bool, diff: bool,
                                    current: Option<nat>)
    requires KeyedTable(x, a) && a.rows == b.rows && (current.Some? ==> current.value < |a.rows|)
    ensures var (a', oa) := RowFor(x, a, e, update, diff, current);
      var (b', ob) := RowFor(x, b, e, update, false, None);
      && (oa.Done? <==> ob.Done?)
      && (ob.Done? ==>
            && oa == ob && KeyedTable(x, b')
            && (a'.rows == b'.rows <==> !(diff && Overlooks(x, b, e, update))))
  {
    if e.Plain? {
      SameTarget(x, a, b, e.input, update, diff, current);
      SameTarget(x, b, b, e.input, update, false, None);
      var p := FindTarget(x.schema, a, CreateRequest(x, e.input, update, diff, current));
      var q := FindTarget(x.schema, b, CreateRequest(x, e.input, update, false, None));
      if q.Target? {
        var m := ModeOf(CreateRequest(x, e.input, update, true, None), q.created, q.skipPrimary);
        var plain := m.(diff := false);
        TargetKeeps(x.schema, b, CreateRequest(x, e.input, update, false, None));
        PopulateSameRows(x.schema, p.t, q.t, q.row, m.(diff := diff), 0);
        DiffEndsAsPlain(x.schema, q.t, q.row, m);
        PopulateKeepsTypes(x.schema, q.t, q.row, plain);
      }
    }
  }

  // ----- Whole lists -----

  /** Clearing and adding has got to element n; putting it in place there instead would overlook a value. */
  ghost predicate OverlooksAt(x: Context, t: Cells, list: seq<nat>, elems: seq<Element>, update: bool, n: nat)
    requires KeyedTable(x, t) && Links(t, list) && Attached(t, elems) && n < |elems|
  {
    var b := AfterSome(x, t, list, elems, update, false, n);
    n < |list| && b.error.None? && KeyedTable(x, b.t) && Overlooks(x, b.t, elems[n], update)
  }

  /** After n elements the two modes have both thrown, or have the same rows and links. */
  ghost predicate AgreeAfter(x: Context, t: Cells, list: seq<nat>, elems: seq<Element>, update: bool, n: nat)
    requires KeyedTable(x, t) && Links(t, list) && Attached(t, elems) && n <= |elems|
  {
    var a, b := AfterSome(x, t, list, elems, update, true, n), AfterSome(x, t, list, elems, update, false, n);
    && (a.error.None? <==> b.error.None?)
    && (b.error.None? ==> KeyedTable(x, b.t) && a.t.rows == b.t.rows && a.list == b.list)
  }

  ghost predicate SameRowsAfter(x: Context, t: Cells, list: seq<nat>, elems: seq<Element>, update: bool, n: nat)
    requires KeyedTable(x, t) && Links(t, list) && Attached(t, elems) && n <= |elems|
  {
    AfterSome(x, t, list, elems, update, true, n).t.rows == AfterSome(x, t, list, elems, update, false, n).t.rows
  }

  ghost predicate GoesThrough(x: Context, t: Cells, list: seq<nat>, elems: seq<Element>, update: bool, n: nat)
    requires KeyedTable(x, t) && Links(t, list) && Attached(t, elems) && n <= |elems|
  {
    AfterSome(x, t, list, elems, update, false, n).error.None?
  }

  /** If they agree so far, they agree after the next element exactly if nothing is overlooked there. */
  lemma {:induction false} NextElement(x: Context, t: Cells, list: seq<nat>, elems: seq<Element>, update: bool, n: nat)
    requires KeyedTable(x, t) && Links(t, list) && Attached(t, elems) && n < |elems|
    requires AgreeAfter(x, t, list, elems, update, n)
    ensures !OverlooksAt(x, t, list, elems, update, n) ==> AgreeAfter(x, t, list, elems, update, n + 1)
    ensures GoesThrough(x, t, list, elems, update, n + 1) && SameRowsAfter(x, t, list, elems, update, n + 1) ==>
      !OverlooksAt(x, t, list, elems, update, n)
  {
    var a, b := AfterSome(x, t, list, elems, update, true, n), AfterSome(x, t, list, elems, update, false, n);
    NextElementIs(x, t, list, elems, update, true, n);
    NextElementIs(x, t, list, elems, update, false, n);
    if b.error.None? {
      SameStep(x, a.t, b.t, elems[n], update, n < |list|, Current(list, true, n));
    }
  }

  ghost predicate NothingOverlooked(x: Context, t: Cells, list: seq<nat>, elems: seq<Element>, update: bool, n: nat)
    requires KeyedTable(x, t) && Links(t, list) && Attached(t, elems) && n <= |elems|
  {
    forall j :: 0 <= j < n ==> !OverlooksAt(x, t, list, elems, update, j)
  }

  lemma {:induction false} AgreeSoFar(x: Context, t: Cells, list: seq<nat>, elems: seq<Element>, update: bool, n: nat)
    requires KeyedTable(x, t) && Links(t, list) && Attached(t, elems) && n <= |elems|
    requires NothingOverlooked(x, t, list, elems, update, n)
    ensures AgreeAfter(x, t, list, elems, update, n)
  {
    if n == 0 {
    } else {
      AgreeSoFar(x, t, list, elems, update, n - 1);
      NextElement(x, t, list, elems, update, n - 1);
    }
  }

  /** What goes through goes through so far. */
  lemma {:induction false} GoesThroughSoFar(x: Context, t: Cells, list: seq<nat>, elems: seq<Element>, update: bool,
                                            n: nat)
    requires KeyedTable(x, t) && Links(t, list) && Attached(t, elems) && n < |elems|
    requires GoesThrough(x, t, list, elems, update, n + 1)
    ensures GoesThrough(x, t, list, elems, update, n)
  {
    NextElementIs(x, t, list, elems, update, false, n);
  }

  lemma {:induction false} NotThisOne(x: Context, t: Cells, list: seq<nat>, elems: seq<Element>, update: bool, n: nat)
    requires KeyedTable(x, t) && Links(t, list) && Attached(t, elems) && n < |elems|
    requires NothingOverlooked(x, t, list, elems, update, n)
    requires GoesThrough(x, t, list, elems, update, n + 1) && SameRowsAfter(x, t, list, elems, update, n + 1)
    ensures !OverlooksAt(x, t, list, elems, update, n)
  {
    AgreeSoFar(x, t, list, elems, update, n);
    NextElement(x, t, list, elems, update, n);
  }

  lemma {:induction false} AllGoThrough(x: Context, t: Cells, list: seq<nat>, elems: seq<Element>, update: bool, n: nat)
    requires KeyedTable(x, t) && Links(t, list) && Attached(t, elems) && n <= |elems|
    requires GoesThrough(x, t, list, elems, update, n)
    ensures forall j :: 0 <= j <= n ==> GoesThrough(x, t, list, elems, update, j)
  {
    if n == 0 {
    } else {
      GoesThroughSoFar(x, t, list, elems, update, n - 1);
      AllGoThrough(x, t, list, elems, update, n - 1);
    }
  }

  /** Both modes go the same way up to n elements. */
  ghost predicate SameWay(x: Context, t: Cells, list: seq<nat>, elems: seq<Element>, update: bool, n: nat)
    requires KeyedTable(x, t) && Links(t, list) && Attached(t, elems) && n <= |elems|
  {
    forall j :: 0 <= j <= n ==> SameRowsAfter(x, t, list, elems, update, j)
  }

  lemma {:induction false} EqualSoFar(x: Context, t: Cells, list: seq<nat>, elems: seq<Element>, update: bool, n: nat)
    requires KeyedTable(x, t) && Links(t, list) && Attached(t, elems) && n <= |elems|
    requires GoesThrough(x, t, list, elems, update, n) && SameWay(x, t, list, elems, update, n)
    ensures NothingOverlooked(x, t, list, elems, update, n)
  {
    if n == 0 {
    } else {
      GoesThroughSoFar(x, t, list, elems, update, n - 1);
      EqualSoFar(x, t, list, elems, update, n - 1);
      assert SameRowsAfter(x, t, list, elems, update, n);
      NotThisOne(x, t, list, elems, update, n - 1);
      NothingMore(x, t, list, elems, update, n - 1);
    }
  }

  lemma {:induction false} NothingMore(x: Context, t: Cells, list: seq<nat>, elems: seq<Element>, update: bool, n: nat)
    requires KeyedTable(x, t) && Links(t, list) && Attached(t, elems) && n < |elems|
    requires NothingOverlooked(x, t, list, elems, update, n) && !OverlooksAt(x, t, list, elems, update, n)
    ensures NothingOverlooked(x, t, list, elems, update, n + 1)
  {
  }

  /**
   * If nothing is overlooked, both modes of assign go through together, and then end with the same
   * rows and the same links.
   */
  lemma {:induction false} KeyedInPlaceEqualsReplace(x: Context, t: Cells, list: seq<nat>, elems: seq<Element>,
                                                     update: bool)
    requires KeyedTable(x, t) && Links(t, list) && Attached(t, elems)
    requires NothingOverlooked(x, t, list, elems, update, |elems|)
    ensures var a, b := Assign(x, t, list, elems, update, true), Assign(x, t, list, elems, update, false);
      && (a.error.None? <==> b.error.None?)
      && (b.error.None? ==> a.t.rows == b.t.rows && a.list == b.list)
  {
    AgreeSoFar(x, t, list, elems, update, |elems|);
    assert elems[..|elems|] == elems;
  }

  /**
   * That is exact: when clearing and adding goes through, the two modes have the same rows after
   * every number of elements exactly if nothing is overlooked.
   */
  lemma {:induction false} KeyedAgreeExactly(x: Context, t: Cells, list: seq<nat>, elems: seq<Element>, update: bool)
    requires KeyedTable(x, t) && Links(t, list) && Attached(t, elems)
    requires Assign(x, t, list, elems, update, false).error.None?
    ensures NothingOverlooked(x, t, list, elems, update, |elems|) <==>
      SameWay(x, t, list, elems, update, |elems|)
  {
    assert elems[..|elems|] == elems;
    AllGoThrough(x, t, list, elems, update, |elems|);
    if NothingOverlooked(x, t, list, elems, update, |elems|) {
      forall n | 0 <= n <= |elems| ensures SameRowsAfter(x, t, list, elems, update, n) {
        assert GoesThrough(x, t, list, elems, update, n);
        AgreeSoFar(x, t, list, elems, update, n);
      }
    }
    if SameWay(x, t, list, elems, update, |elems|) {
      EqualSoFar(x, t, list, elems, update, |elems|);
    }
  }

  // ----- What can be checked without following the table -----

  /** No value that the element or a default gives a nullable property reads just like null. */
  predicate InPlainSight(x: Context, e: Element) {
    e.Plain? ==> forall c :: 0 <= c < |x.schema| && x.schema[c].nullable ==>
      && Visible(x, x.schema[c], Lookup(e.input.given, x.schema[c].name))
      && Visible(x, x.schema[c], Lookup(x.defaults, x.schema[c].name))
  }

  predicate Visible(x: Context, p: Property, v: Option<Value>) {
    v.Some? ==> !Hides(p, Null, v.value, x.nullRead)
  }

  lemma {:induction false} InPlainSightSeen(x: Context, t: Cells, e: Element, update: bool)
    requires KeyedTable(x, t) && InPlainSight(x, e)
    ensures !Overlooks(x, t, e, update)
  {
    if e.Plain? {
      TargetKeeps(x.schema, t, CreateRequest(x, e.input, update, true, None));
    }
  }

  /** When all values are in plain sight, as they are when every property is required, the modes never differ. */
  lemma {:induction false} KeyedAlwaysAgree(x: Context, t: Cells, list: seq<nat>, elems: seq<Element>, update: bool)
    requires KeyedTable(x, t) && Links(t, list) && Attached(t, elems)
    requires forall i :: 0 <= i < |elems| ==> InPlainSight(x, elems[i])
    ensures var a, b := Assign(x, t, list, elems, update, true), Assign(x, t, list, elems, update, false);
      && (a.error.None? <==> b.error.None?)
      && (b.error.None? ==> a.t.rows == b.t.rows && a.list == b.list)
  {
    forall j | 0 <= j < |elems| ensures !OverlooksAt(x, t, list, elems, update, j) {
      var b := AfterSome(x, t, list, elems, update, false, j);
      if b.error.None? && KeyedTable(x, b.t) {
        InPlainSightSeen(x, b.t, elems[j], update);
      }
    }
    KeyedInPlaceEqualsReplace(x, t, list, elems, update);
  }
}
