/**
 * What assigning to a list of objects with primary keys leaves, in either mode: each element is linked
 * by the row that has its key, elements with new keys get new rows, the last value given for a
 * property of a key is the one its row holds, and no other row changes.
 */
module KeyedLinks {
  import opened ObjectStore
  import opened Options
  import opened StoreLaws
  import opened UpsertLaws
  import opened CreationLaws
  import opened ObjectLists
  import opened ListSteps

  ghost predicate KeyedBy(x: Context, t: Cells, k: nat) {
    PrimaryIndex(x.schema) == Some(k) && ValidSchema(x.schema) && WellTyped(x.schema, t.rows)
  }

  /** The key of an element that is to be created. */
  function GivenKey(x: Context, e: Element, k: nat): Value
    requires e.Plain? && k < |x.schema|
  {
    NewValue(x.schema[k], e.input.given, x.defaults)
  }

  /** Elements are created or updated by key alone; in a migration without updating, keys may be repeated. */
  predicate ByKey(x: Context, update: bool) {
    update || !x.inMigration
  }

  // ----- One element -----

  /** A cell holds a value, or a null in its place that reads just like it. */
  predicate Holds(x: Context, c: nat, cell: Value, v: Value, diff: bool)
    requires c < |x.schema|
  {
    cell == v || (diff && Hides(x.schema[c], cell, v, x.nullRead))
  }

  /** The rows that an element leaves: those that were there, and at most one more, and one row filled in. */
  ghost predicate OneRow(x: Context, before: seq<seq<Value>>, after: seq<seq<Value>>, e: Element, k: nat, row: nat,
                         diff: bool)
    requires e.Plain? && k < |x.schema|
  {
    && WellTyped(x.schema, before) && WellTyped(x.schema, after)
    && |before| <= |after| <= |before| + 1 && row < |after|
    && (|after| > |before| ==> row == |before|)
    && (forall r :: 0 <= r < |before| && r != row ==> after[r] == before[r])
    && (row < |before| ==> after[row][k] == before[row][k])
    && forall c :: 0 <= c < |x.schema| && !x.schema[c].isPrimary ==>
         if x.schema[c].name in e.input.given then Holds(x, c, after[row][c], e.input.given[x.schema[c].name], diff)
         else if row < |before| then after[row][c] == before[row][c]
         else Holds(x, c, after[row][c], NewValue(x.schema[c], map[], x.defaults), diff)
  }

  /** The element can be created, or updated, in these rows. */
  ghost predicate Fitting(x: Context, rows: seq<seq<Value>>, e: Element, k: nat, update: bool)
    requires e.Plain? && k < |x.schema| && Shaped(x.schema, rows)
  {
    var q := CreateRequest(x, e.input, update, false, None);
    var key := GivenKey(x, e, k);
    var known := HasKey(rows, k, key);
    && UsableKey(x.schema[k], q, key)
    && (known ==> update)
    && forall c :: 0 <= c < |x.schema| ==> Accepts(x.schema[c], ModeOf(q, !known, true))
  }

  lemma {:induction false} FilledRow(x: Context, before: seq<seq<Value>>, after: seq<seq<Value>>, q: Request,
                                     created: bool, skip: bool, start: seq<Value>, row: nat, k: nat)
    requires PrimaryIndex(x.schema) == Some(k)
    requires q.defaults == x.defaults && q.nullRead == x.nullRead
    requires WellTyped(x.schema, before) && WellTyped(x.schema, after) && row < |after|
    requires if created then |after| == |before| + 1 && row == |before| && after[..row] == before
             else skip && |after| == |before| && start == before[row]
    requires forall r :: 0 <= r < |before| && r != row ==> after[r] == before[r]
    requires Filled(x.schema, q, created, skip, start, after[row], Done(row), row)
    requires created ==> forall c :: 0 <= c < |x.schema| && !x.schema[c].isPrimary ==> start[c] == Empty(x.schema[c])
    ensures OneRow(x, before, after, Plain(q.input), k, row, q.diff)
  {
    forall c | 0 <= c < |x.schema| ensures Reached(x.schema, ModeOf(q, created, skip), c) {
    }
  }

  /** Whether an input is accepted does not depend on the way of writing. */
  lemma {:induction false} SameAcceptance(x: Context, p: Request, q: Request, created: bool)
    requires p.input == q.input && p.defaults == q.defaults
    ensures forall c :: 0 <= c < |x.schema| ==>
      (Accepts(x.schema[c], ModeOf(p, created, true)) <==> Accepts(x.schema[c], ModeOf(q, created, true)))
  {
  }

  /** What comes of an element: whether it goes through, and if it does, its row and what is in it. */
  ghost predicate Placed(x: Context, t: Cells, e: Element, update: bool, current: Option<nat>, k: nat)
    requires KeyedBy(x, t, k) && e.Plain? && (current.Some? ==> current.value < |t.rows|)
  {
    var (t', outcome) := RowFor(x, t, e, update, current.Some?, current);
    && (outcome.Done? <==> Fitting(x, t.rows, e, k, update))
    && (outcome.Done? ==>
          && OneRow(x, t.rows, t'.rows, e, k, outcome.row, current.Some?)
          && t'.rows[outcome.row][k] == GivenKey(x, e, k)
          && (outcome.row < |t.rows| <==> HasKey(t.rows, k, GivenKey(x, e, k))))
  }

  lemma {:induction false} PlacedAnew(x: Context, t: Cells, e: Element, update: bool, current: Option<nat>, k: nat)
    requires KeyedBy(x, t, k) && e.Plain? && (current.Some? ==> current.value < |t.rows|)
    requires var q := CreateRequest(x, e.input, update, current.Some?, current);
      UsableKey(x.schema[k], q, GivenKey(x, e, k)) && !HasKey(t.rows, k, GivenKey(x, e, k))
    ensures Placed(x, t, e, update, current, k)
  {
    var q, key := CreateRequest(x, e.input, update, current.Some?, current), GivenKey(x, e, k);
    CreateAdds(x.schema, t, q, k, key);
    SameAcceptance(x, q, CreateRequest(x, e.input, update, false, None), true);
    OnlyKey(x.schema, k);
    var (t', outcome) := Create(x.schema, t, q);
    if outcome.Done? {
      FilledRow(x, t.rows, t'.rows, q, true, true, EmptyRow(x.schema)[k := key], |t.rows|, k);
    }
  }

  lemma {:induction false} PlacedAgain(x: Context, t: Cells, e: Element, current: Option<nat>, k: nat)
    requires KeyedBy(x, t, k) && e.Plain? && (current.Some? ==> current.value < |t.rows|)
    requires var q := CreateRequest(x, e.input, true, current.Some?, current);
      UsableKey(x.schema[k], q, GivenKey(x, e, k)) && HasKey(t.rows, k, GivenKey(x, e, k))
    ensures Placed(x, t, e, true, current, k)
  {
    var q, key := CreateRequest(x, e.input, true, current.Some?, current), GivenKey(x, e, k);
    var row := UpsertRow(t.rows, k, key);
    CreateUpdates(x.schema, t, q, k, key, row);
    SameAcceptance(x, q, CreateRequest(x, e.input, true, false, None), false);
    OnlyKey(x.schema, k);
    var (t', outcome) := Create(x.schema, t, q);
    if outcome.Done? {
      FilledRow(x, t.rows, t'.rows, q, false, true, t.rows[row], row, k);
    }
  }

  /**
   * With keys an element goes through exactly if it is fitting; then it is linked by the row that has
   * its key, or by a new one with it, and that row alone is filled in.
   */
  lemma {:induction false} ElementByKey(x: Context, t: Cells, e: Element, update: bool, current: Option<nat>, k: nat)
    requires KeyedBy(x, t, k) && ByKey(x, update) && e.Plain? && (current.Some? ==> current.value < |t.rows|)
    ensures Placed(x, t, e, update, current, k)
  {
    var q, key := CreateRequest(x, e.input, update, current.Some?, current), GivenKey(x, e, k);
    if !UsableKey(x.schema[k], q, key) {
      CreateWithoutKey(x.schema, t, q, k);
    } else if !HasKey(t.rows, k, key) {
      PlacedAnew(x, t, e, update, current, k);
    } else if update {
      PlacedAgain(x, t, e, current, k);
    } else {
      CreateRefused(x.schema, t, q, k, key);
    }
  }

  // ----- Links and keys -----

  /** Element i is to be created or updated, and its row is this one. */
  predicate Writes(elems: seq<Element>, list: seq<nat>, i: int, row: nat) {
    0 <= i < |list| && i < |elems| && elems[i].Plain? && list[i] == row
  }

  ghost predicate Written(elems: seq<Element>, list: seq<nat>, row: nat) {
    exists i :: Writes(elems, list, i, row)
  }

  /**
   * Given objects are linked by their own rows and the others by rows with their keys; no row is lost
   * or changes its key, and each new row is linked by an element.
   */
  ghost predicate LinkedByKey(x: Context, t: Cells, elems: seq<Element>, r: Linked, k: nat)
    requires KeyedBy(x, t, k)
  {
    && KeyedBy(x, r.t, k) && KeysKept(t.rows, r.t.rows, k)
    && |r.list| <= |elems|
    && (forall i :: 0 <= i < |r.list| ==> LinkHasKey(x, r.t.rows, elems[i], r.list[i], k))
    && (forall row :: |t.rows| <= row < |r.t.rows| ==> Written(elems, r.list, row))
  }

  predicate LinkHasKey(x: Context, rows: seq<seq<Value>>, e: Element, link: nat, k: nat)
    requires k < |x.schema|
  {
    && link < |rows|
    && match e
       case Managed(row) => link == row
       case Plain(_) => k < |rows[link]| && rows[link][k] == GivenKey(x, e, k)
  }

  lemma {:induction false} OneRowKeeps(x: Context, a: seq<seq<Value>>, b: seq<seq<Value>>, c: seq<seq<Value>>,
                                       e: Element, k: nat, row: nat, diff: bool)
    requires e.Plain? && k < |x.schema| && WellTyped(x.schema, a) && WellTyped(x.schema, b)
    requires KeysKept(a, b, k) && OneRow(x, b, c, e, k, row, diff)
    ensures KeysKept(a, c, k) && KeysKept(b, c, k)
  {
  }

  /** One element more, with keys. */
  lemma {:induction false} NextByKey(x: Context, t: Cells, list: seq<nat>, elems: seq<Element>, update: bool,
                                     diff: bool, n: nat, k: nat)
    requires KeyedBy(x, t, k) && ByKey(x, update) && Links(t, list) && Attached(t, elems) && n < |elems|
    requires var r := AfterSome(x, t, list, elems, update, diff, n);
      r.error.None? && KeyedBy(x, r.t, k)
    ensures var r := AfterSome(x, t, list, elems, update, diff, n);
      var r' := AfterSome(x, t, list, elems, update, diff, n + 1);
      match elems[n]
      case Managed(row) => r' == Linked(r.t, r.list + [row], None)
      case Plain(_) =>
        && (r'.error.None? <==> Fitting(x, r.t.rows, elems[n], k, update))
        && (r'.error.None? ==>
              && |r'.list| == |r.list| + 1 && r'.list[..|r.list|] == r.list
              && var row := r'.list[|r.list|];
                 && OneRow(x, r.t.rows, r'.t.rows, elems[n], k, row, diff)
                 && r'.t.rows[row][k] == GivenKey(x, elems[n], k)
                 && (row < |r.t.rows| <==> HasKey(r.t.rows, k, GivenKey(x, elems[n], k))))
  {
    NextElementIs(x, t, list, elems, update, diff, n);
    if elems[n].Plain? {
      var r, current := AfterSome(x, t, list, elems, update, diff, n), Current(list, diff, n);
      ElementByKey(x, r.t, elems[n], update, current, k);
      var (t', outcome) := RowFor(x, r.t, elems[n], update, current.Some?, current);
      if outcome.Done? {
        OneRowEither(x, r.t.rows, t'.rows, elems[n], k, outcome.row, current.Some?, diff);
      }
    }
  }

  lemma {:induction false} OneRowEither(x: Context, before: seq<seq<Value>>, after: seq<seq<Value>>, e: Element, k: nat,
                                        row: nat, d: bool, diff: bool)
    requires e.Plain? && k < |x.schema| && OneRow(x, before, after, e, k, row, d) && (d ==> diff)
    ensures OneRow(x, before, after, e, k, row, diff)
  {
  }

  lemma {:induction false} LinksByKey(x: Context, t: Cells, list: seq<nat>, elems: seq<Element>, update: bool,
                                      diff: bool, n: nat, k: nat)
    requires KeyedBy(x, t, k) && ByKey(x, update) && Links(t, list) && Attached(t, elems) && n <= |elems|
    requires AfterSome(x, t, list, elems, update, diff, n).error.None?
    ensures var r := AfterSome(x, t, list, elems, update, diff, n);
      |r.list| == n && LinkedByKey(x, t, elems, r, k)
  {
    if n == 0 {
      StartsThere(x, t, list, elems, update, diff);
    } else {
      var r, r' := AfterSome(x, t, list, elems, update, diff, n - 1), AfterSome(x, t, list, elems, update, diff, n);
      if r.error.Some? {
        StopsThere(x, t, list, elems, update, diff, n - 1, n);
      }
      LinksByKey(x, t, list, elems, update, diff, n - 1, k);
      NextByKey(x, t, list, elems, update, diff, n - 1, k);
      LinksByKeyStep(x, t, elems, r, r', k, diff);
    }
  }

  /** All new rows are written to, if one that has just been added is written to by the last element. */
  lemma {:induction false} WrittenMore(elems: seq<Element>, list: seq<nat>, more: seq<nat>, low: nat, before: nat,
                                       after: nat)
    requires |list| < |elems| && |more| == |list| + 1 && more[..|list|] == list
    requires forall row :: low <= row < before ==> Written(elems, list, row)
    requires after <= before + 1 && (after > before ==> Writes(elems, more, |list|, before))
    ensures forall row :: low <= row < after ==> Written(elems, more, row)
  {
    forall row | low <= row < after ensures Written(elems, more, row) {
      if row < before {
        assert Written(elems, list, row);
        var i :| Writes(elems, list, i, row);
        assert more[i] == more[..|list|][i];
        assert Writes(elems, more, i, row);
      }
    }
  }

  lemma {:induction false} LinksByKeyStep(x: Context, t: Cells, elems: seq<Element>, r: Linked, r': Linked, k: nat,
                                          diff: bool)
    requires KeyedBy(x, t, k) && LinkedByKey(x, t, elems, r, k) && Attached(t, elems)
    requires |r.list| < |elems| && |r'.list| == |r.list| + 1 && r'.list[..|r.list|] == r.list
    requires var n := |r.list|;
      match elems[n]
      case Managed(row) => r'.t == r.t && r'.list[n] == row
      case Plain(_) =>
        && OneRow(x, r.t.rows, r'.t.rows, elems[n], k, r'.list[n], diff)
        && r'.t.rows[r'.list[n]][k] == GivenKey(x, elems[n], k)
    ensures LinkedByKey(x, t, elems, r', k)
  {
    var n := |r.list|;
    if elems[n].Plain? {
      OneRowKeeps(x, t.rows, r.t.rows, r'.t.rows, elems[n], k, r'.list[n], diff);
    }
    forall i | 0 <= i < n + 1 ensures LinkHasKey(x, r'.t.rows, elems[i], r'.list[i], k) {
      if i < n {
        assert r'.list[i] == r'.list[..n][i];
        assert LinkHasKey(x, r.t.rows, elems[i], r.list[i], k);
      }
    }
    assert |r'.t.rows| > |r.t.rows| ==> Writes(elems, r'.list, n, |r.t.rows|);
    WrittenMore(elems, r.list, r'.list, |t.rows|, |r.t.rows|, |r'.t.rows|);
  }

  // ----- When assigning goes through -----

  /** An element before i is to be created or updated by this key. */
  ghost predicate Earlier(x: Context, elems: seq<Element>, i: nat, k: nat, key: Value)
    requires k < |x.schema| && i <= |elems|
  {
    exists j :: 0 <= j < i && elems[j].Plain? && GivenKey(x, elems[j], k) == key
  }

  /** Element i has a usable key, that is there already only if updating is allowed, and acceptable values. */
  ghost predicate FittingAt(x: Context, t: Cells, elems: seq<Element>, i: nat, k: nat, update: bool)
    requires KeyedBy(x, t, k) && i < |elems| && elems[i].Plain?
  {
    var q := CreateRequest(x, elems[i].input, update, false, None);
    var key := GivenKey(x, elems[i], k);
    var known := HasKey(t.rows, k, key) || Earlier(x, elems, i, k, key);
    && UsableKey(x.schema[k], q, key)
    && (known ==> update)
    && forall c :: 0 <= c < |x.schema| ==> Accepts(x.schema[c], ModeOf(q, !known, true))
  }

  /** The keys there are after some elements: those from before, and those of the elements. */
  lemma {:induction false} KnownKeys(x: Context, t: Cells, elems: seq<Element>, r: Linked, k: nat, key: Value)
    requires KeyedBy(x, t, k) && LinkedByKey(x, t, elems, r, k)
    ensures HasKey(r.t.rows, k, key) <==> HasKey(t.rows, k, key) || Earlier(x, elems, |r.list|, k, key)
  {
    if HasKey(t.rows, k, key) {
      var row :| 0 <= row < |t.rows| && t.rows[row][k] == key;
      assert r.t.rows[row][k] == key;
    }
    if Earlier(x, elems, |r.list|, k, key) {
      var j :| 0 <= j < |r.list| && elems[j].Plain? && GivenKey(x, elems[j], k) == key;
      assert LinkHasKey(x, r.t.rows, elems[j], r.list[j], k);
    }
    if HasKey(r.t.rows, k, key) {
      var row :| 0 <= row < |r.t.rows| && r.t.rows[row][k] == key;
      if row < |t.rows| {
        assert t.rows[row][k] == key;
      } else {
        assert Written(elems, r.list, row);
        var i :| Writes(elems, r.list, i, row);
        assert LinkHasKey(x, r.t.rows, elems[i], r.list[i], k);
      }
    }
  }

  /** In either mode the elements go through exactly if each of them fits where it comes. */
  lemma {:induction false} GoesThroughByKey(x: Context, t: Cells, list: seq<nat>, elems: seq<Element>, update: bool,
                                            diff: bool, n: nat, k: nat)
    requires KeyedBy(x, t, k) && ByKey(x, update) && Links(t, list) && Attached(t, elems) && n <= |elems|
    ensures AfterSome(x, t, list, elems, update, diff, n).error.None? <==>
      forall i :: 0 <= i < n && elems[i].Plain? ==> FittingAt(x, t, elems, i, k, update)
  {
    if n == 0 {
      StartsThere(x, t, list, elems, update, diff);
    } else {
      var r := AfterSome(x, t, list, elems, update, diff, n - 1);
      GoesThroughByKey(x, t, list, elems, update, diff, n - 1, k);
      if r.error.Some? {
        StopsThere(x, t, list, elems, update, diff, n - 1, n);
      } else {
        LinksByKey(x, t, list, elems, update, diff, n - 1, k);
        NextByKey(x, t, list, elems, update, diff, n - 1, k);
        if elems[n - 1].Plain? {
          KnownKeys(x, t, elems, r, k, GivenKey(x, elems[n - 1], k));
          assert Fitting(x, r.t.rows, elems[n - 1], k, update) <==> FittingAt(x, t, elems, n - 1, k, update);
        }
      }
    }
  }

  // ----- Keys stay unique -----

  lemma {:induction false} OneRowUnique(x: Context, before: seq<seq<Value>>, after: seq<seq<Value>>, e: Element, k: nat,
                                        row: nat, diff: bool)
    requires e.Plain? && k < |x.schema| && OneRow(x, before, after, e, k, row, diff)
    requires KeysUnique(before, k) && (row < |before| || !HasKey(before, k, after[row][k]))
    ensures KeysUnique(after, k)
  {
    assert forall r :: 0 <= r < |before| ==> after[r][k] == before[r][k];
    forall i, j | 0 <= i < j < |after| ensures after[i][k] != after[j][k] {
      if j >= |before| {
        assert before[i][k] != after[row][k];
      }
    }
  }

  lemma {:induction false} StaysUnique(x: Context, t: Cells, list: seq<nat>, elems: seq<Element>, update: bool,
                                       diff: bool, n: nat, k: nat)
    requires KeyedBy(x, t, k) && ByKey(x, update) && Links(t, list) && Attached(t, elems) && n <= |elems|
    requires AfterSome(x, t, list, elems, update, diff, n).error.None? && KeysUnique(t.rows, k)
    ensures KeyedBy(x, AfterSome(x, t, list, elems, update, diff, n).t, k)
    ensures KeysUnique(AfterSome(x, t, list, elems, update, diff, n).t.rows, k)
  {
    if n == 0 {
      StartsThere(x, t, list, elems, update, diff);
    } else {
      var r, r' := AfterSome(x, t, list, elems, update, diff, n - 1), AfterSome(x, t, list, elems, update, diff, n);
      if r.error.Some? {
        StopsThere(x, t, list, elems, update, diff, n - 1, n);
      }
      StaysUnique(x, t, list, elems, update, diff, n - 1, k);
      NextByKey(x, t, list, elems, update, diff, n - 1, k);
      if elems[n - 1].Plain? {
        OneRowUnique(x, r.t.rows, r'.t.rows, elems[n - 1], k, r'.list[|r.list|], diff);
      }
    }
  }

  // ----- What the rows hold -----

  /** The last element whose row is this one and that supplies the property. */
  ghost predicate LastGiven(x: Context, elems: seq<Element>, list: seq<nat>, i: int, row: nat, c: nat)
    requires c < |x.schema|
  {
    && Writes(elems, list, i, row) && x.schema[c].name in elems[i].input.given
    && forall j :: i < j && Writes(elems, list, j, row) ==> x.schema[c].name !in elems[j].input.given
  }

  ghost predicate NeverGiven(x: Context, elems: seq<Element>, list: seq<nat>, row: nat, c: nat)
    requires c < |x.schema|
  {
    forall j :: Writes(elems, list, j, row) ==> x.schema[c].name !in elems[j].input.given
  }

  /**
   * A cell holds what the last element supplies that supplies it; if none does, it is as it was, or
   * as in a new object.
   */
  ghost predicate CellIs(x: Context, t: Cells, elems: seq<Element>, r: Linked, row: nat, c: nat, diff: bool)
    requires Shaped(x.schema, t.rows) && Shaped(x.schema, r.t.rows) && row < |r.t.rows| && c < |x.schema|
  {
    && (forall i :: LastGiven(x, elems, r.list, i, row, c) ==>
          Holds(x, c, r.t.rows[row][c], elems[i].input.given[x.schema[c].name], diff))
    && (NeverGiven(x, elems, r.list, row, c) ==>
          if row < |t.rows| then r.t.rows[row][c] == t.rows[row][c]
          else Holds(x, c, r.t.rows[row][c], NewValue(x.schema[c], map[], x.defaults), diff))
  }

  lemma {:induction false} CellIsStep(x: Context, t: Cells, elems: seq<Element>, r: Linked, r': Linked, k: nat,
                                      row: nat, c: nat, diff: bool)
    requires KeyedBy(x, t, k) && LinkedByKey(x, t, elems, r, k)
    requires |r.list| < |elems| && |r'.list| == |r.list| + 1 && r'.list[..|r.list|] == r.list
    requires var n := |r.list|;
      match elems[n]
      case Managed(row) => r'.t == r.t && r'.list[n] == row
      case Plain(_) => OneRow(x, r.t.rows, r'.t.rows, elems[n], k, r'.list[n], diff)
    requires c < |x.schema| && !x.schema[c].isPrimary && row < |r'.t.rows|
    requires row < |r.t.rows| ==> CellIs(x, t, elems, r, row, c, diff)
    ensures Shaped(x.schema, r'.t.rows) && CellIs(x, t, elems, r', row, c, diff)
  {
    var n := |r.list|;
    assert forall i :: 0 <= i < n ==> r'.list[i] == r'.list[..n][i] == r.list[i];
    assert forall i :: 0 <= i < n ==> (Writes(elems, r'.list, i, row) <==> Writes(elems, r.list, i, row));
    assert forall i :: Writes(elems, r.list, i, row) ==> 0 <= i < n && row < |r.t.rows|;
    if Writes(elems, r'.list, n, row) && x.schema[c].name in elems[n].input.given {
      assert forall i :: LastGiven(x, elems, r'.list, i, row, c) ==> i == n;
    } else {
      assert forall i :: LastGiven(x, elems, r'.list, i, row, c) ==> LastGiven(x, elems, r.list, i, row, c);
      assert NeverGiven(x, elems, r'.list, row, c) ==> NeverGiven(x, elems, r.list, row, c);
    }
  }

  lemma {:induction false} CellsByKey(x: Context, t: Cells, list: seq<nat>, elems: seq<Element>, update: bool,
                                      diff: bool, n: nat, k: nat, row: nat, c: nat)
    requires KeyedBy(x, t, k) && ByKey(x, update) && Links(t, list) && Attached(t, elems) && n <= |elems|
    requires AfterSome(x, t, list, elems, update, diff, n).error.None?
    requires row < |AfterSome(x, t, list, elems, update, diff, n).t.rows| && c < |x.schema| && !x.schema[c].isPrimary
    ensures var r := AfterSome(x, t, list, elems, update, diff, n);
      KeyedBy(x, r.t, k) && CellIs(x, t, elems, r, row, c, diff)
  {
    if n == 0 {
      StartsThere(x, t, list, elems, update, diff);
    } else {
      var r, r' := AfterSome(x, t, list, elems, update, diff, n - 1), AfterSome(x, t, list, elems, update, diff, n);
      if r.error.Some? {
        StopsThere(x, t, list, elems, update, diff, n - 1, n);
      }
      LinksByKey(x, t, list, elems, update, diff, n - 1, k);
      NextByKey(x, t, list, elems, update, diff, n - 1, k);
      if row < |r.t.rows| {
        CellsByKey(x, t, list, elems, update, diff, n - 1, k, row, c);
      }
      CellIsStep(x, t, elems, r, r', k, row, c, diff);
    }
  }

  /** A row that no element is written to is as it was. */
  lemma {:induction false} UnwrittenStays(x: Context, t: Cells, list: seq<nat>, elems: seq<Element>, update: bool,
                                          diff: bool, n: nat, k: nat, row: nat)
    requires KeyedBy(x, t, k) && ByKey(x, update) && Links(t, list) && Attached(t, elems) && n <= |elems|
    requires AfterSome(x, t, list, elems, update, diff, n).error.None? && row < |t.rows|
    requires !Written(elems, AfterSome(x, t, list, elems, update, diff, n).list, row)
    ensures var r := AfterSome(x, t, list, elems, update, diff, n);
      |t.rows| <= |r.t.rows| && r.t.rows[row] == t.rows[row]
  {
    if n == 0 {
      StartsThere(x, t, list, elems, update, diff);
    } else {
      var r, r' := AfterSome(x, t, list, elems, update, diff, n - 1), AfterSome(x, t, list, elems, update, diff, n);
      if r.error.Some? {
        StopsThere(x, t, list, elems, update, diff, n - 1, n);
      }
      LinksByKey(x, t, list, elems, update, diff, n - 1, k);
      NextByKey(x, t, list, elems, update, diff, n - 1, k);
      StillUnwritten(elems, r.list, r'.list, row);
      UnwrittenStays(x, t, list, elems, update, diff, n - 1, k, row);
    }
  }

  lemma {:induction false} StillUnwritten(elems: seq<Element>, list: seq<nat>, more: seq<nat>, row: nat)
    requires |list| < |elems| && |more| == |list| + 1 && more[..|list|] == list && !Written(elems, more, row)
    ensures !Written(elems, list, row) && !Writes(elems, more, |list|, row)
  {
    assert forall i :: Writes(elems, list, i, row) ==> list[i] == more[..|list|][i] == more[i];
    assert forall i :: Writes(elems, list, i, row) ==> Writes(elems, more, i, row);
  }

  /**
   * Assigning by key, in either mode: when it goes through, what the list links, which rows are new or
   * as they were, what the others hold, and that keys stay unique.
   */
  lemma {:induction false} AssignByKey(x: Context, t: Cells, list: seq<nat>, elems: seq<Element>, update: bool,
                                       diff: bool, k: nat)
    requires KeyedBy(x, t, k) && ByKey(x, update) && Links(t, list) && Attached(t, elems)
    ensures var r := Assign(x, t, list, elems, update, diff);
      && (r.error.None? <==> forall i :: 0 <= i < |elems| && elems[i].Plain? ==> FittingAt(x, t, elems, i, k, update))
      && (r.error.None? ==>
            && |r.list| == |elems| && LinkedByKey(x, t, elems, r, k)
            && (KeysUnique(t.rows, k) ==> KeysUnique(r.t.rows, k))
            && (forall row :: 0 <= row < |t.rows| && !Written(elems, r.list, row) ==> r.t.rows[row] == t.rows[row])
            && (forall row, c :: 0 <= row < |r.t.rows| && 0 <= c < |x.schema| && !x.schema[c].isPrimary ==>
                  CellIs(x, t, elems, r, row, c, diff)))
  {
    var n, r := |elems|, Assign(x, t, list, elems, update, diff);
    assert elems[..n] == elems;
    GoesThroughByKey(x, t, list, elems, update, diff, n, k);
    if r.error.None? {
      LinksByKey(x, t, list, elems, update, diff, n, k);
      if KeysUnique(t.rows, k) {
        StaysUnique(x, t, list, elems, update, diff, n, k);
      }
      forall row | 0 <= row < |t.rows| && !Written(elems, r.list, row) ensures r.t.rows[row] == t.rows[row] {
        UnwrittenStays(x, t, list, elems, update, diff, n, k, row);
      }
      forall row, c | 0 <= row < |r.t.rows| && 0 <= c < |x.schema| && !x.schema[c].isPrimary
        ensures CellIs(x, t, elems, r, row, c, diff)
      {
        CellsByKey(x, t, list, elems, update, diff, n, k, row, c);
      }
    }
  }

  // ----- In a migration, without updating -----

  /** One new row after the others, which are as they were. */
  ghost predicate OneAdded(x: Context, before: seq<seq<Value>>, after: seq<seq<Value>>, e: Element, k: nat, diff: bool)
    requires e.Plain? && k < |x.schema|
  {
    && WellTyped(x.schema, after) && |after| == |before| + 1 && after[..|before|] == before
    && forall c :: 0 <= c < |x.schema| && (c == k || !x.schema[c].isPrimary) ==>
         Holds(x, c, after[|before|][c], NewValue(x.schema[c], e.input.given, x.defaults), diff)
  }

  lemma {:induction false} FilledNew(x: Context, before: seq<seq<Value>>, after: seq<seq<Value>>, q: Request,
                                     skip: bool, start: seq<Value>, k: nat)
    requires PrimaryIndex(x.schema) == Some(k) && q.defaults == x.defaults && q.nullRead == x.nullRead
    requires WellTyped(x.schema, after) && |after| == |before| + 1 && after[..|before|] == before
    requires Filled(x.schema, q, true, skip, start, after[|before|], Done(|before|), |before|)
    requires start == if skip then EmptyRow(x.schema)[k := NewValue(x.schema[k], q.input.given, x.defaults)]
                      else EmptyRow(x.schema)
    ensures OneAdded(x, before, after, Plain(q.input), k, q.diff)
  {
    forall c | 0 <= c < |x.schema| ensures Reached(x.schema, ModeOf(q, true, skip), c) {
    }
  }

  /** Whether its key is there or not, an element with a usable key that goes through gets a new row. */
  lemma {:induction false} ElementRepeated(x: Context, t: Cells, e: Element, current: Option<nat>, k: nat)
    requires KeyedBy(x, t, k) && !ByKey(x, false) && e.Plain? && (current.Some? ==> current.value < |t.rows|)
    ensures var (t', outcome) := RowFor(x, t, e, false, current.Some?, current);
      outcome.Done? ==> outcome.row == |t.rows| && OneAdded(x, t.rows, t'.rows, e, k, current.Some?)
  {
    var q, key := CreateRequest(x, e.input, false, current.Some?, current), GivenKey(x, e, k);
    var (t', outcome) := Create(x.schema, t, q);
    if !UsableKey(x.schema[k], q, key) {
      CreateWithoutKey(x.schema, t, q, k);
    } else if HasKey(t.rows, k, key) {
      CreateDuplicates(x.schema, t, q, k, key);
      if outcome.Done? {
        FilledNew(x, t.rows, t'.rows, q, false, EmptyRow(x.schema), k);
      }
    } else {
      CreateAdds(x.schema, t, q, k, key);
      if outcome.Done? {
        FilledNew(x, t.rows, t'.rows, q, true, EmptyRow(x.schema)[k := key], k);
      }
    }
  }

  /** Given objects are linked by their own rows, and each other element by a new row of its own that holds it. */
  ghost predicate LinkedAnew(x: Context, t: Cells, elems: seq<Element>, r: Linked, k: nat, diff: bool)
    requires KeyedBy(x, t, k)
  {
    && KeyedBy(x, r.t, k) && t.rows <= r.t.rows && |r.list| <= |elems|
    && (forall i :: 0 <= i < |r.list| ==> LinkIsNew(x, |t.rows|, r.t.rows, elems[i], r.list[i], k, diff))
    && (forall i, j :: 0 <= i < j < |r.list| && elems[i].Plain? && elems[j].Plain? ==> r.list[i] < r.list[j])
    && (forall row :: |t.rows| <= row < |r.t.rows| ==> Written(elems, r.list, row))
  }

  ghost predicate LinkIsNew(x: Context, known: nat, rows: seq<seq<Value>>, e: Element, link: nat, k: nat, diff: bool) {
    && link < |rows|
    && match e
       case Managed(row) => link == row
       case Plain(_) => known <= link && |rows[link]| == |x.schema| && HoldsAll(x, rows[link], e, k, diff)
  }

  ghost predicate HoldsAll(x: Context, cells: seq<Value>, e: Element, k: nat, diff: bool)
    requires e.Plain? && |cells| == |x.schema|
  {
    forall c :: 0 <= c < |x.schema| && (c == k || !x.schema[c].isPrimary) ==>
      Holds(x, c, cells[c], NewValue(x.schema[c], e.input.given, x.defaults), diff)
  }

  lemma {:induction false} ObjectAnew(x: Context, t: Cells, elems: seq<Element>, r: Linked, k: nat, diff: bool)
    requires KeyedBy(x, t, k) && LinkedAnew(x, t, elems, r, k, diff) && Attached(t, elems)
    requires |r.list| < |elems| && elems[|r.list|].Managed?
    ensures LinkedAnew(x, t, elems, Linked(r.t, r.list + [elems[|r.list|].row], None), k, diff)
  {
    var more := r.list + [elems[|r.list|].row];
    forall i | 0 <= i < |more| ensures LinkIsNew(x, |t.rows|, r.t.rows, elems[i], more[i], k, diff) {
      if i < |r.list| {
        assert LinkIsNew(x, |t.rows|, r.t.rows, elems[i], r.list[i], k, diff);
      }
    }
    WrittenMore(elems, r.list, more, |t.rows|, |r.t.rows|, |r.t.rows|);
  }

  lemma {:induction false} RowAnew(x: Context, t: Cells, elems: seq<Element>, r: Linked, t': Cells, k: nat, diff: bool)
    requires KeyedBy(x, t, k) && LinkedAnew(x, t, elems, r, k, diff)
    requires |r.list| < |elems| && elems[|r.list|].Plain?
    requires OneAdded(x, r.t.rows, t'.rows, elems[|r.list|], k, diff)
    ensures LinkedAnew(x, t, elems, Linked(t', r.list + [|r.t.rows|], None), k, diff)
  {
    var n, more := |r.list|, r.list + [|r.t.rows|];
    forall i | 0 <= i < n + 1 ensures LinkIsNew(x, |t.rows|, t'.rows, elems[i], more[i], k, diff) {
      if i < n {
        assert LinkIsNew(x, |t.rows|, r.t.rows, elems[i], r.list[i], k, diff);
        assert t'.rows[more[i]] == t'.rows[..|r.t.rows|][more[i]];
      }
    }
    assert t.rows <= t'.rows[..|r.t.rows|];
    assert forall i :: 0 <= i < n ==> r.list[i] < |r.t.rows|;
    assert Writes(elems, more, n, |r.t.rows|);
    WrittenMore(elems, r.list, more, |t.rows|, |r.t.rows|, |t'.rows|);
  }

  lemma {:induction false} OneAddedEither(x: Context, before: seq<seq<Value>>, after: seq<seq<Value>>, e: Element,
                                          k: nat, d: bool, diff: bool)
    requires e.Plain? && k < |x.schema| && OneAdded(x, before, after, e, k, d) && (d ==> diff)
    ensures OneAdded(x, before, after, e, k, diff)
  {
  }

  /** In a migration, without updating, assigning that goes through adds a row for each element that is no object. */
  lemma {:induction false} AssignInMigration(x: Context, t: Cells, list: seq<nat>, elems: seq<Element>, diff: bool,
                                             n: nat, k: nat)
    requires KeyedBy(x, t, k) && !ByKey(x, false) && Links(t, list) && Attached(t, elems) && n <= |elems|
    requires AfterSome(x, t, list, elems, false, diff, n).error.None?
    ensures var r := AfterSome(x, t, list, elems, false, diff, n);
      |r.list| == n && LinkedAnew(x, t, elems, r, k, diff)
  {
    if n == 0 {
      StartsThere(x, t, list, elems, false, diff);
    } else {
      var r, r' := AfterSome(x, t, list, elems, false, diff, n - 1), AfterSome(x, t, list, elems, false, diff, n);
      if r.error.Some? {
        StopsThere(x, t, list, elems, false, diff, n - 1, n);
      }
      AssignInMigration(x, t, list, elems, diff, n - 1, k);
      NextElementIs(x, t, list, elems, false, diff, n - 1);
      if elems[n - 1].Plain? {
        ElementRepeated(x, r.t, elems[n - 1], Current(list, diff, n - 1), k);
        OneAddedEither(x, r.t.rows, r'.t.rows, elems[n - 1], k, Current(list, diff, n - 1).Some?, diff);
        RowAnew(x, t, elems, r, r'.t, k, diff);
      } else {
        ObjectAnew(x, t, elems, r, k, diff);
      }
    }
  }
}
