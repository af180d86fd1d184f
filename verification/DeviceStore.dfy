/** The device objects and the store of known devices, with sets of devices compared by name. */
module DeviceStore {
  import opened PeerState

  // ----- First matches -----

  lemma {:induction false} SetPairedAt(table: seq<Row>, name: string, flag: bool, k: nat)
    requires k < |table| && table[k].name == name && forall i :: 0 <= i < k ==> table[i].name != name
    ensures SetPaired(table, name, flag) == table[k := table[k].(isPaired := flag)]
    ensures IsPaired(table, name) == table[k].isPaired
  {
    if k == 0 {
    } else {
      SetPairedAt(table[1..], name, flag, k - 1);
    }
  }

  lemma {:induction false} SetPairedAbsent(table: seq<Row>, name: string, flag: bool)
    requires forall i :: 0 <= i < |table| ==> table[i].name != name
    ensures SetPaired(table, name, flag) == table && !IsPaired(table, name)
  {
    if table == [] {
    } else {
      SetPairedAbsent(table[1..], name, flag);
    }
  }

  lemma {:induction false} SetStateAt(peers: seq<Peer>, name: string, state: Link, k: nat)
    requires k < |peers| && peers[k].name == name && forall i :: 0 <= i < k ==> peers[i].name != name
    ensures SetState(peers, name, state) == peers[k := peers[k].(state := state)]
  {
    if k == 0 {
    } else {
      SetStateAt(peers[1..], name, state, k - 1);
    }
  }

  lemma {:induction false} SetStateAbsent(peers: seq<Peer>, name: string, state: Link)
    requires forall i :: 0 <= i < |peers| ==> peers[i].name != name
    ensures SetState(peers, name, state) == peers
  {
    if peers == [] {
    } else {
      SetStateAbsent(peers[1..], name, state);
    }
  }

  // ----- Entities -----

  class PeerDevice {
    const displayName: string
    var state: Link

    constructor (displayName: string, state: Link)
      ensures this.displayName == displayName && this.state == state
    {
      this.displayName := displayName;
      this.state := state;
    }
  }

  class RealmPeer {
    const displayName: string
    const state: Link
    var isPaired: bool

    constructor (displayName: string, state: Link)
      ensures this.displayName == displayName && this.state == state && !isPaired
    {
      this.displayName := displayName;
      this.state := state;
      isPaired := false;
    }
  }

  // ----- The store of known devices -----

  class RealmHelper {
    var rows: seq<RealmPeer>

    /** The contents of the rows. */
    ghost var table: seq<Row>

    ghost predicate Valid()
      reads this, rows
    {
      && |table| == |rows|
      && (forall i :: 0 <= i < |rows| ==> table[i] == Row(rows[i].displayName, rows[i].state, rows[i].isPaired))
      && forall i, j :: 0 <= i < j < |rows| ==> rows[i] != rows[j]
    }

    constructor ()
      ensures Valid() && rows == [] && table == []
    {
      rows := [];
      table := [];
    }

    /** The first row with this name, or the number of rows. */
    method FindFirst(name: string) returns (k: nat)
      requires Valid()
      ensures k <= |rows|
      ensures k < |rows| ==> table[k].name == name
      ensures forall i :: 0 <= i < k ==> table[i].name != name
      ensures k < |rows| <==> HasRow(table, name)
    {
      k := 0;
      while k < |rows| && rows[k].displayName != name
        invariant k <= |rows| && forall i :: 0 <= i < k ==> table[i].name != name
      {
        k := k + 1;
      }
    }

    method Store(device: PeerDevice)
      requires Valid()
      modifies this
      ensures Valid() && |rows| == |old(rows)| + 1 && rows[..|old(rows)|] == old(rows) && fresh(rows[|old(rows)|])
      ensures table == PeerState.Store(old(table), device.displayName, device.state)
    {
      var peer := new RealmPeer(device.displayName, device.state);
      rows := rows + [peer];
      table := PeerState.Store(table, device.displayName, device.state);
    }

    method Set(device: string, isPaired: bool) returns (found: bool)
      requires Valid()
      modifies this`table, rows
      ensures Valid()
      ensures found == HasRow(old(table), device)
      ensures table == SetPaired(old(table), device, isPaired)
    {
      var k := FindFirst(device);
      if k == |rows| {
        SetPairedAbsent(table, device, isPaired);
        return false;
      }
      SetPairedAt(table, device, isPaired, k);
      rows[k].isPaired := isPaired;
      table := SetPaired(table, device, isPaired);
      return true;
    }

    method GetIsPaired(deviceName: string) returns (paired: bool)
      requires Valid()
      ensures paired == IsPaired(table, deviceName)
    {
      var k := FindFirst(deviceName);
      if k == |rows| {
        SetPairedAbsent(table, deviceName, false);
        return false;
      }
      SetPairedAt(table, deviceName, false, k);
      return rows[k].isPaired;
    }

    /** A new object for every row, or for every paired row, with the name and state stored there. */
    method GetDevicesHistory(isIncludePaired: bool) returns (devices: seq<PeerDevice>)
      requires Valid()
      ensures forall d :: d in devices ==> fresh(d)
      ensures multiset(Shown(devices)) == multiset(Stored(table, isIncludePaired))
      ensures NameSet(devices) == RowNames(table, isIncludePaired)
    {
      devices := [];
      for n := 0 to |rows|
        invariant forall d :: d in devices ==> fresh(d)
        invariant Shown(devices) == Stored(table[..n], isIncludePaired)
        invariant NameSet(devices) == RowNames(table[..n], isIncludePaired)
      {
        ghost var before := devices;
        assert table[..n + 1][..n] == table[..n];
        if !isIncludePaired || rows[n].isPaired {
          var device := new PeerDevice(rows[n].displayName, rows[n].state);
          devices := devices + [device];
          NameSetConcat(before, [device]);
          assert NameSet([device]) == {device.displayName} by {
            assert [device][0].displayName in NameSet([device]);
          }
        }
        RowNamesStep(table, n, isIncludePaired);
      }
      assert table[..|rows|] == table;
    }
  }

  /** The names and states in all rows, or in the paired ones. */
  ghost function Stored(table: seq<Row>, pairedOnly: bool): seq<Peer> {
    if table == [] then []
    else
      var last := table[|table| - 1];
      Stored(table[..|table| - 1], pairedOnly)
      + (if pairedOnly ==> last.isPaired then [Peer(last.name, last.state)] else [])
  }

  ghost function Shown(devices: seq<PeerDevice>): (r: seq<Peer>)
    reads devices
    ensures |r| == |devices|
    ensures forall i :: 0 <= i < |r| ==> r[i] == Peer(devices[i].displayName, devices[i].state)
  {
    seq(|devices|, i requires 0 <= i < |devices| reads devices => Peer(devices[i].displayName, devices[i].state))
  }

  lemma {:induction false} RowNamesStep(table: seq<Row>, n: nat, pairedOnly: bool)
    requires n < |table|
    ensures RowNames(table[..n + 1], pairedOnly)
         == RowNames(table[..n], pairedOnly) + (if pairedOnly ==> table[n].isPaired then {table[n].name} else {})
  {
    var a, b := table[..n], table[..n + 1];
    forall x | x in RowNames(a, pairedOnly) ensures x in RowNames(b, pairedOnly) {
      var i :| 0 <= i < n && (pairedOnly ==> a[i].isPaired) && a[i].name == x;
      assert b[i] == a[i];
    }
    assert forall i :: 0 <= i < n ==> a[i] == b[i];
    forall x | x in RowNames(b, pairedOnly) && x !in RowNames(a, pairedOnly)
      ensures (pairedOnly ==> table[n].isPaired) && x == table[n].name
    {
      var i :| 0 <= i < n + 1 && (pairedOnly ==> b[i].isPaired) && b[i].name == x;
      assert i == n;
    }
    assert b[n] == table[n];
  }

  // ----- Sets of devices, which are equal when their names are -----

  function NameSet(devices: seq<PeerDevice>): set<string> {
    set i | 0 <= i < |devices| :: devices[i].displayName
  }

  method HasName(devices: seq<PeerDevice>, name: string) returns (found: bool)
    ensures found <==> name in NameSet(devices)
  {
    for i := 0 to |devices|
      invariant forall k :: 0 <= k < i ==> devices[k].displayName != name
    {
      if devices[i].displayName == name {
        return true;
      }
    }
    return false;
  }

  lemma {:induction false} NameSetConcat(a: seq<PeerDevice>, b: seq<PeerDevice>)
    ensures NameSet(a + b) == NameSet(a) + NameSet(b)
  {
    forall x | x in NameSet(a) ensures x in NameSet(a + b) {
      var i :| 0 <= i < |a| && a[i].displayName == x;
      assert (a + b)[i] == a[i];
    }
    forall x | x in NameSet(b) ensures x in NameSet(a + b) {
      var i :| 0 <= i < |b| && b[i].displayName == x;
      assert (a + b)[|a| + i] == b[i];
    }
  }

  ghost predicate DistinctlyNamed(devices: seq<PeerDevice>) {
    forall i, j :: 0 <= i < j < |devices| ==> devices[i].displayName != devices[j].displayName
  }

  /** The elements a set built from this list would keep: the first of each name. */
  function UniqueByName(devices: seq<PeerDevice>): (r: seq<PeerDevice>)
    ensures NameSet(r) == NameSet(devices)
    ensures forall d :: d in r ==> d in devices
    ensures DistinctlyNamed(r)
    ensures DistinctlyNamed(devices) ==> r == devices
  {
    if devices == [] then []
    else
      var n := |devices| - 1;
      var front := UniqueByName(devices[..n]);
      assert devices == devices[..n] + [devices[n]];
      NameSetConcat(devices[..n], [devices[n]]);
      NameSetConcat(front, [devices[n]]);
      if devices[n].displayName in NameSet(front) then front else front + [devices[n]]
  }

  function Outside(devices: seq<PeerDevice>, names: set<string>): (r: seq<PeerDevice>)
    ensures forall d :: d in r ==> d in devices && d.displayName !in names
    ensures forall d :: d in devices && d.displayName !in names ==> d in r
  {
    if devices == [] then []
    else (if devices[0].displayName in names then [] else [devices[0]]) + Outside(devices[1..], names)
  }

  lemma {:induction false} OutsideNames(devices: seq<PeerDevice>, names: set<string>)
    ensures NameSet(Outside(devices, names)) == NameSet(devices) - names
  {
    var r := Outside(devices, names);
    forall x | x in NameSet(r) ensures x in NameSet(devices) - names {
      var i :| 0 <= i < |r| && r[i].displayName == x;
      assert r[i] in devices;
    }
    forall x | x in NameSet(devices) - names ensures x in NameSet(r) {
      var i :| 0 <= i < |devices| && devices[i].displayName == x;
      assert devices[i] in r;
    }
  }

  /** Elements of either list whose name the other lacks. */
  function EitherNotBoth(a: seq<PeerDevice>, b: seq<PeerDevice>): (r: seq<PeerDevice>)
    ensures forall d :: d in r ==>
      (d in a && d.displayName !in NameSet(b)) || (d in b && d.displayName !in NameSet(a))
    ensures forall d :: d in a && d.displayName !in NameSet(b) ==> d in r
    ensures forall d :: d in b && d.displayName !in NameSet(a) ==> d in r
  {
    Outside(a, NameSet(b)) + Outside(b, NameSet(a))
  }

  lemma {:induction false} EitherNotBothNames(a: seq<PeerDevice>, b: seq<PeerDevice>)
    ensures NameSet(EitherNotBoth(a, b)) == SymmetricDifference(NameSet(a), NameSet(b))
  {
    NameSetConcat(Outside(a, NameSet(b)), Outside(b, NameSet(a)));
    OutsideNames(a, NameSet(b));
    OutsideNames(b, NameSet(a));
  }

  function InState(devices: seq<PeerDevice>, state: Link): (r: seq<PeerDevice>)
    reads devices
    ensures forall d :: d in r ==> d in devices && d.state == state
    ensures forall d :: d in devices && d.state == state ==> d in r
  {
    if devices == [] then []
    else (if devices[0].state == state then [devices[0]] else []) + InState(devices[1..], state)
  }

  /** The list of values shows the name and state of each object. */
  ghost predicate Mirrors(peers: seq<Peer>, devices: seq<PeerDevice>)
    reads devices
  {
    && |peers| == |devices|
    && forall i :: 0 <= i < |devices| ==> peers[i].name == devices[i].displayName && peers[i].state == devices[i].state
  }

  lemma {:induction false} InStateNames(devices: seq<PeerDevice>, peers: seq<Peer>, state: Link)
    requires Mirrors(peers, devices)
    ensures NameSet(InState(devices, state)) == NamesIn(peers, state)
  {
    var r := InState(devices, state);
    forall x | x in NameSet(r) ensures x in NamesIn(peers, state) {
      var i :| 0 <= i < |r| && r[i].displayName == x;
      assert r[i] in devices;
      var j :| 0 <= j < |devices| && devices[j] == r[i];
      assert peers[j].state == state && peers[j].name == x;
    }
    forall x | x in NamesIn(peers, state) ensures x in NameSet(r) {
      var i :| 0 <= i < |peers| && peers[i].state == state && peers[i].name == x;
      assert devices[i] in r;
    }
  }

  function Names(devices: seq<PeerDevice>): seq<string> {
    if devices == [] then [] else [devices[0].displayName] + Names(devices[1..])
  }

  /** The names of the connected objects, in list order. */
  lemma {:induction false} ConnectedNamesOf(devices: seq<PeerDevice>, peers: seq<Peer>)
    requires Mirrors(peers, devices)
    ensures Names(InState(devices, Connected)) == ConnectedNames(peers)
  {
    if devices == [] {
    } else {
      ConnectedNamesOf(devices[1..], peers[1..]);
      var rest := InState(devices[1..], Connected);
      assert InState(devices, Connected)
          == (if devices[0].state == Connected then [devices[0]] else []) + rest;
      if devices[0].state == Connected {
        assert ([devices[0]] + rest)[1..] == rest;
      } else {
        assert [] + rest == rest;
      }
    }
  }

  lemma {:induction false} InStateDistinct(devices: seq<PeerDevice>, state: Link)
    requires DistinctlyNamed(devices)
    ensures DistinctlyNamed(InState(devices, state))
  {
    if devices == [] {
    } else {
      InStateDistinct(devices[1..], state);
      var rest := InState(devices[1..], state);
      forall j | 0 <= j < |rest| ensures rest[j].displayName != devices[0].displayName {
        assert rest[j] in rest;
        var k :| 1 <= k < |devices| && devices[k] == rest[j];
      }
    }
  }

  // ----- The answer to a query for disconnected devices -----

  function Answer(history: seq<PeerDevice>, up: seq<PeerDevice>, coming: seq<PeerDevice>, pairedOnly: bool):
    (r: seq<PeerDevice>)
    ensures forall d :: d in r ==> d in history || d in up || d in coming
  {
    var disconnected := EitherNotBoth(UniqueByName(history), UniqueByName(up));
    if pairedOnly then disconnected else EitherNotBoth(disconnected, UniqueByName(coming))
  }

  lemma {:induction false} OutsideDistinct(devices: seq<PeerDevice>, names: set<string>)
    requires DistinctlyNamed(devices)
    ensures DistinctlyNamed(Outside(devices, names))
  {
    if devices == [] {
    } else {
      OutsideDistinct(devices[1..], names);
      var rest := Outside(devices[1..], names);
      forall j | 0 <= j < |rest| ensures rest[j].displayName != devices[0].displayName {
        assert rest[j] in rest;
        var k :| 1 <= k < |devices| && devices[k] == rest[j];
      }
    }
  }

  lemma {:induction false} EitherNotBothDistinct(a: seq<PeerDevice>, b: seq<PeerDevice>)
    requires DistinctlyNamed(a) && DistinctlyNamed(b)
    ensures DistinctlyNamed(EitherNotBoth(a, b))
  {
    var left, right := Outside(a, NameSet(b)), Outside(b, NameSet(a));
    OutsideDistinct(a, NameSet(b));
    OutsideDistinct(b, NameSet(a));
    forall i, j | 0 <= i < |left| && 0 <= j < |right| ensures left[i].displayName != right[j].displayName {
      assert left[i] in left && right[j] in right;
      assert right[j].displayName in NameSet(b);
    }
  }

  /** Sets of objects that compare by name give the names of the symmetric differences, each once. */
  lemma {:induction false} AnswerNames(history: seq<PeerDevice>, up: seq<PeerDevice>, coming: seq<PeerDevice>,
                                       pairedOnly: bool)
    ensures DistinctlyNamed(Answer(history, up, coming, pairedOnly))
    ensures var disconnected := SymmetricDifference(NameSet(history), NameSet(up));
      NameSet(Answer(history, up, coming, pairedOnly))
      == if pairedOnly then disconnected else SymmetricDifference(disconnected, NameSet(coming))
  {
    EitherNotBothNames(UniqueByName(history), UniqueByName(up));
    EitherNotBothNames(EitherNotBoth(UniqueByName(history), UniqueByName(up)), UniqueByName(coming));
    EitherNotBothDistinct(UniqueByName(history), UniqueByName(up));
    EitherNotBothDistinct(EitherNotBoth(UniqueByName(history), UniqueByName(up)), UniqueByName(coming));
  }

  /** Which objects that the history query did not create are in its answer. */
  lemma {:induction false} AnswerObject(history: seq<PeerDevice>, up: seq<PeerDevice>, coming: seq<PeerDevice>,
                                        pairedOnly: bool, x: PeerDevice)
    requires x !in history && DistinctlyNamed(up) && DistinctlyNamed(coming)
    ensures x in Answer(history, up, coming, pairedOnly) <==>
      || (x in up && x.displayName !in NameSet(history) && (pairedOnly || x.displayName !in NameSet(coming)))
      || (!pairedOnly && x in coming && x.displayName !in SymmetricDifference(NameSet(history), NameSet(up)))
  {
    EitherNotBothNames(UniqueByName(history), UniqueByName(up));
  }

  /** The query writes the state of every object in its answer. */
  method OverwriteStates(devices: seq<PeerDevice>, state: Link)
    modifies devices
    ensures forall d :: d in devices ==> d.state == state
  {
    for i := 0 to |devices|
      invariant forall k :: 0 <= k < i ==> devices[k].state == state
    {
      devices[i].state := state;
    }
  }
}
