/** What every reaction of one device keeps, and what follows from it for its queries. */
module PeerInvariants {
  import opened Options
  import opened PeerState

  ghost predicate DistinctPeers(peers: seq<Peer>) {
    forall i, j :: 0 <= i < j < |peers| ==> peers[i].name != peers[j].name
  }

  ghost predicate DistinctRows(table: seq<Row>) {
    forall i, j :: 0 <= i < j < |table| ==> table[i].name != table[j].name
  }

  ghost predicate DistinctNames(names: seq<string>) {
    forall i, j :: 0 <= i < j < |names| ==> names[i] != names[j]
  }

  /** Every nearby device has a row in the history. */
  ghost predicate Recorded(d: Device) {
    forall i :: 0 <= i < |d.nearby| ==> HasRow(d.table, d.nearby[i].name)
  }

  /** Every nearby entry marked connected is one of the session's connected peers. */
  ghost predicate Agreement(d: Device) {
    forall i :: 0 <= i < |d.nearby| && d.nearby[i].state == Connected ==> d.nearby[i].name in d.connected
  }

  ghost predicate Inv(d: Device) {
    && DistinctPeers(d.nearby)
    && DistinctRows(d.table)
    && DistinctNames(d.connected)
    && Recorded(d)
    && Agreement(d)
  }

  // ----- Single updates -----

  /** Only the first entry with the name changes, and only in its state. */
  lemma {:induction false} SetStateFirst(peers: seq<Peer>, name: string, state: Link, i: nat)
    requires i < |peers|
    ensures SetState(peers, name, state)[i]
         == if peers[i].name == name && !HasPeer(peers[..i], name) then peers[i].(state := state) else peers[i]
  {
    if peers[0].name == name {
      if i > 0 {
        assert peers[..i][0].name == name;
      }
    } else if i > 0 {
      SetStateFirst(peers[1..], name, state, i - 1);
      assert peers[..i][1..] == peers[1..][..i - 1];
      assert HasPeer(peers[..i], name) <==> HasPeer(peers[1..][..i - 1], name) by {
        if HasPeer(peers[..i], name) {
          var k :| 0 <= k < i && peers[..i][k].name == name;
          assert peers[1..][..i - 1][k - 1].name == name;
        }
        if HasPeer(peers[1..][..i - 1], name) {
          var k :| 0 <= k < i - 1 && peers[1..][..i - 1][k].name == name;
          assert peers[..i][k + 1].name == name;
        }
      }
    }
  }

  lemma {:induction false} SetStateAll(peers: seq<Peer>, name: string, state: Link)
    ensures forall i :: 0 <= i < |peers| ==>
      && SetState(peers, name, state)[i].name == peers[i].name
      && (SetState(peers, name, state)[i] == peers[i]
          || (peers[i].name == name && SetState(peers, name, state)[i].state == state))
    ensures DistinctPeers(peers) ==> forall i :: 0 <= i < |peers| ==>
      SetState(peers, name, state)[i] == if peers[i].name == name then peers[i].(state := state) else peers[i]
  {
    forall i | 0 <= i < |peers|
      ensures SetState(peers, name, state)[i]
           == if peers[i].name == name && !HasPeer(peers[..i], name) then peers[i].(state := state) else peers[i]
    {
      SetStateFirst(peers, name, state, i);
    }
  }

  lemma {:induction false} SetPairedRows(table: seq<Row>, name: string, flag: bool)
    ensures forall i :: 0 <= i < |table| ==>
      && SetPaired(table, name, flag)[i].name == table[i].name
      && SetPaired(table, name, flag)[i].state == table[i].state
      && (table[i].name != name ==> SetPaired(table, name, flag)[i] == table[i])
  {
    if table == [] || table[0].name == name {
    } else {
      SetPairedRows(table[1..], name, flag);
      forall i | 0 < i < |table|
        ensures SetPaired(table, name, flag)[i].name == table[i].name
        ensures SetPaired(table, name, flag)[i].state == table[i].state
        ensures table[i].name != name ==> SetPaired(table, name, flag)[i] == table[i]
      {
        assert table[i] == table[1..][i - 1];
      }
    }
  }

  lemma {:induction false} ClearPairedRows(table: seq<Row>, names: seq<string>)
    ensures forall i :: 0 <= i < |table| ==> ClearPaired(table, names)[i].name == table[i].name
    decreases |names|
  {
    if names == [] {
    } else {
      SetPairedRows(table, names[0], false);
      ClearPairedRows(SetPaired(table, names[0], false), names[1..]);
    }
  }

  lemma {:induction false} WithoutDistinct(names: seq<string>, gone: set<string>)
    requires DistinctNames(names)
    ensures DistinctNames(Without(names, gone))
  {
    if names == [] {
    } else {
      WithoutDistinct(names[1..], gone);
    }
  }

  lemma {:induction false} SameNamesSameRows(d: Device, table: seq<Row>)
    requires |table| >= |d.table| && forall i :: 0 <= i < |d.table| ==> table[i].name == d.table[i].name
    requires Recorded(d)
    ensures Recorded(d.(table := table))
  {
    forall i | 0 <= i < |d.nearby| ensures HasRow(table, d.nearby[i].name) {
      var k :| 0 <= k < |d.table| && d.table[k].name == d.nearby[i].name;
      assert table[k].name == d.nearby[i].name;
    }
  }

  // ----- The invariant over every reaction -----

  lemma {:induction false} ListedDistinct(peers: seq<Peer>, name: string)
    requires DistinctPeers(peers)
    ensures DistinctPeers(Listed(peers, name)) && HasPeer(Listed(peers, name), name)
  {
    if !HasPeer(peers, name) {
      assert Listed(peers, name)[|peers|].name == name;
    }
  }

  /** Each entry after a discovery: only the found device's entry can change, and only when the session lacks it. */
  lemma {:induction false} FoundEntry(d: Device, name: string, i: nat)
    requires DistinctPeers(d.nearby) && i < |Listed(d.nearby, name)|
    ensures var before, after := Listed(d.nearby, name)[i], OnFound(d, name).device.nearby[i];
      after == if before.name == name && name !in d.connected then Peer(name, Connecting) else before
  {
    ListedDistinct(d.nearby, name);
    SetStateAll(Listed(d.nearby, name), name, Connecting);
  }

  lemma {:induction false} FoundRecords(d: Device, name: string)
    requires Recorded(d)
    ensures Recorded(d.(table := OnFound(d, name).device.table))
    ensures HasRow(OnFound(d, name).device.table, name)
    ensures DistinctRows(d.table) ==> DistinctRows(OnFound(d, name).device.table)
  {
    var table := OnFound(d, name).device.table;
    if !HasRow(d.table, name) {
      assert table[|d.table|].name == name;
    }
    SameNamesSameRows(d, table);
  }

  lemma {:induction false} FoundKeeps(d: Device, name: string)
    requires Inv(d)
    ensures Inv(OnFound(d, name).device)
  {
    var listed, d' := Listed(d.nearby, name), OnFound(d, name).device;
    ListedDistinct(d.nearby, name);
    FoundRecords(d, name);
    forall i | 0 <= i < |listed|
      ensures d'.nearby[i].name == listed[i].name && HasRow(d'.table, listed[i].name)
      ensures d'.nearby[i].state == Connected ==> listed[i].name in d.connected
    {
      FoundEntry(d, name, i);
    }
  }

  lemma {:induction false} LostKeeps(d: Device, name: string)
    requires Inv(d)
    ensures Inv(OnLost(d, name).device)
  {
    SetStateAll(d.nearby, name, NotConnected);
  }

  lemma {:induction false} ChangeKeeps(d: Device, name: string, state: Link)
    requires Inv(d)
    ensures Inv(OnChange(d, name, state).device)
  {
    SetStateAll(d.nearby, name, state);
    WithoutDistinct(d.connected, {name});
  }

  lemma {:induction false} TaskKeeps(d: Device, task: Task, ok: bool, dropped: set<string>)
    requires Inv(d) && CanRun(d, task)
    ensures Inv(OnTask(d, task, ok, dropped).device)
  {
    match task
    case HandleUnpair(from) =>
      SetPairedRows(d.table, from, false);
      SameNamesSameRows(d, SetPaired(d.table, from, false));
    case MarkPaired(name) =>
      SetPairedRows(d.table, name, true);
      SameNamesSameRows(d, SetPaired(d.table, name, true));
    case DisconnectLater => WithoutDistinct(d.connected, dropped);
    case _ =>
  }

  lemma {:induction false} DisconnectKeeps(d: Device, dropped: set<string>)
    requires Inv(d)
    ensures Inv(OnDisconnect(d, dropped).device)
  {
    WithoutDistinct(d.connected, dropped);
  }

  lemma {:induction false} UnPairKeeps(d: Device)
    requires Inv(d)
    ensures Inv(OnUnPair(d).device)
  {
    ClearPairedRows(d.table, ConnectedNames(d.nearby));
    SameNamesSameRows(d, OnUnPair(d).device.table);
  }

  lemma {:induction false} HistoryKeeps(d: Device, pairedOnly: bool)
    requires Inv(d)
    ensures Inv(OnHistory(d, pairedOnly).device)
  {
    var d' := OnHistory(d, pairedOnly).device;
    assert forall i :: 0 <= i < |d.nearby| ==> d'.nearby[i].name == d.nearby[i].name;
    assert forall i :: 0 <= i < |d.nearby| && d'.nearby[i].state == Connected ==> d'.nearby[i] == d.nearby[i];
  }

  /** A new session has no peers, so it agrees with the nearby list exactly when none is marked connected. */
  lemma {:induction false} ReinitializeAgreement(d: Device)
    ensures Agreement(OnReinitialize(d).device) <==> !IsConnected(d)
  {
    var d' := OnReinitialize(d).device;
    if IsConnected(d) {
      var i :| 0 <= i < |d.nearby| && d.nearby[i].state == Connected;
      assert d'.nearby[i].state == Connected && d'.nearby[i].name !in d'.connected;
    }
  }

  lemma {:induction false} ReinitializeKeeps(d: Device)
    requires Inv(d) && !IsConnected(d)
    ensures Inv(OnReinitialize(d).device)
  {
    ReinitializeAgreement(d);
  }

  // ----- What a change or a loss does to each entry -----

  /**
   * A reported change sets the entry of that device and no other, and the session has the device
   * exactly when the new state is connected.
   */
  lemma {:induction false} ChangeEntries(d: Device, name: string, state: Link)
    requires DistinctPeers(d.nearby)
    ensures var d' := OnChange(d, name, state).device;
      && |d'.nearby| == |d.nearby|
      && (forall i :: 0 <= i < |d.nearby| ==>
            d'.nearby[i] == if d.nearby[i].name == name then Peer(name, state) else d.nearby[i])
      && (forall x :: x in d'.connected <==> if x == name then state == Connected else x in d.connected)
      && (Peer(name, Connected) in d'.nearby ==> name in d'.connected)
      && (HasPeer(d.nearby, name) && name in d'.connected ==> Peer(name, Connected) in d'.nearby)
  {
    SetStateAll(d.nearby, name, state);
    var d' := OnChange(d, name, state).device;
    if HasPeer(d.nearby, name) && name in d'.connected {
      var i :| 0 <= i < |d.nearby| && d.nearby[i].name == name;
      assert d'.nearby[i] == Peer(name, Connected);
    }
  }

  /** A lost device is marked as not connected, although the session may still have it. */
  lemma {:induction false} LostEntries(d: Device, name: string)
    requires DistinctPeers(d.nearby)
    ensures var d' := OnLost(d, name).device;
      && |d'.nearby| == |d.nearby| && d'.connected == d.connected
      && name !in NamesIn(d'.nearby, Connected) && name !in NamesIn(d'.nearby, Connecting)
      && (forall i :: 0 <= i < |d.nearby| && d.nearby[i].name != name ==> d'.nearby[i] == d.nearby[i])
  {
    SetStateAll(d.nearby, name, NotConnected);
  }

  // ----- Discovery and sending -----

  /**
   * Finding a device again: a connected entry is never demoted, no other entry changes, and the
   * found device ends up listed, as connecting unless the session still has it.
   */
  lemma {:induction false} RediscoveryKeepsConnected(d: Device, name: string)
    requires Inv(d)
    ensures var d' := OnFound(d, name).device;
      && (forall i :: 0 <= i < |d.nearby| && d.nearby[i].state == Connected ==> d'.nearby[i] == d.nearby[i])
      && (forall i :: 0 <= i < |d.nearby| && d.nearby[i].name != name ==> d'.nearby[i] == d.nearby[i])
      && HasPeer(d'.nearby, name)
      && (name !in d.connected ==> Peer(name, Connecting) in d'.nearby)
      && |d'.nearby| == |d.nearby| + (if HasPeer(d.nearby, name) then 0 else 1)
  {
    var listed, d' := Listed(d.nearby, name), OnFound(d, name).device;
    ListedDistinct(d.nearby, name);
    forall i | 0 <= i < |listed|
      ensures d'.nearby[i]
           == if listed[i].name == name && name !in d.connected then Peer(name, Connecting) else listed[i]
    {
      FoundEntry(d, name, i);
    }
    var k :| 0 <= k < |listed| && listed[k].name == name;
    assert d'.nearby[k].name == name;
  }

  lemma {:induction false} OnlyNamedOnce(names: seq<string>, name: string)
    requires DistinctNames(names)
    ensures OnlyNamed(names, name) == if name in names then [name] else []
  {
    if names == [] {
    } else {
      OnlyNamedOnce(names[1..], name);
      assert names[0] == name ==> name !in names[1..];
    }
  }

  /**
   * While some nearby entry is connected, a broadcast has recipients, reaches every connected
   * entry and nobody twice; a directed message to a connected entry reaches exactly that device.
   */
  lemma {:induction false} BroadcastCovers(d: Device, to: string)
    requires Inv(d)
    ensures IsConnected(d) ==> |Recipients(d, None)| > 0
    ensures NamesIn(d.nearby, Connected) <= set x | x in Recipients(d, None)
    ensures DistinctNames(Recipients(d, None))
    ensures forall x :: x in Recipients(d, None) <==> x in d.connected
    ensures to in NamesIn(d.nearby, Connected) ==> Recipients(d, Some(to)) == [to]
    ensures Recipients(d, Some(to)) == if to in d.connected then [to] else []
  {
    OnlyNamedOnce(d.connected, to);
    if IsConnected(d) {
      var i :| 0 <= i < |d.nearby| && d.nearby[i].state == Connected;
      assert d.nearby[i].name in d.connected;
    }
  }

  // ----- The query for disconnected devices -----

  /**
   * On any state at all, two symmetric differences give "stored but not live" exactly when no
   * unrecorded name is live in just one way and no recorded name is live in both.
   */
  lemma {:induction false} HistoryExact(d: Device)
    ensures var stored := RowNames(d.table, false);
      var up, coming := NamesIn(d.nearby, Connected), NamesIn(d.nearby, Connecting);
      HistoryNames(d, false) == stored - (up + coming)
      <==> SymmetricDifference(up, coming) <= stored && stored * up * coming == {}
  {
    var stored, up, coming := RowNames(d.table, false), NamesIn(d.nearby, Connected), NamesIn(d.nearby, Connecting);
    var answer, wanted := HistoryNames(d, false), stored - (up + coming);
    forall x ensures x in answer <==> (x in stored) != ((x in up) != (x in coming)) {
    }
    if answer == wanted {
      forall x | x in SymmetricDifference(up, coming) ensures x in stored {
        assert x in answer <==> x in wanted;
      }
      forall x ensures x !in stored * up * coming {
        assert x in answer <==> x in wanted;
      }
    }
    if SymmetricDifference(up, coming) <= stored && stored * up * coming == {} {
      forall x ensures x in answer <==> x in wanted {
        assert x !in stored * up * coming;
        assert x in SymmetricDifference(up, coming) ==> x in stored;
      }
    }
  }

  /** The query writes to no entry of the nearby list exactly when every live entry is in the rows it reads. */
  lemma {:induction false} HistoryUntouched(d: Device, pairedOnly: bool)
    requires DistinctPeers(d.nearby)
    ensures OnHistory(d, pairedOnly).device == d
      <==> && NamesIn(d.nearby, Connected) <= RowNames(d.table, pairedOnly)
           && (!pairedOnly ==> NamesIn(d.nearby, Connecting) <= RowNames(d.table, pairedOnly))
  {
    var d' := OnHistory(d, pairedOnly).device;
    if forall i :: 0 <= i < |d.nearby| ==> !Demoted(d, d.nearby[i], pairedOnly) {
      assert d'.nearby == d.nearby;
      assert d' == d;
    } else {
      var i :| 0 <= i < |d.nearby| && Demoted(d, d.nearby[i], pairedOnly);
      assert d'.nearby[i] != d.nearby[i];
      assert d.nearby[i].name in NamesIn(d.nearby, d.nearby[i].state);
    }
  }

  /** In a state that keeps the invariant the full query is a set difference and changes nothing. */
  lemma {:induction false} HistoryIsDifference(d: Device)
    requires Inv(d)
    ensures HistoryNames(d, false)
         == RowNames(d.table, false) - (NamesIn(d.nearby, Connected) + NamesIn(d.nearby, Connecting))
    ensures OnHistory(d, false).device == d
  {
    forall i | 0 <= i < |d.nearby| ensures d.nearby[i].name in RowNames(d.table, false) {
      var k :| 0 <= k < |d.table| && d.table[k].name == d.nearby[i].name;
    }
    forall x | x in NamesIn(d.nearby, Connected) ensures x !in NamesIn(d.nearby, Connecting) {
      var i :| 0 <= i < |d.nearby| && d.nearby[i].state == Connected && d.nearby[i].name == x;
      assert forall j :: 0 <= j < |d.nearby| && j != i ==> d.nearby[j].name != x;
    }
    HistoryExact(d);
    HistoryUntouched(d, false);
  }

  lemma {:induction false} NoneDemoted(d: Device)
    requires Inv(d)
    ensures forall i :: 0 <= i < |d.nearby| ==> !Demoted(d, d.nearby[i], false)
  {
    forall i | 0 <= i < |d.nearby| ensures d.nearby[i].name in RowNames(d.table, false) {
      var k :| 0 <= k < |d.table| && d.table[k].name == d.nearby[i].name;
    }
  }

  /** The paired-only query is a set difference, and harmless, exactly when every connected device is paired. */
  lemma {:induction false} PairedHistoryExact(d: Device)
    ensures var paired, up := RowNames(d.table, true), NamesIn(d.nearby, Connected);
      && (HistoryNames(d, true) == paired - up <==> up <= paired)
      && (DistinctPeers(d.nearby) ==> (OnHistory(d, true).device == d <==> up <= paired))
  {
    var paired, up := RowNames(d.table, true), NamesIn(d.nearby, Connected);
    if HistoryNames(d, true) == paired - up {
      forall x | x in up ensures x in paired {
        assert x in HistoryNames(d, true) <==> x in paired - up;
      }
    }
    if DistinctPeers(d.nearby) {
      HistoryUntouched(d, true);
    }
  }
}
