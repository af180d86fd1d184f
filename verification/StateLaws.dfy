/** What one step of the network does to what a device holds about each name, and to its settings. */
module StateLaws {
  import opened Options
  import opened PeerState
  import opened PeerInvariants
  import opened PeerNetwork
  import opened Pairing
  import opened StepLaws

  // ----- Entries and rows by name -----

  /** The state of the first nearby entry with this name. */
  function EntryOf(peers: seq<Peer>, x: string): Option<Link> {
    if peers == [] then None else if peers[0].name == x then Some(peers[0].state) else EntryOf(peers[1..], x)
  }

  /** The first row of the history with this name. */
  function RowOf(table: seq<Row>, x: string): Option<Row> {
    if table == [] then None else if table[0].name == x then Some(table[0]) else RowOf(table[1..], x)
  }

  lemma {:induction false} EntryOfFound(peers: seq<Peer>, x: string)
    ensures HasPeer(peers, x) <==> EntryOf(peers, x).Some?
    ensures DistinctPeers(peers) ==> forall s :: x in NamesIn(peers, s) <==> EntryOf(peers, x) == Some(s)
  {
    if peers == [] {
    } else {
      EntryOfFound(peers[1..], x);
      assert forall i :: 1 <= i < |peers| ==> peers[i] == peers[1..][i - 1];
      assert forall i :: 0 <= i < |peers[1..]| ==> peers[1..][i] == peers[i + 1];
      assert peers[0].name == x ==> peers[0].name in NamesIn(peers, peers[0].state);
      forall s ensures x in NamesIn(peers, s)
          <==> (peers[0].name == x && peers[0].state == s) || x in NamesIn(peers[1..], s)
      {
        NamesInStep(peers, x, s);
      }
      if DistinctPeers(peers) && peers[0].name == x {
        assert forall s :: x !in NamesIn(peers[1..], s);
      }
    }
  }

  lemma {:induction false} NamesInStep(peers: seq<Peer>, x: string, s: Link)
    requires peers != []
    ensures x in NamesIn(peers, s) <==> (peers[0].name == x && peers[0].state == s) || x in NamesIn(peers[1..], s)
  {
    if x in NamesIn(peers, s) && !(peers[0].name == x && peers[0].state == s) {
      var i :| 0 <= i < |peers| && peers[i].state == s && peers[i].name == x;
      assert peers[1..][i - 1] == peers[i];
    }
    if x in NamesIn(peers[1..], s) {
      var i :| 0 <= i < |peers[1..]| && peers[1..][i].state == s && peers[1..][i].name == x;
      assert peers[i + 1].state == s && peers[i + 1].name == x;
    }
  }

  lemma {:induction false} RowOfFound(table: seq<Row>, x: string)
    ensures HasRow(table, x) <==> RowOf(table, x).Some?
    ensures IsPaired(table, x) <==> RowOf(table, x).Some? && RowOf(table, x).value.isPaired
    ensures RowOf(table, x).Some? ==> RowOf(table, x).value.name == x
  {
    if table == [] {
    } else {
      RowOfFound(table[1..], x);
      assert forall i :: 1 <= i < |table| ==> table[i] == table[1..][i - 1];
      assert forall i :: 0 <= i < |table[1..]| ==> table[1..][i] == table[i + 1];
    }
  }

  lemma {:induction false} EntryAfterSet(peers: seq<Peer>, name: string, s: Link, x: string)
    ensures EntryOf(SetState(peers, name, s), x)
         == if x == name && EntryOf(peers, x).Some? then Some(s) else EntryOf(peers, x)
  {
    if peers == [] {
    } else if peers[0].name != name {
      EntryAfterSet(peers[1..], name, s, x);
    }
  }

  lemma {:induction false} EntryAppended(peers: seq<Peer>, p: Peer, x: string)
    ensures EntryOf(peers + [p], x)
         == if EntryOf(peers, x).Some? then EntryOf(peers, x) else if p.name == x then Some(p.state) else None
  {
    if peers == [] {
    } else {
      EntryAppended(peers[1..], p, x);
      assert (peers + [p])[1..] == peers[1..] + [p];
    }
  }

  lemma {:induction false} RowAfterSet(table: seq<Row>, name: string, flag: bool, x: string)
    ensures RowOf(SetPaired(table, name, flag), x)
         == if x == name && RowOf(table, x).Some?
            then Some(RowOf(table, x).value.(isPaired := flag)) else RowOf(table, x)
  {
    if table == [] {
    } else if table[0].name != name {
      RowAfterSet(table[1..], name, flag, x);
    }
  }

  lemma {:induction false} RowAfterClear(table: seq<Row>, names: seq<string>, x: string)
    ensures RowOf(ClearPaired(table, names), x)
         == if x in names && RowOf(table, x).Some?
            then Some(RowOf(table, x).value.(isPaired := false)) else RowOf(table, x)
    decreases |names|
  {
    if names == [] {
    } else {
      RowAfterSet(table, names[0], false, x);
      RowAfterClear(SetPaired(table, names[0], false), names[1..], x);
      assert names == [names[0]] + names[1..];
    }
  }

  lemma {:induction false} RowAppended(table: seq<Row>, r: Row, x: string)
    ensures RowOf(table + [r], x)
         == if RowOf(table, x).Some? then RowOf(table, x) else if r.name == x then Some(r) else None
  {
    if table == [] {
    } else {
      RowAppended(table[1..], r, x);
      assert (table + [r])[1..] == table[1..] + [r];
    }
  }

  /** The query keeps every entry but the ones it demotes. */
  lemma {:induction false} EntryAfterHistory(before: seq<Peer>, after: seq<Peer>, d: Device, pairedOnly: bool,
                                             x: string)
    requires |after| == |before|
    requires forall i :: 0 <= i < |before| ==>
      after[i] == (if Demoted(d, before[i], pairedOnly) then before[i].(state := NotConnected) else before[i])
    ensures EntryOf(after, x)
         == match EntryOf(before, x)
            case None => None
            case Some(s) => if Demoted(d, Peer(x, s), pairedOnly) then Some(NotConnected) else Some(s)
  {
    if before == [] {
    } else {
      EntryAfterHistory(before[1..], after[1..], d, pairedOnly, x);
    }
  }

  // ----- One step -----

  /** The device that a step is about; for a loss, the one whose packet is lost. */
  function Actor(n: Network, a: Action): string
    requires Enabled(n, a)
  {
    match a
    case Drop(i) => n.air[i].src
    case Deliver(i) => n.air[i].dst
    case Run(i, _, _) => n.queue[i].at
    case _ => a.at
  }

  /** Every other device is as it was. */
  lemma {:induction false} OneReacts(n: Network, a: Action, at: string)
    requires DevicesInv(n) && Enabled(n, a) && at in n.devices
    ensures at in Apply(n, a).devices
    ensures Apply(n, a).devices[at] == if !a.Drop? && Actor(n, a) == at then React(n, a).device else n.devices[at]
  {
  }

  /** The step ends the connection of this device: by the call, or by the task that an unpairing leaves. */
  predicate Disconnects(n: Network, a: Action, at: string)
    requires Enabled(n, a)
  {
    (a.Disconnect? && a.at == at) || Runs(n, a, Job(at, DisconnectLater))
  }

  /** What the nearby list says of a name after the step. */
  function EntryAfter(n: Network, a: Action, at: string, x: string): Option<Link>
    requires Enabled(n, a) && at in n.devices
  {
    var d := n.devices[at];
    var was := EntryOf(d.nearby, x);
    if Disconnects(n, a, at) then None
    else if a == Found(at, x) then (if was.Some? && x in d.connected then was else Some(Connecting))
    else if was.None? then None
    else if a == Lost(at, x) then Some(NotConnected)
    else if a.Change? && a.at == at && a.name == x then Some(a.state)
    else if a.History? && a.at == at && Demoted(d, Peer(x, was.value), a.pairedOnly) then Some(NotConnected)
    else was
  }

  lemma {:induction false} EntryCauses(n: Network, a: Action, at: string, x: string)
    requires DevicesInv(n) && Enabled(n, a) && at in n.devices
    ensures at in Apply(n, a).devices
    ensures EntryOf(Apply(n, a).devices[at].nearby, x) == EntryAfter(n, a, at, x)
  {
    OneReacts(n, a, at);
    if !a.Drop? && Actor(n, a) == at {
      if a.Run? {
        RunEntry(n, a, x);
      } else {
        CallEntry(n, a, x);
      }
    } else {
      BystanderEntry(n, a, at, x);
    }
  }

  lemma {:induction false} BystanderEntry(n: Network, a: Action, at: string, x: string)
    requires Enabled(n, a) && at in n.devices && (a.Drop? || Actor(n, a) != at)
    ensures EntryAfter(n, a, at, x) == EntryOf(n.devices[at].nearby, x)
  {
  }

  /** What a discovery says of a name. */
  lemma {:induction false} FoundEntryOf(d: Device, name: string, x: string)
    ensures EntryOf(FoundNearby(d, name), x)
         == if x != name || (EntryOf(d.nearby, x).Some? && x in d.connected) then EntryOf(d.nearby, x)
            else Some(Connecting)
  {
    EntryOfFound(d.nearby, name);
    EntryAppended(d.nearby, Peer(name, Connecting), x);
    EntryAfterSet(Listed(d.nearby, name), name, Connecting, x);
  }

  lemma {:induction false} CallEntry(n: Network, a: Action, x: string)
    requires DevicesInv(n) && Enabled(n, a) && !a.Drop? && !a.Run?
    ensures Actor(n, a) in n.devices
    ensures EntryOf(React(n, a).device.nearby, x) == EntryAfter(n, a, Actor(n, a), x)
  {
    if a.Found? {
      FoundEntryOf(n.devices[a.at], a.name, x);
    } else if a.History? {
      var d := n.devices[a.at];
      EntryAfterHistory(d.nearby, OnHistory(d, a.pairedOnly).device.nearby, d, a.pairedOnly, x);
    } else if a.Lost? || a.Change? {
      MarkedEntry(n, a, x);
    } else if !a.Disconnect? {
      KeepsNearby(n, a);
      PlainEntry(n, a, Actor(n, a), x);
    }
  }

  lemma {:induction false} MarkedEntry(n: Network, a: Action, x: string)
    requires DevicesInv(n) && Enabled(n, a) && (a.Lost? || a.Change?)
    ensures EntryOf(React(n, a).device.nearby, x) == EntryAfter(n, a, a.at, x)
  {
    EntryAfterSet(n.devices[a.at].nearby, a.name, if a.Lost? then NotConnected else a.state, x);
  }

  lemma {:induction false} KeepsNearby(n: Network, a: Action)
    requires Enabled(n, a) && (a.Deliver? || a.Send? || a.UnPair? || a.Reinitialize? || a.Setup?)
    ensures Actor(n, a) in n.devices && React(n, a).device.nearby == n.devices[Actor(n, a)].nearby
  {
  }

  lemma {:induction false} PlainEntry(n: Network, a: Action, at: string, x: string)
    requires Enabled(n, a) && (a.Deliver? || a.Send? || a.UnPair? || a.Reinitialize? || a.Setup?) && at in n.devices
    ensures EntryAfter(n, a, at, x) == EntryOf(n.devices[at].nearby, x)
  {
  }

  lemma {:induction false} RunEntry(n: Network, a: Action, x: string)
    requires DevicesInv(n) && Enabled(n, a) && a.Run?
    ensures EntryOf(React(n, a).device.nearby, x) == EntryAfter(n, a, Actor(n, a), x)
  {
  }

  /** Whether the session has a name after the step. */
  ghost predicate InSessionAfter(n: Network, a: Action, at: string, x: string)
    requires Enabled(n, a) && at in n.devices
  {
    if a.Change? && a.at == at && a.name == x then a.state == Connected
    else
      && x in n.devices[at].connected
      && !(a.Reinitialize? && a.at == at)
      && (Disconnects(n, a, at) ==> x !in a.dropped)
  }

  lemma {:induction false} SessionCauses(n: Network, a: Action, at: string, x: string)
    requires DevicesInv(n) && Enabled(n, a) && at in n.devices
    ensures at in Apply(n, a).devices
    ensures x in Apply(n, a).devices[at].connected <==> InSessionAfter(n, a, at, x)
  {
    OneReacts(n, a, at);
    if !a.Drop? && Actor(n, a) == at {
      ReactSession(n, a, x);
    }
  }

  lemma {:induction false} ReactSession(n: Network, a: Action, x: string)
    requires DevicesInv(n) && Enabled(n, a) && !a.Drop?
    ensures Actor(n, a) in n.devices
    ensures x in React(n, a).device.connected <==> InSessionAfter(n, a, Actor(n, a), x)
  {
  }

  /** What the history says of a name after the step. */
  ghost function RowAfter(n: Network, a: Action, at: string, x: string): Option<Row>
    requires Enabled(n, a) && at in n.devices
  {
    var was := RowOf(n.devices[at].table, x);
    if was.None? then (if a == Found(at, x) then Some(Row(x, Connecting, false)) else None)
    else if Runs(n, a, Job(at, MarkPaired(x))) then Some(was.value.(isPaired := true))
    else if SwitchesOff(n, a, at, x) then Some(was.value.(isPaired := false))
    else was
  }

  lemma {:induction false} RowCauses(n: Network, a: Action, at: string, x: string)
    requires DevicesInv(n) && Enabled(n, a) && at in n.devices
    ensures at in Apply(n, a).devices
    ensures RowOf(Apply(n, a).devices[at].table, x) == RowAfter(n, a, at, x)
  {
    OneReacts(n, a, at);
    if !a.Drop? && Actor(n, a) == at {
      if a.Run? {
        RunRow(n, a, x);
      } else {
        CallRow(n, a, x);
      }
    }
  }

  lemma {:induction false} CallRow(n: Network, a: Action, x: string)
    requires DevicesInv(n) && Enabled(n, a) && !a.Drop? && !a.Run?
    ensures Actor(n, a) in n.devices
    ensures RowOf(React(n, a).device.table, x) == RowAfter(n, a, Actor(n, a), x)
  {
    var d := n.devices[Actor(n, a)];
    match a
    case Found(_, name) =>
      RowOfFound(d.table, name);
      RowAppended(d.table, Row(name, Connecting, false), x);
    case UnPair(_) =>
      RowAfterClear(d.table, ConnectedNames(d.nearby), x);
      ConnectedNamesExact(d.nearby, x);
    case _ =>
  }

  lemma {:induction false} RunRow(n: Network, a: Action, x: string)
    requires DevicesInv(n) && Enabled(n, a) && a.Run?
    ensures RowOf(React(n, a).device.table, x) == RowAfter(n, a, Actor(n, a), x)
  {
    var d, task := n.devices[n.queue[a.i].at], n.queue[a.i].task;
    match task
    case MarkPaired(name) => RowAfterSet(d.table, name, true, x);
    case HandleUnpair(from) => RowAfterSet(d.table, from, false, x);
    case _ =>
  }

  /** Only a setup changes whether pairing is required, and it changes it to what it asks for. */
  lemma {:induction false} NeedsPairingCauses(n: Network, a: Action, at: string)
    requires DevicesInv(n) && Enabled(n, a) && at in n.devices
    ensures at in Apply(n, a).devices
    ensures Apply(n, a).devices[at].needsPairing
         == if a.Setup? && a.at == at then a.needsPairing else n.devices[at].needsPairing
  {
    OneReacts(n, a, at);
    if a.Run? {
      assert React(n, a).device.needsPairing == n.devices[Actor(n, a)].needsPairing;
    }
  }
}
