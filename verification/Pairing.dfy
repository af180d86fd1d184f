/** The pairing flags of the device history: a list of rows that behaves as a map from names to flags. */
module Pairing {
  import opened PeerState

  /** The map the table stands for: the first row with a name decides. */
  ghost function AsMap(table: seq<Row>): map<string, bool> {
    if table == [] then map[] else AsMap(table[1..])[table[0].name := table[0].isPaired]
  }

  lemma {:induction false} AsMapLookup(table: seq<Row>, name: string)
    ensures HasRow(table, name) <==> name in AsMap(table)
    ensures IsPaired(table, name) <==> name in AsMap(table) && AsMap(table)[name]
  {
    if table == [] {
    } else {
      AsMapLookup(table[1..], name);
      assert HasRow(table, name) <==> table[0].name == name || HasRow(table[1..], name) by {
        if HasRow(table, name) && table[0].name != name {
          var i :| 0 <= i < |table| && table[i].name == name;
          assert table[1..][i - 1].name == name;
        }
        if HasRow(table[1..], name) {
          var i :| 0 <= i < |table[1..]| && table[1..][i].name == name;
          assert table[i + 1].name == name;
        }
      }
    }
  }

  /** Setting a flag updates the map at a known name and does nothing at an unknown one. */
  lemma {:induction false} SetPairedRefines(table: seq<Row>, name: string, flag: bool)
    ensures AsMap(SetPaired(table, name, flag))
         == if name in AsMap(table) then AsMap(table)[name := flag] else AsMap(table)
  {
    if table == [] || table[0].name == name {
    } else {
      SetPairedRefines(table[1..], name, flag);
      assert SetPaired(table, name, flag)[1..] == SetPaired(table[1..], name, flag);
    }
  }

  /** Storing adds an unpaired name; storing a known name again, even unguarded, changes no flag. */
  lemma {:induction false} StoreRefines(table: seq<Row>, name: string, state: Link)
    ensures AsMap(Store(table, name, state))
         == if name in AsMap(table) then AsMap(table) else AsMap(table)[name := false]
  {
    if table == [] {
      assert Store(table, name, state)[1..] == [];
      assert AsMap([]) == map[];
    } else {
      StoreRefines(table[1..], name, state);
      assert Store(table, name, state)[1..] == Store(table[1..], name, state);
    }
  }

  lemma {:induction false} SetPairedLookup(table: seq<Row>, name: string, flag: bool, other: string)
    ensures IsPaired(SetPaired(table, name, flag), other)
         == if other == name && HasRow(table, name) then flag else IsPaired(table, other)
    ensures HasRow(SetPaired(table, name, flag), other) == HasRow(table, other)
  {
    SetPairedRefines(table, name, flag);
    AsMapLookup(table, name);
    AsMapLookup(table, other);
    AsMapLookup(SetPaired(table, name, flag), other);
  }

  lemma {:induction false} StoreLookup(table: seq<Row>, name: string, state: Link, other: string)
    ensures IsPaired(Store(table, name, state), other) == IsPaired(table, other)
  {
    StoreRefines(table, name, state);
    AsMapLookup(table, other);
    AsMapLookup(Store(table, name, state), other);
  }

  /** Clearing a list of names switches off exactly their flags. */
  lemma {:induction false} ClearPairedLookup(table: seq<Row>, names: seq<string>, other: string)
    ensures IsPaired(ClearPaired(table, names), other) == (IsPaired(table, other) && other !in names)
    decreases |names|
  {
    if names == [] {
    } else {
      var table' := SetPaired(table, names[0], false);
      SetPairedLookup(table, names[0], false, other);
      AsMapLookup(table, other);
      ClearPairedLookup(table', names[1..], other);
    }
  }

  lemma {:induction false} ConnectedNamesExact(peers: seq<Peer>, x: string)
    ensures x in ConnectedNames(peers) <==> x in NamesIn(peers, Connected)
  {
    if peers == [] {
    } else {
      ConnectedNamesExact(peers[1..], x);
      if x in NamesIn(peers[1..], Connected) {
        var i :| 0 <= i < |peers[1..]| && peers[1..][i].state == Connected && peers[1..][i].name == x;
        assert peers[i + 1].state == Connected && peers[i + 1].name == x;
      }
      if x in NamesIn(peers, Connected) && !(peers[0].state == Connected && peers[0].name == x) {
        var i :| 0 <= i < |peers| && peers[i].state == Connected && peers[i].name == x;
        assert peers[1..][i - 1] == peers[i];
      }
    }
  }

  /** Unpairing switches off the flags of the connected devices and no others, and queues one message. */
  lemma {:induction false} UnPairClears(d: Device, x: string)
    ensures IsPaired(OnUnPair(d).device.table, x) == (IsPaired(d.table, x) && x !in NamesIn(d.nearby, Connected))
    ensures |OnUnPair(d).posted| == 1 && OnUnPair(d).posted[0].SendUnpair? && OnUnPair(d).packets == []
  {
    ClearPairedLookup(d.table, ConnectedNames(d.nearby), x);
    ConnectedNamesExact(d.nearby, x);
  }

  // ----- The flag as the last effective write -----

  /** The flag last written for this name at this device, or the given one if none was. */
  ghost function LastFlag(events: seq<Event>, at: string, name: string, initial: bool): bool {
    if events == [] then initial
    else
      var last := events[|events| - 1];
      if last.PairSet? && last.at == at && last.name == name then last.flag
      else LastFlag(events[..|events| - 1], at, name, initial)
  }

  lemma {:induction false} LastFlagConcat(a: seq<Event>, b: seq<Event>, at: string, name: string, initial: bool)
    ensures LastFlag(a + b, at, name, initial) == LastFlag(b, at, name, LastFlag(a, at, name, initial))
  {
    if b == [] {
      assert a + b == a;
    } else {
      LastFlagConcat(a, b[..|b| - 1], at, name, initial);
      assert (a + b)[..|a + b| - 1] == a + b[..|b| - 1];
    }
  }

  lemma {:induction false} LastFlagElsewhere(events: seq<Event>, at: string, name: string, initial: bool)
    requires forall e :: e in events && e.PairSet? ==> e.at != at || e.name != name
    ensures LastFlag(events, at, name, initial) == initial
  {
    if events == [] {
    } else {
      LastFlagElsewhere(events[..|events| - 1], at, name, initial);
    }
  }

  /** A flag that is on although it began off was switched on, and not off again since. */
  lemma {:induction false} LastFlagOn(events: seq<Event>, at: string, name: string)
    requires LastFlag(events, at, name, false)
    ensures exists j :: 0 <= j < |events| && events[j] == PairSet(at, name, true)
              && PairSet(at, name, false) !in events[j + 1..]
  {
    var n := |events| - 1;
    if events[n] == PairSet(at, name, true) {
      assert events[n + 1..] == [];
    } else {
      LastFlagOn(events[..n], at, name);
      var j :| 0 <= j < n && events[..n][j] == PairSet(at, name, true)
        && PairSet(at, name, false) !in events[..n][j + 1..];
      assert events[j + 1..] == events[..n][j + 1..] + [events[n]];
    }
  }

  /** One write of a flag, with the event that records it. */
  lemma {:induction false} PairEventsRecord(at: string, table: seq<Row>, name: string, flag: bool, other: string)
    ensures IsPaired(SetPaired(table, name, flag), other)
         == LastFlag(PairEvents(at, table, name, flag), at, other, IsPaired(table, other))
  {
    SetPairedLookup(table, name, flag, other);
    var events := PairEvents(at, table, name, flag);
    if HasRow(table, name) {
      assert events[..0] == [];
    }
  }

  lemma {:induction false} ClearEventsRecord(at: string, table: seq<Row>, names: seq<string>, other: string)
    ensures IsPaired(ClearPaired(table, names), other)
         == LastFlag(ClearEvents(at, table, names), at, other, IsPaired(table, other))
    ensures forall e :: e in ClearEvents(at, table, names) ==> e.PairSet? && e.at == at
    decreases |names|
  {
    if names == [] {
    } else {
      var table' := SetPaired(table, names[0], false);
      PairEventsRecord(at, table, names[0], false, other);
      ClearEventsRecord(at, table', names[1..], other);
      LastFlagConcat(PairEvents(at, table, names[0], false), ClearEvents(at, table', names[1..]),
                     at, other, IsPaired(table, other));
    }
  }
}
