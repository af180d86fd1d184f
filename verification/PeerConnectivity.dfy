/**
 * The connectivity object. Each method changes it in place and is proved to do what the matching
 * reaction in PeerState.dfy says, so what is proved of reactions, and in PeerNetwork.dfy of runs,
 * is about these methods.
 */
module Connectivity {
  import opened Counting
  import opened Options
  import opened PeerState
  import opened PeerInvariants
  import opened DeviceStore

  class MCSession {
    var connectedPeers: seq<string>

    constructor ()
      ensures connectedPeers == []
    {
      connectedPeers := [];
    }
  }

  class PeerConnectivity {
    const peer: string
    const realm: RealmHelper
    var nearbyPeers: seq<PeerDevice>
    var session: MCSession
    var needsPairing: bool

    // What is waiting on the main queue, what was handed to the framework, and what was reported.
    var mainQueue: seq<Task>
    var outbox: seq<Packet>
    var log: seq<Event>

    /** What the fields stand for. */
    ghost var model: Device

    ghost predicate Valid()
      reads this, session, realm, realm.rows, nearbyPeers
    {
      && realm.Valid()
      && model.name == peer
      && model.connected == session.connectedPeers
      && model.needsPairing == needsPairing
      && model.table == realm.table
      && Mirrors(model.nearby, nearbyPeers)
      && DistinctPeers(model.nearby)
    }

    /** The object went through this reaction, starting from this queue, and took in no foreign object. */
    twostate predicate Did(e: Effect, queue: seq<Task>)
      reads this, session, realm, realm.rows, nearbyPeers
    {
      && Valid()
      && model == e.device
      && mainQueue == queue + e.posted
      && outbox == old(outbox) + e.packets
      && log == old(log) + e.events
      && (session == old(session) || fresh(session))
      && (forall p :: p in nearbyPeers ==> p in old(nearbyPeers) || fresh(p))
      && (forall r :: r in realm.rows ==> r in old(realm.rows) || fresh(r))
    }

    constructor (peer: string, realm: RealmHelper)
      requires realm.Valid()
      ensures Valid() && this.realm == realm && nearbyPeers == [] && fresh(session)
      ensures model == Device(peer, [], [], false, realm.table)
      ensures mainQueue == [] && outbox == [] && log == []
    {
      this.peer := peer;
      this.realm := realm;
      nearbyPeers := [];
      session := new MCSession();
      needsPairing := false;
      mainQueue, outbox, log := [], [], [];
      model := Device(peer, [], [], false, realm.table);
    }

    // ----- Queries -----

    predicate IsConnected()
      reads this, nearbyPeers
    {
      |InState(nearbyPeers, Connected)| > 0
    }

    method TestConnected() returns (connected: bool)
      requires Valid()
      ensures connected == IsConnected() == PeerState.IsConnected(model)
    {
      var up := InState(nearbyPeers, Connected);
      connected := |up| > 0;
      if connected {
        assert up[0] in up;
        ghost var i :| 0 <= i < |nearbyPeers| && nearbyPeers[i] == up[0];
        assert model.nearby[i].state == Connected;
      }
      if PeerState.IsConnected(model) {
        ghost var i :| 0 <= i < |model.nearby| && model.nearby[i].state == Connected;
        assert nearbyPeers[i] in up;
      }
    }

    function GetConnectedPeers(): seq<PeerDevice>
      reads this, nearbyPeers
    {
      InState(nearbyPeers, Connected)
    }

    function GetAvailablePeers(): seq<PeerDevice>
      reads this, nearbyPeers
    {
      InState(nearbyPeers, Connecting)
    }

    // ----- Helpers -----

    method Contains(name: string) returns (found: bool)
      requires Valid()
      ensures found == HasPeer(model.nearby, name)
    {
      for i := 0 to |nearbyPeers|
        invariant forall k :: 0 <= k < i ==> model.nearby[k].name != name
      {
        if nearbyPeers[i].displayName == name {
          assert model.nearby[i].name == name;
          return true;
        }
      }
      return false;
    }

    /** Change the state of the first nearby object with this name, if there is one. */
    method SetPeerState(name: string, state: Link)
      requires Valid()
      modifies this`model, nearbyPeers
      ensures Valid()
      ensures model == old(model).(nearby := SetState(old(model).nearby, name, state))
      ensures forall p :: p in nearbyPeers ==> p.state == old(p.state) || p.state == state
    {
      SetStateAll(model.nearby, name, state);
      for i := 0 to |nearbyPeers|
        invariant forall k :: 0 <= k < i ==> model.nearby[k].name != name
      {
        if nearbyPeers[i].displayName == name {
          SetStateAt(model.nearby, name, state, i);
          nearbyPeers[i].state := state;
          model := model.(nearby := SetState(model.nearby, name, state));
          return;
        }
      }
      SetStateAbsent(model.nearby, name, state);
    }

    /** Add a new object to the nearby list unless its name is there already. */
    method AddNearby(device: PeerDevice)
      requires Valid() && device.state == Connecting
      modifies this`model, this`nearbyPeers
      ensures Valid()
      ensures nearbyPeers == old(nearbyPeers) || nearbyPeers == old(nearbyPeers) + [device]
      ensures model == old(model).(nearby := Listed(old(model).nearby, device.displayName))
    {
      var isPeerInList := Contains(device.displayName);
      if !isPeerInList {
        nearbyPeers := nearbyPeers + [device];
        model := model.(nearby := Listed(model.nearby, device.displayName));
      }
    }

    /** List a newly found device, and mark its entry as connecting unless the session has it. */
    method MarkFound(device: PeerDevice)
      requires Valid() && device.state == Connecting && device !in nearbyPeers
      modifies this`model, this`nearbyPeers, nearbyPeers, device
      ensures Valid() && device.state == Connecting
      ensures nearbyPeers == old(nearbyPeers) || nearbyPeers == old(nearbyPeers) + [device]
      ensures model == old(model).(nearby := FoundNearby(old(model), device.displayName))
    {
      AddNearby(device);
      if device.displayName !in session.connectedPeers {
        SetPeerState(device.displayName, Connecting);
      }
    }

    /** Invite the found device if pairing is not required or its flag is on. */
    method Invite(name: string)
      requires Valid()
      modifies this`log
      ensures log == old(log) + FoundInvites(model, name)
    {
      var paired := realm.GetIsPaired(name);
      if !needsPairing || paired {
        log := log + [Invited(peer, name, needsPairing)];
      }
    }

    /** Store the device in the history, as connecting, unless a row has its name. */
    method Record(device: PeerDevice)
      requires Valid() && device.state == Connecting
      modifies this`model, realm
      ensures Valid() && forall r :: r in realm.rows ==> r in old(realm.rows) || fresh(r)
      ensures model == old(model).(table := FoundTable(old(model).table, device.displayName))
    {
      var history := realm.GetDevicesHistory(false);
      var known := HasName(history, device.displayName);
      if !known {
        realm.Store(device);
        model := model.(table := realm.table);
      }
    }

    // ----- Framework callbacks -----

    method BrowserFoundPeer(name: string)
      requires Valid()
      modifies this, session, realm, realm.rows, nearbyPeers
      ensures Did(OnFound(old(model), name), old(mainQueue))
    {
      var foundPeer := new PeerDevice(name, Connecting);
      MarkFound(foundPeer);
      Invite(name);
      Record(foundPeer);
    }

    method BrowserLostPeer(name: string)
      requires Valid()
      modifies this, session, realm, realm.rows, nearbyPeers
      ensures Did(OnLost(old(model), name), old(mainQueue))
    {
      SetPeerState(name, NotConnected);
    }

    /** The framework changes its own list together with the callback. */
    method SessionDidChange(name: string, state: Link)
      requires Valid()
      modifies this, session, realm, realm.rows, nearbyPeers
      ensures Did(OnChange(old(model), name, state), old(mainQueue))
    {
      session.connectedPeers := SessionAfter(session.connectedPeers, name, state);
      model := model.(connected := session.connectedPeers);
      SetPeerState(name, state);
      if state == Connected && needsPairing {
        mainQueue := mainQueue + [MarkPaired(name)];
      }
    }

    method SessionDidReceive(container: Container, from: string)
      requires Valid()
      modifies this, session, realm, realm.rows, nearbyPeers
      ensures Did(OnReceive(old(model), from, container), old(mainQueue))
    {
      mainQueue := mainQueue + [Dispatch(from, container)];
    }

    // ----- API -----

    /** One packet for each peer of the session, or for the one named, while some nearby device is connected. */
    method Address(container: Container, to: Option<string>, ok: bool) returns (packets: seq<Packet>)
      requires Valid()
      ensures packets == SendPackets(model, container, to, ok)
    {
      var connected := TestConnected();
      if !connected || !ok {
        return [];
      }
      var recipients := if to.None? then session.connectedPeers else OnlyNamed(session.connectedPeers, to.value);
      return PacketsTo(peer, recipients, container);
    }

    /** The default branch of send; ok says whether the framework accepts the message. */
    method SendData(data: string, kind: Type, id: string, to: Option<string>, ok: bool)
      requires Valid() && !IsControl(kind)
      modifies this`outbox, this`log
      ensures Did(OnSend(old(model), data, kind, id, to, ok), old(mainQueue))
    {
      var packets := Address(Container(data, kind, id), to, ok);
      outbox := outbox + packets;
      log := log + SentEvents(packets);
    }

    method Setup(needsPairing: bool)
      requires Valid()
      modifies this`model, this`needsPairing
      ensures Did(OnSetup(old(model), needsPairing), old(mainQueue))
    {
      this.needsPairing := needsPairing;
      model := model.(needsPairing := needsPairing);
    }

    method ReinitializeSession()
      requires Valid()
      modifies this`model, this`session
      ensures Did(OnReinitialize(old(model)), old(mainQueue))
    {
      session := new MCSession();
      model := model.(connected := []);
    }

    /** The framework may forget some peers at once; the others go with their own callbacks. */
    method Disconnect(dropped: set<string>)
      requires Valid()
      modifies this`model, this`nearbyPeers, session
      ensures Did(OnDisconnect(old(model), dropped), old(mainQueue))
    {
      session.connectedPeers := Without(session.connectedPeers, dropped);
      nearbyPeers := [];
      model := model.(nearby := [], connected := session.connectedPeers);
    }

    /** Write one pairing flag. */
    method SetFlag(name: string, flag: bool)
      requires Valid()
      modifies this`model, this`log, realm, realm.rows
      ensures Valid() && realm.rows == old(realm.rows)
      ensures model == old(model).(table := SetPaired(old(model).table, name, flag))
      ensures log == old(log) + PairEvents(peer, old(model).table, name, flag)
    {
      var found := realm.Set(name, flag);
      if found {
        log := log + [PairSet(peer, name, flag)];
      }
      model := model.(table := realm.table);
    }

    /** Switch off the flags of these devices, one after the other. */
    method ClearFlags(names: seq<string>)
      requires Valid()
      modifies this`model, this`log, realm, realm.rows
      ensures Valid() && realm.rows == old(realm.rows)
      ensures model == old(model).(table := ClearPaired(old(model).table, names))
      ensures log == old(log) + ClearEvents(peer, old(model).table, names)
    {
      for i := 0 to |names|
        invariant Valid() && realm.rows == old(realm.rows)
        invariant model == old(model).(table := model.table)
        invariant ClearPaired(model.table, names[i..]) == ClearPaired(old(model).table, names)
        invariant log + ClearEvents(peer, model.table, names[i..])
               == old(log) + ClearEvents(peer, old(model).table, names)
      {
        ghost var before, table := log, model.table;
        ClearStep(peer, table, names, i);
        SetFlag(names[i], false);
        Associate(before, PairEvents(peer, table, names[i], false), ClearEvents(peer, model.table, names[i + 1..]));
      }
    }

    method UnPair()
      requires Valid()
      modifies this`model, this`log, this`mainQueue, realm, realm.rows
      ensures Did(OnUnPair(old(model)), old(mainQueue))
    {
      ConnectedNamesOf(nearbyPeers, model.nearby);
      ClearFlags(Names(GetConnectedPeers()));
      mainQueue := mainQueue + [SendUnpair("false")];
    }

    /** Whom to invite by hand: an available peer with this name, and only while pairing is required. */
    method SendInvitationForPairing(to: string) returns (invited: Option<string>)
      requires Valid()
      ensures invited == if needsPairing && to in NamesIn(model.nearby, Connecting) then Some(to) else None
    {
      var available := GetAvailablePeers();
      InStateNames(nearbyPeers, model.nearby, Connecting);
      var found := HasName(available, to);
      return if needsPairing && found then Some(to) else None;
    }

    // ----- Main queue -----

    method RunDispatch(from: string, container: Container)
      requires Valid()
      modifies this`mainQueue, this`log
      ensures Did(OnTask(old(model), Dispatch(from, container), true, {}), old(mainQueue))
    {
      if container.kind.Unpair? {
        mainQueue := mainQueue + [HandleUnpair(from)];
      } else if container.kind.Acknowledge? {
        mainQueue := mainQueue + [HandleAcknowledge(from, container.id)];
      } else {
        log := log + [Synced(peer, from, container)];
        mainQueue := mainQueue + [SendAcknowledge(from, container.id)];
      }
    }

    method RunSendAcknowledge(to: string, id: string, ok: bool)
      requires Valid() && to in session.connectedPeers
      modifies this`outbox, this`log
      ensures Did(OnTask(old(model), SendAcknowledge(to, id), ok, {}), old(mainQueue))
    {
      var packets := PacketsTo(peer, OnlyNamed(session.connectedPeers, to), AckContainer(id));
      if ok {
        outbox := outbox + packets;
      } else {
        log := log + DropEvents(packets);
      }
    }

    method RunSendUnpair(data: string, ok: bool)
      requires Valid()
      modifies this`outbox, this`mainQueue
      ensures Did(OnTask(old(model), SendUnpair(data), ok, {}), old(mainQueue))
    {
      if ok {
        outbox := outbox + PacketsTo(peer, session.connectedPeers, Container(data, Unpair, peer));
        mainQueue := mainQueue + [DisconnectLater];
      }
    }

    /** Take a task from the main queue and run it. */
    method RunTask(i: nat, ok: bool, dropped: set<string>)
      requires Valid() && i < |mainQueue| && CanRun(model, mainQueue[i])
      modifies this, session, realm, realm.rows, nearbyPeers
      ensures Did(OnTask(old(model), old(mainQueue[i]), ok, dropped), RemoveAt(old(mainQueue), i))
    {
      var task := mainQueue[i];
      mainQueue := mainQueue[..i] + mainQueue[i + 1..];
      match task
      case Dispatch(from, container) => RunDispatch(from, container);
      case HandleUnpair(from) => SetFlag(from, false);
      case HandleAcknowledge(from, id) => log := log + [Acked(peer, from, id)];
      case SendAcknowledge(to, id) => RunSendAcknowledge(to, id, ok);
      case SendUnpair(data) => RunSendUnpair(data, ok);
      case DisconnectLater => Disconnect(dropped);
      case MarkPaired(name) => SetFlag(name, true);
    }

    // ----- The query for disconnected devices -----

    /** The answer to the query, before its states are overwritten. */
    method FindDisconnected(isIncludePairedOnly: bool) returns (devices: seq<PeerDevice>)
      requires Valid()
      ensures NameSet(devices) == HistoryNames(model, isIncludePairedOnly) && DistinctlyNamed(devices)
      ensures forall d :: d in devices ==> d in nearbyPeers || fresh(d)
      ensures forall i :: 0 <= i < |nearbyPeers| ==>
        (nearbyPeers[i] in devices <==> Demoted(model, model.nearby[i], isIncludePairedOnly))
    {
      var history := realm.GetDevicesHistory(isIncludePairedOnly);
      var connected, available := GetConnectedPeers(), GetAvailablePeers();
      devices := Answer(history, connected, available, isIncludePairedOnly);
      AnswerNames(history, connected, available, isIncludePairedOnly);
      InStateNames(nearbyPeers, model.nearby, Connected);
      InStateNames(nearbyPeers, model.nearby, Connecting);
      InAnswer(history, isIncludePairedOnly);
    }

    method OverwriteAnswer(devices: seq<PeerDevice>, pairedOnly: bool)
      requires Valid()
      requires forall i :: 0 <= i < |nearbyPeers| ==>
        (nearbyPeers[i] in devices <==> Demoted(model, model.nearby[i], pairedOnly))
      modifies this`model, devices
      ensures Valid() && model == OnHistory(old(model), pairedOnly).device
      ensures forall d :: d in devices ==> d.state == NotConnected
    {
      OverwriteStates(devices, NotConnected);
      model := OnHistory(model, pairedOnly).device;
    }

    /**
     * Built from sets of device objects that compare by name. The state of every object in the
     * answer is overwritten; the objects are new ones, not those of the nearby list, as long as
     * every live device is in the history.
     */
    method GetHistoryDisconnectedPeers(isIncludePairedOnly: bool) returns (devices: seq<PeerDevice>)
      requires Valid()
      modifies this`model, nearbyPeers
      ensures Did(OnHistory(old(model), isIncludePairedOnly), old(mainQueue))
      ensures NameSet(devices) == HistoryNames(old(model), isIncludePairedOnly) && DistinctlyNamed(devices)
      ensures forall d :: d in devices ==> d.state == NotConnected
      ensures Inv(old(model)) && !isIncludePairedOnly ==> forall d :: d in devices ==> fresh(d)
    {
      devices := FindDisconnected(isIncludePairedOnly);
      if Inv(model) && !isIncludePairedOnly {
        NoneDemoted(model);
      }
      assert forall i :: 0 <= i < |devices| ==> devices[i] in nearbyPeers || fresh(devices[i]);
      OverwriteAnswer(devices, isIncludePairedOnly);
    }

    /** The nearby objects in the answer are those whose entry the reaction demotes. */
    lemma {:induction false} InAnswer(history: seq<PeerDevice>, pairedOnly: bool)
      requires Valid()
      requires forall d :: d in history ==> d !in nearbyPeers
      requires NameSet(history) == RowNames(model.table, pairedOnly)
      ensures forall i :: 0 <= i < |nearbyPeers| ==>
        (nearbyPeers[i] in Answer(history, InState(nearbyPeers, Connected), InState(nearbyPeers, Connecting),
                                  pairedOnly)
         <==> Demoted(model, model.nearby[i], pairedOnly))
    {
      var up, coming := InState(nearbyPeers, Connected), InState(nearbyPeers, Connecting);
      InStateDistinct(nearbyPeers, Connected);
      InStateDistinct(nearbyPeers, Connecting);
      InStateNames(nearbyPeers, model.nearby, Connected);
      InStateNames(nearbyPeers, model.nearby, Connecting);
      forall i | 0 <= i < |nearbyPeers|
        ensures nearbyPeers[i] in Answer(history, up, coming, pairedOnly)
          <==> Demoted(model, model.nearby[i], pairedOnly)
      {
        var x := nearbyPeers[i];
        AnswerObject(history, up, coming, pairedOnly, x);
        NameInOneState(model.nearby, i);
      }
    }
  }

  lemma {:induction false} Associate(a: seq<Event>, b: seq<Event>, c: seq<Event>)
    ensures a + b + c == a + (b + c)
  {
  }

  /** With distinct names, a name is live in no state but its entry's. */
  lemma {:induction false} NameInOneState(peers: seq<Peer>, i: nat)
    requires DistinctPeers(peers) && i < |peers|
    ensures forall state :: peers[i].name in NamesIn(peers, state) <==> state == peers[i].state
  {
    assert peers[i].name in NamesIn(peers, peers[i].state);
  }
}
