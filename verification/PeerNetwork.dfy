/**
 * Any number of distinctly named devices, the packets between them and the tasks on their main
 * queues. Packets and tasks may be taken in any order, and a packet may be lost; this allows every
 * order in which the framework and the queues can really act.
 */
module PeerNetwork {
  import opened Counting
  import opened Options
  import opened PeerState
  import opened PeerInvariants
  import opened Pairing

  datatype Job = Job(at: string, task: Task)

  datatype Network = Network(
    devices: map<string, Device>,
    air: seq<Packet>,
    queue: seq<Job>,
    trace: seq<Event>)

  datatype Action =
    // the framework
    | Found(at: string, name: string)
    | Lost(at: string, name: string)
    | Change(at: string, name: string, state: Link)
    | Drop(i: nat)
    | Deliver(i: nat)
    // the main queues
    | Run(i: nat, ok: bool, dropped: set<string>)
    // the applications
    | Send(at: string, data: string, kind: Type, id: string, to: Option<string>, ok: bool)
    | UnPair(at: string)
    | Disconnect(at: string, dropped: set<string>)
    | Reinitialize(at: string)
    | Setup(at: string, needsPairing: bool)
    | History(at: string, pairedOnly: bool)

  predicate Enabled(n: Network, a: Action) {
    match a
    case Drop(i) => i < |n.air|
    case Deliver(i) => i < |n.air| && n.air[i].dst in n.devices
    case Run(i, _, _) =>
      i < |n.queue| && n.queue[i].at in n.devices && CanRun(n.devices[n.queue[i].at], n.queue[i].task)
    case Found(at, name) => at in n.devices && name in n.devices
    case Lost(at, name) => at in n.devices && name in n.devices
    case Change(at, name, _) => at in n.devices && name in n.devices
    case Send(at, _, kind, _, _, _) => at in n.devices && !IsControl(kind)
    case Reinitialize(at) => at in n.devices && !IsConnected(n.devices[at])
    case _ => a.at in n.devices
  }

  /** The network with the packet or task that the action uses up taken out. */
  function Consume(n: Network, a: Action): Network
    requires Enabled(n, a)
  {
    match a
    case Drop(i) => n.(air := RemoveAt(n.air, i))
    case Deliver(i) => n.(air := RemoveAt(n.air, i))
    case Run(i, _, _) => n.(queue := RemoveAt(n.queue, i))
    case _ => n
  }

  /** How the one device concerned reacts. */
  function React(n: Network, a: Action): Effect
    requires Enabled(n, a) && !a.Drop?
  {
    match a
    case Deliver(i) => OnReceive(n.devices[n.air[i].dst], n.air[i].src, n.air[i].container)
    case Run(i, ok, dropped) => OnTask(n.devices[n.queue[i].at], n.queue[i].task, ok, dropped)
    case Found(at, name) => OnFound(n.devices[at], name)
    case Lost(at, name) => OnLost(n.devices[at], name)
    case Change(at, name, state) => OnChange(n.devices[at], name, state)
    case Send(at, data, kind, id, to, ok) => OnSend(n.devices[at], data, kind, id, to, ok)
    case UnPair(at) => OnUnPair(n.devices[at])
    case Disconnect(at, dropped) => OnDisconnect(n.devices[at], dropped)
    case Reinitialize(at) => OnReinitialize(n.devices[at])
    case Setup(at, needsPairing) => OnSetup(n.devices[at], needsPairing)
    case History(at, pairedOnly) => OnHistory(n.devices[at], pairedOnly)
  }

  function Jobs(at: string, tasks: seq<Task>): (r: seq<Job>)
    ensures |r| == |tasks|
    ensures forall i :: 0 <= i < |r| ==> r[i] == Job(at, tasks[i])
  {
    seq(|tasks|, i requires 0 <= i < |tasks| => Job(at, tasks[i]))
  }

  function Post(n: Network, e: Effect): Network {
    Network(n.devices[e.device.name := e.device],
            n.air + e.packets,
            n.queue + Jobs(e.device.name, e.posted),
            n.trace + e.events)
  }

  function Apply(n: Network, a: Action): Network
    requires Enabled(n, a)
  {
    if a.Drop? then Consume(n, a).(trace := n.trace + [Dropped(n.air[a.i])])
    else Post(Consume(n, a), React(n, a))
  }

  // ----- Runs -----

  /** Devices start with no neighbours and no session, but with whatever history earlier launches left. */
  ghost predicate Initial(n: Network) {
    && (forall at :: at in n.devices ==>
          && n.devices[at].name == at
          && n.devices[at].nearby == []
          && n.devices[at].connected == []
          && DistinctRows(n.devices[at].table))
    && n.air == [] && n.queue == [] && n.trace == []
  }

  ghost predicate Steps(ns: seq<Network>, acts: seq<Action>) {
    && |ns| == |acts| + 1
    && forall i {:trigger acts[i]} :: 0 <= i < |acts| ==> Enabled(ns[i], acts[i]) && ns[i + 1] == Apply(ns[i], acts[i])
  }

  ghost predicate IsRun(ns: seq<Network>, acts: seq<Action>) {
    Steps(ns, acts) && Initial(ns[0])
  }

  // ----- Every device keeps its invariant -----

  ghost predicate DevicesInv(n: Network) {
    forall at :: at in n.devices ==>
      && n.devices[at].name == at
      && Inv(n.devices[at])
      && forall x :: x in n.devices[at].connected ==> x in n.devices
  }

  lemma {:induction false} ReactKeeps(n: Network, a: Action)
    requires DevicesInv(n) && Enabled(n, a) && !a.Drop?
    ensures var e := React(n, a);
      && e.device.name in n.devices
      && Inv(e.device)
      && forall x :: x in e.device.connected ==> x in n.devices
  {
    match a
    case Deliver(i) =>
    case Run(i, ok, dropped) => TaskKeeps(n.devices[n.queue[i].at], n.queue[i].task, ok, dropped);
    case Found(at, name) => FoundKeeps(n.devices[at], name);
    case Lost(at, name) => LostKeeps(n.devices[at], name);
    case Change(at, name, state) => ChangeKeeps(n.devices[at], name, state);
    case Send(at, _, _, _, _, _) =>
    case UnPair(at) => UnPairKeeps(n.devices[at]);
    case Disconnect(at, dropped) => DisconnectKeeps(n.devices[at], dropped);
    case Reinitialize(at) => ReinitializeKeeps(n.devices[at]);
    case Setup(at, needsPairing) =>
    case History(at, pairedOnly) => HistoryKeeps(n.devices[at], pairedOnly);
  }

  /** The device an event belongs to. */
  function EventAt(e: Event): string {
    match e
    case Sent(packet) => packet.src
    case Dropped(packet) => packet.src
    case _ => e.at
  }

  /** Packets in the device's own name to peers of its session, and events of its own. */
  ghost predicate Own(d: Device, e: Effect) {
    && (forall x :: x in e.packets ==> x.src == d.name && x.dst in d.connected)
    && (forall x :: x in e.events ==> EventAt(x) == d.name)
  }

  lemma {:induction false} TaskIsOwn(d: Device, task: Task, ok: bool, dropped: set<string>)
    requires CanRun(d, task)
    ensures Own(d, OnTask(d, task, ok, dropped))
  {
  }

  lemma {:induction false} UnPairIsOwn(d: Device)
    ensures Own(d, OnUnPair(d))
  {
    ClearEventsRecord(d.name, d.table, ConnectedNames(d.nearby), "");
  }

  /** A device sends only in its own name and only to peers of its session, and reports only its own events. */
  lemma {:induction false} SpeaksForItself(n: Network, a: Action)
    requires DevicesInv(n) && Enabled(n, a) && !a.Drop?
    ensures var e := React(n, a);
      && e.device.name in n.devices
      && (forall x :: x in e.packets ==> x.src == e.device.name && x.dst in n.devices[e.device.name].connected)
      && (forall x :: x in e.events ==> EventAt(x) == e.device.name)
  {
    ReactKeeps(n, a);
    match a
    case Run(i, ok, dropped) => TaskIsOwn(n.devices[n.queue[i].at], n.queue[i].task, ok, dropped);
    case UnPair(at) => UnPairIsOwn(n.devices[at]);
    case _ =>
  }

  lemma {:induction false} StepKeepsDevices(n: Network, a: Action)
    requires DevicesInv(n) && Enabled(n, a)
    ensures DevicesInv(Apply(n, a)) && Apply(n, a).devices.Keys == n.devices.Keys
  {
    if !a.Drop? {
      ReactKeeps(n, a);
    }
  }

  lemma {:induction false} RunKeepsDevices(ns: seq<Network>, acts: seq<Action>, i: nat)
    requires Steps(ns, acts) && DevicesInv(ns[0]) && i < |ns|
    ensures DevicesInv(ns[i]) && ns[i].devices.Keys == ns[0].devices.Keys
  {
    if i == 0 {
    } else {
      RunKeepsDevices(ns, acts, i - 1);
      StepKeepsDevices(ns[i - 1], acts[i - 1]);
    }
  }

  lemma {:induction false} InitialDevices(n: Network)
    requires Initial(n)
    ensures DevicesInv(n)
  {
  }

  /** In every reachable state of every device, the history query is exact and harmless. */
  lemma {:induction false} ReachableHistory(ns: seq<Network>, acts: seq<Action>, i: nat, at: string)
    requires IsRun(ns, acts) && i < |ns| && at in ns[i].devices
    ensures var d := ns[i].devices[at];
      && HistoryNames(d, false)
           == RowNames(d.table, false) - (NamesIn(d.nearby, Connected) + NamesIn(d.nearby, Connecting))
      && OnHistory(d, false).device == d
  {
    InitialDevices(ns[0]);
    RunKeepsDevices(ns, acts, i);
    HistoryIsDifference(ns[i].devices[at]);
  }

  /**
   * In every reachable state a connected entry belongs to the session, so rediscovery never demotes
   * it, and a broadcast made while connected has recipients and misses no connected entry.
   */
  lemma {:induction false} ReachableAgreement(ns: seq<Network>, acts: seq<Action>, i: nat, at: string, name: string)
    requires IsRun(ns, acts) && i < |ns| && at in ns[i].devices
    ensures var d := ns[i].devices[at];
      && Agreement(d)
      && NamesIn(d.nearby, Connected) <= NamesIn(OnFound(d, name).device.nearby, Connected)
      && (IsConnected(d) ==> |Recipients(d, None)| > 0)
      && NamesIn(d.nearby, Connected) <= (set x | x in Recipients(d, None))
      && (name in NamesIn(d.nearby, Connected) ==> Recipients(d, Some(name)) == [name])
  {
    InitialDevices(ns[0]);
    RunKeepsDevices(ns, acts, i);
    var d := ns[i].devices[at];
    BroadcastCovers(d, name);
    RediscoveryKeepsConnected(d, name);
    forall x | x in NamesIn(d.nearby, Connected) ensures x in NamesIn(OnFound(d, name).device.nearby, Connected) {
      var k :| 0 <= k < |d.nearby| && d.nearby[k].state == Connected && d.nearby[k].name == x;
      assert OnFound(d, name).device.nearby[k] == d.nearby[k];
    }
  }
}
