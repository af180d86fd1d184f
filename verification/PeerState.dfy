/**
 * The state of one device and its reaction to every callback, API call and deferred main-queue
 * task, as values. The classes in PeerConnectivity.dfy carry these reactions out in place, and
 * PeerNetwork.dfy runs any number of devices against each other.
 */
module PeerState {

  import opened Options

  // ----- Entities -----

  datatype Link = NotConnected | Connecting | Connected

  /** An entry of the list of nearby peers. */
  datatype Peer = Peer(name: string, state: Link)

  /** A row of the persistent device history. */
  datatype Row = Row(name: string, state: Link, isPaired: bool)

  datatype Type =
    | Int | Double | String | Image | Dictionary | Array | Custom | CustomArray | Disconnect
    | Unpair | Acknowledge

  predicate IsControl(kind: Type) {
    kind.Unpair? || kind.Acknowledge?
  }

  datatype Container = Container(data: string, kind: Type, id: string)

  datatype Packet = Packet(src: string, dst: string, container: Container)

  /** A block waiting on the main queue. */
  datatype Task =
    | Dispatch(from: string, container: Container)
    | HandleUnpair(from: string)
    | HandleAcknowledge(from: string, id: string)
    | SendAcknowledge(to: string, id: string)
    | SendUnpair(data: string)
    | DisconnectLater
    | MarkPaired(name: string)

  /** What an observer of the device sees: delegate calls, framework calls and table changes. */
  datatype Event =
    | Sent(packet: Packet)
    | Dropped(packet: Packet)
    | Synced(at: string, from: string, container: Container)
    | Acked(at: string, from: string, id: string)
    | PairSet(at: string, name: string, flag: bool)
    | Invited(at: string, name: string, restricted: bool)

  datatype Device = Device(
    name: string,
    nearby: seq<Peer>,
    connected: seq<string>,
    needsPairing: bool,
    table: seq<Row>)

  datatype Effect = Effect(device: Device, posted: seq<Task>, packets: seq<Packet>, events: seq<Event>)

  // ----- The list of nearby peers -----

  predicate HasPeer(peers: seq<Peer>, name: string) {
    exists i :: 0 <= i < |peers| && peers[i].name == name
  }

  /** Change the state of the first entry with this name, if there is one. */
  function SetState(peers: seq<Peer>, name: string, state: Link): (r: seq<Peer>)
    ensures |r| == |peers|
  {
    if peers == [] then []
    else if peers[0].name == name then [peers[0].(state := state)] + peers[1..]
    else [peers[0]] + SetState(peers[1..], name, state)
  }

  function NamesIn(peers: seq<Peer>, state: Link): set<string> {
    set i | 0 <= i < |peers| && peers[i].state == state :: peers[i].name
  }

  predicate IsConnected(d: Device) {
    exists i :: 0 <= i < |d.nearby| && d.nearby[i].state == Connected
  }

  // ----- The device history -----

  predicate HasRow(table: seq<Row>, name: string) {
    exists i :: 0 <= i < |table| && table[i].name == name
  }

  function RowNames(table: seq<Row>, pairedOnly: bool): set<string> {
    set i | 0 <= i < |table| && (pairedOnly ==> table[i].isPaired) :: table[i].name
  }

  function SetPaired(table: seq<Row>, name: string, flag: bool): (r: seq<Row>)
    ensures |r| == |table|
  {
    if table == [] then []
    else if table[0].name == name then [table[0].(isPaired := flag)] + table[1..]
    else [table[0]] + SetPaired(table[1..], name, flag)
  }

  function IsPaired(table: seq<Row>, name: string): bool {
    if table == [] then false
    else if table[0].name == name then table[0].isPaired
    else IsPaired(table[1..], name)
  }

  /** Append a row without looking for an earlier one, as the store does. */
  function Store(table: seq<Row>, name: string, state: Link): seq<Row> {
    table + [Row(name, state, false)]
  }

  function ClearPaired(table: seq<Row>, names: seq<string>): (r: seq<Row>)
    ensures |r| == |table|
    decreases |names|
  {
    if names == [] then table else ClearPaired(SetPaired(table, names[0], false), names[1..])
  }

  function PairEvents(at: string, table: seq<Row>, name: string, flag: bool): seq<Event> {
    if HasRow(table, name) then [PairSet(at, name, flag)] else []
  }

  function ClearEvents(at: string, table: seq<Row>, names: seq<string>): seq<Event>
    decreases |names|
  {
    if names == [] then []
    else PairEvents(at, table, names[0], false)
         + ClearEvents(at, SetPaired(table, names[0], false), names[1..])
  }

  lemma {:induction false} ClearStep(at: string, table: seq<Row>, names: seq<string>, i: nat)
    requires i < |names|
    ensures ClearPaired(table, names[i..]) == ClearPaired(SetPaired(table, names[i], false), names[i + 1..])
    ensures ClearEvents(at, table, names[i..])
         == PairEvents(at, table, names[i], false) + ClearEvents(at, SetPaired(table, names[i], false), names[i + 1..])
  {
    assert names[i..][1..] == names[i + 1..];
  }

  // ----- Framework callbacks -----

  /** The nearby list with this name added at the end unless it is listed already. */
  function Listed(peers: seq<Peer>, name: string): seq<Peer> {
    if HasPeer(peers, name) then peers else peers + [Peer(name, Connecting)]
  }

  function FoundNearby(d: Device, name: string): seq<Peer> {
    var listed := Listed(d.nearby, name);
    if name in d.connected then listed else SetState(listed, name, Connecting)
  }

  function FoundTable(table: seq<Row>, name: string): seq<Row> {
    if HasRow(table, name) then table else Store(table, name, Connecting)
  }

  function FoundInvites(d: Device, name: string): seq<Event> {
    if !d.needsPairing || IsPaired(d.table, name) then [Invited(d.name, name, d.needsPairing)] else []
  }

  function OnFound(d: Device, name: string): Effect {
    Effect(d.(nearby := FoundNearby(d, name), table := FoundTable(d.table, name)), [], [], FoundInvites(d, name))
  }

  function OnLost(d: Device, name: string): Effect {
    Effect(d.(nearby := SetState(d.nearby, name, NotConnected)), [], [], [])
  }

  /** The session's own list of connected peers, as it is when the change is reported. */
  function SessionAfter(connected: seq<string>, name: string, state: Link): seq<string> {
    if state == Connected then (if name in connected then connected else connected + [name])
    else Without(connected, {name})
  }

  function Without(names: seq<string>, gone: set<string>): (r: seq<string>)
    ensures forall x :: x in r <==> x in names && x !in gone
  {
    if names == [] then []
    else (if names[0] in gone then [] else [names[0]]) + Without(names[1..], gone)
  }

  function OnChange(d: Device, name: string, state: Link): Effect {
    Effect(
      d.(nearby := SetState(d.nearby, name, state), connected := SessionAfter(d.connected, name, state)),
      if state == Connected && d.needsPairing then [MarkPaired(name)] else [], [], [])
  }

  function OnReceive(d: Device, from: string, container: Container): Effect {
    Effect(d, [Dispatch(from, container)], [], [])
  }

  // ----- Sending -----

  function OnlyNamed(names: seq<string>, name: string): (r: seq<string>)
    ensures |r| <= |names|
    ensures forall x :: x in r <==> x in names && x == name
  {
    if names == [] then []
    else (if names[0] == name then [names[0]] else []) + OnlyNamed(names[1..], name)
  }

  function Recipients(d: Device, to: Option<string>): seq<string> {
    if to.None? then d.connected else OnlyNamed(d.connected, to.value)
  }

  function PacketsTo(src: string, recipients: seq<string>, container: Container): (r: seq<Packet>)
    ensures |r| == |recipients|
    ensures forall i :: 0 <= i < |r| ==> r[i] == Packet(src, recipients[i], container)
  {
    seq(|recipients|, i requires 0 <= i < |recipients| => Packet(src, recipients[i], container))
  }

  function SentEvents(packets: seq<Packet>): (r: seq<Event>)
    ensures |r| == |packets|
    ensures forall i :: 0 <= i < |r| ==> r[i] == Sent(packets[i])
  {
    seq(|packets|, i requires 0 <= i < |packets| => Sent(packets[i]))
  }

  function SendPackets(d: Device, container: Container, to: Option<string>, ok: bool): seq<Packet> {
    if IsConnected(d) && ok then PacketsTo(d.name, Recipients(d, to), container) else []
  }

  /** The default branch of send. The flag ok says whether the framework accepted the message. */
  function OnSend(d: Device, data: string, kind: Type, id: string, to: Option<string>, ok: bool): Effect
    requires !IsControl(kind)
  {
    var packets := SendPackets(d, Container(data, kind, id), to, ok);
    Effect(d, [], packets, SentEvents(packets))
  }

  function AckContainer(id: string): Container {
    Container("Acknowledged", Acknowledge, id)
  }

  // ----- Deferred tasks -----

  /**
   * An acknowledgement is sent to the first of the session's peers with the name it is for; if there
   * is none, reading that element stops the program.
   */
  predicate CanRun(d: Device, task: Task) {
    task.SendAcknowledge? ==> task.to in d.connected
  }

  function OnTask(d: Device, task: Task, ok: bool, dropped: set<string>): Effect
    requires CanRun(d, task)
  {
    match task
    case Dispatch(from, container) =>
      if container.kind.Unpair? then Effect(d, [HandleUnpair(from)], [], [])
      else if container.kind.Acknowledge? then Effect(d, [HandleAcknowledge(from, container.id)], [], [])
      else Effect(d, [SendAcknowledge(from, container.id)], [], [Synced(d.name, from, container)])
    case HandleUnpair(from) =>
      Effect(d.(table := SetPaired(d.table, from, false)), [], [], PairEvents(d.name, d.table, from, false))
    case HandleAcknowledge(from, id) => Effect(d, [], [], [Acked(d.name, from, id)])
    case SendAcknowledge(to, id) =>
      var packets := PacketsTo(d.name, OnlyNamed(d.connected, to), AckContainer(id));
      if ok then Effect(d, [], packets, [])
      else Effect(d, [], [], DropEvents(packets))
    case SendUnpair(data) =>
      if ok
      then Effect(d, [DisconnectLater], PacketsTo(d.name, d.connected, Container(data, Unpair, d.name)), [])
      else Effect(d, [], [], [])
    case DisconnectLater => OnDisconnect(d, dropped)
    case MarkPaired(name) =>
      Effect(d.(table := SetPaired(d.table, name, true)), [], [], PairEvents(d.name, d.table, name, true))
  }

  function DropEvents(packets: seq<Packet>): (r: seq<Event>)
    ensures |r| == |packets|
    ensures forall i :: 0 <= i < |r| ==> r[i] == Dropped(packets[i])
  {
    seq(|packets|, i requires 0 <= i < |packets| => Dropped(packets[i]))
  }

  // ----- API calls -----

  /** The framework may forget some peers at once; the others go with their own callbacks. */
  function OnDisconnect(d: Device, dropped: set<string>): Effect {
    Effect(d.(nearby := [], connected := Without(d.connected, dropped)), [], [], [])
  }

  function ConnectedNames(peers: seq<Peer>): seq<string> {
    if peers == [] then []
    else (if peers[0].state == Connected then [peers[0].name] else []) + ConnectedNames(peers[1..])
  }

  function OnUnPair(d: Device): Effect {
    var names := ConnectedNames(d.nearby);
    Effect(d.(table := ClearPaired(d.table, names)), [SendUnpair("false")], [],
           ClearEvents(d.name, d.table, names))
  }

  function OnReinitialize(d: Device): Effect {
    Effect(d.(connected := []), [], [], [])
  }

  function OnSetup(d: Device, needsPairing: bool): Effect {
    Effect(d.(needsPairing := needsPairing), [], [], [])
  }

  function SymmetricDifference(a: set<string>, b: set<string>): set<string> {
    (a - b) + (b - a)
  }

  /** The names in the answer to a query for disconnected devices. */
  function HistoryNames(d: Device, pairedOnly: bool): set<string> {
    var disconnected := SymmetricDifference(RowNames(d.table, pairedOnly), NamesIn(d.nearby, Connected));
    if pairedOnly then disconnected else SymmetricDifference(disconnected, NamesIn(d.nearby, Connecting))
  }

  /**
   * Whether the query writes to this entry of the nearby list, because the answer holds that very
   * object; this is so as long as no name is listed twice.
   */
  predicate Demoted(d: Device, peer: Peer, pairedOnly: bool) {
    && peer.name !in RowNames(d.table, pairedOnly)
    && (peer.state == Connected || (!pairedOnly && peer.state == Connecting))
  }

  function OnHistory(d: Device, pairedOnly: bool): Effect {
    var nearby := seq(|d.nearby|, i requires 0 <= i < |d.nearby| =>
      if Demoted(d, d.nearby[i], pairedOnly) then d.nearby[i].(state := NotConnected) else d.nearby[i]);
    Effect(d.(nearby := nearby), [], [], [])
  }
}
