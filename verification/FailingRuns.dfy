/** Runs of two devices after which the code does something it should not. */
module FailingRuns {
  import opened Options
  import opened PeerState
  import opened PeerInvariants
  import opened PeerNetwork

  // ----- A run in which the paired-only query goes wrong -----

  function Fresh(name: string): Device {
    Device(name, [], [], false, [])
  }

  /** Device a discovers device b. */
  lemma {:induction false} FirstDiscovery(a: string, b: string)
    ensures OnFound(Fresh(a), b)
         == Effect(Device(a, [Peer(b, Connecting)], [], false, [Row(b, Connecting, false)]), [], [],
                   [Invited(a, b, false)])
  {
    assert !HasPeer([], b) && !HasRow([], b);
    assert Listed([], b) == [Peer(b, Connecting)];
  }

  /** A device without pairing that is connected to another. */
  function Joined(a: string, b: string): Device {
    Device(a, [Peer(b, Connected)], [b], false, [Row(b, Connecting, false)])
  }

  /** Device a discovers device b and connects to it. */
  lemma {:induction false} Join(a: string, b: string) returns (ns: seq<Network>, acts: seq<Action>)
    requires a != b
    ensures IsRun(ns, acts) && acts == [Found(a, b), Change(a, b, Connected)]
    ensures a in ns[2].devices && b in ns[2].devices && ns[2].air == [] && ns[2].queue == []
    ensures ns[2].devices[a] == Joined(a, b) && ns[2].devices[b] == Fresh(b)
  {
    acts := [Found(a, b), Change(a, b, Connected)];
    var n0 := Network(map[a := Fresh(a), b := Fresh(b)], [], [], []);
    var n1 := Apply(n0, acts[0]);
    FirstDiscovery(a, b);
    var n2 := Apply(n1, acts[1]);
    ns := [n0, n1, n2];
    assert n2.devices[a] == Joined(a, b);
  }

  /**
   * A device without pairing discovers another and connects to it. The paired-only query then
   * reports that device as disconnected, and overwrites its entry in the nearby list.
   */
  lemma {:induction false} PairedHistoryDemotes(a: string, b: string) returns (ns: seq<Network>, acts: seq<Action>)
    requires a != b
    ensures IsRun(ns, acts) && |ns| == 3 && acts == [Found(a, b), Change(a, b, Connected)]
    ensures a in ns[2].devices
    ensures var d := ns[2].devices[a];
      && d.nearby == [Peer(b, Connected)] && d.connected == [b]
      && b in HistoryNames(d, true)
      && OnHistory(d, true).device.nearby == [Peer(b, NotConnected)]
  {
    ns, acts := Join(a, b);
    var d := ns[2].devices[a];
    assert d.nearby[0].name in NamesIn(d.nearby, Connected);
    assert RowNames(d.table, true) == {};
  }

  // ----- A run in which an acknowledgement loses its target -----

  function Greeting(id: string): Container {
    Container("hello", String, id)
  }

  /** One more step at the end of a run. */
  lemma {:induction false} RunGoesOn(ns: seq<Network>, acts: seq<Action>, act: Action)
    requires IsRun(ns, acts) && Enabled(ns[|acts|], act)
    ensures IsRun(ns + [Apply(ns[|acts|], act)], acts + [act])
  {
  }

  /** Device a is connected to device b, both know it, and this is under way. */
  ghost predicate Met(n: Network, a: string, b: string, air: seq<Packet>, queue: seq<Job>) {
    && n.air == air && n.queue == queue
    && a in n.devices && b in n.devices
    && n.devices[a] == Joined(a, b)
    && n.devices[b] == Device(b, [], [a], false, [])
  }

  /** The steps of the run, one by one. */
  function Script(a: string, b: string, id: string): seq<Action> {
    [Found(a, b), Change(a, b, Connected), Change(b, a, Connected),
     Send(a, "hello", String, id, None, true), Deliver(0), Run(0, true, {}),
     Change(b, a, NotConnected)]
  }

  lemma {:induction false} AfterMeeting(a: string, b: string, id: string) returns (ns: seq<Network>)
    requires a != b
    ensures IsRun(ns, Script(a, b, id)[..3]) && Met(ns[3], a, b, [], [])
  {
    var acts;
    ns, acts := Join(a, b);
    var change := Change(b, a, Connected);
    RunGoesOn(ns, acts, change);
    ns := ns + [Apply(ns[2], change)];
    assert acts + [change] == Script(a, b, id)[..3];
  }

  lemma {:induction false} AfterSending(a: string, b: string, id: string) returns (ns: seq<Network>)
    requires a != b
    ensures IsRun(ns, Script(a, b, id)[..4]) && Met(ns[4], a, b, [Packet(a, b, Greeting(id))], [])
  {
    ns := AfterMeeting(a, b, id);
    var n, script := ns[3], Script(a, b, id);
    assert n.devices[a].nearby[0].state == Connected;
    assert PacketsTo(a, [b], Greeting(id)) == [Packet(a, b, Greeting(id))];
    RunGoesOn(ns, script[..3], script[3]);
    ns := ns + [Apply(n, script[3])];
    assert script[..3] + [script[3]] == script[..4];
  }

  lemma {:induction false} AfterDelivery(a: string, b: string, id: string) returns (ns: seq<Network>)
    requires a != b
    ensures IsRun(ns, Script(a, b, id)[..5]) && Met(ns[5], a, b, [], [Job(b, Dispatch(a, Greeting(id)))])
  {
    ns := AfterSending(a, b, id);
    var n, script := ns[4], Script(a, b, id);
    RunGoesOn(ns, script[..4], script[4]);
    ns := ns + [Apply(n, script[4])];
    assert script[..4] + [script[4]] == script[..5];
  }

  lemma {:induction false} AfterDispatch(a: string, b: string, id: string) returns (ns: seq<Network>)
    requires a != b
    ensures IsRun(ns, Script(a, b, id)[..6]) && Met(ns[6], a, b, [], [Job(b, SendAcknowledge(a, id))])
  {
    ns := AfterDelivery(a, b, id);
    var n, script := ns[5], Script(a, b, id);
    RunGoesOn(ns, script[..5], script[5]);
    ns := ns + [Apply(n, script[5])];
    assert script[..5] + [script[5]] == script[..6];
  }

  /**
   * The connection is lost while an acknowledgement waits for its delay: after this run its task is
   * on the main queue and would stop the program.
   */
  lemma {:induction false} AcknowledgementWithoutTarget(a: string, b: string, id: string) returns (ns: seq<Network>)
    requires a != b
    ensures IsRun(ns, Script(a, b, id))
    ensures b in ns[7].devices
    ensures ns[7].queue == [Job(b, SendAcknowledge(a, id))] && !CanRun(ns[7].devices[b], SendAcknowledge(a, id))
  {
    ns := AfterDispatch(a, b, id);
    var n, script := ns[6], Script(a, b, id);
    assert Without([a], {a}) == [];
    RunGoesOn(ns, script[..6], script[6]);
    ns := ns + [Apply(n, script[6])];
    assert script[..6] + [script[6]] == script;
  }
}
