/** Messages do not breed: once the applications stop sending, the work left is bounded and runs out. */
module Storms {
  import opened Counting
  import opened PeerState
  import opened PeerInvariants
  import opened PeerNetwork

  /** The number of steps a packet can still cause: to arrive, to be handled, to be acknowledged. */
  function PacketWork(): Packet -> nat {
    (x: Packet) => if IsControl(x.container.kind) then 3 else 6
  }

  /** The same for a task, among the given number of devices. */
  function JobWork(devices: nat): Job -> nat {
    (j: Job) =>
      match j.task
      case Dispatch(_, container) => if IsControl(container.kind) then 2 else 5
      case SendAcknowledge(_, _) => 4
      case SendUnpair(_) => 3 * devices + 2
      case _ => 1
  }

  function Work(n: Network): nat {
    Total(n.air, PacketWork()) + Total(n.queue, JobWork(|n.devices|))
  }

  function EffectWork(e: Effect, devices: nat): nat {
    Total(e.packets, PacketWork()) + Total(Jobs(e.device.name, e.posted), JobWork(devices))
  }

  predicate Internal(a: Action) {
    a.Drop? || a.Deliver? || a.Run?
  }

  predicate Sends(a: Action) {
    a.Send? || a.UnPair?
  }

  lemma {:induction false} PostWork(n: Network, e: Effect)
    requires e.device.name in n.devices
    ensures Work(Post(n, e)) == Work(n) + EffectWork(e, |n.devices|)
  {
    TotalConcat(n.air, e.packets, PacketWork());
    TotalConcat(n.queue, Jobs(e.device.name, e.posted), JobWork(|n.devices|));
    assert n.devices[e.device.name := e.device].Keys == n.devices.Keys;
    assert |n.devices[e.device.name := e.device]| == |n.devices[e.device.name := e.device].Keys| == |n.devices|;
  }

  function ConsumedWork(n: Network, a: Action): nat
    requires Enabled(n, a)
  {
    if a.Drop? || a.Deliver? then PacketWork()(n.air[a.i])
    else if a.Run? then JobWork(|n.devices|)(n.queue[a.i])
    else 0
  }

  lemma {:induction false} ConsumeWork(n: Network, a: Action)
    requires Enabled(n, a)
    ensures Work(Consume(n, a)) + ConsumedWork(n, a) == Work(n)
  {
    if a.Drop? || a.Deliver? {
      TotalRemove(n.air, a.i, PacketWork());
    } else if a.Run? {
      TotalRemove(n.queue, a.i, JobWork(|n.devices|));
    }
  }

  /** A list without repetition drawn from a set is no longer than the set is large. */
  lemma {:induction false} DistinctBound(names: seq<string>, all: set<string>)
    requires DistinctNames(names) && forall x :: x in names ==> x in all
    ensures |names| <= |all|
  {
    if names == [] {
    } else {
      DistinctBound(names[1..], all - {names[0]});
    }
  }

  lemma {:induction false} OneJobWork(e: Effect, devices: nat)
    requires |e.posted| == 1 && e.packets == []
    ensures EffectWork(e, devices) == JobWork(devices)(Job(e.device.name, e.posted[0]))
  {
    assert Jobs(e.device.name, e.posted) == [Job(e.device.name, e.posted[0])];
    TotalOne(Job(e.device.name, e.posted[0]), JobWork(devices));
  }

  lemma {:induction false} NoWork(e: Effect, devices: nat)
    requires e.posted == [] && e.packets == []
    ensures EffectWork(e, devices) == 0
  {
    assert Jobs(e.device.name, e.posted) == [];
  }

  lemma {:induction false} UnpairWork(d: Device, data: string, ok: bool, all: set<string>)
    requires DistinctNames(d.connected) && forall x :: x in d.connected ==> x in all
    ensures EffectWork(OnTask(d, SendUnpair(data), ok, {}), |all|) < 3 * |all| + 2
  {
    var e := OnTask(d, SendUnpair(data), ok, {});
    DistinctBound(d.connected, all);
    TotalBounded(e.packets, PacketWork(), 3);
    if ok {
      assert Jobs(d.name, e.posted) == [Job(d.name, DisconnectLater)];
      TotalOne(Job(d.name, DisconnectLater), JobWork(|all|));
    }
  }

  /** Every task leaves less work than it was. */
  lemma {:induction false} TaskWork(d: Device, task: Task, ok: bool, dropped: set<string>, all: set<string>)
    requires CanRun(d, task) && DistinctNames(d.connected) && forall x :: x in d.connected ==> x in all
    ensures EffectWork(OnTask(d, task, ok, dropped), |all|) < JobWork(|all|)(Job(d.name, task))
  {
    var e := OnTask(d, task, ok, dropped);
    match task
    case Dispatch(_, _) => OneJobWork(e, |all|);
    case SendAcknowledge(to, id) =>
      OnlyNamedOnce(d.connected, to);
      if ok {
        assert e.packets == [Packet(d.name, to, AckContainer(id))];
        TotalOne(e.packets[0], PacketWork());
      }
    case SendUnpair(data) => UnpairWork(d, data, ok, all);
    case _ => NoWork(e, |all|);
  }

  lemma {:induction false} DeliveryShrinks(n: Network, a: Action)
    requires Enabled(n, a) && a.Deliver? && n.devices[n.air[a.i].dst].name == n.air[a.i].dst
    ensures Work(Apply(n, a)) < Work(n)
  {
    ConsumeWork(n, a);
    OneJobWork(React(n, a), |n.devices|);
    PostWork(Consume(n, a), React(n, a));
  }

  lemma {:induction false} TaskShrinks(n: Network, a: Action)
    requires DevicesInv(n) && Enabled(n, a) && a.Run?
    ensures Work(Apply(n, a)) < Work(n)
  {
    var job := n.queue[a.i];
    var d := n.devices[job.at];
    var e := OnTask(d, job.task, a.ok, a.dropped);
    ConsumeWork(n, a);
    TaskWork(d, job.task, a.ok, a.dropped, n.devices.Keys);
    assert Job(d.name, job.task) == job && e.device.name == d.name;
    PostWork(Consume(n, a), e);
  }

  /** Delivering, losing or handling anything leaves strictly less work, whatever it is. */
  lemma {:induction false} InternalStepsShrink(n: Network, a: Action)
    requires DevicesInv(n) && Enabled(n, a) && Internal(a)
    ensures Work(Apply(n, a)) < Work(n)
  {
    if a.Deliver? {
      DeliveryShrinks(n, a);
    } else if a.Run? {
      TaskShrinks(n, a);
    } else {
      ConsumeWork(n, a);
    }
  }

  /** Discovery and the other calls add no work, but for one note to mark a newly connected device as paired. */
  lemma {:induction false} OtherStepsAddLittle(n: Network, a: Action)
    requires DevicesInv(n) && Enabled(n, a) && !Internal(a) && !Sends(a)
    ensures Work(Apply(n, a)) <= Work(n) + (if a.Change? && a.state == Connected then 1 else 0)
  {
    var e := React(n, a);
    if e.posted == [] {
      NoWork(e, |n.devices|);
    } else {
      OneJobWork(e, |n.devices|);
    }
    PostWork(n, e);
  }

  function IsInternal(): Action -> bool {
    (a: Action) => Internal(a)
  }

  function IsConnect(): Action -> bool {
    (a: Action) => a.Change? && a.state == Connected
  }

  /**
   * From any state the devices can be in, as long as no application sends, the number of packets
   * delivered or lost and tasks run is at most the work there was, plus one for each connection made.
   */
  lemma {:induction false} NoStorm(ns: seq<Network>, acts: seq<Action>)
    requires Steps(ns, acts) && DevicesInv(ns[0])
    requires forall a :: a in acts ==> !Sends(a)
    ensures Count(acts, IsInternal()) + Work(ns[|acts|]) <= Work(ns[0]) + Count(acts, IsConnect())
  {
    if acts == [] {
    } else {
      var k := |acts| - 1;
      assert ns[..k + 1][k] == ns[k];
      NoStorm(ns[..k + 1], acts[..k]);
      RunKeepsDevices(ns, acts, k);
      if Internal(acts[k]) {
        InternalStepsShrink(ns[k], acts[k]);
      } else {
        OtherStepsAddLittle(ns[k], acts[k]);
      }
    }
  }
}
