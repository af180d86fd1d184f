/**
 * Acknowledgements are sound: what the sender q sees acknowledged by p was received at p before,
 * and was sent by q before that. Every message and every acknowledgement is accounted for.
 */
module Acknowledgement {
  import opened Counting
  import opened Options
  import opened PeerState
  import opened PeerInvariants
  import opened PeerNetwork
  import Pairing

  // ----- What belongs to the exchange of messages with this id from q to p -----

  predicate DataOf(packet: Packet, q: string, p: string, id: string) {
    packet.src == q && packet.dst == p && packet.container.id == id && !IsControl(packet.container.kind)
  }

  predicate AckOf(packet: Packet, q: string, p: string, id: string) {
    packet.src == p && packet.dst == q && packet.container.id == id && packet.container.kind == Acknowledge
  }

  function IsSent(q: string, p: string, id: string): Event -> bool {
    (e: Event) => e.Sent? && DataOf(e.packet, q, p, id)
  }

  function IsSynced(q: string, p: string, id: string): Event -> bool {
    (e: Event) => e.Synced? && e.at == p && e.from == q && e.container.id == id
  }

  function IsAcked(q: string, p: string, id: string): Event -> bool {
    (e: Event) => e == Acked(q, p, id)
  }

  function IsDataLost(q: string, p: string, id: string): Event -> bool {
    (e: Event) => e.Dropped? && DataOf(e.packet, q, p, id)
  }

  function IsAckLost(q: string, p: string, id: string): Event -> bool {
    (e: Event) => e.Dropped? && AckOf(e.packet, q, p, id)
  }

  function IsDataPacket(q: string, p: string, id: string): Packet -> bool {
    (x: Packet) => DataOf(x, q, p, id)
  }

  function IsAckPacket(q: string, p: string, id: string): Packet -> bool {
    (x: Packet) => AckOf(x, q, p, id)
  }

  /** A message that has arrived at p but not reached its delegate. */
  function IsDataJob(q: string, p: string, id: string): Job -> bool {
    (j: Job) => j.task.Dispatch? && DataOf(Packet(j.task.from, j.at, j.task.container), q, p, id)
  }

  /** An acknowledgement that p still has to send, or that has arrived at q but not reached its delegate. */
  function IsAckJob(q: string, p: string, id: string): Job -> bool {
    (j: Job) =>
      || j == Job(p, SendAcknowledge(q, id))
      || j == Job(q, HandleAcknowledge(p, id))
      || (j.task.Dispatch? && AckOf(Packet(j.task.from, j.at, j.task.container), q, p, id))
  }

  // ----- Conservation -----

  /** Messages sent, less those received, lost or under way. */
  function DataGap(events: seq<Event>, packets: seq<Packet>, jobs: seq<Job>, q: string, p: string, id: string): int {
    Count(events, IsSent(q, p, id)) - Count(events, IsSynced(q, p, id)) - Count(events, IsDataLost(q, p, id))
    - Count(packets, IsDataPacket(q, p, id)) - Count(jobs, IsDataJob(q, p, id))
  }

  /** Messages received, less acknowledgements received, lost, under way or still to be sent. */
  function AckGap(events: seq<Event>, packets: seq<Packet>, jobs: seq<Job>, q: string, p: string, id: string): int {
    Count(events, IsSynced(q, p, id)) - Count(events, IsAcked(q, p, id)) - Count(events, IsAckLost(q, p, id))
    - Count(packets, IsAckPacket(q, p, id)) - Count(jobs, IsAckJob(q, p, id))
  }

  ghost predicate Balanced(n: Network, q: string, p: string, id: string) {
    && DataGap(n.trace, n.air, n.queue, q, p, id) == 0
    && AckGap(n.trace, n.air, n.queue, q, p, id) == 0
  }

  lemma {:induction false} GapsConcat(e1: seq<Event>, a1: seq<Packet>, j1: seq<Job>, e2: seq<Event>, a2: seq<Packet>,
                                      j2: seq<Job>, q: string, p: string, id: string)
    ensures DataGap(e1 + e2, a1 + a2, j1 + j2, q, p, id)
         == DataGap(e1, a1, j1, q, p, id) + DataGap(e2, a2, j2, q, p, id)
    ensures AckGap(e1 + e2, a1 + a2, j1 + j2, q, p, id)
         == AckGap(e1, a1, j1, q, p, id) + AckGap(e2, a2, j2, q, p, id)
  {
    TotalConcat(e1, e2, Indicator(IsSent(q, p, id)));
    TotalConcat(e1, e2, Indicator(IsSynced(q, p, id)));
    TotalConcat(e1, e2, Indicator(IsAcked(q, p, id)));
    TotalConcat(e1, e2, Indicator(IsDataLost(q, p, id)));
    TotalConcat(e1, e2, Indicator(IsAckLost(q, p, id)));
    TotalConcat(a1, a2, Indicator(IsDataPacket(q, p, id)));
    TotalConcat(a1, a2, Indicator(IsAckPacket(q, p, id)));
    TotalConcat(j1, j2, Indicator(IsDataJob(q, p, id)));
    TotalConcat(j1, j2, Indicator(IsAckJob(q, p, id)));
  }

  /** Taking out one packet or job leaves a gap of its size. */
  lemma {:induction false} GapsConsume(n: Network, a: Action, q: string, p: string, id: string)
    requires Enabled(n, a)
    ensures var m := Consume(n, a);
      && DataGap(m.trace, m.air, m.queue, q, p, id) == DataGap(n.trace, n.air, n.queue, q, p, id)
           + (if a.Drop? || a.Deliver? then One(DataOf(n.air[a.i], q, p, id))
              else if a.Run? then One(IsDataJob(q, p, id)(n.queue[a.i])) else 0)
      && AckGap(m.trace, m.air, m.queue, q, p, id) == AckGap(n.trace, n.air, n.queue, q, p, id)
           + (if a.Drop? || a.Deliver? then One(AckOf(n.air[a.i], q, p, id))
              else if a.Run? then One(IsAckJob(q, p, id)(n.queue[a.i])) else 0)
  {
    if a.Drop? || a.Deliver? {
      TotalRemove(n.air, a.i, Indicator(IsDataPacket(q, p, id)));
      TotalRemove(n.air, a.i, Indicator(IsAckPacket(q, p, id)));
    } else if a.Run? {
      TotalRemove(n.queue, a.i, Indicator(IsDataJob(q, p, id)));
      TotalRemove(n.queue, a.i, Indicator(IsAckJob(q, p, id)));
    }
  }

  /** Events, packets and jobs that have nothing to do with the exchange. */
  ghost predicate Unrelated(events: seq<Event>, packets: seq<Packet>, jobs: seq<Job>, q: string, p: string,
                            id: string) {
    && (forall e :: e in events ==> e.PairSet? || e.Invited?)
    && (forall x :: x in packets ==> !DataOf(x, q, p, id) && !AckOf(x, q, p, id))
    && (forall j :: j in jobs ==> !IsDataJob(q, p, id)(j) && !IsAckJob(q, p, id)(j))
  }

  lemma {:induction false} UnrelatedGaps(events: seq<Event>, packets: seq<Packet>, jobs: seq<Job>, q: string,
                                         p: string, id: string)
    requires Unrelated(events, packets, jobs, q, p, id)
    ensures DataGap(events, packets, jobs, q, p, id) == 0 && AckGap(events, packets, jobs, q, p, id) == 0
  {
    TotalZero(events, Indicator(IsSent(q, p, id)));
    TotalZero(events, Indicator(IsSynced(q, p, id)));
    TotalZero(events, Indicator(IsAcked(q, p, id)));
    TotalZero(events, Indicator(IsDataLost(q, p, id)));
    TotalZero(events, Indicator(IsAckLost(q, p, id)));
    TotalZero(packets, Indicator(IsDataPacket(q, p, id)));
    TotalZero(packets, Indicator(IsAckPacket(q, p, id)));
    TotalZero(jobs, Indicator(IsDataJob(q, p, id)));
    TotalZero(jobs, Indicator(IsAckJob(q, p, id)));
  }

  lemma {:induction false} OneEventGaps(e: Event, q: string, p: string, id: string)
    ensures DataGap([e], [], [], q, p, id)
         == One(IsSent(q, p, id)(e)) - One(IsSynced(q, p, id)(e)) - One(IsDataLost(q, p, id)(e))
    ensures AckGap([e], [], [], q, p, id)
         == One(IsSynced(q, p, id)(e)) - One(IsAcked(q, p, id)(e)) - One(IsAckLost(q, p, id)(e))
  {
    TotalOne(e, Indicator(IsSent(q, p, id)));
    TotalOne(e, Indicator(IsSynced(q, p, id)));
    TotalOne(e, Indicator(IsAcked(q, p, id)));
    TotalOne(e, Indicator(IsDataLost(q, p, id)));
    TotalOne(e, Indicator(IsAckLost(q, p, id)));
  }

  lemma {:induction false} OneJobGaps(j: Job, q: string, p: string, id: string)
    ensures DataGap([], [], [j], q, p, id) == -One(IsDataJob(q, p, id)(j))
    ensures AckGap([], [], [j], q, p, id) == -One(IsAckJob(q, p, id)(j))
  {
    TotalOne(j, Indicator(IsDataJob(q, p, id)));
    TotalOne(j, Indicator(IsAckJob(q, p, id)));
  }

  lemma {:induction false} OnePacketGaps(x: Packet, q: string, p: string, id: string)
    ensures DataGap([], [x], [], q, p, id) == -One(DataOf(x, q, p, id))
    ensures AckGap([], [x], [], q, p, id) == -One(AckOf(x, q, p, id))
  {
    TotalOne(x, Indicator(IsDataPacket(q, p, id)));
    TotalOne(x, Indicator(IsAckPacket(q, p, id)));
  }

  /** Each packet sent by an application is recorded once. */
  lemma {:induction false} SendGaps(packets: seq<Packet>, q: string, p: string, id: string)
    requires forall x :: x in packets ==> !IsControl(x.container.kind)
    ensures DataGap(SentEvents(packets), packets, [], q, p, id) == 0
    ensures AckGap(SentEvents(packets), packets, [], q, p, id) == 0
  {
    if packets == [] {
    } else {
      var front, last := packets[..|packets| - 1], packets[|packets| - 1];
      SendGaps(front, q, p, id);
      OneEventGaps(Sent(last), q, p, id);
      OnePacketGaps(last, q, p, id);
      GapsConcat([Sent(last)], [], [], [], [last], [], q, p, id);
      GapsConcat(SentEvents(front), front, [], [Sent(last)], [last], [], q, p, id);
      assert [Sent(last)] + [] == [Sent(last)] && [] + [last] == [last];
      assert SentEvents(packets) == SentEvents(front) + [Sent(last)];
      assert packets == front + [last];
    }
  }

  /** The gaps of a whole effect. */
  function EffectDataGap(e: Effect, q: string, p: string, id: string): int {
    DataGap(e.events, e.packets, Jobs(e.device.name, e.posted), q, p, id)
  }

  function EffectAckGap(e: Effect, q: string, p: string, id: string): int {
    AckGap(e.events, e.packets, Jobs(e.device.name, e.posted), q, p, id)
  }

  lemma {:induction false} EventAndJobGaps(e: Event, j: Job, q: string, p: string, id: string)
    ensures DataGap([e], [], [j], q, p, id) == DataGap([e], [], [], q, p, id) + DataGap([], [], [j], q, p, id)
    ensures AckGap([e], [], [j], q, p, id) == AckGap([e], [], [], q, p, id) + AckGap([], [], [j], q, p, id)
  {
    GapsConcat([e], [], [], [], [], [j], q, p, id);
    assert [e] + [] == [e] && [] + [j] == [j];
  }

  lemma {:induction false} DispatchGaps(d: Device, from: string, container: Container, q: string, p: string, id: string)
    ensures var e, j := OnTask(d, Dispatch(from, container), true, {}), Job(d.name, Dispatch(from, container));
      && EffectDataGap(e, q, p, id) == -One(IsDataJob(q, p, id)(j))
      && EffectAckGap(e, q, p, id) == -One(IsAckJob(q, p, id)(j))
  {
    var e := OnTask(d, Dispatch(from, container), true, {});
    var jobs := Jobs(d.name, e.posted);
    assert jobs == [Job(d.name, e.posted[0])];
    OneJobGaps(jobs[0], q, p, id);
    if !IsControl(container.kind) {
      OneEventGaps(e.events[0], q, p, id);
      EventAndJobGaps(e.events[0], jobs[0], q, p, id);
    }
  }

  lemma {:induction false} SendAcknowledgeGaps(d: Device, to: string, id': string, ok: bool, q: string, p: string,
                                               id: string)
    requires to in d.connected && DistinctNames(d.connected)
    ensures var e, j := OnTask(d, SendAcknowledge(to, id'), ok, {}), Job(d.name, SendAcknowledge(to, id'));
      && EffectDataGap(e, q, p, id) == -One(IsDataJob(q, p, id)(j))
      && EffectAckGap(e, q, p, id) == -One(IsAckJob(q, p, id)(j))
  {
    var e := OnTask(d, SendAcknowledge(to, id'), ok, {});
    OnlyNamedOnce(d.connected, to);
    var packet := Packet(d.name, to, AckContainer(id'));
    assert AckOf(packet, q, p, id) <==> Job(d.name, SendAcknowledge(to, id')) == Job(p, SendAcknowledge(q, id));
    assert Jobs(d.name, e.posted) == [];
    if ok {
      assert e.packets == [packet];
      OnePacketGaps(packet, q, p, id);
    } else {
      assert e.events == [Dropped(packet)];
      OneEventGaps(Dropped(packet), q, p, id);
    }
  }

  lemma {:induction false} HandleAcknowledgeGaps(d: Device, from: string, id': string, q: string, p: string, id: string)
    ensures var e, j := OnTask(d, HandleAcknowledge(from, id'), true, {}), Job(d.name, HandleAcknowledge(from, id'));
      && EffectDataGap(e, q, p, id) == -One(IsDataJob(q, p, id)(j))
      && EffectAckGap(e, q, p, id) == -One(IsAckJob(q, p, id)(j))
  {
    OneEventGaps(Acked(d.name, from, id'), q, p, id);
    assert Jobs(d.name, OnTask(d, HandleAcknowledge(from, id'), true, {}).posted) == [];
  }

  /** The remaining tasks concern no message and no acknowledgement. */
  lemma {:induction false} OtherTaskGaps(d: Device, task: Task, ok: bool, dropped: set<string>, q: string, p: string,
                                         id: string)
    requires !task.Dispatch? && !task.SendAcknowledge? && !task.HandleAcknowledge?
    ensures EffectDataGap(OnTask(d, task, ok, dropped), q, p, id) == 0
    ensures EffectAckGap(OnTask(d, task, ok, dropped), q, p, id) == 0
  {
    var e := OnTask(d, task, ok, dropped);
    UnrelatedGaps(e.events, e.packets, Jobs(d.name, e.posted), q, p, id);
  }

  /** A task puts back exactly what it took out. */
  lemma {:induction false} TaskGaps(d: Device, task: Task, ok: bool, dropped: set<string>, q: string, p: string,
                                    id: string)
    requires CanRun(d, task) && DistinctNames(d.connected)
    ensures EffectDataGap(OnTask(d, task, ok, dropped), q, p, id) == -One(IsDataJob(q, p, id)(Job(d.name, task)))
    ensures EffectAckGap(OnTask(d, task, ok, dropped), q, p, id) == -One(IsAckJob(q, p, id)(Job(d.name, task)))
  {
    match task
    case Dispatch(from, container) => DispatchGaps(d, from, container, q, p, id);
    case SendAcknowledge(to, id') => SendAcknowledgeGaps(d, to, id', ok, q, p, id);
    case HandleAcknowledge(from, id') => HandleAcknowledgeGaps(d, from, id', q, p, id);
    case _ => OtherTaskGaps(d, task, ok, dropped, q, p, id);
  }

  lemma {:induction false} ReceiveGaps(d: Device, from: string, container: Container, q: string, p: string, id: string)
    ensures var e := OnReceive(d, from, container);
      && EffectDataGap(e, q, p, id) == -One(DataOf(Packet(from, d.name, container), q, p, id))
      && EffectAckGap(e, q, p, id) == -One(AckOf(Packet(from, d.name, container), q, p, id))
  {
    var j := Job(d.name, Dispatch(from, container));
    assert Jobs(d.name, OnReceive(d, from, container).posted) == [j];
    OneJobGaps(j, q, p, id);
  }

  /** Reactions to anything but a packet, a task or a send concern no message. */
  lemma {:induction false} OtherGaps(n: Network, a: Action, q: string, p: string, id: string)
    requires Enabled(n, a) && !a.Drop? && !a.Deliver? && !a.Run? && !a.Send?
    ensures EffectDataGap(React(n, a), q, p, id) == 0 && EffectAckGap(React(n, a), q, p, id) == 0
  {
    var e := React(n, a);
    if a.UnPair? {
      var d := n.devices[a.at];
      Pairing.ClearEventsRecord(d.name, d.table, ConnectedNames(d.nearby), "");
    }
    UnrelatedGaps(e.events, e.packets, Jobs(e.device.name, e.posted), q, p, id);
  }

  /** What the reaction adds makes up for what the action took out. */
  lemma {:induction false} ReactGaps(n: Network, a: Action, q: string, p: string, id: string)
    requires DevicesInv(n) && Enabled(n, a) && !a.Drop?
    ensures EffectDataGap(React(n, a), q, p, id)
         == -(if a.Deliver? then One(DataOf(n.air[a.i], q, p, id))
              else if a.Run? then One(IsDataJob(q, p, id)(n.queue[a.i])) else 0)
    ensures EffectAckGap(React(n, a), q, p, id)
         == -(if a.Deliver? then One(AckOf(n.air[a.i], q, p, id))
              else if a.Run? then One(IsAckJob(q, p, id)(n.queue[a.i])) else 0)
  {
    if a.Deliver? {
      ReceiveGaps(n.devices[n.air[a.i].dst], n.air[a.i].src, n.air[a.i].container, q, p, id);
    } else if a.Run? {
      TaskGaps(n.devices[n.queue[a.i].at], n.queue[a.i].task, a.ok, a.dropped, q, p, id);
    } else if a.Send? {
      SendGaps(React(n, a).packets, q, p, id);
      assert Jobs(a.at, []) == [];
    } else {
      OtherGaps(n, a, q, p, id);
    }
  }

  lemma {:induction false} DropKeepsBalance(n: Network, a: Action, q: string, p: string, id: string)
    requires Enabled(n, a) && a.Drop? && Balanced(n, q, p, id)
    ensures Balanced(Apply(n, a), q, p, id)
  {
    var m := Consume(n, a);
    GapsConsume(n, a, q, p, id);
    OneEventGaps(Dropped(n.air[a.i]), q, p, id);
    GapsConcat(n.trace, m.air, m.queue, [Dropped(n.air[a.i])], [], [], q, p, id);
    assert m.air + [] == m.air && m.queue + [] == m.queue;
  }

  lemma {:induction false} StepKeepsBalance(n: Network, a: Action, q: string, p: string, id: string)
    requires DevicesInv(n) && Enabled(n, a) && Balanced(n, q, p, id)
    ensures Balanced(Apply(n, a), q, p, id)
  {
    if a.Drop? {
      DropKeepsBalance(n, a, q, p, id);
    } else {
      var m, e := Consume(n, a), React(n, a);
      GapsConsume(n, a, q, p, id);
      ReactGaps(n, a, q, p, id);
      GapsConcat(m.trace, m.air, m.queue, e.events, e.packets, Jobs(e.device.name, e.posted), q, p, id);
    }
  }

  /**
   * Conservation in every reachable state: each message sent from q to p was received, lost or is
   * under way, and each message received led to exactly one acknowledgement, which was received, was
   * lost, or is under way.
   */
  lemma {:induction false} Conservation(ns: seq<Network>, acts: seq<Action>, i: nat, q: string, p: string, id: string)
    requires IsRun(ns, acts) && i < |ns|
    ensures Balanced(ns[i], q, p, id)
  {
    InitialDevices(ns[0]);
    if i == 0 {
    } else {
      Conservation(ns, acts, i - 1, q, p, id);
      RunKeepsDevices(ns, acts, i - 1);
      StepKeepsBalance(ns[i - 1], acts[i - 1], q, p, id);
    }
  }

  /** When nothing is under way and nothing was lost, every message sent has been acknowledged. */
  lemma {:induction false} QuietMeansAcknowledged(ns: seq<Network>, acts: seq<Action>, i: nat, q: string, p: string,
                                                  id: string)
    requires IsRun(ns, acts) && i < |ns|
    requires ns[i].air == [] && ns[i].queue == []
    requires forall e :: e in ns[i].trace ==> !e.Dropped?
    ensures Count(ns[i].trace, IsAcked(q, p, id)) == Count(ns[i].trace, IsSent(q, p, id))
  {
    Conservation(ns, acts, i, q, p, id);
    TotalZero(ns[i].trace, Indicator(IsDataLost(q, p, id)));
    TotalZero(ns[i].trace, Indicator(IsAckLost(q, p, id)));
  }

  // ----- Matching acknowledgements with what they acknowledge -----

  ghost predicate Dominated(events: seq<Event>, q: string, p: string, id: string) {
    Count(events, IsAcked(q, p, id)) <= Count(events, IsSynced(q, p, id)) <= Count(events, IsSent(q, p, id))
  }

  /** At any moment of the trace so far, acknowledgements do not exceed receptions, nor receptions sendings. */
  ghost predicate AlwaysDominated(trace: seq<Event>, q: string, p: string, id: string) {
    forall k :: 0 <= k <= |trace| ==> Dominated(trace[..k], q, p, id)
  }

  /** One step's events are all sendings, or all table events, or there is just one of them. */
  lemma {:induction false} StepEvents(n: Network, a: Action)
    requires DevicesInv(n) && Enabled(n, a)
    ensures n.trace <= Apply(n, a).trace
    ensures var events := Apply(n, a).trace[|n.trace|..];
      |events| <= 1 || forall e :: e in events ==> e.Sent? || e.PairSet?
  {
    if a.Drop? {
      assert Apply(n, a).trace[|n.trace|..] == [Dropped(n.air[a.i])];
    } else {
      var e := React(n, a);
      assert Apply(n, a).trace[|n.trace|..] == e.events;
      if a.UnPair? {
        var d := n.devices[a.at];
        Pairing.ClearEventsRecord(d.name, d.table, ConnectedNames(d.nearby), "");
      } else if a.Run? && n.queue[a.i].task.SendAcknowledge? {
        OnlyNamedOnce(n.devices[n.queue[a.i].at].connected, n.queue[a.i].task.to);
      }
    }
  }

  lemma {:induction false} QuietEventsDominated(events: seq<Event>, more: seq<Event>, q: string, p: string, id: string)
    requires Dominated(events, q, p, id)
    requires forall e :: e in more ==> e.Sent? || e.PairSet?
    ensures Dominated(events + more, q, p, id)
  {
    TotalConcat(events, more, Indicator(IsSent(q, p, id)));
    TotalConcat(events, more, Indicator(IsSynced(q, p, id)));
    TotalConcat(events, more, Indicator(IsAcked(q, p, id)));
    TotalZero(more, Indicator(IsSynced(q, p, id)));
    TotalZero(more, Indicator(IsAcked(q, p, id)));
  }

  lemma {:induction false} ExtendDominated(trace: seq<Event>, more: seq<Event>, q: string, p: string, id: string)
    requires AlwaysDominated(trace, q, p, id) && Dominated(trace + more, q, p, id)
    requires |more| <= 1 || forall e :: e in more ==> e.Sent? || e.PairSet?
    ensures AlwaysDominated(trace + more, q, p, id)
  {
    var all := trace + more;
    forall k | 0 <= k <= |all| ensures Dominated(all[..k], q, p, id) {
      if k <= |trace| {
        assert all[..k] == trace[..k];
      } else if k == |all| {
        assert all[..k] == all;
      } else {
        assert trace[..|trace|] == trace;
        QuietEventsDominated(trace, more[..k - |trace|], q, p, id);
        assert all[..k] == trace + more[..k - |trace|];
      }
    }
  }

  lemma {:induction false} RunDominated(ns: seq<Network>, acts: seq<Action>, i: nat, q: string, p: string, id: string)
    requires IsRun(ns, acts) && i < |ns|
    ensures AlwaysDominated(ns[i].trace, q, p, id)
  {
    InitialDevices(ns[0]);
    if i == 0 {
    } else {
      var n, a := ns[i - 1], acts[i - 1];
      RunDominated(ns, acts, i - 1, q, p, id);
      RunKeepsDevices(ns, acts, i - 1);
      StepEvents(n, a);
      Conservation(ns, acts, i, q, p, id);
      var more := ns[i].trace[|n.trace|..];
      assert ns[i].trace == n.trace + more;
      ExtendDominated(n.trace, more, q, p, id);
    }
  }

  /** The reception that the acknowledgement at position i answers: the first answers the first, and so on. */
  function SyncFor(trace: seq<Event>, i: nat): Option<nat>
    requires i < |trace| && trace[i].Acked?
  {
    var e := trace[i];
    var k := Count(trace[..i], IsAcked(e.at, e.from, e.id));
    if k < Count(trace, IsSynced(e.at, e.from, e.id)) then Some(Nth(trace, IsSynced(e.at, e.from, e.id), k)) else None
  }

  /** The sending that the reception at position i comes from. */
  function SendFor(trace: seq<Event>, i: nat): Option<nat>
    requires i < |trace| && trace[i].Synced?
  {
    var e := trace[i];
    var k := Count(trace[..i], IsSynced(e.from, e.at, e.container.id));
    if k < Count(trace, IsSent(e.from, e.at, e.container.id))
    then Some(Nth(trace, IsSent(e.from, e.at, e.container.id), k)) else None
  }

  /** Each acknowledgement answers an earlier reception of its message, at the device it came from. */
  lemma {:induction false} EveryAckHasSync(ns: seq<Network>, acts: seq<Action>, i: nat, k: nat)
    requires IsRun(ns, acts) && i < |ns|
    requires k < |ns[i].trace| && ns[i].trace[k].Acked?
    ensures var trace := ns[i].trace; var e := trace[k];
      && SyncFor(trace, k).Some?
      && var j := SyncFor(trace, k).value;
         j < k && IsSynced(e.at, e.from, e.id)(trace[j])
  {
    var trace := ns[i].trace;
    var e := trace[k];
    RunDominated(ns, acts, i, e.at, e.from, e.id);
    assert Dominated(trace[..k + 1], e.at, e.from, e.id);
    KthPrecedes(trace, k, IsAcked(e.at, e.from, e.id), IsSynced(e.at, e.from, e.id));
  }

  /** Each reception comes from an earlier sending of that message, by the device it names. */
  lemma {:induction false} EverySyncHasSend(ns: seq<Network>, acts: seq<Action>, i: nat, k: nat)
    requires IsRun(ns, acts) && i < |ns|
    requires k < |ns[i].trace| && ns[i].trace[k].Synced?
    ensures var trace := ns[i].trace; var e := trace[k];
      && SendFor(trace, k).Some?
      && var j := SendFor(trace, k).value;
         j < k && IsSent(e.from, e.at, e.container.id)(trace[j])
  {
    var trace := ns[i].trace;
    var e := trace[k];
    RunDominated(ns, acts, i, e.from, e.at, e.container.id);
    assert Dominated(trace[..k + 1], e.from, e.at, e.container.id);
    KthPrecedes(trace, k, IsSynced(e.from, e.at, e.container.id), IsSent(e.from, e.at, e.container.id));
  }

  /** Two positions of one kind have different ranks, hence different partners. */
  lemma {:induction false} DistinctRanks<T>(s: seq<T>, i: nat, j: nat, f: T -> bool, g: T -> bool)
    requires i < j < |s| && f(s[i])
    requires Count(s[..i], f) < Count(s, g) && Count(s[..j], f) < Count(s, g)
    ensures Nth(s, g, Count(s[..i], f)) != Nth(s, g, Count(s[..j], f))
  {
    CountPrefix(s, i, j, f);
  }

  /** Two acknowledgements never answer the same reception. */
  lemma {:induction false} AcksAnswerDistinctSyncs(trace: seq<Event>, i: nat, j: nat)
    requires i < j < |trace| && trace[i].Acked? && trace[j].Acked?
    requires SyncFor(trace, i).Some? && SyncFor(trace, j).Some?
    ensures SyncFor(trace, i) != SyncFor(trace, j)
  {
    var e := trace[i];
    if trace[j] == e {
      DistinctRanks(trace, i, j, IsAcked(e.at, e.from, e.id), IsSynced(e.at, e.from, e.id));
    }
  }

  /** Two receptions never come from the same sending. */
  lemma {:induction false} SyncsComeFromDistinctSends(trace: seq<Event>, i: nat, j: nat)
    requires i < j < |trace| && trace[i].Synced? && trace[j].Synced?
    requires SendFor(trace, i).Some? && SendFor(trace, j).Some?
    ensures SendFor(trace, i) != SendFor(trace, j)
  {
    var e, e' := trace[i], trace[j];
    if e.from == e'.from && e.at == e'.at && e.container.id == e'.container.id {
      DistinctRanks(trace, i, j, IsSynced(e.from, e.at, e.container.id), IsSent(e.from, e.at, e.container.id));
    }
  }

  /** The acknowledgement at k goes back, through a reception, to a sending by the device that sees it. */
  ghost predicate Justified(trace: seq<Event>, k: nat)
    requires k < |trace| && trace[k].Acked?
  {
    && SyncFor(trace, k).Some?
    && var j, e := SyncFor(trace, k).value, trace[k];
       && j < k && trace[j].Synced? && trace[j].at == e.from && trace[j].from == e.at && trace[j].container.id == e.id
       && SendFor(trace, j).Some?
       && var h := SendFor(trace, j).value;
          h < j && trace[h].Sent? && DataOf(trace[h].packet, e.at, e.from, e.id)
  }

  /**
   * Acknowledgements are sound in every run: each goes back to an earlier reception at the device it
   * comes from and, through that, to an earlier sending by the device that sees it.
   */
  lemma {:induction false} AcknowledgementIsSound(ns: seq<Network>, acts: seq<Action>, i: nat, k: nat)
    requires IsRun(ns, acts) && i < |ns|
    requires k < |ns[i].trace| && ns[i].trace[k].Acked?
    ensures Justified(ns[i].trace, k)
  {
    EveryAckHasSync(ns, acts, i, k);
    EverySyncHasSend(ns, acts, i, SyncFor(ns[i].trace, k).value);
  }

  lemma {:induction false} JustifiedApart(trace: seq<Event>, k: nat, l: nat)
    requires k < l < |trace| && trace[k].Acked? && trace[l].Acked?
    requires Justified(trace, k) && Justified(trace, l)
    ensures SyncFor(trace, k) != SyncFor(trace, l)
    ensures SendFor(trace, SyncFor(trace, k).value) != SendFor(trace, SyncFor(trace, l).value)
  {
    AcksAnswerDistinctSyncs(trace, k, l);
    var first, second := SyncFor(trace, k).value, SyncFor(trace, l).value;
    if first < second {
      SyncsComeFromDistinctSends(trace, first, second);
    } else {
      SyncsComeFromDistinctSends(trace, second, first);
    }
  }

  /** The matching is one-to-one: no reception and no sending is acknowledged twice. */
  lemma {:induction false} AcknowledgementsAreApart(ns: seq<Network>, acts: seq<Action>, i: nat, k: nat, l: nat)
    requires IsRun(ns, acts) && i < |ns|
    requires k < l < |ns[i].trace| && ns[i].trace[k].Acked? && ns[i].trace[l].Acked?
    ensures var trace := ns[i].trace;
      && Justified(trace, k) && Justified(trace, l)
      && SyncFor(trace, k) != SyncFor(trace, l)
      && SendFor(trace, SyncFor(trace, k).value) != SendFor(trace, SyncFor(trace, l).value)
  {
    AcknowledgementIsSound(ns, acts, i, k);
    AcknowledgementIsSound(ns, acts, i, l);
    JustifiedApart(ns[i].trace, k, l);
  }
}
