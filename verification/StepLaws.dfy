/**
 * What one step of the network leaves behind, told from its outcome: for each task, packet and event,
 * the one cause that makes it appear, and for each device, what it holds afterwards about each name.
 */
module StepLaws {
  import opened Counting
  import opened Options
  import opened PeerState
  import opened PeerInvariants
  import opened PeerNetwork
  import opened Pairing

  ghost function Times<T>(s: seq<T>, x: T): nat {
    multiset(s)[x]
  }

  lemma {:induction false} TimesRemove<T>(s: seq<T>, i: nat, x: T)
    requires i < |s|
    ensures Times(RemoveAt(s, i), x) == Times(s, x) - One(s[i] == x)
  {
    assert s == s[..i] + [s[i]] + s[i + 1..];
  }

  lemma {:induction false} TimesOne<T>(x: T, y: T)
    ensures Times([x], y) == One(x == y)
  {
  }

  // ----- Tasks -----

  /** The task that this step takes off a main queue. */
  predicate Runs(n: Network, a: Action, j: Job)
    requires Enabled(n, a)
  {
    a.Run? && n.queue[a.i] == j
  }

  /** This step dispatches a message that has arrived at this device from that one. */
  predicate Dispatches(n: Network, a: Action, at: string, from: string)
    requires Enabled(n, a)
  {
    a.Run? && n.queue[a.i].at == at && n.queue[a.i].task.Dispatch? && n.queue[a.i].task.from == from
  }

  /** The one cause of each task. */
  predicate Asks(n: Network, a: Action, j: Job)
    requires Enabled(n, a)
  {
    match j.task
    case MarkPaired(name) => a == Change(j.at, name, Connected) && n.devices[j.at].needsPairing
    case SendUnpair(data) => a == UnPair(j.at) && data == "false"
    case Dispatch(from, container) => a.Deliver? && n.air[a.i] == Packet(from, j.at, container)
    case HandleUnpair(from) =>
      Dispatches(n, a, j.at, from) && n.queue[a.i].task.container.kind.Unpair?
    case HandleAcknowledge(from, id) =>
      Dispatches(n, a, j.at, from) && n.queue[a.i].task.container.kind.Acknowledge?
      && n.queue[a.i].task.container.id == id
    case SendAcknowledge(to, id) =>
      Dispatches(n, a, j.at, to) && !IsControl(n.queue[a.i].task.container.kind)
      && n.queue[a.i].task.container.id == id
    case DisconnectLater => a.Run? && a.ok && n.queue[a.i].at == j.at && n.queue[a.i].task.SendUnpair?
  }

  lemma {:induction false} PostedOnce(at: string, posted: seq<Task>, j: Job)
    requires |posted| <= 1
    ensures Times(Jobs(at, posted), j) == One(j.at == at && posted == [j.task])
  {
    if posted == [] {
      assert Jobs(at, posted) == [];
    } else {
      assert Jobs(at, posted) == [Job(at, posted[0])];
      assert j.at == at && posted == [j.task] <==> Job(at, posted[0]) == j;
    }
  }

  lemma {:induction false} TaskPosts(n: Network, a: Action, j: Job)
    requires DevicesInv(n) && Enabled(n, a) && a.Run?
    ensures |React(n, a).posted| <= 1 && React(n, a).device.name == n.queue[a.i].at
    ensures j.at == n.queue[a.i].at && React(n, a).posted == [j.task] <==> Asks(n, a, j)
  {
  }

  lemma {:induction false} OtherPosts(n: Network, a: Action, j: Job)
    requires DevicesInv(n) && Enabled(n, a) && !a.Drop? && !a.Run?
    ensures |React(n, a).posted| <= 1
    ensures j.at == React(n, a).device.name && React(n, a).posted == [j.task] <==> Asks(n, a, j)
  {
    match a
    case Change(at, name, state) =>
      assert React(n, a) == OnChange(n.devices[at], name, state) && n.devices[at].name == at;
    case UnPair(at) =>
      assert React(n, a) == OnUnPair(n.devices[at]) && n.devices[at].name == at;
    case Deliver(i) =>
      var x := n.air[i];
      assert React(n, a) == OnReceive(n.devices[x.dst], x.src, x.container) && n.devices[x.dst].name == x.dst;
    case _ => PostsNothing(n, a, j);
  }

  lemma {:induction false} PostsNothing(n: Network, a: Action, j: Job)
    requires Enabled(n, a) && !a.Drop? && !a.Run? && !a.Change? && !a.UnPair? && !a.Deliver?
    ensures React(n, a).posted == [] && !Asks(n, a, j)
  {
  }

  /** A step posts at most one task, and that is the one it asks for. */
  lemma {:induction false} PostedIsAsked(n: Network, a: Action, j: Job)
    requires DevicesInv(n) && Enabled(n, a) && !a.Drop?
    ensures Times(Jobs(React(n, a).device.name, React(n, a).posted), j) == One(Asks(n, a, j))
  {
    if a.Run? {
      TaskPosts(n, a, j);
    } else {
      OtherPosts(n, a, j);
    }
    PostedOnce(React(n, a).device.name, React(n, a).posted, j);
  }

  /** Each task is on its queue once more for each step that asks for it, and once less when it is run. */
  lemma {:induction false} TaskCauses(n: Network, a: Action, j: Job)
    requires DevicesInv(n) && Enabled(n, a)
    ensures Times(Apply(n, a).queue, j) == Times(n.queue, j) + One(Asks(n, a, j)) - One(Runs(n, a, j))
  {
    if a.Run? {
      TimesRemove(n.queue, a.i, j);
    }
    if !a.Drop? {
      PostedIsAsked(n, a, j);
    }
  }

  // ----- Packets -----

  /** An application's call that sends this packet. */
  predicate SendsData(n: Network, a: Action, x: Packet)
    requires Enabled(n, a)
  {
    && a.Send? && a.ok && a.at == x.src
    && x.container == Container(a.data, a.kind, a.id)
    && IsConnected(n.devices[a.at]) && x.dst in n.devices[a.at].connected
    && (a.to.None? || a.to.value == x.dst)
  }

  /** The task whose run, if the framework accepts or refuses its message, is about this packet. */
  predicate RunsControl(n: Network, a: Action, x: Packet, ok: bool)
    requires Enabled(n, a)
  {
    && a.Run? && a.ok == ok && n.queue[a.i].at == x.src
    && var task := n.queue[a.i].task;
       || (task == SendAcknowledge(x.dst, x.container.id)
           && x.container.data == "Acknowledged" && x.container.kind == Acknowledge)
       || (task.SendUnpair? && ok && x.container == Container(task.data, Unpair, x.src)
           && x.dst in n.devices[x.src].connected)
  }

  /** The one cause of each packet. */
  predicate Puts(n: Network, a: Action, x: Packet)
    requires Enabled(n, a)
  {
    SendsData(n, a, x) || RunsControl(n, a, x, true)
  }

  /** This step takes the packet out of the air. */
  predicate Takes(n: Network, a: Action, x: Packet)
    requires Enabled(n, a)
  {
    (a.Drop? || a.Deliver?) && n.air[a.i] == x
  }

  lemma {:induction false} TimesDistinct(names: seq<string>, x: string)
    requires DistinctNames(names)
    ensures Times(names, x) == One(x in names)
  {
    if names == [] {
    } else {
      assert names == [names[0]] + names[1..];
      TimesDistinct(names[1..], x);
    }
  }

  /** One packet for each recipient. */
  lemma {:induction false} PacketsOnce(src: string, names: seq<string>, container: Container, x: Packet)
    requires DistinctNames(names)
    ensures Times(PacketsTo(src, names, container), x)
         == One(x.src == src && x.container == container && x.dst in names)
  {
    if names == [] {
      assert PacketsTo(src, names, container) == [];
    } else {
      var first := Packet(src, names[0], container);
      assert PacketsTo(src, names, container) == [first] + PacketsTo(src, names[1..], container);
      PacketsOnce(src, names[1..], container, x);
    }
  }

  /**
   * A call sends a packet exactly if the framework accepts the message and some nearby device is
   * connected, the packet carries the message in the device's own name, and it goes to a peer of the
   * session, the one named if one is named; and it sends it once.
   */
  lemma {:induction false} SendsExactly(d: Device, data: string, kind: Type, id: string, to: Option<string>, ok: bool,
                                        x: Packet)
    requires !IsControl(kind) && DistinctNames(d.connected)
    ensures Times(OnSend(d, data, kind, id, to, ok).packets, x)
         == One(ok && IsConnected(d) && x.src == d.name && x.container == Container(data, kind, id)
                && x.dst in d.connected && (to.None? || x.dst == to.value))
  {
    if IsConnected(d) && ok {
      if to.Some? {
        OnlyNamedOnce(d.connected, to.value);
      }
      PacketsOnce(d.name, Recipients(d, to), Container(data, kind, id), x);
    }
  }

  lemma {:induction false} SendPuts(n: Network, a: Action, x: Packet)
    requires DevicesInv(n) && Enabled(n, a) && a.Send?
    ensures Times(React(n, a).packets, x) == One(Puts(n, a, x))
  {
    SendsExactly(n.devices[a.at], a.data, a.kind, a.id, a.to, a.ok, x);
  }

  lemma {:induction false} RunPuts(n: Network, a: Action, x: Packet)
    requires DevicesInv(n) && Enabled(n, a) && a.Run?
    ensures Times(React(n, a).packets, x) == One(Puts(n, a, x))
  {
    var d, task := n.devices[n.queue[a.i].at], n.queue[a.i].task;
    match task
    case SendAcknowledge(to, id) =>
      OnlyNamedOnce(d.connected, to);
      PacketsOnce(d.name, [to], AckContainer(id), x);
    case SendUnpair(data) => PacketsOnce(d.name, d.connected, Container(data, Unpair, d.name), x);
    case _ =>
  }

  lemma {:induction false} NoPackets(n: Network, a: Action)
    requires Enabled(n, a) && !a.Drop? && !a.Send? && !a.Run?
    ensures React(n, a).packets == []
  {
  }

  /** Each packet is in the air once more for each step that sends it, and once less when it is delivered or lost. */
  lemma {:induction false} PacketCauses(n: Network, a: Action, x: Packet)
    requires DevicesInv(n) && Enabled(n, a)
    ensures Times(Apply(n, a).air, x) == Times(n.air, x) + One(Puts(n, a, x)) - One(Takes(n, a, x))
  {
    if a.Drop? || a.Deliver? {
      TimesRemove(n.air, a.i, x);
    }
    if a.Send? {
      SendPuts(n, a, x);
    } else if a.Run? {
      RunPuts(n, a, x);
    } else if !a.Drop? {
      NoPackets(n, a);
    }
  }

  // ----- Events -----

  /** The one cause of each event. */
  ghost predicate Reports(n: Network, a: Action, e: Event)
    requires Enabled(n, a)
  {
    match e
    case Sent(x) => SendsData(n, a, x)
    case Dropped(x) => (a.Drop? && n.air[a.i] == x) || RunsControl(n, a, x, false)
    case Synced(at, from, container) => Runs(n, a, Job(at, Dispatch(from, container))) && !IsControl(container.kind)
    case Acked(at, from, id) => Runs(n, a, Job(at, HandleAcknowledge(from, id)))
    case Invited(at, name, restricted) =>
      && a == Found(at, name) && restricted == n.devices[at].needsPairing
      && (restricted ==> IsPaired(n.devices[at].table, name))
    case PairSet(at, name, flag) =>
      && at in n.devices && HasRow(n.devices[at].table, name)
      && if flag then Runs(n, a, Job(at, MarkPaired(name))) else SwitchesOff(n, a, at, name)
  }

  /** An unpair message from this name is handled, or the device unpairs while connected to it. */
  ghost predicate SwitchesOff(n: Network, a: Action, at: string, name: string)
    requires Enabled(n, a) && at in n.devices
  {
    || Runs(n, a, Job(at, HandleUnpair(name)))
    || (a == UnPair(at) && name in NamesIn(n.devices[at].nearby, Connected))
  }

  lemma {:induction false} SentStep(packets: seq<Packet>)
    requires packets != []
    ensures SentEvents(packets) == [Sent(packets[0])] + SentEvents(packets[1..])
  {
  }

  lemma {:induction false} TimesStep<T>(s: seq<T>, x: T)
    requires s != []
    ensures Times(s, x) == One(s[0] == x) + Times(s[1..], x)
  {
    assert s == [s[0]] + s[1..];
  }

  lemma {:induction false} SentOnce(packets: seq<Packet>, e: Event)
    ensures Times(SentEvents(packets), e) == if e.Sent? then Times(packets, e.packet) else 0
  {
    if packets == [] {
      assert SentEvents(packets) == [];
    } else {
      SentOnce(packets[1..], e);
      SentStep(packets);
      TimesStep(SentEvents(packets), e);
      if e.Sent? {
        TimesStep(packets, e.packet);
      }
    }
  }

  lemma {:induction false} ConnectedNamesDistinct(peers: seq<Peer>)
    requires DistinctPeers(peers)
    ensures DistinctNames(ConnectedNames(peers))
  {
    if peers == [] {
    } else {
      ConnectedNamesDistinct(peers[1..]);
      var rest := ConnectedNames(peers[1..]);
      forall j | 0 <= j < |rest| ensures rest[j] != peers[0].name {
        assert rest[j] in rest;
        ConnectedNamesExact(peers[1..], rest[j]);
        var i :| 0 <= i < |peers[1..]| && peers[1..][i].name == rest[j];
        assert peers[i + 1].name == rest[j];
      }
    }
  }

  /** Switching off reports each known name once. */
  lemma {:induction false} ClearedOnce(at: string, table: seq<Row>, names: seq<string>, e: Event)
    requires DistinctNames(names)
    ensures Times(ClearEvents(at, table, names), e)
         == One(e.PairSet? && e.at == at && !e.flag && e.name in names && HasRow(table, e.name))
    decreases |names|
  {
    if names == [] {
    } else {
      var table' := SetPaired(table, names[0], false);
      ClearedOnce(at, table', names[1..], e);
      if e.PairSet? {
        SetPairedLookup(table, names[0], false, e.name);
      }
      assert names == [names[0]] + names[1..];
    }
  }

  lemma {:induction false} UnPairReports(n: Network, a: Action, e: Event)
    requires DevicesInv(n) && Enabled(n, a) && a.UnPair?
    ensures Times(React(n, a).events, e) == One(Reports(n, a, e))
  {
    var d := n.devices[a.at];
    ConnectedNamesDistinct(d.nearby);
    ClearedOnce(d.name, d.table, ConnectedNames(d.nearby), e);
    if e.PairSet? {
      ConnectedNamesExact(d.nearby, e.name);
    }
  }

  lemma {:induction false} SendReports(n: Network, a: Action, e: Event)
    requires DevicesInv(n) && Enabled(n, a) && a.Send?
    ensures Times(React(n, a).events, e) == One(Reports(n, a, e))
  {
    SentOnce(React(n, a).packets, e);
    if e.Sent? {
      SendPuts(n, a, e.packet);
    }
  }

  lemma {:induction false} TimesShort<T>(s: seq<T>, x: T)
    requires |s| <= 1
    ensures Times(s, x) == One(s == [x])
  {
    if s == [] {
    } else {
      assert s == [s[0]];
    }
  }

  lemma {:induction false} AcknowledgeReports(n: Network, a: Action, e: Event)
    requires DevicesInv(n) && Enabled(n, a) && a.Run? && n.queue[a.i].task.SendAcknowledge?
    ensures |React(n, a).events| <= 1 && (React(n, a).events == [e] <==> Reports(n, a, e))
  {
    var d, task := n.devices[n.queue[a.i].at], n.queue[a.i].task;
    OnlyNamedOnce(d.connected, task.to);
    if a.ok {
      assert React(n, a).events == [];
    } else {
      assert React(n, a).events == [Dropped(Packet(d.name, task.to, AckContainer(task.id)))];
    }
  }

  lemma {:induction false} FlagReports(n: Network, a: Action, e: Event)
    requires DevicesInv(n) && Enabled(n, a) && a.Run?
    requires n.queue[a.i].task.HandleUnpair? || n.queue[a.i].task.MarkPaired?
    ensures |React(n, a).events| <= 1 && (React(n, a).events == [e] <==> Reports(n, a, e))
  {
  }

  lemma {:induction false} OtherTaskReports(n: Network, a: Action, e: Event)
    requires DevicesInv(n) && Enabled(n, a) && a.Run?
    requires var task := n.queue[a.i].task;
      !task.SendAcknowledge? && !task.HandleUnpair? && !task.MarkPaired?
    ensures |React(n, a).events| <= 1 && (React(n, a).events == [e] <==> Reports(n, a, e))
  {
  }

  lemma {:induction false} RunReports(n: Network, a: Action, e: Event)
    requires DevicesInv(n) && Enabled(n, a) && a.Run?
    ensures Times(React(n, a).events, e) == One(Reports(n, a, e))
  {
    match n.queue[a.i].task
    case SendAcknowledge(_, _) => AcknowledgeReports(n, a, e);
    case HandleUnpair(_) => FlagReports(n, a, e);
    case MarkPaired(_) => FlagReports(n, a, e);
    case _ => OtherTaskReports(n, a, e);
    TimesShort(React(n, a).events, e);
  }

  lemma {:induction false} OtherReports(n: Network, a: Action, e: Event)
    requires DevicesInv(n) && Enabled(n, a) && !a.Drop? && !a.Run? && !a.Send? && !a.UnPair?
    ensures Times(React(n, a).events, e) == One(Reports(n, a, e))
  {
    TimesShort(React(n, a).events, e);
  }

  lemma {:induction false} ReactReports(n: Network, a: Action, e: Event)
    requires DevicesInv(n) && Enabled(n, a) && !a.Drop?
    ensures Times(React(n, a).events, e) == One(Reports(n, a, e))
  {
    match a
    case UnPair(_) => UnPairReports(n, a, e);
    case Send(_, _, _, _, _, _) => SendReports(n, a, e);
    case Run(_, _, _) => RunReports(n, a, e);
    case _ => OtherReports(n, a, e);
  }

  /** Each event is reported once for each step that is its cause. */
  lemma {:induction false} EventCauses(n: Network, a: Action, e: Event)
    requires DevicesInv(n) && Enabled(n, a)
    ensures n.trace <= Apply(n, a).trace
    ensures Times(Apply(n, a).trace, e) == Times(n.trace, e) + One(Reports(n, a, e))
  {
    if a.Drop? {
      TimesOne(Dropped(n.air[a.i]), e);
    } else {
      ReactReports(n, a, e);
    }
  }
}
