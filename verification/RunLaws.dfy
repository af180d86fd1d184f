/** What holds over whole runs because every task, packet and event has its one cause. */
module RunLaws {
  import opened Counting
  import opened Options
  import opened PeerState
  import opened PeerInvariants
  import opened PeerNetwork
  import opened Pairing
  import opened StepLaws
  import opened StateLaws
  import opened Invitations

  /** From n to n', each task, packet and event appears and goes for its cause and for nothing else. */
  ghost predicate Caused(n: Network, a: Action, n': Network) {
    && Enabled(n, a)
    && (forall j :: Times(n'.queue, j) == Times(n.queue, j) + One(Asks(n, a, j)) - One(Runs(n, a, j)))
    && (forall x :: Times(n'.air, x) == Times(n.air, x) + One(Puts(n, a, x)) - One(Takes(n, a, x)))
    && (forall e :: Times(n'.trace, e) == Times(n.trace, e) + One(Reports(n, a, e)))
  }

  /** All that most results about runs need of a run. */
  ghost predicate Lawful(ns: seq<Network>, acts: seq<Action>) {
    && |ns| == |acts| + 1
    && ns[0].air == [] && ns[0].queue == [] && ns[0].trace == []
    && forall i {:trigger acts[i]} :: 0 <= i < |acts| ==> Caused(ns[i], acts[i], ns[i + 1])
  }

  lemma {:induction false} StepIsCaused(n: Network, a: Action)
    requires DevicesInv(n) && Enabled(n, a)
    ensures Caused(n, a, Apply(n, a))
  {
    var n' := Apply(n, a);
    forall j ensures Times(n'.queue, j) == Times(n.queue, j) + One(Asks(n, a, j)) - One(Runs(n, a, j)) {
      TaskCauses(n, a, j);
    }
    forall x ensures Times(n'.air, x) == Times(n.air, x) + One(Puts(n, a, x)) - One(Takes(n, a, x)) {
      PacketCauses(n, a, x);
    }
    forall e ensures Times(n'.trace, e) == Times(n.trace, e) + One(Reports(n, a, e)) {
      EventCauses(n, a, e);
    }
  }

  lemma {:induction false} RunIsLawful(ns: seq<Network>, acts: seq<Action>)
    requires IsRun(ns, acts)
    ensures Lawful(ns, acts)
  {
    InitialDevices(ns[0]);
    forall i {:trigger acts[i]} | 0 <= i < |acts| ensures Caused(ns[i], acts[i], ns[i + 1]) {
      RunKeepsDevices(ns, acts, i);
      StepIsCaused(ns[i], acts[i]);
    }
  }

  lemma {:induction false} TimesPositive<T>(s: seq<T>, x: T)
    ensures x in s <==> Times(s, x) > 0
  {
  }

  // ----- Every task is run once or waiting -----

  /** The number of steps so far that ask for this task. */
  ghost function Asked(ns: seq<Network>, acts: seq<Action>, i: nat, j: Job): int
    requires Lawful(ns, acts) && i <= |acts|
  {
    if i == 0 then 0 else Asked(ns, acts, i - 1, j) + One(Asks(ns[i - 1], acts[i - 1], j))
  }

  ghost function Ran(ns: seq<Network>, acts: seq<Action>, i: nat, j: Job): int
    requires Lawful(ns, acts) && i <= |acts|
  {
    if i == 0 then 0 else Ran(ns, acts, i - 1, j) + One(Runs(ns[i - 1], acts[i - 1], j))
  }

  lemma {:induction false} LedgerLawful(ns: seq<Network>, acts: seq<Action>, i: nat, j: Job)
    requires Lawful(ns, acts) && i <= |acts|
    ensures Asked(ns, acts, i, j) == Ran(ns, acts, i, j) + Times(ns[i].queue, j)
  {
    if i == 0 {
    } else {
      LedgerLawful(ns, acts, i - 1, j);
      assert Caused(ns[i - 1], acts[i - 1], ns[i]);
    }
  }

  /** In every reachable state each task has been asked for as often as it was run or is waiting. */
  lemma {:induction false} TaskLedger(ns: seq<Network>, acts: seq<Action>, i: nat, j: Job)
    requires IsRun(ns, acts) && i <= |acts|
    ensures Lawful(ns, acts)
    ensures Asked(ns, acts, i, j) == Ran(ns, acts, i, j) + Times(ns[i].queue, j)
  {
    RunIsLawful(ns, acts);
    LedgerLawful(ns, acts, i, j);
  }

  // ----- Messages arrive as they were sent -----

  ghost predicate Accounted(n: Network, x: Packet) {
    Times(n.trace, Sent(x))
    == Times(n.trace, Synced(x.dst, x.src, x.container)) + Times(n.trace, Dropped(x))
       + Times(n.air, x) + Times(n.queue, Job(x.dst, Dispatch(x.src, x.container)))
  }

  lemma {:induction false} StepAccounts(n: Network, a: Action, n': Network, x: Packet)
    requires Caused(n, a, n') && !IsControl(x.container.kind) && Accounted(n, x)
    ensures Accounted(n', x)
  {
    var j, s := Job(x.dst, Dispatch(x.src, x.container)), Synced(x.dst, x.src, x.container);
    assert Times(n'.queue, j) == Times(n.queue, j) + One(Asks(n, a, j)) - One(Runs(n, a, j));
    assert Times(n'.trace, s) == Times(n.trace, s) + One(Reports(n, a, s));
    assert Times(n'.trace, Sent(x)) == Times(n.trace, Sent(x)) + One(Reports(n, a, Sent(x)));
    assert Times(n'.trace, Dropped(x)) == Times(n.trace, Dropped(x)) + One(Reports(n, a, Dropped(x)));
  }

  lemma {:induction false} AccountedLawful(ns: seq<Network>, acts: seq<Action>, i: nat, x: Packet)
    requires Lawful(ns, acts) && i < |ns| && !IsControl(x.container.kind)
    ensures Accounted(ns[i], x)
  {
    if i == 0 {
    } else {
      AccountedLawful(ns, acts, i - 1, x);
      assert Caused(ns[i - 1], acts[i - 1], ns[i]);
      StepAccounts(ns[i - 1], acts[i - 1], ns[i], x);
    }
  }

  /**
   * In every reachable state each message, with its data, type and id, that was sent from one device
   * to another was handed to the delegate there just so, was lost, or is under way.
   */
  lemma {:induction false} DeliveredIntact(ns: seq<Network>, acts: seq<Action>, i: nat, x: Packet)
    requires IsRun(ns, acts) && i < |ns| && !IsControl(x.container.kind)
    ensures Accounted(ns[i], x)
  {
    RunIsLawful(ns, acts);
    AccountedLawful(ns, acts, i, x);
  }

  // ----- Invitations -----

  /** What the last setup of this device asked for. */
  function LastSetup(acts: seq<Action>, at: string, initial: bool): bool {
    if acts == [] then initial
    else
      var last := acts[|acts| - 1];
      if last.Setup? && last.at == at then last.needsPairing else LastSetup(acts[..|acts| - 1], at, initial)
  }

  lemma {:induction false} LastSetupStep(acts: seq<Action>, i: nat, at: string, initial: bool)
    requires i < |acts|
    ensures LastSetup(acts[..i + 1], at, initial)
         == if acts[i].Setup? && acts[i].at == at then acts[i].needsPairing else LastSetup(acts[..i], at, initial)
  {
    assert acts[..i + 1][..i] == acts[..i];
  }

  lemma {:induction false} SetupDecides(ns: seq<Network>, acts: seq<Action>, i: nat, at: string)
    requires IsRun(ns, acts) && i < |ns| && at in ns[0].devices
    ensures at in ns[i].devices
    ensures ns[i].devices[at].needsPairing == LastSetup(acts[..i], at, ns[0].devices[at].needsPairing)
  {
    if i == 0 {
    } else {
      SetupDecides(ns, acts, i - 1, at);
      InitialDevices(ns[0]);
      RunKeepsDevices(ns, acts, i - 1);
      NeedsPairingCauses(ns[i - 1], acts[i - 1], at);
      LastSetupStep(acts, i - 1, at, ns[0].devices[at].needsPairing);
    }
  }

  lemma {:induction false} StepInvitesExactly(n: Network, a: Action, n': Network, at: string, name: string,
                                              restricted: bool)
    requires Caused(n, a, n') && at in n.devices
    ensures var e := Invited(at, name, restricted);
      Times(n'.trace, e) == Times(n.trace, e)
        + One(a == Found(at, name) && restricted == n.devices[at].needsPairing
              && (n.devices[at].needsPairing ==> Flag(n, at, name)))
  {
    var e := Invited(at, name, restricted);
    assert Times(n'.trace, e) == Times(n.trace, e) + One(Reports(n, a, e));
  }

  /** Whether a device that finds this name at step i is to invite it: pairing is not required or the flag is on. */
  ghost predicate MayInvite(ns: seq<Network>, acts: seq<Action>, i: nat, at: string, name: string)
    requires i < |ns| && i <= |acts| && at in ns[0].devices
  {
    LastSetup(acts[..i], at, ns[0].devices[at].needsPairing)
    ==> LastFlag(ns[i].trace, at, name, Flag(ns[0], at, name))
  }

  /**
   * In every run a step invites a name exactly if it finds it and either the last setup did not ask
   * for pairing or the flag last written for the name is on; it does so once.
   */
  lemma {:induction false} InvitationsExact(ns: seq<Network>, acts: seq<Action>, i: nat, at: string, name: string,
                                            restricted: bool)
    requires IsRun(ns, acts) && i < |acts| && at in ns[0].devices
    ensures Times(ns[i + 1].trace, Invited(at, name, restricted))
         == Times(ns[i].trace, Invited(at, name, restricted))
            + One(acts[i] == Found(at, name) && MayInvite(ns, acts, i, at, name)
                  && restricted == LastSetup(acts[..i], at, ns[0].devices[at].needsPairing))
  {
    RunIsLawful(ns, acts);
    SetupDecides(ns, acts, i, at);
    FlagIsLastWrite(ns, acts, i, at, name);
    StepInvitesExactly(ns[i], acts[i], ns[i + 1], at, name, restricted);
  }

  // ----- Where pairings come from -----

  ghost predicate ConnectedBefore(ns: seq<Network>, acts: seq<Action>, i: nat, at: string, name: string)
    requires |ns| == |acts| + 1 && i <= |acts|
  {
    exists j {:trigger acts[j]} :: 0 <= j < i && acts[j] == Change(at, name, Connected)
      && at in ns[j].devices && ns[j].devices[at].needsPairing
  }

  lemma {:induction false} PairingLawful(ns: seq<Network>, acts: seq<Action>, i: nat, at: string, name: string)
    requires Lawful(ns, acts) && i < |ns|
    requires PairSet(at, name, true) in ns[i].trace || Job(at, MarkPaired(name)) in ns[i].queue
    ensures ConnectedBefore(ns, acts, i, at, name)
  {
    var n, a := ns[i - 1], acts[i - 1];
    var e, job := PairSet(at, name, true), Job(at, MarkPaired(name));
    assert Caused(n, a, ns[i]);
    TimesPositive(ns[i].trace, e);
    TimesPositive(ns[i].queue, job);
    TimesPositive(n.trace, e);
    TimesPositive(n.queue, job);
    if !Asks(n, a, job) {
      assert Runs(n, a, job) ==> job in n.queue;
      PairingLawful(ns, acts, i - 1, at, name);
    }
  }

  /** A flag is switched on only for a device that was reported connected while pairing was required. */
  lemma {:induction false} PairingHasCause(ns: seq<Network>, acts: seq<Action>, i: nat, at: string, name: string)
    requires IsRun(ns, acts) && i < |ns| && PairSet(at, name, true) in ns[i].trace
    ensures ConnectedBefore(ns, acts, i, at, name)
  {
    RunIsLawful(ns, acts);
    PairingLawful(ns, acts, i, at, name);
  }

  /** An invitation under required pairing, of a name unpaired at first, comes after a connection to it. */
  lemma {:induction false} InvitedWasConnected(ns: seq<Network>, acts: seq<Action>, i: nat, at: string, name: string)
    requires IsRun(ns, acts) && i < |ns|
    requires Invited(at, name, true) in ns[i].trace && at in ns[0].devices && !Flag(ns[0], at, name)
    ensures ConnectedBefore(ns, acts, i, at, name)
  {
    var k :| 0 <= k < |ns[i].trace| && ns[i].trace[k] == Invited(at, name, true);
    InvitationsFollowPairing(ns, acts, i, k);
    PairingHasCause(ns, acts, i, at, name);
  }

  // ----- Where unpairings come from -----

  ghost predicate UnpairedBefore(acts: seq<Action>, i: nat, who: string)
    requires i <= |acts|
  {
    UnPair(who) in acts[..i]
  }

  lemma {:induction false} UnpairedMore(acts: seq<Action>, i: nat, who: string)
    requires i < |acts|
    ensures UnpairedBefore(acts, i + 1, who) <==> UnpairedBefore(acts, i, who) || acts[i] == UnPair(who)
  {
    assert acts[..i + 1] == acts[..i] + [acts[i]];
  }

  /** A task that is waiting was asked for by the last step, or was waiting before it. */
  lemma {:induction false} WaitingSince(n: Network, a: Action, n': Network, job: Job)
    requires Caused(n, a, n') && job in n'.queue
    ensures Asks(n, a, job) || job in n.queue
  {
    assert Times(n'.queue, job) == Times(n.queue, job) + One(Asks(n, a, job)) - One(Runs(n, a, job));
    TimesPositive(n'.queue, job);
    TimesPositive(n.queue, job);
  }

  lemma {:induction false} FlyingSince(n: Network, a: Action, n': Network, x: Packet)
    requires Caused(n, a, n') && x in n'.air
    ensures Puts(n, a, x) || x in n.air
  {
    assert Times(n'.air, x) == Times(n.air, x) + One(Puts(n, a, x)) - One(Takes(n, a, x));
    TimesPositive(n'.air, x);
    TimesPositive(n.air, x);
  }

  lemma {:induction false} NoticeHasCause(ns: seq<Network>, acts: seq<Action>, i: nat, job: Job)
    requires Lawful(ns, acts) && i < |ns| && job in ns[i].queue && job.task.SendUnpair?
    ensures UnpairedBefore(acts, i, job.at)
  {
    WaitingSince(ns[i - 1], acts[i - 1], ns[i], job);
    UnpairedMore(acts, i - 1, job.at);
    if job in ns[i - 1].queue {
      NoticeHasCause(ns, acts, i - 1, job);
    }
  }

  lemma {:induction false} UnpairPacketHasCause(ns: seq<Network>, acts: seq<Action>, i: nat, x: Packet)
    requires Lawful(ns, acts) && i < |ns| && x in ns[i].air && x.container.kind.Unpair?
    ensures UnpairedBefore(acts, i, x.src)
  {
    FlyingSince(ns[i - 1], acts[i - 1], ns[i], x);
    UnpairedMore(acts, i - 1, x.src);
    if x in ns[i - 1].air {
      UnpairPacketHasCause(ns, acts, i - 1, x);
    } else {
      NoticeHasCause(ns, acts, i - 1, ns[i - 1].queue[acts[i - 1].i]);
    }
  }

  lemma {:induction false} UnpairDispatchHasCause(ns: seq<Network>, acts: seq<Action>, i: nat, job: Job)
    requires Lawful(ns, acts) && i < |ns| && job in ns[i].queue
    requires job.task.Dispatch? && job.task.container.kind.Unpair?
    ensures UnpairedBefore(acts, i, job.task.from)
  {
    WaitingSince(ns[i - 1], acts[i - 1], ns[i], job);
    UnpairedMore(acts, i - 1, job.task.from);
    if job in ns[i - 1].queue {
      UnpairDispatchHasCause(ns, acts, i - 1, job);
    } else {
      UnpairPacketHasCause(ns, acts, i - 1, ns[i - 1].air[acts[i - 1].i]);
    }
  }

  lemma {:induction false} UnpairTaskHasCause(ns: seq<Network>, acts: seq<Action>, i: nat, job: Job)
    requires Lawful(ns, acts) && i < |ns| && job in ns[i].queue && job.task.HandleUnpair?
    ensures UnpairedBefore(acts, i, job.task.from)
  {
    WaitingSince(ns[i - 1], acts[i - 1], ns[i], job);
    UnpairedMore(acts, i - 1, job.task.from);
    if job in ns[i - 1].queue {
      UnpairTaskHasCause(ns, acts, i - 1, job);
    } else {
      UnpairDispatchHasCause(ns, acts, i - 1, ns[i - 1].queue[acts[i - 1].i]);
    }
  }

  ghost predicate LeftBefore(ns: seq<Network>, acts: seq<Action>, i: nat, at: string, name: string)
    requires |ns| == |acts| + 1 && i <= |acts|
  {
    exists j {:trigger acts[j]} :: 0 <= j < i && acts[j] == UnPair(at)
      && at in ns[j].devices && name in NamesIn(ns[j].devices[at].nearby, Connected)
  }

  lemma {:induction false} UnpairingLawful(ns: seq<Network>, acts: seq<Action>, i: nat, at: string, name: string)
    requires Lawful(ns, acts) && i < |ns| && PairSet(at, name, false) in ns[i].trace
    ensures UnpairedBefore(acts, i, name) || LeftBefore(ns, acts, i, at, name)
  {
    var n, a, e := ns[i - 1], acts[i - 1], PairSet(at, name, false);
    assert Caused(n, a, ns[i]);
    TimesPositive(ns[i].trace, e);
    TimesPositive(n.trace, e);
    UnpairedMore(acts, i - 1, name);
    if e in n.trace {
      UnpairingLawful(ns, acts, i - 1, at, name);
    } else if Runs(n, a, Job(at, HandleUnpair(name))) {
      UnpairTaskHasCause(ns, acts, i - 1, Job(at, HandleUnpair(name)));
    }
  }

  /** A flag is switched off only if the named device unpaired, or this one did while connected to it. */
  lemma {:induction false} UnpairingHasCause(ns: seq<Network>, acts: seq<Action>, i: nat, at: string, name: string)
    requires IsRun(ns, acts) && i < |ns| && PairSet(at, name, false) in ns[i].trace
    ensures UnpairedBefore(acts, i, name) || LeftBefore(ns, acts, i, at, name)
  {
    RunIsLawful(ns, acts);
    UnpairingLawful(ns, acts, i, at, name);
  }
}
