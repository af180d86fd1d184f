/** Over any run, pairing flags are what was last written, and restricted invitations respect them. */
module Invitations {
  import opened PeerState
  import opened PeerInvariants
  import opened PeerNetwork
  import opened Pairing
  import Acknowledgement

  /** The flag a device holds for a name in state n. */
  ghost function Flag(n: Network, at: string, name: string): bool
    requires at in n.devices
  {
    IsPaired(n.devices[at].table, name)
  }

  /** What a device records of its own table changes is what they do to each flag. */
  lemma {:induction false} ReactRecordsFlags(n: Network, a: Action, name: string)
    requires DevicesInv(n) && Enabled(n, a) && !a.Drop?
    ensures var e := React(n, a);
      && IsPaired(e.device.table, name)
           == LastFlag(e.events, e.device.name, name, IsPaired(n.devices[e.device.name].table, name))
      && forall x :: x in e.events && x.PairSet? ==> x.at == e.device.name
  {
    var e := React(n, a);
    var d := n.devices[e.device.name];
    if a.UnPair? {
      ClearEventsRecord(d.name, d.table, ConnectedNames(d.nearby), name);
    } else if a.Run? && n.queue[a.i].task.HandleUnpair? {
      PairEventsRecord(d.name, d.table, n.queue[a.i].task.from, false, name);
    } else if a.Run? && n.queue[a.i].task.MarkPaired? {
      PairEventsRecord(d.name, d.table, n.queue[a.i].task.name, true, name);
    } else {
      if a.Found? {
        StoreLookup(d.table, a.name, Connecting, name);
      }
      LastFlagElsewhere(e.events, d.name, name, IsPaired(d.table, name));
    }
  }

  lemma {:induction false} StepRecordsFlags(n: Network, a: Action, at: string, name: string)
    requires DevicesInv(n) && Enabled(n, a) && at in n.devices
    ensures at in Apply(n, a).devices && n.trace <= Apply(n, a).trace
    ensures Flag(Apply(n, a), at, name) == LastFlag(Apply(n, a).trace[|n.trace|..], at, name, Flag(n, at, name))
  {
    var n' := Apply(n, a);
    if a.Drop? {
      assert n'.trace[|n.trace|..] == [Dropped(n.air[a.i])];
      LastFlagElsewhere(n'.trace[|n.trace|..], at, name, Flag(n, at, name));
    } else {
      var e := React(n, a);
      assert n'.trace[|n.trace|..] == e.events;
      ReactRecordsFlags(n, a, name);
      if at != e.device.name {
        LastFlagElsewhere(e.events, at, name, Flag(n, at, name));
      }
    }
  }

  /** In every reachable state each flag is the one last written, or the one from before the run. */
  lemma {:induction false} FlagIsLastWrite(ns: seq<Network>, acts: seq<Action>, i: nat, at: string, name: string)
    requires IsRun(ns, acts) && i < |ns| && at in ns[0].devices
    ensures at in ns[i].devices
    ensures Flag(ns[i], at, name) == LastFlag(ns[i].trace, at, name, Flag(ns[0], at, name))
  {
    InitialDevices(ns[0]);
    if i == 0 {
    } else {
      var n, n' := ns[i - 1], ns[i];
      FlagIsLastWrite(ns, acts, i - 1, at, name);
      RunKeepsDevices(ns, acts, i - 1);
      StepRecordsFlags(n, acts[i - 1], at, name);
      LastFlagConcat(n.trace, n'.trace[|n.trace|..], at, name, Flag(ns[0], at, name));
      assert n'.trace == n.trace + n'.trace[|n.trace|..];
    }
  }

  /** If event k is an automatic invitation under required pairing, the flag of its name was on at that moment. */
  ghost predicate Respected(start: Network, trace: seq<Event>, k: nat)
    requires k < |trace|
  {
    trace[k].Invited? && trace[k].restricted ==>
      && trace[k].at in start.devices
      && LastFlag(trace[..k], trace[k].at, trace[k].name, Flag(start, trace[k].at, trace[k].name))
  }

  lemma {:induction false} StepInvites(n: Network, a: Action, k: nat)
    requires DevicesInv(n) && Enabled(n, a) && |n.trace| <= k < |Apply(n, a).trace|
    requires Apply(n, a).trace[k].Invited?
    ensures a.Found? && k == |n.trace| && n.trace <= Apply(n, a).trace
    ensures var e := Apply(n, a).trace[k];
      e.at == a.at && e.name == a.name && (e.restricted ==> Flag(n, e.at, e.name))
  {
    if !a.Drop? {
      var e := React(n, a);
      assert Apply(n, a).trace == n.trace + e.events;
      assert e.events[k - |n.trace|].Invited?;
      if a.UnPair? {
        var d := n.devices[a.at];
        ClearEventsRecord(d.name, d.table, ConnectedNames(d.nearby), "");
      }
    }
  }

  lemma {:induction false} NewInvitationRespected(start: Network, n: Network, a: Action, k: nat)
    requires DevicesInv(n) && Enabled(n, a) && start.devices.Keys == n.devices.Keys
    requires forall at, name :: at in n.devices ==>
      Flag(n, at, name) == LastFlag(n.trace, at, name, Flag(start, at, name))
    requires |n.trace| <= k < |Apply(n, a).trace|
    ensures Respected(start, Apply(n, a).trace, k)
  {
    var trace := Apply(n, a).trace;
    if trace[k].Invited? {
      StepInvites(n, a, k);
      assert trace[..k] == n.trace;
    }
  }

  /** While pairing is required, an automatic invitation goes only to a device whose flag is on at that moment. */
  lemma {:induction false} InvitationsArePaired(ns: seq<Network>, acts: seq<Action>, i: nat, k: nat)
    requires IsRun(ns, acts) && i < |ns| && k < |ns[i].trace|
    ensures Respected(ns[0], ns[i].trace, k)
  {
    InitialDevices(ns[0]);
    RunKeepsDevices(ns, acts, i - 1);
    if k >= |ns[i - 1].trace| {
      forall at, name | at in ns[i - 1].devices
        ensures Flag(ns[i - 1], at, name) == LastFlag(ns[i - 1].trace, at, name, Flag(ns[0], at, name))
      {
        FlagIsLastWrite(ns, acts, i - 1, at, name);
      }
      NewInvitationRespected(ns[0], ns[i - 1], acts[i - 1], k);
    } else {
      InvitationsArePaired(ns, acts, i - 1, k);
      Acknowledgement.StepEvents(ns[i - 1], acts[i - 1]);
      assert ns[i].trace[k] == ns[i - 1].trace[k];
      assert ns[i].trace[..k] == ns[i - 1].trace[..k];
    }
  }

  /**
   * In particular, when the history began with this name unpaired or absent, an invitation under
   * required pairing is preceded by a pairing of that device that no unpairing has followed.
   */
  lemma {:induction false} InvitationsFollowPairing(ns: seq<Network>, acts: seq<Action>, i: nat, k: nat)
    requires IsRun(ns, acts) && i < |ns|
    requires k < |ns[i].trace| && ns[i].trace[k].Invited? && ns[i].trace[k].restricted
    requires var e := ns[i].trace[k]; e.at in ns[0].devices && !Flag(ns[0], e.at, e.name)
    ensures var e := ns[i].trace[k];
      exists j :: 0 <= j < k && ns[i].trace[j] == PairSet(e.at, e.name, true)
        && PairSet(e.at, e.name, false) !in ns[i].trace[j + 1..k]
  {
    var trace := ns[i].trace;
    var e := trace[k];
    InvitationsArePaired(ns, acts, i, k);
    LastFlagOn(trace[..k], e.at, e.name);
    var j :| 0 <= j < k && trace[..k][j] == PairSet(e.at, e.name, true)
      && PairSet(e.at, e.name, false) !in trace[..k][j + 1..];
    assert trace[j + 1..k] == trace[..k][j + 1..];
  }
}
