/**
 What section 2.1 of the cleanup pass decides about a lease, action by action, and
 what its min-size guard lets through.
 */
module LeaseDecisions {
  import opened Options
  import opened Snapshot
  import opened Cleanup
  import Leases
  import SingleWrite
  import Scaler
  import DrainCap

  /** The owner is known and InService. */
  predicate OwnerServes(snap: SystemSnapshot, l: SlotLease)
  {
    l.owner != Leases.OWNER_MISSING && l.owner != Leases.OWNER_UNKNOWN && l.owner in InServiceIds(snap.asg)
  }

  /** The owner is known, and not InService. */
  predicate OwnerGone(snap: SystemSnapshot, l: SlotLease)
  {
    l.owner != Leases.OWNER_MISSING && l.owner != Leases.OWNER_UNKNOWN && l.owner !in InServiceIds(snap.asg)
  }

  /** The lease's backend is being drained and has no connection left, and the group can spare an instance. */
  predicate DrainedOut(snap: SystemSnapshot, l: SlotLease)
  {
    var b := BackendOf(snap.backends, l.slot);
    && b.Some? && b.value.weight == Draining && Connections(b.value) == 0
    && (snap.asgGroup.Some? ==> snap.asgGroup.value.desired > snap.asgGroup.value.min)
  }

  /**
   What is done about a lease, and exactly when: its slot is released if its owner
   is gone, its owner terminated if drained out, its backend re-enabled if disabled
   under a live lease, and disabled just in the first two cases.
   */
  lemma Decisions(snap: SystemSnapshot, settings: Settings, nowMs: nat, l: SlotLease, a: Action)
    ensures var backend := BackendOf(snap.backends, l.slot);
            a in LeasePlan(snap, settings, nowMs, l) <==>
            match a
            case DelOwner(slot) => slot == l.slot && OwnerGone(snap, l)
            case RemLease(slot) => slot == l.slot && OwnerGone(snap, l)
            case AddAvailable(slot, at) => slot == l.slot && at == nowMs && OwnerGone(snap, l)
            case Terminate(id, decrement) =>
              id == l.owner && decrement == settings.termDecrements && OwnerServes(snap, l) && DrainedOut(snap, l)
            case WriteWeight(ip, state) =>
              && backend.Some? && backend.value.ip == ip
              && ((state == Disabled && (OwnerGone(snap, l) || (OwnerServes(snap, l) && DrainedOut(snap, l))))
                  || (state == Active && OwnerServes(snap, l)
                      && backend.value.weight == Disabled && !IsExpired(l, nowMs)))
  {
    hide BackendOf, InServiceIds;
    var plan := LeasePlan(snap, settings, nowMs, l);
    if OwnerGone(snap, l) {
      var release := ReleasePlan(l.slot, nowMs);
      assert release[0] in plan && release[1] in plan && release[2] in plan;
    }
  }

  /**
   In which order, which matters since the first failure ends the plan: the slot is
   freed step by step before its backend is disabled, and a drained backend is disabled
   before its owner is terminated.
   */
  lemma DecisionsInOrder(snap: SystemSnapshot, settings: Settings, nowMs: nat, l: SlotLease)
    ensures var plan := LeasePlan(snap, settings, nowMs, l);
            if OwnerGone(snap, l) then
              && 3 <= |plan| <= 4
              && plan[..3] == [DelOwner(l.slot), RemLease(l.slot), AddAvailable(l.slot, nowMs)]
              && (|plan| == 4 ==> plan[3].WriteWeight?)
            else |plan| <= 1 || (|plan| == 2 && plan[0].WriteWeight? && plan[1].Terminate?)
  {
    hide BackendOf, InServiceIds, Connections;
  }

  // -- the min-size guard --------------------------------------------------------------------

  /** How many of the leases have a serving owner whose backend is drained of connections. */
  function Spent(snap: SystemSnapshot, leases: seq<SlotLease>): nat
  {
    if leases == [] then 0
    else Spent(snap, leases[..|leases| - 1]) + if IsSpent(snap, leases[|leases| - 1]) then 1 else 0
  }

  predicate IsSpent(snap: SystemSnapshot, l: SlotLease)
  {
    var b := BackendOf(snap.backends, l.slot);
    OwnerServes(snap, l) && b.Some? && b.value.weight == Draining && Connections(b.value) == 0
  }

  predicate Terminates(plan: seq<Action>)
  {
    exists k :: 0 <= k < |plan| && plan[k].Terminate?
  }

  /** How many of the plans terminate an instance. */
  function TerminatingPlans(plans: seq<seq<Action>>): nat
  {
    if plans == [] then 0
    else TerminatingPlans(plans[..|plans| - 1]) + if Terminates(plans[|plans| - 1]) then 1 else 0
  }

  lemma TerminatesWhenSpent(snap: SystemSnapshot, settings: Settings, nowMs: nat, l: SlotLease)
    requires snap.asgGroup.Some?
    ensures Terminates(LeasePlan(snap, settings, nowMs, l)) <==>
            IsSpent(snap, l) && snap.asgGroup.value.desired > snap.asgGroup.value.min
  {
    hide BackendOf, InServiceIds;
    var plan := LeasePlan(snap, settings, nowMs, l);
    if |plan| == 2 {
      assert plan[1].Terminate?;
    }
  }

  lemma {:induction false} TerminationsOfLeases(snap: SystemSnapshot, settings: Settings, nowMs: nat, n: nat)
    requires snap.asgGroup.Some? && !Implausible(snap) && n <= |snap.leases|
    ensures TerminatingPlans(LeasePlans(snap, settings, nowMs)[..n]) ==
            if snap.asgGroup.value.desired > snap.asgGroup.value.min then Spent(snap, snap.leases[..n]) else 0
  {
    hide LeasePlan, IsSpent, Terminates;
    if n > 0 {
      TerminationsOfLeases(snap, settings, nowMs, n - 1);
      TerminatesWhenSpent(snap, settings, nowMs, snap.leases[n - 1]);
      assert snap.leases[..n][..n - 1] == snap.leases[..n - 1];
      var plans := LeasePlans(snap, settings, nowMs);
      assert plans[..n][..n - 1] == plans[..n - 1];
    }
  }

  lemma {:induction false} NobodyServes(snap: SystemSnapshot, leases: seq<SlotLease>)
    requires InServiceIds(snap.asg) == {}
    ensures Spent(snap, leases) == 0
  {
    hide BackendOf, InServiceIds;
    if leases != [] {
      NobodyServes(snap, leases[..|leases| - 1]);
    }
  }

  /**
   The guard compares capacities of the snapshot, not of the moment. Exactly when a
   pass that starts at or above the minimum also ends there, each termination taken
   off the desired capacity: when the guard closes at once, or there are no more
   spent backends than instances to spare.
   */
  lemma StaysAboveMinExactly(snap: SystemSnapshot, settings: Settings, nowMs: nat)
    requires snap.asgGroup.Some? && snap.asgGroup.value.desired >= snap.asgGroup.value.min
    ensures var group := snap.asgGroup.value;
            var terminated, spent := TerminatingPlans(LeasePlans(snap, settings, nowMs)), Spent(snap, snap.leases);
            && (group.desired - terminated >= group.min <==>
                  group.desired == group.min || spent <= group.desired - group.min)
            && terminated == if group.desired == group.min then 0 else spent
  {
    hide LeasePlan, BackendOf, InServiceIds, IsSpent;
    if Implausible(snap) {
      NobodyServes(snap, snap.leases);
      assert LeasePlans(snap, settings, nowMs) == [];
    } else {
      var plans := LeasePlans(snap, settings, nowMs);
      TerminationsOfLeases(snap, settings, nowMs, |snap.leases|);
      assert plans[..|snap.leases|] == plans && snap.leases[..|snap.leases|] == snap.leases;
    }
  }

  /** A spent lease's backend is one of the draining ones, a different one for each lease. */
  lemma {:induction false} SpentAreDraining(net: SlotNetwork, snap: SystemSnapshot, n: nat) returns (ips: set<u32>)
    requires WellJoined(net, snap) && n <= |snap.leases|
    ensures |ips| == Spent(snap, snap.leases[..n])
    ensures forall ip :: ip in ips ==>
              exists k :: 0 <= k < |snap.backends| && snap.backends[k].ip == ip && snap.backends[k].weight == Draining
    ensures forall ip :: ip in ips ==> exists i :: 0 <= i < n && net.IpForSlot(snap.leases[i].slot) == ip
  {
    hide WellJoined, BackendOf, OwnerServes;
    if n == 0 {
      ips := {};
    } else {
      ips := SpentAreDraining(net, snap, n - 1);
      assert snap.leases[..n][..n - 1] == snap.leases[..n - 1];
      var l := snap.leases[n - 1];
      var b := BackendOf(snap.backends, l.slot);
      SingleWrite.BackendAtSlot(net, snap, l.slot);
      if IsSpent(snap, l) {
        var k :| 0 <= k < |snap.backends| && snap.backends[k] == b.value;
        SlotsDiffer(net, snap, n - 1);
        ips := ips + {b.value.ip};
      }
    }
  }

  lemma SlotsDiffer(net: SlotNetwork, snap: SystemSnapshot, n: nat)
    requires WellJoined(net, snap) && n < |snap.leases|
    ensures forall i :: 0 <= i < n ==> net.IpForSlot(snap.leases[i].slot) != net.IpForSlot(snap.leases[n].slot)
  {
    forall i | 0 <= i < n ensures net.IpForSlot(snap.leases[i].slot) != net.IpForSlot(snap.leases[n].slot) {
      IpInjective(net, snap.leases[i].slot, snap.leases[n].slot);
    }
  }

  /**
   A bound that can be read off the weight files: with no more backends draining
   than instances to spare, no pass takes the group below its minimum.
   */
  lemma FewDrainsStayAboveMin(net: SlotNetwork, snap: SystemSnapshot, settings: Settings, nowMs: nat)
    requires WellJoined(net, snap) && snap.asgGroup.Some?
    requires Scaler.DrainingCount(snap.backends) <= snap.asgGroup.value.desired - snap.asgGroup.value.min
    ensures snap.asgGroup.value.desired - TerminatingPlans(LeasePlans(snap, settings, nowMs)) >= snap.asgGroup.value.min
  {
    hide LeasePlans, Spent, TerminatingPlans, WellJoined, Scaler.DrainingCount;
    var ips := SpentAreDraining(net, snap, |snap.leases|);
    assert snap.leases[..|snap.leases|] == snap.leases;
    DrainCap.MarkedAreCounted(snap.backends, ips);
    StaysAboveMinExactly(snap, settings, nowMs);
  }

  /**
   The two caps together: in any run of the daemon, as long as neither the initial
   number of draining backends nor the cap on concurrent drains exceeds the
   instances to spare, the pass about to be carried out keeps the group's minimum.
   */
  lemma {:induction false} DrainCapKeepsMin(f: DrainCap.Fixed, s: DrainCap.Sys, events: seq<DrainCap.Event>, nowMs: nat)
    requires s.phase.Idle?
    requires var end := DrainCap.Run(f, s, events).phase;
             && end.Cleaning? && WellJoined(f.net, end.snap) && end.snap.asgGroup.Some?
             && DrainCap.Max(|DrainCap.DrainingNow(s)|, f.config.maxConcurrentDraining)
                <= end.snap.asgGroup.value.desired - end.snap.asgGroup.value.min
    ensures var snap := DrainCap.Run(f, s, events).phase.snap;
            snap.asgGroup.value.desired - TerminatingPlans(LeasePlans(snap, f.settings, nowMs))
              >= snap.asgGroup.value.min
  {
    hide DrainCap.Run, DrainCap.DrainingNow, WellJoined, LeasePlans, TerminatingPlans, Scaler.DrainingCount;
    DrainCap.SnapshotsWithinCap(f, s, events);
    FewDrainsStayAboveMin(f.net, DrainCap.Run(f, s, events).phase.snap, f.settings, nowMs);
  }

  function Drained(net: SlotNetwork, slot: u32, lease: SlotLease): BackendStatus
  {
    BackendStatus(net.IpForSlot(slot), net.SlotForIp(net.IpForSlot(slot)), Draining, None, Some(lease))
  }

  /** The condition is not idle: with one instance above the minimum, a pass can terminate two. */
  lemma TwoPassTheGuard(net: SlotNetwork, settings: Settings, nowMs: nat, a: string, b: string)
    returns (snap: SystemSnapshot, group: AsgGroupInfo)
    requires {a, b} !! {Leases.OWNER_MISSING, Leases.OWNER_UNKNOWN} && a != b
    ensures WellJoined(net, snap) && snap.asgGroup == Some(group) && group.desired == group.min + 1
    ensures |snap.leases| == 2
    ensures Terminate(a, settings.termDecrements) in LeasePlan(snap, settings, nowMs, snap.leases[0])
         && Terminate(b, settings.termDecrements) in LeasePlan(snap, settings, nowMs, snap.leases[1])
  {
    group := AsgGroupInfo("asg", 2, 1, 4);
    var l0, l1 := SlotLease(0, a, nowMs + 1), SlotLease(1, b, nowMs + 1);
    var i0, i1 := AsgInstance(a, "InService", ""), AsgInstance(b, "InService", "");
    var b0, b1 := Drained(net, 0, l0), Drained(net, 1, l1);
    snap := SystemSnapshot([b0, b1], [l0, l1], [i0, i1], Some(group));
    IpInjective(net, 0, 1);
    assert i0 in snap.asg && i1 in snap.asg;
    assert a in InServiceIds(snap.asg) && b in InServiceIds(snap.asg);
    assert snap.backends[1..] == [b1];
    assert BackendOf([b1], 1) == Some(b1);
    assert BackendOf(snap.backends, 0) == Some(b0) && BackendOf(snap.backends, 1) == Some(b1);
    hide InServiceIds, BackendOf;
    assert LeasePlan(snap, settings, nowMs, l0)[1] == Terminate(a, settings.termDecrements);
    assert LeasePlan(snap, settings, nowMs, l1)[1] == Terminate(b, settings.termDecrements);
  }
}
