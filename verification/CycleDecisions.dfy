/**
 What a cycle decides, in terms of what went into it: the weight files, Redis's
 leases and answers, the ASG's reply and the IPVS list, and nothing derived from them.
 */
module CycleDecisions {
  import opened Options
  import opened Snapshot
  import opened Leases
  import opened Cleanup
  import opened DaemonRuns
  import ActionOrder
  import LeaseDecisions
  import OrphanGrace
  import Scaler
  import ScalerRuns
  import SingleWrite
  import Sorting

  /** Everything a snapshot is collected from. */
  datatype Inputs = Inputs(net: SlotNetwork, weights: seq<WeightEntry>, leases: seq<SlotLease>, asg: AsgReply,
                           ipvs: Option<seq<IpvsBackend>>)

  function Snap(x: Inputs): SystemSnapshot
  {
    Collect(x.net, x.weights, x.leases, x.asg, x.ipvs)
  }

  predicate Proper(x: Inputs)
  {
    DistinctSlots(x.leases) && DistinctIps(x.weights)
  }

  ghost predicate SomeoneServes(asg: AsgReply)
  {
    exists id :: ListedInService(asg, id)
  }

  predicate KnownOwner(owner: string)
  {
    owner != "(missing)" && owner != "(unknown)"
  }

  /** The weight file of the slot's backend, and its state. */
  predicate FileOf(x: Inputs, slot: u32, state: BackendState)
  {
    exists k :: 0 <= k < |x.weights| && x.weights[k].ip == x.net.IpForSlot(slot) && x.weights[k].state == state
  }

  /** IPVS shows no active connection at the address. */
  ghost predicate NoConnections(x: Inputs, ip: u32)
  {
    x.ipvs.Some? ==> forall k: nat :: FirstAt(x.ipvs.value, ip, k) ==> x.ipvs.value[k].activeConnections == 0
  }

  /** The group can lose one more: its desired capacity is above its minimum. */
  predicate CanSpare(x: Inputs)
  {
    x.asg.Some? && |x.asg.value| > 0 && x.asg.value[0].min < x.asg.value[0].desired
  }

  // -- the backend of a slot -------------------------------------------------------------

  lemma {:induction false} CarrierFound(backends: seq<BackendStatus>, slot: u32, k: nat)
    requires k < |backends| && backends[k].lease.Some? && backends[k].lease.value.slot == slot
    ensures BackendOf(backends, slot).Some?
  {
    if k > 0 && !(backends[0].lease.Some? && backends[0].lease.value.slot == slot) {
      CarrierFound(backends[1..], slot, k - 1);
    }
  }

  /** A lease's backend is the weight file at its slot's address. */
  lemma BackendIsFile(x: Inputs, l: SlotLease) returns (k: nat)
    requires Proper(x) && l in x.leases
    ensures BackendOf(Snap(x).backends, l.slot).Some? <==>
            exists i :: 0 <= i < |x.weights| && x.weights[i].ip == x.net.IpForSlot(l.slot)
    ensures BackendOf(Snap(x).backends, l.slot).Some? ==>
              && k < |x.weights| && x.weights[k].ip == x.net.IpForSlot(l.slot)
              && BackendOf(Snap(x).backends, l.slot).value == Snap(x).backends[k]
  {
    hide IpToLease, FindIpvs, BackendOf;
    k := 0;
    var snap := Snap(x);
    CollectJoinsWell(x.net, x.weights, x.leases, x.asg, x.ipvs);
    JoinExactly(x.net, x.weights, x.leases, x.asg, x.ipvs);
    SingleWrite.BackendAtSlot(x.net, snap, l.slot);
    if i :| 0 <= i < |x.weights| && x.weights[i].ip == x.net.IpForSlot(l.slot) {
      assert snap.backends[i].lease == Some(l);
      CarrierFound(snap.backends, l.slot, i);
    }
    if BackendOf(snap.backends, l.slot).Some? {
      k :| 0 <= k < |snap.backends| && snap.backends[k] == BackendOf(snap.backends, l.slot).value;
    }
  }

  lemma {:induction false} ConnectionsExactly(x: Inputs, k: nat)
    requires k < |x.weights|
    ensures Connections(Snap(x).backends[k]) == 0 <==> NoConnections(x, x.weights[k].ip)
  {
    hide IpToLease, FindIpvs;
    JoinExactly(x.net, x.weights, x.leases, x.asg, x.ipvs);
    if x.ipvs.Some? {
      FindsFirst(x.ipvs.value, x.weights[k].ip);
    }
  }

  lemma FileIsUnique(x: Inputs, k: nat, slot: u32, state: BackendState)
    requires Proper(x) && k < |x.weights| && x.weights[k].ip == x.net.IpForSlot(slot)
    ensures FileOf(x, slot, state) <==> x.weights[k].state == state
  {
  }

  // -- section 2.1 ---------------------------------------------------------------------------

  /** What is wanted for one lease. */
  ghost predicate Wanted(x: Inputs, termDecrements: bool, nowMs: nat, l: SlotLease, a: Action)
  {
    var ip := x.net.IpForSlot(l.slot);
    var serves := ListedInService(x.asg, l.owner);
    var spent := serves && FileOf(x, l.slot, Draining) && NoConnections(x, ip) && CanSpare(x);
    KnownOwner(l.owner) &&
    match a
    case DelOwner(slot) => slot == l.slot && !serves
    case RemLease(slot) => slot == l.slot && !serves
    case AddAvailable(slot, at) => slot == l.slot && at == nowMs && !serves
    case Terminate(id, decrement) => id == l.owner && decrement == termDecrements && spent
    case WriteWeight(at, state) =>
      && at == ip && (exists k :: 0 <= k < |x.weights| && x.weights[k].ip == ip)
      && ((state == Disabled && (!serves || spent))
          || (state == Active && serves && FileOf(x, l.slot, Disabled) && nowMs < l.expiresMs))
  }

  lemma LeaseWants(x: Inputs, settings: Settings, nowMs: nat, l: SlotLease, a: Action)
    requires Proper(x) && l in x.leases && x.asg.Some? && |x.asg.value| > 0
    ensures a in LeasePlan(Snap(x), settings, nowMs, l) <==> Wanted(x, settings.termDecrements, nowMs, l, a)
  {
    hide Collect, BackendOf, InServiceIds, ListedInService, LeasePlan, Connections, NoConnections, FileOf, Proper;
    var snap := Snap(x);
    LeaseDecisions.Decisions(snap, settings, nowMs, l, a);
    SeenInService(x, l.owner);
    SentinelsAre();
    SeenGroup(x);
    var k := BackendIsFile(x, l);
    if BackendOf(snap.backends, l.slot).Some? {
      BackendStates(x, k);
      FileIsUnique(x, k, l.slot, Draining);
      FileIsUnique(x, k, l.slot, Disabled);
    } else {
      NoFile(x, l.slot);
    }
  }

  lemma SentinelsAre()
    ensures OWNER_MISSING == "(missing)" && OWNER_UNKNOWN == "(unknown)"
  {
  }

  lemma NoFile(x: Inputs, slot: u32)
    requires forall k :: 0 <= k < |x.weights| ==> x.weights[k].ip != x.net.IpForSlot(slot)
    ensures forall state :: !FileOf(x, slot, state)
  {
  }

  lemma {:induction false} BackendStates(x: Inputs, k: nat)
    requires k < |x.weights|
    ensures var b := Snap(x).backends[k];
            && k < |Snap(x).backends| && b.ip == x.weights[k].ip && b.weight == x.weights[k].state
            && (Connections(b) == 0 <==> NoConnections(x, x.weights[k].ip))
  {
    hide Collect, Connections, NoConnections;
    JoinExactly(x.net, x.weights, x.leases, x.asg, x.ipvs);
    ConnectionsExactly(x, k);
  }

  lemma SeenInService(x: Inputs, id: string)
    ensures id in InServiceIds(Snap(x).asg) <==> ListedInService(x.asg, id)
  {
    hide InServiceIds, ListedInService, IpToLease, Instances;
    InServiceExactly(x.asg, id);
  }

  lemma SeenGroup(x: Inputs)
    ensures Snap(x).asgGroup.Some? <==> x.asg.Some? && |x.asg.value| > 0
    ensures Snap(x).asgGroup.Some? ==>
      (Snap(x).asgGroup.value.min < Snap(x).asgGroup.value.desired <==> CanSpare(x))
  {
    GroupExactly(x.net, x.weights, x.leases, x.asg, x.ipvs);
  }

  lemma PlausibleExactly(x: Inputs)
    requires x.leases != []
    ensures !Implausible(Snap(x)) <==> SomeoneServes(x.asg)
  {
    hide InServiceIds, ListedInService, Instances, IpToLease;
    SeenGroup(x);
    if id :| ListedInService(x.asg, id) {
      SeenInService(x, id);
      ListedMeansGroup(x.asg, id);
    }
    if InServiceIds(Snap(x).asg) != {} {
      var id :| id in InServiceIds(Snap(x).asg);
      SeenInService(x, id);
    }
  }

  lemma ListedMeansGroup(asg: AsgReply, id: string)
    requires ListedInService(asg, id)
    ensures asg.Some? && |asg.value| > 0
  {
  }

  /**
   Section 2.1: an action is planned if and only if the reply lists someone InService
   and some lease wants it. A known owner that the reply does not list InService, in
   whatever other state it may list it, has its slot released.
   */
  lemma Section21Exactly(x: Inputs, settings: Settings, nowMs: nat, a: Action)
    requires Proper(x)
    ensures Planned(LeasePlans(Snap(x), settings, nowMs), a) <==>
            && SomeoneServes(x.asg)
            && exists l :: l in x.leases && Wanted(x, settings.termDecrements, nowMs, l, a)
  {
    hide LeasePlan, Wanted, Collect, SomeoneServes, Proper, InServiceIds;
    var plans := LeasePlans(Snap(x), settings, nowMs);
    JoinExactly(x.net, x.weights, x.leases, x.asg, x.ipvs);
    if x.leases != [] {
      PlausibleExactly(x);
      SeenGroup(x);
      if !Implausible(Snap(x)) {
        forall k | 0 <= k < |x.leases|
          ensures a in plans[k] <==> Wanted(x, settings.termDecrements, nowMs, x.leases[k], a)
        {
          LeaseWants(x, settings, nowMs, x.leases[k], a);
        }
        if l :| l in x.leases && Wanted(x, settings.termDecrements, nowMs, l, a) {
          var k :| 0 <= k < |x.leases| && x.leases[k] == l;
          assert a in plans[k];
        }
        if Planned(plans, a) {
          var k :| 0 <= k < |plans| && a in plans[k];
          assert x.leases[k] in x.leases;
        }
      }
    }
  }

  // -- section 2.3 ---------------------------------------------------------------------------

  /** Section 2.3 disables exactly the active and draining weight files at the address of no lease. */
  lemma {:induction false} Section23Exactly(x: Inputs, a: Action)
    requires Proper(x)
    ensures Planned(BackendPlans(Snap(x)), a) <==>
            && a.WriteWeight? && a.state == Disabled
            && (exists k :: 0 <= k < |x.weights| && x.weights[k].ip == a.ip
                  && (x.weights[k].state == Active || x.weights[k].state == Draining))
            && (forall l :: l in x.leases ==> x.net.IpForSlot(l.slot) != a.ip)
  {
    hide Collect, Proper;
    var snap := Snap(x);
    var plans := BackendPlans(snap);
    JoinExactly(x.net, x.weights, x.leases, x.asg, x.ipvs);
    forall k | 0 <= k < |x.weights|
      ensures snap.backends[k].lease.None? <==> forall l :: l in x.leases ==> x.net.IpForSlot(l.slot) != x.weights[k].ip
    {
      Leaseless(x, k);
    }
    forall k | 0 <= k < |x.weights| && a in BackendPlan(snap.backends[k]) ensures Planned(plans, a) {
      assert a in plans[k];
    }
  }

  lemma {:induction false} Leaseless(x: Inputs, k: nat)
    requires Proper(x) && k < |x.weights|
    ensures Snap(x).backends[k].lease.None? <==>
            forall l :: l in x.leases ==> x.net.IpForSlot(l.slot) != x.weights[k].ip
  {
    hide IpToLease, FindIpvs;
    var b := Snap(x).backends[k];
    forall l | l in x.leases && x.net.IpForSlot(l.slot) == x.weights[k].ip ensures b.lease == Some(l) {
      CarriesLease(x.net, x.weights, x.leases, x.asg, x.ipvs, k, l);
    }
    if b.lease.Some? {
      CarriesLease(x.net, x.weights, x.leases, x.asg, x.ipvs, k, b.lease.value);
    }
  }

  // -- what the scaler counts --------------------------------------------------------------------

  /** The file's backend counts, with half its connections: active, leased for longer, and known to IPVS. */
  ghost predicate CountsAs(x: Inputs, nowMs: nat, k: nat, sessions: nat)
    requires k < |x.weights|
  {
    && x.weights[k].state == Active
    && (exists l :: l in x.leases && x.net.IpForSlot(l.slot) == x.weights[k].ip && nowMs < l.expiresMs)
    && x.ipvs.Some? && (exists j: nat :: FirstAt(x.ipvs.value, x.weights[k].ip, j)
                          && sessions == x.ipvs.value[j].activeConnections / 2)
  }

  /** Exactly which weight files take part in the scaler's decisions, and with how many sessions. */
  lemma {:induction false} CountedExactly(x: Inputs, nowMs: nat, k: nat, sessions: nat)
    requires Proper(x) && k < |x.weights|
    ensures var b := Snap(x).backends[k];
            (b in Scaler.ActiveOf(Snap(x).backends, nowMs) && Scaler.Load(b) == sessions) <==>
            CountsAs(x, nowMs, k, sessions)
  {
    hide IpToLease, FindIpvs, Scaler.ActiveOf;
    var snap := Snap(x);
    var b := snap.backends[k];
    JoinExactly(x.net, x.weights, x.leases, x.asg, x.ipvs);
    ScalerRuns.ActiveAre(snap.backends, nowMs);
    assert b in snap.backends;
    if x.ipvs.Some? {
      FindsFirst(x.ipvs.value, x.weights[k].ip);
    }
    forall l | l in x.leases && x.net.IpForSlot(l.slot) == x.weights[k].ip ensures b.lease == Some(l) {
      CarriesLease(x.net, x.weights, x.leases, x.asg, x.ipvs, k, l);
    }
    if b.lease.Some? {
      CarriesLease(x.net, x.weights, x.leases, x.asg, x.ipvs, k, b.lease.value);
    }
  }

  /** The two averages, by what they bound: sessions in all, against sessions per backend. */
  lemma {:induction false} AveragesExactly(active: seq<BackendStatus>, limit: nat)
    requires active != []
    ensures Scaler.CeilAvg(active) > limit <==> Scaler.Total(active) > limit * |active|
    ensures Scaler.FloorAvg(active) >= limit <==> Scaler.Total(active) >= limit * |active|
  {
    hide Scaler.Total;
    var t, n := Scaler.Total(active), |active|;
    QuotientReaches(t + n - 1, n, limit + 1);
    QuotientReaches(t, n, limit);
  }

  lemma QuotientReaches(t: nat, n: nat, limit: nat)
    requires n > 0
    ensures t / n >= limit <==> t >= limit * n
  {
    var q := t / n;
    assert q * n <= t < q * n + n;
    if q >= limit {
      Times(limit, q, n);
    } else {
      Times(q + 1, limit, n);
    }
  }

  lemma Times(a: int, b: int, n: nat)
    requires a <= b
    ensures a * n <= b * n
  {
  }

  /** The average, rounded up, is at least `limit`. */
  predicate Reaches(active: seq<BackendStatus>, limit: nat)
  {
    limit == 0 || Scaler.Total(active) > (limit - 1) * |active|
  }

  lemma {:induction false} CeilReaches(active: seq<BackendStatus>, limit: nat)
    requires active != []
    ensures Scaler.CeilAvg(active) >= limit <==> Reaches(active, limit)
  {
    hide Scaler.CeilAvg, Scaler.Total;
    if limit > 0 {
      AveragesExactly(active, limit - 1);
    }
  }

  /** A share of a truncated rate is at least `limit` exactly when the rate is that much for each. */
  lemma ShareExactly(rate: real, n: nat, limit: nat)
    requires n > 0 && rate > 0.0
    ensures Scaler.Truncate(rate) / n >= limit <==> limit * n <= MAX_U64 && (limit * n) as real <= rate
  {
    var t := Scaler.Truncate(rate);
    var q := t / n;
    assert q * n <= t < q * n + n;
    if q >= limit {
      Times(limit, q, n);
    } else {
      Times(q + 1, limit, n);
    }
    FloorFits(rate, limit * n);
  }

  lemma FloorFits(rate: real, m: nat)
    requires rate > 0.0
    ensures Scaler.Truncate(rate) >= m <==> m <= MAX_U64 && m as real <= rate
  {
  }

  /**
   The triggers of a pass: the sessions per backend at the ceiling; or at the floor,
   with a slope, or a smoothed bandwidth per backend, at its threshold.
   */
  lemma {:induction false} TriggersExactly(s: Scaler.State, config: Scaler.ScaleConfig, active: seq<BackendStatus>,
                                           around: Scaler.Around)
    requires active != []
    ensures var t := Scaler.TriggersOf(s, config, active, around);
            var slope := Scaler.Slope(s.samples, Scaler.CeilAvg(active), around.now);
            var smoothed := Scaler.ReadBandwidth(s, around.iface).bwSmoothed;
            var share := config.bwThreshold * |active|;
            && (t.hard <==> Reaches(active, config.hardConnThreshold))
            && (t.slope <==>
                  Reaches(active, config.slopeLowFloor) && slope.Some? && slope.value >= config.slopeThreshold)
            && (t.bandwidth <==>
                  Reaches(active, config.slopeLowFloor) &&
                  smoothed > 0.0 && share <= MAX_U64 && smoothed >= share as real)
  {
    hide Scaler.CeilAvg, Scaler.Slope, Scaler.ReadBandwidth, Scaler.Truncate, Reaches;
    CeilReaches(active, config.hardConnThreshold);
    CeilReaches(active, config.slopeLowFloor);
    var smoothed := Scaler.ReadBandwidth(s, around.iface).bwSmoothed;
    if smoothed > 0.0 {
      ShareExactly(smoothed, |active|, config.bwThreshold);
    }
  }

  // -- a cycle of the daemon ---------------------------------------------------------------------

  function InputsOf(f: Fixed, past: seq<Cycle>, c: Cycle): Inputs
  {
    Inputs(f.net, c.weights, Reported(Raws(past), c.raw), c.asg, c.ipvs)
  }

  lemma {:induction false} SnapshotFromInputs(f: Fixed, past: seq<Cycle>, c: Cycle)
    ensures SnapshotOf(f, After(f, past).cache, c) == Snap(InputsOf(f, past, c))
  {
    hide Resolve, Collect, After, CacheAfter;
    CacheOfRun(f, past);
  }

  /** Redis's last answer about the slot of the `i`-th lease, in all cycles so far, named this owner. */
  ghost predicate Answered(past: seq<Cycle>, c: Cycle, i: nat, id: string)
    requires i < |c.raw|
  {
    LastAnswer(Reads(Raws(past)) + c.raw[..i + 1], c.raw[i].slot) == Some(Found(id))
  }

  lemma {:induction false} OwnerAnswered(past: seq<Cycle>, c: Cycle, i: nat, id: string)
    requires i < |c.raw| && KnownOwner(id)
    ensures OwnerOf(RefreshAll(CacheAfter(Raws(past)), c.raw[..i]), c.raw[i]) == id <==> Answered(past, c, i, id)
  {
    hide LastAnswer, Reads, Raws, CacheAfter, RefreshAll;
    SentinelsAre();
    OwnerIsLastAnswer(Raws(past), c.raw, i);
    NeverFailed(Reads(Raws(past)) + c.raw[..i + 1], c.raw[i].slot);
  }

  /** The reported leases, by the reads they come from. */
  lemma {:induction false} ReportedFrom(past: seq<Cycle>, c: Cycle, slot: u32, id: string)
    requires KnownOwner(id)
    ensures (exists l :: l in Reported(Raws(past), c.raw) && l.slot == slot && l.owner == id) <==>
            exists i :: 0 <= i < |c.raw| && c.raw[i].slot == slot && Answered(past, c, i, id)
  {
    hide Resolve, CacheAfter, RefreshAll, Raws, Answered;
    var cache := CacheAfter(Raws(past));
    var found := Resolve(cache, c.raw);
    Sorting.SortKeeps(found, BySlot);
    forall i | 0 <= i < |c.raw|
      ensures found[i].slot == c.raw[i].slot && (found[i].owner == id <==> Answered(past, c, i, id))
    {
      ResolveAt(cache, c.raw, i);
      OwnerAnswered(past, c, i, id);
    }
    if l :| l in Reported(Raws(past), c.raw) && l.slot == slot && l.owner == id {
      var i :| 0 <= i < |found| && found[i] == l;
      assert c.raw[i].slot == slot;
    }
    if i :| 0 <= i < |c.raw| && c.raw[i].slot == slot && Answered(past, c, i, id) {
      assert found[i] in Reported(Raws(past), c.raw);
    }
  }

  /** The `i`-th lease is the slot's, its last answered owner known, and the reply does not list it InService. */
  ghost predicate OwnerGone(past: seq<Cycle>, c: Cycle, slot: u32, i: nat, id: string)
  {
    && i < |c.raw| && c.raw[i].slot == slot && Answered(past, c, i, id)
    && KnownOwner(id) && !ListedInService(c.asg, id)
  }

  /**
   Releases, from the answers and the reply: a cycle plans to delete a slot's owner
   key, and likewise to remove its lease and to make it available, if and only if the
   reply lists some instance InService and the last answered owner of the slot's
   lease is known and not listed InService.
   */
  lemma {:induction false} ReleasedExactly(f: Fixed, past: seq<Cycle>, c: Cycle, slot: u32, a: Action)
    requires DistinctRaw(c.raw) && DistinctIps(c.weights)
    requires a == DelOwner(slot) || a == RemLease(slot) || a == AddAvailable(slot, c.nowMs)
    ensures Planned(LeasePlans(SnapshotOf(f, After(f, past).cache, c), f.settings, c.nowMs), a) <==>
            && SomeoneServes(c.asg)
            && exists i: nat, id :: OwnerGone(past, c, slot, i, id)
  {
    hide LeasePlans, SomeoneServes, Collect, Reported, Answered, ListedInService, After, KnownOwner, FileOf;
    var x := InputsOf(f, past, c);
    SnapshotFromInputs(f, past, c);
    ReportedSlots(Raws(past), c.raw);
    Section21Exactly(x, f.settings, c.nowMs, a);
    if l :| l in x.leases && Wanted(x, f.settings.termDecrements, c.nowMs, l, a) {
      ReportedFrom(past, c, slot, l.owner);
      var i :| 0 <= i < |c.raw| && c.raw[i].slot == slot && Answered(past, c, i, l.owner);
      assert OwnerGone(past, c, slot, i, l.owner);
    }
    if i: nat, id :| OwnerGone(past, c, slot, i, id) {
      ReportedFrom(past, c, slot, id);
      var l :| l in x.leases && l.slot == slot && l.owner == id;
      assert Wanted(x, f.settings.termDecrements, c.nowMs, l, a);
    }
  }

  /** No lease's last answered owner is this instance. */
  ghost predicate NeverAnswered(past: seq<Cycle>, c: Cycle, id: string)
  {
    forall i :: 0 <= i < |c.raw| ==> !Answered(past, c, i, id)
  }

  /** Its timer has run for the grace period. */
  predicate TimeIsUp(f: Fixed, past: seq<Cycle>, c: Cycle, id: string)
  {
    var seen := After(f, past).seen;
    id in seen && (f.settings.graceSecs == 0 || seen[id] + 1000 * f.settings.graceSecs <= c.now)
  }

  /**
   Section 2.2, from the answers and the reply: the instances terminated, without
   decrementing the capacity, are those listed InService whose lease no last answer
   names and whose time is up; the ones timed are the others of them.
   */
  lemma {:induction false} OrphansExactly(f: Fixed, past: seq<Cycle>, c: Cycle, id: string)
    requires c.asg.Some? ==> OrphanGrace.DistinctIds(Instances(c.asg.value))
    requires KnownOwner(id)
    ensures var snap, seen := SnapshotOf(f, After(f, past).cache, c), After(f, past).seen;
            var orphan := ListedInService(c.asg, id) && NeverAnswered(past, c, id);
            && (Planned(OrphanPlans(snap, f.settings, seen, c.now), Terminate(id, false)) <==>
                  orphan && TimeIsUp(f, past, c, id))
            && (id in Timers(snap, f.settings, seen, c.now) <==> orphan && !TimeIsUp(f, past, c, id))
  {
    hide Collect, After, Answered, ListedInService, InServiceIds, LeasedOwners, ObserveAll, KnownOwner, Reported;
    var x := InputsOf(f, past, c);
    var seen := After(f, past).seen;
    SnapshotFromInputs(f, past, c);
    var snap := Snap(x);
    NamedExactly(f, past, c, id);
    SeenInService(x, id);
    ServesExactly(snap.asg, id);
    SnapInstances(x);
    OrphanGrace.ScanOne(seen, snap.asg, LeasedOwners(snap.leases), f.settings.graceSecs, c.now, id);
    DoomedPlanned(snap, f.settings, seen, c.now, id);
    ElapsedExactly(c.now, if id in seen then seen[id] else 0, f.settings.graceSecs);
    hide OrphanPlans;
  }

  lemma {:induction false} SnapInstances(x: Inputs)
    ensures Snap(x).asg == if x.asg.Some? then Instances(x.asg.value) else []
    ensures Snap(x).leases == x.leases
  {
    hide IpToLease, Instances;
  }

  lemma {:induction false} ServesExactly(asg: seq<AsgInstance>, id: string)
    ensures id in InServiceIds(asg) <==> exists i :: 0 <= i < |asg| && asg[i].id == id && InService(asg[i])
  {
    if i :| 0 <= i < |asg| && asg[i].id == id && InService(asg[i]) {
      assert asg[i] in asg;
    }
  }

  lemma ElapsedExactly(now: nat, since: nat, graceSecs: nat)
    ensures Elapsed(now, since) >= graceSecs <==> graceSecs == 0 || since + 1000 * graceSecs <= now
  {
  }

  lemma DoomedPlanned(snap: SystemSnapshot, settings: Settings, seen: map<string, nat>, now: nat, id: string)
    ensures Planned(OrphanPlans(snap, settings, seen, now), Terminate(id, false)) <==>
            id in OrphanScan(snap, settings, seen, now).doomed
  {
    hide OrphanScan;
    var doomed, plans := OrphanScan(snap, settings, seen, now).doomed, OrphanPlans(snap, settings, seen, now);
    if id in doomed {
      var k :| 0 <= k < |doomed| && doomed[k] == id;
      assert Terminate(id, false) in plans[k];
    }
  }

  lemma {:induction false} NamedExactly(f: Fixed, past: seq<Cycle>, c: Cycle, id: string)
    requires KnownOwner(id)
    ensures id in LeasedOwners(InputsOf(f, past, c).leases) <==> !NeverAnswered(past, c, id)
  {
    hide Reported, Answered, Raws, KnownOwner;
    var leases := InputsOf(f, past, c).leases;
    if id in LeasedOwners(leases) {
      var l :| l in leases && l.owner == id;
      ReportedFrom(past, c, l.slot, id);
    }
    if i :| 0 <= i < |c.raw| && Answered(past, c, i, id) {
      ReportedFrom(past, c, c.raw[i].slot, id);
    }
  }
}
