/** Runs of the daemon: cycle after cycle, the caches and timers carried along. */
module DaemonRuns {
  import opened Options
  import opened Snapshot
  import opened Leases
  import opened Cleanup
  import Scaler
  import Sorting

  /** What a cycle finds outside: Redis's answers, the weight files, the ASG, IPVS, its role and the clocks. */
  datatype Cycle = Cycle(raw: seq<RawLease>, weights: seq<WeightEntry>, asg: AsgReply, ipvs: Option<seq<IpvsBackend>>,
                         isMaster: bool, nowMs: nat, now: nat)

  datatype Fixed = Fixed(net: SlotNetwork, settings: Settings, env: Env)

  /** What survives from cycle to cycle: the owner cache, the orphan timers and what has been done. */
  datatype Memory = Memory(cache: OwnerCache, seen: map<string, nat>, log: seq<Attempt>)

  function SnapshotOf(f: Fixed, cache: OwnerCache, c: Cycle): SystemSnapshot
  {
    Collect(f.net, c.weights, Sorting.SortBy(Resolve(cache, c.raw), BySlot), c.asg, c.ipvs)
  }

  function AfterCycle(f: Fixed, m: Memory, c: Cycle): Memory
  {
    var snap := SnapshotOf(f, m.cache, c);
    var cache := RefreshAll(m.cache, c.raw);
    if c.isMaster then
      Memory(cache, Timers(snap, f.settings, m.seen, c.now),
             TryAll(f.env, m.log, Plans(snap, f.settings, m.seen, c.nowMs, c.now)))
    else m.(cache := cache)
  }

  function After(f: Fixed, cycles: seq<Cycle>): Memory
  {
    if cycles == [] then Memory(map[], map[], [])
    else AfterCycle(f, After(f, cycles[..|cycles| - 1]), cycles[|cycles| - 1])
  }

  function Raws(cycles: seq<Cycle>): seq<seq<RawLease>>
  {
    if cycles == [] then [] else Raws(cycles[..|cycles| - 1]) + [cycles[|cycles| - 1].raw]
  }

  /** One turn of the daemon's refresh loop: snapshot, cleanup and, on the master, the scaler. */
  method RefreshCycle(net: SlotNetwork, config: Scaler.ScaleConfig, reader: LeaseReader, daemon: CleanupDaemon,
                      scaler: Scaler.ScalerState, c: Cycle, around: Scaler.Around)
    returns (snapshot: SystemSnapshot, effects: Scaler.Effects)
    modifies reader, daemon, scaler
    ensures var f := Fixed(net, daemon.settings, daemon.env);
            var before := Memory(old(reader.ownerCache), old(daemon.orphanFirstSeen), old(daemon.log));
            && Memory(reader.ownerCache, daemon.orphanFirstSeen, daemon.log) == AfterCycle(f, before, c)
            && snapshot == SnapshotOf(f, before.cache, c)
    ensures var s := old(scaler.Value());
            if c.isMaster then
              && scaler.Value() == Scaler.Pass(s, config, snapshot, daemon.env.dryRun, around)
              && effects == Scaler.PassEffects(s, config, snapshot, daemon.env.dryRun, around)
            else scaler.Value() == s && effects == Scaler.Effects(None, None)
  {
    hide TryAll, Plans, Timers, Resolve, RefreshAll, Collect, Scaler.Pass, Scaler.PassEffects;
    var leases := reader.ReadAll(c.raw);
    snapshot := Collect(net, c.weights, leases, c.asg, c.ipvs);
    daemon.Run(snapshot, c.isMaster, c.nowMs, c.now);
    if c.isMaster {
      effects := scaler.Run(config, snapshot, daemon.env.dryRun, around);
    } else {
      effects := Scaler.Effects(None, None);
    }
  }

  lemma {:induction false} CacheOfRun(f: Fixed, cycles: seq<Cycle>)
    ensures After(f, cycles).cache == CacheAfter(Raws(cycles))
  {
    hide TryAll, Plans, Timers, SnapshotOf;
    if cycles != [] {
      var init := cycles[..|cycles| - 1];
      CacheOfRun(f, init);
      var raws := Raws(cycles);
      assert raws[..|raws| - 1] == Raws(init);
    }
  }

  // -- what ends up in the log was planned --------------------------------------------------

  ghost predicate Extends(a: seq<Attempt>, b: seq<Attempt>) { |a| <= |b| && b[..|a|] == a }

  ghost predicate Planned(plans: seq<seq<Action>>, a: Action)
  {
    exists k :: 0 <= k < |plans| && a in plans[k]
  }

  lemma {:induction false} TriedWasPlanned(env: Env, log: seq<Attempt>, plan: seq<Action>)
    ensures Extends(log, Try(env, log, plan))
    ensures forall i :: |log| <= i < |Try(env, log, plan)| ==> Try(env, log, plan)[i].action in plan
    decreases |plan|
  {
    if plan != [] && !env.dryRun {
      var next := log + [Attempt(plan[0], env.io(|log|))];
      if env.io(|log|) {
        TriedWasPlanned(env, next, plan[1..]);
        var t := Try(env, next, plan[1..]);
        assert t[..|log|] == t[..|next|][..|log|];
        assert t[|log|] == t[..|next|][|log|];
      }
    }
  }

  lemma {:induction false} AllTriedWasPlanned(env: Env, log: seq<Attempt>, plans: seq<seq<Action>>)
    ensures Extends(log, TryAll(env, log, plans))
    ensures forall i :: |log| <= i < |TryAll(env, log, plans)| ==> Planned(plans, TryAll(env, log, plans)[i].action)
    decreases |plans|
  {
    hide Try;
    if plans != [] {
      var init, last := plans[..|plans| - 1], plans[|plans| - 1];
      AllTriedWasPlanned(env, log, init);
      var mid := TryAll(env, log, init);
      TriedWasPlanned(env, mid, last);
      var t := Try(env, mid, last);
      assert t[..|log|] == t[..|mid|][..|log|];
      forall i | |log| <= i < |t| ensures Planned(plans, t[i].action) {
        if i < |mid| {
          assert t[i] == t[..|mid|][i] == mid[i];
          var k :| 0 <= k < |init| && mid[i].action in init[k];
          assert plans[k] == init[k];
        } else {
          assert t[i].action in plans[|plans| - 1];
        }
      }
    }
  }

  // -- evidence before release -----------------------------------------------------------------

  predicate Releases(a: Action, slot: u32)
  {
    a == DelOwner(slot) || a == RemLease(slot) || (a.AddAvailable? && a.slot == slot)
  }

  lemma PlannedWhere(snap: SystemSnapshot, settings: Settings, seen: map<string, nat>, nowMs: nat, now: nat, a: Action)
    requires Planned(Plans(snap, settings, seen, nowMs, now), a)
    ensures Planned(LeasePlans(snap, settings, nowMs), a) || Planned(OrphanPlans(snap, settings, seen, now), a)
         || Planned(BackendPlans(snap), a)
  {
    hide LeasePlans, OrphanPlans, BackendPlans;
    var x, y, z := LeasePlans(snap, settings, nowMs), OrphanPlans(snap, settings, seen, now), BackendPlans(snap);
    var k :| 0 <= k < |x + y + z| && a in (x + y + z)[k];
    if k < |x| {
      assert a in x[k];
    } else if k < |x + y| {
      assert a in y[k - |x|];
    } else {
      assert a in z[k - |x + y|];
    }
  }

  lemma ReleaseNeedsEvidence(snap: SystemSnapshot, settings: Settings, seen: map<string, nat>, nowMs: nat, now: nat,
                             a: Action, slot: u32)
    returns (l: SlotLease)
    requires Planned(Plans(snap, settings, seen, nowMs, now), a) && Releases(a, slot)
    ensures l in snap.leases && l.slot == slot
    ensures l.owner != OWNER_MISSING && l.owner != OWNER_UNKNOWN && l.owner !in InServiceIds(snap.asg)
    ensures snap.asgGroup.Some? && InServiceIds(snap.asg) != {}
  {
    hide LeasePlan, BackendPlan, OrphanScan, InServiceIds, Plans, LeasePlans, BackendPlans, OrphanPlans, Releases;
    PlannedWhere(snap, settings, seen, nowMs, now, a);
    NoOtherReleases(snap, settings, seen, now, a, slot);
    l := ReleasedLease(snap, settings, nowMs, a, slot);
  }

  lemma NoOtherReleases(snap: SystemSnapshot, settings: Settings, seen: map<string, nat>, now: nat, a: Action,
                        slot: u32)
    requires Releases(a, slot)
    ensures !Planned(BackendPlans(snap), a) && !Planned(OrphanPlans(snap, settings, seen, now), a)
  {
    hide OrphanScan;
  }

  lemma ReleasedLease(snap: SystemSnapshot, settings: Settings, nowMs: nat, a: Action, slot: u32) returns (l: SlotLease)
    requires Planned(LeasePlans(snap, settings, nowMs), a) && Releases(a, slot)
    ensures l in snap.leases && l.slot == slot
    ensures l.owner != OWNER_MISSING && l.owner != OWNER_UNKNOWN && l.owner !in InServiceIds(snap.asg)
    ensures snap.asgGroup.Some? && InServiceIds(snap.asg) != {}
  {
    hide BackendOf, InServiceIds, LeasePlan;
    var plans := LeasePlans(snap, settings, nowMs);
    var k :| 0 <= k < |plans| && a in plans[k];
    l := snap.leases[k];
    ReleasedForOwner(snap, settings, nowMs, l, a, slot);
  }

  lemma ReleasedForOwner(snap: SystemSnapshot, settings: Settings, nowMs: nat, l: SlotLease, a: Action, slot: u32)
    requires a in LeasePlan(snap, settings, nowMs, l) && Releases(a, slot)
    ensures l.slot == slot
    ensures l.owner != OWNER_MISSING && l.owner != OWNER_UNKNOWN && l.owner !in InServiceIds(snap.asg)
  {
    hide BackendOf, InServiceIds;
  }

  /**
   Over a whole run, a slot is released only in a cycle in which the ASG group is
   known and has an instance InService, and only when the owner of its lease is
   not InService and is an id that was read from Redis, in this or an earlier
   cycle, with no other answer about that slot since.
   */
  lemma {:induction false} EvidenceBeforeRelease(f: Fixed, past: seq<Cycle>, c: Cycle, i: nat, slot: u32)
    returns (owner: string, n: nat)
    requires var before, after := After(f, past).log, After(f, past + [c]).log;
             |before| <= i < |after| && Releases(after[i].action, slot)
    ensures c.isMaster && c.asg.Some? && c.asg.value != [] && InServiceIds(Instances(c.asg.value)) != {}
    ensures owner !in InServiceIds(Instances(c.asg.value)) && owner != OWNER_MISSING && owner != OWNER_UNKNOWN
    ensures n < |c.raw| && c.raw[n].slot == slot && LastReadAs(Reads(Raws(past)) + c.raw[..n + 1], slot, owner)
  {
    var m := After(f, past);
    assert (past + [c])[..|past|] == past;
    hide Plans, Timers, TryAll, InServiceIds, LastReadAs, Reads;
    assert After(f, past + [c]) == AfterCycle(f, m, c);
    var snap := SnapshotOf(f, m.cache, c);
    AllTriedWasPlanned(f.env, m.log, Plans(snap, f.settings, m.seen, c.nowMs, c.now));
    var l := ReleaseNeedsEvidence(snap, f.settings, m.seen, c.nowMs, c.now, After(f, past + [c]).log[i].action, slot);
    CacheOfRun(f, past);
    assert snap.leases == Reported(Raws(past), c.raw);
    ReportedOwnerWasRead(Raws(past), c.raw, l);
    owner := l.owner;
    n :| 0 <= n < |c.raw| && c.raw[n].slot == l.slot && c.raw[n].expiresMs == l.expiresMs
      && LastReadAs(Reads(Raws(past)) + c.raw[..n + 1], l.slot, l.owner);
  }

  /** A cycle whose ASG query failed only disables backends that carry no lease. */
  lemma {:induction false} FailedQueryIsHarmless(f: Fixed, past: seq<Cycle>, c: Cycle, i: nat)
    requires c.asg.None? || c.asg.value == []
    requires DistinctRaw(c.raw) && DistinctIps(c.weights)
    requires |After(f, past).log| <= i < |After(f, past + [c]).log|
    ensures var a := After(f, past + [c]).log[i].action;
            && a.WriteWeight? && a.state == Disabled
            && (forall w :: w in c.weights && w.ip == a.ip ==> w.state == Active || w.state == Draining)
            && (forall r :: r in c.raw ==> f.net.IpForSlot(r.slot) != a.ip)
  {
    hide Plans, Timers, TryAll, After, Reported, SnapshotOf, Reads;
    var m := After(f, past);
    CacheOfRun(f, past);
    PlannedInCycle(f, m, c, past, i);
    FailedQueryPlans(f, past, m, c, After(f, past + [c]).log[i].action);
  }

  lemma {:induction false} FailedQueryPlans(f: Fixed, past: seq<Cycle>, m: Memory, c: Cycle, a: Action)
    requires c.asg.None? || c.asg.value == []
    requires DistinctRaw(c.raw) && DistinctIps(c.weights) && m.cache == CacheAfter(Raws(past))
    requires Planned(Plans(SnapshotOf(f, m.cache, c), f.settings, m.seen, c.nowMs, c.now), a)
    ensures a.WriteWeight? && a.state == Disabled
    ensures forall w :: w in c.weights && w.ip == a.ip ==> w.state == Active || w.state == Draining
    ensures forall r :: r in c.raw ==> f.net.IpForSlot(r.slot) != a.ip
  {
    hide Plans, Timers, TryAll, Resolve, CacheAfter;
    var snap := SnapshotOf(f, m.cache, c);
    ReportedSlots(Raws(past), c.raw);
    hide Reported;
    CollectJoinsWell(f.net, c.weights, snap.leases, c.asg, c.ipvs);
    OnlyUnleased(f, snap, m.seen, c.nowMs, c.now, a);
    forall r | r in c.raw ensures f.net.IpForSlot(r.slot) != a.ip {
      var n :| 0 <= n < |c.raw| && c.raw[n] == r;
      var j :| 0 <= j < |snap.leases| && snap.leases[j].slot == c.raw[n].slot;
      assert snap.leases[j] in snap.leases;
    }
    WeightOf(f, m, c, a.ip);
  }

  lemma WeightOf(f: Fixed, m: Memory, c: Cycle, ip: u32)
    requires DistinctIps(c.weights)
    requires var snap := SnapshotOf(f, m.cache, c);
             exists k :: 0 <= k < |snap.backends| && snap.backends[k].ip == ip
               && (snap.backends[k].weight == Active || snap.backends[k].weight == Draining)
    ensures forall w :: w in c.weights && w.ip == ip ==> w.state == Active || w.state == Draining
  {
    hide Resolve, IpToLease, FindIpvs;
    var snap := SnapshotOf(f, m.cache, c);
    var k :| 0 <= k < |snap.backends| && snap.backends[k].ip == ip
      && (snap.backends[k].weight == Active || snap.backends[k].weight == Draining);
    assert snap.backends[k].ip == c.weights[k].ip && snap.backends[k].weight == c.weights[k].state;
  }

  lemma {:induction false} PlannedInCycle(f: Fixed, m: Memory, c: Cycle, past: seq<Cycle>, i: nat)
    requires m == After(f, past) && |m.log| <= i < |After(f, past + [c]).log|
    ensures c.isMaster
    ensures var snap := SnapshotOf(f, m.cache, c);
            Planned(Plans(snap, f.settings, m.seen, c.nowMs, c.now), After(f, past + [c]).log[i].action)
  {
    assert (past + [c])[..|past|] == past;
    hide Plans, Timers, TryAll, SnapshotOf;
    assert After(f, past + [c]) == AfterCycle(f, m, c);
    AllTriedWasPlanned(f.env, m.log, Plans(SnapshotOf(f, m.cache, c), f.settings, m.seen, c.nowMs, c.now));
  }

  lemma OnlyUnleased(f: Fixed, snap: SystemSnapshot, seen: map<string, nat>, nowMs: nat, now: nat, a: Action)
    requires WellJoined(f.net, snap) && snap.asgGroup.None?
    requires Planned(Plans(snap, f.settings, seen, nowMs, now), a)
    ensures a.WriteWeight? && a.state == Disabled
    ensures exists k :: 0 <= k < |snap.backends| && snap.backends[k].ip == a.ip
              && (snap.backends[k].weight == Active || snap.backends[k].weight == Draining)
    ensures forall l :: l in snap.leases ==> f.net.IpForSlot(l.slot) != a.ip
  {
    PlannedWhere(snap, f.settings, seen, nowMs, now, a);
    assert LeasePlans(snap, f.settings, nowMs) == [];
    assert OrphanScan(snap, f.settings, seen, now).doomed == [];
    var plans := BackendPlans(snap);
    var k :| 0 <= k < |plans| && a in plans[k];
    forall l | l in snap.leases ensures f.net.IpForSlot(l.slot) != a.ip {
      assert snap.backends[k].lease != Some(l);
    }
  }
}
