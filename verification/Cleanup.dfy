/**
 The cleanup pass: what each section decides to do about a snapshot, and how the
 decisions are carried out when any single action may fail.
 */
module Cleanup {
  import opened Options
  import opened Snapshot
  import Leases

  /** What the daemon does to the outside world. */
  datatype Action =
    | DelOwner(slot: u32)
    | RemLease(slot: u32)
    | AddAvailable(slot: u32, at: nat)
    | WriteWeight(ip: u32, state: BackendState)
    | Terminate(id: string, decrement: bool)

  datatype Attempt = Attempt(action: Action, ok: bool)

  /** `io(n)` tells whether the `n`-th action of the daemon's life succeeds. */
  datatype Env = Env(dryRun: bool, io: nat -> bool)

  datatype Settings = Settings(termDecrements: bool, graceSecs: nat)

  // -- carrying out a plan: the first failure ends it ---------------------------------------

  function Try(env: Env, log: seq<Attempt>, plan: seq<Action>): seq<Attempt>
    decreases |plan|
  {
    if plan == [] || env.dryRun then log
    else
      var ok := env.io(|log|);
      var next := log + [Attempt(plan[0], ok)];
      if ok then Try(env, next, plan[1..]) else next
  }

  predicate AllWell(env: Env, log: seq<Attempt>, plan: seq<Action>)
    decreases |plan|
  {
    plan == [] || env.dryRun || (env.io(|log|) && AllWell(env, log + [Attempt(plan[0], true)], plan[1..]))
  }

  lemma {:induction false} TryAppends(env: Env, log: seq<Attempt>, a: seq<Action>, b: seq<Action>)
    ensures Try(env, log, a + b) == if AllWell(env, log, a) then Try(env, Try(env, log, a), b) else Try(env, log, a)
    ensures AllWell(env, log, a + b) <==> AllWell(env, log, a) && AllWell(env, Try(env, log, a), b)
    decreases |a|
  {
    if a == [] {
      assert a + b == b;
    } else if !env.dryRun && env.io(|log|) {
      assert (a + b)[1..] == a[1..] + b;
      TryAppends(env, log + [Attempt(a[0], true)], a[1..], b);
    }
  }

  /** Plans one after another; a failure ends one plan, not the others. */
  function TryAll(env: Env, log: seq<Attempt>, plans: seq<seq<Action>>): seq<Attempt>
    decreases |plans|
  {
    if plans == [] then log
    else Try(env, TryAll(env, log, plans[..|plans| - 1]), plans[|plans| - 1])
  }

  lemma {:induction false} TryAllAppends(env: Env, log: seq<Attempt>, a: seq<seq<Action>>, b: seq<seq<Action>>)
    ensures TryAll(env, log, a + b) == TryAll(env, TryAll(env, log, a), b)
    decreases |b|
  {
    if b == [] {
      assert a + b == a;
    } else {
      assert (a + b)[..|a + b| - 1] == a + b[..|b| - 1];
      TryAllAppends(env, log, a, b[..|b| - 1]);
    }
  }

  // -- section 2.1: leases -------------------------------------------------------------------

  /** The first backend that carries a lease of this slot. */
  function BackendOf(backends: seq<BackendStatus>, slot: u32): Option<BackendStatus>
  {
    if backends == [] then None
    else if backends[0].lease.Some? && backends[0].lease.value.slot == slot then Some(backends[0])
    else BackendOf(backends[1..], slot)
  }

  function Connections(b: BackendStatus): u32
  {
    if b.ipvs.Some? then b.ipvs.value.activeConnections else 0
  }

  function ReleasePlan(slot: u32, nowMs: nat): seq<Action>
  {
    [DelOwner(slot), RemLease(slot), AddAvailable(slot, nowMs)]
  }

  function LeasePlan(snap: SystemSnapshot, settings: Settings, nowMs: nat, lease: SlotLease): seq<Action>
  {
    var backend := BackendOf(snap.backends, lease.slot);
    if lease.owner == Leases.OWNER_MISSING || lease.owner == Leases.OWNER_UNKNOWN then []
    else if lease.owner !in InServiceIds(snap.asg) then
      ReleasePlan(lease.slot, nowMs) + if backend.Some? then [WriteWeight(backend.value.ip, Disabled)] else []
    else if backend.None? then []
    else
      match backend.value.weight
      case Active => []
      case Draining =>
        if Connections(backend.value) != 0 then []
        else if snap.asgGroup.Some? && WouldViolateMin(snap.asgGroup.value) then []
        else [WriteWeight(backend.value.ip, Disabled), Terminate(lease.owner, settings.termDecrements)]
      case Disabled =>
        if IsExpired(lease, nowMs) then [] else [WriteWeight(backend.value.ip, Active)]
      case Unknown(_) => []
  }

  /** The ASG data is not to be trusted. */
  predicate Implausible(snap: SystemSnapshot)
  {
    snap.asgGroup.None? || (InServiceIds(snap.asg) == {} && snap.leases != [])
  }

  function LeasePlans(snap: SystemSnapshot, settings: Settings, nowMs: nat): seq<seq<Action>>
  {
    if Implausible(snap) then []
    else seq(|snap.leases|, i requires 0 <= i < |snap.leases| => LeasePlan(snap, settings, nowMs, snap.leases[i]))
  }

  // -- section 2.2: instances without leases ------------------------------------------------

  function LeasedOwners(leases: seq<SlotLease>): set<string>
  {
    set l | l in leases :: l.owner
  }

  /** The timers, the instances still waiting, and the ones whose grace period is over. */
  datatype Orphans = Orphans(seen: map<string, nat>, waiting: set<string>, doomed: seq<string>)

  function Observe(o: Orphans, inst: AsgInstance, leased: set<string>, graceSecs: nat, now: nat): Orphans
  {
    if !InService(inst) then o
    else if inst.id in leased then o.(seen := o.seen - {inst.id})
    else if inst.id !in o.seen then o.(seen := o.seen[inst.id := now], waiting := o.waiting + {inst.id})
    else if Elapsed(now, o.seen[inst.id]) < graceSecs then o.(waiting := o.waiting + {inst.id})
    else Orphans(o.seen - {inst.id}, o.waiting - {inst.id}, o.doomed + [inst.id])
  }

  function ObserveAll(seen: map<string, nat>, asg: seq<AsgInstance>, leased: set<string>, graceSecs: nat,
                      now: nat): Orphans
  {
    if asg == [] then Orphans(seen, {}, [])
    else Observe(ObserveAll(seen, asg[..|asg| - 1], leased, graceSecs, now), asg[|asg| - 1], leased, graceSecs, now)
  }

  function OrphanScan(snap: SystemSnapshot, settings: Settings, seen: map<string, nat>, now: nat): Orphans
  {
    ObserveAll(seen, snap.asg, LeasedOwners(snap.leases), settings.graceSecs, now)
  }

  /** Timers that survive: those of instances still waiting. */
  function Timers(snap: SystemSnapshot, settings: Settings, seen: map<string, nat>, now: nat): map<string, nat>
  {
    var o := OrphanScan(snap, settings, seen, now);
    o.seen - (o.seen.Keys - o.waiting)
  }

  function Terminations(ids: seq<string>): seq<seq<Action>>
  {
    seq(|ids|, i requires 0 <= i < |ids| => [Terminate(ids[i], false)])
  }

  function OrphanPlans(snap: SystemSnapshot, settings: Settings, seen: map<string, nat>, now: nat): seq<seq<Action>>
  {
    Terminations(OrphanScan(snap, settings, seen, now).doomed)
  }

  // -- section 2.3: backends without leases --------------------------------------------------

  function BackendPlan(b: BackendStatus): seq<Action>
  {
    if b.lease.None? && (b.weight == Active || b.weight == Draining) then [WriteWeight(b.ip, Disabled)] else []
  }

  function BackendPlans(snap: SystemSnapshot): seq<seq<Action>>
  {
    seq(|snap.backends|, i requires 0 <= i < |snap.backends| => BackendPlan(snap.backends[i]))
  }

  /** The whole pass. */
  function Plans(snap: SystemSnapshot, settings: Settings, seen: map<string, nat>, nowMs: nat,
                 now: nat): seq<seq<Action>>
  {
    LeasePlans(snap, settings, nowMs) + OrphanPlans(snap, settings, seen, now) + BackendPlans(snap)
  }

  // -- the daemon ----------------------------------------------------------------------------

  class CleanupDaemon {
    const settings: Settings
    const env: Env
    var orphanFirstSeen: map<string, nat>
    var log: seq<Attempt>

    constructor (settings: Settings, env: Env)
      ensures this.settings == settings && this.env == env && orphanFirstSeen == map[] && log == []
    {
      this.settings, this.env, orphanFirstSeen, log := settings, env, map[], [];
    }

    method Do(a: Action) returns (ok: bool)
      modifies this`log
      ensures ok == AllWell(env, old(log), [a]) && log == Try(env, old(log), [a])
    {
      if env.dryRun {
        return true;
      }
      ok := env.io(|log|);
      log := log + [Attempt(a, ok)];
    }

    method ReleaseSlot(slot: u32, nowMs: nat) returns (ok: bool)
      modifies this`log
      ensures ok == AllWell(env, old(log), ReleasePlan(slot, nowMs))
      ensures log == Try(env, old(log), ReleasePlan(slot, nowMs))
    {
      ok := Do(DelOwner(slot));
      assert ReleasePlan(slot, nowMs) == [DelOwner(slot)] + ([RemLease(slot)] + [AddAvailable(slot, nowMs)]);
      TryAppends(env, old(log), [DelOwner(slot)], [RemLease(slot)] + [AddAvailable(slot, nowMs)]);
      if !ok {
        return;
      }
      TryAppends(env, log, [RemLease(slot)], [AddAvailable(slot, nowMs)]);
      ok := Do(RemLease(slot));
      if !ok {
        return;
      }
      ok := Do(AddAvailable(slot, nowMs));
    }

    method FindBackend(backends: seq<BackendStatus>, slot: u32) returns (b: Option<BackendStatus>)
      ensures b == BackendOf(backends, slot)
    {
      for i := 0 to |backends|
        invariant BackendOf(backends[i..], slot) == BackendOf(backends, slot)
      {
        if backends[i].lease.Some? && backends[i].lease.value.slot == slot {
          return Some(backends[i]);
        }
      }
      b := None;
    }

    method HandleLease(lease: SlotLease, inService: set<string>, snap: SystemSnapshot, nowMs: nat)
      requires inService == InServiceIds(snap.asg)
      modifies this`log
      ensures log == Try(env, old(log), LeasePlan(snap, settings, nowMs, lease))
    {
      hide AllWell;
      var backend := FindBackend(snap.backends, lease.slot);
      if lease.owner == Leases.OWNER_MISSING {
        return;
      }
      if lease.owner == Leases.OWNER_UNKNOWN {
        return;
      }
      if lease.owner !in inService {
        var released := ReleaseSlot(lease.slot, nowMs);
        var write := if backend.Some? then [WriteWeight(backend.value.ip, Disabled)] else [];
        TryAppends(env, old(log), ReleasePlan(lease.slot, nowMs), write);
        if released && backend.Some? {
          var _ := Do(WriteWeight(backend.value.ip, Disabled));
        }
        return;
      }
      if backend.None? {
        return;
      }
      var b := backend.value;
      if b.weight == Draining {
        if Connections(b) == 0 {
          if snap.asgGroup.Some? && WouldViolateMin(snap.asgGroup.value) {
            return;
          }
          var write, terminate := WriteWeight(b.ip, Disabled), Terminate(lease.owner, settings.termDecrements);
          assert [write, terminate] == [write] + [terminate];
          TryAppends(env, log, [write], [terminate]);
          var written := Do(write);
          if written {
            var _ := Do(terminate);
          }
        }
      } else if b.weight == Disabled {
        if !IsExpired(lease, nowMs) {
          var _ := Do(WriteWeight(b.ip, Active));
        }
      }
    }

    method Section21ActiveLeases(snap: SystemSnapshot, nowMs: nat)
      modifies this`log
      ensures log == TryAll(env, old(log), LeasePlans(snap, settings, nowMs))
    {
      hide LeasePlan, Try;
      var inService := InServiceIds(snap.asg);
      if snap.asgGroup.None? {
        return;
      }
      if inService == {} && snap.leases != [] {
        return;
      }
      ghost var plans := LeasePlans(snap, settings, nowMs);
      for i := 0 to |snap.leases|
        invariant log == TryAll(env, old(log), plans[..i])
      {
        HandleLease(snap.leases[i], inService, snap, nowMs);
        assert plans[..i + 1][..i] == plans[..i];
      }
      assert plans[..|snap.leases|] == plans;
    }

    method Section22OrphanedAsgInstances(snap: SystemSnapshot, now: nat)
      modifies this
      ensures orphanFirstSeen == Timers(snap, settings, old(orphanFirstSeen), now)
      ensures log == TryAll(env, old(log), OrphanPlans(snap, settings, old(orphanFirstSeen), now))
    {
      hide Try;
      var leased := LeasedOwners(snap.leases);
      var stillOrphaned := {};
      ghost var doomed: seq<string> := [];
      for i := 0 to |snap.asg|
        invariant Orphans(orphanFirstSeen, stillOrphaned, doomed)
               == ObserveAll(old(orphanFirstSeen), snap.asg[..i], leased, settings.graceSecs, now)
        invariant log == TryAll(env, old(log), Terminations(doomed))
      {
        var inst := snap.asg[i];
        assert snap.asg[..i + 1][..i] == snap.asg[..i];
        if !InService(inst) {
          continue;
        }
        if inst.id in leased {
          orphanFirstSeen := orphanFirstSeen - {inst.id};
          continue;
        }
        if inst.id !in orphanFirstSeen {
          orphanFirstSeen := orphanFirstSeen[inst.id := now];
          stillOrphaned := stillOrphaned + {inst.id};
          continue;
        }
        var elapsed := Elapsed(now, orphanFirstSeen[inst.id]);
        if elapsed < settings.graceSecs {
          stillOrphaned := stillOrphaned + {inst.id};
        } else {
          orphanFirstSeen := orphanFirstSeen - {inst.id};
          stillOrphaned := stillOrphaned - {inst.id};
          var _ := Do(Terminate(inst.id, false));
          assert Terminations(doomed + [inst.id]) == Terminations(doomed) + [[Terminate(inst.id, false)]];
          doomed := doomed + [inst.id];
        }
      }
      assert snap.asg[..|snap.asg|] == snap.asg;
      orphanFirstSeen := orphanFirstSeen - (orphanFirstSeen.Keys - stillOrphaned);
    }

    method Section23BackendsWithoutLeases(snap: SystemSnapshot)
      modifies this`log
      ensures log == TryAll(env, old(log), BackendPlans(snap))
    {
      ghost var plans := BackendPlans(snap);
      for i := 0 to |snap.backends|
        invariant log == TryAll(env, old(log), plans[..i])
      {
        var b := snap.backends[i];
        assert plans[..i + 1][..i] == plans[..i];
        if b.lease.Some? {
          continue;
        }
        if b.weight == Active || b.weight == Draining {
          var _ := Do(WriteWeight(b.ip, Disabled));
        }
      }
      assert plans[..|snap.backends|] == plans;
    }

    /** A backup does nothing; the master runs the three sections. */
    method Run(snap: SystemSnapshot, isMaster: bool, nowMs: nat, now: nat)
      modifies this
      ensures !isMaster ==> log == old(log) && orphanFirstSeen == old(orphanFirstSeen)
      ensures isMaster ==>
        && orphanFirstSeen == Timers(snap, settings, old(orphanFirstSeen), now)
        && log == TryAll(env, old(log), Plans(snap, settings, old(orphanFirstSeen), nowMs, now))
    {
      hide TryAll, LeasePlans, OrphanPlans, BackendPlans, Timers;
      if !isMaster {
        return;
      }
      ghost var a, b := LeasePlans(snap, settings, nowMs), OrphanPlans(snap, settings, orphanFirstSeen, now);
      ghost var c := BackendPlans(snap);
      Section21ActiveLeases(snap, nowMs);
      Section22OrphanedAsgInstances(snap, now);
      Section23BackendsWithoutLeases(snap);
      TryAllAppends(env, old(log), a, b);
      TryAllAppends(env, old(log), a + b, c);
    }
  }
}
