/** One cleanup pass writes each weight file at most once, and which section does. */
module SingleWrite {
  import opened Options
  import opened Snapshot
  import opened Cleanup

  function Writes(plan: seq<Action>, ip: u32): nat
  {
    if plan == [] then 0
    else (if plan[0].WriteWeight? && plan[0].ip == ip then 1 else 0) + Writes(plan[1..], ip)
  }

  function WritesOf(plans: seq<seq<Action>>, ip: u32): nat
  {
    if plans == [] then 0 else WritesOf(plans[..|plans| - 1], ip) + Writes(plans[|plans| - 1], ip)
  }

  /** Attempts to write the weight file of `ip`, successful or not. */
  function WritesTo(log: seq<Attempt>, ip: u32): nat
  {
    if log == [] then 0
    else
      var last := log[|log| - 1].action;
      WritesTo(log[..|log| - 1], ip) + if last.WriteWeight? && last.ip == ip then 1 else 0
  }

  lemma {:induction false} TryWrites(env: Env, log: seq<Attempt>, plan: seq<Action>, ip: u32)
    ensures WritesTo(Try(env, log, plan), ip) <= WritesTo(log, ip) + Writes(plan, ip)
    decreases |plan|
  {
    if plan != [] && !env.dryRun {
      var next := log + [Attempt(plan[0], env.io(|log|))];
      assert next[..|next| - 1] == log;
      TryWrites(env, next, plan[1..], ip);
    }
  }

  lemma {:induction false} TryAllWrites(env: Env, log: seq<Attempt>, plans: seq<seq<Action>>, ip: u32)
    ensures WritesTo(TryAll(env, log, plans), ip) <= WritesTo(log, ip) + WritesOf(plans, ip)
    decreases |plans|
  {
    if plans != [] {
      TryAllWrites(env, log, plans[..|plans| - 1], ip);
      TryWrites(env, TryAll(env, log, plans[..|plans| - 1]), plans[|plans| - 1], ip);
    }
  }

  lemma {:induction false} WritesOfAppends(a: seq<seq<Action>>, b: seq<seq<Action>>, ip: u32)
    ensures WritesOf(a + b, ip) == WritesOf(a, ip) + WritesOf(b, ip)
    decreases |b|
  {
    if b == [] {
      assert a + b == a;
    } else {
      assert (a + b)[..|a + b| - 1] == a + b[..|b| - 1];
      WritesOfAppends(a, b[..|b| - 1], ip);
    }
  }

  lemma {:induction false} NoneWrites(plans: seq<seq<Action>>, ip: u32)
    requires forall i :: 0 <= i < |plans| ==> Writes(plans[i], ip) == 0
    ensures WritesOf(plans, ip) == 0
  {
    if plans != [] {
      NoneWrites(plans[..|plans| - 1], ip);
    }
  }

  lemma {:induction false} OneWrites(plans: seq<seq<Action>>, ip: u32)
    requires forall i :: 0 <= i < |plans| ==> Writes(plans[i], ip) <= 1
    requires forall i, j :: 0 <= i < j < |plans| ==> Writes(plans[i], ip) == 0 || Writes(plans[j], ip) == 0
    ensures WritesOf(plans, ip) <= 1
  {
    if plans != [] {
      var n := |plans| - 1;
      if Writes(plans[n], ip) == 0 {
        OneWrites(plans[..n], ip);
      } else {
        NoneWrites(plans[..n], ip);
      }
    }
  }

  // -- which file a plan writes ---------------------------------------------------------------

  lemma {:induction false} BackendIsCarrier(backends: seq<BackendStatus>, slot: u32)
    ensures var b := BackendOf(backends, slot);
            b.Some? ==>
              && b.value.lease.Some? && b.value.lease.value.slot == slot
              && exists i :: 0 <= i < |backends| && backends[i] == b.value
  {
    if backends != [] && backends[0].lease.Some? && backends[0].lease.value.slot == slot {
      assert BackendOf(backends, slot) == Some(backends[0]);
    } else if backends != [] && BackendOf(backends, slot).Some? {
      BackendIsCarrier(backends[1..], slot);
      var rest := backends[1..];
      var i :| 0 <= i < |rest| && rest[i] == BackendOf(backends, slot).value;
      assert backends[i + 1] == rest[i];
    }
  }

  /** The backend found for a slot is the one at the slot's address. */
  lemma BackendAtSlot(net: SlotNetwork, snap: SystemSnapshot, slot: u32)
    requires WellJoined(net, snap)
    ensures var b := BackendOf(snap.backends, slot);
            b.Some? ==> b.value in snap.backends && b.value.ip == net.IpForSlot(slot)
  {
    BackendIsCarrier(snap.backends, slot);
    var b := BackendOf(snap.backends, slot);
    if b.Some? {
      var i :| 0 <= i < |snap.backends| && snap.backends[i] == b.value;
      assert snap.backends[i].lease == Some(b.value.lease.value);
    }
  }

  lemma LeaseWrites(snap: SystemSnapshot, settings: Settings, nowMs: nat, lease: SlotLease, ip: u32)
    ensures var n := Writes(LeasePlan(snap, settings, nowMs, lease), ip);
            var b := BackendOf(snap.backends, lease.slot);
            n <= 1 && (n == 1 ==> b.Some? && b.value.ip == ip)
  {
    hide BackendOf, InServiceIds;
    var backend := BackendOf(snap.backends, lease.slot);
    ReleaseWrites(lease.slot, nowMs, ip);
    if backend.Some? {
      var disable, enable := WriteWeight(backend.value.ip, Disabled), WriteWeight(backend.value.ip, Active);
      var terminate := Terminate(lease.owner, settings.termDecrements);
      SingleAction(disable, ip);
      SingleAction(enable, ip);
      SingleAction(terminate, ip);
      WritesAppend(ReleasePlan(lease.slot, nowMs), [disable], ip);
      WritesAppend([disable], [terminate], ip);
      assert [disable] + [terminate] == [disable, terminate];
    } else {
      assert ReleasePlan(lease.slot, nowMs) + [] == ReleasePlan(lease.slot, nowMs);
    }
  }

  lemma SingleAction(a: Action, ip: u32)
    ensures Writes([a], ip) == if a.WriteWeight? && a.ip == ip then 1 else 0
  {
    assert [a][1..] == [];
  }

  lemma {:induction false} WritesAppend(a: seq<Action>, b: seq<Action>, ip: u32)
    ensures Writes(a + b, ip) == Writes(a, ip) + Writes(b, ip)
  {
    if a == [] {
      assert a + b == b;
    } else {
      assert (a + b)[1..] == a[1..] + b;
      WritesAppend(a[1..], b, ip);
    }
  }

  lemma ReleaseWrites(slot: u32, nowMs: nat, ip: u32)
    ensures Writes(ReleasePlan(slot, nowMs), ip) == 0
  {
    var x, y, z := DelOwner(slot), RemLease(slot), AddAvailable(slot, nowMs);
    SingleAction(x, ip);
    SingleAction(y, ip);
    SingleAction(z, ip);
    WritesAppend([x], [y], ip);
    WritesAppend([x] + [y], [z], ip);
    assert ReleasePlan(slot, nowMs) == [x] + [y] + [z];
  }

  lemma LeaseSection(net: SlotNetwork, snap: SystemSnapshot, settings: Settings, nowMs: nat, ip: u32)
    requires WellJoined(net, snap)
    ensures WritesOf(LeasePlans(snap, settings, nowMs), ip) <= 1
    ensures (forall l :: l in snap.leases ==> net.IpForSlot(l.slot) != ip) ==>
              WritesOf(LeasePlans(snap, settings, nowMs), ip) == 0
  {
    hide LeasePlan, BackendOf, Writes, WritesOf;
    var plans := LeasePlans(snap, settings, nowMs);
    forall i | 0 <= i < |plans|
      ensures Writes(plans[i], ip) <= 1 && (Writes(plans[i], ip) == 1 ==> net.IpForSlot(snap.leases[i].slot) == ip)
    {
      LeaseWrites(snap, settings, nowMs, snap.leases[i], ip);
      BackendAtSlot(net, snap, snap.leases[i].slot);
    }
    forall i, j | 0 <= i < j < |plans| ensures Writes(plans[i], ip) == 0 || Writes(plans[j], ip) == 0 {
      IpInjective(net, snap.leases[i].slot, snap.leases[j].slot);
    }
    OneWrites(plans, ip);
    if forall l :: l in snap.leases ==> net.IpForSlot(l.slot) != ip {
      forall i | 0 <= i < |plans| ensures Writes(plans[i], ip) == 0 {
        assert snap.leases[i] in snap.leases;
      }
      NoneWrites(plans, ip);
    }
  }

  lemma OrphanSection(snap: SystemSnapshot, settings: Settings, seen: map<string, nat>, now: nat, ip: u32)
    ensures WritesOf(OrphanPlans(snap, settings, seen, now), ip) == 0
  {
    hide OrphanScan, WritesOf;
    var plans := OrphanPlans(snap, settings, seen, now);
    forall i | 0 <= i < |plans| ensures Writes(plans[i], ip) == 0 {
      assert plans[i][1..] == [];
    }
    NoneWrites(plans, ip);
  }

  lemma BackendSection(net: SlotNetwork, snap: SystemSnapshot, ip: u32)
    requires WellJoined(net, snap)
    ensures WritesOf(BackendPlans(snap), ip) <= 1
    ensures (exists l :: l in snap.leases && net.IpForSlot(l.slot) == ip) ==> WritesOf(BackendPlans(snap), ip) == 0
  {
    hide WritesOf;
    var plans := BackendPlans(snap);
    forall i | 0 <= i < |plans|
      ensures Writes(plans[i], ip) <= 1
      ensures Writes(plans[i], ip) == 1 ==> snap.backends[i].ip == ip && snap.backends[i].lease.None?
    {
      var b := snap.backends[i];
      assert [WriteWeight(b.ip, Disabled)][1..] == [];
    }
    OneWrites(plans, ip);
    if l :| l in snap.leases && net.IpForSlot(l.slot) == ip {
      forall i | 0 <= i < |plans| ensures Writes(plans[i], ip) == 0 {
        assert snap.backends[i].ip == ip ==> snap.backends[i].lease == Some(l);
      }
      NoneWrites(plans, ip);
    }
  }

  /**
   A cleanup pass attempts at most one write to each weight file: from section 2.1
   if a lease's slot has that address, and from section 2.3 otherwise.
   */
  lemma {:induction false} OneWritePerFile(net: SlotNetwork, snap: SystemSnapshot, settings: Settings, env: Env,
                                           log: seq<Attempt>, seen: map<string, nat>, nowMs: nat, now: nat, ip: u32)
    requires WellJoined(net, snap)
    ensures WritesTo(TryAll(env, log, Plans(snap, settings, seen, nowMs, now)), ip) <= WritesTo(log, ip) + 1
    ensures WritesOf(OrphanPlans(snap, settings, seen, now), ip) == 0
    ensures if exists l :: l in snap.leases && net.IpForSlot(l.slot) == ip
            then WritesOf(BackendPlans(snap), ip) == 0 else WritesOf(LeasePlans(snap, settings, nowMs), ip) == 0
  {
    hide TryAll, LeasePlans, OrphanPlans, BackendPlans, WritesOf, WritesTo;
    var a, b, c := LeasePlans(snap, settings, nowMs), OrphanPlans(snap, settings, seen, now), BackendPlans(snap);
    LeaseSection(net, snap, settings, nowMs, ip);
    OrphanSection(snap, settings, seen, now, ip);
    BackendSection(net, snap, ip);
    WritesOfAppends(a, b, ip);
    WritesOfAppends(a + b, c, ip);
    TryAllWrites(env, log, a + b + c, ip);
  }
}
