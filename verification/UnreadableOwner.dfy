/**
 What it means that section 2.2 goes by reported owners: an instance whose lease is
 there, but whose owner record Redis does not tell, waits out its grace period like
 an orphan and is terminated, its backend in service.
 */
module UnreadableOwner {
  import opened Options
  import opened Snapshot
  import opened Leases
  import opened Cleanup
  import opened DaemonRuns
  import opened Scenes
  import AsgParser
  import Sorting

  /** One active backend with a lease on slot 0, and the reply to asking for its owner. */
  function Blind(reply: Reply, expiresMs: nat, nowMs: nat, now: nat): Cycle
  {
    Cycle([RawLease(0, expiresMs, reply)], [WeightEntry(0, Active)],
          Some([AsgParser.AsgGroup("ftp", 1, 1, 4, [Instance("i-0")])]), None, true, nowMs, now)
  }

  function Sentinel(reply: Reply): string
  {
    if reply.Nil? then OWNER_MISSING else OWNER_UNKNOWN
  }

  /** The owner is reported by a sentinel, and nothing is learnt about it. */
  lemma {:induction false} BlindLease(raw: seq<RawLease>, reply: Reply, expiresMs: nat)
    requires raw == [RawLease(0, expiresMs, reply)] && !reply.Found?
    ensures Sorting.SortBy(Resolve(map[], raw), BySlot) == [SlotLease(0, Sentinel(reply), expiresMs)]
    ensures RefreshAll(map[], raw) == map[]
  {
    var l := SlotLease(0, Sentinel(reply), expiresMs);
    assert raw[..|raw| - 1] == [] && Resolve(map[], []) == [] && RefreshAll(map[], []) == map[];
    assert Resolve(map[], raw) == [l];
    assert [l][1..] == [] && Sorting.SortBy([], BySlot) == [];
  }

  lemma {:induction false} OneInstance(groups: seq<AsgParser.AsgGroup>)
    requires |groups| == 1 && groups[0].instances == [Instance("i-0")]
    ensures Instances(groups) == [AsgInstance("i-0", "InService", "Healthy")]
  {
    assert groups[1..] == [] && Instances([]) == [];
  }

  lemma OneByIp(net: SlotNetwork, l: SlotLease)
    requires net == SlotNetwork(0, 0) && l.slot == 0
    ensures IpToLease(net, [l]) == map[0 := l]
  {
    assert [l][..0] == [] && IpToLease(net, []) == map[];
  }

  /** The snapshot: the lease with a sentinel for its owner, and its backend, in service. */
  lemma BlindSnapshot(f: Fixed, c: Cycle, reply: Reply, expiresMs: nat, nowMs: nat, now: nat)
    requires f.net == SlotNetwork(0, 0) && !reply.Found? && c == Blind(reply, expiresMs, nowMs, now)
    ensures var snap := SnapshotOf(f, map[], c);
            var l := SlotLease(0, Sentinel(reply), expiresMs);
            && snap.leases == [l] && snap.backends == [BackendStatus(0, Some(0), Active, None, Some(l))]
            && snap.asg == [AsgInstance("i-0", "InService", "Healthy")] && snap.asgGroup.Some?
    ensures RefreshAll(map[], c.raw) == map[]
  {
    hide Resolve, RefreshAll, Sorting.SortBy, IpToLease, Instances;
    BlindLease(c.raw, reply, expiresMs);
    OneByIp(f.net, SlotLease(0, Sentinel(reply), expiresMs));
    OneInstance(c.asg.value);
  }

  /** Section 2.1 leaves the lease alone, section 2.3 the backend; section 2.2 sees an instance without a lease. */
  lemma BlindPlans(snap: SystemSnapshot, settings: Settings, l: SlotLease, seen: map<string, nat>, nowMs: nat, now: nat)
    requires snap.leases == [l] && (l.owner == OWNER_MISSING || l.owner == OWNER_UNKNOWN)
    requires snap.backends == [BackendStatus(0, Some(0), Active, None, Some(l))]
    requires snap.asg == [AsgInstance("i-0", "InService", "Healthy")] && snap.asgGroup.Some?
    ensures LeasePlans(snap, settings, nowMs) == [[]] && BackendPlans(snap) == [[]]
    ensures OrphanScan(snap, settings, seen, now) ==
            Observe(Orphans(seen, {}, []), snap.asg[0], {l.owner}, settings.graceSecs, now)
  {
    hide BackendOf;
    assert snap.asg[0] in snap.asg && "i-0" in InServiceIds(snap.asg);
    assert snap.leases[0] in snap.leases && LeasedOwners(snap.leases) == {l.owner};
    assert snap.asg[..|snap.asg| - 1] == [];
    assert ObserveAll(seen, [], {l.owner}, settings.graceSecs, now) == Orphans(seen, {}, []);
  }

  lemma FirstSight(snap: SystemSnapshot, settings: Settings, l: SlotLease, nowMs: nat, now: nat)
    requires snap.leases == [l] && (l.owner == OWNER_MISSING || l.owner == OWNER_UNKNOWN)
    requires snap.backends == [BackendStatus(0, Some(0), Active, None, Some(l))]
    requires snap.asg == [AsgInstance("i-0", "InService", "Healthy")] && snap.asgGroup.Some?
    ensures Plans(snap, settings, map[], nowMs, now) == [[], []]
    ensures Timers(snap, settings, map[], now) == map["i-0" := now]
  {
    hide LeasePlans, BackendPlans, OrphanScan;
    BlindPlans(snap, settings, l, map[], nowMs, now);
  }

  lemma SecondSight(snap: SystemSnapshot, settings: Settings, l: SlotLease, nowMs: nat, first: nat, now: nat)
    requires snap.leases == [l] && (l.owner == OWNER_MISSING || l.owner == OWNER_UNKNOWN)
    requires snap.backends == [BackendStatus(0, Some(0), Active, None, Some(l))]
    requires snap.asg == [AsgInstance("i-0", "InService", "Healthy")] && snap.asgGroup.Some?
    requires Elapsed(now, first) >= settings.graceSecs
    ensures Plans(snap, settings, map["i-0" := first], nowMs, now) == [[], [Terminate("i-0", false)], []]
  {
    hide LeasePlans, BackendPlans, OrphanScan, Elapsed;
    BlindPlans(snap, settings, l, map["i-0" := first], nowMs, now);
  }

  /**
   For any grace period: slot 0 is leased until after the run, its backend is active
   and its instance InService, and asking Redis for the owner brings nil, or an
   error both times. All that cleanup does in the two cycles is to terminate the
   instance.
   */
  lemma LeaseholderIsTerminated(settings: Settings, reply: Reply, expiresMs: nat) returns (f: Fixed, cycles: seq<Cycle>)
    requires !reply.Found? && expiresMs > 1000 * settings.graceSecs
    ensures f.settings == settings && |cycles| == 2
    ensures cycles[0] == Blind(reply, expiresMs, 0, 0)
    ensures cycles[1] == Blind(reply, expiresMs, 1000 * settings.graceSecs, 1000 * settings.graceSecs)
    ensures After(f, cycles).log == [Attempt(Terminate("i-0", false), true)]
  {
    hide SnapshotOf, Plans, Timers, RefreshAll, Blind;
    f := Fixed(SlotNetwork(0, 0), settings, Env(false, n => true));
    var later := 1000 * settings.graceSecs;
    var c0, c1 := Blind(reply, expiresMs, 0, 0), Blind(reply, expiresMs, later, later);
    cycles := [c0, c1];
    BlindReadings(reply, expiresMs, later);
    BlindSnapshot(f, c0, reply, expiresMs, 0, 0);
    BlindSnapshot(f, c1, reply, expiresMs, later, later);
    var l := SlotLease(0, Sentinel(reply), expiresMs);
    FirstSight(SnapshotOf(f, map[], c0), settings, l, 0, 0);
    SecondSight(SnapshotOf(f, map[], c1), settings, l, later, 0, later);
    NothingThenOne(f.env, Terminate("i-0", false));
    assert [c0][..0] == [] && cycles[..1] == [c0];
    assert After(f, [c0]) == AfterCycle(f, After(f, []), c0) == Memory(map[], map["i-0" := 0], []);
    assert After(f, cycles) == AfterCycle(f, After(f, [c0]), c1);
  }

  lemma BlindReadings(reply: Reply, expiresMs: nat, later: nat)
    ensures Blind(reply, expiresMs, 0, 0).isMaster && Blind(reply, expiresMs, later, later).isMaster
    ensures var c := Blind(reply, expiresMs, 0, 0); c.nowMs == 0 && c.now == 0
    ensures var c := Blind(reply, expiresMs, later, later); c.nowMs == later && c.now == later
  {
  }

  lemma NothingThenOne(env: Env, a: Action)
    requires !env.dryRun && env.io(0)
    ensures TryAll(env, [], [[], []]) == []
    ensures TryAll(env, [], [[], [a], []]) == [Attempt(a, true)]
  {
    var none: seq<Attempt> := [];
    assert Try(env, none, []) == none;
    var e: seq<Action> := [];
    assert [e][..0] == [] && TryAll(env, none, [e]) == none;
    assert [e, e][..1] == [e] && TryAll(env, none, [e, e]) == none;
    assert Try(env, none, [a]) == [Attempt(a, true)] by {
      assert [a][1..] == [];
    }
    assert [e, [a]][..1] == [e] && TryAll(env, none, [e, [a]]) == [Attempt(a, true)];
    assert [e, [a], e][..2] == [e, [a]];
  }
}
