/**
 How many backends really drain at once: every number up to the cap is reached, and
 exactly when.
 */
module DrainReach {
  import opened Options
  import opened Snapshot
  import opened Scaler
  import opened DrainCap
  import opened Sets
  import Cleanup
  import Decimals
  import AsgParser
  import Leases
  import Sorting
  import SingleWrite
  import ScalerRuns
  import DrainRuns

  // -- a fleet with one connection each ---------------------------------------------------

  /** How many backends there are; no more than there are slots. */
  type Size = n: int | 0 <= n <= 0x1_0000_0000

  function Owner(i: nat): string { "i-" + Decimals.Decimal(i) }

  /** Backends at the addresses of slots 0, ..., n - 1, each of them active or draining. */
  predicate Fleet(f: Fixed, n: Size, w: map<u32, BackendState>)
  {
    && (forall i :: 0 <= i < n ==> f.net.IpForSlot(i) in w)
    && (forall ip :: ip in w ==>
          && (exists i :: 0 <= i < n && f.net.IpForSlot(i) == ip)
          && (w[ip] == Active || w[ip] == Draining))
  }

  function Files(f: Fixed, n: Size): seq<u32>
  {
    seq(n, i requires 0 <= i < n => f.net.IpForSlot(i))
  }

  function Entries(f: Fixed, n: Size, w: map<u32, BackendState>): seq<WeightEntry>
    requires Fleet(f, n, w)
  {
    seq(n, i requires 0 <= i < n => WeightEntry(f.net.IpForSlot(i), w[f.net.IpForSlot(i)]))
  }

  /** All slots are leased, by the instance of the same number. */
  function LeasesOf(n: Size, t: nat): seq<SlotLease>
  {
    seq(n, i requires 0 <= i < n => SlotLease(i, Owner(i), t + 1))
  }

  function InstancesOf(n: Size): seq<AsgParser.AsgInstance>
  {
    seq(n, i requires 0 <= i < n => AsgParser.AsgInstance(Owner(i), "eu-west-1a", "InService", "Healthy"))
  }

  function GroupsOf(n: Size): AsgReply
  {
    Some([AsgParser.AsgGroup("ftp", n, 1, n, InstancesOf(n))])
  }

  /** One IPVS connection each, which counts as no session. */
  function IpvsOf(f: Fixed, n: Size): seq<IpvsBackend>
  {
    seq(n, i requires 0 <= i < n => IpvsBackend(f.net.IpForSlot(i), 1, 0))
  }

  function Seen(f: Fixed, n: Size, w: map<u32, BackendState>, t: nat): SystemSnapshot
    requires Fleet(f, n, w)
  {
    Collect(f.net, Sorting.SortBy(Entries(f, n, w), ByIp), LeasesOf(n, t), GroupsOf(n), Some(IpvsOf(f, n)))
  }

  /** Each backend as the snapshot shows it: leased for now, with one connection, in the state of its file. */
  ghost predicate Shown(w: map<u32, BackendState>, b: BackendStatus, t: nat)
  {
    && b.ip in w && b.weight == w[b.ip]
    && b.lease.Some? && b.lease.value.expiresMs == t + 1
    && b.ipvs.Some? && b.ipvs.value.activeConnections == 1
  }

  lemma {:induction false} IpvsFound(ipvs: seq<IpvsBackend>, ip: u32)
    requires forall i :: 0 <= i < |ipvs| ==> ipvs[i].activeConnections == 1
    requires exists i :: 0 <= i < |ipvs| && ipvs[i].ip == ip
    ensures FindIpvs(ipvs, ip).Some? && FindIpvs(ipvs, ip).value.activeConnections == 1
  {
    if ipvs[0].ip != ip {
      var i :| 0 <= i < |ipvs| && ipvs[i].ip == ip;
      assert ipvs[1..][i - 1] == ipvs[i];
      IpvsFound(ipvs[1..], ip);
    }
  }

  lemma FilesDiffer(f: Fixed, n: Size)
    ensures Distinct(Files(f, n))
  {
    forall i, j | 0 <= i < j < n ensures f.net.IpForSlot(i) != f.net.IpForSlot(j) {
      IpInjective(f.net, i, j);
    }
  }

  lemma EntriesDiffer(f: Fixed, n: Size, w: map<u32, BackendState>)
    requires Fleet(f, n, w)
    ensures Sorting.DistinctKeys(Entries(f, n, w), ByIp)
  {
    hide Fleet;
    FilesDiffer(f, n);
    var entries := Entries(f, n, w);
    forall i, j | 0 <= i < j < n ensures ByIp(entries[i]) != ByIp(entries[j]) {
      assert Files(f, n)[i] != Files(f, n)[j];
    }
  }

  lemma SortedEntries(f: Fixed, n: Size, w: map<u32, BackendState>)
    requires Fleet(f, n, w)
    ensures var sorted := Sorting.SortBy(Entries(f, n, w), ByIp);
            |sorted| == n && DistinctIps(sorted) && forall k :: 0 <= k < n ==> sorted[k] in Entries(f, n, w)
  {
    hide Fleet, Sorting.SortBy;
    var entries := Entries(f, n, w);
    hide Entries;
    var sorted := Sorting.SortBy(entries, ByIp);
    EntriesDiffer(f, n, w);
    Sorting.SortKeepsDistinct(entries, ByIp);
    Sorting.SortKeeps(entries, ByIp);
    forall i, j | 0 <= i < j < |sorted| ensures sorted[i].ip != sorted[j].ip {
      assert ByIp(sorted[i]) != ByIp(sorted[j]);
    }
    forall k | 0 <= k < |sorted| ensures sorted[k] in entries {
      assert sorted[k] in sorted;
    }
  }

  lemma SeenShows(f: Fixed, n: Size, w: map<u32, BackendState>, t: nat)
    requires Fleet(f, n, w)
    ensures var snap := Seen(f, n, w, t);
            && WellJoined(f.net, snap) && |snap.backends| == n && snap.leases == LeasesOf(n, t)
            && forall k :: 0 <= k < n ==> Shown(w, snap.backends[k], t)
  {
    hide Fleet, IpToLease, FindIpvs, Owner, WellJoined, Sorting.SortBy, ByIp;
    var sorted := Sorting.SortBy(Entries(f, n, w), ByIp);
    var leases := LeasesOf(n, t);
    var snap := Seen(f, n, w, t);
    SortedEntries(f, n, w);
    CollectJoinsWell(f.net, sorted, leases, GroupsOf(n), Some(IpvsOf(f, n)));
    forall k | 0 <= k < n ensures Shown(w, snap.backends[k], t) {
      assert sorted[k] in Entries(f, n, w);
      var i :| 0 <= i < n && Entries(f, n, w)[i] == sorted[k];
      SlotIn(f, n, w, i);
      CarriesLease(f.net, sorted, leases, GroupsOf(n), Some(IpvsOf(f, n)), k, leases[i]);
      assert leases[i] in leases;
      assert IpvsOf(f, n)[i].ip == sorted[k].ip;
      IpvsFound(IpvsOf(f, n), sorted[k].ip);
    }
  }

  lemma SlotIn(f: Fixed, n: Size, w: map<u32, BackendState>, i: nat)
    requires Fleet(f, n, w) && i < n
    ensures f.net.IpForSlot(i) in w
  {
  }

  // -- cleanup has nothing to do ---------------------------------------------------------------

  lemma OwnersServe(f: Fixed, n: Size, w: map<u32, BackendState>, t: nat, i: nat)
    requires Fleet(f, n, w) && i < n
    ensures var snap := Seen(f, n, w, t);
            && Owner(i) in InServiceIds(snap.asg) && Owner(i) in Cleanup.LeasedOwners(LeasesOf(n, t))
            && Owner(i) != Leases.OWNER_MISSING && Owner(i) != Leases.OWNER_UNKNOWN
  {
    hide Owner, Fleet;
    var snap := Seen(f, n, w, t);
    InstancesSeen(n);
    var inst := AsgInstance(Owner(i), "InService", "Healthy");
    assert Instances(GroupsOf(n).value)[i] == inst && inst in snap.asg;
    assert LeasesOf(n, t)[i] in LeasesOf(n, t);
    OwnerIsNoSentinel(i);
  }

  lemma InstancesSeen(n: Size)
    ensures var insts := Instances(GroupsOf(n).value);
            |insts| == n && forall i :: 0 <= i < n ==> insts[i] == AsgInstance(Owner(i), "InService", "Healthy")
  {
    hide Owner;
    var groups := GroupsOf(n).value;
    assert groups[1..] == [] && Instances([]) == [];
  }

  lemma OwnerIsNoSentinel(i: nat)
    ensures Owner(i) != Leases.OWNER_MISSING && Owner(i) != Leases.OWNER_UNKNOWN
  {
    assert Owner(i)[0] == 'i';
  }

  lemma {:induction false} NobodyDoomed(seen: map<string, nat>, asg: seq<AsgInstance>, leased: set<string>,
                                        graceSecs: nat, now: nat)
    requires forall i :: 0 <= i < |asg| ==> asg[i].id in leased
    ensures Cleanup.ObserveAll(seen, asg, leased, graceSecs, now).doomed == []
  {
    if asg != [] {
      NobodyDoomed(seen, asg[..|asg| - 1], leased, graceSecs, now);
    }
  }

  lemma NothingForLease(f: Fixed, n: Size, w: map<u32, BackendState>, t: nat, i: nat)
    requires Fleet(f, n, w) && i < n
    ensures Cleanup.LeasePlan(Seen(f, n, w, t), f.settings, t, LeasesOf(n, t)[i]) == []
  {
    hide Cleanup.BackendOf, InServiceIds, Cleanup.LeasedOwners, Collect, Owner, WellJoined;
    var snap := Seen(f, n, w, t);
    SeenShows(f, n, w, t);
    OwnersServe(f, n, w, t, i);
    SingleWrite.BackendAtSlot(f.net, snap, i);
    var b := Cleanup.BackendOf(snap.backends, i);
    if b.Some? {
      var k :| 0 <= k < n && snap.backends[k] == b.value;
      assert Shown(w, snap.backends[k], t);
    }
  }

  lemma NothingToClean(f: Fixed, n: Size, w: map<u32, BackendState>, t: nat)
    requires Fleet(f, n, w)
    ensures var plans := Cleanup.Plans(Seen(f, n, w, t), f.settings, map[], t, t);
            forall k :: 0 <= k < |plans| ==> plans[k] == []
  {
    hide Cleanup.LeasePlan, Collect, Owner, Fleet, Cleanup.ObserveAll, InServiceIds, WellJoined, Cleanup.LeasedOwners;
    var snap := Seen(f, n, w, t);
    SeenShows(f, n, w, t);
    forall k | 0 <= k < n ensures Cleanup.LeasePlan(snap, f.settings, t, snap.leases[k]) == [] {
      NothingForLease(f, n, w, t, k);
    }
    AllLeased(f, n, w, t);
    NobodyDoomed(map[], snap.asg, Cleanup.LeasedOwners(snap.leases), f.settings.graceSecs, t);
    forall k | 0 <= k < n ensures Cleanup.BackendPlan(snap.backends[k]) == [] {
      assert Shown(w, snap.backends[k], t);
    }
  }

  lemma AllLeased(f: Fixed, n: Size, w: map<u32, BackendState>, t: nat)
    requires Fleet(f, n, w)
    ensures var asg := Seen(f, n, w, t).asg;
            forall i :: 0 <= i < |asg| ==> asg[i].id in Cleanup.LeasedOwners(LeasesOf(n, t))
  {
    hide Owner, Fleet, InServiceIds;
    InstancesSeen(n);
    var asg := Seen(f, n, w, t).asg;
    forall i | 0 <= i < |asg| ensures asg[i].id in Cleanup.LeasedOwners(LeasesOf(n, t)) {
      OwnersServe(f, n, w, t, i);
    }
  }

  // -- the gate is open ----------------------------------------------------------------------------

  /** Active backends count and hold no sessions; the others drain. */
  lemma {:induction false} ActiveAndDraining(w: map<u32, BackendState>, backends: seq<BackendStatus>, t: nat)
    requires forall k :: 0 <= k < |backends| ==> Shown(w, backends[k], t)
    requires forall ip :: ip in w ==> w[ip] == Active || w[ip] == Draining
    ensures var active := ActiveOf(backends, t);
            && |active| + DrainingCount(backends) == |backends| && Total(active) == 0
            && forall b :: b in active ==> b.ip in w && w[b.ip] == Active && Load(b) == 0
  {
    if backends != [] {
      var rest := backends[1..];
      assert forall k :: 0 <= k < |rest| ==> rest[k] == backends[k + 1];
      ActiveAndDraining(w, rest, t);
      assert Shown(w, backends[0], t);
      if backends[0].weight == Active {
        var active := ActiveOf(backends, t);
        assert active == [backends[0]] + ActiveOf(rest, t) && active[1..] == ActiveOf(rest, t);
        assert Load(active[0]) == 0 && Total(active) == Load(active[0]) + Total(active[1..]);
      } else {
        assert ActiveOf(backends, t) == ActiveOf(rest, t);
      }
    }
  }

  function DrainingIn(w: map<u32, BackendState>): set<u32>
  {
    set ip | ip in w && w[ip] == Draining
  }

  lemma NoMoreThanDrain(f: Fixed, n: Size, w: map<u32, BackendState>, t: nat)
    requires Fleet(f, n, w)
    ensures DrainingCount(Seen(f, n, w, t).backends) <= |DrainingIn(w)|
  {
    hide Seen, Fleet;
    SeenShows(f, n, w, t);
    var backends := Seen(f, n, w, t).backends;
    forall k | 0 <= k < |backends| && backends[k].weight == Draining ensures backends[k].ip in DrainingIn(w) {
      assert Shown(w, backends[k], t);
    }
    CountedOnce(backends, DrainingIn(w));
  }

  /** What the scaler sees, is about to do, and to whom. */
  lemma GateIsOpen(f: Fixed, n: Size, w: map<u32, BackendState>, t: nat, s: State, around: Around)
    requires Fleet(f, n, w) && |DrainingIn(w)| + 2 <= n && |DrainingIn(w)| < f.config.maxConcurrentDraining
    requires f.config.drainThreshold > 0 && around.nowMs == t && around.writeOk && !f.dryRun
    requires CooledDown(s.lastDrain, f.config.drainCooldownSecs, around.now)
    ensures var snap := Seen(f, n, w, t);
            var drain := s.drainCycles + 1 >= f.config.drainHysteresis;
            var drained := PassEffects(s, f.config, snap, f.dryRun, around).drained;
            && DrainRuns.GateOf(ScalerRuns.Setup(f.config, f.dryRun), s, ScalerRuns.Turn(snap, around))
               == DrainRuns.Open(drain)
            && (if drain then drained.Some? && drained.value in w && w[drained.value] == Active else drained.None?)
  {
    hide Seen, ActiveOf, DrainingCount, Total, CooledDown, ScaleUp, Asked, Sorting.SortBy, Load;
    var snap := Seen(f, n, w, t);
    SeenShows(f, n, w, t);
    NoMoreThanDrain(f, n, w, t);
    ActiveAndDraining(w, snap.backends, t);
    SeenGroup(f, n, w, t);
    var active := ActiveOf(snap.backends, t);
    var sorted := Sorting.SortBy(active, ByLoad);
    Sorting.SortKeeps(active, ByLoad);
    assert sorted[0] in active;
    DrainRuns.ScaleUpLeavesDrain(ScalerRuns.Setup(f.config, f.dryRun), s, ScalerRuns.Turn(snap, around), active);
  }

  lemma SeenGroup(f: Fixed, n: Size, w: map<u32, BackendState>, t: nat)
    requires Fleet(f, n, w)
    ensures Seen(f, n, w, t).asgGroup == Some(AsgGroupInfo("ftp", n, 1, n))
  {
  }

  // -- one cycle -----------------------------------------------------------------------------------

  lemma {:induction false} RunAppends(f: Fixed, s: Sys, a: seq<Event>, b: seq<Event>)
    ensures Run(f, s, a + b) == Run(f, Run(f, s, a), b)
    decreases |b|
  {
    hide Step;
    if b == [] {
      assert a + b == a;
    } else {
      assert (a + b)[..|a + b| - 1] == a + b[..|b| - 1];
      RunAppends(f, s, a, b[..|b| - 1]);
    }
  }

  lemma {:induction false} RunOne(f: Fixed, s: Sys, events: seq<Event>, e: Event)
    ensures Run(f, s, events + [e]) == Step(f, Run(f, s, events), e)
  {
    hide Step;
    assert (events + [e])[..|events|] == events;
  }

  lemma {:induction false} ReadsAll(f: Fixed, s: Sys, n: Size, k: nat) returns (events: seq<Event>)
    requires Fleet(f, n, s.weights) && k <= n
    requires s.phase == Reading(Files(f, n), [])
    ensures Run(f, s, events) == s.(phase := Reading(Files(f, n)[k..], Entries(f, n, s.weights)[..k]))
  {
    hide Run, Fleet;
    if k == 0 {
      events := [];
      NoEvents(f, s);
      assert Files(f, n)[0..] == Files(f, n) && Entries(f, n, s.weights)[..0] == [];
    } else {
      events := ReadsAll(f, s, n, k - 1);
      RunOne(f, s, events, ReadOne);
      SlotIn(f, n, s.weights, k - 1);
      var files, entries := Files(f, n), Entries(f, n, s.weights);
      assert files[k - 1..][0] == files[k - 1] && files[k - 1..][1..] == files[k..];
      assert entries[..k] == entries[..k - 1] + [entries[k - 1]];
      events := events + [ReadOne];
    }
  }

  lemma NoEvents(f: Fixed, s: Sys)
    ensures Run(f, s, []) == s
  {
  }

  lemma {:induction false} CleansNothing(f: Fixed, s: Sys, k: nat) returns (events: seq<Event>)
    requires s.phase.Cleaning? && k <= |s.phase.plans|
    requires forall i :: 0 <= i < |s.phase.plans| ==> s.phase.plans[i] == []
    ensures Run(f, s, events) == s.(phase := Cleaning(s.phase.snap, s.phase.plans[k..]))
  {
    hide Run;
    if k == 0 {
      events := [];
      NoEvents(f, s);
      assert s.phase.plans[0..] == s.phase.plans;
    } else {
      events := CleansNothing(f, s, k - 1);
      RunOne(f, s, events, CleanOne(true));
      var plans := s.phase.plans[k - 1..];
      assert plans[0] == s.phase.plans[k - 1] && plans[1..] == s.phase.plans[k..];
      events := events + [CleanOne(true)];
    }
  }

  /** From listing the files to the snapshot in the scaler's hands, cleanup passing by without a write. */
  lemma UpToScaling(f: Fixed, s: Sys, n: Size, t: nat) returns (events: seq<Event>)
    requires s.phase.Idle? && Fleet(f, n, s.weights)
    ensures Run(f, s, events) == s.(phase := Scaling(Seen(f, n, s.weights, t)))
  {
    hide Run, Fleet, Collect, Cleanup.Plans;
    var files, entries := Files(f, n), Entries(f, n, s.weights);
    FilesDiffer(f, n);
    FilesAreAll(f, n, s.weights);
    NoEvents(f, s);
    events := [ListFiles(files)];
    RunOne(f, s, [], ListFiles(files));
    assert [] + events == events;
    var s1 := s.(phase := Reading(files, []));
    var entriesRead := ReadsAll(f, s1, n, n);
    assert files[n..] == [] && entries[..n] == entries;
    RunAppends(f, s, events, entriesRead);
    events := events + entriesRead;
    var joined := Joined(LeasesOf(n, t), GroupsOf(n), Some(IpvsOf(f, n)), map[], t, t);
    RunOne(f, s, events, joined);
    events := events + [joined];
    var snap := Seen(f, n, s.weights, t);
    var s2 := s.(phase := Cleaning(snap, Cleanup.Plans(snap, f.settings, map[], t, t)));
    NothingToClean(f, n, s.weights, t);
    var cleans := CleansNothing(f, s2, |s2.phase.plans|);
    RunAppends(f, s, events, cleans);
    events := events + cleans;
    RunOne(f, s, events, CleanDone);
    events := events + [CleanDone];
  }

  lemma FilesAreAll(f: Fixed, n: Size, w: map<u32, BackendState>)
    requires Fleet(f, n, w)
    ensures forall ip :: ip in Files(f, n) <==> ip in w
  {
    forall ip | ip in w ensures ip in Files(f, n) {
      var i :| 0 <= i < n && f.net.IpForSlot(i) == ip;
      assert Files(f, n)[i] == ip;
    }
  }

  lemma OneMoreDrains(f: Fixed, n: Size, w: map<u32, BackendState>, ip: u32)
    requires Fleet(f, n, w) && ip in w && w[ip] == Active
    ensures Fleet(f, n, w[ip := Draining]) && |DrainingIn(w[ip := Draining])| == |DrainingIn(w)| + 1
  {
    assert DrainingIn(w[ip := Draining]) == DrainingIn(w) + {ip};
  }

  /** One cycle that finds the gate open: it drains one more, or counts up to it. */
  lemma OneCycle(f: Fixed, s: Sys, n: Size) returns (events: seq<Event>, s': Sys)
    requires s.phase.Idle? && Fleet(f, n, s.weights) && !f.dryRun && f.config.drainThreshold > 0
    requires |DrainingIn(s.weights)| + 2 <= n && |DrainingIn(s.weights)| < f.config.maxConcurrentDraining
    ensures s' == Run(f, s, events) && s'.phase.Idle? && Fleet(f, n, s'.weights)
    ensures if s.scaler.drainCycles + 1 >= f.config.drainHysteresis
            then |DrainingIn(s'.weights)| == |DrainingIn(s.weights)| + 1
            else s'.weights == s.weights && s'.scaler.drainCycles == s.scaler.drainCycles + 1
  {
    hide Run, Fleet, Seen, DrainingIn, Pass, PassEffects, DrainRuns.GateOf, CooledDown;
    var last := if s.scaler.lastDrain.Some? then s.scaler.lastDrain.value else 0;
    var t := last + 1000 * f.config.drainCooldownSecs;
    var around := Around(t, t, t, None, true, true);
    Cooled(s.scaler.lastDrain, f.config.drainCooldownSecs);
    events := UpToScaling(f, s, n, t);
    var snap := Seen(f, n, s.weights, t);
    GateIsOpen(f, n, s.weights, t, s.scaler, around);
    DrainRuns.PassGates(ScalerRuns.Setup(f.config, f.dryRun), s.scaler, ScalerRuns.Turn(snap, around));
    RunOne(f, s, events, Scale(around));
    events := events + [Scale(around)];
    s' := Run(f, s, events);
    var drained := PassEffects(s.scaler, f.config, snap, f.dryRun, around).drained;
    if drained.Some? {
      OneMoreDrains(f, n, s.weights, drained.value);
    }
  }

  lemma Cooled(last: Option<nat>, cooldownSecs: nat)
    ensures CooledDown(last, cooldownSecs, (if last.Some? then last.value else 0) + 1000 * cooldownSecs)
  {
  }

  /** As many cycles as the hysteresis asks for. */
  lemma {:induction false} DrainsOneMore(f: Fixed, s: Sys, n: Size) returns (events: seq<Event>, s': Sys)
    requires s.phase.Idle? && Fleet(f, n, s.weights) && !f.dryRun && f.config.drainThreshold > 0
    requires |DrainingIn(s.weights)| + 2 <= n && |DrainingIn(s.weights)| < f.config.maxConcurrentDraining
    ensures s' == Run(f, s, events) && s'.phase.Idle? && Fleet(f, n, s'.weights)
    ensures |DrainingIn(s'.weights)| == |DrainingIn(s.weights)| + 1
    decreases f.config.drainHysteresis - s.scaler.drainCycles
  {
    hide Run, Fleet, DrainingIn;
    events, s' := OneCycle(f, s, n);
    if s.scaler.drainCycles + 1 < f.config.drainHysteresis {
      var more, s'' := DrainsOneMore(f, s', n);
      RunAppends(f, s, events, more);
      events, s' := events + more, s'';
    }
  }

  // -- every number up to the cap ----------------------------------------------------------------------

  function AllActive(f: Fixed, n: Size): map<u32, BackendState>
  {
    map ip | ip in Files(f, n) :: Active
  }

  lemma StartsActive(f: Fixed, n: Size)
    ensures Fleet(f, n, AllActive(f, n)) && DrainingIn(AllActive(f, n)) == {}
  {
    var w := AllActive(f, n);
    forall i | 0 <= i < n ensures f.net.IpForSlot(i) in w {
      assert Files(f, n)[i] in Files(f, n);
    }
    forall ip | ip in w ensures exists i :: 0 <= i < n && f.net.IpForSlot(i) == ip {
      var i :| 0 <= i < n && Files(f, n)[i] == ip;
    }
  }

  lemma {:induction false} Drains(f: Fixed, n: Size, k: nat) returns (events: seq<Event>, s: Sys)
    requires !f.dryRun && f.config.drainThreshold > 0 && k <= f.config.maxConcurrentDraining && k < n
    ensures s == Run(f, Sys(AllActive(f, n), FRESH, Idle), events) && s.phase.Idle? && Fleet(f, n, s.weights)
    ensures |DrainingIn(s.weights)| == k
  {
    hide Run, Fleet, DrainingIn, AllActive;
    var start := Sys(AllActive(f, n), FRESH, Idle);
    StartsActive(f, n);
    if k == 0 {
      events, s := [], start;
      NoEvents(f, start);
    } else {
      events, s := Drains(f, n, k - 1);
      var more, s' := DrainsOneMore(f, s, n);
      RunAppends(f, start, events, more);
      events, s := events + more, s';
    }
  }

  /** From a fresh start with nothing draining, some run has exactly `k` backends draining. */
  ghost predicate Reachable(f: Fixed, k: nat)
  {
    exists w, events ::
      DrainingIn(w) == {} && |DrainingNow(Run(f, Sys(w, FRESH, Idle), events))| == k
  }

  /** With the drain threshold at zero, or nothing written, nothing ever starts draining. */
  lemma {:induction false} NothingDrains(f: Fixed, s: Sys, events: seq<Event>)
    requires s.phase.Idle? && (f.dryRun || f.config.drainThreshold == 0)
    ensures |DrainingNow(Run(f, s, events))| <= |DrainingNow(s)| && Accounted(Run(f, s, events))
  {
    hide Step, DrainingNow;
    if events != [] {
      var init := events[..|events| - 1];
      NothingDrains(f, s, init);
      StepDrainsNothing(f, Run(f, s, init), events[|events| - 1]);
    }
  }

  lemma StepDrainsNothing(f: Fixed, s: Sys, e: Event)
    requires Accounted(s) && (f.dryRun || f.config.drainThreshold == 0)
    ensures Accounted(Step(f, s, e)) && |DrainingNow(Step(f, s, e))| <= |DrainingNow(s)|
  {
    hide DrainingNow, Accounted, Write, Collect, Cleanup.Plans, Pass, PassEffects, Sorting.SortBy;
    StepKeepsCap(f, s, e);
    if e.Message? {
      WriteShrinks(f, s, e.ip, if e.claim then Active else Disabled, e.ok);
      SubsetIsSmaller(DrainingNow(Step(f, s, e)), DrainingNow(s));
    } else if e.CleanOne? && s.phase.Cleaning? && s.phase.plans != [] {
      CleanKeepsCap(f, s, e.succeeds);
    } else if e.Scale? && s.phase.Scaling? {
      NeverDrained(s.scaler, f.config, s.phase.snap, f.dryRun, e.around);
      SameWeights(s, Step(f, s, e));
    } else {
      ReadKeepsCap(f, s, e);
    }
  }

  lemma NeverDrained(s: State, config: ScaleConfig, snap: SystemSnapshot, dryRun: bool, around: Around)
    requires dryRun || config.drainThreshold == 0
    ensures PassEffects(s, config, snap, dryRun, around).drained == None
  {
    hide ActiveOf, ScaleUp, Asked, DrainingCount, Candidate;
  }

  /**
   How many backends can drain at once: none but zero if draining is off or only
   rehearsed, and otherwise every number up to the cap and no other.
   */
  lemma ReachableExactly(f: Fixed, k: nat)
    ensures Reachable(f, k) <==>
            k == 0 || (!f.dryRun && f.config.drainThreshold > 0 && k <= f.config.maxConcurrentDraining)
  {
    hide Run, DrainingNow, DrainingIn;
    if k == 0 {
      NothingYet(f);
    } else if !f.dryRun && f.config.drainThreshold > 0 && k <= f.config.maxConcurrentDraining {
      OnTheWay(f, k);
    } else {
      forall w, events | DrainingIn(w) == {}
        ensures |DrainingNow(Run(f, Sys(w, FRESH, Idle), events))| != k
      {
        var start := Sys(w, FRESH, Idle);
        SameSet(start);
        if f.dryRun || f.config.drainThreshold == 0 {
          NothingDrains(f, start, events);
        } else {
          CapHolds(f, start, events);
        }
      }
    }
  }

  lemma SameSet(s: Sys)
    ensures DrainingNow(s) == DrainingIn(s.weights)
  {
  }

  lemma NothingYet(f: Fixed)
    ensures Reachable(f, 0)
  {
    var w: map<u32, BackendState> := map[];
    NoEvents(f, Sys(w, FRESH, Idle));
    assert DrainingIn(w) == {} && DrainingNow(Sys(w, FRESH, Idle)) == {};
  }

  lemma OnTheWay(f: Fixed, k: nat)
    requires k > 0 && !f.dryRun && f.config.drainThreshold > 0 && k <= f.config.maxConcurrentDraining
    ensures Reachable(f, k)
  {
    hide Run, DrainingNow, DrainingIn, Fleet, AllActive;
    var n := k + 1;
    StartsActive(f, n);
    var events, s := Drains(f, n, k);
    SameSet(s);
  }
}
