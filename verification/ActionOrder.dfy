/**
 The order in which the cleanup pass acts, with any single action failing: it
 offers a slot only right after removing its owner and its lease, and terminates an
 instance only as the owner of a lease whose backend it has just disabled, or after
 a grace period in which no reported lease named it. What that second ground is
 worth depends on what was reported.
 */
module ActionOrder {
  import opened Options
  import opened Snapshot
  import opened Cleanup
  import opened DaemonRuns
  import opened Leases
  import OrphanGrace

  /** What a plan leaves in the log: a prefix of it, all but perhaps the last successful. */
  lemma {:induction false} TriedIsPrefix(env: Env, log: seq<Attempt>, plan: seq<Action>)
    ensures var t := Try(env, log, plan);
            && |log| <= |t| <= |log| + |plan| && t[..|log|] == log
            && (forall i :: |log| <= i < |t| ==> t[i].action == plan[i - |log|])
            && (forall i :: |log| <= i < |t| - 1 ==> t[i].ok)
    decreases |plan|
  {
    if plan != [] && !env.dryRun {
      var next := log + [Attempt(plan[0], env.io(|log|))];
      assert next[..|log|] == log;
      if env.io(|log|) {
        TriedIsPrefix(env, next, plan[1..]);
        var t := Try(env, next, plan[1..]);
        assert t[..|log|] == t[..|next|][..|log|];
        assert t[|log|] == t[..|next|][|log|] == next[|log|];
      }
    }
  }

  /** A slot becomes available right after its owner and its lease are successfully gone. */
  ghost predicate FreesLast(log: seq<Attempt>, i: nat)
    requires i < |log|
  {
    log[i].action.AddAvailable? ==>
      && i >= 2
      && log[i - 1] == Attempt(RemLease(log[i].action.slot), true)
      && log[i - 2] == Attempt(DelOwner(log[i].action.slot), true)
  }

  ghost predicate Tidy(log: seq<Attempt>)
  {
    forall i :: 0 <= i < |log| ==> FreesLast(log, i)
  }

  /** The same for plans: a slot is only freed behind the removal of its owner and its lease. */
  ghost predicate TidyPlan(plan: seq<Action>)
  {
    forall k :: 0 <= k < |plan| && plan[k].AddAvailable? ==>
      k >= 2 && plan[k - 1] == RemLease(plan[k].slot) && plan[k - 2] == DelOwner(plan[k].slot)
  }

  lemma {:induction false} TryStaysTidy(env: Env, log: seq<Attempt>, plan: seq<Action>)
    requires Tidy(log) && TidyPlan(plan)
    ensures Tidy(Try(env, log, plan))
  {
    hide Try;
    TriedIsPrefix(env, log, plan);
    var t := Try(env, log, plan);
    forall i | 0 <= i < |t| ensures FreesLast(t, i) {
      if i < |log| {
        assert FreesLast(log, i);
        assert forall j :: 0 <= j < |log| ==> t[j] == t[..|log|][j];
      } else {
        var k := i - |log|;
        if plan[k].AddAvailable? {
          assert t[i - 1].action == plan[k - 1] && t[i - 2].action == plan[k - 2];
        }
      }
    }
  }

  lemma {:induction false} TryAllStaysTidy(env: Env, log: seq<Attempt>, plans: seq<seq<Action>>)
    requires Tidy(log) && forall k :: 0 <= k < |plans| ==> TidyPlan(plans[k])
    ensures Tidy(TryAll(env, log, plans))
    decreases |plans|
  {
    hide Tidy, TidyPlan, Try;
    if plans != [] {
      TryAllStaysTidy(env, log, plans[..|plans| - 1]);
      TryStaysTidy(env, TryAll(env, log, plans[..|plans| - 1]), plans[|plans| - 1]);
    }
  }

  lemma PlansAreTidy(snap: SystemSnapshot, settings: Settings, seen: map<string, nat>, nowMs: nat, now: nat)
    ensures var plans := Plans(snap, settings, seen, nowMs, now);
            forall k :: 0 <= k < |plans| ==> TidyPlan(plans[k])
  {
    hide BackendOf, InServiceIds, OrphanScan;
    var a, b, c := LeasePlans(snap, settings, nowMs), OrphanPlans(snap, settings, seen, now), BackendPlans(snap);
    forall k | 0 <= k < |a| ensures TidyPlan(a[k]) {
      assert a[k] == LeasePlan(snap, settings, nowMs, snap.leases[k]);
    }
    assert forall k :: 0 <= k < |b| ==> TidyPlan(b[k]);
    assert forall k :: 0 <= k < |c| ==> TidyPlan(c[k]);
    hide LeasePlans, OrphanPlans, BackendPlans, TidyPlan;
    assert Plans(snap, settings, seen, nowMs, now) == a + b + c;
  }

  /**
   In the log of any run, whichever actions fail: a slot is put back into the free
   set only right after its owner key and its lease were removed successfully.
   */
  lemma {:induction false} SlotsAreFreedLast(f: Fixed, cycles: seq<Cycle>)
    ensures Tidy(After(f, cycles).log)
  {
    hide Tidy, TidyPlan, Plans, TryAll, Timers, SnapshotOf;
    if cycles == [] {
      NothingDoneIsTidy();
    } else {
      var past, c := cycles[..|cycles| - 1], cycles[|cycles| - 1];
      SlotsAreFreedLast(f, past);
      var m := After(f, past);
      var snap := SnapshotOf(f, m.cache, c);
      PlansAreTidy(snap, f.settings, m.seen, c.nowMs, c.now);
      TryAllStaysTidy(f.env, m.log, Plans(snap, f.settings, m.seen, c.nowMs, c.now));
    }
  }

  lemma NothingDoneIsTidy()
    ensures Tidy([])
  {
  }

  // -- terminations ------------------------------------------------------------------------

  /** In this pass the instance is terminated as an orphan. */
  predicate DoomedIn(snap: SystemSnapshot, settings: Settings, seen: map<string, nat>, now: nat, id: string)
  {
    id in OrphanScan(snap, settings, seen, now).doomed
  }

  /** The owner of a lease is terminated right after the weight file of the lease's backend was set to disabled. */
  ghost predicate OutOfService(snap: SystemSnapshot, log: seq<Attempt>, i: nat)
    requires i < |log|
  {
    && log[i].action.Terminate? && i >= 1
    && exists k ::
        && 0 <= k < |snap.leases|
        && snap.leases[k].owner == log[i].action.id
        && BackendOf(snap.backends, snap.leases[k].slot).Some?
        && log[i - 1] == Attempt(WriteWeight(BackendOf(snap.backends, snap.leases[k].slot).value.ip, Disabled), true)
  }

  lemma LeasePlanDisablesFirst(snap: SystemSnapshot, settings: Settings, nowMs: nat, l: SlotLease, k: nat)
    requires k < |LeasePlan(snap, settings, nowMs, l)| && LeasePlan(snap, settings, nowMs, l)[k].Terminate?
    ensures var plan := LeasePlan(snap, settings, nowMs, l);
            && k == 1 && plan[k].id == l.owner && BackendOf(snap.backends, l.slot).Some?
            && plan[0] == WriteWeight(BackendOf(snap.backends, l.slot).value.ip, Disabled)
  {
    hide BackendOf, InServiceIds;
  }

  /** Where in the plans an attempt comes from: its plan, its place, and success of what came before. */
  lemma {:induction false} TriedFrom(env: Env, log: seq<Attempt>, plans: seq<seq<Action>>, i: nat)
    returns (p: nat, k: nat)
    requires |log| <= i < |TryAll(env, log, plans)|
    ensures var t := TryAll(env, log, plans);
            && p < |plans| && k < |plans[p]| && t[i].action == plans[p][k]
            && k <= i - |log|
            && (k > 0 ==> t[i - 1] == Attempt(plans[p][k - 1], true))
    decreases |plans|
  {
    hide Try;
    var init, last := plans[..|plans| - 1], plans[|plans| - 1];
    var mid := TryAll(env, log, init);
    AllTriedWasPlanned(env, log, init);
    TriedIsPrefix(env, mid, last);
    var t := TryAll(env, log, plans);
    assert t == Try(env, mid, last) && t[..|mid|] == mid;
    if i < |mid| {
      p, k := TriedFrom(env, log, init, i);
      assert t[i] == t[..|mid|][i] && init[p] == plans[p];
      if k > 0 {
        assert t[i - 1] == t[..|mid|][i - 1];
      }
    } else {
      p, k := |plans| - 1, i - |mid|;
      if k > 0 {
        assert t[i - 1].action == last[k - 1] && t[i - 1].ok;
      }
    }
  }

  /**
   In every cycle of a run, whichever actions fail: the daemon terminates an
   instance only as an orphan whose grace period is over, or as the owner of a
   lease whose backend it has just successfully taken out of service.
   */
  lemma {:induction false} TerminationsAreOrdered(f: Fixed, past: seq<Cycle>, c: Cycle, i: nat)
    requires |After(f, past).log| <= i < |After(f, past + [c]).log|
    requires After(f, past + [c]).log[i].action.Terminate?
    ensures var m := After(f, past);
            var snap := SnapshotOf(f, m.cache, c);
            var log := After(f, past + [c]).log;
            OutOfService(snap, log, i) || DoomedIn(snap, f.settings, m.seen, c.now, log[i].action.id)
  {
    hide Timers, TryAll, SnapshotOf, OutOfService, DoomedIn, Plans;
    var m := After(f, past);
    assert (past + [c])[..|past|] == past;
    var snap := SnapshotOf(f, m.cache, c);
    assert After(f, past + [c]) == AfterCycle(f, m, c);
    var plans := Plans(snap, f.settings, m.seen, c.nowMs, c.now);
    var p, k := TriedFrom(f.env, m.log, plans, i);
    TerminationPlan(snap, f.settings, m.seen, c.nowMs, c.now, After(f, past + [c]).log, i, p, k);
  }

  lemma {:induction false} TerminationPlan(snap: SystemSnapshot, settings: Settings, seen: map<string, nat>, nowMs: nat,
                                           now: nat, log: seq<Attempt>, i: nat, p: nat, k: nat)
    requires var plans := Plans(snap, settings, seen, nowMs, now);
             && i < |log| && p < |plans| && k < |plans[p]| && k <= i
             && log[i].action == plans[p][k] && log[i].action.Terminate?
             && (k > 0 ==> log[i - 1] == Attempt(plans[p][k - 1], true))
    ensures OutOfService(snap, log, i) || DoomedIn(snap, settings, seen, now, log[i].action.id)
  {
    hide LeasePlan, BackendPlan, OrphanScan, BackendOf;
    var a, b := LeasePlans(snap, settings, nowMs), OrphanPlans(snap, settings, seen, now);
    var plans := Plans(snap, settings, seen, nowMs, now);
    if p < |a| {
      assert plans[p] == a[p] == LeasePlan(snap, settings, nowMs, snap.leases[p]);
      LeasePlanDisablesFirst(snap, settings, nowMs, snap.leases[p], k);
    } else if p < |a| + |b| {
      assert plans[p] == b[p - |a|];
    } else {
      BackendPlanTerminatesNobody(snap.backends[p - |a| - |b|], k);
    }
  }

  lemma BackendPlanTerminatesNobody(b: BackendStatus, k: nat)
    requires k < |BackendPlan(b)|
    ensures !BackendPlan(b)[k].Terminate?
  {
  }

  // -- orphans, in terms of the run -------------------------------------------------------------

  /** The cleanup passes of a run: those of the cycles in which the daemon was master. */
  function MasterPasses(f: Fixed, cycles: seq<Cycle>): seq<OrphanGrace.Pass>
  {
    if cycles == [] then []
    else
      var past, c := cycles[..|cycles| - 1], cycles[|cycles| - 1];
      MasterPasses(f, past)
        + if c.isMaster then [OrphanGrace.Pass(SnapshotOf(f, After(f, past).cache, c), c.now)] else []
  }

  /** The daemon's timers are those of its cleanup passes; a backup leaves them alone. */
  lemma {:induction false} TimersOfRun(f: Fixed, cycles: seq<Cycle>)
    ensures After(f, cycles).seen == OrphanGrace.TimersAfter(f.settings, MasterPasses(f, cycles))
  {
    hide SnapshotOf, Plans, TryAll, Timers;
    if cycles != [] {
      var past, c := cycles[..|cycles| - 1], cycles[|cycles| - 1];
      TimersOfRun(f, past);
      if c.isMaster {
        var passes := MasterPasses(f, cycles);
        var p := OrphanGrace.Pass(SnapshotOf(f, After(f, past).cache, c), c.now);
        assert passes == MasterPasses(f, past) + [p];
        assert passes[..|passes| - 1] == MasterPasses(f, past) && passes[|passes| - 1] == p;
      } else {
        assert MasterPasses(f, cycles) == MasterPasses(f, past);
      }
    }
  }

  /** The snapshot that the `m`-th cycle takes. */
  function SnapshotAt(f: Fixed, cycles: seq<Cycle>, m: nat): SystemSnapshot
    requires m < |cycles|
  {
    SnapshotOf(f, After(f, cycles[..m]).cache, cycles[m])
  }

  /** How many of the cycles ran as master. */
  function Masters(cycles: seq<Cycle>): nat
  {
    if cycles == [] then 0
    else Masters(cycles[..|cycles| - 1]) + if cycles[|cycles| - 1].isMaster then 1 else 0
  }

  lemma {:induction false} PassOfCycle(f: Fixed, cycles: seq<Cycle>, m: nat)
    requires m < |cycles| && cycles[m].isMaster
    ensures var k := Masters(cycles[..m]);
            k < |MasterPasses(f, cycles)| == Masters(cycles)
            && MasterPasses(f, cycles)[k] == OrphanGrace.Pass(SnapshotAt(f, cycles, m), cycles[m].now)
  {
    hide SnapshotOf, After;
    var init := cycles[..|cycles| - 1];
    CountPasses(f, init);
    if m < |init| {
      assert init[m] == cycles[m] && init[..m] == cycles[..m];
      PassOfCycle(f, init, m);
    }
  }

  lemma {:induction false} CountPasses(f: Fixed, cycles: seq<Cycle>)
    ensures |MasterPasses(f, cycles)| == Masters(cycles)
  {
    if cycles != [] {
      CountPasses(f, cycles[..|cycles| - 1]);
    }
  }

  lemma {:induction false} CycleOfPass(f: Fixed, cycles: seq<Cycle>, k: nat) returns (m: nat)
    requires k < Masters(cycles)
    ensures m < |cycles| && cycles[m].isMaster && Masters(cycles[..m]) == k
  {
    var init := cycles[..|cycles| - 1];
    if k < Masters(init) {
      m := CycleOfPass(f, init, k);
      assert init[m] == cycles[m] && init[..m] == cycles[..m];
    } else {
      m := |cycles| - 1;
    }
  }

  lemma {:induction false} MastersGrow(cycles: seq<Cycle>, j: nat, m: nat)
    requires j <= m <= |cycles|
    ensures Masters(cycles[..j]) <= Masters(cycles[..m])
  {
    if j < m {
      MastersGrow(cycles, j, m - 1);
      assert cycles[..m][..m - 1] == cycles[..m - 1];
    }
  }

  /** For no lease that the `m`-th cycle read was the last answer from Redis, in any cycle so far, this owner. */
  ghost predicate Unnamed(cycles: seq<Cycle>, m: nat, id: string)
    requires m < |cycles|
  {
    forall i :: 0 <= i < |cycles[m].raw| ==>
      LastAnswer(Reads(Raws(cycles[..m])) + cycles[m].raw[..i + 1], cycles[m].raw[i].slot) != Some(Found(id))
  }

  /** The owner that the `m`-th cycle reports for its `i`-th lease. */
  function OwnerReported(cycles: seq<Cycle>, m: nat, i: nat): string
    requires m < |cycles| && i < |cycles[m].raw|
  {
    OwnerOf(RefreshAll(CacheAfter(Raws(cycles[..m])), cycles[m].raw[..i]), cycles[m].raw[i])
  }

  lemma {:induction false} ReportedAt(f: Fixed, cycles: seq<Cycle>, m: nat)
    requires m < |cycles|
    ensures forall id :: id in LeasedOwners(SnapshotAt(f, cycles, m).leases) <==>
              exists i :: 0 <= i < |cycles[m].raw| && OwnerReported(cycles, m, i) == id
  {
    hide Resolve, RefreshAll, Reads, CacheAfter, Raws;
    CacheOfRun(f, cycles[..m]);
    var raw, cache := cycles[m].raw, CacheAfter(Raws(cycles[..m]));
    var found := Resolve(cache, raw);
    Sorting.SortKeeps(found, BySlot);
    assert SnapshotAt(f, cycles, m).leases == Sorting.SortBy(found, BySlot);
    forall i | 0 <= i < |raw| ensures found[i].owner == OwnerReported(cycles, m, i) {
      ResolveAt(cache, raw, i);
    }
    forall id | exists i :: 0 <= i < |raw| && OwnerReported(cycles, m, i) == id
      ensures id in LeasedOwners(SnapshotAt(f, cycles, m).leases)
    {
      var i :| 0 <= i < |raw| && OwnerReported(cycles, m, i) == id;
      assert found[i] in SnapshotAt(f, cycles, m).leases;
    }
    forall id | id in LeasedOwners(SnapshotAt(f, cycles, m).leases)
      ensures exists i :: 0 <= i < |raw| && OwnerReported(cycles, m, i) == id
    {
      var l :| l in SnapshotAt(f, cycles, m).leases && l.owner == id;
      var i :| 0 <= i < |found| && found[i] == l;
      assert OwnerReported(cycles, m, i) == id;
    }
  }

  /**
   What it takes for section 2.2 to count an instance as unleased: that Redis's last
   answer named it for none of the leases. A lease whose owner Redis does not tell,
   because the key is gone or the read failed and none succeeded before, names nobody.
   */
  lemma {:induction false} OrphanedExactly(f: Fixed, cycles: seq<Cycle>, m: nat, id: string)
    requires m < |cycles| && id != OWNER_MISSING && id != OWNER_UNKNOWN
    ensures id in LeasedOwners(SnapshotAt(f, cycles, m).leases) <==> !Unnamed(cycles, m, id)
  {
    hide LastAnswer, Reads, Raws, CacheAfter, RefreshAll, LeasedOwners, SnapshotAt;
    ReportedAt(f, cycles, m);
    forall i | 0 <= i < |cycles[m].raw|
      ensures OwnerReported(cycles, m, i) == id <==>
              LastAnswer(Reads(Raws(cycles[..m])) + cycles[m].raw[..i + 1], cycles[m].raw[i].slot) == Some(Found(id))
    {
      OwnerIsLastAnswer(Raws(cycles[..m]), cycles[m].raw, i);
      NeverFailed(Reads(Raws(cycles[..m])) + cycles[m].raw[..i + 1], cycles[m].raw[i].slot);
    }
  }

  /**
   Since the `j`-th cycle, at least the grace period before the last one, every
   cleanup pass has seen the instance InService and no lease whose last answered
   owner it was.
   */
  ghost predicate WaitedOut(f: Fixed, cycles: seq<Cycle>, j: nat, id: string)
  {
    && j < |cycles| - 1 && cycles[j].isMaster
    && (f.settings.graceSecs > 0 ==> cycles[j].now + 1000 * f.settings.graceSecs <= cycles[|cycles| - 1].now)
    && forall m :: j <= m < |cycles| && cycles[m].isMaster ==>
         OrphanGrace.Orphaned(SnapshotAt(f, cycles, m), id) && Unnamed(cycles, m, id)
  }

  lemma {:induction false} UnnamedWhenOrphaned(f: Fixed, cycles: seq<Cycle>, m: nat, id: string)
    requires m < |cycles| && OrphanGrace.Orphaned(SnapshotAt(f, cycles, m), id)
    ensures Unnamed(cycles, m, id)
  {
    hide LastAnswer, Reads, Raws, CacheAfter, RefreshAll, LeasedOwners, SnapshotAt;
    ReportedAt(f, cycles, m);
    forall i | 0 <= i < |cycles[m].raw|
      ensures LastAnswer(Reads(Raws(cycles[..m])) + cycles[m].raw[..i + 1], cycles[m].raw[i].slot) != Some(Found(id))
    {
      OwnerIsLastAnswer(Raws(cycles[..m]), cycles[m].raw, i);
      assert OwnerReported(cycles, m, i) != id;
    }
  }

  lemma {:induction false} DoomedHaveWaited(f: Fixed, past: seq<Cycle>, c: Cycle, id: string) returns (j: nat)
    requires c.isMaster && OrphanGrace.Proper(MasterPasses(f, past + [c]))
    requires DoomedIn(SnapshotOf(f, After(f, past).cache, c), f.settings, After(f, past).seen, c.now, id)
    ensures WaitedOut(f, past + [c], j, id)
  {
    hide SnapshotOf, OrphanScan, After, OrphanGrace.TimersAfter, OrphanGrace.Proper, OrphanGrace.Orphaned, Unnamed;
    var all := past + [c];
    assert all[..|past|] == past;
    var p := OrphanGrace.Pass(SnapshotOf(f, After(f, past).cache, c), c.now);
    TimersOfRun(f, past);
    var passes := MasterPasses(f, past);
    assert MasterPasses(f, all) == passes + [p];
    var k := OrphanGrace.GraceIsObserved(f.settings, passes, p, id);
    CountPasses(f, past);
    j := CycleOfPass(f, past, k);
    assert past[j] == all[j] && past[..j] == all[..j];
    PassOfCycle(f, all, j);
    forall m | j <= m < |all| && all[m].isMaster
      ensures OrphanGrace.Orphaned(SnapshotAt(f, all, m), id) && Unnamed(all, m, id)
    {
      PassOfCycle(f, all, m);
      MastersGrow(all, j, m);
      UnnamedWhenOrphaned(f, all, m, id);
    }
  }

  /**
   Every termination in the cleanup's log, whichever actions fail: the instance owns
   a lease whose backend has just been taken out of service, or in every cleanup pass
   since one at least the grace period ago it was InService and no lease's last
   answered owner.
   */
  lemma {:induction false} TerminationsAreJustified(f: Fixed, past: seq<Cycle>, c: Cycle, i: nat)
    requires |After(f, past).log| <= i < |After(f, past + [c]).log|
    requires After(f, past + [c]).log[i].action.Terminate?
    requires OrphanGrace.Proper(MasterPasses(f, past + [c]))
    ensures var log := After(f, past + [c]).log;
            || OutOfService(SnapshotOf(f, After(f, past).cache, c), log, i)
            || exists j :: WaitedOut(f, past + [c], j, log[i].action.id)
  {
    hide SnapshotOf, OutOfService, DoomedIn, WaitedOut, After, OrphanGrace.Proper, MasterPasses;
    TerminationsAreOrdered(f, past, c, i);
    OnlyMastersAct(f, past, c);
    var id := After(f, past + [c]).log[i].action.id;
    if DoomedIn(SnapshotOf(f, After(f, past).cache, c), f.settings, After(f, past).seen, c.now, id) {
      var j := DoomedHaveWaited(f, past, c, id);
    }
  }

  lemma {:induction false} OnlyMastersAct(f: Fixed, past: seq<Cycle>, c: Cycle)
    requires |After(f, past).log| < |After(f, past + [c]).log|
    ensures c.isMaster
  {
    hide SnapshotOf, Plans, TryAll, Timers;
    assert (past + [c])[..|past|] == past;
  }

  // -- the order of the sections ---------------------------------------------------------------

  /** Section 2.1 acts on slots, backends and owners of reported leases. */
  ghost predicate AboutLeases(snap: SystemSnapshot, a: Action)
  {
    match a
    case DelOwner(slot) => exists l :: l in snap.leases && l.slot == slot
    case RemLease(slot) => exists l :: l in snap.leases && l.slot == slot
    case AddAvailable(slot, _) => exists l :: l in snap.leases && l.slot == slot
    case WriteWeight(ip, _) => exists b :: b in snap.backends && b.ip == ip && b.lease.Some?
    case Terminate(id, _) => exists l :: l in snap.leases && l.owner == id
  }

  /** Section 2.2 terminates instances that no reported lease names. */
  ghost predicate AboutOrphans(snap: SystemSnapshot, a: Action)
  {
    a.Terminate? && !a.decrement && forall l :: l in snap.leases ==> l.owner != a.id
  }

  /** Section 2.3 disables backends without leases. */
  ghost predicate AboutBackends(snap: SystemSnapshot, a: Action)
  {
    a.WriteWeight? && a.state == Disabled && exists b :: b in snap.backends && b.ip == a.ip && b.lease.None?
  }

  /**
   In every cycle of a run, whichever actions fail, the log grows by what is done about
   leases, then about orphans, then about backends without leases: no slot is released
   behind the termination of an orphan, and nobody is terminated behind the last section.
   */
  lemma {:induction false} SectionsInOrder(f: Fixed, past: seq<Cycle>, c: Cycle) returns (x: nat, y: nat)
    ensures var snap := SnapshotOf(f, After(f, past).cache, c);
            var before, log := After(f, past).log, After(f, past + [c]).log;
            && |before| <= x <= y <= |log| && log[..|before|] == before
            && (forall i :: |before| <= i < x ==> AboutLeases(snap, log[i].action))
            && (forall i :: x <= i < y ==> AboutOrphans(snap, log[i].action))
            && (forall i :: y <= i < |log| ==> AboutBackends(snap, log[i].action))
  {
    hide SnapshotOf, TryAll, Timers, LeasePlans, OrphanPlans, BackendPlans, AboutLeases, AboutOrphans, AboutBackends;
    hide Planned;
    var m := After(f, past);
    assert (past + [c])[..|past|] == past;
    var snap := SnapshotOf(f, m.cache, c);
    x, y := |m.log|, |m.log|;
    if c.isMaster {
      var a, b := LeasePlans(snap, f.settings, c.nowMs), OrphanPlans(snap, f.settings, m.seen, c.now);
      var d := BackendPlans(snap);
      var first := TryAll(f.env, m.log, a);
      var second := TryAll(f.env, first, b);
      TryAllAppends(f.env, m.log, a, b);
      TryAllAppends(f.env, m.log, a + b, d);
      AllTriedWasPlanned(f.env, m.log, a);
      AllTriedWasPlanned(f.env, first, b);
      AllTriedWasPlanned(f.env, second, d);
      x, y := |first|, |second|;
      WhatSectionsPlan(snap, f.settings, m.seen, c.nowMs, c.now);
      var log := After(f, past + [c]).log;
      assert log == TryAll(f.env, second, d);
      assert forall i :: 0 <= i < y ==> log[i] == log[..y][i];
      assert forall i :: 0 <= i < x ==> log[i] == second[i] == second[..x][i];
      assert log[..|m.log|] == m.log;
    }
  }

  lemma WhatSectionsPlan(snap: SystemSnapshot, settings: Settings, seen: map<string, nat>, nowMs: nat, now: nat)
    ensures forall a :: Planned(LeasePlans(snap, settings, nowMs), a) ==> AboutLeases(snap, a)
    ensures forall a :: Planned(OrphanPlans(snap, settings, seen, now), a) ==> AboutOrphans(snap, a)
    ensures forall a :: Planned(BackendPlans(snap), a) ==> AboutBackends(snap, a)
  {
    hide LeasePlan, OrphanScan, LeasedOwners;
    forall a | Planned(LeasePlans(snap, settings, nowMs), a) ensures AboutLeases(snap, a) {
      var k :| 0 <= k < |LeasePlans(snap, settings, nowMs)| && a in LeasePlans(snap, settings, nowMs)[k];
      LeasePlanIsAboutLease(snap, settings, nowMs, snap.leases[k], a);
    }
    forall a | Planned(OrphanPlans(snap, settings, seen, now), a) ensures AboutOrphans(snap, a) {
      var plans, doomed := OrphanPlans(snap, settings, seen, now), OrphanScan(snap, settings, seen, now).doomed;
      var k :| 0 <= k < |plans| && a in plans[k];
      assert a == Terminate(doomed[k], false);
      UnnamedInScan(snap, settings, seen, now, a.id);
      OwnersAreLeased(snap.leases);
    }
    forall a | Planned(BackendPlans(snap), a) ensures AboutBackends(snap, a) {
      var k :| 0 <= k < |BackendPlans(snap)| && a in BackendPlans(snap)[k];
      assert snap.backends[k] in snap.backends;
    }
  }

  lemma UnnamedInScan(snap: SystemSnapshot, settings: Settings, seen: map<string, nat>, now: nat, id: string)
    ensures id in OrphanScan(snap, settings, seen, now).doomed ==> id !in LeasedOwners(snap.leases)
  {
    OrphansAreUnnamed(seen, snap.asg, LeasedOwners(snap.leases), settings.graceSecs, now, id);
  }

  lemma {:induction false} OwnersAreLeased(leases: seq<SlotLease>)
    ensures forall l :: l in leases ==> l.owner in LeasedOwners(leases)
  {
  }

  lemma LeasePlanIsAboutLease(snap: SystemSnapshot, settings: Settings, nowMs: nat, lease: SlotLease, a: Action)
    requires lease in snap.leases && a in LeasePlan(snap, settings, nowMs, lease)
    ensures AboutLeases(snap, a)
  {
    hide BackendOf, InServiceIds, Connections;
    BackendIsFound(snap.backends, lease.slot);
  }

  lemma {:induction false} BackendIsFound(backends: seq<BackendStatus>, slot: u32)
    ensures var b := BackendOf(backends, slot); b.Some? ==> b.value in backends && b.value.lease.Some?
  {
    if backends != [] {
      BackendIsFound(backends[1..], slot);
    }
  }

  lemma {:induction false} OrphansAreUnnamed(seen: map<string, nat>, asg: seq<AsgInstance>, leased: set<string>,
                                             graceSecs: nat, now: nat, id: string)
    ensures id in ObserveAll(seen, asg, leased, graceSecs, now).doomed ==> id !in leased
    decreases |asg|
  {
    if asg != [] {
      OrphansAreUnnamed(seen, asg[..|asg| - 1], leased, graceSecs, now, id);
    }
  }
}
