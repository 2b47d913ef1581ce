/**
 Cleanup settles: left alone, with every action succeeding, only boundedly many
 passes do anything, whatever connection counts, clocks, capacities, unreadable
 owners and failed ASG queries the passes see.
 */
module Convergence {
  import opened Options
  import opened Snapshot
  import opened Cleanup
  import opened Sets
  import Leases
  import SingleWrite

  /** What cleanup changes: who is InService, which slots are leased, and the weight files. */
  datatype World = World(inService: set<string>, leases: set<u32>, weights: map<u32, BackendState>)

  function Apply(w: World, a: Action): World
  {
    match a
    case DelOwner(_) => w
    case RemLease(slot) => w.(leases := w.leases - {slot})
    case AddAvailable(_, _) => w
    case WriteWeight(ip, state) => w.(weights := w.weights[ip := state])
    case Terminate(id, _) => w.(inService := w.inService - {id})
  }

  function ApplyAll(w: World, acts: seq<Action>): World
  {
    if acts == [] then w else Apply(ApplyAll(w, acts[..|acts| - 1]), acts[|acts| - 1])
  }

  function Flat(plans: seq<seq<Action>>): seq<Action>
  {
    if plans == [] then [] else Flat(plans[..|plans| - 1]) + plans[|plans| - 1]
  }

  /** The snapshot shows this world: all of it, or, after a failed query, all but the instances. */
  ghost predicate Sees(net: SlotNetwork, w: World, snap: SystemSnapshot)
  {
    && WellJoined(net, snap)
    && (forall l :: l in snap.leases ==> l.slot in w.leases)
    && (forall s :: s in w.leases ==> exists i :: 0 <= i < |snap.leases| && snap.leases[i].slot == s)
    && (forall i :: 0 <= i < |snap.backends| ==>
          snap.backends[i].ip in w.weights && snap.backends[i].weight == w.weights[snap.backends[i].ip])
    && (snap.asgGroup.Some? ==> InServiceIds(snap.asg) == w.inService)
  }

  predicate LeasedIp(net: SlotNetwork, w: World, ip: u32)
  {
    exists s :: s in w.leases && net.IpForSlot(s) == ip
  }

  /** A weight file whose rank is 1: disabled though leased, or in use though not leased. */
  predicate Misplaced(net: SlotNetwork, w: World, ip: u32)
    requires ip in w.weights
  {
    if LeasedIp(net, w, ip) then w.weights[ip] == Disabled else w.weights[ip] == Active || w.weights[ip] == Draining
  }

  function MisplacedIps(net: SlotNetwork, w: World): set<u32>
  {
    set ip | ip in w.weights && Misplaced(net, w, ip)
  }

  /** Lexicographic (InService and leases first, then ranks), folded into one number. */
  function Measure(net: SlotNetwork, w: World): nat
  {
    (|w.inService| + |w.leases|) * (|w.weights| + 1) + |MisplacedIps(net, w)|
  }

  // -- what a pass may plan -------------------------------------------------------------------

  /** What the write should put there: files of leased slots become active, others disabled. */
  ghost predicate Corrects(net: SlotNetwork, w: World, a: Action)
  {
    a.WriteWeight? && a.ip in w.weights && Misplaced(net, w, a.ip)
      && a.state == if LeasedIp(net, w, a.ip) then Active else Disabled
  }

  ghost predicate Removes(w: World, a: Action)
  {
    (a.Terminate? && a.id in w.inService) || (a.RemLease? && a.slot in w.leases)
  }

  /** A plan that removes nothing only corrects weight files. */
  ghost predicate Useful(net: SlotNetwork, w: World, plan: seq<Action>)
  {
    && (forall a :: a in plan && a.WriteWeight? ==> a.ip in w.weights)
    && ((exists a :: a in plan && Removes(w, a)) || forall a :: a in plan ==> Corrects(net, w, a))
  }

  lemma LeasePlanIsUseful(net: SlotNetwork, w: World, snap: SystemSnapshot, settings: Settings, nowMs: nat,
                          l: SlotLease)
    requires Sees(net, w, snap) && !Implausible(snap) && l in snap.leases
    ensures Useful(net, w, LeasePlan(snap, settings, nowMs, l))
  {
    SingleWrite.BackendAtSlot(net, snap, l.slot);
    hide BackendOf, InServiceIds;
    var b := BackendOf(snap.backends, l.slot);
    if b.Some? {
      var i :| 0 <= i < |snap.backends| && snap.backends[i] == b.value;
      assert b.value.ip in w.weights && b.value.weight == w.weights[b.value.ip];
      assert LeasedIp(net, w, b.value.ip);
    }
    var plan := LeasePlan(snap, settings, nowMs, l);
    if l.owner != Leases.OWNER_MISSING && l.owner != Leases.OWNER_UNKNOWN && l.owner !in InServiceIds(snap.asg) {
      assert plan[1] == RemLease(l.slot);
      assert Removes(w, plan[1]);
    } else if |plan| == 2 {
      assert Removes(w, plan[1]);
    }
  }

  lemma BackendPlanIsUseful(net: SlotNetwork, w: World, snap: SystemSnapshot, b: BackendStatus)
    requires Sees(net, w, snap) && b in snap.backends
    ensures Useful(net, w, BackendPlan(b))
  {
    var i :| 0 <= i < |snap.backends| && snap.backends[i] == b;
    if b.lease.None? {
      forall s | s in w.leases ensures net.IpForSlot(s) != b.ip {
        var j :| 0 <= j < |snap.leases| && snap.leases[j].slot == s;
        assert snap.backends[i].lease != Some(snap.leases[j]);
      }
    }
  }

  /** Only instances seen InService are doomed. */
  lemma {:induction false} DoomedAreInService(seen: map<string, nat>, asg: seq<AsgInstance>, leased: set<string>,
                                              graceSecs: nat, now: nat, id: string)
    ensures id in ObserveAll(seen, asg, leased, graceSecs, now).doomed ==> id in InServiceIds(asg)
    decreases |asg|
  {
    if asg != [] {
      var init, last := asg[..|asg| - 1], asg[|asg| - 1];
      DoomedAreInService(seen, init, leased, graceSecs, now, id);
      assert forall x :: x in init ==> x in asg;
      assert last in asg;
    }
  }

  lemma OrphanPlanIsUseful(net: SlotNetwork, w: World, snap: SystemSnapshot, settings: Settings, seen: map<string, nat>,
                           now: nat, k: nat)
    requires Sees(net, w, snap) && k < |OrphanPlans(snap, settings, seen, now)|
    ensures Useful(net, w, OrphanPlans(snap, settings, seen, now)[k])
  {
    var id := OrphanScan(snap, settings, seen, now).doomed[k];
    DoomedAreInService(seen, snap.asg, LeasedOwners(snap.leases), settings.graceSecs, now, id);
    hide OrphanScan;
    assert snap.asgGroup.None? ==> InServiceIds(snap.asg) == {};
    var plan := OrphanPlans(snap, settings, seen, now)[k];
    assert plan == [Terminate(id, false)];
    assert Removes(w, plan[0]);
  }

  lemma PlansAreUseful(net: SlotNetwork, w: World, snap: SystemSnapshot, settings: Settings, seen: map<string, nat>,
                       nowMs: nat, now: nat)
    requires Sees(net, w, snap)
    ensures var plans := Plans(snap, settings, seen, nowMs, now);
            forall k :: 0 <= k < |plans| ==> Useful(net, w, plans[k])
  {
    hide LeasePlan, OrphanPlans, BackendPlan, Useful, Sees;
    var a, b, c := LeasePlans(snap, settings, nowMs), OrphanPlans(snap, settings, seen, now), BackendPlans(snap);
    forall k | 0 <= k < |a| ensures Useful(net, w, a[k]) {
      LeasePlanIsUseful(net, w, snap, settings, nowMs, snap.leases[k]);
    }
    forall k | 0 <= k < |b| ensures Useful(net, w, b[k]) {
      OrphanPlanIsUseful(net, w, snap, settings, seen, now, k);
    }
    forall k | 0 <= k < |c| ensures Useful(net, w, c[k]) {
      BackendPlanIsUseful(net, w, snap, snap.backends[k]);
    }
  }

  lemma {:induction false} FlatIsUseful(net: SlotNetwork, w: World, plans: seq<seq<Action>>)
    requires forall k :: 0 <= k < |plans| ==> Useful(net, w, plans[k])
    ensures Useful(net, w, Flat(plans))
  {
    if plans != [] {
      var init, last := plans[..|plans| - 1], plans[|plans| - 1];
      FlatIsUseful(net, w, init);
      hide Corrects, Removes, Flat;
      UsefulAppends(net, w, Flat(init), last);
      FlatLast(plans);
    }
  }

  lemma {:induction false} FlatLast(plans: seq<seq<Action>>)
    requires plans != []
    ensures Flat(plans) == Flat(plans[..|plans| - 1]) + plans[|plans| - 1]
  {
  }

  lemma {:induction false} UsefulAppends(net: SlotNetwork, w: World, a: seq<Action>, b: seq<Action>)
    requires Useful(net, w, a) && Useful(net, w, b)
    ensures Useful(net, w, a + b)
  {
    hide Corrects, Removes;
    if x :| x in a && Removes(w, x) {
      assert x in a + b;
    } else if x :| x in b && Removes(w, x) {
      assert x in a + b;
    }
  }

  // -- what carrying it out does -----------------------------------------------------------------

  lemma {:induction false} Removal(w: World, acts: seq<Action>)
    requires forall a :: a in acts && a.WriteWeight? ==> a.ip in w.weights
    ensures var after := ApplyAll(w, acts);
            && after.inService <= w.inService && after.leases <= w.leases
            && after.weights.Keys == w.weights.Keys
            && (forall a :: a in acts && a.Terminate? ==> a.id !in after.inService)
            && (forall a :: a in acts && a.RemLease? ==> a.slot !in after.leases)
  {
    if acts != [] {
      var init, last := acts[..|acts| - 1], acts[|acts| - 1];
      assert acts == init + [last];
      Removal(w, init);
    }
  }

  lemma {:induction false} Correction(net: SlotNetwork, w: World, acts: seq<Action>)
    requires forall a :: a in acts ==> Corrects(net, w, a)
    ensures var after := ApplyAll(w, acts);
            && after.inService == w.inService && after.leases == w.leases && after.weights.Keys == w.weights.Keys
            && (forall ip :: ip in w.weights ==>
                 after.weights[ip] == w.weights[ip]
                 || (Misplaced(net, w, ip) && after.weights[ip] == if LeasedIp(net, w, ip) then Active else Disabled))
            && (forall a :: a in acts ==>
                 && a.WriteWeight? && a.ip in w.weights
                 && after.weights[a.ip] == if LeasedIp(net, w, a.ip) then Active else Disabled)
  {
    hide LeasedIp;
    if acts != [] {
      var init, last := acts[..|acts| - 1], acts[|acts| - 1];
      assert acts == init + [last];
      Correction(net, w, init);
      assert Corrects(net, w, last);
    }
  }

  lemma {:induction false} RemovalLowers(net: SlotNetwork, w: World, acts: seq<Action>, a: Action)
    requires forall x :: x in acts && x.WriteWeight? ==> x.ip in w.weights
    requires a in acts && Removes(w, a)
    ensures |ApplyAll(w, acts).inService| + |ApplyAll(w, acts).leases| < |w.inService| + |w.leases|
    ensures Measure(net, ApplyAll(w, acts)) < Measure(net, w)
  {
    hide ApplyAll, MisplacedIps;
    var after := ApplyAll(w, acts);
    FewerLeft(w, acts, a);
    RanksBounded(net, after);
    Lexicographic(|after.inService| + |after.leases|, |MisplacedIps(net, after)|,
                  |w.inService| + |w.leases|, |MisplacedIps(net, w)|, |w.weights|);
  }

  lemma {:induction false} FewerLeft(w: World, acts: seq<Action>, a: Action)
    requires forall x :: x in acts && x.WriteWeight? ==> x.ip in w.weights
    requires a in acts && Removes(w, a)
    ensures |ApplyAll(w, acts).inService| + |ApplyAll(w, acts).leases| < |w.inService| + |w.leases|
    ensures |ApplyAll(w, acts).weights| == |w.weights|
  {
    hide ApplyAll;
    var after := ApplyAll(w, acts);
    Removal(w, acts);
    SubsetIsSmaller(after.inService, w.inService);
    SubsetIsSmaller(after.leases, w.leases);
    if a.Terminate? {
      StrictSubsetIsSmaller(after.inService, w.inService, a.id);
    } else {
      StrictSubsetIsSmaller(after.leases, w.leases, a.slot);
    }
    assert |after.weights| == |after.weights.Keys| == |w.weights.Keys| == |w.weights|;
  }

  lemma RanksBounded(net: SlotNetwork, w: World)
    ensures |MisplacedIps(net, w)| <= |w.weights|
  {
    hide Misplaced;
    SubsetIsSmaller(MisplacedIps(net, w), w.weights.Keys);
  }

  lemma Lexicographic(a: nat, r: nat, b: nat, s: nat, n: nat)
    requires a < b && r <= n
    ensures a * (n + 1) + r < b * (n + 1) + s
  {
    assert (a + 1) * (n + 1) <= b * (n + 1);
  }

  lemma {:induction false} CorrectionLowers(net: SlotNetwork, w: World, acts: seq<Action>)
    requires forall a :: a in acts ==> Corrects(net, w, a)
    requires acts != []
    ensures ApplyAll(w, acts).inService == w.inService && ApplyAll(w, acts).leases == w.leases
    ensures |MisplacedIps(net, ApplyAll(w, acts))| < |MisplacedIps(net, w)|
    ensures Measure(net, ApplyAll(w, acts)) < Measure(net, w)
  {
    hide ApplyAll;
    var after := ApplyAll(w, acts);
    Correction(net, w, acts);
    assert Corrects(net, w, acts[0]);
    var ip := acts[0].ip;
    assert ip in MisplacedIps(net, w);
    assert forall x :: LeasedIp(net, after, x) <==> LeasedIp(net, w, x);
    assert !Misplaced(net, after, ip);
    assert MisplacedIps(net, after) <= MisplacedIps(net, w);
    StrictSubsetIsSmaller(MisplacedIps(net, after), MisplacedIps(net, w), ip);
    assert |after.weights| == |after.weights.Keys| == |w.weights.Keys| == |w.weights|;
  }

  /** A pass that does anything lowers (InService + leases, misplaced weight files) lexicographically. */
  lemma ActingLowers(net: SlotNetwork, w: World, snap: SystemSnapshot, settings: Settings, seen: map<string, nat>,
                     nowMs: nat, now: nat)
    requires Sees(net, w, snap)
    ensures var acts := Flat(Plans(snap, settings, seen, nowMs, now));
            var after := ApplyAll(w, acts);
            acts != [] ==>
              && Measure(net, after) < Measure(net, w)
              && (|after.inService| + |after.leases| < |w.inService| + |w.leases| ||
                   (after.inService == w.inService && after.leases == w.leases
                     && |MisplacedIps(net, after)| < |MisplacedIps(net, w)|))
  {
    hide Plans, Flat, Measure, MisplacedIps, Removes, Corrects, ApplyAll, Sees;
    var plans := Plans(snap, settings, seen, nowMs, now);
    PlansAreUseful(net, w, snap, settings, seen, nowMs, now);
    FlatIsUseful(net, w, plans);
    var acts := Flat(plans);
    if a :| a in acts && Removes(w, a) {
      RemovalLowers(net, w, acts, a);
    } else if acts != [] {
      CorrectionLowers(net, w, acts);
    }
  }

  // -- runs ------------------------------------------------------------------------------------------

  /** What one pass sees of the world; everything but the world itself may differ from pass to pass. */
  datatype Sight = Sight(snap: SystemSnapshot, nowMs: nat, now: nat)

  function Acts(settings: Settings, seen: map<string, nat>, s: Sight): seq<Action>
  {
    Flat(Plans(s.snap, settings, seen, s.nowMs, s.now))
  }

  /** Each pass sees the world its predecessors left behind. */
  ghost predicate Undisturbed(net: SlotNetwork, settings: Settings, w: World, seen: map<string, nat>, run: seq<Sight>)
    decreases |run|
  {
    run != [] ==>
      && Sees(net, w, run[0].snap)
      && Undisturbed(net, settings, ApplyAll(w, Acts(settings, seen, run[0])),
                     Timers(run[0].snap, settings, seen, run[0].now), run[1..])
  }

  function ActingPasses(settings: Settings, seen: map<string, nat>, run: seq<Sight>): nat
    decreases |run|
  {
    if run == [] then 0
    else (if Acts(settings, seen, run[0]) != [] then 1 else 0)
         + ActingPasses(settings, Timers(run[0].snap, settings, seen, run[0].now), run[1..])
  }

  /** However long the run: no more passes act than the measure allows. */
  lemma {:induction false} BoundedlyManyAct(net: SlotNetwork, settings: Settings, w: World, seen: map<string, nat>,
                                            run: seq<Sight>)
    requires Undisturbed(net, settings, w, seen, run)
    ensures ActingPasses(settings, seen, run) <= Measure(net, w)
    ensures ActingPasses(settings, seen, run) <= (|w.inService| + |w.leases| + 1) * (|w.weights| + 1)
    decreases |run|
  {
    if run != [] {
      hide Timers, Flat, Measure, ApplyAll, Sees, Plans;
      var after := ApplyAll(w, Acts(settings, seen, run[0]));
      ActingLowers(net, w, run[0].snap, settings, seen, run[0].nowMs, run[0].now);
      BoundedlyManyAct(net, settings, after, Timers(run[0].snap, settings, seen, run[0].now), run[1..]);
      if Acts(settings, seen, run[0]) == [] {
        NothingChanges(w);
      }
    }
    MeasureBounded(net, w);
  }

  lemma NothingChanges(w: World)
    ensures ApplyAll(w, []) == w
  {
  }

  lemma MeasureBounded(net: SlotNetwork, w: World)
    ensures Measure(net, w) <= (|w.inService| + |w.leases| + 1) * (|w.weights| + 1)
  {
    RanksBounded(net, w);
  }

  // -- the pass the methods run is the one measured here ------------------------------------------

  function Done(acts: seq<Action>): seq<Attempt>
  {
    seq(|acts|, i requires 0 <= i < |acts| => Attempt(acts[i], true))
  }

  lemma {:induction false} TryDoesAll(env: Env, log: seq<Attempt>, plan: seq<Action>)
    requires !env.dryRun && forall n: nat :: env.io(n)
    ensures Try(env, log, plan) == log + Done(plan)
    decreases |plan|
  {
    if plan != [] {
      TryDoesAll(env, log + [Attempt(plan[0], true)], plan[1..]);
      assert [Attempt(plan[0], true)] + Done(plan[1..]) == Done(plan);
      assert log + [Attempt(plan[0], true)] + Done(plan[1..]) == log + Done(plan);
    } else {
      assert log + Done([]) == log;
    }
  }

  /** When every action succeeds, a pass carries out all its plans, in order. */
  lemma {:induction false} AllIsDone(env: Env, log: seq<Attempt>, plans: seq<seq<Action>>)
    requires !env.dryRun && forall n: nat :: env.io(n)
    ensures TryAll(env, log, plans) == log + Done(Flat(plans))
    decreases |plans|
  {
    if plans == [] {
      assert log + Done([]) == log;
    } else {
      var init, last := plans[..|plans| - 1], plans[|plans| - 1];
      AllIsDone(env, log, init);
      TryDoesAll(env, log + Done(Flat(init)), last);
      FlatLast(plans);
      assert Done(Flat(init)) + Done(last) == Done(Flat(init) + last);
      assert log + Done(Flat(init)) + Done(last) == log + Done(Flat(plans));
    }
  }

  // -- what it settles to ------------------------------------------------------------------------------

  lemma {:induction false} NothingInFlat(plans: seq<seq<Action>>, k: nat)
    requires k < |plans| && Flat(plans) == []
    ensures plans[k] == []
  {
    FlatLast(plans);
    if k < |plans| - 1 {
      NothingInFlat(plans[..|plans| - 1], k);
    }
  }

  /**
   A pass with trustworthy data that does nothing has nothing to do: every known
   owner of a lease is InService, no live lease's backend is disabled, and no
   backend without a lease is in use.
   */
  lemma QuietMeansSettled(snap: SystemSnapshot, settings: Settings, seen: map<string, nat>, nowMs: nat, now: nat)
    requires !Implausible(snap) && Flat(Plans(snap, settings, seen, nowMs, now)) == []
    ensures forall i :: 0 <= i < |snap.backends| && snap.backends[i].lease.None? ==>
              snap.backends[i].weight != Active && snap.backends[i].weight != Draining
    ensures forall i :: (0 <= i < |snap.leases| && snap.leases[i].owner != Leases.OWNER_MISSING
                          && snap.leases[i].owner != Leases.OWNER_UNKNOWN) ==>
              && snap.leases[i].owner in InServiceIds(snap.asg)
              && (!IsExpired(snap.leases[i], nowMs) ==>
                    var b := BackendOf(snap.backends, snap.leases[i].slot);
                    b.Some? ==> b.value.weight != Disabled)
  {
    hide LeasePlan, BackendPlan, BackendOf, InServiceIds, Plans, Flat;
    forall i | 0 <= i < |snap.backends| && snap.backends[i].lease.None?
      ensures snap.backends[i].weight != Active && snap.backends[i].weight != Draining
    {
      QuietSections(snap, settings, seen, nowMs, now);
      NothingForBackend(snap.backends[i]);
    }
    forall i | 0 <= i < |snap.leases| && snap.leases[i].owner != Leases.OWNER_MISSING
               && snap.leases[i].owner != Leases.OWNER_UNKNOWN
      ensures snap.leases[i].owner in InServiceIds(snap.asg)
      ensures !IsExpired(snap.leases[i], nowMs) ==>
                var b := BackendOf(snap.backends, snap.leases[i].slot);
                b.Some? ==> b.value.weight != Disabled
    {
      QuietSections(snap, settings, seen, nowMs, now);
      NothingForLease(snap, settings, nowMs, snap.leases[i]);
    }
  }

  lemma QuietSections(snap: SystemSnapshot, settings: Settings, seen: map<string, nat>, nowMs: nat, now: nat)
    requires !Implausible(snap) && Flat(Plans(snap, settings, seen, nowMs, now)) == []
    ensures forall i :: 0 <= i < |snap.leases| ==> LeasePlan(snap, settings, nowMs, snap.leases[i]) == []
    ensures forall i :: 0 <= i < |snap.backends| ==> BackendPlan(snap.backends[i]) == []
  {
    hide LeasePlan, BackendPlan, OrphanPlans, Flat, InServiceIds;
    var a, b, c := LeasePlans(snap, settings, nowMs), OrphanPlans(snap, settings, seen, now), BackendPlans(snap);
    var plans := Plans(snap, settings, seen, nowMs, now);
    assert plans == a + b + c;
    forall i | 0 <= i < |snap.leases| ensures LeasePlan(snap, settings, nowMs, snap.leases[i]) == [] {
      NothingInFlat(plans, i);
      assert plans[i] == a[i];
    }
    forall i | 0 <= i < |snap.backends| ensures BackendPlan(snap.backends[i]) == [] {
      NothingInFlat(plans, |a| + |b| + i);
      assert plans[|a| + |b| + i] == c[i];
    }
  }

  lemma NothingForBackend(b: BackendStatus)
    requires BackendPlan(b) == [] && b.lease.None?
    ensures b.weight != Active && b.weight != Draining
  {
  }

  lemma NothingForLease(snap: SystemSnapshot, settings: Settings, nowMs: nat, l: SlotLease)
    requires LeasePlan(snap, settings, nowMs, l) == []
    requires l.owner != Leases.OWNER_MISSING && l.owner != Leases.OWNER_UNKNOWN
    ensures l.owner in InServiceIds(snap.asg)
    ensures !IsExpired(l, nowMs) ==>
              var b := BackendOf(snap.backends, l.slot);
              b.Some? ==> b.value.weight != Disabled
  {
    hide BackendOf, InServiceIds;
  }
}
