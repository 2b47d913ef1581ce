/** The grace period of instances that no reported lease names, over runs of cleanup passes. */
module OrphanGrace {
  import opened Snapshot
  import opened Cleanup

  predicate DistinctIds(asg: seq<AsgInstance>)
  {
    forall i, j :: 0 <= i < j < |asg| ==> asg[i].id != asg[j].id
  }

  /** InService, and named by no reported lease. */
  predicate OrphanIn(asg: seq<AsgInstance>, leased: set<string>, id: string)
  {
    id !in leased && exists i :: 0 <= i < |asg| && asg[i].id == id && InService(asg[i])
  }

  predicate Orphaned(snap: SystemSnapshot, id: string)
  {
    OrphanIn(snap.asg, LeasedOwners(snap.leases), id)
  }

  predicate Listed(asg: seq<AsgInstance>, id: string)
  {
    exists i :: 0 <= i < |asg| && asg[i].id == id
  }

  /** Its timer has run for the grace period. */
  predicate Due(seen: map<string, nat>, id: string, graceSecs: nat, now: nat)
  {
    id in seen && Elapsed(now, seen[id]) >= graceSecs
  }

  /** The scan treats every instance by itself. */
  lemma {:induction false} ScanOne(seen: map<string, nat>, asg: seq<AsgInstance>, leased: set<string>, graceSecs: nat,
                                   now: nat, id: string)
    requires DistinctIds(asg)
    ensures var o := ObserveAll(seen, asg, leased, graceSecs, now);
            && (id in o.waiting <==> OrphanIn(asg, leased, id) && !Due(seen, id, graceSecs, now))
            && (id in o.doomed <==> OrphanIn(asg, leased, id) && Due(seen, id, graceSecs, now))
            && (id in o.waiting ==> id in o.seen && o.seen[id] == if id in seen then seen[id] else now)
            && (!Listed(asg, id) ==> (id in o.seen <==> id in seen) && (id in seen ==> o.seen[id] == seen[id]))
    decreases |asg|
  {
    if asg != [] {
      var init, last := asg[..|asg| - 1], asg[|asg| - 1];
      ScanOne(seen, init, leased, graceSecs, now, id);
      ScanOne(seen, init, leased, graceSecs, now, last.id);
      hide ObserveAll;
      LastListed(asg, leased, id);
      LastListed(asg, leased, last.id);
      assert ObserveAll(seen, asg, leased, graceSecs, now)
          == Observe(ObserveAll(seen, init, leased, graceSecs, now), last, leased, graceSecs, now) by {
        ObserveLast(seen, asg, leased, graceSecs, now);
      }
    }
  }

  lemma {:induction false} ObserveLast(seen: map<string, nat>, asg: seq<AsgInstance>, leased: set<string>,
                                       graceSecs: nat, now: nat)
    requires asg != []
    ensures ObserveAll(seen, asg, leased, graceSecs, now)
         == Observe(ObserveAll(seen, asg[..|asg| - 1], leased, graceSecs, now), asg[|asg| - 1], leased, graceSecs, now)
  {
  }

  lemma {:induction false} LastListed(asg: seq<AsgInstance>, leased: set<string>, id: string)
    requires DistinctIds(asg) && asg != []
    ensures var init, last := asg[..|asg| - 1], asg[|asg| - 1];
            && !Listed(init, last.id)
            && (Listed(asg, id) <==> Listed(init, id) || last.id == id)
            && (OrphanIn(asg, leased, id) <==>
                  OrphanIn(init, leased, id) || (last.id == id && InService(last) && id !in leased))
            && (OrphanIn(init, leased, id) ==> Listed(init, id))
  {
    var init, last := asg[..|asg| - 1], asg[|asg| - 1];
    assert forall i :: 0 <= i < |init| ==> asg[i] == init[i];
    if Listed(init, id) {
      var i :| 0 <= i < |init| && init[i].id == id;
      assert asg[i].id == id;
    }
    if OrphanIn(init, leased, id) {
      var i :| 0 <= i < |init| && init[i].id == id && InService(init[i]);
      assert asg[i].id == id && InService(asg[i]);
    }
    if last.id == id {
      assert asg[|asg| - 1].id == id;
    }
  }

  // -- runs of passes --------------------------------------------------------------------------

  /** What a pass sees, and the monotonic clock when it runs. */
  datatype Pass = Pass(snap: SystemSnapshot, now: nat)

  function TimersAfter(settings: Settings, passes: seq<Pass>): map<string, nat>
  {
    if passes == [] then map[]
    else
      var last := passes[|passes| - 1];
      Timers(last.snap, settings, TimersAfter(settings, passes[..|passes| - 1]), last.now)
  }

  /** The instances that the last pass terminates for lacking a lease. */
  function Doomed(settings: Settings, past: seq<Pass>, p: Pass): seq<string>
  {
    OrphanScan(p.snap, settings, TimersAfter(settings, past), p.now).doomed
  }

  predicate Proper(passes: seq<Pass>)
  {
    forall i :: 0 <= i < |passes| ==> DistinctIds(passes[i].snap.asg)
  }

  lemma {:induction false} TimerOf(settings: Settings, past: seq<Pass>, p: Pass, id: string)
    requires DistinctIds(p.snap.asg)
    ensures var before, after := TimersAfter(settings, past), TimersAfter(settings, past + [p]);
            && (id in after <==> Orphaned(p.snap, id) && id !in Doomed(settings, past, p))
            && (id in after ==> after[id] == if id in before then before[id] else p.now)
            && (id in Doomed(settings, past, p) <==> Orphaned(p.snap, id) && Due(before, id, settings.graceSecs, p.now))
  {
    var before := TimersAfter(settings, past);
    ScanOne(before, p.snap.asg, LeasedOwners(p.snap.leases), settings.graceSecs, p.now, id);
    var passes := past + [p];
    assert passes[..|passes| - 1] == past && passes[|passes| - 1] == p;
    hide ObserveAll, OrphanIn;
    assert TimersAfter(settings, past + [p]) == Timers(p.snap, settings, before, p.now);
  }

  /** After each pass the timers are those of the unnamed InService instances it did not terminate. */
  lemma {:induction false} TimersAreTheOrphans(settings: Settings, past: seq<Pass>, p: Pass)
    requires DistinctIds(p.snap.asg)
    ensures forall id :: id in TimersAfter(settings, past + [p]) <==>
              Orphaned(p.snap, id) && id !in Doomed(settings, past, p)
  {
    forall id
      ensures id in TimersAfter(settings, past + [p]) <==> Orphaned(p.snap, id) && id !in Doomed(settings, past, p)
    {
      TimerOf(settings, past, p, id);
    }
  }

  /** In every pass from the `j`-th on, the instance was InService and named by no reported lease. */
  predicate OrphanedSince(passes: seq<Pass>, j: nat, id: string)
  {
    j < |passes| && forall i :: j <= i < |passes| ==> Orphaned(passes[i].snap, id)
  }

  lemma {:induction false} TimerStarted(settings: Settings, passes: seq<Pass>, id: string) returns (j: nat)
    requires Proper(passes) && id in TimersAfter(settings, passes)
    ensures OrphanedSince(passes, j, id) && passes[j].now == TimersAfter(settings, passes)[id]
  {
    var past, p := passes[..|passes| - 1], passes[|passes| - 1];
    assert passes == past + [p];
    TimerOf(settings, past, p, id);
    hide Timers, Orphaned;
    if id in TimersAfter(settings, past) {
      j := TimerStarted(settings, past, id);
      assert passes[j] == past[j];
      forall i | j <= i < |passes| ensures Orphaned(passes[i].snap, id) {
        if i < |past| {
          assert passes[i] == past[i];
        }
      }
    } else {
      j := |past|;
    }
  }

  /**
   An instance is terminated for lacking a lease only if there is a strictly
   earlier pass, the grace period or longer ago, and in every pass since and in
   this one it was InService and no reported lease named it.
   */
  lemma {:induction false} GraceIsObserved(settings: Settings, past: seq<Pass>, p: Pass, id: string) returns (j: nat)
    requires Proper(past + [p]) && id in Doomed(settings, past, p)
    ensures j < |past| && OrphanedSince(past + [p], j, id)
    ensures settings.graceSecs > 0 ==> past[j].now + 1000 * settings.graceSecs <= p.now
  {
    var all := past + [p];
    assert DistinctIds(all[|past|].snap.asg);
    assert forall i :: 0 <= i < |past| ==> all[i] == past[i];
    TimerOf(settings, past, p, id);
    j := TimerStarted(settings, past, id);
  }

  predicate ClockRuns(passes: seq<Pass>)
  {
    forall i, j :: 0 <= i < j < |passes| ==> passes[i].now <= passes[j].now
  }

  /** No pass from the `j`-th on terminated it. */
  predicate Spared(settings: Settings, passes: seq<Pass>, j: nat, id: string)
  {
    forall k :: j <= k < |passes| ==> id !in Doomed(settings, passes[..k], passes[k])
  }

  lemma {:induction false} WithoutLast(settings: Settings, past: seq<Pass>, p: Pass, j: nat, id: string)
    requires Proper(past + [p]) && ClockRuns(past + [p]) && OrphanedSince(past + [p], j, id)
    requires Spared(settings, past + [p], j, id)
    ensures Proper(past) && ClockRuns(past) && Spared(settings, past, j, id)
    ensures j < |past| ==> OrphanedSince(past, j, id)
    ensures DistinctIds(p.snap.asg) && Orphaned(p.snap, id) && id !in Doomed(settings, past, p)
    ensures forall k :: 0 <= k < |past| ==> past[k].now <= p.now
  {
    hide Doomed, Orphaned, DistinctIds;
    var all := past + [p];
    assert forall k :: 0 <= k < |past| ==> past[k] == all[k] && past[..k] == all[..k];
    assert all[|past|] == p && all[..|past|] == past;
  }

  lemma {:induction false} TimerKept(settings: Settings, passes: seq<Pass>, j: nat, id: string)
    requires Proper(passes) && ClockRuns(passes) && OrphanedSince(passes, j, id) && Spared(settings, passes, j, id)
    ensures id in TimersAfter(settings, passes) && TimersAfter(settings, passes)[id] <= passes[j].now
    decreases |passes|
  {
    hide Timers, Orphaned, Doomed, TimersAfter, Spared, ClockRuns;
    var past, p := passes[..|passes| - 1], passes[|passes| - 1];
    assert passes == past + [p];
    WithoutLast(settings, past, p, j, id);
    TimerOf(settings, past, p, id);
    if j < |past| {
      TimerKept(settings, past, j, id);
    } else if id in TimersAfter(settings, past) {
      var i := TimerStarted(settings, past, id);
    }
  }

  /** And it is terminated by then: once it has been so for the grace period, some pass since has done it. */
  lemma {:induction false} GraceEnds(settings: Settings, passes: seq<Pass>, j: nat, id: string)
    requires Proper(passes) && ClockRuns(passes) && OrphanedSince(passes, j, id) && j < |passes| - 1
    requires passes[j].now + 1000 * settings.graceSecs <= passes[|passes| - 1].now
    ensures exists k :: j <= k < |passes| && id in Doomed(settings, passes[..k], passes[k])
  {
    hide Timers, Orphaned, Doomed, TimersAfter, ClockRuns;
    var past, p := passes[..|passes| - 1], passes[|passes| - 1];
    assert passes == past + [p];
    if Spared(settings, passes, j, id) {
      WithoutLast(settings, past, p, j, id);
      hide Spared;
      TimerKept(settings, past, j, id);
      TimerOf(settings, past, p, id);
    }
  }
}
