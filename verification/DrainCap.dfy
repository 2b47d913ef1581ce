/**
 The cap on draining backends, across the snapshot reader, the cleanup pass, the
 scaler and the listener, which writes weight files whenever a message arrives.
 */
module DrainCap {
  import opened Options
  import opened Snapshot
  import Cleanup
  import Scaler
  import ScalerRuns
  import Sorting
  import opened Sets

  datatype Fixed = Fixed(net: SlotNetwork, settings: Cleanup.Settings, config: Scaler.ScaleConfig, dryRun: bool)

  /** Where the refresh loop stands. */
  datatype Phase =
    | Idle
    | Reading(todo: seq<u32>, entries: seq<WeightEntry>)
    | Cleaning(snap: SystemSnapshot, plans: seq<seq<Cleanup.Action>>)
    | Scaling(snap: SystemSnapshot)

  datatype Sys = Sys(weights: map<u32, BackendState>, scaler: Scaler.State, phase: Phase)

  /** Anything that can happen next, with whatever the outside world contributes. */
  datatype Event =
    | Message(ip: u32, claim: bool, ok: bool)
    | ListFiles(files: seq<u32>)
    | ReadOne
    | Joined(leases: seq<SlotLease>, asg: AsgReply, ipvs: Option<seq<IpvsBackend>>,
             seen: map<string, nat>, nowMs: nat, now: nat)
    | GiveUp
    | CleanOne(succeeds: bool)
    | CleanDone
    | Scale(around: Scaler.Around)

  function Write(f: Fixed, w: map<u32, BackendState>, ip: u32, state: BackendState, ok: bool): map<u32, BackendState>
  {
    if f.dryRun || !ok then w else w[ip := state]
  }

  predicate Distinct(files: seq<u32>)
  {
    forall i, j :: 0 <= i < j < |files| ==> files[i] != files[j]
  }

  function ByIp(e: WeightEntry): int { e.ip }

  /** One step; an event that cannot happen now changes nothing. */
  function Step(f: Fixed, s: Sys, e: Event): Sys
  {
    match e
    case Message(ip, claim, ok) =>
      s.(weights := Write(f, s.weights, ip, if claim then Active else Disabled, ok))
    case ListFiles(files) =>
      if s.phase.Idle? && Distinct(files)
         && (forall ip :: ip in files ==> ip in s.weights) && (forall ip :: ip in s.weights ==> ip in files)
      then s.(phase := Reading(files, [])) else s
    case ReadOne =>
      if s.phase.Reading? && s.phase.todo != [] && s.phase.todo[0] in s.weights then
        var ip := s.phase.todo[0];
        s.(phase := Reading(s.phase.todo[1..], s.phase.entries + [WeightEntry(ip, s.weights[ip])]))
      else s
    case Joined(leases, asg, ipvs, seen, nowMs, now) =>
      if s.phase.Reading? && s.phase.todo == [] then
        var snap := Collect(f.net, Sorting.SortBy(s.phase.entries, ByIp), leases, asg, ipvs);
        s.(phase := Cleaning(snap, Cleanup.Plans(snap, f.settings, seen, nowMs, now)))
      else s
    case GiveUp =>
      if s.phase.Reading? then s.(phase := Idle) else s
    case CleanOne(succeeds) =>
      if s.phase.Cleaning? && s.phase.plans != [] then CleanStep(f, s, succeeds) else s
    case CleanDone =>
      if s.phase.Cleaning? && s.phase.plans == [] then s.(phase := Scaling(s.phase.snap)) else s
    case Scale(around) =>
      if s.phase.Scaling? then
        var drained := Scaler.PassEffects(s.scaler, f.config, s.phase.snap, f.dryRun, around).drained;
        Sys(if drained.Some? then Write(f, s.weights, drained.value, Draining, around.writeOk) else s.weights,
            Scaler.Pass(s.scaler, f.config, s.phase.snap, f.dryRun, around), Idle)
      else s
  }

  /** The next action of the cleanup pass; its failure ends its plan. */
  function CleanStep(f: Fixed, s: Sys, succeeds: bool): Sys
    requires s.phase.Cleaning? && s.phase.plans != []
  {
    var plan, rest := s.phase.plans[0], s.phase.plans[1..];
    if plan == [] then s.(phase := Cleaning(s.phase.snap, rest))
    else
      var a := plan[0];
      s.(weights := if a.WriteWeight? then Write(f, s.weights, a.ip, a.state, succeeds) else s.weights,
         phase := Cleaning(s.phase.snap, if succeeds || f.dryRun then [plan[1..]] + rest else rest))
  }

  function Run(f: Fixed, s: Sys, events: seq<Event>): Sys
  {
    if events == [] then s else Step(f, Run(f, s, events[..|events| - 1]), events[|events| - 1])
  }

  function DrainingNow(s: Sys): set<u32>
  {
    set ip | ip in s.weights && s.weights[ip] == Draining
  }

  // -- what keeps the stale snapshot safe -----------------------------------------------------

  ghost predicate Marked(snap: SystemSnapshot, ip: u32)
  {
    exists k :: 0 <= k < |snap.backends| && snap.backends[k].ip == ip && snap.backends[k].weight == Draining
  }

  ghost predicate NeverDrains(plan: seq<Cleanup.Action>)
  {
    forall a :: a in plan && a.WriteWeight? ==> a.state != Draining
  }

  /** Whatever drains now is yet to be read, was read as draining, or is draining in the snapshot. */
  ghost predicate Accounted(s: Sys)
  {
    match s.phase
    case Idle => true
    case Reading(todo, entries) =>
      && (forall ip :: ip in todo ==> ip in s.weights)
      && (forall ip :: ip in DrainingNow(s) ==> ip in todo || WeightEntry(ip, Draining) in entries)
    case Cleaning(snap, plans) =>
      && (forall ip :: ip in DrainingNow(s) ==> Marked(snap, ip))
      && (forall k :: 0 <= k < |plans| ==> NeverDrains(plans[k]))
    case Scaling(snap) =>
      forall ip :: ip in DrainingNow(s) ==> Marked(snap, ip)
  }

  lemma WriteShrinks(f: Fixed, s: Sys, ip: u32, state: BackendState, ok: bool)
    requires state != Draining
    ensures DrainingNow(s.(weights := Write(f, s.weights, ip, state, ok))) <= DrainingNow(s)
    ensures s.weights.Keys <= Write(f, s.weights, ip, state, ok).Keys
  {
  }

  lemma PlansNeverDrain(snap: SystemSnapshot, settings: Cleanup.Settings, seen: map<string, nat>, nowMs: nat, now: nat)
    ensures var plans := Cleanup.Plans(snap, settings, seen, nowMs, now);
            forall k :: 0 <= k < |plans| ==> NeverDrains(plans[k])
  {
    hide Cleanup.BackendOf, InServiceIds, Cleanup.OrphanScan;
    var a, b := Cleanup.LeasePlans(snap, settings, nowMs), Cleanup.OrphanPlans(snap, settings, seen, now);
    var c := Cleanup.BackendPlans(snap);
    forall k | 0 <= k < |a| ensures NeverDrains(a[k]) {
      assert a[k] == Cleanup.LeasePlan(snap, settings, nowMs, snap.leases[k]);
    }
    assert forall k :: 0 <= k < |b| ==> NeverDrains(b[k]);
    assert forall k :: 0 <= k < |c| ==> NeverDrains(c[k]);
    hide Cleanup.LeasePlans, Cleanup.OrphanPlans, Cleanup.BackendPlans, NeverDrains;
    assert Cleanup.Plans(snap, settings, seen, nowMs, now) == a + b + c;
  }

  lemma {:induction false} JoinMarks(f: Fixed, entries: seq<WeightEntry>, leases: seq<SlotLease>, asg: AsgReply,
                                     ipvs: Option<seq<IpvsBackend>>, ip: u32)
    requires WeightEntry(ip, Draining) in entries
    ensures Marked(Collect(f.net, Sorting.SortBy(entries, ByIp), leases, asg, ipvs), ip)
  {
    hide IpToLease, FindIpvs, Sorting.SortBy;
    Sorting.SortKeeps(entries, ByIp);
    var sorted := Sorting.SortBy(entries, ByIp);
    var k :| 0 <= k < |sorted| && sorted[k] == WeightEntry(ip, Draining);
    assert Collect(f.net, sorted, leases, asg, ipvs).backends[k].ip == ip;
  }

  /** As many draining weight files as the set has members, at least. */
  lemma {:induction false} MarkedAreCounted(backends: seq<BackendStatus>, ips: set<u32>)
    requires forall ip :: ip in ips ==>
               exists k :: 0 <= k < |backends| && backends[k].ip == ip && backends[k].weight == Draining
    ensures |ips| <= Scaler.DrainingCount(backends)
  {
    if backends == [] {
      assert ips == {};
    } else {
      var rest := backends[1..];
      var others := if backends[0].weight == Draining then ips - {backends[0].ip} else ips;
      forall ip | ip in others ensures exists k :: 0 <= k < |rest| && rest[k].ip == ip && rest[k].weight == Draining {
        var k :| 0 <= k < |backends| && backends[k].ip == ip && backends[k].weight == Draining;
        assert rest[k - 1] == backends[k];
      }
      MarkedAreCounted(rest, others);
      assert ips <= others + if backends[0].weight == Draining then {backends[0].ip} else {};
      AtMostOneMore(ips, others, backends[0].ip, backends[0].weight == Draining);
    }
  }

  lemma AtMostOneMore(ips: set<u32>, others: set<u32>, ip: u32, more: bool)
    requires others == if more then ips - {ip} else ips
    ensures |ips| <= |others| + if more then 1 else 0
  {
    if more && ip in ips {
      assert ips == others + {ip};
    } else if more {
      assert ips == others;
    }
  }

  function Max(a: nat, b: nat): nat { if a >= b then a else b }

  /** No step makes more backends drain than before or than the cap, and each keeps the account. */
  lemma StepKeepsCap(f: Fixed, s: Sys, e: Event)
    requires Accounted(s)
    ensures Accounted(Step(f, s, e))
    ensures |DrainingNow(Step(f, s, e))| <= Max(|DrainingNow(s)|, f.config.maxConcurrentDraining)
  {
    hide DrainingNow, Marked, NeverDrains, Collect, Cleanup.Plans, Scaler.Pass, Scaler.PassEffects, Write,
         Sorting.SortBy;
    var t := Step(f, s, e);
    if e.Message? {
      WriteShrinks(f, s, e.ip, if e.claim then Active else Disabled, e.ok);
      SubsetIsSmaller(DrainingNow(t), DrainingNow(s));
    } else if e.CleanOne? && s.phase.Cleaning? && s.phase.plans != [] {
      CleanKeepsCap(f, s, e.succeeds);
    } else if e.Scale? && s.phase.Scaling? {
      ScaleKeepsCap(f, s, e.around);
    } else {
      ReadKeepsCap(f, s, e);
    }
  }

  lemma CleanKeepsCap(f: Fixed, s: Sys, succeeds: bool)
    requires Accounted(s) && s.phase.Cleaning? && s.phase.plans != []
    ensures Accounted(CleanStep(f, s, succeeds))
    ensures |DrainingNow(CleanStep(f, s, succeeds))| <= |DrainingNow(s)|
  {
    hide DrainingNow, Marked, Write;
    var plan, rest := s.phase.plans[0], s.phase.plans[1..];
    var t := CleanStep(f, s, succeeds);
    if plan != [] && plan[0].WriteWeight? {
      WriteShrinks(f, s, plan[0].ip, plan[0].state, succeeds);
      SameWeights(t, s.(weights := Write(f, s.weights, plan[0].ip, plan[0].state, succeeds)));
    } else {
      SameWeights(t, s);
    }
    SubsetIsSmaller(DrainingNow(t), DrainingNow(s));
    forall k | 0 <= k < |t.phase.plans| ensures NeverDrains(t.phase.plans[k]) {
      assert forall i :: 0 <= i < |rest| ==> rest[i] == s.phase.plans[i + 1];
    }
  }

  lemma SameWeights(s: Sys, t: Sys)
    requires s.weights == t.weights
    ensures DrainingNow(s) == DrainingNow(t)
  {
  }

  lemma ReadKeepsCap(f: Fixed, s: Sys, e: Event)
    requires Accounted(s)
    requires e.ListFiles? || e.ReadOne? || e.Joined? || e.GiveUp? || e.CleanDone?
          || (e.CleanOne? && !(s.phase.Cleaning? && s.phase.plans != [])) || (e.Scale? && !s.phase.Scaling?)
    ensures Accounted(Step(f, s, e))
    ensures DrainingNow(Step(f, s, e)) == DrainingNow(s)
  {
    hide Marked, NeverDrains, Collect, Cleanup.Plans, Sorting.SortBy, Scaler.Pass, Scaler.PassEffects;
    if e.Joined? && s.phase.Reading? && s.phase.todo == [] {
      JoinKeepsAccount(f, s, e);
    }
  }

  lemma JoinKeepsAccount(f: Fixed, s: Sys, e: Event)
    requires Accounted(s) && e.Joined? && s.phase.Reading? && s.phase.todo == []
    ensures Accounted(Step(f, s, e))
  {
    hide DrainingNow, Marked, NeverDrains, Collect, Cleanup.Plans, Sorting.SortBy;
    var t := Step(f, s, e);
    SameWeights(s, t);
    PlansNeverDrain(t.phase.snap, f.settings, e.seen, e.nowMs, e.now);
    forall ip | ip in DrainingNow(t) ensures Marked(t.phase.snap, ip) {
      JoinMarks(f, s.phase.entries, e.leases, e.asg, e.ipvs, ip);
    }
  }

  /** The scaler drains one more only if the snapshot, which marks all that drain now, leaves room. */
  lemma ScaleKeepsCap(f: Fixed, s: Sys, around: Scaler.Around)
    requires Accounted(s) && s.phase.Scaling?
    ensures |DrainingNow(Step(f, s, Scale(around)))| <= Max(|DrainingNow(s)|, f.config.maxConcurrentDraining)
  {
    hide Scaler.Pass, Scaler.PassEffects;
    var t := Step(f, s, Scale(around));
    var _ := ScalerRuns.DrainsIdleOrBusiest(s.scaler, f.config, s.phase.snap, f.dryRun, around);
    MarkedAreCounted(s.phase.snap.backends, DrainingNow(s));
    var drained := Scaler.PassEffects(s.scaler, f.config, s.phase.snap, f.dryRun, around).drained;
    if drained.Some? {
      assert DrainingNow(t) <= DrainingNow(s) + {drained.value};
      SubsetIsSmaller(DrainingNow(t), DrainingNow(s) + {drained.value});
    } else {
      SameWeights(s, t);
    }
  }

  /**
   Over any run, however messages, file reads, cleanup writes and scaler writes
   interleave and whichever of them fail, the number of draining backends never
   exceeds the larger of its initial value and the cap.
   */
  lemma {:induction false} CapHolds(f: Fixed, s: Sys, events: seq<Event>)
    requires s.phase.Idle?
    ensures |DrainingNow(Run(f, s, events))| <= Max(|DrainingNow(s)|, f.config.maxConcurrentDraining)
    ensures Accounted(Run(f, s, events))
  {
    hide Step, DrainingNow;
    if events != [] {
      var init := events[..|events| - 1];
      CapHolds(f, s, init);
      StepKeepsCap(f, Run(f, s, init), events[|events| - 1]);
    }
  }

  // -- the snapshot itself ---------------------------------------------------------------------

  /** Files read as draining so far. */
  function ReadDraining(entries: seq<WeightEntry>): set<u32>
  {
    set e | e in entries && e.state == Draining :: e.ip
  }

  function Unread(todo: seq<u32>, draining: set<u32>): set<u32>
  {
    set ip | ip in todo && ip in draining
  }

  /** No file is read twice. */
  predicate OnceEach(todo: seq<u32>, entries: seq<WeightEntry>)
  {
    && Distinct(todo)
    && (forall i, j :: 0 <= i < j < |entries| ==> entries[i].ip != entries[j].ip)
    && (forall i, k :: 0 <= i < |entries| && 0 <= k < |todo| ==> entries[i].ip != todo[k])
  }

  /** Whatever was read as draining, or drains now and has not been read, stays within the cap. */
  ghost predicate ReadWithin(s: Sys, cap: nat)
  {
    match s.phase
    case Idle => true
    case Reading(todo, entries) =>
      && OnceEach(todo, entries)
      && |ReadDraining(entries) + Unread(todo, DrainingNow(s))| <= cap
    case Cleaning(snap, _) => Scaler.DrainingCount(snap.backends) <= cap
    case Scaling(snap) => Scaler.DrainingCount(snap.backends) <= cap
  }

  lemma {:induction false} OnceEachStep(todo: seq<u32>, entries: seq<WeightEntry>, state: BackendState)
    requires todo != [] && OnceEach(todo, entries)
    ensures OnceEach(todo[1..], entries + [WeightEntry(todo[0], state)])
  {
  }

  /** Reading a file moves it from one set to the other if it drains, and out of both if not. */
  lemma {:induction false} ReadShrinks(todo: seq<u32>, entries: seq<WeightEntry>, state: BackendState,
                                       draining: set<u32>)
    requires todo != [] && (state == Draining ==> todo[0] in draining)
    ensures ReadDraining(entries + [WeightEntry(todo[0], state)]) + Unread(todo[1..], draining)
         <= ReadDraining(entries) + Unread(todo, draining)
  {
    var e := WeightEntry(todo[0], state);
    forall x | x in ReadDraining(entries + [e]) ensures x in ReadDraining(entries) || x in Unread(todo, draining) {
      var d :| d in entries + [e] && d.state == Draining && d.ip == x;
      assert d in entries || d == e;
    }
  }

  lemma ReadOneWithin(f: Fixed, s: Sys, cap: nat)
    requires ReadWithin(s, cap) && s.phase.Reading? && s.phase.todo != [] && s.phase.todo[0] in s.weights
    ensures ReadWithin(Step(f, s, ReadOne), cap)
  {
    hide DrainingNow, OnceEach, ReadDraining, Unread;
    var todo, entries := s.phase.todo, s.phase.entries;
    var state := s.weights[todo[0]];
    var t := Step(f, s, ReadOne);
    SameWeights(s, t);
    DrainsNow(s, todo[0]);
    OnceEachStep(todo, entries, state);
    ReadShrinks(todo, entries, state, DrainingNow(s));
    SubsetIsSmaller(ReadDraining(t.phase.entries) + Unread(t.phase.todo, DrainingNow(t)),
                    ReadDraining(entries) + Unread(todo, DrainingNow(s)));
  }

  lemma DrainsNow(s: Sys, ip: u32)
    requires ip in s.weights
    ensures ip in DrainingNow(s) <==> s.weights[ip] == Draining
  {
  }

  /** With one entry per address, draining entries are counted once each. */
  lemma {:induction false} CountedOnce(backends: seq<BackendStatus>, ips: set<u32>)
    requires forall i, j :: 0 <= i < j < |backends| ==> backends[i].ip != backends[j].ip
    requires forall k :: 0 <= k < |backends| && backends[k].weight == Draining ==> backends[k].ip in ips
    ensures Scaler.DrainingCount(backends) <= |ips|
  {
    if backends != [] {
      var first, rest := backends[0], backends[1..];
      if first.weight == Draining {
        forall k | 0 <= k < |rest| && rest[k].weight == Draining ensures rest[k].ip in ips - {first.ip} {
          assert rest[k] == backends[k + 1];
        }
        CountedOnce(rest, ips - {first.ip});
      } else {
        CountedOnce(rest, ips);
      }
    }
  }

  lemma JoinWithin(f: Fixed, s: Sys, e: Event, cap: nat)
    requires ReadWithin(s, cap) && e.Joined? && s.phase.Reading? && s.phase.todo == []
    ensures ReadWithin(Step(f, s, e), cap)
  {
    hide DrainingNow, Cleanup.Plans, IpToLease, FindIpvs, Sorting.SortBy;
    var entries := s.phase.entries;
    var sorted := Sorting.SortBy(entries, ByIp);
    Sorting.SortKeeps(entries, ByIp);
    assert Sorting.DistinctKeys(entries, ByIp);
    Sorting.SortKeepsDistinct(entries, ByIp);
    var backends := Collect(f.net, sorted, e.leases, e.asg, e.ipvs).backends;
    forall i, j | 0 <= i < j < |backends| ensures backends[i].ip != backends[j].ip {
      assert ByIp(sorted[i]) != ByIp(sorted[j]);
    }
    forall k | 0 <= k < |backends| && backends[k].weight == Draining ensures backends[k].ip in ReadDraining(entries) {
      assert sorted[k] in sorted;
    }
    CountedOnce(backends, ReadDraining(entries));
    SubsetIsSmaller(ReadDraining(entries), ReadDraining(entries) + Unread(s.phase.todo, DrainingNow(s)));
  }

  lemma StepWithin(f: Fixed, s: Sys, e: Event, cap: nat)
    requires ReadWithin(s, cap) && |DrainingNow(s)| <= cap
    ensures ReadWithin(Step(f, s, e), cap)
  {
    hide DrainingNow, Collect, Cleanup.Plans, Scaler.Pass, Scaler.PassEffects, Scaler.DrainingCount, Write,
         Sorting.SortBy;
    var t := Step(f, s, e);
    if e.ReadOne? && s.phase.Reading? && s.phase.todo != [] && s.phase.todo[0] in s.weights {
      ReadOneWithin(f, s, cap);
    } else if e.Joined? && s.phase.Reading? && s.phase.todo == [] {
      JoinWithin(f, s, e, cap);
    } else if e.Message? && s.phase.Reading? {
      WriteShrinks(f, s, e.ip, if e.claim then Active else Disabled, e.ok);
      SubsetIsSmaller(ReadDraining(s.phase.entries) + Unread(s.phase.todo, DrainingNow(t)),
                      ReadDraining(s.phase.entries) + Unread(s.phase.todo, DrainingNow(s)));
    } else if e.ListFiles? && t.phase.Reading? && s.phase.Idle? {
      SameWeights(s, t);
      SubsetIsSmaller(ReadDraining([]) + Unread(e.files, DrainingNow(t)), DrainingNow(s));
    }
  }

  /** No snapshot of a run shows more draining backends than the cap or the initial number. */
  lemma {:induction false} SnapshotsWithinCap(f: Fixed, s: Sys, events: seq<Event>)
    requires s.phase.Idle?
    ensures ReadWithin(Run(f, s, events), Max(|DrainingNow(s)|, f.config.maxConcurrentDraining))
  {
    hide Step, DrainingNow;
    if events != [] {
      var init := events[..|events| - 1];
      SnapshotsWithinCap(f, s, init);
      CapHolds(f, s, init);
      StepWithin(f, Run(f, s, init), events[|events| - 1], Max(|DrainingNow(s)|, f.config.maxConcurrentDraining));
    }
  }

  // -- who wrote a weight file last ----------------------------------------------------------

  function FileOf(s: Sys, ip: u32): Option<BackendState>
  {
    if ip in s.weights then Some(s.weights[ip]) else None
  }

  /**
   What an event writes into the weight file of `ip`: a claim enables the backend, a
   release disables it, a cleanup pass does the next action of its plans, and the scaler
   only drains. Nothing writes in a dry run, and a failed write leaves the file as it is.
   */
  function WrittenBy(f: Fixed, s: Sys, e: Event, ip: u32): Option<BackendState>
  {
    if f.dryRun then None
    else match e
      case Message(addressed, claim, ok) =>
        if !ok || addressed != ip then None else if claim then Some(Active) else Some(Disabled)
      case CleanOne(ok) =>
        if ok && s.phase.Cleaning? && s.phase.plans != [] && s.phase.plans[0] != []
           && s.phase.plans[0][0].WriteWeight? && s.phase.plans[0][0].ip == ip
        then Some(s.phase.plans[0][0].state)
        else None
      case Scale(around) =>
        if around.writeOk && s.phase.Scaling?
           && Scaler.PassEffects(s.scaler, f.config, s.phase.snap, f.dryRun, around).drained == Some(ip)
        then Some(Draining)
        else None
      case _ => None
  }

  lemma StepWrites(f: Fixed, s: Sys, e: Event, ip: u32)
    ensures var written := WrittenBy(f, s, e, ip);
            FileOf(Step(f, s, e), ip) == if written.Some? then written else FileOf(s, ip)
  {
    hide Collect, Cleanup.Plans, Scaler.Pass, Scaler.PassEffects, Sorting.SortBy;
  }

  /** After any run a weight file holds what was written last, by event `i - 1`, or what it held at the start. */
  lemma {:induction false} FileIsLastWritten(f: Fixed, s: Sys, events: seq<Event>, ip: u32) returns (i: nat)
    ensures i <= |events|
    ensures forall j :: i <= j < |events| ==> WrittenBy(f, Run(f, s, events[..j]), events[j], ip).None?
    ensures FileOf(Run(f, s, events), ip) ==
            if i == 0 then FileOf(s, ip) else WrittenBy(f, Run(f, s, events[..i - 1]), events[i - 1], ip)
    ensures i > 0 ==> FileOf(Run(f, s, events), ip).Some?
  {
    hide Step, WrittenBy, FileOf;
    if events == [] {
      i := 0;
    } else {
      var n := |events| - 1;
      var init := events[..n];
      StepWrites(f, Run(f, s, init), events[n], ip);
      if WrittenBy(f, Run(f, s, init), events[n], ip).Some? {
        i := n + 1;
      } else {
        i := FileIsLastWritten(f, s, init, ip);
        assert forall j :: 0 <= j <= n ==> init[..j] == events[..j];
      }
    }
  }
}
