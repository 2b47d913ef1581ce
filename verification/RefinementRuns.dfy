/**
 From single steps to whole runs: every orderly run of the plain commands is a
 run of the Lua machine, with the same final store and the same replies.
 */
module RefinementRuns {
  import opened Options
  import opened MemberOrder
  import opened SlotStore
  import opened AtomicRuns
  import opened NativeMachine
  import opened Refinement

  lemma StepSimulated(sys: System, abs: Store, ev: Event)
    requires Sim(sys, abs) && Enabled(sys, ev) && Orderly(sys, abs, ev)
    ensures Sound(sys) && Sim(Next(sys, ev), After(abs, Effect(sys, ev)))
  {
    SimIsSound(sys, abs);
    match ev {
      case Start(pid, p) => StartStep(sys, abs, pid, p);
      case Step(pid, clock) =>
        var p := sys.procs[pid];
        assert ProcAgrees(p, sys.store, abs);
        if p.Scan? {
          ScanStep(sys, abs, pid, clock);
        } else if p.Pop? {
          PopStep(sys, abs, pid, clock);
        } else if p.RenewGet? {
          RenewGetStep(sys, abs, pid, clock);
        } else if p.ReleaseGet? {
          ReleaseGetStep(sys, abs, pid, clock);
        } else {
          WorkStep(sys, abs, pid, clock);
        }
    }
  }

  /** A process is told what the atomic operation replies, when its command takes effect and not before. */
  lemma StepSettles(sys: System, abs: Store, pid: nat, clock: nat)
    requires Sim(sys, abs) && Enabled(sys, Step(pid, clock)) && Orderly(sys, abs, Step(pid, clock))
    ensures Sound(sys)
    ensures var p' := Next(sys, Step(pid, clock)).procs[pid];
            match Effect(sys, Step(pid, clock))
            case None => Settled(p') == Settled(sys.procs[pid])
            case Some(op) => Settled(sys.procs[pid]) == None && Settled(p') == Some(Apply(abs, op).1)
  {
    SimIsSound(sys, abs);
    var p := sys.procs[pid];
    assert ProcAgrees(p, sys.store, abs);
    if p.Scan? {
      ScanStep(sys, abs, pid, clock);
    } else if p.Pop? {
      PopStep(sys, abs, pid, clock);
    } else if p.RenewGet? {
      RenewGetStep(sys, abs, pid, clock);
    } else if p.ReleaseGet? {
      ReleaseGetStep(sys, abs, pid, clock);
    } else {
      WorkSettles(abs, sys.store, p, clock);
    }
  }

  // -- the atomic run behind a native run ------------------------------------------------

  /** One atomic operation and the process it stands for. */
  datatype Entry = Entry(pid: nat, op: Op)

  /** The operations in the order in which the commands of the run take effect. */
  ghost function Trace(sys: System, evs: seq<Event>): seq<Entry>
    requires Sound(sys) && CanRun(sys, evs)
    decreases evs
  {
    if evs == [] then [] else
      var rest := Trace(Next(sys, evs[0]), evs[1..]);
      match Effect(sys, evs[0])
      case None => rest
      case Some(op) => [Entry(evs[0].pid, op)] + rest
  }

  function Ops(trace: seq<Entry>): (ops: seq<Op>)
    ensures |ops| == |trace|
    ensures forall k :: 0 <= k < |ops| ==> ops[k] == trace[k].op
  {
    if trace == [] then [] else [trace[0].op] + Ops(trace[1..])
  }

  lemma {:induction false} OnceSettled(sys: System, evs: seq<Event>, pid: nat)
    requires Sound(sys) && CanRun(sys, evs) && pid in sys.procs && Settled(sys.procs[pid]).Some?
    requires forall e :: e in evs ==> !e.Crash?
    ensures var sys' := RunAll(sys, evs);
            pid in sys'.procs && Settled(sys'.procs[pid]) == Settled(sys.procs[pid])
    ensures forall k :: 0 <= k < |Trace(sys, evs)| ==> Trace(sys, evs)[k].pid != pid
    decreases evs
  {
    if evs != [] {
      assert forall e :: e in evs[1..] ==> e in evs;
      assert evs[0] in evs;
      OnceSettled(Next(sys, evs[0]), evs[1..], pid);
    }
  }

  lemma {:induction false} OrderlyHasNoCrash(sys: System, abs: Store, evs: seq<Event>)
    requires Sound(sys) && CanRun(sys, evs) && OrderlyRun(sys, abs, evs)
    ensures forall e :: e in evs ==> !e.Crash?
    decreases evs
  {
    if evs != [] {
      OrderlyHasNoCrash(Next(sys, evs[0]), After(abs, Effect(sys, evs[0])), evs[1..]);
    }
  }

  /** The atomic machine, run on the trace, keeps step with the processes. */
  lemma {:induction false} RunSimulated(sys: System, abs: Store, evs: seq<Event>)
    requires Sim(sys, abs) && Sound(sys) && CanRun(sys, evs) && OrderlyRun(sys, abs, evs)
    ensures Sim(RunAll(sys, evs), Run(abs, Ops(Trace(sys, evs))))
    decreases evs
  {
    if evs != [] {
      StepSimulated(sys, abs, evs[0]);
      RunSimulated(Next(sys, evs[0]), After(abs, Effect(sys, evs[0])), evs[1..]);
      var trace := Trace(sys, evs);
      if Effect(sys, evs[0]).Some? {
        assert trace[1..] == Trace(Next(sys, evs[0]), evs[1..]);
      }
    }
  }

  /** Every reply of the atomic run is the reply its process gives. */
  lemma {:induction false} RepliesAgree(sys: System, abs: Store, evs: seq<Event>, k: nat)
    requires Sim(sys, abs) && Sound(sys) && CanRun(sys, evs) && OrderlyRun(sys, abs, evs)
    requires k < |Trace(sys, evs)|
    ensures var trace := Trace(sys, evs);
            var sys' := RunAll(sys, evs);
            trace[k].pid in sys'.procs && Settled(sys'.procs[trace[k].pid]) == Some(Replies(abs, Ops(trace))[k])
    decreases evs
  {
    var ev := evs[0];
    var next, rest := Next(sys, ev), evs[1..];
    StepSimulated(sys, abs, ev);
    var effect := Effect(sys, ev);
    if effect == None {
      RepliesAgree(next, abs, rest, k);
    } else {
      var trace := Trace(sys, evs);
      assert trace[1..] == Trace(next, rest);
      if k == 0 {
        StepSettles(sys, abs, ev.pid, ev.clock);
        OrderlyHasNoCrash(next, After(abs, effect), rest);
        OnceSettled(next, rest, ev.pid);
      } else {
        RepliesAgree(next, After(abs, effect), rest, k - 1);
      }
    }
  }

  /** A process that was not settled before and is now has exactly one place in the trace. */
  lemma {:induction false} SettledHasOneEntry(sys: System, abs: Store, evs: seq<Event>, pid: nat) returns (k: nat)
    requires Sim(sys, abs) && Sound(sys) && CanRun(sys, evs) && OrderlyRun(sys, abs, evs)
    requires pid in sys.procs ==> Settled(sys.procs[pid]) == None
    requires pid in RunAll(sys, evs).procs && Settled(RunAll(sys, evs).procs[pid]).Some?
    ensures k < |Trace(sys, evs)| && Trace(sys, evs)[k].pid == pid
    ensures forall j :: 0 <= j < |Trace(sys, evs)| && Trace(sys, evs)[j].pid == pid ==> j == k
    decreases evs
  {
    var ev := evs[0];
    var next, rest := Next(sys, ev), evs[1..];
    StepSimulated(sys, abs, ev);
    var effect := Effect(sys, ev);
    if ev.Step? {
      StepSettles(sys, abs, ev.pid, ev.clock);
    }
    if effect.Some? {
      assert Trace(sys, evs)[1..] == Trace(next, rest);
    }
    if effect.Some? && ev.pid == pid {
      OrderlyHasNoCrash(next, After(abs, effect), rest);
      OnceSettled(next, rest, pid);
      k := 0;
    } else {
      k := SettledHasOneEntry(next, After(abs, effect), rest, pid);
      k := if effect.Some? then k + 1 else k;
    }
  }

  // -- the operation in the trace is the command that was issued ------------------------------

  /** `op` is the atomic form of the command that starts as `p`. */
  predicate Performs(p: Proc, op: Op)
  {
    match p
    case Scan(id, now, ttl) => op == Claim(id, now, ttl)
    case RenewGet(id, slot, ttl) => op.Renew? && op.id == id && op.slot == slot && op.ttl == ttl
    case ReleaseGet(id, slot) => op.Release? && op.id == id && op.slot == slot
    case _ => false
  }

  /** `p` is a later point of the command that started as `start`. */
  predicate Continues(start: Proc, p: Proc)
  {
    match start
    case Scan(id, now, ttl) =>
      p == start || p == Pop(id, now, ttl) || Settled(p).Some? || (TodoLeft(p) && SweepOf(p, id, now, ttl))
    case RenewGet(id, slot, ttl) => p == start || p == RenewPut(id, slot, ttl) || Settled(p).Some?
    case ReleaseGet(id, slot) =>
      p == start || Settled(p).Some? ||
      ((p.ReleaseDel? || p.ReleaseRem? || p.ReleaseAdd?) && p.id == id && p.slot == slot)
    case _ => false
  }

  predicate SweepOf(p: Proc, id: InstanceId, now: nat, ttl: nat)
  {
    (p.SweepRem? || p.SweepAdd? || p.SweepDel?) && p.id == id && p.now == now && p.ttl == ttl
  }

  lemma CommandContinues(st: Store, start: Proc, p: Proc, clock: nat)
    requires TodoLeft(p) && Continues(start, p) && !Over(p)
    ensures Continues(start, Command(st, p, clock).1)
  {
  }

  lemma {:induction false} TracePerforms(sys: System, evs: seq<Event>, pid: nat, start: Proc)
    requires Sound(sys) && CanRun(sys, evs) && pid in sys.procs && Continues(start, sys.procs[pid])
    requires forall e :: e in evs ==> !e.Crash?
    ensures forall k :: 0 <= k < |Trace(sys, evs)| && Trace(sys, evs)[k].pid == pid ==>
              Performs(start, Trace(sys, evs)[k].op)
    decreases evs
  {
    if evs != [] {
      var next := Next(sys, evs[0]);
      assert evs[0] in evs && forall e :: e in evs[1..] ==> e in evs;
      if evs[0].Step? && evs[0].pid == pid {
        CommandContinues(sys.store, start, sys.procs[pid], evs[0].clock);
      }
      TracePerforms(next, evs[1..], pid, start);
      if Effect(sys, evs[0]).Some? {
        assert Trace(sys, evs)[1..] == Trace(next, evs[1..]);
        forall k | 0 <= k < |Trace(sys, evs)| && Trace(sys, evs)[k].pid == pid
          ensures Performs(start, Trace(sys, evs)[k].op)
        {
          if k > 0 {
            assert Trace(sys, evs)[k] == Trace(next, evs[1..])[k - 1];
          }
        }
      }
    }
  }

  /** The command a process of the run was started with. */
  lemma {:induction false} StartedPerforms(sys: System, evs: seq<Event>, i: nat)
    requires Sound(sys) && CanRun(sys, evs) && i < |evs| && evs[i].Start?
    requires evs[i].proc.Scan? || evs[i].proc.RenewGet? || evs[i].proc.ReleaseGet?
    requires forall e :: e in evs ==> !e.Crash?
    ensures forall k :: 0 <= k < |Trace(sys, evs)| && Trace(sys, evs)[k].pid == evs[i].pid ==>
      Performs(evs[i].proc, Trace(sys, evs)[k].op)
    decreases evs
  {
    var next := Next(sys, evs[0]);
    assert forall e :: e in evs[1..] ==> e in evs;
    if i == 0 {
      TracePerforms(next, evs[1..], evs[0].pid, evs[0].proc);
    } else {
      StartedPerforms(next, evs[1..], i - 1);
      NotYetStarted(sys, evs, i);
      if Effect(sys, evs[0]).Some? {
        assert Trace(sys, evs)[1..] == Trace(next, evs[1..]);
        forall k | 0 <= k < |Trace(sys, evs)| && Trace(sys, evs)[k].pid == evs[i].pid
          ensures Performs(evs[i].proc, Trace(sys, evs)[k].op)
        {
          assert k > 0 && Trace(sys, evs)[k] == Trace(next, evs[1..])[k - 1];
        }
      }
    }
  }

  lemma {:induction false} NotYetStarted(sys: System, evs: seq<Event>, i: nat)
    requires Sound(sys) && CanRun(sys, evs) && i < |evs| && evs[i].Start?
    ensures evs[i].pid !in sys.procs
    decreases i
  {
    if i > 0 {
      NotYetStarted(Next(sys, evs[0]), evs[1..], i - 1);
    }
  }

  // -- the theorem --------------------------------------------------------------------------------

  lemma SimFromIdle(st: Store)
    requires WellFormed(st)
    ensures Sim(System(st, map[]), st)
  {
  }

  lemma SimWhenAllOver(sys: System, abs: Store)
    requires Sim(sys, abs) && forall q :: q in sys.procs ==> Over(sys.procs[q])
    ensures sys.store == abs
  {
    assert sys.store.leases.Keys == abs.leases.Keys && sys.store.leases == abs.leases;
    assert sys.store.owner.Keys == abs.owner.Keys && sys.store.owner == abs.owner;
  }

  /**
   Refinement. Take any orderly run of the plain commands from a well-formed
   store. Some sequence of Lua operations, one for each command that has taken
   effect, gives the same replies; when every command has finished it also ends
   in the same store.
   */
  lemma {:induction false} NativeRefinesLua(st: Store, evs: seq<Event>)
    requires WellFormed(st)
    requires CanRun(System(st, map[]), evs) && OrderlyRun(System(st, map[]), st, evs)
    ensures var sys' := RunAll(System(st, map[]), evs);
            var trace := Trace(System(st, map[]), evs);
            var replies := Replies(st, Ops(trace));
            // the same replies, each command once and in its own name
            && (forall k :: 0 <= k < |trace| ==>
                  trace[k].pid in sys'.procs && Settled(sys'.procs[trace[k].pid]) == Some(replies[k]))
            && (forall pid :: pid in sys'.procs && sys'.procs[pid].Finished? ==>
                  exists k :: 0 <= k < |trace| && trace[k].pid == pid && replies[k] == sys'.procs[pid].reply
                           && forall j :: 0 <= j < |trace| && trace[j].pid == pid ==> j == k)
            && (forall i, k :: 0 <= i < |evs| && evs[i].Start? && 0 <= k < |trace| && trace[k].pid == evs[i].pid ==>
                  Performs(evs[i].proc, trace[k].op))
            // the same store
            && ((forall q :: q in sys'.procs ==> Over(sys'.procs[q])) ==> sys'.store == Run(st, Ops(trace)))
  {
    hide Trace, CanRun, OrderlyRun, Ops, Replies, Run, Sim;
    var sys := System(st, map[]);
    var sys' := RunAll(sys, evs);
    var trace := Trace(sys, evs);
    var replies := Replies(st, Ops(trace));
    SimFromIdle(st);
    RunSimulated(sys, st, evs);
    forall k | 0 <= k < |trace|
      ensures trace[k].pid in sys'.procs && Settled(sys'.procs[trace[k].pid]) == Some(replies[k])
    {
      RepliesAgree(sys, st, evs, k);
    }
    forall pid | pid in sys'.procs && sys'.procs[pid].Finished?
      ensures exists k :: 0 <= k < |trace| && trace[k].pid == pid && replies[k] == sys'.procs[pid].reply
                       && forall j :: 0 <= j < |trace| && trace[j].pid == pid ==> j == k
    {
      var k := SettledHasOneEntry(sys, st, evs, pid);
    }
    OrderlyHasNoCrash(sys, st, evs);
    forall i, k | 0 <= i < |evs| && evs[i].Start? && 0 <= k < |trace| && trace[k].pid == evs[i].pid
      ensures Performs(evs[i].proc, trace[k].op)
    {
      OrderlyStarts(sys, st, evs, i);
      StartedPerforms(sys, evs, i);
    }
    if forall q :: q in sys'.procs ==> Over(sys'.procs[q]) {
      SimWhenAllOver(sys', Run(st, Ops(trace)));
    }
  }

  lemma {:induction false} OrderlyStarts(sys: System, abs: Store, evs: seq<Event>, i: nat)
    requires Sound(sys) && CanRun(sys, evs) && OrderlyRun(sys, abs, evs) && i < |evs| && evs[i].Start?
    ensures evs[i].proc.Scan? || evs[i].proc.RenewGet? || evs[i].proc.ReleaseGet?
    decreases evs
  {
    if i > 0 {
      OrderlyStarts(Next(sys, evs[0]), After(abs, Effect(sys, evs[0])), evs[1..], i - 1);
    }
  }

  // -- exclusivity of the plain commands -------------------------------------------------------------

  /** The claims of an orderly run come before any lease of the atomic machine runs out. */
  lemma {:induction false} OrderlyIsTimely(sys: System, abs: Store, evs: seq<Event>, s: Member)
    requires Sound(sys) && CanRun(sys, evs) && OrderlyRun(sys, abs, evs)
    ensures TimelyClaims(abs, s, Ops(Trace(sys, evs)))
    decreases evs
  {
    if evs != [] {
      var effect := Effect(sys, evs[0]);
      OrderlyIsTimely(Next(sys, evs[0]), After(abs, effect), evs[1..], s);
      if effect.Some? {
        assert Trace(sys, evs)[1..] == Trace(Next(sys, evs[0]), evs[1..]);
      }
    }
  }

  lemma {:induction false} TimelySuffix(st: Store, s: Member, ops: seq<Op>, i: nat)
    requires i <= |ops| && TimelyClaims(st, s, ops)
    ensures TimelyClaims(Run(st, ops[..i]), s, ops[i..])
    decreases ops
  {
    hide Apply;
    if i == 0 {
      assert ops[..0] == [] && ops[0..] == ops;
    } else {
      TimelySuffix(Apply(st, ops[0]).0, s, ops[1..], i - 1);
      assert ops[..i][0] == ops[0] && ops[..i][1..] == ops[1..][..i - 1] && ops[1..][i - 1..] == ops[i..];
    }
  }

  lemma {:induction false} NoDaemonInTrace(sys: System, evs: seq<Event>, k: nat)
    requires Sound(sys) && CanRun(sys, evs) && k < |Trace(sys, evs)|
    ensures !Trace(sys, evs)[k].op.DaemonRelease?
    decreases evs
  {
    var rest := Trace(Next(sys, evs[0]), evs[1..]);
    if Effect(sys, evs[0]).Some? && k > 0 {
      assert Trace(sys, evs)[k] == rest[k - 1];
      NoDaemonInTrace(Next(sys, evs[0]), evs[1..], k - 1);
    } else if Effect(sys, evs[0]).None? {
      NoDaemonInTrace(Next(sys, evs[0]), evs[1..], k);
    }
  }

  /**
   Exclusivity. In every orderly run of the plain commands, when two claims are
   told the same slot, the first one's instance has successfully released it in
   between.
   */
  lemma {:induction false} NativeIsExclusive(st: Store, evs: seq<Event>, i: nat, k: nat, s: Member) returns (j: nat)
    requires WellFormed(st)
    requires CanRun(System(st, map[]), evs) && OrderlyRun(System(st, map[]), st, evs)
    requires var trace := Trace(System(st, map[]), evs);
             i < k < |trace| && Replies(st, Ops(trace))[i] == Claimed(s) == Replies(st, Ops(trace))[k]
    ensures var trace := Trace(System(st, map[]), evs);
            && i < j < k && trace[i].op.Claim? && trace[j].op.Release?
            && trace[j].op.id == trace[i].op.id && trace[j].op.slot == s && Replies(st, Ops(trace))[j] == Accepted
  {
    hide Trace, CanRun, OrderlyRun, Replies, Run, TimelyClaims;
    var sys := System(st, map[]);
    var ops := Ops(Trace(sys, evs));
    OrderlyIsTimely(sys, st, evs, s);
    TimelySuffix(st, s, ops, i + 1);
    j := ClaimedTwice(st, ops, i, k, s);
    NoDaemonInTrace(sys, evs, j);
  }

  /** Nobody is on the way to a release. */
  ghost predicate NobodyReleases(procs: map<nat, Proc>)
  {
    forall q :: q in procs ==>
      !procs[q].ReleaseGet? && !procs[q].ReleaseDel? && !procs[q].ReleaseRem? && !procs[q].ReleaseAdd?
  }

  lemma {:induction false} NoReleaseInTrace(sys: System, evs: seq<Event>, k: nat)
    requires Sound(sys) && CanRun(sys, evs) && k < |Trace(sys, evs)|
    requires NobodyReleases(sys.procs)
    requires forall e :: e in evs && e.Start? ==> !e.proc.ReleaseGet? && !e.proc.ReleaseDel?
    ensures !Trace(sys, evs)[k].op.Release?
    decreases evs
  {
    var next := Next(sys, evs[0]);
    var rest := Trace(next, evs[1..]);
    assert evs[0] in evs && forall e :: e in evs[1..] ==> e in evs;
    assert NobodyReleases(next.procs);
    if Effect(sys, evs[0]).Some? && k > 0 {
      assert Trace(sys, evs)[k] == rest[k - 1];
      NoReleaseInTrace(next, evs[1..], k - 1);
    } else if Effect(sys, evs[0]).None? {
      NoReleaseInTrace(next, evs[1..], k);
    }
  }

  /** In particular, as long as nobody releases, no two processes are told the same slot. */
  lemma {:induction false} NoTwoOwners(st: Store, evs: seq<Event>, p: nat, q: nat, s: Member)
    requires WellFormed(st) && p != q
    requires CanRun(System(st, map[]), evs) && OrderlyRun(System(st, map[]), st, evs)
    requires forall e :: e in evs && e.Start? ==> !e.proc.ReleaseGet? && !e.proc.ReleaseDel?
    ensures var procs := RunAll(System(st, map[]), evs).procs;
            !(p in procs && q in procs && Settled(procs[p]) == Some(Claimed(s)) == Settled(procs[q]))
  {
    hide Trace, CanRun, OrderlyRun, Ops, Replies, Run, Sim, RunAll;
    var sys := System(st, map[]);
    var procs := RunAll(sys, evs).procs;
    if p in procs && q in procs && Settled(procs[p]) == Some(Claimed(s)) == Settled(procs[q]) {
      SimFromIdle(st);
      var i := SettledHasOneEntry(sys, st, evs, p);
      var k := SettledHasOneEntry(sys, st, evs, q);
      RepliesAgree(sys, st, evs, i);
      RepliesAgree(sys, st, evs, k);
      var j := NativeIsExclusive(st, evs, if i < k then i else k, if i < k then k else i, s);
      NoReleaseInTrace(sys, evs, j);
    }
  }
}
