/**
 Why the regime of the refinement is needed: for each of its five conditions a
 run that keeps the other four and ends where no run of the scripts can end, with
 a slot told to two claims, free and leased at once, or gone.
 */
module RefinementLimits {
  import opened Decimals
  import opened MemberOrder
  import opened SlotStore
  import opened AtomicRuns
  import opened NativeMachine
  import Refinement

  // -- the conditions of the regime, one by one ----------------------------------------

  datatype Condition = OneAtATime | NoInit | NoDaemon | NothingExpired | NoCrash

  ghost predicate Meets(c: Condition, sys: System, abs: Store, ev: Event)
  {
    match c
    case OneAtATime =>
      ev.Start? && Refinement.HasId(ev.proc) ==> Refinement.Idle(sys.procs, Refinement.IdOf(ev.proc))
    case NoInit => ev.Start? ==> !ev.proc.InitCheck?
    case NoDaemon => ev.Start? ==> !ev.proc.ReleaseDel?
    case NothingExpired =>
      ev.Step? && ev.pid in sys.procs && (sys.procs[ev.pid].Scan? || sys.procs[ev.pid].Pop?) ==>
        Refinement.NoneExpired(abs, sys.procs[ev.pid].now)
    case NoCrash => !ev.Crash?
  }

  /** Together they are the regime. */
  lemma OrderlyMeetsAll(sys: System, abs: Store, ev: Event)
    requires Enabled(sys, ev)
    ensures Refinement.Orderly(sys, abs, ev) <==> forall c :: Meets(c, sys, abs, ev)
  {
    if forall c :: Meets(c, sys, abs, ev) {
      assert Meets(OneAtATime, sys, abs, ev) && Meets(NoInit, sys, abs, ev) && Meets(NoDaemon, sys, abs, ev);
      assert Meets(NothingExpired, sys, abs, ev) && Meets(NoCrash, sys, abs, ev);
    }
  }

  /** The event keeps every condition but perhaps `c`. */
  ghost predicate MeetsOthers(c: Condition, sys: System, abs: Store, ev: Event)
  {
    forall d :: d != c ==> Meets(d, sys, abs, ev)
  }

  /** So does every event of the run. */
  ghost predicate BreaksAtMost(c: Condition, sys: System, abs: Store, evs: seq<Event>)
    requires Sound(sys) && CanRun(sys, evs)
    decreases evs
  {
    evs != [] ==>
      && MeetsOthers(c, sys, abs, evs[0])
      && BreaksAtMost(c, Next(sys, evs[0]), Refinement.After(abs, Refinement.Effect(sys, evs[0])), evs[1..])
  }

  /** The store of the atomic machine after the run. */
  ghost function AbsAfter(sys: System, abs: Store, evs: seq<Event>): Store
    requires Sound(sys) && CanRun(sys, evs)
    decreases evs
  {
    if evs == [] then abs
    else AbsAfter(Next(sys, evs[0]), Refinement.After(abs, Refinement.Effect(sys, evs[0])), evs[1..])
  }

  /** The commands that are issued in the run, in order. */
  function Starts(evs: seq<Event>): seq<Event>
  {
    if evs == [] then [] else (if evs[0].Start? then [evs[0]] else []) + Starts(evs[1..])
  }

  /** From `st`, with exactly the commands of `starts` and breaking at most `c`, the run leads to `end`. */
  ghost predicate OnlyBreaks(c: Condition, st: Store, starts: seq<Event>, evs: seq<Event>, end: System)
  {
    var sys := System(st, map[]);
    CanRun(sys, evs) && Starts(evs) == starts && BreaksAtMost(c, sys, st, evs) && RunAll(sys, evs) == end
  }

  // -- building runs event by event ----------------------------------------------------------

  /** A run under construction, with the store the atomic machine would have by now. */
  datatype Built = Built(c: Condition, st: Store, starts: seq<Event>, evs: seq<Event>, cur: System, abs: Store)

  ghost predicate Valid(r: Built)
  {
    Sound(r.cur) && OnlyBreaks(r.c, r.st, r.starts, r.evs, r.cur) && AbsAfter(System(r.st, map[]), r.st, r.evs) == r.abs
  }

  lemma Begin(c: Condition, st: Store) returns (r: Built)
    ensures Valid(r) && r == Built(c, st, [], [], System(st, map[]), st)
  {
    r := Built(c, st, [], [], System(st, map[]), st);
  }

  lemma {:induction false} Appended(c: Condition, sys: System, abs: Store, evs: seq<Event>, e: Event)
    requires Sound(sys) && CanRun(sys, evs) && Enabled(RunAll(sys, evs), e) && BreaksAtMost(c, sys, abs, evs)
    requires MeetsOthers(c, RunAll(sys, evs), AbsAfter(sys, abs, evs), e)
    ensures CanRun(sys, evs + [e]) && RunAll(sys, evs + [e]) == Next(RunAll(sys, evs), e)
    ensures BreaksAtMost(c, sys, abs, evs + [e])
    ensures AbsAfter(sys, abs, evs + [e]) ==
            Refinement.After(AbsAfter(sys, abs, evs), Refinement.Effect(RunAll(sys, evs), e))
    ensures Starts(evs + [e]) == Starts(evs) + if e.Start? then [e] else []
    decreases evs
  {
    hide MeetsOthers, Refinement.Effect, Refinement.After, Next, Enabled, Sound;
    if evs == [] {
      OneEvent(c, sys, abs, e);
    } else {
      var rest := evs[1..] + [e];
      assert (evs + [e])[1..] == rest && (evs + [e])[0] == evs[0];
      Appended(c, Next(sys, evs[0]), Refinement.After(abs, Refinement.Effect(sys, evs[0])), evs[1..], e);
    }
  }

  lemma OneEvent(c: Condition, sys: System, abs: Store, e: Event)
    requires Sound(sys) && Enabled(sys, e) && MeetsOthers(c, sys, abs, e)
    ensures [] + [e] == [e]
    ensures CanRun(sys, [e]) && RunAll(sys, [e]) == Next(sys, e) && BreaksAtMost(c, sys, abs, [e])
    ensures AbsAfter(sys, abs, [e]) == Refinement.After(abs, Refinement.Effect(sys, e))
    ensures Starts([e]) == if e.Start? then [e] else []
  {
    hide MeetsOthers, Refinement.Effect, Refinement.After, Next, Enabled, Sound;
    assert [e][1..] == [];
    assert CanRun(Next(sys, e), []);
  }

  lemma Extend(r: Built, e: Event) returns (r': Built)
    requires Valid(r) && Enabled(r.cur, e) && MeetsOthers(r.c, r.cur, r.abs, e)
    ensures Valid(r')
    ensures r'.c == r.c && r'.st == r.st && r'.starts == r.starts + (if e.Start? then [e] else [])
    ensures r'.cur == Next(r.cur, e) && r'.abs == Refinement.After(r.abs, Refinement.Effect(r.cur, e))
  {
    hide CanRun, RunAll, BreaksAtMost, AbsAfter, Starts, MeetsOthers, Refinement.Effect, Refinement.After;
    Appended(r.c, System(r.st, map[]), r.st, r.evs, e);
    r' := Built(r.c, r.st, r.starts + (if e.Start? then [e] else []), r.evs + [e], Next(r.cur, e),
                Refinement.After(r.abs, Refinement.Effect(r.cur, e)));
  }

  /** A new command of somebody who has none under way. */
  lemma Issue(r: Built, pid: nat, p: Proc) returns (r': Built)
    requires Valid(r) && pid !in r.cur.procs && Initial(p)
    requires r.c != OneAtATime && Refinement.HasId(p) ==> Refinement.Idle(r.cur.procs, Refinement.IdOf(p))
    requires (p.InitCheck? ==> r.c == NoInit) && (p.ReleaseDel? ==> r.c == NoDaemon)
    ensures Valid(r')
    ensures r'.c == r.c && r'.st == r.st && r'.starts == r.starts + [Start(pid, p)]
    ensures r'.cur == System(r.cur.store, r.cur.procs[pid := p]) && r'.abs == r.abs
  {
    hide Valid, Refinement.Idle;
    r' := Extend(r, Start(pid, p));
  }

  /** A step that has no effect on the atomic machine, or whose effect does not matter. */
  lemma Go(r: Built, pid: nat, clock: nat) returns (r': Built)
    requires Valid(r) && pid in r.cur.procs && !Over(r.cur.procs[pid])
    requires TodoLeft(r.cur.procs[pid])
    requires r.cur.procs[pid].Scan? || r.cur.procs[pid].Pop? ==>
      r.c == NothingExpired || Refinement.NoneExpired(r.abs, r.cur.procs[pid].now)
    ensures Valid(r')
    ensures r'.c == r.c && r'.st == r.st && r'.starts == r.starts
    ensures var (st', p') := Command(r.cur.store, r.cur.procs[pid], clock);
            r'.cur == System(st', r.cur.procs[pid := p'])
    ensures r'.abs == Refinement.After(r.abs, Refinement.Effect(r.cur, Step(pid, clock)))
  {
    hide Valid, Command, Refinement.NoneExpired, Refinement.Effect, Refinement.After;
    r' := Extend(r, Step(pid, clock));
  }

  lemma OnlyMember(m: map<Member, int>, s: Member)
    requires m.Keys == {s}
    ensures Least(m) == s && Sorted(m) == [s]
  {
    assert Least(m) in m;
    assert m - {s} == map[];
    assert Sorted(m - {s}) == [];
  }

  lemma ClaimLeavesNoneExpired(abs: Store, id: InstanceId, now: nat, ttl: nat)
    requires Refinement.NoneExpired(abs, now) && ttl > 0
    ensures Refinement.NoneExpired(ClaimFrom(abs, id, now, ttl).0, now)
  {
  }

  /** Scan with nothing to sweep. */
  lemma ScanNothing(r: Built, pid: nat) returns (r': Built)
    requires Valid(r) && pid in r.cur.procs && r.cur.procs[pid].Scan?
    requires Refinement.NoneExpired(r.cur.store, r.cur.procs[pid].now)
    requires r.c == NothingExpired || Refinement.NoneExpired(r.abs, r.cur.procs[pid].now)
    ensures Valid(r') && r'.c == r.c && r'.st == r.st && r'.starts == r.starts && r'.abs == r.abs
    ensures var p := r.cur.procs[pid];
            r'.cur == System(r.cur.store, r.cur.procs[pid := Pop(p.id, p.now, p.ttl)])
  {
    hide Valid;
    assert Expired(r.cur.store, r.cur.procs[pid].now) == map[];
    assert Sorted(map[]) == [];
    r' := Go(r, pid, 0);
  }

  /** Pop the only free slot. */
  lemma PopOnlySlot(r: Built, pid: nat, s: Member) returns (r': Built)
    requires Valid(r) && pid in r.cur.procs && r.cur.procs[pid].Pop? && r.cur.store.available.Keys == {s}
    requires r.c == NothingExpired || (Refinement.NoneExpired(r.abs, r.cur.procs[pid].now) && r.cur.procs[pid].ttl > 0)
    ensures Valid(r') && r'.c == r.c && r'.st == r.st && r'.starts == r.starts
    ensures var p := r.cur.procs[pid];
            && r'.cur == System(Store(map[], r.cur.store.leases, r.cur.store.owner),
                                r.cur.procs[pid := PutLease(p.id, p.now, p.ttl, s)])
            && (r.c != NothingExpired ==> Refinement.NoneExpired(r'.abs, p.now))
  {
    hide Valid, Sorted, ClaimFrom, Refinement.NoneExpired;
    OnlyMember(r.cur.store.available, s);
    assert r.cur.store.available - {s} == map[];
    var p := r.cur.procs[pid];
    r' := Go(r, pid, 0);
    assert r'.abs == ClaimFrom(r.abs, p.id, p.now, p.ttl).0;
    if r.c != NothingExpired {
      ClaimLeavesNoneExpired(r.abs, p.id, p.now, p.ttl);
    }
  }

  /** Lease and own the popped slot. */
  lemma PutBoth(r: Built, pid: nat) returns (r': Built)
    requires Valid(r) && pid in r.cur.procs && r.cur.procs[pid].PutLease?
    ensures Valid(r') && r'.c == r.c && r'.st == r.st && r'.starts == r.starts && r'.abs == r.abs
    ensures var p := r.cur.procs[pid];
            r'.cur == System(Store(r.cur.store.available, r.cur.store.leases[p.slot := p.now + p.ttl],
                                   r.cur.store.owner[p.slot := p.id]),
                             r.cur.procs[pid := Finished(Claimed(p.slot))])
  {
    hide Valid, Sorted, Least, Expired, Refinement.NoneExpired;
    r' := Go(r, pid, 0);
    r' := Go(r', pid, 0);
  }

  /** Sweep `s`, whatever has happened to it since the scan. */
  lemma SweepOnlySlot(r: Built, pid: nat, s: Member) returns (r': Built)
    requires Valid(r) && pid in r.cur.procs && r.cur.procs[pid].SweepRem? && r.cur.procs[pid].todo == [s]
    ensures Valid(r') && r'.c == r.c && r'.st == r.st && r'.starts == r.starts && r'.abs == r.abs
    ensures var p := r.cur.procs[pid];
            r'.cur == System(Freed(r.cur.store, s, p.now), r.cur.procs[pid := Pop(p.id, p.now, p.ttl)])
  {
    hide Valid, Sorted, Least, Expired, Decimal, Refinement.NoneExpired;
    r' := Go(r, pid, 0);
    r' := Go(r', pid, 0);
    r' := Go(r', pid, 0);
  }

  // -- what no run of the scripts can do ---------------------------------------------------------

  /** Processes 0 and 1 have both been told that slot `s` is theirs. */
  ghost predicate TwoOwners(sys: System, s: Member)
  {
    && 0 in sys.procs && 1 in sys.procs
    && sys.procs[0] == Finished(Claimed(s)) && sys.procs[1] == Finished(Claimed(s))
  }

  /** No two replies of the run tell `s`. */
  ghost predicate TellsAtMostOnce(st: Store, ops: seq<Op>, s: Member)
  {
    forall i, k :: 0 <= i < k < |ops| ==> !(Replies(st, ops)[i] == Claimed(s) == Replies(st, ops)[k])
  }

  /** However many claims at `now` and `init`s the scripts perform, and in whatever order, `s` is told once at most. */
  lemma ScriptsTellOnce(st: Store, now: nat, s: Member)
    requires WellFormed(st)
    ensures forall ops :: AllAtOnce(ops, now) ==> TellsAtMostOnce(st, ops, s)
  {
    hide AllAtOnce, Replies;
    forall ops | AllAtOnce(ops, now) ensures TellsAtMostOnce(st, ops, s) {
      forall i, k | 0 <= i < k < |ops| ensures !(Replies(st, ops)[i] == Claimed(s) == Replies(st, ops)[k]) {
        ToldOnce(st, ops, now, i, k, s);
      }
    }
  }

  /** No operations whatever, in whatever order, lead from `st` to `end`. */
  ghost predicate Unreachable(st: Store, end: Store)
  {
    forall ops :: Run(st, ops) != end
  }

  /** The scripts keep the pool and never have a slot both free and leased. */
  lemma ScriptsKeepPool(st: Store, end: Store, s: Member)
    requires WellFormed(st)
    requires (s in end.available && s in end.leases) || (s in Pool(st) && s !in Pool(end))
    ensures Unreachable(st, end)
  {
    forall ops ensures Run(st, ops) != end {
      RunKeepsPool(st, ops);
    }
  }

  function OneLease(s: Member, expiry: int, o: InstanceId): Store
  {
    Store(map[], map[s := expiry], map[s := o])
  }

  function OneFree(s: Member): Store
  {
    Store(map[s := 0], map[], map[])
  }

  // -- an expired lease ------------------------------------------------------------------------------

  /** Two claims start and scan while the only lease, on `s`, has expired. */
  lemma BothScan(s: Member, expiry: int, o: InstanceId, a: InstanceId, b: InstanceId, now: nat, ttl: nat)
    returns (r: Built)
    requires expiry <= now && a != b
    ensures Valid(r) && r.c == NothingExpired && r.st == OneLease(s, expiry, o)
    ensures r.starts == [Start(0, Scan(a, now, ttl)), Start(1, Scan(b, now, ttl))]
    ensures r.cur == System(r.st, map[0 := SweepRem(a, now, ttl, [s]), 1 := SweepRem(b, now, ttl, [s])])
  {
    hide Valid, Sorted, Least, Decimal;
    var st := OneLease(s, expiry, o);
    OnlyMember(Expired(st, now), s);
    r := Begin(NothingExpired, st);
    r := Issue(r, 0, Scan(a, now, ttl));
    r := Issue(r, 1, Scan(b, now, ttl));
    r := Go(r, 0, 0);
    r := Go(r, 1, 0);
  }

  /**
   An expired lease: both claims scan, the second sweeps and claims the slot, then
   the first goes on with its old list, sweeps the fresh lease away and claims the
   slot as well. The scripts tell the slot at most once, in whatever order.
   */
  lemma ExpiredLeaseBreaksExclusivity(s: Member, expiry: int, o: InstanceId, a: InstanceId, b: InstanceId, now: nat,
                                      ttl: nat)
    returns (evs: seq<Event>, end: System)
    requires expiry <= now && a != b && ttl > 0
    ensures var st := OneLease(s, expiry, o);
            && OnlyBreaks(NothingExpired, st, [Start(0, Scan(a, now, ttl)), Start(1, Scan(b, now, ttl))], evs, end)
            && TwoOwners(end, s)
            && forall ops :: AllAtOnce(ops, now) ==> TellsAtMostOnce(st, ops, s)
  {
    hide CanRun, RunAll, BreaksAtMost, AbsAfter, Starts, Sorted, Least, Decimal;
    var r := BothScan(s, expiry, o, a, b, now, ttl);
    r := SweepOnlySlot(r, 1, s);
    r := PopOnlySlot(r, 1, s);
    r := PutBoth(r, 1);
    r := SweepOnlySlot(r, 0, s);
    r := PopOnlySlot(r, 0, s);
    r := PutBoth(r, 0);
    evs, end := r.evs, r.cur;
    ScriptsTellOnce(OneLease(s, expiry, o), now, s);
  }

  // -- init at work --------------------------------------------------------------------------------------

  /** A claim takes the only free slot out of the free set. */
  lemma ScanAndPop(c: Condition, s: Member, a: InstanceId, now: nat, ttl: nat) returns (r: Built)
    requires c != NothingExpired && ttl > 0
    ensures Valid(r) && r.c == c && r.st == OneFree(s) && r.starts == [Start(0, Scan(a, now, ttl))]
    ensures r.cur == System(EMPTY, map[0 := PutLease(a, now, ttl, s)]) && Refinement.NoneExpired(r.abs, now)
  {
    hide Valid, Sorted, Least, Decimal;
    r := Begin(c, OneFree(s));
    r := Issue(r, 0, Scan(a, now, ttl));
    r := ScanNothing(r, 0);
    r := PopOnlySlot(r, 0, s);
  }

  lemma PopAndInit(n: nat, a: InstanceId, now: nat, ttl: nat) returns (r: Built)
    requires ttl > 0
    ensures Valid(r) && r.c == NoInit && r.st == OneFree(Decimal(n))
    ensures r.starts == [Start(0, Scan(a, now, ttl)), Start(2, InitCheck(n, n, 0))]
    ensures r.cur == System(r.st, map[0 := PutLease(a, now, ttl, Decimal(n)), 2 := Finished(Added(1))])
         && Refinement.NoneExpired(r.abs, now)
  {
    hide Valid, Sorted, Least, Decimal, Refinement.NoneExpired;
    r := ScanAndPop(NoInit, Decimal(n), a, now, ttl);
    r := Issue(r, 2, InitCheck(n, n, 0));
    r := Go(r, 2, 0);
    r := Go(r, 2, 0);
  }

  /**
   `init` at work: it looks at the slot between a claim's ZPOPMIN and its lease, and
   frees it a second time. The scripts, `init` among them, tell the slot at most once.
   */
  lemma InitBreaksExclusivity(n: nat, a: InstanceId, b: InstanceId, now: nat, ttl: nat)
    returns (evs: seq<Event>, end: System)
    requires a != b && ttl > 0
    ensures var s := Decimal(n);
            && OnlyBreaks(NoInit, OneFree(s),
                    [Start(0, Scan(a, now, ttl)), Start(2, InitCheck(n, n, 0)), Start(1, Scan(b, now, ttl))], evs, end)
            && TwoOwners(end, s)
            && forall ops :: AllAtOnce(ops, now) ==> TellsAtMostOnce(OneFree(s), ops, s)
  {
    hide CanRun, RunAll, BreaksAtMost, AbsAfter, Starts, Sorted, Least, Decimal;
    var s := Decimal(n);
    var r := PopAndInit(n, a, now, ttl);
    r := PutBoth(r, 0);
    r := Issue(r, 1, Scan(b, now, ttl));
    r := ScanNothing(r, 1);
    r := PopOnlySlot(r, 1, s);
    r := PutBoth(r, 1);
    evs, end := r.evs, r.cur;
    ScriptsTellOnce(OneFree(s), now, s);
  }

  // -- two commands of one instance, and the daemon ------------------------------------------------------

  /** A release behind its check runs through. */
  lemma ReleaseThrough(r: Built, pid: nat) returns (r': Built)
    requires Valid(r) && pid in r.cur.procs && r.cur.procs[pid].ReleaseDel?
    ensures Valid(r') && r'.c == r.c && r'.st == r.st && r'.starts == r.starts
    ensures var p := r.cur.procs[pid];
            r'.cur == System(Freed(r.cur.store, p.slot, p.now), r.cur.procs[pid := Finished(Accepted)])
  {
    hide Valid, Sorted, Least, Expired, Decimal, Refinement.NoneExpired, Refinement.Effect, Refinement.After;
    r' := Go(r, pid, 0);
    r' := Go(r', pid, 0);
    r' := Go(r', pid, 0);
  }

  /** A renew behind its check writes its lease. */
  lemma RenewThrough(r: Built, pid: nat, now: nat) returns (r': Built)
    requires Valid(r) && pid in r.cur.procs && r.cur.procs[pid].RenewPut?
    ensures Valid(r') && r'.c == r.c && r'.st == r.st && r'.starts == r.starts
    ensures var p, st := r.cur.procs[pid], r.cur.store;
            r'.cur == System(st.(leases := st.leases[p.slot := now + p.ttl]), r.cur.procs[pid := Finished(Accepted)])
  {
    hide Valid, Sorted, Least, Expired, Decimal, Refinement.NoneExpired, Refinement.Effect, Refinement.After;
    r' := Go(r, pid, now);
  }

  /** A release, or the daemon's, runs through between a renew's check and its ZADD. */
  lemma RenewAfterRelease(r: Built, s: Member, a: InstanceId, id: InstanceId, ttl: nat, now: nat) returns (r': Built)
    requires Valid(r)
    requires r.cur == System(r.st, map[0 := RenewPut(a, s, ttl), 1 := ReleaseDel(id, s, now)])
    ensures Valid(r') && r'.c == r.c && r'.st == r.st && r'.starts == r.starts
    ensures s in r'.cur.store.available && s in r'.cur.store.leases
    ensures r'.cur.procs == map[0 := Finished(Accepted), 1 := Finished(Accepted)]
  {
    hide Valid, Expired;
    r' := ReleaseThrough(r, 1);
    r' := RenewThrough(r', 0, now);
  }

  lemma BothChecked(s: Member, a: InstanceId, expiry: int, now: nat, ttl: nat) returns (r: Built)
    ensures Valid(r) && r.c == OneAtATime && r.st == OneLease(s, expiry, a)
    ensures r.starts == [Start(0, RenewGet(a, s, ttl)), Start(1, ReleaseGet(a, s))]
    ensures r.cur == System(r.st, map[0 := RenewPut(a, s, ttl), 1 := ReleaseDel(a, s, now)])
  {
    hide Valid, Sorted, Least, Expired, Decimal, Refinement.NoneExpired, Refinement.Effect, Refinement.After;
    r := Begin(OneAtATime, OneLease(s, expiry, a));
    r := Issue(r, 0, RenewGet(a, s, ttl));
    r := Issue(r, 1, ReleaseGet(a, s));
    r := Go(r, 0, now);
    r := Go(r, 1, now);
  }

  /**
   Two commands of one instance at once: a renew's ZADD after the release leaves the
   slot both free and leased, which no scripts do.
   */
  lemma TwoCommandsBreakTheStore(s: Member, a: InstanceId, expiry: int, now: nat, ttl: nat)
    returns (evs: seq<Event>, end: System)
    ensures var st := OneLease(s, expiry, a);
            && OnlyBreaks(OneAtATime, st, [Start(0, RenewGet(a, s, ttl)), Start(1, ReleaseGet(a, s))], evs, end)
            && s in end.store.available && s in end.store.leases
            && (forall q :: q in end.procs ==> Over(end.procs[q]))
            && Unreachable(st, end.store)
  {
    hide CanRun, RunAll, BreaksAtMost, AbsAfter, Starts, Sorted, Least, Expired;
    var r := BothChecked(s, a, expiry, now, ttl);
    r := RenewAfterRelease(r, s, a, a, ttl, now);
    evs, end := r.evs, r.cur;
    ScriptsKeepPool(OneLease(s, expiry, a), end.store, s);
  }

  /** A renew is past its check when the daemon begins to release its slot. */
  lemma CheckedThenDaemon(s: Member, a: InstanceId, daemon: InstanceId, expiry: int, now: nat, ttl: nat)
    returns (r: Built)
    requires daemon != a
    ensures Valid(r) && r.c == NoDaemon && r.st == OneLease(s, expiry, a)
    ensures r.starts == [Start(0, RenewGet(a, s, ttl)), Start(1, ReleaseDel(daemon, s, now))]
    ensures r.cur == System(r.st, map[0 := RenewPut(a, s, ttl), 1 := ReleaseDel(daemon, s, now)])
  {
    hide Valid, Sorted, Least, Expired, Decimal, Refinement.NoneExpired, Refinement.Effect, Refinement.After;
    r := Begin(NoDaemon, OneLease(s, expiry, a));
    r := Issue(r, 0, RenewGet(a, s, ttl));
    r := Go(r, 0, now);
    r := Issue(r, 1, ReleaseDel(daemon, s, now));
  }

  /** The daemon at work does the same to a renew, though it is a different party. */
  lemma DaemonBreaksTheStore(s: Member, a: InstanceId, daemon: InstanceId, expiry: int, now: nat, ttl: nat)
    returns (evs: seq<Event>, end: System)
    requires daemon != a
    ensures var st := OneLease(s, expiry, a);
            && OnlyBreaks(NoDaemon, st, [Start(0, RenewGet(a, s, ttl)), Start(1, ReleaseDel(daemon, s, now))], evs, end)
            && s in end.store.available && s in end.store.leases
            && (forall q :: q in end.procs ==> Over(end.procs[q]))
            && Unreachable(st, end.store)
  {
    hide CanRun, RunAll, BreaksAtMost, AbsAfter, Starts, Sorted, Least, Expired;
    var r := CheckedThenDaemon(s, a, daemon, expiry, now, ttl);
    r := RenewAfterRelease(r, s, a, daemon, ttl, now);
    evs, end := r.evs, r.cur;
    ScriptsKeepPool(OneLease(s, expiry, a), end.store, s);
  }

  // -- a crash ---------------------------------------------------------------------------------------------

  /** A claim that crashes behind its ZPOPMIN takes the slot with it, which no scripts do. */
  lemma CrashLosesTheSlot(s: Member, a: InstanceId, now: nat, ttl: nat) returns (evs: seq<Event>, end: System)
    requires ttl > 0
    ensures OnlyBreaks(NoCrash, OneFree(s), [Start(0, Scan(a, now, ttl))], evs, end)
    ensures s !in end.store.available && s !in end.store.leases
    ensures forall q :: q in end.procs ==> Over(end.procs[q])
    ensures Unreachable(OneFree(s), end.store)
  {
    hide CanRun, RunAll, BreaksAtMost, AbsAfter, Starts, Sorted, Least, Expired, Refinement.NoneExpired;
    var r := ScanAndPop(NoCrash, s, a, now, ttl);
    r := Extend(r, Crash(0));
    evs, end := r.evs, r.cur;
    ScriptsKeepPool(OneFree(s), end.store, s);
  }
}
