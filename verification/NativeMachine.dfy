/**
 The plain commands as they really run: every Redis command is one step, and
 the steps of any number of processes interleave in any order. A process may
 stop anywhere, or crash and lose what it remembered.
 */
module NativeMachine {
  import opened Decimals
  import opened MemberOrder
  import opened SlotStore

  /** A process by its next Redis command, with the local variables it still needs. */
  datatype Proc =
    // claim: ZRANGEBYSCORE, then ZREM / ZADD / DEL for every expired slot, ZPOPMIN, ZADD, SET
    | Scan(id: InstanceId, now: nat, ttl: nat)
    | SweepRem(id: InstanceId, now: nat, ttl: nat, todo: seq<Member>)
    | SweepAdd(id: InstanceId, now: nat, ttl: nat, todo: seq<Member>)
    | SweepDel(id: InstanceId, now: nat, ttl: nat, todo: seq<Member>)
    | Pop(id: InstanceId, now: nat, ttl: nat)
    | PutLease(id: InstanceId, now: nat, ttl: nat, slot: Member)
    | PutOwner(id: InstanceId, slot: Member)
    // renew: GET, ZADD
    | RenewGet(id: InstanceId, slot: Member, ttl: nat)
    | RenewPut(id: InstanceId, slot: Member, ttl: nat)
    // release: GET, DEL, ZREM, ZADD; the daemon's release_slot starts at DEL
    | ReleaseGet(id: InstanceId, slot: Member)
    | ReleaseDel(id: InstanceId, slot: Member, now: nat)
    | ReleaseRem(id: InstanceId, slot: Member, now: nat)
    | ReleaseAdd(id: InstanceId, slot: Member, now: nat)
    // init: ZSCORE, ZADD NX for every slot
    | InitCheck(next: nat, max: nat, added: nat)
    | InitAdd(next: nat, max: nat, added: nat)
    // over
    | Finished(reply: Reply)
    | Crashed

  /** Where a command begins; `now` is read before the first Redis command. */
  predicate Initial(p: Proc)
  {
    match p
    case Scan(_, _, _) => true
    case RenewGet(_, _, _) => true
    case ReleaseGet(_, _) => true
    case ReleaseDel(_, _, _) => true  // release_slot of the cleanup daemon
    case InitCheck(next, max, added) => next <= max && added == 0
    case _ => false
  }

  predicate Over(p: Proc) { p.Finished? || p.Crashed? }

  function SweepFrom(id: InstanceId, now: nat, ttl: nat, todo: seq<Member>): Proc
  {
    if todo == [] then Pop(id, now, ttl) else SweepRem(id, now, ttl, todo)
  }

  function InitFrom(next: nat, max: nat, added: nat): Proc
  {
    if next <= max then InitCheck(next, max, added) else Finished(Added(added))
  }

  predicate TodoLeft(p: Proc)
  {
    p.SweepRem? || p.SweepAdd? || p.SweepDel? ==> p.todo != []
  }

  /** One Redis command of one process. `clock` is what the process reads if it needs the time. */
  ghost function Command(st: Store, p: Proc, clock: nat): (Store, Proc)
    requires TodoLeft(p)
  {
    match p
    case Scan(id, now, ttl) => (st, SweepFrom(id, now, ttl, Sorted(Expired(st, now))))
    case SweepRem(id, now, ttl, todo) => (st.(leases := st.leases - {todo[0]}), SweepAdd(id, now, ttl, todo))
    case SweepAdd(id, now, ttl, todo) => (st.(available := st.available[todo[0] := now]), SweepDel(id, now, ttl, todo))
    case SweepDel(id, now, ttl, todo) => (st.(owner := st.owner - {todo[0]}), SweepFrom(id, now, ttl, todo[1..]))
    case Pop(id, now, ttl) =>
      if st.available == map[] then (st, Finished(Exhausted)) else
        var s := Least(st.available);
        (st.(available := st.available - {s}), PutLease(id, now, ttl, s))
    case PutLease(id, now, ttl, slot) => (st.(leases := st.leases[slot := now + ttl]), PutOwner(id, slot))
    case PutOwner(id, slot) => (st.(owner := st.owner[slot := id]), Finished(Claimed(slot)))
    case RenewGet(id, slot, ttl) => (st, if Owns(st, id, slot) then RenewPut(id, slot, ttl) else Finished(Refused))
    case RenewPut(id, slot, ttl) => (st.(leases := st.leases[slot := clock + ttl]), Finished(Accepted))
    case ReleaseGet(id, slot) => (st, if Owns(st, id, slot) then ReleaseDel(id, slot, clock) else Finished(Refused))
    case ReleaseDel(id, slot, now) => (st.(owner := st.owner - {slot}), ReleaseRem(id, slot, now))
    case ReleaseRem(id, slot, now) => (st.(leases := st.leases - {slot}), ReleaseAdd(id, slot, now))
    case ReleaseAdd(id, slot, now) => (st.(available := st.available[slot := now]), Finished(Accepted))
    case InitCheck(next, max, added) =>
      (st, if Decimal(next) in st.leases then InitFrom(next + 1, max, added) else InitAdd(next, max, added))
    case InitAdd(next, max, added) =>
      if Decimal(next) in st.available then (st, InitFrom(next + 1, max, added))
      else (st.(available := st.available[Decimal(next) := 0]), InitFrom(next + 1, max, added + 1))
    case Finished(_) => (st, p)
    case Crashed => (st, p)
  }

  /** All processes ever started, by process number; numbers are not reused. */
  datatype System = System(store: Store, procs: map<nat, Proc>)

  datatype Event =
    | Start(pid: nat, proc: Proc)
    | Step(pid: nat, clock: nat)
    | Crash(pid: nat)

  ghost predicate Sound(sys: System)
  {
    forall pid :: pid in sys.procs ==> TodoLeft(sys.procs[pid])
  }

  predicate Enabled(sys: System, ev: Event)
  {
    match ev
    case Start(pid, p) => pid !in sys.procs && Initial(p)
    case Step(pid, _) => pid in sys.procs && !Over(sys.procs[pid])
    case Crash(pid) => pid in sys.procs && !Over(sys.procs[pid])
  }

  ghost function Next(sys: System, ev: Event): (sys': System)
    requires Sound(sys) && Enabled(sys, ev)
    ensures Sound(sys')
  {
    match ev
    case Start(pid, p) => sys.(procs := sys.procs[pid := p])
    case Step(pid, clock) =>
      var (st, p) := Command(sys.store, sys.procs[pid], clock);
      System(st, sys.procs[pid := p])
    case Crash(pid) => sys.(procs := sys.procs[pid := Crashed])
  }

  ghost predicate CanRun(sys: System, evs: seq<Event>)
    requires Sound(sys)
    decreases evs
  {
    evs == [] || (Enabled(sys, evs[0]) && CanRun(Next(sys, evs[0]), evs[1..]))
  }

  ghost function RunAll(sys: System, evs: seq<Event>): (sys': System)
    requires Sound(sys) && CanRun(sys, evs)
    ensures Sound(sys')
    decreases evs
  {
    if evs == [] then sys else RunAll(Next(sys, evs[0]), evs[1..])
  }

  // -- no slot is lost -------------------------------------------------------------

  /** The slot a process has taken out of one set and not yet put into another. */
  function InHand(p: Proc): set<Member>
    requires TodoLeft(p)
  {
    match p
    case SweepAdd(_, _, _, todo) => {todo[0]}
    case PutLease(_, _, _, slot) => {slot}
    case ReleaseAdd(_, slot, _) => {slot}
    case _ => {}
  }

  /** `s` is free, leased, or in the hands of an unfinished command. */
  ghost predicate Covered(sys: System, s: Member)
    requires Sound(sys)
  {
    || s in sys.store.available
    || s in sys.store.leases
    || exists pid :: pid in sys.procs && s in InHand(sys.procs[pid])
  }

  /** What a crash takes with it. */
  function LostIn(sys: System, ev: Event): set<Member>
    requires ev.pid in sys.procs ==> TodoLeft(sys.procs[ev.pid])
  {
    if ev.Crash? && ev.pid in sys.procs then InHand(sys.procs[ev.pid]) else {}
  }

  ghost function Lost(sys: System, evs: seq<Event>): set<Member>
    requires Sound(sys) && CanRun(sys, evs)
    decreases evs
  {
    if evs == [] then {} else LostIn(sys, evs[0]) + Lost(Next(sys, evs[0]), evs[1..])
  }

  /** One command moves a slot between the two sets and its own hands, never out of all three. */
  lemma CommandKeepsSlot(st: Store, p: Proc, clock: nat, s: Member)
    requires TodoLeft(p)
    requires s in st.available || s in st.leases || s in InHand(p)
    ensures var (st', p') := Command(st, p, clock);
            TodoLeft(p') && (s in st'.available || s in st'.leases || s in InHand(p'))
  {
  }

  lemma StepKeepsCovered(sys: System, ev: Event, s: Member)
    requires Sound(sys) && Enabled(sys, ev) && Covered(sys, s)
    ensures Covered(Next(sys, ev), s) || s in LostIn(sys, ev)
  {
    var sys' := Next(sys, ev);
    if ev.Step? {
      if s in sys.store.available || s in sys.store.leases || s in InHand(sys.procs[ev.pid]) {
        CommandKeepsSlot(sys.store, sys.procs[ev.pid], ev.clock, s);
        if s !in sys'.store.available && s !in sys'.store.leases {
          assert s in InHand(sys'.procs[ev.pid]);
        }
      } else {
        var pid :| pid in sys.procs && s in InHand(sys.procs[pid]);
        assert pid != ev.pid && sys'.procs[pid] == sys.procs[pid];
      }
    } else if s !in sys.store.available && s !in sys.store.leases {
      var pid :| pid in sys.procs && s in InHand(sys.procs[pid]);
      if pid != ev.pid {
        assert sys'.procs[pid] == sys.procs[pid];
      }
    }
  }

  /**
   Under any interleaving of claims, sweeps, renews, releases, inits and the
   daemon's releases, a slot once in the pool stays free, leased or in the hands
   of an unfinished command; only a crash between a remove and its add loses it.
   */
  lemma {:induction false} NoSlotLost(sys: System, evs: seq<Event>, s: Member)
    requires Sound(sys) && CanRun(sys, evs) && Covered(sys, s)
    ensures Covered(RunAll(sys, evs), s) || s in Lost(sys, evs)
    decreases evs
  {
    if evs != [] {
      StepKeepsCovered(sys, evs[0], s);
      if Covered(Next(sys, evs[0]), s) {
        NoSlotLost(Next(sys, evs[0]), evs[1..], s);
      }
    }
  }

  lemma {:induction false} OverStaysOver(sys: System, evs: seq<Event>, pid: nat)
    requires Sound(sys) && CanRun(sys, evs) && pid in sys.procs && Over(sys.procs[pid])
    ensures pid in RunAll(sys, evs).procs && RunAll(sys, evs).procs[pid] == sys.procs[pid]
    decreases evs
  {
    if evs != [] {
      OverStaysOver(Next(sys, evs[0]), evs[1..], pid);
    }
  }

  predicate InitWillVisit(p: Proc, max: nat, n: nat)
  {
    (p.InitCheck? || p.InitAdd?) && p.max == max && p.next <= n <= max
  }

  lemma InitVisits(sys: System, ev: Event, pid: nat, max: nat, n: nat)
    requires Sound(sys) && Enabled(sys, ev)
    requires pid in sys.procs && InitWillVisit(sys.procs[pid], max, n)
    ensures var sys' := Next(sys, ev);
            && pid in sys'.procs
            && (InitWillVisit(sys'.procs[pid], max, n) || sys'.procs[pid].Crashed? || Covered(sys', Decimal(n)))
  {
  }

  /**
   When an `init` pass completes, every slot of its range is in the pool again,
   whatever earlier crashes lost; only a crash during the pass can lose it anew.
   */
  lemma {:induction false} InitRecovers(sys: System, evs: seq<Event>, pid: nat, max: nat, n: nat)
    requires Sound(sys) && CanRun(sys, evs)
    requires pid in sys.procs && InitWillVisit(sys.procs[pid], max, n)
    requires pid in RunAll(sys, evs).procs && RunAll(sys, evs).procs[pid].Finished?
    ensures Covered(RunAll(sys, evs), Decimal(n)) || Decimal(n) in Lost(sys, evs)
    decreases evs
  {
    if evs != [] {
      var sys' := Next(sys, evs[0]);
      InitVisits(sys, evs[0], pid, max, n);
      if Covered(sys', Decimal(n)) {
        NoSlotLost(sys', evs[1..], Decimal(n));
      } else if sys'.procs[pid].Crashed? {
        OverStaysOver(sys', evs[1..], pid);
      } else {
        InitRecovers(sys', evs[1..], pid, max, n);
      }
    }
  }
}
