/**
 The heartbeat bound against the plain commands as they really run: everybody
 else's Redis commands come between the heartbeat's own one by one. The lease must
 outlast the same gaps; and when the heartbeat begins, no sweep under way may still
 have the slot on its list and no command be at work on it.
 */
module NativeHeartbeat {
  import opened Decimals
  import opened MemberOrder
  import opened SlotStore
  import opened NativeMachine
  import Heartbeat

  /** The processes of all others, and the heartbeat of `me` on `s`, which is not among them. */
  datatype World = World(sys: System, hb: Heartbeat.Phase, now: int)

  datatype Happening =
    | Others(ev: Event)    // one step of anybody else
    | Get                  // GET owner is answered
    | Write(clock: nat)    // ZADD is applied; `clock` was read on this host during the call
    | Reply                // cmd_renew returns Ok
    | Fail                 // cmd_renew returns an IO error
    | Again                // retry delay and reconnection are over
    | Tick                 // interval is over
    | Stop                 // SIGTERM while sleeping

  datatype Timed = Timed(at: int, what: Happening)

  ghost predicate Possible(w: World, what: Happening)
  {
    match what
    case Others(ev) => Sound(w.sys) && Enabled(w.sys, ev)
    case Get => w.hb.Calling?
    case Write(_) => w.hb.Checked?
    case Reply => w.hb.Written?
    case Fail => Heartbeat.InCall(w.hb)
    case Again => w.hb.Backoff?
    case Tick => w.hb.Sleeping?
    case Stop => w.hb.Sleeping?
  }

  ghost function Advance(p: Heartbeat.Params, me: InstanceId, s: Member, w: World, e: Timed): World
    requires Possible(w, e.what)
  {
    match e.what
    case Others(ev) => w.(sys := Next(w.sys, ev), now := e.at)
    case Get =>
      w.(hb := if Owns(w.sys.store, me, s) then Heartbeat.Checked(w.hb.attempt, w.hb.since)
               else Heartbeat.Ended(Heartbeat.NotMine),
         now := e.at)
    case Write(clock) =>
      var st := w.sys.store;
      World(w.sys.(store := st.(leases := st.leases[s := clock + p.ttl])),
            Heartbeat.Written(w.hb.attempt, w.hb.since), e.at)
    case Reply => w.(hb := Heartbeat.Sleeping(e.at), now := e.at)
    case Fail =>
      w.(hb := if w.hb.attempt < p.retries then Heartbeat.Backoff(w.hb.attempt + 1, e.at)
               else Heartbeat.Ended(Heartbeat.OutOfRetries),
         now := e.at)
    case Again => w.(hb := Heartbeat.Calling(w.hb.attempt, e.at), now := e.at)
    case Tick => w.(hb := Heartbeat.Calling(0, e.at), now := e.at)
    case Stop => w.(hb := Heartbeat.Ended(Heartbeat.Sigterm), now := e.at)
  }

  /**
   What the others keep to: a claim's clock leads by no more than allowed when it is
   read, nobody else acts in the name of `me` on `s`, and the daemon does not release `s`.
   */
  predicate FairStart(p: Heartbeat.Params, me: InstanceId, s: Member, proc: Proc, at: int)
  {
    match proc
    case Scan(_, now, _) => now <= at + p.ahead
    case RenewGet(id, slot, _) => !(id == me && slot == s)
    case ReleaseGet(id, slot) => !(id == me && slot == s)
    case ReleaseDel(_, slot, _) => slot != s
    case _ => true
  }

  ghost predicate Allowed(p: Heartbeat.Params, me: InstanceId, s: Member, w: World, e: Timed)
  {
    && Possible(w, e.what) && w.now <= e.at && Heartbeat.Timely(p, w.hb, e.at)
    && (e.what.Others? && e.what.ev.Start? ==> FairStart(p, me, s, e.what.ev.proc, e.at))
    && (e.what.Write? && w.hb.Checked? ==> e.what.clock >= w.hb.since - p.behind)
  }

  ghost predicate CanGo(p: Heartbeat.Params, me: InstanceId, s: Member, w: World, es: seq<Timed>)
    decreases es
  {
    es == [] || (Allowed(p, me, s, w, es[0]) && CanGo(p, me, s, Advance(p, me, s, w, es[0]), es[1..]))
  }

  ghost function Go(p: Heartbeat.Params, me: InstanceId, s: Member, w: World, es: seq<Timed>): World
    requires CanGo(p, me, s, w, es)
    decreases es
  {
    if es == [] then w else Go(p, me, s, Advance(p, me, s, w, es[0]), es[1..])
  }

  // -- the slot as the others see it --------------------------------------------------------------

  /** The process is not about to do anything to `s`. */
  predicate Clear(p: Proc, me: InstanceId, s: Member)
  {
    match p
    case SweepRem(_, _, _, todo) => s !in todo
    case SweepAdd(_, _, _, todo) => s !in todo
    case SweepDel(_, _, _, todo) => s !in todo
    case PutLease(_, _, _, slot) => slot != s
    case PutOwner(_, slot) => slot != s
    case RenewGet(id, slot, _) => !(id == me && slot == s)
    case RenewPut(_, slot, _) => slot != s
    case ReleaseGet(id, slot) => !(id == me && slot == s)
    case ReleaseDel(_, slot, _) => slot != s
    case ReleaseRem(_, slot, _) => slot != s
    case ReleaseAdd(_, slot, _) => slot != s
    case InitAdd(next, _, _) => Decimal(next) != s
    case _ => true
  }

  /** `me` holds `s`, it is not free, and no process is about to do anything to it. */
  ghost predicate Guarded(sys: System, me: InstanceId, s: Member)
  {
    && s !in sys.store.available && s in sys.store.leases && Owns(sys.store, me, s)
    && forall pid :: pid in sys.procs ==> Clear(sys.procs[pid], me, s)
  }

  /** One Redis command of another process, a claim's scan coming before the lease runs out. */
  lemma CommandSpares(st: Store, p: Proc, clock: nat, me: InstanceId, s: Member)
    requires TodoLeft(p) && Clear(p, me, s)
    requires s !in st.available && s in st.leases && Owns(st, me, s)
    requires p.Scan? ==> p.now < st.leases[s]
    ensures var (st', p') := Command(st, p, clock);
            && Clear(p', me, s)
            && s !in st'.available && s in st'.leases && Owns(st', me, s) && st'.leases[s] == st.leases[s]
            && (p' == Finished(Claimed(s)) ==> p == p')
  {
    hide Decimal, Sorted;
    if p.Scan? {
      SortedLists(Expired(st, p.now));
    }
  }

  lemma EventSpares(sys: System, ev: Event, me: InstanceId, s: Member)
    requires Sound(sys) && Enabled(sys, ev) && Guarded(sys, me, s)
    requires ev.Start? ==> Clear(ev.proc, me, s)
    requires ev.Step? && sys.procs[ev.pid].Scan? ==> sys.procs[ev.pid].now < sys.store.leases[s]
    ensures Guarded(Next(sys, ev), me, s) && Next(sys, ev).store.leases[s] == sys.store.leases[s]
    ensures Told(Next(sys, ev), s) <= Told(sys, s)
  {
    hide Command, Clear, Decimal;
    match ev {
      case Start(_, _) =>
      case Step(pid, clock) => CommandSpares(sys.store, sys.procs[pid], clock, me, s);
      case Crash(_) => CrashedIsClear(me, s);
    }
  }

  lemma CrashedIsClear(me: InstanceId, s: Member)
    ensures Clear(Crashed, me, s)
  {
  }

  /** The processes that have been told `s`. */
  function Told(sys: System, s: Member): set<nat>
  {
    set pid | pid in sys.procs && sys.procs[pid] == Finished(Claimed(s))
  }

  // -- the invariant ---------------------------------------------------------------------------------

  /** Scans still to come have clocks within their skew. */
  ghost predicate ScansWithin(p: Heartbeat.Params, w: World)
  {
    forall pid :: pid in w.sys.procs && w.sys.procs[pid].Scan? ==> w.sys.procs[pid].now <= w.now + p.ahead
  }

  /** `me` holds `s`, guarded, with a lease written by a renew call that started at `base` or later. */
  ghost predicate Alive(p: Heartbeat.Params, me: InstanceId, s: Member, w: World, base: int)
  {
    && Sound(w.sys) && Guarded(w.sys, me, s) && ScansWithin(p, w)
    && w.sys.store.leases[s] >= base - p.behind + p.ttl && Heartbeat.OnTime(p, w.hb, base)
  }

  lemma OthersSpare(p: Heartbeat.Params, me: InstanceId, s: Member, w: World, base: int, e: Timed)
    requires Heartbeat.LongEnough(p) && Alive(p, me, s, w, base) && Allowed(p, me, s, w, e) && e.what.Others?
    ensures Alive(p, me, s, Advance(p, me, s, w, e), base)
    ensures Told(Advance(p, me, s, w, e).sys, s) <= Told(w.sys, s)
  {
    hide Command, Heartbeat.OnTime, Heartbeat.Timely, Decimal;
    Heartbeat.NotLate(p, w.hb, base, e.at);
    EventSpares(w.sys, e.what.ev, me, s);
    var sys' := Next(w.sys, e.what.ev);
    forall pid | pid in sys'.procs && sys'.procs[pid].Scan? ensures sys'.procs[pid].now <= e.at + p.ahead {
      if e.what.ev.Step? && pid == e.what.ev.pid {
        NeverBackToScan(w.sys.store, w.sys.procs[pid], e.what.ev.clock);
      }
    }
  }

  lemma NeverBackToScan(st: Store, p: Proc, clock: nat)
    requires TodoLeft(p)
    ensures !Command(st, p, clock).1.Scan?
  {
  }

  lemma OwnStepStaysAlive(p: Heartbeat.Params, me: InstanceId, s: Member, w: World, base: int, e: Timed)
    returns (base': int)
    requires Alive(p, me, s, w, base) && Allowed(p, me, s, w, e) && !e.what.Others?
    ensures var w' := Advance(p, me, s, w, e);
            && (Alive(p, me, s, w', base') || (w'.hb.Ended? && w'.hb.why != Heartbeat.NotMine))
            && w'.sys.procs == w.sys.procs
  {
    hide Clear, Decimal;
    base' := base;
    match e.what {
      case Write(clock) =>
        base' := w.hb.since;
      case Fail =>
        if w.hb.Written? {
          Heartbeat.ScaleMonotone(0, w.hb.attempt, Heartbeat.Attempt(p));
        }
      case Again =>
        var a := Heartbeat.Attempt(p);
        assert w.hb.attempt * a == (w.hb.attempt - 1) * a + a;
      case _ =>
    }
  }

  lemma StepStaysAlive(p: Heartbeat.Params, me: InstanceId, s: Member, w: World, base: int, e: Timed)
    returns (base': int)
    requires Heartbeat.LongEnough(p) && Alive(p, me, s, w, base) && Allowed(p, me, s, w, e)
    ensures var w' := Advance(p, me, s, w, e);
            && (Alive(p, me, s, w', base') || (w'.hb.Ended? && w'.hb.why != Heartbeat.NotMine))
            && Told(w'.sys, s) <= Told(w.sys, s)
  {
    hide Alive, Allowed, Possible;
    if e.what.Others? {
      base' := base;
      OthersSpare(p, me, s, w, base, e);
    } else {
      base' := OwnStepStaysAlive(p, me, s, w, base, e);
    }
  }

  lemma {:induction false} EndedStays(p: Heartbeat.Params, me: InstanceId, s: Member, w: World, es: seq<Timed>)
    requires w.hb.Ended? && CanGo(p, me, s, w, es)
    ensures Go(p, me, s, w, es).hb == w.hb
    decreases es
  {
    if es != [] {
      EndedStays(p, me, s, Advance(p, me, s, w, es[0]), es[1..]);
    }
  }

  lemma {:induction false} RunStaysAlive(p: Heartbeat.Params, me: InstanceId, s: Member, w: World, base: int,
                                         es: seq<Timed>)
    returns (base': int)
    requires Heartbeat.LongEnough(p) && Alive(p, me, s, w, base) && CanGo(p, me, s, w, es)
    ensures var w' := Go(p, me, s, w, es);
            && (w'.hb.Ended? ==> w'.hb.why != Heartbeat.NotMine)
            && (!w'.hb.Ended? ==> Alive(p, me, s, w', base') && Told(w'.sys, s) <= Told(w.sys, s))
    decreases es
  {
    base' := base;
    if es == [] {
      AliveRuns(p, me, s, w, base);
    } else {
      hide Alive, Advance, Allowed, Told;
      var w1 := Advance(p, me, s, w, es[0]);
      base' := StepStaysAlive(p, me, s, w, base, es[0]);
      if w1.hb.Ended? {
        EndedStays(p, me, s, w1, es[1..]);
        EndedIsNotAlive(p, me, s, w1, base');
      } else {
        base' := RunStaysAlive(p, me, s, w1, base', es[1..]);
      }
    }
  }

  lemma AliveRuns(p: Heartbeat.Params, me: InstanceId, s: Member, w: World, base: int)
    requires Alive(p, me, s, w, base)
    ensures !w.hb.Ended?
  {
  }

  lemma EndedIsNotAlive(p: Heartbeat.Params, me: InstanceId, s: Member, w: World, base: int)
    requires w.hb.Ended?
    ensures !Alive(p, me, s, w, base)
  {
  }

  /**
   The heartbeat has just renewed for the first time, with a call that started at
   `base`; the slot is guarded: no sweep list names it and no command works on it.
   */
  ghost predicate JustRenewed(p: Heartbeat.Params, me: InstanceId, s: Member, w: World, base: int)
  {
    && Sound(w.sys) && Guarded(w.sys, me, s) && ScansWithin(p, w)
    && w.sys.store.leases[s] >= base - p.behind + p.ttl
    && w.hb.Written? && w.hb.attempt <= p.retries && w.hb.since == base
  }

  /**
   With a lease longer than every gap, against any interleaving of the others' Redis
   commands, `init` and crashes included: as long as the heartbeat runs it holds the
   slot, the slot stays out of the free set and off every sweep list, and no process
   is told it; and the heartbeat never ends because the slot is not its own.
   */
  lemma {:induction false} KeepsSlotInterleaved(p: Heartbeat.Params, me: InstanceId, s: Member, w: World, base: int,
                                                es: seq<Timed>)
    requires Heartbeat.LongEnough(p) && JustRenewed(p, me, s, w, base) && CanGo(p, me, s, w, es)
    ensures var w' := Go(p, me, s, w, es);
            && w'.hb != Heartbeat.Ended(Heartbeat.NotMine)
            && (!w'.hb.Ended? ==> Guarded(w'.sys, me, s) && Told(w'.sys, s) <= Told(w.sys, s))
  {
    var base' := RunStaysAlive(p, me, s, w, base, es);
  }

  // -- the condition on sweep lists is needed ---------------------------------------------------------

  lemma {:induction false} First(p: Heartbeat.Params, me: InstanceId, s: Member, w: World, e: Timed, es: seq<Timed>)
    requires Allowed(p, me, s, w, e) && CanGo(p, me, s, Advance(p, me, s, w, e), es)
    ensures CanGo(p, me, s, w, [e] + es) && Go(p, me, s, w, [e] + es) == Go(p, me, s, Advance(p, me, s, w, e), es)
  {
    hide Allowed, Advance, Possible;
    assert ([e] + es)[1..] == es;
  }

  /** The rest of the sweep of `s`, at one moment. */
  lemma SweepGoesOn(p: Heartbeat.Params, me: InstanceId, s: Member, w: World, pid: nat)
    returns (es: seq<Timed>, w': World)
    requires Sound(w.sys) && pid in w.sys.procs && w.sys.procs[pid].SweepRem? && w.sys.procs[pid].todo == [s]
    requires Heartbeat.Timely(p, w.hb, w.now)
    ensures w'.hb == w.hb && w'.now == w.now && w'.sys.store == Freed(w.sys.store, s, w.sys.procs[pid].now)
    ensures Sound(w'.sys)
    ensures forall more :: CanGo(p, me, s, w', more) ==>
              CanGo(p, me, s, w, es + more) && Go(p, me, s, w, es + more) == Go(p, me, s, w', more)
  {
    hide Sorted, Least, Expired, Decimal, CanGo, Go, Heartbeat.Timely;
    var e := Timed(w.now, Others(Step(pid, 0)));
    var w1 := Advance(p, me, s, w, e);
    var w2 := Advance(p, me, s, w1, e);
    w' := Advance(p, me, s, w2, e);
    es := [e, e, e];
    forall more | CanGo(p, me, s, w', more)
      ensures CanGo(p, me, s, w, es + more) && Go(p, me, s, w, es + more) == Go(p, me, s, w', more)
    {
      First(p, me, s, w2, e, more);
      First(p, me, s, w1, e, [e] + more);
      First(p, me, s, w, e, [e] + ([e] + more));
      assert es + more == [e] + ([e] + ([e] + more));
    }
  }

  /**
   A sweep list that still names the slot takes it, however long the lease: from a
   first renew that satisfies everything else, within all time bounds, the heartbeat
   ends because the slot is no longer its own.
   */
  lemma StaleSweepTakesSlot(p: Heartbeat.Params, me: InstanceId, s: Member, w: World, pid: nat) returns (es: seq<Timed>)
    requires Sound(w.sys) && pid in w.sys.procs && w.sys.procs[pid].SweepRem? && w.sys.procs[pid].todo == [s]
    requires w.hb.Written? && w.hb.since == w.now
    ensures CanGo(p, me, s, w, es) && Go(p, me, s, w, es).hb == Heartbeat.Ended(Heartbeat.NotMine)
  {
    hide Command, Decimal, CanGo, Go;
    var w1;
    es, w1 := SweepGoesOn(p, me, s, w, pid);
    var reply, tick, get := Timed(w.now, Reply), Timed(w.now, Tick), Timed(w.now, Get);
    var w2 := Advance(p, me, s, w1, reply);
    var w3 := Advance(p, me, s, w2, tick);
    var w4 := Advance(p, me, s, w3, get);
    NoSteps(p, me, s, w4);
    First(p, me, s, w3, get, []);
    First(p, me, s, w2, tick, [get] + []);
    First(p, me, s, w1, reply, [tick] + ([get] + []));
    es := es + ([reply] + ([tick] + ([get] + [])));
  }

  lemma NoSteps(p: Heartbeat.Params, me: InstanceId, s: Member, w: World)
    ensures CanGo(p, me, s, w, []) && Go(p, me, s, w, []) == w
  {
  }
}
