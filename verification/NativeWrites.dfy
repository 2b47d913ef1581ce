/**
 What a plain command writes into Redis, write by write and in which order, while
 other processes run in between: the states a crash can leave behind.
 */
module NativeWrites {
  import opened Options
  import opened MemberOrder
  import opened SlotStore
  import opened NativeMachine

  datatype Write =
    | AddLease(slot: Member, expiry: int)     // ZADD slots:leases
    | RemLease(slot: Member)                  // ZREM slots:leases
    | AddFree(slot: Member, since: int)       // ZADD slots:available
    | PopFree(slot: Member)                   // ZPOPMIN slots:available with its reply
    | SetOwner(slot: Member, id: InstanceId)  // SET slot:owner
    | DelOwner(slot: Member)                  // DEL slot:owner

  function Written(st: Store, w: Write): Store
  {
    match w
    case AddLease(slot, expiry) => st.(leases := st.leases[slot := expiry])
    case RemLease(slot) => st.(leases := st.leases - {slot})
    case AddFree(slot, since) => st.(available := st.available[slot := since])
    case PopFree(slot) => st.(available := st.available - {slot})
    case SetOwner(slot, id) => st.(owner := st.owner[slot := id])
    case DelOwner(slot) => st.(owner := st.owner - {slot})
  }

  /** One step: a write, or a command that only reads. */
  ghost predicate Does(before: Store, w: Option<Write>, after: Store)
  {
    match w
    case None => after == before
    case Some(w) => (w.PopFree? ==> w.slot in before.available) && after == Written(before, w)
  }

  /** The steps of process `pid` in this run are `steps`, one by one. */
  ghost predicate Issues(sys: System, evs: seq<Event>, pid: nat, steps: seq<Option<Write>>)
    requires Sound(sys) && CanRun(sys, evs)
    decreases evs
  {
    if evs == [] then steps == []
    else
      var sys' := Next(sys, evs[0]);
      if evs[0].Step? && evs[0].pid == pid then
        steps != [] && Does(sys.store, steps[0], sys'.store) && Issues(sys', evs[1..], pid, steps[1..])
      else Issues(sys', evs[1..], pid, steps)
  }

  // -- the commands as lists of steps --------------------------------------------------------

  function SweepSteps(todo: seq<Member>, now: nat): seq<Option<Write>>
  {
    if todo == [] then []
    else [Some(RemLease(todo[0])), Some(AddFree(todo[0], now)), Some(DelOwner(todo[0]))] + SweepSteps(todo[1..], now)
  }

  /** From the pop on; `told` is the slot popped, if any. */
  function PopSteps(told: Option<Member>, id: InstanceId, now: nat, ttl: nat): seq<Option<Write>>
  {
    match told
    case None => [None]
    case Some(slot) => [Some(PopFree(slot)), Some(AddLease(slot, now + ttl)), Some(SetOwner(slot, id))]
  }

  function ReleaseSteps(slot: Member, now: nat): seq<Option<Write>>
  {
    [Some(DelOwner(slot)), Some(RemLease(slot)), Some(AddFree(slot, now))]
  }

  /** Behind the turn of the sweep that deals with `todo[0]`. */
  function Later(id: InstanceId, now: nat, ttl: nat, todo: seq<Member>, told: Option<Member>): seq<Option<Write>>
    requires todo != []
  {
    SweepSteps(todo[1..], now) + PopSteps(told, id, now, ttl)
  }

  /** The steps a claim behind its scan, or a release behind its check, has still before it. */
  function Ahead(p: Proc, told: Option<Member>): seq<Option<Write>>
    requires TodoLeft(p)
  {
    match p
    case SweepRem(id, now, ttl, todo) =>
      [Some(RemLease(todo[0])), Some(AddFree(todo[0], now)), Some(DelOwner(todo[0]))] + Later(id, now, ttl, todo, told)
    case SweepAdd(id, now, ttl, todo) =>
      [Some(AddFree(todo[0], now)), Some(DelOwner(todo[0]))] + Later(id, now, ttl, todo, told)
    case SweepDel(id, now, ttl, todo) => [Some(DelOwner(todo[0]))] + Later(id, now, ttl, todo, told)
    case Pop(id, now, ttl) => PopSteps(told, id, now, ttl)
    case PutLease(id, now, ttl, slot) => PopSteps(Some(slot), id, now, ttl)[1..]
    case PutOwner(id, slot) => [Some(SetOwner(slot, id))]
    case ReleaseDel(_, slot, now) => ReleaseSteps(slot, now)
    case ReleaseRem(_, slot, now) => ReleaseSteps(slot, now)[1..]
    case ReleaseAdd(_, slot, now) => ReleaseSteps(slot, now)[2..]
    case _ => []
  }

  predicate Decided(p: Proc)
  {
    !(p.Scan? || p.RenewGet? || p.RenewPut? || p.ReleaseGet? || p.InitCheck? || p.InitAdd?)
  }

  predicate Claims(p: Proc)
  {
    match p
    case Finished(reply) => reply.Claimed? || reply.Exhausted?
    case ReleaseDel(_, _, _) => false
    case ReleaseRem(_, _, _) => false
    case ReleaseAdd(_, _, _) => false
    case _ => Decided(p)
  }

  predicate Releases(p: Proc)
  {
    p.ReleaseDel? || p.ReleaseRem? || p.ReleaseAdd? || p == Finished(Accepted) || p.Crashed?
  }

  /** `told` is what the process knows of its pop. */
  predicate Agrees(told: Option<Member>, p: Proc)
  {
    match p
    case PutLease(_, _, _, slot) => told == Some(slot)
    case PutOwner(_, slot) => told == Some(slot)
    case Finished(Claimed(slot)) => told == Some(slot)
    case Finished(Exhausted) => told == None
    case _ => true
  }

  function Known(p: Proc): (told: Option<Member>)
    ensures Agrees(told, p)
  {
    match p
    case PutLease(_, _, _, slot) => Some(slot)
    case PutOwner(_, slot) => Some(slot)
    case Finished(Claimed(slot)) => Some(slot)
    case _ => None
  }

  lemma DoesNext(st: Store, p: Proc, clock: nat, told: Option<Member>)
    requires TodoLeft(p) && Decided(p) && !Over(p)
    requires Agrees(told, Command(st, p, clock).1)
    ensures Agrees(told, p) && Ahead(p, told) != [] && Does(st, Ahead(p, told)[0], Command(st, p, clock).0)
  {
  }

  lemma GoesOn(st: Store, p: Proc, clock: nat, told: Option<Member>)
    requires TodoLeft(p) && Decided(p) && !Over(p)
    requires Agrees(told, Command(st, p, clock).1) && Ahead(p, told) != []
    ensures TodoLeft(Command(st, p, clock).1) && Ahead(Command(st, p, clock).1, told) == Ahead(p, told)[1..]
  {
    hide Ahead, Command;
    if p.SweepRem? || p.SweepAdd? || p.SweepDel? {
      SweepGoesOn(st, p, clock, told);
    } else {
      RestGoesOn(st, p, clock, told);
    }
  }

  lemma SweepGoesOn(st: Store, p: Proc, clock: nat, told: Option<Member>)
    requires p.SweepRem? || p.SweepAdd? || p.SweepDel?
    requires TodoLeft(p) && Ahead(p, told) != []
    ensures TodoLeft(Command(st, p, clock).1) && Ahead(Command(st, p, clock).1, told) == Ahead(p, told)[1..]
  {
    hide SweepSteps, PopSteps, Later, SweepFrom, Command, Ahead;
    var id, now, ttl, todo := p.id, p.now, p.ttl, p.todo;
    if p.SweepDel? {
      SweepAhead(id, now, ttl, todo[1..], told);
      SweepAhead(id, now, ttl, todo, told);
      DelAhead(st, id, now, ttl, todo, clock, told);
    } else {
      TurnAhead(st, p, clock, told);
    }
  }

  lemma DelAhead(st: Store, id: InstanceId, now: nat, ttl: nat, todo: seq<Member>, clock: nat, told: Option<Member>)
    requires todo != []
    ensures Command(st, SweepDel(id, now, ttl, todo), clock).1 == SweepFrom(id, now, ttl, todo[1..])
    ensures Ahead(SweepDel(id, now, ttl, todo), told)[1..] == Later(id, now, ttl, todo, told)
  {
    hide SweepSteps, PopSteps, Later, SweepFrom;
  }

  lemma TurnAhead(st: Store, p: Proc, clock: nat, told: Option<Member>)
    requires (p.SweepRem? || p.SweepAdd?) && TodoLeft(p) && Ahead(p, told) != []
    ensures TodoLeft(Command(st, p, clock).1) && Ahead(Command(st, p, clock).1, told) == Ahead(p, told)[1..]
  {
    hide SweepSteps, PopSteps, Later, SweepFrom;
  }

  lemma RestGoesOn(st: Store, p: Proc, clock: nat, told: Option<Member>)
    requires Decided(p) && !Over(p) && !(p.SweepRem? || p.SweepAdd? || p.SweepDel?)
    requires Agrees(told, Command(st, p, clock).1) && Ahead(p, told) != []
    ensures TodoLeft(Command(st, p, clock).1) && Ahead(Command(st, p, clock).1, told) == Ahead(p, told)[1..]
  {
    hide SweepSteps, Later;
  }

  lemma {:induction false} SweepAhead(id: InstanceId, now: nat, ttl: nat, todo: seq<Member>, told: Option<Member>)
    ensures TodoLeft(SweepFrom(id, now, ttl, todo))
    ensures Ahead(SweepFrom(id, now, ttl, todo), told) == SweepSteps(todo, now) + PopSteps(told, id, now, ttl)
    ensures todo != [] ==>
            Later(id, now, ttl, todo, told) == SweepSteps(todo[1..], now) + PopSteps(told, id, now, ttl)
  {
    var rest := PopSteps(told, id, now, ttl);
    if todo == [] {
      assert SweepSteps(todo, now) + rest == rest;
    } else {
      var turn := [Some(RemLease(todo[0])), Some(AddFree(todo[0], now)), Some(DelOwner(todo[0]))];
      var others := SweepSteps(todo[1..], now);
      assert turn + (others + rest) == (turn + others) + rest;
    }
  }

  lemma StepKeepsKind(st: Store, p: Proc, clock: nat)
    requires TodoLeft(p) && Decided(p)
    ensures var p' := Command(st, p, clock).1;
            Decided(p') && (Claims(p) ==> Claims(p')) && (Releases(p) ==> Releases(p'))
  {
  }

  /** However the others run in between, a process does the steps it has before it, in their order. */
  lemma {:induction false} GoesAhead(sys: System, evs: seq<Event>, pid: nat)
    returns (told: Option<Member>, steps: seq<Option<Write>>)
    requires Sound(sys) && CanRun(sys, evs) && pid in sys.procs && Decided(sys.procs[pid])
    ensures Agrees(told, sys.procs[pid]) && Issues(sys, evs, pid, steps) && steps <= Ahead(sys.procs[pid], told)
    ensures var sys' := RunAll(sys, evs);
            && pid in sys'.procs && Agrees(told, sys'.procs[pid])
            && (Claims(sys.procs[pid]) ==> Claims(sys'.procs[pid]))
            && (Releases(sys.procs[pid]) ==> Releases(sys'.procs[pid]))
            && (sys'.procs[pid].Finished? ==> steps == Ahead(sys.procs[pid], told))
    decreases evs
  {
    hide Ahead, Command, Decided, Claims, Releases;
    var p := sys.procs[pid];
    if evs == [] {
      told, steps := Known(p), [];
      if p.Finished? {
        NothingAhead(p, told);
      }
    } else {
      var sys' := Next(sys, evs[0]);
      if evs[0].pid != pid {
        told, steps := GoesAhead(sys', evs[1..], pid);
      } else if evs[0].Crash? {
        CrashedKind();
        told, steps := GoesAhead(sys', evs[1..], pid);
        NothingAhead(Crashed, told);
        told := Known(p);
        OverStaysOver(sys', evs[1..], pid);
      } else {
        var later;
        StepKeepsKind(sys.store, p, evs[0].clock);
        told, later := GoesAhead(sys', evs[1..], pid);
        DoesNext(sys.store, p, evs[0].clock, told);
        GoesOn(sys.store, p, evs[0].clock, told);
        steps := [Ahead(p, told)[0]] + later;
        assert steps[1..] == later;
        assert Ahead(p, told) == [Ahead(p, told)[0]] + Ahead(sys'.procs[pid], told);
      }
    }
  }

  lemma CrashedKind()
    ensures Decided(Crashed) && Claims(Crashed) && Releases(Crashed)
  {
  }

  lemma NothingAhead(p: Proc, told: Option<Member>)
    requires Over(p)
    ensures Ahead(p, told) == []
  {
  }

  // -- a claim and a release from their beginning ------------------------------------------------

  /**
   A claim that gets to its end reads the expired leases once, then for each of them
   removes the lease, frees the slot and deletes the owner, then pops, leases and owns
   the slot it tells; one that is stopped has done the first of these steps.
   */
  lemma {:induction false} ClaimInOrder(sys: System, evs: seq<Event>, pid: nat, id: InstanceId, now: nat, ttl: nat)
    returns (told: Option<Member>, steps: seq<Option<Write>>)
    requires Sound(sys) && CanRun(sys, evs) && pid in sys.procs && sys.procs[pid] == Scan(id, now, ttl)
    requires evs != [] && evs[0].Step? && evs[0].pid == pid
    ensures var todo := Sorted(Expired(sys.store, now));
            var all := [None] + SweepSteps(todo, now) + PopSteps(told, id, now, ttl);
            var end := RunAll(sys, evs).procs;
            && Issues(sys, evs, pid, steps) && steps <= all
            && pid in end
            && (end[pid].Finished? ==>
                  steps == all && end[pid].reply == if told.None? then Exhausted else Claimed(told.value))
  {
    hide Ahead, SweepSteps, PopSteps, Sorted, Expired;
    var todo := Sorted(Expired(sys.store, now));
    var later;
    told, later := GoesAhead(Next(sys, evs[0]), evs[1..], pid);
    SweepAhead(id, now, ttl, todo, told);
    steps := [None] + later;
  }

  /**
   A release that finds its own name deletes the owner, removes the lease and frees
   the slot, dated when it found it; one that does not only reads.
   */
  lemma {:induction false} ReleaseInOrder(sys: System, evs: seq<Event>, pid: nat, id: InstanceId, slot: Member)
    returns (steps: seq<Option<Write>>)
    requires Sound(sys) && CanRun(sys, evs) && pid in sys.procs && sys.procs[pid] == ReleaseGet(id, slot)
    requires evs != [] && evs[0].Step? && evs[0].pid == pid
    ensures var owned := slot in sys.store.owner && sys.store.owner[slot] == id;
            var all := [None] + if owned then ReleaseSteps(slot, evs[0].clock) else [];
            var end := RunAll(sys, evs).procs;
            && Issues(sys, evs, pid, steps) && steps <= all
            && pid in end
            && (end[pid].Finished? ==> steps == all && end[pid].reply == if owned then Accepted else Refused)
  {
    var told, later;
    told, later := GoesAhead(Next(sys, evs[0]), evs[1..], pid);
    steps := [None] + later;
    if !Owns(sys.store, id, slot) {
      OverStaysOver(Next(sys, evs[0]), evs[1..], pid);
    }
  }

  /** The cleanup daemon's release: the same three steps, with no check before them. */
  lemma {:induction false} DaemonInOrder(sys: System, evs: seq<Event>, pid: nat, id: InstanceId, slot: Member, now: nat)
    returns (steps: seq<Option<Write>>)
    requires Sound(sys) && CanRun(sys, evs) && pid in sys.procs && sys.procs[pid] == ReleaseDel(id, slot, now)
    ensures Issues(sys, evs, pid, steps) && steps <= ReleaseSteps(slot, now)
    ensures var end := RunAll(sys, evs).procs;
            pid in end && (end[pid].Finished? ==> steps == ReleaseSteps(slot, now) && end[pid].reply == Accepted)
  {
    var told;
    told, steps := GoesAhead(sys, evs, pid);
  }
}
