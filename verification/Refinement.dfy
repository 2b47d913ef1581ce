/**
 The interleaved plain commands refine the atomic Lua machine. Each command has
 one Redis command at which it takes effect: a claim its ZPOPMIN, a renew its
 ZADD, a release its last ZADD, and a refusal its GET.
 */
module Refinement {
  import opened Options
  import opened MemberOrder
  import opened SlotStore
  import opened AtomicRuns
  import opened NativeMachine

  // -- the regime ------------------------------------------------------------------

  predicate HasId(p: Proc)
  {
    !Over(p) && !p.InitCheck? && !p.InitAdd?
  }

  function IdOf(p: Proc): InstanceId
    requires HasId(p)
  {
    p.id
  }

  /** `id` has no unfinished command; a command stopped half way stays unfinished for ever. */
  ghost predicate Idle(procs: map<nat, Proc>, id: InstanceId)
  {
    forall q :: q in procs && HasId(procs[q]) ==> IdOf(procs[q]) != id
  }

  /** No lease has run out at time `now`, counting the leases whose command is still under way. */
  ghost predicate NoneExpired(abs: Store, now: nat)
  {
    forall s :: s in abs.leases ==> now < abs.leases[s]
  }

  /**
   When the plain commands are as good as the scripts: one command at a time per
   instance, no `init` and no daemon at work, and no lease expired at a claim's
   clock. `abs` is the store the atomic machine has at this point of the run.
   */
  ghost predicate Orderly(sys: System, abs: Store, ev: Event)
  {
    match ev
    case Start(_, p) => (p.Scan? || p.RenewGet? || p.ReleaseGet?) && Idle(sys.procs, p.id)
    case Step(pid, _) =>
      pid in sys.procs && (sys.procs[pid].Scan? || sys.procs[pid].Pop?) ==> NoneExpired(abs, sys.procs[pid].now)
    case Crash(_) => false
  }

  /** The atomic operation that takes effect with this event, if there is one. */
  ghost function Effect(sys: System, ev: Event): Option<Op>
  {
    if !(ev.Step? && ev.pid in sys.procs) then None else
      match sys.procs[ev.pid]
      case Pop(id, now, ttl) => Some(Claim(id, now, ttl))
      case RenewGet(id, slot, ttl) =>
        if Owns(sys.store, id, slot) then None else Some(Renew(id, slot, ev.clock, ttl))
      case RenewPut(id, slot, ttl) => Some(Renew(id, slot, ev.clock, ttl))
      case ReleaseGet(id, slot) =>
        if Owns(sys.store, id, slot) then None else Some(Release(id, slot, ev.clock))
      case ReleaseAdd(id, slot, now) => Some(Release(id, slot, now))
      case _ => None
  }

  ghost function After(abs: Store, op: Option<Op>): Store
  {
    match op
    case None => abs
    case Some(o) => Apply(abs, o).0
  }

  ghost predicate OrderlyRun(sys: System, abs: Store, evs: seq<Event>)
    requires Sound(sys) && CanRun(sys, evs)
    decreases evs
  {
    evs == [] ||
    (Orderly(sys, abs, evs[0]) && OrderlyRun(Next(sys, evs[0]), After(abs, Effect(sys, evs[0])), evs[1..]))
  }

  /** The reply a process has settled on, once its command has taken effect. */
  function Settled(p: Proc): Option<Reply>
  {
    match p
    case PutLease(_, _, _, slot) => Some(Claimed(slot))
    case PutOwner(_, slot) => Some(Claimed(slot))
    case Finished(reply) => Some(reply)
    case _ => None
  }

  // -- the simulation relation -------------------------------------------------------

  /** The lease (or owner record) of `s` that the atomic store has and Redis does not: a command in between. */
  predicate LeaseInHand(p: Proc, s: Member)
  {
    (p.PutLease? || p.ReleaseAdd?) && p.slot == s
  }

  predicate OwnerInHand(p: Proc, s: Member)
  {
    (p.PutLease? || p.PutOwner? || p.ReleaseRem? || p.ReleaseAdd?) && p.slot == s
  }

  /** Commands past their ownership check (or their pop), on slot `s`. */
  predicate WorksOn(p: Proc, s: Member)
  {
    (p.PutLease? || p.PutOwner? || p.RenewPut? || p.ReleaseDel? || p.ReleaseRem? || p.ReleaseAdd?) && p.slot == s
  }

  predicate ProcAgrees(p: Proc, st: Store, abs: Store)
  {
    match p
    case Scan(_, _, _) => true
    case Pop(_, _, _) => true
    case PutLease(id, now, ttl, slot) =>
      && Owns(abs, id, slot) && slot in abs.leases && abs.leases[slot] == now + ttl
      && slot !in st.leases && slot !in st.owner
    case PutOwner(id, slot) => Owns(abs, id, slot) && slot in st.leases && slot !in st.owner
    case RenewGet(_, _, _) => true
    case RenewPut(id, slot, _) => Owns(abs, id, slot) && Owns(st, id, slot) && slot in st.leases
    case ReleaseGet(_, _) => true
    case ReleaseDel(id, slot, _) => Owns(abs, id, slot) && Owns(st, id, slot) && slot in st.leases
    case ReleaseRem(id, slot, _) => Owns(abs, id, slot) && slot !in st.owner && slot in st.leases
    case ReleaseAdd(id, slot, _) => Owns(abs, id, slot) && slot !in st.owner && slot !in st.leases
    case Finished(_) => true
    case _ => false
  }

  predicate Below<V(==)>(m: map<Member, V>, m': map<Member, V>)
  {
    forall s :: s in m ==> s in m' && m'[s] == m[s]
  }

  ghost predicate DistinctIds(procs: map<nat, Proc>)
  {
    forall p, q :: p in procs && q in procs && p != q && HasId(procs[p]) && HasId(procs[q]) ==>
      IdOf(procs[p]) != IdOf(procs[q])
  }

  ghost predicate LeasesInHand(sys: System, abs: Store)
  {
    forall s :: s in abs.leases && s !in sys.store.leases ==> exists q :: q in sys.procs && LeaseInHand(sys.procs[q], s)
  }

  ghost predicate OwnersInHand(sys: System, abs: Store)
  {
    forall s :: s in abs.owner && s !in sys.store.owner ==> exists q :: q in sys.procs && OwnerInHand(sys.procs[q], s)
  }

  ghost predicate Sim(sys: System, abs: Store)
  {
    && WellFormed(abs)
    && sys.store.available == abs.available
    && Below(sys.store.leases, abs.leases)
    && Below(sys.store.owner, abs.owner)
    && (forall q :: q in sys.procs ==> ProcAgrees(sys.procs[q], sys.store, abs))
    && DistinctIds(sys.procs)
    && LeasesInHand(sys, abs)
    && OwnersInHand(sys, abs)
  }

  lemma SimIsSound(sys: System, abs: Store)
    requires Sim(sys, abs)
    ensures Sound(sys)
  {
  }

  // -- what one step may change ---------------------------------------------------------

  /** `m'` differs from `m` at most at `t`. */
  predicate SameBut<V(==)>(m: map<Member, V>, m': map<Member, V>, t: Member)
  {
    (forall s :: s in m && s != t ==> s in m' && m'[s] == m[s]) && (forall s :: s in m' && s != t ==> s in m)
  }

  predicate StoreSameBut(st: Store, st': Store, t: Member)
  {
    SameBut(st.leases, st'.leases, t) && SameBut(st.owner, st'.owner, t)
  }

  /** Redis and the atomic store fit together at `t`, given the process that works on it. */
  predicate FitAt(st: Store, abs: Store, p: Proc, t: Member)
  {
    && (t in st.leases ==> t in abs.leases && abs.leases[t] == st.leases[t])
    && (t in st.owner ==> t in abs.owner && abs.owner[t] == st.owner[t])
    && (t in abs.leases && t !in st.leases ==> LeaseInHand(p, t))
    && (t in abs.owner && t !in st.owner ==> OwnerInHand(p, t))
  }

  predicate SameId(p: Proc, p': Proc)
  {
    HasId(p) && (HasId(p') ==> IdOf(p') == IdOf(p))
  }

  lemma DistinctIdsKept(procs: map<nat, Proc>, pid: nat, p': Proc)
    requires DistinctIds(procs) && pid in procs && SameId(procs[pid], p')
    ensures DistinctIds(procs[pid := p'])
  {
  }

  lemma AgreesElsewhere(p: Proc, st: Store, abs: Store, st': Store, abs': Store, t: Member)
    requires ProcAgrees(p, st, abs) && !WorksOn(p, t)
    requires StoreSameBut(st, st', t) && StoreSameBut(abs, abs', t)
    ensures ProcAgrees(p, st', abs')
  {
  }

  lemma BelowKept<V>(m: map<Member, V>, big: map<Member, V>, m': map<Member, V>, big': map<Member, V>, t: Member)
    requires Below(m, big) && SameBut(m, m', t) && SameBut(big, big', t)
    requires t in m' ==> t in big' && big'[t] == m'[t]
    ensures Below(m', big')
  {
  }

  lemma LeasesInHandKept(sys: System, abs: Store, pid: nat, p': Proc, st': Store, abs': Store, t: Member)
    requires LeasesInHand(sys, abs) && pid in sys.procs
    requires forall s :: LeaseInHand(sys.procs[pid], s) ==> s == t
    requires SameBut(sys.store.leases, st'.leases, t) && SameBut(abs.leases, abs'.leases, t)
    requires t in abs'.leases && t !in st'.leases ==> LeaseInHand(p', t)
    ensures LeasesInHand(System(st', sys.procs[pid := p']), abs')
  {
    var sys' := System(st', sys.procs[pid := p']);
    forall s | s in abs'.leases && s !in st'.leases
      ensures exists q :: q in sys'.procs && LeaseInHand(sys'.procs[q], s)
    {
      if s == t {
        assert LeaseInHand(sys'.procs[pid], s);
      } else {
        var q :| q in sys.procs && LeaseInHand(sys.procs[q], s);
        assert q != pid && sys'.procs[q] == sys.procs[q];
      }
    }
  }

  lemma OwnersInHandKept(sys: System, abs: Store, pid: nat, p': Proc, st': Store, abs': Store, t: Member)
    requires OwnersInHand(sys, abs) && pid in sys.procs
    requires forall s :: OwnerInHand(sys.procs[pid], s) ==> s == t
    requires SameBut(sys.store.owner, st'.owner, t) && SameBut(abs.owner, abs'.owner, t)
    requires t in abs'.owner && t !in st'.owner ==> OwnerInHand(p', t)
    ensures OwnersInHand(System(st', sys.procs[pid := p']), abs')
  {
    var sys' := System(st', sys.procs[pid := p']);
    forall s | s in abs'.owner && s !in st'.owner
      ensures exists q :: q in sys'.procs && OwnerInHand(sys'.procs[q], s)
    {
      if s == t {
        assert OwnerInHand(sys'.procs[pid], s);
      } else {
        var q :| q in sys.procs && OwnerInHand(sys.procs[q], s);
        assert q != pid && sys'.procs[q] == sys.procs[q];
      }
    }
  }

  /** A step that concerns only slot `t`, which no other process is working on, keeps the simulation. */
  lemma SlotStep(sys: System, abs: Store, pid: nat, p': Proc, st': Store, abs': Store, t: Member)
    requires Sim(sys, abs) && pid in sys.procs && SameId(sys.procs[pid], p')
    requires forall q :: q in sys.procs && q != pid ==> !WorksOn(sys.procs[q], t)
    requires forall s :: LeaseInHand(sys.procs[pid], s) ==> s == t
    requires forall s :: OwnerInHand(sys.procs[pid], s) ==> s == t
    requires StoreSameBut(sys.store, st', t) && StoreSameBut(abs, abs', t)
    requires WellFormed(abs') && st'.available == abs'.available
    requires FitAt(st', abs', p', t) && ProcAgrees(p', st', abs')
    ensures Sim(System(st', sys.procs[pid := p']), abs')
  {
    var sys' := System(st', sys.procs[pid := p']);
    DistinctIdsKept(sys.procs, pid, p');
    forall q | q in sys'.procs ensures ProcAgrees(sys'.procs[q], st', abs') {
      if q != pid {
        AgreesElsewhere(sys.procs[q], sys.store, abs, st', abs', t);
      }
    }
    BelowKept(sys.store.leases, abs.leases, st'.leases, abs'.leases, t);
    BelowKept(sys.store.owner, abs.owner, st'.owner, abs'.owner, t);
    LeasesInHandKept(sys, abs, pid, p', st', abs', t);
    OwnersInHandKept(sys, abs, pid, p', st', abs', t);
  }

  /** A step that only moves a process on, from a place where it holds nothing. */
  lemma QuietStep(sys: System, abs: Store, pid: nat, p': Proc)
    requires Sim(sys, abs) && pid in sys.procs && SameId(sys.procs[pid], p')
    requires forall s :: !LeaseInHand(sys.procs[pid], s) && !OwnerInHand(sys.procs[pid], s)
    requires ProcAgrees(p', sys.store, abs)
    ensures Sim(System(sys.store, sys.procs[pid := p']), abs)
  {
    var sys' := System(sys.store, sys.procs[pid := p']);
    DistinctIdsKept(sys.procs, pid, p');
    forall s | s in abs.leases && s !in sys.store.leases
      ensures exists q :: q in sys'.procs && LeaseInHand(sys'.procs[q], s)
    {
      var q :| q in sys.procs && LeaseInHand(sys.procs[q], s);
      assert sys'.procs[q] == sys.procs[q];
    }
    forall s | s in abs.owner && s !in sys.store.owner
      ensures exists q :: q in sys'.procs && OwnerInHand(sys'.procs[q], s)
    {
      var q :| q in sys.procs && OwnerInHand(sys.procs[q], s);
      assert sys'.procs[q] == sys.procs[q];
    }
  }

  lemma WorkerOwns(p: Proc, st: Store, abs: Store, t: Member)
    requires ProcAgrees(p, st, abs)
    ensures WorksOn(p, t) ==> HasId(p) && Owns(abs, IdOf(p), t)
  {
  }

  /** Whoever else works on a slot owns it, so nobody works on mine or on a free one. */
  lemma NobodyElse(sys: System, abs: Store, pid: nat, t: Member)
    requires Sim(sys, abs) && pid in sys.procs && HasId(sys.procs[pid])
    requires t !in abs.owner || Owns(abs, IdOf(sys.procs[pid]), t)
    ensures forall q :: q in sys.procs && q != pid ==> !WorksOn(sys.procs[q], t)
  {
    forall q | q in sys.procs && q != pid ensures !WorksOn(sys.procs[q], t) {
      WorkerOwns(sys.procs[q], sys.store, abs, t);
    }
  }

  /** Redis and the atomic store agree on who owns a slot, as far as an idle-so-far command can see. */
  lemma GetAgrees(sys: System, abs: Store, pid: nat, id: InstanceId, t: Member)
    requires Sim(sys, abs) && pid in sys.procs && HasId(sys.procs[pid]) && IdOf(sys.procs[pid]) == id
    requires forall s :: !LeaseInHand(sys.procs[pid], s) && !OwnerInHand(sys.procs[pid], s)
    ensures Owns(sys.store, id, t) <==> Owns(abs, id, t)
    ensures Owns(abs, id, t) ==> t in sys.store.leases
  {
    if Owns(abs, id, t) {
      NobodyElse(sys, abs, pid, t);
      if t !in sys.store.owner {
        var q :| q in sys.procs && OwnerInHand(sys.procs[q], t);
        assert q != pid && WorksOn(sys.procs[q], t);
      }
      if t !in sys.store.leases {
        var q :| q in sys.procs && LeaseInHand(sys.procs[q], t);
        assert q != pid && WorksOn(sys.procs[q], t);
      }
    }
  }

  // -- one lemma per Redis command ---------------------------------------------------------

  lemma ScanStep(sys: System, abs: Store, pid: nat, clock: nat)
    requires Sim(sys, abs) && pid in sys.procs && sys.procs[pid].Scan?
    requires NoneExpired(abs, sys.procs[pid].now)
    ensures var (st', p') := Command(sys.store, sys.procs[pid], clock);
            Sim(System(st', sys.procs[pid := p']), abs) && Settled(p') == None
  {
    var p := sys.procs[pid];
    assert Expired(sys.store, p.now) == map[];
    assert Sorted(Expired(sys.store, p.now)) == [];
    QuietStep(sys, abs, pid, Pop(p.id, p.now, p.ttl));
  }

  lemma NothingToSweep(abs: Store, now: nat)
    requires NoneExpired(abs, now)
    ensures Swept(abs, now) == abs
  {
    assert Expired(abs, now) == map[];
    assert Swept(abs, now).available == abs.available;
    assert Swept(abs, now).leases == abs.leases;
    assert Swept(abs, now).owner == abs.owner;
  }

  lemma ClaimOfFreeSlot(abs: Store, id: InstanceId, now: nat, ttl: nat)
    requires WellFormed(abs) && NoneExpired(abs, now) && abs.available != map[]
    ensures var s := Least(abs.available);
            var abs' := Apply(abs, Claim(id, now, ttl)).0;
            && Apply(abs, Claim(id, now, ttl)).1 == Claimed(s)
            && s !in abs.leases && s !in abs.owner
            && abs'.available == abs.available - {s}
            && abs'.leases == abs.leases[s := now + ttl] && abs'.owner == abs.owner[s := id]
            && WellFormed(abs') && StoreSameBut(abs, abs', s)
  {
    NothingToSweep(abs, now);
    ClaimKeepsPool(abs, id, now, ttl);
  }

  lemma PopStep(sys: System, abs: Store, pid: nat, clock: nat)
    requires Sim(sys, abs) && pid in sys.procs && sys.procs[pid].Pop?
    requires NoneExpired(abs, sys.procs[pid].now)
    ensures var p := sys.procs[pid];
            var (st', p') := Command(sys.store, p, clock);
            var (abs', reply) := Apply(abs, Claim(p.id, p.now, p.ttl));
            Sim(System(st', sys.procs[pid := p']), abs') && Settled(p') == Some(reply)
  {
    var p := sys.procs[pid];
    if abs.available == map[] {
      NothingToSweep(abs, p.now);
      QuietStep(sys, abs, pid, Finished(Exhausted));
    } else {
      var s := Least(abs.available);
      ClaimOfFreeSlot(abs, p.id, p.now, p.ttl);
      var abs' := Apply(abs, Claim(p.id, p.now, p.ttl)).0;
      NobodyElse(sys, abs, pid, s);
      var st' := sys.store.(available := sys.store.available - {s});
      SlotStep(sys, abs, pid, PutLease(p.id, p.now, p.ttl, s), st', abs', s);
    }
  }

  lemma RenewGetStep(sys: System, abs: Store, pid: nat, clock: nat)
    requires Sim(sys, abs) && pid in sys.procs && sys.procs[pid].RenewGet?
    ensures var p := sys.procs[pid];
            var (st', p') := Command(sys.store, p, clock);
            var (abs', reply) := Apply(abs, Renew(p.id, p.slot, clock, p.ttl));
            if Owns(sys.store, p.id, p.slot) then
              Sim(System(st', sys.procs[pid := p']), abs) && Settled(p') == None
            else
              Sim(System(st', sys.procs[pid := p']), abs') && Settled(p') == Some(reply)
  {
    var p := sys.procs[pid];
    GetAgrees(sys, abs, pid, p.id, p.slot);
    var (st', p') := Command(sys.store, p, clock);
    QuietStep(sys, abs, pid, p');
  }

  lemma ReleaseGetStep(sys: System, abs: Store, pid: nat, clock: nat)
    requires Sim(sys, abs) && pid in sys.procs && sys.procs[pid].ReleaseGet?
    ensures var p := sys.procs[pid];
            var (st', p') := Command(sys.store, p, clock);
            var (abs', reply) := Apply(abs, Release(p.id, p.slot, clock));
            if Owns(sys.store, p.id, p.slot) then
              Sim(System(st', sys.procs[pid := p']), abs) && Settled(p') == None
            else
              Sim(System(st', sys.procs[pid := p']), abs') && Settled(p') == Some(reply)
  {
    var p := sys.procs[pid];
    GetAgrees(sys, abs, pid, p.id, p.slot);
    var (st', p') := Command(sys.store, p, clock);
    QuietStep(sys, abs, pid, p');
  }

  /** Past its ownership check (or its pop) a command touches only its own slot. */
  predicate AtWork(p: Proc)
  {
    p.PutLease? || p.PutOwner? || p.RenewPut? || p.ReleaseDel? || p.ReleaseRem? || p.ReleaseAdd?
  }

  /** The atomic operation that takes effect with the next command of a process at work. */
  function WorkEffect(p: Proc, clock: nat): Option<Op>
  {
    match p
    case RenewPut(id, slot, ttl) => Some(Renew(id, slot, clock, ttl))
    case ReleaseAdd(id, slot, now) => Some(Release(id, slot, now))
    case _ => None
  }

  /** `p` agrees with a well-formed atomic store that the native one lags behind by entries in hand. */
  ghost predicate MayWork(st: Store, abs: Store, p: Proc)
  {
    && AtWork(p) && ProcAgrees(p, st, abs) && WellFormed(abs) && st.available == abs.available
    && Below(st.leases, abs.leases) && Below(st.owner, abs.owner)
  }

  /** The command's next step and its effect on the atomic store touch one slot, and fit there. */
  ghost predicate StepFits(st: Store, abs: Store, p: Proc, clock: nat)
    requires AtWork(p)
  {
    var (st', p') := Command(st, p, clock);
    var abs' := After(abs, WorkEffect(p, clock));
    && SameId(p, p')
    && StoreSameBut(st, st', p.slot) && StoreSameBut(abs, abs', p.slot)
    && WellFormed(abs') && st'.available == abs'.available
    && FitAt(st', abs', p', p.slot) && ProcAgrees(p', st', abs')
  }

  lemma RenewPutFits(st: Store, abs: Store, p: Proc, clock: nat)
    requires p.RenewPut? && MayWork(st, abs, p)
    ensures StepFits(st, abs, p, clock)
  {
    RenewKeepsPool(abs, p.id, p.slot, clock, p.ttl);
  }

  lemma ReleaseAddFits(st: Store, abs: Store, p: Proc, clock: nat)
    requires p.ReleaseAdd? && MayWork(st, abs, p)
    ensures StepFits(st, abs, p, clock)
  {
    FreedKeepsPool(abs, p.slot, p.now);
  }

  lemma ClaimPutFits(st: Store, abs: Store, p: Proc, clock: nat)
    requires (p.PutLease? || p.PutOwner?) && MayWork(st, abs, p)
    ensures StepFits(st, abs, p, clock)
  {
  }

  lemma ReleaseRemovalFits(st: Store, abs: Store, p: Proc, clock: nat)
    requires (p.ReleaseDel? || p.ReleaseRem?) && MayWork(st, abs, p)
    ensures StepFits(st, abs, p, clock)
  {
  }

  lemma WorkFits(st: Store, abs: Store, p: Proc, clock: nat)
    requires MayWork(st, abs, p)
    ensures StepFits(st, abs, p, clock)
  {
    if p.RenewPut? {
      RenewPutFits(st, abs, p, clock);
    } else if p.ReleaseAdd? {
      ReleaseAddFits(st, abs, p, clock);
    } else if p.PutLease? || p.PutOwner? {
      ClaimPutFits(st, abs, p, clock);
    } else {
      ReleaseRemovalFits(st, abs, p, clock);
    }
  }

  lemma WorkSettles(abs: Store, st: Store, p: Proc, clock: nat)
    requires AtWork(p) && ProcAgrees(p, st, abs)
    ensures var (st', p') := Command(st, p, clock);
            Settled(p') == match WorkEffect(p, clock)
                           case None => Settled(p)
                           case Some(op) => Some(Apply(abs, op).1)
  {
  }

  lemma WorkStep(sys: System, abs: Store, pid: nat, clock: nat)
    requires Sim(sys, abs) && pid in sys.procs && AtWork(sys.procs[pid])
    ensures var (st', p') := Command(sys.store, sys.procs[pid], clock);
            Sim(System(st', sys.procs[pid := p']), After(abs, WorkEffect(sys.procs[pid], clock)))
  {
    var p := sys.procs[pid];
    assert ProcAgrees(p, sys.store, abs);
    NobodyElse(sys, abs, pid, p.slot);
    WorkFits(sys.store, abs, p, clock);
    var (st', p') := Command(sys.store, p, clock);
    SlotStep(sys, abs, pid, p', st', After(abs, WorkEffect(p, clock)), p.slot);
  }

  lemma InHandStays(sys: System, abs: Store, pid: nat, p: Proc)
    requires pid !in sys.procs && LeasesInHand(sys, abs) && OwnersInHand(sys, abs)
    ensures var sys' := sys.(procs := sys.procs[pid := p]);
            LeasesInHand(sys', abs) && OwnersInHand(sys', abs)
  {
    var sys' := sys.(procs := sys.procs[pid := p]);
    forall s | s in abs.leases && s !in sys.store.leases
      ensures exists q :: q in sys'.procs && LeaseInHand(sys'.procs[q], s)
    {
      var q :| q in sys.procs && LeaseInHand(sys.procs[q], s);
      assert sys'.procs[q] == sys.procs[q];
    }
    forall s | s in abs.owner && s !in sys.store.owner
      ensures exists q :: q in sys'.procs && OwnerInHand(sys'.procs[q], s)
    {
      var q :| q in sys.procs && OwnerInHand(sys.procs[q], s);
      assert sys'.procs[q] == sys.procs[q];
    }
  }

  lemma StartStep(sys: System, abs: Store, pid: nat, p: Proc)
    requires Sim(sys, abs) && pid !in sys.procs
    requires (p.Scan? || p.RenewGet? || p.ReleaseGet?) && Idle(sys.procs, p.id)
    ensures Sim(sys.(procs := sys.procs[pid := p]), abs)
  {
    InHandStays(sys, abs, pid, p);
    hide LeasesInHand, OwnersInHand;
    var procs' := sys.procs[pid := p];
    assert DistinctIds(procs');
    forall q | q in procs' ensures ProcAgrees(procs'[q], sys.store, abs) {
    }
  }
}
