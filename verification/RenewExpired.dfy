/**
 Renewing a lease that has run out: what matters is not the clock but whether a
 claim has come by since.
 */
module RenewExpired {
  import opened Decimals
  import opened MemberOrder
  import opened SlotStore
  import opened AtomicRuns

  /** `o` neither claims, nor renews or releases `s`, and the daemon leaves `s` alone. */
  predicate Passive(ops: seq<Op>, o: InstanceId, s: Member)
  {
    forall op :: op in ops ==>
      match op
      case Init(_, _) => true
      case Claim(id, _, _) => id != o
      case Renew(id, slot, _, _) => !(id == o && slot == s)
      case Release(id, slot, _) => !(id == o && slot == s)
      case DaemonRelease(slot, _) => slot != s
  }

  /** Some claim's clock has reached `expiry`. */
  predicate SweptBy(ops: seq<Op>, expiry: int)
  {
    exists k :: 0 <= k < |ops| && ops[k].Claim? && ops[k].now >= expiry
  }

  /** Only its own claim makes an instance an owner again. */
  lemma StaysNotOwner(st: Store, o: InstanceId, s: Member, op: Op)
    requires WellFormed(st) && !Owns(st, o, s) && Passive([op], o, s)
    ensures !Owns(Apply(st, op).0, o, s)
  {
    assert op in [op];
  }

  lemma {:induction false} NeverOwnerAgain(st: Store, o: InstanceId, s: Member, ops: seq<Op>)
    requires WellFormed(st) && !Owns(st, o, s) && Passive(ops, o, s)
    ensures !Owns(Run(st, ops), o, s)
    decreases ops
  {
    if ops != [] {
      hide Apply, WellFormed;
      FirstPassive(ops, o, s);
      StepKeepsPool(st, ops[0]);
      StaysNotOwner(st, o, s, ops[0]);
      NeverOwnerAgain(Apply(st, ops[0]).0, o, s, ops[1..]);
    }
  }

  lemma {:induction false} FirstPassive(ops: seq<Op>, o: InstanceId, s: Member)
    requires ops != [] && Passive(ops, o, s)
    ensures Passive([ops[0]], o, s) && Passive(ops[1..], o, s)
  {
    assert ops[0] in ops && forall op :: op in ops[1..] ==> op in ops;
  }

  /** A claim that comes too late for the lease takes the slot from its owner, whoever gets it. */
  lemma LateClaimTakes(st: Store, o: InstanceId, s: Member, id: InstanceId, now: nat, ttl: nat)
    requires WellFormed(st) && Holds(st, o, s) && id != o && st.leases[s] <= now
    ensures !Owns(ClaimFrom(st, id, now, ttl).0, o, s)
  {
  }

  /** Nothing else takes it, or moves its expiry. */
  lemma OthersLeave(st: Store, o: InstanceId, s: Member, op: Op)
    requires WellFormed(st) && Holds(st, o, s) && Passive([op], o, s)
    requires op.Claim? ==> op.now < st.leases[s]
    ensures Holds(Apply(st, op).0, o, s) && Apply(st, op).0.leases[s] == st.leases[s]
  {
    assert op in [op];
    StepKeepsHolder(st, o, s, op);
    if op.Claim? {
      ClaimSparesLiveLease(st, op.id, op.now, op.ttl, s);
    }
  }

  lemma {:induction false} OwnerUntilSwept(st: Store, o: InstanceId, s: Member, ops: seq<Op>)
    requires WellFormed(st) && Holds(st, o, s) && Passive(ops, o, s)
    ensures Owns(Run(st, ops), o, s) <==> !SweptBy(ops, st.leases[s])
    decreases ops
  {
    if ops != [] {
      hide Apply, WellFormed, Passive;
      var op, next := ops[0], Apply(st, ops[0]).0;
      FirstPassive(ops, o, s);
      StepKeepsPool(st, op);
      SweptByRest(ops, st.leases[s]);
      if op.Claim? && op.now >= st.leases[s] {
        ClaimIsForeign(ops, o, s);
        ClaimApplies(st, op);
        LateClaimTakes(st, o, s, op.id, op.now, op.ttl);
        NeverOwnerAgain(next, o, s, ops[1..]);
      } else {
        OthersLeave(st, o, s, op);
        OwnerUntilSwept(next, o, s, ops[1..]);
      }
    }
  }

  lemma {:induction false} SweptByRest(ops: seq<Op>, expiry: int)
    requires ops != []
    ensures SweptBy(ops, expiry) <==> (ops[0].Claim? && ops[0].now >= expiry) || SweptBy(ops[1..], expiry)
  {
    var rest := ops[1..];
    if SweptBy(rest, expiry) {
      var k :| 0 <= k < |rest| && rest[k].Claim? && rest[k].now >= expiry;
      assert ops[k + 1] == rest[k];
    }
    if SweptBy(ops, expiry) {
      var k :| 0 <= k < |ops| && ops[k].Claim? && ops[k].now >= expiry;
      assert k > 0 ==> rest[k - 1] == ops[k];
    }
  }

  lemma {:induction false} ClaimIsForeign(ops: seq<Op>, o: InstanceId, s: Member)
    requires ops != [] && ops[0].Claim? && Passive(ops, o, s)
    ensures ops[0].id != o
  {
    assert ops[0] in ops;
  }

  lemma ClaimApplies(st: Store, op: Op)
    requires op.Claim?
    ensures Apply(st, op) == ClaimFrom(st, op.id, op.now, op.ttl)
  {
  }

  /**
   Exactly when a renew is refused: from any store in which `o` holds `s`, after any
   operations of others, if and only if some claim among them had a clock at or past
   the expiry. The renew's own clock does not matter.
   */
  lemma {:induction false} RefusedExactly(st: Store, o: InstanceId, s: Member, ops: seq<Op>, now: nat, ttl: nat)
    requires WellFormed(st) && Holds(st, o, s) && Passive(ops, o, s)
    ensures Apply(Run(st, ops), Renew(o, s, now, ttl)).1 == Refused <==> SweptBy(ops, st.leases[s])
  {
    hide Run, WellFormed, Passive, SweptBy;
    OwnerUntilSwept(st, o, s, ops);
  }

  /** A reachable store and a renew, long after the lease ran out, that is accepted and gives it a new expiry. */
  lemma AcceptedLongAfterExpiry(n: nat, o: InstanceId, claimed: nat, ttl: nat, now: nat)
    requires now >= claimed + ttl
    ensures var st := Run(EMPTY, [Init(n, n), Claim(o, claimed, ttl)]);
            var s := Decimal(n);
            && Holds(st, o, s) && st.leases[s] == claimed + ttl <= now
            && Apply(st, Renew(o, s, now, ttl)) == (st.(leases := st.leases[s := now + ttl]), Accepted)
  {
    hide Decimal, Apply;
    var s := Decimal(n);
    var free := OneFreeSlot(n);
    var ops := [Init(n, n), Claim(o, claimed, ttl)];
    var claimOnly := [Claim(o, claimed, ttl)];
    assert ops[1..] == claimOnly && claimOnly[1..] == [];
    assert Run(free, claimOnly) == Run(Apply(free, claimOnly[0]).0, []) == Apply(free, claimOnly[0]).0;
    assert Run(EMPTY, ops) == Run(free, claimOnly);
    ClaimsOnlySlot(free, s, o, claimed, ttl);
    RenewApplies(Apply(free, Claim(o, claimed, ttl)).0, o, s, now, ttl);
  }

  lemma RenewApplies(st: Store, o: InstanceId, s: Member, now: nat, ttl: nat)
    requires Owns(st, o, s)
    ensures Apply(st, Renew(o, s, now, ttl)) == (st.(leases := st.leases[s := now + ttl]), Accepted)
  {
  }

  lemma ClaimsOnlySlot(st: Store, s: Member, o: InstanceId, now: nat, ttl: nat)
    requires WellFormed(st) && st.available.Keys == {s} && st.leases == map[]
    ensures var st' := Apply(st, Claim(o, now, ttl)).0;
            Holds(st', o, s) && st'.leases[s] == now + ttl
  {
    assert Expired(st, now).Keys == {};
    assert Swept(st, now).available.Keys == {s};
    assert Least(Swept(st, now).available) in Swept(st, now).available;
  }

  lemma OneFreeSlot(n: nat) returns (st: Store)
    ensures st == Apply(EMPTY, Init(n, n)).0
    ensures st.available.Keys == {Decimal(n)} && st.leases == map[] && st.owner == map[] && WellFormed(st)
  {
    hide Decimal;
    st := Apply(EMPTY, Init(n, n)).0;
    assert NamesBelow(n, n) == {};
    assert NamesBelow(n, n + 1) == {Decimal(n)};
    assert Missing(EMPTY, n, n) == {Decimal(n)};
    assert st.available.Keys == {Decimal(n)};
  }
}
