/**
 Whole runs of the atomic machine: any operations by any instances in any
 order, with clocks that need not agree with one another.
 */
module AtomicRuns {
  import opened MemberOrder
  import opened SlotStore

  ghost function Run(st: Store, ops: seq<Op>): Store
    decreases ops
  {
    if ops == [] then st else Run(Apply(st, ops[0]).0, ops[1..])
  }

  ghost function Replies(st: Store, ops: seq<Op>): (rs: seq<Reply>)
    ensures |rs| == |ops|
    decreases ops
  {
    if ops == [] then [] else [Apply(st, ops[0]).1] + Replies(Apply(st, ops[0]).0, ops[1..])
  }

  lemma {:induction false} RunSplits(st: Store, ops: seq<Op>, more: seq<Op>)
    ensures Run(st, ops + more) == Run(Run(st, ops), more)
    ensures Replies(st, ops + more) == Replies(st, ops) + Replies(Run(st, ops), more)
    decreases ops
  {
    if ops == [] {
      assert ops + more == more;
    } else {
      assert (ops + more)[1..] == ops[1..] + more;
      RunSplits(Apply(st, ops[0]).0, ops[1..], more);
    }
  }

  // -- the pool ----------------------------------------------------------------

  /** Slots an operation may bring into the pool. */
  function Brought(op: Op): set<Member>
  {
    match op
    case Init(lo, hi) => if lo > hi then {} else Range(lo, hi)
    case DaemonRelease(slot, _) => {slot}
    case _ => {}
  }

  function AllBrought(ops: seq<Op>): set<Member>
  {
    if ops == [] then {} else Brought(ops[0]) + AllBrought(ops[1..])
  }

  /** The union of the ranges initialised in a run. */
  function Ranges(ops: seq<Op>): set<Member>
  {
    if ops == [] then {}
    else (if ops[0].Init? then Brought(ops[0]) else {}) + Ranges(ops[1..])
  }

  lemma FreedAllKeepsPool(st: Store, gone: set<Member>, now: nat)
    requires WellFormed(st) && gone <= st.leases.Keys
    ensures WellFormed(FreedAll(st, gone, now))
    ensures Pool(FreedAll(st, gone, now)) == Pool(st)
  {
  }

  lemma FreedKeepsPool(st: Store, slot: Member, now: nat)
    requires WellFormed(st)
    ensures WellFormed(Freed(st, slot, now))
    ensures Pool(Freed(st, slot, now)) == Pool(st) + {slot}
  {
  }

  lemma ClaimKeepsPool(st: Store, id: InstanceId, now: nat, ttl: nat)
    requires WellFormed(st)
    ensures WellFormed(ClaimFrom(st, id, now, ttl).0)
    ensures Pool(ClaimFrom(st, id, now, ttl).0) == Pool(st)
  {
    FreedAllKeepsPool(st, Expired(st, now).Keys, now);
  }

  lemma AddFreshKeepsPool(st: Store, lo: nat, hi: nat)
    requires WellFormed(st)
    ensures WellFormed(AddFresh(st, Missing(st, lo, hi)))
    ensures Pool(AddFresh(st, Missing(st, lo, hi))) == Pool(st) + Range(lo, hi)
  {
    var slots := Missing(st, lo, hi);
    assert AddFresh(st, slots).available.Keys == st.available.Keys + slots;
  }

  lemma RenewKeepsPool(st: Store, id: InstanceId, slot: Member, now: nat, ttl: nat)
    requires WellFormed(st)
    ensures WellFormed(RenewIn(st, id, slot, now, ttl).0)
    ensures Pool(RenewIn(st, id, slot, now, ttl).0) == Pool(st)
  {
    if Owns(st, id, slot) {
      assert st.leases[slot := now + ttl].Keys == st.leases.Keys;
    }
  }

  lemma ReleaseKeepsPool(st: Store, id: InstanceId, slot: Member, now: nat)
    requires WellFormed(st)
    ensures WellFormed(ReleaseIn(st, id, slot, now).0)
    ensures Pool(ReleaseIn(st, id, slot, now).0) == Pool(st)
  {
    FreedKeepsPool(st, slot, now);
    if Owns(st, id, slot) {
      assert Pool(st) + {slot} == Pool(st);
    }
  }

  lemma StepKeepsPool(st: Store, op: Op)
    requires WellFormed(st)
    ensures WellFormed(Apply(st, op).0)
    ensures Pool(Apply(st, op).0) == Pool(st) + Brought(op)
  {
    match op {
      case Init(lo, hi) => AddFreshKeepsPool(st, lo, hi);
      case Claim(id, now, ttl) => ClaimKeepsPool(st, id, now, ttl);
      case Renew(id, slot, now, ttl) => RenewKeepsPool(st, id, slot, now, ttl);
      case Release(id, slot, now) => ReleaseKeepsPool(st, id, slot, now);
      case DaemonRelease(slot, now) => FreedKeepsPool(st, slot, now);
    }
  }

  lemma {:induction false} RunKeepsPool(st: Store, ops: seq<Op>)
    requires WellFormed(st)
    ensures WellFormed(Run(st, ops))
    ensures Pool(Run(st, ops)) == Pool(st) + AllBrought(ops)
    decreases ops
  {
    if ops != [] {
      StepKeepsPool(st, ops[0]);
      RunKeepsPool(Apply(st, ops[0]).0, ops[1..]);
    }
  }

  /** The daemon only ever releases slots that some `init` of the run made. */
  ghost predicate DaemonStaysInPool(ops: seq<Op>)
  {
    forall k :: 0 <= k < |ops| && ops[k].DaemonRelease? ==> ops[k].slot in Ranges(ops)
  }

  lemma {:induction false} BroughtByRangesAndDaemon(ops: seq<Op>, s: Member)
    ensures s in Ranges(ops) ==> s in AllBrought(ops)
    ensures s in AllBrought(ops) ==>
      s in Ranges(ops) || exists k :: 0 <= k < |ops| && ops[k].DaemonRelease? && ops[k].slot == s
  {
    if ops != [] {
      BroughtByRangesAndDaemon(ops[1..], s);
      if s in AllBrought(ops) && s !in Ranges(ops) {
        if s in AllBrought(ops[1..]) {
          var k :| 0 <= k < |ops[1..]| && ops[1..][k].DaemonRelease? && ops[1..][k].slot == s;
          assert ops[k + 1] == ops[1..][k];
        } else {
          assert ops[0].DaemonRelease? && ops[0].slot == s;
        }
      }
    }
  }

  /**
   Every store the atomic machine can reach from an empty Redis: no slot is both
   free and leased, exactly the leased slots have owners, and free and leased
   slots together are the initialised ranges.
   */
  lemma {:induction false} ReachableStores(ops: seq<Op>)
    ensures var st := Run(EMPTY, ops);
            && WellFormed(st)
            && (DaemonStaysInPool(ops) ==> st.available.Keys + st.leases.Keys == Ranges(ops))
  {
    RunKeepsPool(EMPTY, ops);
    if DaemonStaysInPool(ops) {
      forall s ensures s in AllBrought(ops) <==> s in Ranges(ops) {
        BroughtByRangesAndDaemon(ops, s);
      }
    }
  }

  /** In a reachable store a renew never creates a lease; it can only move an expiry. */
  lemma {:induction false} RenewNeverCreatesALease(ops: seq<Op>, id: InstanceId, slot: Member, now: nat, ttl: nat)
    ensures var st := Run(EMPTY, ops);
            var (st', reply) := Apply(st, Renew(id, slot, now, ttl));
            && st'.leases.Keys == st.leases.Keys
            && st'.available == st.available && st'.owner == st.owner
            && (reply == Accepted <==> slot in st.leases && Owns(st, id, slot))
  {
    ReachableStores(ops);
  }

  // -- exclusivity ---------------------------------------------------------------

  ghost predicate Holds(st: Store, o: InstanceId, s: Member)
  {
    s in st.leases && Owns(st, o, s)
  }

  /**
   What `o` may count on from the others while it holds `s`: every claim's clock
   is below the expiry `s` has at that moment, `o` itself does not release, and
   the daemon does not release `s`.
   */
  ghost predicate Undisturbed(st: Store, o: InstanceId, s: Member, op: Op)
  {
    match op
    case Claim(_, now, _) => s in st.leases ==> now < st.leases[s]
    case Release(id, slot, _) => !(id == o && slot == s)
    case DaemonRelease(slot, _) => slot != s
    case _ => true
  }

  ghost predicate UndisturbedRun(st: Store, o: InstanceId, s: Member, ops: seq<Op>)
    decreases ops
  {
    ops == [] ||
    (Undisturbed(st, o, s, ops[0]) && UndisturbedRun(Apply(st, ops[0]).0, o, s, ops[1..]))
  }

  /** No claim is told `s`, and nobody but `o` renews or releases it. */
  predicate KeepsOut(o: InstanceId, s: Member, op: Op, reply: Reply)
  {
    match op
    case Claim(_, _, _) => reply != Claimed(s)
    case Renew(id, slot, _, _) => slot == s && id != o ==> reply == Refused
    case Release(id, slot, _) => slot == s && id != o ==> reply == Refused
    case _ => true
  }

  lemma ClaimSparesLiveLease(st: Store, id: InstanceId, now: nat, ttl: nat, s: Member)
    requires WellFormed(st) && s in st.leases && now < st.leases[s]
    ensures var (st', reply) := ClaimFrom(st, id, now, ttl);
            && reply != Claimed(s)
            && s in st'.leases && st'.leases[s] == st.leases[s]
            && s in st'.owner && st'.owner[s] == st.owner[s]
  {
    FreedAllKeepsPool(st, Expired(st, now).Keys, now);
  }

  lemma StepKeepsHolder(st: Store, o: InstanceId, s: Member, op: Op)
    requires WellFormed(st) && Holds(st, o, s) && Undisturbed(st, o, s, op)
    ensures WellFormed(Apply(st, op).0) && Holds(Apply(st, op).0, o, s)
    ensures KeepsOut(o, s, op, Apply(st, op).1)
  {
    StepKeepsPool(st, op);
    if op.Claim? {
      ClaimSparesLiveLease(st, op.id, op.now, op.ttl, s);
    }
  }

  /** Once `o` holds `s` it keeps `s` to itself over every undisturbed run. */
  lemma {:induction false} Exclusive(st: Store, o: InstanceId, s: Member, ops: seq<Op>)
    requires WellFormed(st) && Holds(st, o, s) && UndisturbedRun(st, o, s, ops)
    ensures Holds(Run(st, ops), o, s)
    ensures forall k :: 0 <= k < |ops| ==> KeepsOut(o, s, ops[k], Replies(st, ops)[k])
    decreases ops
  {
    if ops != [] {
      StepKeepsHolder(st, o, s, ops[0]);
      Exclusive(Apply(st, ops[0]).0, o, s, ops[1..]);
      forall k | 0 <= k < |ops| ensures KeepsOut(o, s, ops[k], Replies(st, ops)[k]) {
        if k > 0 {
          assert ops[k] == ops[1..][k - 1];
        }
      }
    }
  }

  /** A claim, and only a claim or one's own renew, starts such a tenure. */
  lemma ClaimOrRenewHolds(st: Store, op: Op)
    requires WellFormed(st)
    ensures op.Claim? && Apply(st, op).1.Claimed? ==>
      Holds(Apply(st, op).0, op.id, Apply(st, op).1.slot) &&
      Apply(st, op).0.leases[Apply(st, op).1.slot] == op.now + op.ttl
    ensures op.Renew? && Apply(st, op).1.Accepted? ==>
      Holds(Apply(st, op).0, op.id, op.slot) && Apply(st, op).0.leases[op.slot] == op.now + op.ttl
  {
    StepKeepsPool(st, op);
  }

  /** The clock condition is exact: a claim leaves a lease alone just when its clock is below the expiry. */
  lemma ClaimSweepsExactlyTheExpired(st: Store, id: InstanceId, now: nat, ttl: nat, s: Member)
    requires WellFormed(st) && s in st.leases
    ensures var (st', reply) := ClaimFrom(st, id, now, ttl);
            (s in st'.leases && reply != Claimed(s)) <==> now < st.leases[s]
  {
    FreedAllKeepsPool(st, Expired(st, now).Keys, now);
  }

  // -- a slot handed out twice -----------------------------------------------------

  /** Every claim of the run comes before the lease that `s` has at that moment runs out. */
  ghost predicate TimelyClaims(st: Store, s: Member, ops: seq<Op>)
    decreases ops
  {
    ops != [] ==>
      && (ops[0].Claim? && s in st.leases ==> ops[0].now < st.leases[s])
      && TimelyClaims(Apply(st, ops[0]).0, s, ops[1..])
  }

  /** The operation takes `s` away from its holder `o`: its own release, or the daemon's. */
  predicate Frees(op: Op, reply: Reply, o: InstanceId, s: Member)
  {
    reply == Accepted && ((op.Release? && op.id == o && op.slot == s) || (op.DaemonRelease? && op.slot == s))
  }

  lemma {:induction false} HeldUntilFreed(st: Store, o: InstanceId, s: Member, ops: seq<Op>, k: nat) returns (j: nat)
    requires WellFormed(st) && Holds(st, o, s) && TimelyClaims(st, s, ops)
    requires k < |ops| && Replies(st, ops)[k] == Claimed(s)
    ensures j < k && Frees(ops[j], Replies(st, ops)[j], o, s)
    decreases ops
  {
    var op := ops[0];
    if Undisturbed(st, o, s, op) {
      StepKeepsHolder(st, o, s, op);
      if k == 0 {
        OnlyClaimsClaim(st, op);
      } else {
        j := HeldUntilFreed(Apply(st, op).0, o, s, ops[1..], k - 1);
        j := j + 1;
      }
    } else {
      j := 0;
      OnlyClaimsClaim(st, op);
    }
  }

  lemma OnlyClaimsClaim(st: Store, op: Op)
    ensures Apply(st, op).1.Claimed? ==> op.Claim?
  {
  }

  /** The run up to an operation, seen from behind its first one. */
  lemma {:induction false} BehindFirst(st: Store, ops: seq<Op>, i: nat)
    requires i < |ops|
    ensures Run(st, ops[..i + 1]) == Run(Apply(st, ops[0]).0, ops[1..][..i]) && ops[1..][i..] == ops[i + 1..]
    ensures i == 0 ==> Run(st, ops[..i + 1]) == Apply(st, ops[0]).0
    ensures Replies(st, ops)[i] == if i == 0 then Apply(st, ops[0]).1 else Replies(Apply(st, ops[0]).0, ops[1..])[i - 1]
  {
    hide Apply;
    assert ops[..i + 1][0] == ops[0] && ops[..i + 1][1..] == ops[1..][..i];
  }

  /** Between two claims that are told the same slot, its first holder or the daemon releases it. */
  lemma {:induction false} ClaimedTwice(st: Store, ops: seq<Op>, i: nat, k: nat, s: Member) returns (j: nat)
    requires WellFormed(st) && i < k < |ops|
    requires Replies(st, ops)[i] == Claimed(s) == Replies(st, ops)[k]
    requires TimelyClaims(Run(st, ops[..i + 1]), s, ops[i + 1..])
    ensures ops[i].Claim? && i < j < k && Frees(ops[j], Replies(st, ops)[j], ops[i].id, s)
    decreases ops
  {
    hide Apply, Run, Replies, TimelyClaims, WellFormed;
    var next := Apply(st, ops[0]).0;
    StepKeepsPool(st, ops[0]);
    BehindFirst(st, ops, i);
    BehindFirst(st, ops, k);
    if i == 0 {
      OnlyClaimsClaim(st, ops[0]);
      ClaimOrRenewHolds(st, ops[0]);
      j := HeldUntilFreed(next, ops[0].id, s, ops[1..], k - 1);
    } else {
      BehindFirst(next, ops[1..], i - 1);
      assert ops[1..][..i - 1 + 1] == ops[1..][..i] && ops[1..][i - 1 + 1..] == ops[i + 1..];
      j := ClaimedTwice(next, ops[1..], i - 1, k - 1, s);
    }
    j := j + 1;
    BehindFirst(st, ops, j);
  }

  /** Nothing but claims, all at time `now` and for some time, and `init`s. */
  predicate AllAtOnce(ops: seq<Op>, now: nat)
  {
    forall op :: op in ops ==> op.Init? || (op.Claim? && op.now == now && op.ttl > 0)
  }

  lemma {:induction false} AllAtOnceIsTimely(st: Store, s: Member, ops: seq<Op>, now: nat)
    requires WellFormed(st) && AllAtOnce(ops, now) && (s in st.leases ==> now < st.leases[s])
    ensures TimelyClaims(st, s, ops)
    decreases ops
  {
    if ops != [] {
      assert ops[0] in ops && forall op :: op in ops[1..] ==> op in ops;
      StepKeepsPool(st, ops[0]);
      FreshStaysFresh(st, s, ops[0], now);
      AllAtOnceIsTimely(Apply(st, ops[0]).0, s, ops[1..], now);
    }
  }

  lemma FreshStaysFresh(st: Store, s: Member, op: Op, now: nat)
    requires WellFormed(st) && (s in st.leases ==> now < st.leases[s])
    requires op.Init? || (op.Claim? && op.now == now && op.ttl > 0)
    ensures s in Apply(st, op).0.leases ==> now < Apply(st, op).0.leases[s]
  {
  }

  /** In no order do claims made at the same time, and any `init`s among them, hand out a slot twice. */
  lemma {:induction false} ToldOnce(st: Store, ops: seq<Op>, now: nat, i: nat, k: nat, s: Member)
    requires WellFormed(st) && AllAtOnce(ops, now) && i < k < |ops|
    ensures !(Replies(st, ops)[i] == Claimed(s) == Replies(st, ops)[k])
  {
    if Replies(st, ops)[i] == Claimed(s) == Replies(st, ops)[k] {
      var after := Run(st, ops[..i + 1]);
      RunKeepsPool(st, ops[..i + 1]);
      ClaimedIsFresh(st, ops, i, s);
      assert ops[i] in ops;
      assert forall op :: op in ops[i + 1..] ==> op in ops;
      AllAtOnceIsTimely(after, s, ops[i + 1..], now);
      var _ := ClaimedTwice(st, ops, i, k, s);
    }
  }

  lemma {:induction false} ClaimedIsFresh(st: Store, ops: seq<Op>, i: nat, s: Member)
    requires WellFormed(st) && i < |ops| && Replies(st, ops)[i] == Claimed(s)
    ensures var after := Run(st, ops[..i + 1]);
            ops[i].Claim? && s in after.leases && after.leases[s] == ops[i].now + ops[i].ttl
    decreases ops
  {
    var next := Apply(st, ops[0]).0;
    StepKeepsPool(st, ops[0]);
    assert ops[..i + 1][0] == ops[0] && ops[..i + 1][1..] == ops[1..][..i];
    assert Run(st, ops[..i + 1]) == Run(next, ops[1..][..i]);
    if i == 0 {
      OnlyClaimsClaim(st, ops[0]);
      ClaimOrRenewHolds(st, ops[0]);
    } else {
      ClaimedIsFresh(next, ops[1..], i - 1, s);
    }
  }
}
