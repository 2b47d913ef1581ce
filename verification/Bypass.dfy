/**
 Free slots are handed out in turn: how many claims can overtake a free slot,
 and how long a slot cools off before it is used again.
 */
module Bypass {
  import opened MemberOrder
  import opened SlotStore
  import opened AtomicRuns
  import opened Sets

  /** The free slots that `ZPOPMIN` would take before `s`. */
  ghost function Ahead(m: map<Member, int>, s: Member): set<Member>
    requires s in m
  {
    set t | t in m && Before(m, t, s)
  }

  ghost function Rank(m: map<Member, int>, s: Member): nat
    requires s in m
  {
    |Ahead(m, s)|
  }

  /** No `init`, and everything freed from now on is freed after time `score`. */
  ghost predicate Later(score: int, st: Store, op: Op)
  {
    match op
    case Init(_, _) => false
    case Claim(_, now, _) => score < now
    case Renew(_, _, _, _) => true
    case Release(_, _, now) => score < now
    case DaemonRelease(slot, now) => score < now && slot in st.leases
  }

  ghost predicate LaterRun(score: int, st: Store, ops: seq<Op>)
    decreases ops
  {
    ops == [] || (Later(score, st, ops[0]) && LaterRun(score, Apply(st, ops[0]).0, ops[1..]))
  }

  function Claims(ops: seq<Op>): nat
  {
    if ops == [] then 0 else (if ops[0].Claim? then 1 else 0) + Claims(ops[1..])
  }

  // -- one operation -------------------------------------------------------------

  /** Slots freed later than `s` do not get ahead of it. */
  lemma FreedAllStayBehind(st: Store, s: Member, gone: set<Member>, now: nat)
    requires WellFormed(st) && s in st.available && st.available[s] < now && gone <= st.leases.Keys
    ensures var m' := FreedAll(st, gone, now).available;
            s in m' && m'[s] == st.available[s] && Ahead(m', s) == Ahead(st.available, s)
  {
  }

  lemma FreedStaysBehind(st: Store, s: Member, slot: Member, now: nat)
    requires WellFormed(st) && s in st.available && st.available[s] < now && slot in st.leases
    ensures var m' := Freed(st, slot, now).available;
            s in m' && m'[s] == st.available[s] && Ahead(m', s) == Ahead(st.available, s)
  {
  }

  /** The least slot is `s` when nothing is ahead of it, and else one of those ahead. */
  lemma LeastIsAhead(m: map<Member, int>, s: Member)
    requires s in m
    ensures Rank(m, s) == 0 ==> Least(m) == s
    ensures Rank(m, s) > 0 ==> Least(m) in Ahead(m, s)
  {
    var t := Least(m);
    BeforeIsTotal(m, t, s);
    if t != s {
      assert t in Ahead(m, s);
    } else {
      forall u | u in m ensures u !in Ahead(m, s) {
        BeforeIsTotal(m, s, u);
      }
      assert Ahead(m, s) == {};
    }
  }

  lemma PopMovesUp(m: map<Member, int>, s: Member, t: Member)
    requires s in m && t in Ahead(m, s)
    ensures t != s
    ensures s in m - {t} && Rank(m - {t}, s) == Rank(m, s) - 1
  {
    BeforeIsTotal(m, s, s);
    assert Ahead(m - {t}, s) == Ahead(m, s) - {t};
  }

  /** A claim hands out `s` when `s` is first, and otherwise moves it up by one. */
  lemma ClaimMovesUp(st: Store, s: Member, id: InstanceId, now: nat, ttl: nat)
    requires WellFormed(st) && s in st.available && st.available[s] < now
    ensures var (st', reply) := ClaimFrom(st, id, now, ttl);
            if Rank(st.available, s) == 0 then reply == Claimed(s)
            else && reply != Claimed(s)
                 && s in st'.available && st'.available[s] == st.available[s]
                 && Rank(st'.available, s) == Rank(st.available, s) - 1
  {
    var sw := Swept(st, now);
    var gone := Expired(st, now).Keys;
    FreedAllStayBehind(st, s, gone, now);
    LeastIsAhead(sw.available, s);
    if Rank(st.available, s) > 0 {
      PopMovesUp(sw.available, s, Least(sw.available));
    }
  }

  lemma OthersKeepRank(st: Store, s: Member, op: Op)
    requires WellFormed(st) && s in st.available && Later(st.available[s], st, op) && !op.Claim?
    ensures var (st', reply) := Apply(st, op);
            && !reply.Claimed?
            && s in st'.available && st'.available[s] == st.available[s]
            && Rank(st'.available, s) == Rank(st.available, s)
  {
    match op {
      case Renew(id, slot, now, ttl) =>
      case Release(id, slot, now) =>
        if Owns(st, id, slot) {
          FreedStaysBehind(st, s, slot, now);
        }
      case DaemonRelease(slot, now) =>
        FreedStaysBehind(st, s, slot, now);
    }
  }

  // -- whole runs ------------------------------------------------------------------

  /** Up to `Rank` claims pass a free slot by; each one moves it up by exactly one. */
  lemma {:induction false} MovesUp(st: Store, s: Member, ops: seq<Op>)
    requires WellFormed(st) && s in st.available && LaterRun(st.available[s], st, ops)
    requires Claims(ops) <= Rank(st.available, s)
    ensures var st' := Run(st, ops);
            && WellFormed(st')
            && s in st'.available && st'.available[s] == st.available[s]
            && Rank(st'.available, s) == Rank(st.available, s) - Claims(ops)
    ensures forall k :: 0 <= k < |ops| ==> Replies(st, ops)[k] != Claimed(s)
    decreases ops
  {
    if ops != [] {
      StepKeepsPool(st, ops[0]);
      if ops[0].Claim? {
        ClaimMovesUp(st, s, ops[0].id, ops[0].now, ops[0].ttl);
      } else {
        OthersKeepRank(st, s, ops[0]);
      }
      MovesUp(Apply(st, ops[0]).0, s, ops[1..]);
    }
  }

  lemma {:induction false} LaterPrefix(score: int, st: Store, ops: seq<Op>, j: nat)
    requires j < |ops| && LaterRun(score, st, ops)
    ensures LaterRun(score, st, ops[..j])
    ensures Later(score, Run(st, ops[..j]), ops[j])
    ensures Replies(st, ops)[j] == Apply(Run(st, ops[..j]), ops[j]).1
    decreases ops
  {
    if j > 0 {
      LaterPrefix(score, Apply(st, ops[0]).0, ops[1..], j - 1);
      assert ops[..j][1..] == ops[1..][..j - 1];
      assert ops[..j][0] == ops[0];
    } else {
      assert ops[..0] == [];
    }
  }

  /** Bounded bypass: of the coming claims, the one with number `Rank` (from 0) gets `s`, and no earlier one. */
  lemma {:induction false} BoundedBypass(st: Store, s: Member, ops: seq<Op>, j: nat)
    requires WellFormed(st) && s in st.available && LaterRun(st.available[s], st, ops)
    requires j < |ops| && ops[j].Claim? && Claims(ops[..j]) <= Rank(st.available, s)
    ensures Replies(st, ops)[j] == Claimed(s) <==> Claims(ops[..j]) == Rank(st.available, s)
  {
    LaterPrefix(st.available[s], st, ops, j);
    MovesUp(st, s, ops[..j]);
    ClaimMovesUp(Run(st, ops[..j]), s, ops[j].id, ops[j].now, ops[j].ttl);
  }

  lemma {:induction false} TurnExists(ops: seq<Op>, r: nat) returns (j: nat)
    requires r < Claims(ops)
    ensures j < |ops| && ops[j].Claim? && Claims(ops[..j]) == r
  {
    if ops[0].Claim? && r == 0 {
      j := 0;
    } else {
      var i := TurnExists(ops[1..], if ops[0].Claim? then r - 1 else r);
      j := i + 1;
      assert ops[..j][1..] == ops[1..][..i] && ops[..j][0] == ops[0];
    }
  }

  lemma {:induction false} LaterWeakens(low: int, high: int, st: Store, ops: seq<Op>)
    requires low <= high && LaterRun(high, st, ops)
    ensures LaterRun(low, st, ops)
    decreases ops
  {
    if ops != [] {
      LaterWeakens(low, high, Apply(st, ops[0]).0, ops[1..]);
    }
  }

  lemma LastFreedRank(m: map<Member, int>, s: Member, t: Member)
    requires s in m && t in m && t != s
    requires forall u :: u in m && u != s ==> m[u] < m[s]
    ensures Rank(m, t) < Rank(m, s)
  {
    BeforeIsTotal(m, s, s);
    BeforeIsTotal(m, t, t);
    assert t in Ahead(m, s);
    assert Ahead(m, t) <= Ahead(m, s) - {t} by {
      forall u | u in Ahead(m, t) ensures u in Ahead(m, s) - {t} {
        if u == s {
          BeforeIsTotal(m, s, t);
        }
      }
    }
    SubsetIsSmaller(Ahead(m, t), Ahead(m, s) - {t});
  }

  lemma {:induction false} PrefixRun(score: int, st: Store, ops: seq<Op>, k: nat)
    requires k <= |ops| && LaterRun(score, st, ops)
    ensures LaterRun(score, st, ops[..k])
    ensures Replies(st, ops[..k]) == Replies(st, ops)[..k]
  {
    if k < |ops| {
      LaterPrefix(score, st, ops, k);
    } else {
      assert ops[..k] == ops;
    }
    assert ops[..k] + ops[k..] == ops;
    RunSplits(st, ops[..k], ops[k..]);
  }

  /** A slot freed strictly later than all others is reused only after every slot then free has been handed out. */
  lemma {:induction false} CoolsOffLongest(st: Store, s: Member, ops: seq<Op>, k: nat, t: Member)
    requires WellFormed(st) && s in st.available && t in st.available && t != s
    requires forall u :: u in st.available && u != s ==> st.available[u] < st.available[s]
    requires LaterRun(st.available[s], st, ops)
    requires k < |ops| && Replies(st, ops)[k] == Claimed(s)
    ensures exists j :: 0 <= j < k && Replies(st, ops)[j] == Claimed(t)
  {
    var r := Rank(st.available, s);
    LaterPrefix(st.available[s], st, ops, k);
    PrefixRun(st.available[s], st, ops, k);
    if Claims(ops[..k]) < r {
      BoundedBypass(st, s, ops, k);
    }
    LastFreedRank(st.available, s, t);
    LaterWeakens(st.available[t], st.available[s], st, ops);
    var j := TurnExists(ops[..k], Rank(st.available, t));
    assert ops[..k][j] == ops[j] && ops[..k][..j] == ops[..j];
    BoundedBypass(st, t, ops, j);
  }
}
