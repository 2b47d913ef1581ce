/**
 A plain command whose Redis commands run back to back does exactly what the
 Lua script of the same name does, from any store and however many leases have
 expired.
 */
module NativeAlone {
  import opened Decimals
  import opened MemberOrder
  import opened SlotStore
  import opened PoolLoops
  import opened NativeMachine

  // Together a measure of the Redis commands a process still has to issue.

  function Stage(p: Proc): nat
  {
    match p
    case Scan(_, _, _) => 5
    case SweepRem(_, _, _, _) => 4
    case SweepAdd(_, _, _, _) => 4
    case SweepDel(_, _, _, _) => 4
    case Pop(_, _, _) => 3
    case PutLease(_, _, _, _) => 2
    case PutOwner(_, _) => 1
    case RenewGet(_, _, _) => 2
    case RenewPut(_, _, _) => 1
    case ReleaseGet(_, _) => 4
    case ReleaseDel(_, _, _) => 3
    case ReleaseRem(_, _, _) => 2
    case ReleaseAdd(_, _, _) => 1
    case InitCheck(_, _, _) => 1
    case InitAdd(_, _, _) => 1
    case Finished(_) => 0
    case Crashed => 0
  }

  function TurnsLeft(p: Proc): nat
  {
    if p.SweepRem? || p.SweepAdd? || p.SweepDel? then |p.todo|
    else if (p.InitCheck? || p.InitAdd?) && p.next <= p.max then p.max - p.next + 1
    else 0
  }

  function PlaceInTurn(p: Proc): nat
  {
    if p.SweepRem? then 2 else if p.SweepAdd? || p.InitCheck? then 1 else 0
  }

  predicate Proper(p: Proc)
  {
    TodoLeft(p) && (p.InitCheck? || p.InitAdd? ==> p.next <= p.max)
  }

  /** Issue all remaining commands of `p` without interruption. */
  ghost function Alone(st: Store, p: Proc, clock: nat): (Store, Proc)
    requires Proper(p)
    decreases Stage(p), TurnsLeft(p), PlaceInTurn(p)
  {
    if Over(p) then (st, p) else
      var (st', p') := Command(st, p, clock);
      Alone(st', p', clock)
  }

  lemma FreedThenFreedAll(st: Store, s: Member, rest: set<Member>, now: nat)
    ensures FreedAll(Freed(st, s, now), rest, now) == FreedAll(st, rest + {s}, now)
  {
    var a := FreedAll(Freed(st, s, now), rest, now);
    var b := FreedAll(st, rest + {s}, now);
    assert a.available == b.available;
    assert a.leases == b.leases;
    assert a.owner == b.owner;
  }

  lemma {:induction false} MembersFirst(ms: seq<Member>)
    requires ms != []
    ensures Members(ms) == Members(ms[1..]) + {ms[0]}
  {
    assert ms == [ms[0]] + ms[1..];
  }

  lemma NothingToFree(st: Store, now: nat)
    ensures FreedAll(st, Members([]), now) == st
  {
    assert FreedAll(st, {}, now).available == st.available;
  }

  lemma {:induction false} SweepAlone(st: Store, id: InstanceId, now: nat, ttl: nat, todo: seq<Member>, clock: nat)
    ensures Alone(st, SweepFrom(id, now, ttl, todo), clock)
         == Alone(FreedAll(st, Members(todo), now), Pop(id, now, ttl), clock)
    decreases todo
  {
    if todo == [] {
      NothingToFree(st, now);
    } else {
      var st1 := st.(leases := st.leases - {todo[0]});
      var st2 := st1.(available := st1.available[todo[0] := now]);
      var st3 := st2.(owner := st2.owner - {todo[0]});
      assert st3 == Freed(st, todo[0], now);
      assert Alone(st, SweepRem(id, now, ttl, todo), clock) == Alone(st1, SweepAdd(id, now, ttl, todo), clock);
      assert Alone(st1, SweepAdd(id, now, ttl, todo), clock) == Alone(st2, SweepDel(id, now, ttl, todo), clock);
      assert Alone(st2, SweepDel(id, now, ttl, todo), clock) == Alone(st3, SweepFrom(id, now, ttl, todo[1..]), clock);
      SweepAlone(st3, id, now, ttl, todo[1..], clock);
      FreedThenFreedAll(st, todo[0], Members(todo[1..]), now);
      MembersFirst(todo);
    }
  }

  lemma PopAlone(st: Store, id: InstanceId, now: nat, ttl: nat, clock: nat)
    ensures var (st', p') := Alone(st, Pop(id, now, ttl), clock);
            if st.available == map[] then st' == st && p' == Finished(Exhausted)
            else var s := Least(st.available);
              && st' == Store(st.available - {s}, st.leases[s := now + ttl], st.owner[s := id])
              && p' == Finished(Claimed(s))
  {
    if st.available != map[] {
      var s := Least(st.available);
      var st1 := st.(available := st.available - {s});
      var st2 := st1.(leases := st1.leases[s := now + ttl]);
      var st3 := st2.(owner := st2.owner[s := id]);
      assert Alone(st, Pop(id, now, ttl), clock) == Alone(st1, PutLease(id, now, ttl, s), clock);
      assert Alone(st1, PutLease(id, now, ttl, s), clock) == Alone(st2, PutOwner(id, s), clock);
      assert Alone(st2, PutOwner(id, s), clock) == Alone(st3, Finished(Claimed(s)), clock);
    } else {
      assert Alone(st, Pop(id, now, ttl), clock) == Alone(st, Finished(Exhausted), clock);
    }
  }

  lemma ClaimAlone(st: Store, id: InstanceId, now: nat, ttl: nat, clock: nat)
    ensures var (st', reply) := Apply(st, Claim(id, now, ttl));
            Alone(st, Scan(id, now, ttl), clock) == (st', Finished(reply))
  {
    var todo := Sorted(Expired(st, now));
    SortedLists(Expired(st, now));
    assert Members(todo) == Expired(st, now).Keys;
    SweepAlone(st, id, now, ttl, todo, clock);
    PopAlone(Swept(st, now), id, now, ttl, clock);
  }

  lemma RenewAlone(st: Store, id: InstanceId, slot: Member, ttl: nat, clock: nat)
    ensures var (st', reply) := Apply(st, Renew(id, slot, clock, ttl));
            Alone(st, RenewGet(id, slot, ttl), clock) == (st', Finished(reply))
  {
    if Owns(st, id, slot) {
      var st' := st.(leases := st.leases[slot := clock + ttl]);
      assert Alone(st, RenewGet(id, slot, ttl), clock) == Alone(st, RenewPut(id, slot, ttl), clock);
      assert Alone(st, RenewPut(id, slot, ttl), clock) == Alone(st', Finished(Accepted), clock);
    }
  }

  lemma ReleaseSlotAlone(st: Store, id: InstanceId, slot: Member, now: nat, clock: nat)
    ensures Alone(st, ReleaseDel(id, slot, now), clock) == (Freed(st, slot, now), Finished(Accepted))
  {
    var st1 := st.(owner := st.owner - {slot});
    var st2 := st1.(leases := st1.leases - {slot});
    assert Alone(st, ReleaseDel(id, slot, now), clock) == Alone(st1, ReleaseRem(id, slot, now), clock);
    assert Alone(st1, ReleaseRem(id, slot, now), clock) == Alone(st2, ReleaseAdd(id, slot, now), clock);
    assert Alone(st2, ReleaseAdd(id, slot, now), clock) == Alone(Freed(st, slot, now), Finished(Accepted), clock);
  }

  lemma ReleaseAlone(st: Store, id: InstanceId, slot: Member, clock: nat)
    ensures var (st', reply) := Apply(st, Release(id, slot, clock));
            Alone(st, ReleaseGet(id, slot), clock) == (st', Finished(reply))
  {
    ReleaseSlotAlone(st, id, slot, clock, clock);
  }

  /** One turn of the `init` loop: look at `next`, add it if it is missing, go on. */
  lemma InitTurnAlone(st: Store, next: nat, max: nat, added: nat, clock: nat)
    requires next <= max
    ensures var (st', added') := InitTurn(st, Decimal(next), added);
            Alone(st, InitCheck(next, max, added), clock) == Alone(st', InitFrom(next + 1, max, added'), clock)
  {
    if Decimal(next) !in st.leases {
      assert Alone(st, InitCheck(next, max, added), clock) == Alone(st, InitAdd(next, max, added), clock);
    }
  }

  /** What one turn of the `init` loop does about slot `s`. */
  function InitTurn(st: Store, s: Member, added: nat): (Store, nat)
  {
    if s in st.leases || s in st.available then (st, added)
    else (st.(available := st.available[s := 0]), added + 1)
  }

  /** The `init` loop from slot number `next` on. */
  function InitLoop(st: Store, next: nat, max: nat, added: nat): (Store, nat)
    decreases max + 1 - next
  {
    if next > max then (st, added) else
      var (st', added') := InitTurn(st, Decimal(next), added);
      InitLoop(st', next + 1, max, added')
  }

  lemma {:induction false} InitAloneIsLoop(st: Store, next: nat, max: nat, added: nat, clock: nat)
    ensures var (st', n) := InitLoop(st, next, max, added);
            Alone(st, InitFrom(next, max, added), clock) == (st', Finished(Added(n)))
    decreases max + 1 - next
  {
    if next <= max {
      InitTurnAlone(st, next, max, added, clock);
      var (st', added') := InitTurn(st, Decimal(next), added);
      InitAloneIsLoop(st', next + 1, max, added', clock);
    }
  }

  ghost predicate InitSoFar(before: Store, lo: nat, next: nat, st: Store, added: nat)
  {
    st == AddFresh(before, AddedBefore(before, lo, next)) && added == |AddedBefore(before, lo, next)|
  }

  lemma InitSoFarStep(before: Store, lo: nat, next: nat, st: Store, added: nat)
    requires lo <= next && InitSoFar(before, lo, next, st, added)
    ensures var (st', added') := InitTurn(st, Decimal(next), added);
            InitSoFar(before, lo, next + 1, st', added')
  {
    AddedBeforeStep(before, lo, next);
  }

  lemma {:induction false} InitLoopAddsMissing(before: Store, lo: nat, next: nat, max: nat, st: Store, added: nat)
    requires lo <= next <= max + 1
    requires InitSoFar(before, lo, next, st, added)
    ensures var (st', n) := InitLoop(st, next, max, added);
            InitSoFar(before, lo, max + 1, st', n)
    decreases max + 1 - next
  {
    hide InitSoFar, InitTurn, Decimal;
    if next <= max {
      InitSoFarStep(before, lo, next, st, added);
      var (st', added') := InitTurn(st, Decimal(next), added);
      InitLoopAddsMissing(before, lo, next + 1, max, st', added');
    }
  }

  lemma InitAlone(st: Store, lo: nat, hi: nat, clock: nat)
    requires lo <= hi
    ensures var (st', reply) := Apply(st, Init(lo, hi));
            Alone(st, InitCheck(lo, hi, 0), clock) == (st', Finished(reply))
  {
    NothingAddedYet(st, lo);
    InitAloneIsLoop(st, lo, hi, 0, clock);
    InitLoopAddsMissing(st, lo, lo, hi, st, 0);
  }
}
