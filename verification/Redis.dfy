/**
 The Redis server as the slot tools see it: two sorted sets and the owner keys,
 changed in place by single commands.
 */
module Redis {
  import opened Options
  import opened MemberOrder
  import opened SlotStore

  method ListSorted(m: map<Member, int>) returns (ms: seq<Member>)
    ensures ms == Sorted(m)
  {
    var rest := m;
    ms := [];
    while rest != map[]
      invariant ms + Sorted(rest) == Sorted(m)
      decreases |rest|
    {
      var s := TakeLeast(rest);
      SortedTakesLeast(rest, s);
      assert ms + ([s] + Sorted(rest - {s})) == (ms + [s]) + Sorted(rest - {s});
      ms := ms + [s];
      rest := rest - {s};
    }
  }

  method TakeLeast(m: map<Member, int>) returns (s: Member)
    requires m != map[]
    ensures s == Least(m) && IsLeast(m, s)
  {
    ghost var first := Least(m);
    s :| s in m && forall t :: t in m && t != s ==> Before(m, s, t);
    LeastIsUnique(m, s, first);
  }

  class Server {
    var available: map<Member, int>
    var leases: map<Member, int>
    var owner: map<Member, InstanceId>

    ghost function State(): Store
      reads this
    {
      Store(available, leases, owner)
    }

    constructor ()
      ensures State() == EMPTY
    {
      available, leases, owner := map[], map[], map[];
    }

    /** `ZSCORE slots:leases slot` */
    method ZScoreLease(slot: Member) returns (score: Option<int>)
      ensures score.Some? <==> slot in leases
      ensures score.Some? ==> score.value == leases[slot]
    {
      score := if slot in leases then Some(leases[slot]) else None;
    }

    /** `ZADD slots:available NX score slot`; returns how many were added. */
    method ZAddAvailableNX(slot: Member, score: int) returns (added: nat)
      modifies `available
      ensures added == if slot in old(available) then 0 else 1
      ensures available == if slot in old(available) then old(available) else old(available)[slot := score]
    {
      if slot in available {
        added := 0;
      } else {
        available := available[slot := score];
        added := 1;
      }
    }

    /** `ZADD slots:available score slot` */
    method ZAddAvailable(slot: Member, score: int)
      modifies `available
      ensures available == old(available)[slot := score]
    {
      available := available[slot := score];
    }

    /** `ZADD slots:leases score slot` */
    method ZAddLease(slot: Member, score: int)
      modifies `leases
      ensures leases == old(leases)[slot := score]
    {
      leases := leases[slot := score];
    }

    /** `ZREM slots:leases slot` */
    method ZRemLease(slot: Member)
      modifies `leases
      ensures leases == old(leases) - {slot}
    {
      leases := leases - {slot};
    }

    /** `ZRANGEBYSCORE slots:leases -inf now` */
    method ZRangeLeases(now: nat) returns (slots: seq<Member>)
      ensures slots == Sorted(Expired(State(), now))
      ensures forall s :: s in slots <==> s in leases && leases[s] <= now
      ensures forall i, j :: 0 <= i < j < |slots| ==>
                slots[i] in leases && slots[j] in leases && Before(leases, slots[i], slots[j])
    {
      SortedLists(Expired(State(), now));
      SortedIsOrdered(Expired(State(), now));
      slots := ListSorted(leases - set s | s in leases && now < leases[s]);
    }

    /** `ZPOPMIN slots:available 1` */
    method ZPopMinAvailable() returns (slot: Option<Member>)
      modifies `available
      ensures slot.None? <==> old(available) == map[]
      ensures slot.None? ==> available == old(available)
      ensures slot.Some? ==> slot.value == Least(old(available)) && available == old(available) - {slot.value}
    {
      if available == map[] {
        slot := None;
      } else {
        var s := TakeLeast(available);
        available := available - {s};
        slot := Some(s);
      }
    }

    /** `GET slot:owner:<slot>` */
    method GetOwner(slot: Member) returns (id: Option<InstanceId>)
      ensures id.Some? <==> slot in owner
      ensures id.Some? ==> id.value == owner[slot]
    {
      id := if slot in owner then Some(owner[slot]) else None;
    }

    /** `SET slot:owner:<slot> id` */
    method SetOwner(slot: Member, id: InstanceId)
      modifies `owner
      ensures owner == old(owner)[slot := id]
    {
      owner := owner[slot := id];
    }

    /** `DEL slot:owner:<slot>` */
    method DelOwner(slot: Member)
      modifies `owner
      ensures owner == old(owner) - {slot}
    {
      owner := owner - {slot};
    }
  }
}
