/**
 The slot pool kept in Redis and what each operation on it means, as one step
 from store to store. The Lua scripts and the plain commands are both proved
 against these functions.
 */
module SlotStore {
  import opened Decimals
  import opened MemberOrder

  type InstanceId = string

  /**
   `slots:available` scores a free slot with the time it became free;
   `slots:leases` scores a leased slot with the time its lease runs out;
   `owner` holds the `slot:owner:<n>` keys.
   */
  datatype Store = Store(
    available: map<Member, int>,
    leases: map<Member, int>,
    owner: map<Member, InstanceId>)

  const EMPTY := Store(map[], map[], map[])

  datatype Op =
    | Init(lo: nat, hi: nat)
    | Claim(id: InstanceId, now: nat, ttl: nat)
    | Renew(id: InstanceId, slot: Member, now: nat, ttl: nat)
    | Release(id: InstanceId, slot: Member, now: nat)
    | DaemonRelease(slot: Member, now: nat)

  datatype Reply =
    | BadRange
    | Added(n: nat)
    | Claimed(slot: Member)
    | Exhausted
    | Accepted
    | Refused

  /** The slot names `lo`, ..., `next - 1`. */
  function NamesBelow(lo: nat, next: nat): set<Member>
  {
    if next <= lo then {} else NamesBelow(lo, next - 1) + {Decimal(next - 1)}
  }

  /** The slot names of one `init` range. */
  function Range(lo: nat, hi: nat): set<Member>
  {
    NamesBelow(lo, hi + 1)
  }

  lemma {:induction false} NamesAreBelow(lo: nat, next: nat, n: nat)
    ensures Decimal(n) in NamesBelow(lo, next) <==> lo <= n < next
  {
    if lo < next {
      NamesAreBelow(lo, next - 1, n);
      if Decimal(n) == Decimal(next - 1) {
        DecimalInjective(n, next - 1);
      }
    }
  }

  /** The leases whose expiry is not after `now`. */
  function Expired(st: Store, now: nat): map<Member, int>
  {
    st.leases - set s | s in st.leases && now < st.leases[s]
  }

  /** Slots `init` adds: those of the range that are neither leased nor free. */
  function Missing(st: Store, lo: nat, hi: nat): (r: set<Member>)
  {
    Range(lo, hi) - st.leases.Keys - st.available.Keys
  }

  /** Free slots that nobody ever released: score 0 ranks before any clock. */
  function AddFresh(st: Store, slots: set<Member>): Store
  {
    st.(available := st.available + map s | s in slots :: 0)
  }

  /** The slots of `gone` become free together, with `now` as their score. */
  function FreedAll(st: Store, gone: set<Member>, now: nat): Store
  {
    Store(st.available + (map s | s in gone :: now), st.leases - gone, st.owner - gone)
  }

  /** What a claim's sweep does: every expired lease becomes free. */
  function Swept(st: Store, now: nat): Store
  {
    FreedAll(st, Expired(st, now).Keys, now)
  }

  ghost function ClaimFrom(st: Store, id: InstanceId, now: nat, ttl: nat): (Store, Reply)
  {
    var sw := Swept(st, now);
    if sw.available == map[] then (sw, Exhausted) else
      var s := Least(sw.available);
      (Store(sw.available - {s}, sw.leases[s := now + ttl], sw.owner[s := id]), Claimed(s))
  }

  predicate Owns(st: Store, id: InstanceId, slot: Member)
  {
    slot in st.owner && st.owner[slot] == id
  }

  function RenewIn(st: Store, id: InstanceId, slot: Member, now: nat, ttl: nat): (Store, Reply)
  {
    if Owns(st, id, slot) then (st.(leases := st.leases[slot := now + ttl]), Accepted) else (st, Refused)
  }

  /** A slot put back into the free set, whoever held it. */
  function Freed(st: Store, slot: Member, now: nat): Store
  {
    Store(st.available[slot := now], st.leases - {slot}, st.owner - {slot})
  }

  function ReleaseIn(st: Store, id: InstanceId, slot: Member, now: nat): (Store, Reply)
  {
    if Owns(st, id, slot) then (Freed(st, slot, now), Accepted) else (st, Refused)
  }

  lemma FreedAllStep(st: Store, gone: set<Member>, s: Member, now: nat)
    ensures FreedAll(st, gone + {s}, now) == Freed(FreedAll(st, gone, now), s, now)
  {
    var a, b := FreedAll(st, gone + {s}, now), Freed(FreedAll(st, gone, now), s, now);
    assert a.available == b.available;
    assert a.leases == b.leases;
    assert a.owner == b.owner;
  }

  /** One atomic operation: the new store and what the caller is told. */
  ghost function Apply(st: Store, op: Op): (Store, Reply)
  {
    match op
    case Init(lo, hi) =>
      if lo > hi then (st, BadRange) else (AddFresh(st, Missing(st, lo, hi)), Added(|Missing(st, lo, hi)|))
    case Claim(id, now, ttl) => ClaimFrom(st, id, now, ttl)
    case Renew(id, slot, now, ttl) => RenewIn(st, id, slot, now, ttl)
    case Release(id, slot, now) => ReleaseIn(st, id, slot, now)
    case DaemonRelease(slot, now) => (Freed(st, slot, now), Accepted)
  }

  /** Free and leased slots are disjoint; exactly the leased slots have owners. */
  ghost predicate WellFormed(st: Store)
  {
    st.available.Keys !! st.leases.Keys && st.owner.Keys == st.leases.Keys
  }

  function Pool(st: Store): set<Member>
  {
    st.available.Keys + st.leases.Keys
  }
}
