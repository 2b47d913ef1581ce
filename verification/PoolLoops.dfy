/**
 One turn of the two loops that `init` and `claim` run, in the scripts and in
 the plain commands alike, and what a partly finished loop has done.
 */
module PoolLoops {
  import opened Decimals
  import opened MemberOrder
  import opened SlotStore
  import opened Redis

  /** One turn of the `init` loop: `slot` joins the free set unless it is leased or already there. */
  method AddIfMissing(db: Server, ghost before: Store, ghost lo: nat, slot: nat) returns (n: nat)
    requires lo <= slot
    requires db.State() == AddFresh(before, AddedBefore(before, lo, slot))
    modifies db
    ensures db.State() == AddFresh(before, AddedBefore(before, lo, slot + 1))
    ensures n == |AddedBefore(before, lo, slot + 1)| - |AddedBefore(before, lo, slot)|
  {
    var s := Decimal(slot);
    AddedBeforeStep(before, lo, slot);
    hide Decimal, NamesBelow;
    n := 0;
    var score := db.ZScoreLease(s);
    if score.None? {
      n := db.ZAddAvailableNX(s, 0);
    }
  }

  /** The whole loop: every slot of the range that is neither leased nor free joins the free set. */
  method AddAllMissing(db: Server, lo: nat, hi: nat) returns (added: nat)
    requires lo <= hi
    modifies db
    ensures db.State() == AddFresh(old(db.State()), Missing(old(db.State()), lo, hi))
    ensures added == |Missing(old(db.State()), lo, hi)|
  {
    ghost var before := db.State();
    NothingAddedYet(before, lo);
    AllAdded(before, lo, hi);
    assert |AddedBefore(before, lo, lo)| == 0;
    hide AddedBefore, Missing, AddFresh;
    added := 0;
    for slot := lo to hi + 1
      invariant added == |AddedBefore(before, lo, slot)|
      invariant db.State() == AddFresh(before, AddedBefore(before, lo, slot))
    {
      var n := AddIfMissing(db, before, lo, slot);
      added := added + n;
    }
  }

  /** `init`: an empty range is refused before anything is sent. */
  method Init(db: Server, lo: nat, hi: nat) returns (reply: Reply)
    modifies db
    ensures (db.State(), reply) == Apply(old(db.State()), Op.Init(lo, hi))
  {
    if lo > hi {
      return BadRange;
    }
    var added := AddAllMissing(db, lo, hi);
    reply := Added(added);
  }

  /** One turn of the sweep: an expired lease becomes a free slot. */
  method SweepOne(db: Server, slot: Member, now: nat)
    modifies db
    ensures db.State() == Freed(old(db.State()), slot, now)
  {
    db.ZRemLease(slot);
    db.ZAddAvailable(slot, now);
    db.DelOwner(slot);
  }

  /** The whole sweep: every expired lease becomes a free slot. */
  method Sweep(db: Server, now: nat)
    modifies db
    ensures db.State() == Swept(old(db.State()), now)
  {
    hide Sorted;
    ghost var before := db.State();
    var expired := db.ZRangeLeases(now);
    for i := 0 to |expired|
      invariant db.State() == FreedAll(before, Members(expired[..i]), now)
    {
      MembersStep(expired, i);
      FreedAllStep(before, Members(expired[..i]), expired[i], now);
      SweepOne(db, expired[i], now);
    }
    assert expired[..|expired|] == expired;
    SortedLists(Expired(before, now));
    assert Members(expired) == Expired(before, now).Keys;
  }

  function Members(ms: seq<Member>): set<Member>
  {
    set m | m in ms
  }

  lemma {:induction false} MembersStep(ms: seq<Member>, i: nat)
    requires i < |ms|
    ensures Members(ms[..i + 1]) == Members(ms[..i]) + {ms[i]}
  {
    assert ms[..i + 1] == ms[..i] + [ms[i]];
  }

  /** Slots an `init` has added once it has looked at `lo` up to `next - 1`. */
  function AddedBefore(st: Store, lo: nat, next: nat): set<Member>
  {
    NamesBelow(lo, next) - st.leases.Keys - st.available.Keys
  }

  lemma AllAdded(st: Store, lo: nat, hi: nat)
    ensures AddedBefore(st, lo, hi + 1) == Missing(st, lo, hi)
  {
  }

  lemma NothingAddedYet(st: Store, lo: nat)
    ensures AddedBefore(st, lo, lo) == {} && AddFresh(st, {}) == st
  {
    assert AddFresh(st, {}).available == st.available;
  }

  /** What looking at slot number `next` adds, given all that was added before it. */
  lemma AddedBeforeStep(st: Store, lo: nat, next: nat)
    requires lo <= next
    ensures var s := Decimal(next);
            var done := AddFresh(st, AddedBefore(st, lo, next));
            var skip := s in done.leases || s in done.available;
            && done.leases == st.leases
            && AddFresh(st, AddedBefore(st, lo, next + 1)) ==
               (if skip then done else done.(available := done.available[s := 0]))
            && |AddedBefore(st, lo, next + 1)| == |AddedBefore(st, lo, next)| + if skip then 0 else 1
  {
    var s := Decimal(next);
    NamesAreBelow(lo, next, next);
    assert NamesBelow(lo, next + 1) == NamesBelow(lo, next) + {s};
    hide Decimal, NamesBelow;
    AddOne(st, NamesBelow(lo, next), s);
  }

  /** The same, for any set of names looked at so far and any new name. */
  lemma AddOne(st: Store, seen: set<Member>, s: Member)
    requires s !in seen
    ensures var wanted := seen - st.leases.Keys - st.available.Keys;
            var wanted' := seen + {s} - st.leases.Keys - st.available.Keys;
            var skip := s in st.leases || s in st.available;
            && wanted' == (if skip then wanted else wanted + {s})
            && s !in wanted
            && (!skip ==> AddFresh(st, wanted').available == AddFresh(st, wanted).available[s := 0])
  {
  }
}
