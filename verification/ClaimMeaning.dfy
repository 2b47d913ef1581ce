/**
 What the atomic operations do, slot by slot and in plain terms: which slot a claim
 is told, by score and then by the bytes of the name, and what becomes of every
 other slot.
 */
module ClaimMeaning {
  import opened Decimals
  import opened MemberOrder
  import opened SlotStore

  /** Byte order: a proper prefix, or a smaller character at the first difference. */
  predicate SmallerName(a: string, b: string)
  {
    a < b || exists k :: 0 <= k < |a| && k < |b| && a[..k] == b[..k] && a[k] < b[k]
  }

  lemma {:induction false} LexLessIsByteOrder(a: string, b: string)
    ensures LexLess(a, b) <==> SmallerName(a, b)
  {
    if a == "" {
      assert b != "" ==> a < b;
    } else if b == "" {
    } else if a[0] != b[0] {
      if a[0] < b[0] {
        assert a[..0] == b[..0];
      }
      FirstDecides(a, b);
    } else {
      LexLessIsByteOrder(a[1..], b[1..]);
      SmallerBehindFirst(a, b);
    }
  }

  lemma FirstDecides(a: string, b: string)
    requires a != "" && b != "" && a[0] != b[0]
    ensures SmallerName(a, b) <==> a[0] < b[0]
  {
    assert a[..0] == b[..0];
    assert forall k :: 0 < k < |a| && k < |b| ==> a[..k][0] == a[0] && b[..k][0] == b[0];
  }

  lemma SmallerBehindFirst(a: string, b: string)
    requires a != "" && b != "" && a[0] == b[0]
    ensures SmallerName(a, b) <==> SmallerName(a[1..], b[1..])
  {
    var c, d := a[1..], b[1..];
    assert a == [a[0]] + c && b == [a[0]] + d;
    if SmallerName(a, b) && !(a < b) {
      var k :| 0 <= k < |a| && k < |b| && a[..k] == b[..k] && a[k] < b[k];
      assert k > 0;
      assert c[..k - 1] == a[..k][1..] == b[..k][1..] == d[..k - 1] && c[k - 1] < d[k - 1];
    }
    if SmallerName(c, d) && !(c < d) {
      var k :| 0 <= k < |c| && k < |d| && c[..k] == d[..k] && c[k] < d[k];
      assert a[..k + 1] == [a[0]] + c[..k] == [a[0]] + d[..k] == b[..k + 1] && a[k + 1] < b[k + 1];
    }
  }

  // -- claim ---------------------------------------------------------------------------

  /** Its lease has run out at `now`. */
  predicate RanOut(st: Store, now: nat, t: Member)
  {
    t in st.leases && st.leases[t] <= now
  }

  /** Free once the expired leases are swept. */
  predicate FreeBy(st: Store, now: nat, t: Member)
  {
    t in st.available || RanOut(st, now, t)
  }

  /** Since when: for a swept slot, since the claim's own clock. */
  function Since(st: Store, now: nat, t: Member): int
    requires FreeBy(st, now, t)
  {
    if RanOut(st, now, t) then now else st.available[t]
  }

  /** The slot told: the longest free, and of those equally long free the one with the smallest name. */
  lemma ClaimTells(st: Store, id: InstanceId, now: nat, ttl: nat)
    ensures match Apply(st, Claim(id, now, ttl)).1
            case Claimed(s) =>
              && FreeBy(st, now, s)
              && forall t :: FreeBy(st, now, t) && t != s ==>
                   || Since(st, now, s) < Since(st, now, t)
                   || (Since(st, now, s) == Since(st, now, t) && SmallerName(s, t))
            case reply => reply == Exhausted && forall t :: !FreeBy(st, now, t)
  {
    var sw := Swept(st, now);
    FreeIsAvailable(st, now);
    if sw.available != map[] {
      var s := Least(sw.available);
      forall t | FreeBy(st, now, t) && t != s
        ensures || Since(st, now, s) < Since(st, now, t)
                || (Since(st, now, s) == Since(st, now, t) && SmallerName(s, t))
      {
        LexLessIsByteOrder(s, t);
        assert t in sw.available && Before(sw.available, s, t);
      }
    } else {
      forall t ensures !FreeBy(st, now, t) {
        assert t !in sw.available;
      }
    }
  }

  lemma FreeIsAvailable(st: Store, now: nat)
    ensures var sw := Swept(st, now);
            forall t :: (t in sw.available <==> FreeBy(st, now, t))
                     && (FreeBy(st, now, t) ==> sw.available[t] == Since(st, now, t))
  {
  }

  /** What a claim leaves of every slot. */
  lemma ClaimLeaves(st: Store, id: InstanceId, now: nat, ttl: nat, t: Member)
    ensures var (st', reply) := Apply(st, Claim(id, now, ttl));
            && (t in st'.available <==> FreeBy(st, now, t) && reply != Claimed(t))
            && (t in st'.available ==> st'.available[t] == Since(st, now, t))
            && (t in st'.leases <==> reply == Claimed(t) || (t in st.leases && now < st.leases[t]))
            && (t in st'.leases ==> st'.leases[t] == if reply == Claimed(t) then now + ttl else st.leases[t])
            && (t in st'.owner <==> reply == Claimed(t) || (t in st.owner && !RanOut(st, now, t)))
            && (t in st'.owner ==> st'.owner[t] == if reply == Claimed(t) then id else st.owner[t])
  {
    FreeIsAvailable(st, now);
  }

  // -- init and release ---------------------------------------------------------------------

  /** `init` adds, with score 0, the numbers of its range that are neither leased nor free. */
  lemma InitLeaves(st: Store, lo: nat, hi: nat, t: Member)
    requires lo <= hi
    ensures var st' := Apply(st, Init(lo, hi)).0;
            && st'.leases == st.leases && st'.owner == st.owner
            && (t in st'.available <==>
                  t in st.available || (t !in st.leases && exists n :: lo <= n <= hi && t == Decimal(n)))
            && (t in st'.available ==> st'.available[t] == if t in st.available then st.available[t] else 0)
  {
    InRange(lo, hi + 1, t);
  }

  lemma {:induction false} InRange(lo: nat, next: nat, t: Member)
    ensures t in NamesBelow(lo, next) <==> exists n :: lo <= n < next && t == Decimal(n)
  {
    if lo < next {
      InRange(lo, next - 1, t);
      if t in NamesBelow(lo, next - 1) {
        var n :| lo <= n < next - 1 && t == Decimal(n);
        assert lo <= n < next;
      }
      if n :| lo <= n < next && t == Decimal(n) {
        NamesAreBelow(lo, next, n);
      }
    }
  }

  /** An accepted release, or the daemon's, makes the slot free since its clock; nothing else changes. */
  lemma ReleaseLeaves(st: Store, op: Op, t: Member)
    requires op.Release? || op.DaemonRelease?
    ensures var (st', reply) := Apply(st, op);
            var accepted := op.DaemonRelease? || (op.slot in st.owner && st.owner[op.slot] == op.id);
            && reply == (if accepted then Accepted else Refused)
            && (!accepted ==> st' == st)
            && (accepted ==>
                  && op.slot in st'.available && st'.available[op.slot] == op.now
                  && op.slot !in st'.leases && op.slot !in st'.owner
                  && (t != op.slot ==>
                       && (t in st'.available <==> t in st.available)
                       && (t in st.available ==> st'.available[t] == st.available[t])
                       && (t in st'.leases <==> t in st.leases) && (t in st.leases ==> st'.leases[t] == st.leases[t])
                       && (t in st'.owner <==> t in st.owner) && (t in st.owner ==> st'.owner[t] == st.owner[t])))
  {
  }

  /** An accepted renew moves the expiry of its slot to its clock plus the TTL; nothing else changes. */
  lemma RenewLeaves(st: Store, id: InstanceId, slot: Member, now: nat, ttl: nat, t: Member)
    ensures var (st', reply) := Apply(st, Renew(id, slot, now, ttl));
            var accepted := slot in st.owner && st.owner[slot] == id;
            && reply == (if accepted then Accepted else Refused)
            && st'.available == st.available && st'.owner == st.owner
            && (accepted ==> slot in st'.leases && st'.leases[slot] == now + ttl)
            && (t != slot || !accepted ==>
                 (t in st'.leases <==> t in st.leases) && (t in st.leases ==> st'.leases[t] == st.leases[t]))
  {
  }
}
