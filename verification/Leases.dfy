/**
 Reading the leases: whose slot it is, and what the owner cache lets the daemon
 say when Redis does not answer.
 */
module Leases {
  import opened Options
  import opened Snapshot
  import Sorting

  const OWNER_MISSING := "(missing)"
  const OWNER_UNKNOWN := "(unknown)"

  /** The reply to `GET slot:owner:<n>`. */
  datatype Reply = Found(id: string) | Nil | Failed

  /** A member of `slots:leases` with its score, and what asking for its owner brought. */
  datatype RawLease = RawLease(slot: u32, expiresMs: nat, reply: Reply)

  type OwnerCache = map<u32, string>

  function Refresh(cache: OwnerCache, r: RawLease): OwnerCache
  {
    match r.reply
    case Found(id) => cache[r.slot := id]
    case Nil => cache - {r.slot}
    case Failed => cache
  }

  function OwnerOf(cache: OwnerCache, r: RawLease): string
  {
    match r.reply
    case Found(id) => id
    case Nil => OWNER_MISSING
    case Failed => if r.slot in cache then cache[r.slot] else OWNER_UNKNOWN
  }

  function RefreshAll(cache: OwnerCache, raw: seq<RawLease>): OwnerCache
  {
    if raw == [] then cache else Refresh(RefreshAll(cache, raw[..|raw| - 1]), raw[|raw| - 1])
  }

  /** The leases in the order Redis lists them. */
  function Resolve(cache: OwnerCache, raw: seq<RawLease>): (leases: seq<SlotLease>)
    ensures |leases| == |raw|
    ensures forall i :: 0 <= i < |raw| ==> leases[i].slot == raw[i].slot
  {
    if raw == [] then []
    else
      var init, last := raw[..|raw| - 1], raw[|raw| - 1];
      Resolve(cache, init) + [SlotLease(last.slot, OwnerOf(RefreshAll(cache, init), last), last.expiresMs)]
  }

  function BySlot(l: SlotLease): int { l.slot }

  /** `read_all` with the cache it keeps across cycles. */
  class LeaseReader {
    var ownerCache: OwnerCache

    constructor ()
      ensures ownerCache == map[]
    {
      ownerCache := map[];
    }

    method ReadAll(raw: seq<RawLease>) returns (leases: seq<SlotLease>)
      modifies this
      ensures ownerCache == RefreshAll(old(ownerCache), raw)
      ensures leases == Sorting.SortBy(Resolve(old(ownerCache), raw), BySlot)
    {
      leases := [];
      for i := 0 to |raw|
        invariant leases == Resolve(old(ownerCache), raw[..i])
        invariant ownerCache == RefreshAll(old(ownerCache), raw[..i])
      {
        var r := raw[i];
        assert raw[..i + 1][..i] == raw[..i];
        var owner;
        match r.reply {
          case Found(id) =>
            ownerCache := ownerCache[r.slot := id];
            owner := id;
          case Nil =>
            ownerCache := ownerCache - {r.slot};
            owner := OWNER_MISSING;
          case Failed =>
            if r.slot in ownerCache {
              owner := ownerCache[r.slot];
            } else {
              owner := OWNER_UNKNOWN;
            }
        }
        leases := leases + [SlotLease(r.slot, owner, r.expiresMs)];
      }
      assert raw[..|raw|] == raw;
      leases := Sorting.SortBy(leases, BySlot);
    }
  }

  // -- what the reported owner is evidence of -----------------------------------------------

  /** The last answer Redis gave about the slot's owner, in the reads of `history`. */
  function LastAnswer(history: seq<RawLease>, slot: u32): Option<Reply>
  {
    if history == [] then None
    else
      var last := history[|history| - 1];
      if last.slot == slot && last.reply != Failed then Some(last.reply)
      else LastAnswer(history[..|history| - 1], slot)
  }

  /** The cache holds exactly the slots whose last answer was an owner, and that owner. */
  lemma {:induction false} CacheIsLastAnswer(history: seq<RawLease>, slot: u32)
    ensures var cache := RefreshAll(map[], history);
            && (slot in cache <==> LastAnswer(history, slot).Some? && LastAnswer(history, slot).value.Found?)
            && (slot in cache ==> Some(Found(cache[slot])) == LastAnswer(history, slot))
  {
    if history != [] {
      CacheIsLastAnswer(history[..|history| - 1], slot);
    }
  }

  lemma {:induction false} RefreshAllAppends(cache: OwnerCache, a: seq<RawLease>, b: seq<RawLease>)
    ensures RefreshAll(RefreshAll(cache, a), b) == RefreshAll(cache, a + b)
  {
    if b == [] {
      assert a + b == a;
    } else {
      var n := |a + b| - 1;
      assert (a + b)[..n] == a + b[..|b| - 1];
      RefreshAllAppends(cache, a, b[..|b| - 1]);
    }
  }

  lemma {:induction false} ResolveAt(cache: OwnerCache, raw: seq<RawLease>, i: nat)
    requires i < |raw|
    ensures Resolve(cache, raw)[i]
         == SlotLease(raw[i].slot, OwnerOf(RefreshAll(cache, raw[..i]), raw[i]), raw[i].expiresMs)
  {
    if i < |raw| - 1 {
      var init := raw[..|raw| - 1];
      ResolveAt(cache, init, i);
      assert init[..i] == raw[..i];
    }
  }

  /** All reads of the first `k` cycles, in the order they were made. */
  function Reads(cycles: seq<seq<RawLease>>): seq<RawLease>
  {
    if cycles == [] then [] else Reads(cycles[..|cycles| - 1]) + cycles[|cycles| - 1]
  }

  function CacheAfter(cycles: seq<seq<RawLease>>): OwnerCache
  {
    if cycles == [] then map[] else RefreshAll(CacheAfter(cycles[..|cycles| - 1]), cycles[|cycles| - 1])
  }

  lemma {:induction false} CacheAfterReads(cycles: seq<seq<RawLease>>)
    ensures CacheAfter(cycles) == RefreshAll(map[], Reads(cycles))
  {
    if cycles != [] {
      CacheAfterReads(cycles[..|cycles| - 1]);
      RefreshAllAppends(map[], Reads(cycles[..|cycles| - 1]), cycles[|cycles| - 1]);
    }
  }

  /** The leases of the next cycle, after those in `past`. */
  function Reported(past: seq<seq<RawLease>>, raw: seq<RawLease>): seq<SlotLease>
  {
    Sorting.SortBy(Resolve(CacheAfter(past), raw), BySlot)
  }

  /** `id` was read as the slot's owner, and nothing has been read about the slot since. */
  ghost predicate LastReadAs(history: seq<RawLease>, slot: u32, id: string)
  {
    exists p :: 0 <= p < |history| && history[p].slot == slot && history[p].reply == Found(id)
      && forall q :: p < q < |history| && history[q].slot == slot ==> history[q].reply == Failed
  }

  lemma {:induction false} LastAnswerIsLastRead(history: seq<RawLease>, slot: u32, id: string)
    ensures LastAnswer(history, slot) == Some(Found(id)) <==> LastReadAs(history, slot, id)
  {
    if history != [] {
      var init, last := history[..|history| - 1], history[|history| - 1];
      LastAnswerIsLastRead(init, slot, id);
      if last.slot == slot && last.reply != Failed {
        if LastReadAs(history, slot, id) {
          var p :| 0 <= p < |history| && history[p].slot == slot && history[p].reply == Found(id)
            && forall q :: p < q < |history| && history[q].slot == slot ==> history[q].reply == Failed;
          assert p == |history| - 1;
        }
      } else {
        if LastReadAs(init, slot, id) {
          var p :| 0 <= p < |init| && init[p].slot == slot && init[p].reply == Found(id)
            && forall q :: p < q < |init| && init[q].slot == slot ==> init[q].reply == Failed;
          assert history[p] == init[p];
          forall q | p < q < |history| && history[q].slot == slot ensures history[q].reply == Failed {
            if q < |init| {
              assert history[q] == init[q];
            }
          }
        }
        if LastReadAs(history, slot, id) {
          var p :| 0 <= p < |history| && history[p].slot == slot && history[p].reply == Found(id)
            && forall q :: p < q < |history| && history[q].slot == slot ==> history[q].reply == Failed;
          assert p < |init| && init[p] == history[p];
          assert forall q :: p < q < |init| ==> init[q] == history[q];
        }
      }
    }
  }

  /**
   An owner other than the two sentinels was read from Redis, in this or an
   earlier cycle, as the slot's owner; since then Redis has answered nothing
   about that slot, neither another owner nor nil.
   */
  lemma {:induction false} ReportedOwnerWasRead(past: seq<seq<RawLease>>, raw: seq<RawLease>, l: SlotLease)
    requires l in Reported(past, raw) && l.owner != OWNER_MISSING && l.owner != OWNER_UNKNOWN
    ensures exists i :: 0 <= i < |raw| && raw[i].slot == l.slot && raw[i].expiresMs == l.expiresMs
              && LastReadAs(Reads(past) + raw[..i + 1], l.slot, l.owner)
  {
    var leases := Resolve(CacheAfter(past), raw);
    Sorting.SortKeeps(leases, BySlot);
    var i :| 0 <= i < |leases| && leases[i] == l;
    ResolveAt(CacheAfter(past), raw, i);
    OwnerIsLastAnswer(past, raw, i);
    LastAnswerIsLastRead(Reads(past) + raw[..i + 1], l.slot, l.owner);
  }

  /** The owner reported for the `i`-th lease, in terms of everything read so far. */
  lemma {:induction false} OwnerIsLastAnswer(past: seq<seq<RawLease>>, raw: seq<RawLease>, i: nat)
    requires i < |raw|
    ensures var r := raw[i];
            OwnerOf(RefreshAll(CacheAfter(past), raw[..i]), r) ==
            match LastAnswer(Reads(past) + raw[..i + 1], r.slot)
            case None => OWNER_UNKNOWN
            case Some(reply) => if reply.Found? then reply.id else if r.reply.Nil? then OWNER_MISSING else OWNER_UNKNOWN
  {
    var before := Reads(past) + raw[..i];
    var all := Reads(past) + raw[..i + 1];
    assert all[..|all| - 1] == before && all[|all| - 1] == raw[i];
    CacheAfterReads(past);
    RefreshAllAppends(map[], Reads(past), raw[..i]);
    CacheIsLastAnswer(before, raw[i].slot);
    NeverFailed(before, raw[i].slot);
  }

  lemma {:induction false} NeverFailed(history: seq<RawLease>, slot: u32)
    ensures LastAnswer(history, slot) != Some(Failed)
  {
    if history != [] {
      NeverFailed(history[..|history| - 1], slot);
    }
  }

  predicate DistinctRaw(raw: seq<RawLease>)
  {
    forall i, j :: 0 <= i < j < |raw| ==> raw[i].slot != raw[j].slot
  }

  /** In strictly ascending order of slots, with a lease for each member of the set: what the join relies on. */
  lemma {:induction false} ReportedSlots(past: seq<seq<RawLease>>, raw: seq<RawLease>)
    requires DistinctRaw(raw)
    ensures var leases := Reported(past, raw);
            && |leases| == |raw| && DistinctSlots(leases)
            && (forall i, j :: 0 <= i < j < |leases| ==> leases[i].slot < leases[j].slot)
            && (forall i :: 0 <= i < |raw| ==> exists j :: 0 <= j < |leases| && leases[j].slot == raw[i].slot)
  {
    var found := Resolve(CacheAfter(past), raw);
    var leases := Reported(past, raw);
    Sorting.SortSorts(found, BySlot);
    Sorting.SortKeeps(found, BySlot);
    Sorting.SortKeepsDistinct(found, BySlot);
    KeysAreSlots(found);
    KeysAreSlots(leases);
    forall i, j | 0 <= i < j < |leases| ensures leases[i].slot < leases[j].slot {
      assert BySlot(leases[i]) <= BySlot(leases[j]);
    }
    forall i | 0 <= i < |raw| ensures exists j :: 0 <= j < |leases| && leases[j].slot == raw[i].slot {
      assert found[i] in leases;
    }
  }

  lemma {:induction false} KeysAreSlots(s: seq<SlotLease>)
    ensures Sorting.DistinctKeys(s, BySlot) <==> DistinctSlots(s)
  {
    if Sorting.DistinctKeys(s, BySlot) {
      assert forall i, j :: 0 <= i < j < |s| ==> BySlot(s[i]) != BySlot(s[j]);
    }
  }
}
