/**
 The heartbeat of one slot holder, in real time, against a Redis that everybody
 else keeps using: how long a lease must last so that it never runs out while
 the heartbeat is alive. All times are milliseconds of one true clock; the hosts'
 own clocks may differ from it.
 */
module Heartbeat {
  import opened MemberOrder
  import opened SlotStore
  import opened AtomicRuns

  datatype Params = Params(
    ttl: nat,        // --ttl-ms
    interval: nat,   // --interval, in seconds
    retries: nat,    // --retry-attempts
    delay: nat,      // --retry-delay-ms
    reconnect: nat,  // longest time a reconnection attempt takes
    call: nat,       // longest time one renew call takes, answered or not
    behind: nat,     // how far this host's clock may lag
    ahead: nat)      // how far a claiming host's clock may lead

  /** One failed attempt: the call, the wait before the next and the reconnection. */
  function Attempt(p: Params): nat { p.call + p.delay + p.reconnect }

  /** The longest time from the start of one effective renew to the end of the next call that can renew. */
  function Gap(p: Params): nat { p.interval * 1000 + p.retries * Attempt(p) + 2 * p.call }

  /** The lease outlives every gap, whatever the clocks say. */
  predicate LongEnough(p: Params) { p.ttl > Gap(p) + p.behind + p.ahead }

  datatype Ending = NotMine | OutOfRetries | Sigterm

  /** Where the two nested loops stand, and since when. */
  datatype Phase =
    | Calling(attempt: nat, since: int)   // renew call under way, ownership not yet read
    | Checked(attempt: nat, since: int)   // ownership read, lease not yet written
    | Written(attempt: nat, since: int)   // lease written, reply not yet received
    | Backoff(attempt: nat, since: int)   // waiting and reconnecting
    | Sleeping(since: int)                // between two ticks
    | Ended(why: Ending)

  datatype World = World(store: Store, hb: Phase, now: int)

  datatype Happening =
    | Others(op: Op)       // an atomic operation of anybody else
    | Get                  // GET owner is answered
    | Write(clock: nat)    // ZADD is applied; `clock` was read on this host during the call
    | Reply                // cmd_renew returns Ok
    | Fail                 // cmd_renew returns an IO error
    | Again                // retry delay and reconnection are over
    | Tick                 // interval is over
    | Stop                 // SIGTERM while sleeping

  datatype Timed = Timed(at: int, what: Happening)

  ghost predicate InCall(hb: Phase) { hb.Calling? || hb.Checked? || hb.Written? }

  ghost predicate Enabled(hb: Phase, what: Happening)
  {
    match what
    case Others(_) => true
    case Get => hb.Calling?
    case Write(_) => hb.Checked?
    case Reply => hb.Written?
    case Fail => InCall(hb)
    case Again => hb.Backoff?
    case Tick => hb.Sleeping?
    case Stop => hb.Sleeping?
  }

  ghost function Next(p: Params, me: InstanceId, s: Member, w: World, e: Timed): World
    requires Enabled(w.hb, e.what)
  {
    match e.what
    case Others(op) => w.(store := Apply(w.store, op).0, now := e.at)
    case Get =>
      w.(hb := if Owns(w.store, me, s) then Checked(w.hb.attempt, w.hb.since) else Ended(NotMine), now := e.at)
    case Write(clock) =>
      World(w.store.(leases := w.store.leases[s := clock + p.ttl]), Written(w.hb.attempt, w.hb.since), e.at)
    case Reply => w.(hb := Sleeping(e.at), now := e.at)
    case Fail =>
      w.(hb := if w.hb.attempt < p.retries then Backoff(w.hb.attempt + 1, e.at) else Ended(OutOfRetries), now := e.at)
    case Again => w.(hb := Calling(w.hb.attempt, e.at), now := e.at)
    case Tick => w.(hb := Calling(0, e.at), now := e.at)
    case Stop => w.(hb := Ended(Sigterm), now := e.at)
  }

  // -- what is assumed of time, of the clocks and of the others --------------------------------

  /** No phase of the heartbeat lasts longer than it may. */
  ghost predicate Timely(p: Params, hb: Phase, at: int)
  {
    match hb
    case Calling(_, since) => at <= since + p.call
    case Checked(_, since) => at <= since + p.call
    case Written(_, since) => at <= since + p.call
    case Backoff(_, since) => at <= since + p.delay + p.reconnect
    case Sleeping(since) => at <= since + p.interval * 1000
    case Ended(_) => true
  }

  /** Clocks within their skew; nobody else acts in my name on `s`, and the daemon leaves it alone. */
  ghost predicate Fair(p: Params, me: InstanceId, s: Member, hb: Phase, e: Timed)
  {
    match e.what
    case Others(Claim(_, now, _)) => now <= e.at + p.ahead
    case Others(Renew(id, slot, _, _)) => !(id == me && slot == s)
    case Others(Release(id, slot, _)) => !(id == me && slot == s)
    case Others(DaemonRelease(slot, _)) => slot != s
    case Write(clock) => hb.Checked? ==> clock >= hb.since - p.behind
    case _ => true
  }

  ghost predicate Allowed(p: Params, me: InstanceId, s: Member, w: World, e: Timed)
  {
    Enabled(w.hb, e.what) && w.now <= e.at && Timely(p, w.hb, e.at) && Fair(p, me, s, w.hb, e)
  }

  ghost predicate CanRun(p: Params, me: InstanceId, s: Member, w: World, es: seq<Timed>)
    decreases es
  {
    es == [] || (Allowed(p, me, s, w, es[0]) && CanRun(p, me, s, Next(p, me, s, w, es[0]), es[1..]))
  }

  ghost function RunAll(p: Params, me: InstanceId, s: Member, w: World, es: seq<Timed>): World
    requires CanRun(p, me, s, w, es)
    decreases es
  {
    if es == [] then w else RunAll(p, me, s, Next(p, me, s, w, es[0]), es[1..])
  }

  // -- the invariant --------------------------------------------------------------------------------

  /** When the next call starts at the latest, if the last effective renew call started at `base`. */
  function NextCall(p: Params, base: int): int { base + p.call + p.interval * 1000 }

  /** The phase is not late, counted from the effective renew call that started at `base`. */
  ghost predicate OnTime(p: Params, hb: Phase, base: int)
  {
    match hb
    case Calling(k, since) => k <= p.retries && since <= NextCall(p, base) + k * Attempt(p)
    case Checked(k, since) => k <= p.retries && since <= NextCall(p, base) + k * Attempt(p)
    case Written(k, since) => k <= p.retries && since <= base
    case Backoff(k, since) =>
      1 <= k <= p.retries && since <= NextCall(p, base) + (k - 1) * Attempt(p) + p.call
    case Sleeping(since) => since <= base + p.call
    case Ended(_) => false
  }

  /** `me` holds `s` with a lease written by a renew call that started at `base` or later. */
  ghost predicate Alive(p: Params, me: InstanceId, s: Member, w: World, base: int)
  {
    && WellFormed(w.store) && Holds(w.store, me, s)
    && w.store.leases[s] >= base - p.behind + p.ttl && OnTime(p, w.hb, base)
  }

  lemma ScaleMonotone(k: nat, n: nat, a: nat)
    requires k <= n
    ensures k * a <= n * a
  {
  }

  /** While the heartbeat is on time, less than one gap has passed since `base`. */
  lemma NotLate(p: Params, hb: Phase, base: int, at: int)
    requires OnTime(p, hb, base) && Timely(p, hb, at)
    ensures at <= base + Gap(p)
  {
    match hb {
      case Calling(k, _) => ScaleMonotone(k, p.retries, Attempt(p));
      case Checked(k, _) => ScaleMonotone(k, p.retries, Attempt(p));
      case Backoff(k, _) =>
        ScaleMonotone(k, p.retries, Attempt(p));
        assert k * Attempt(p) == (k - 1) * Attempt(p) + Attempt(p);
      case _ =>
    }
  }

  /** No claim can see the lease expired. */
  lemma ClaimsComeTooEarly(p: Params, me: InstanceId, s: Member, w: World, base: int, e: Timed)
    requires LongEnough(p) && Alive(p, me, s, w, base) && Allowed(p, me, s, w, e)
    requires e.what.Others? && e.what.op.Claim?
    ensures e.what.op.now < w.store.leases[s]
    ensures Apply(w.store, e.what.op).1 != Claimed(s)
  {
    NotLate(p, w.hb, base, e.at);
    ClaimSparesLiveLease(w.store, e.what.op.id, e.what.op.now, e.what.op.ttl, s);
  }

  lemma OthersSpareLease(st: Store, me: InstanceId, s: Member, op: Op)
    requires WellFormed(st) && Holds(st, me, s) && Undisturbed(st, me, s, op)
    requires op.Renew? ==> !(op.id == me && op.slot == s)
    ensures var st' := Apply(st, op).0;
            WellFormed(st') && Holds(st', me, s) && st'.leases[s] == st.leases[s]
  {
    StepKeepsHolder(st, me, s, op);
    if op.Claim? {
      ClaimSparesLiveLease(st, op.id, op.now, op.ttl, s);
    }
  }

  lemma StepStaysAlive(p: Params, me: InstanceId, s: Member, w: World, base: int, e: Timed) returns (base': int)
    requires LongEnough(p) && Alive(p, me, s, w, base) && Allowed(p, me, s, w, e)
    ensures var w' := Next(p, me, s, w, e);
            Alive(p, me, s, w', base') || (w'.hb.Ended? && w'.hb.why != NotMine)
  {
    base' := base;
    match e.what {
      case Others(op) =>
        if op.Claim? {
          ClaimsComeTooEarly(p, me, s, w, base, e);
        }
        OthersSpareLease(w.store, me, s, op);
      case Write(clock) =>
        base' := w.hb.since;
        assert w.store.leases[s := clock + p.ttl].Keys == w.store.leases.Keys;
      case Fail =>
        if w.hb.Written? {
          ScaleMonotone(0, w.hb.attempt, Attempt(p));
        }
      case Again =>
        assert w.hb.attempt * Attempt(p) == (w.hb.attempt - 1) * Attempt(p) + Attempt(p);
      case _ =>
    }
  }

  lemma {:induction false} RunStaysAlive(p: Params, me: InstanceId, s: Member, w: World, base: int, es: seq<Timed>)
    returns (base': int)
    requires LongEnough(p) && Alive(p, me, s, w, base) && CanRun(p, me, s, w, es)
    ensures var w' := RunAll(p, me, s, w, es);
            Alive(p, me, s, w', base') || (w'.hb.Ended? && w'.hb.why != NotMine)
    decreases es
  {
    if es == [] {
      base' := base;
    } else {
      var w1 := Next(p, me, s, w, es[0]);
      base' := StepStaysAlive(p, me, s, w, base, es[0]);
      if w1.hb.Ended? {
        EndedStays(p, me, s, w1, es[1..]);
      } else {
        base' := RunStaysAlive(p, me, s, w1, base', es[1..]);
      }
    }
  }

  lemma {:induction false} EndedStays(p: Params, me: InstanceId, s: Member, w: World, es: seq<Timed>)
    requires w.hb.Ended? && CanRun(p, me, s, w, es)
    ensures RunAll(p, me, s, w, es).hb == w.hb
    decreases es
  {
    if es != [] {
      EndedStays(p, me, s, Next(p, me, s, w, es[0]), es[1..]);
    }
  }

  lemma {:induction false} Prefixes(p: Params, me: InstanceId, s: Member, w: World, es: seq<Timed>, k: nat)
    requires k <= |es| && CanRun(p, me, s, w, es)
    ensures CanRun(p, me, s, w, es[..k])
    ensures k < |es| ==> Allowed(p, me, s, RunAll(p, me, s, w, es[..k]), es[k])
    decreases es
  {
    if k > 0 {
      Prefixes(p, me, s, Next(p, me, s, w, es[0]), es[1..], k - 1);
      assert es[..k][1..] == es[1..][..k - 1] && es[..k][0] == es[0];
    }
  }

  /** The heartbeat has just renewed for the first time, with a call that started at `base`. */
  ghost predicate JustRenewed(p: Params, me: InstanceId, s: Member, w: World, base: int)
  {
    && WellFormed(w.store) && Holds(w.store, me, s)
    && w.store.leases[s] >= base - p.behind + p.ttl
    && w.hb.Written? && w.hb.attempt <= p.retries && w.hb.since == base
  }

  /**
   With a lease longer than every gap, from the first renew on and for as long as
   the heartbeat runs: it holds the slot, no claimer's clock reaches the expiry and
   no claim gets the slot; and it never ends because the slot is not its own.
   */
  lemma {:induction false} HeartbeatKeepsSlot(p: Params, me: InstanceId, s: Member, w: World, base: int, es: seq<Timed>,
                                              k: nat)
    requires LongEnough(p) && JustRenewed(p, me, s, w, base) && CanRun(p, me, s, w, es) && k <= |es|
    ensures CanRun(p, me, s, w, es[..k])
    ensures var wk := RunAll(p, me, s, w, es[..k]);
            && wk.hb != Ended(NotMine)
            && (!wk.hb.Ended? ==> Holds(wk.store, me, s))
            && (!wk.hb.Ended? && k < |es| && es[k].what.Others? && es[k].what.op.Claim? ==>
                  es[k].what.op.now < wk.store.leases[s] && Apply(wk.store, es[k].what.op).1 != Claimed(s))
  {
    Prefixes(p, me, s, w, es, k);
    var base' := RunStaysAlive(p, me, s, w, base, es[..k]);
    var wk := RunAll(p, me, s, w, es[..k]);
    if !wk.hb.Ended? && k < |es| && es[k].what.Others? && es[k].what.op.Claim? {
      ClaimsComeTooEarly(p, me, s, wk, base', es[k]);
    }
  }

  // -- calls per tick -----------------------------------------------------------------------------------

  function Retries(es: seq<Timed>): nat
  {
    if es == [] then 0 else (if es[0].what.Again? then 1 else 0) + Retries(es[1..])
  }

  /** Renew calls that may still start before the next tick. */
  function CallsLeft(p: Params, hb: Phase): int
  {
    match hb
    case Calling(k, _) => p.retries - k
    case Checked(k, _) => p.retries - k
    case Written(k, _) => p.retries - k
    case Backoff(k, _) => p.retries - k + 1
    case Sleeping(_) => 0
    case Ended(_) => 0
  }

  ghost predicate AttemptInRange(p: Params, hb: Phase)
  {
    InCall(hb) || hb.Backoff? ==> hb.attempt <= p.retries
  }

  /** A tick starts one renew call and at most `retries` more. */
  lemma {:induction false} CallsPerTick(p: Params, me: InstanceId, s: Member, w: World, es: seq<Timed>)
    requires CanRun(p, me, s, w, es) && forall e :: e in es ==> !e.what.Tick?
    requires AttemptInRange(p, w.hb)
    ensures Retries(es) <= CallsLeft(p, w.hb)
    decreases es
  {
    if es != [] {
      assert es[0] in es && forall e :: e in es[1..] ==> e in es;
      CallsPerTick(p, me, s, Next(p, me, s, w, es[0]), es[1..]);
    }
  }

  // -- the bound is exact ----------------------------------------------------------------------------------

  lemma {:induction false} RunThen(p: Params, me: InstanceId, s: Member, w: World, es: seq<Timed>, e: Timed)
    requires CanRun(p, me, s, w, es) && Allowed(p, me, s, RunAll(p, me, s, w, es), e)
    ensures CanRun(p, me, s, w, es + [e])
    ensures RunAll(p, me, s, w, es + [e]) == Next(p, me, s, RunAll(p, me, s, w, es), e)
    decreases es
  {
    if es == [] {
      assert [] + [e] == [e] && [e][1..] == [];
    } else {
      assert (es + [e])[1..] == es[1..] + [e] && (es + [e])[0] == es[0];
      RunThen(p, me, s, Next(p, me, s, w, es[0]), es[1..], e);
    }
  }

  /** The slowest run: every wait and every failing call takes as long as it may. */
  lemma {:induction false} SlowestRun(p: Params, me: InstanceId, s: Member, st: Store, base: int, k: nat)
    returns (es: seq<Timed>)
    requires k <= p.retries
    ensures var w := World(st, Written(0, base), base);
            var t := NextCall(p, base) + k * Attempt(p);
            CanRun(p, me, s, w, es) && RunAll(p, me, s, w, es) == World(st, Calling(k, t), t)
  {
    var w := World(st, Written(0, base), base);
    if k == 0 {
      es := [];
      RunThen(p, me, s, w, es, Timed(base + p.call, Reply));
      es := es + [Timed(base + p.call, Reply)];
      RunThen(p, me, s, w, es, Timed(NextCall(p, base), Tick));
      es := es + [Timed(NextCall(p, base), Tick)];
    } else {
      es := SlowestRun(p, me, s, st, base, k - 1);
      var t := NextCall(p, base) + (k - 1) * Attempt(p);
      assert t + Attempt(p) == NextCall(p, base) + k * Attempt(p);
      RunThen(p, me, s, w, es, Timed(t + p.call, Fail));
      es := es + [Timed(t + p.call, Fail)];
      RunThen(p, me, s, w, es, Timed(t + Attempt(p), Again));
      es := es + [Timed(t + Attempt(p), Again)];
    }
  }

  /**
   A shorter lease does not do: if it is not longer than the gap and the skews,
   then from a first renew whose clock lagged there is a run, within all the time
   bounds, in which the heartbeat is alive and a claim takes its lease away.
   */
  lemma ShorterLeaseIsLost(p: Params, me: InstanceId, s: Member, st: Store, base: nat, thief: InstanceId, ttl: nat)
    returns (es: seq<Timed>, claim: Timed)
    requires !LongEnough(p) && WellFormed(st) && Holds(st, me, s) && st.leases[s] == base - p.behind + p.ttl
    ensures var w := World(st, Written(0, base), base);
            && JustRenewed(p, me, s, w, base)
            && CanRun(p, me, s, w, es)
            && var w' := RunAll(p, me, s, w, es);
               && w'.hb.Calling? && Allowed(p, me, s, w', claim)
               && claim.what.Others? && claim.what.op.Claim?
               && claim.what.op.id == thief && claim.what.op.ttl == ttl
               && var (st', reply) := Apply(w'.store, claim.what.op);
                  s !in st'.leases || reply == Claimed(s)
  {
    es := SlowestRun(p, me, s, st, base, p.retries);
    var t := base + Gap(p);
    claim := Timed(t, Others(Claim(thief, t + p.ahead, ttl)));
    ClaimSweepsExactlyTheExpired(st, thief, t + p.ahead, ttl, s);
  }
}
