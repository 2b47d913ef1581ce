/**
 The plain-command implementation of aeroslot, each command run from start to
 end with nobody else talking to Redis. (NativeMachine interleaves them.)
 */
module NativeCommands {
  import opened Options
  import opened Decimals
  import opened SlotStore
  import opened Redis
  import opened PoolLoops

  /** How a command that checks ownership ends. */
  datatype Outcome = Ok | OwnedBy(other: InstanceId) | NoOwner

  function Told(o: Outcome): Reply
  {
    if o.Ok? then Accepted else Refused
  }

  /** `now` is read once, before the sweep; it dates the freed slots and the new lease. */
  method Claim(db: Server, id: InstanceId, now: nat, ttl: nat) returns (reply: Reply)
    modifies db
    ensures (db.State(), reply) == Apply(old(db.State()), Op.Claim(id, now, ttl))
  {
    Sweep(db, now);
    var slot := db.ZPopMinAvailable();
    match slot
    case None =>
      reply := Exhausted;
    case Some(s) =>
      var expiry := now + ttl;
      db.ZAddLease(s, expiry);
      db.SetOwner(s, id);
      reply := Claimed(s);
  }

  method Renew(db: Server, slot: nat, id: InstanceId, now: nat, ttl: nat) returns (o: Outcome)
    modifies db
    ensures (db.State(), Told(o)) == Apply(old(db.State()), Op.Renew(id, Decimal(slot), now, ttl))
    ensures o.NoOwner? <==> Decimal(slot) !in old(db.owner)
    ensures o.OwnedBy? ==> o.other == old(db.owner)[Decimal(slot)] != id
  {
    var slotStr := Decimal(slot);
    var owner := db.GetOwner(slotStr);
    match owner
    case None =>
      o := NoOwner;
    case Some(other) =>
      if other == id {
        db.ZAddLease(slotStr, now + ttl);
        o := Ok;
      } else {
        o := OwnedBy(other);
      }
  }

  method Release(db: Server, slot: nat, id: InstanceId, now: nat) returns (o: Outcome)
    modifies db
    ensures (db.State(), Told(o)) == Apply(old(db.State()), Op.Release(id, Decimal(slot), now))
    ensures o.NoOwner? <==> Decimal(slot) !in old(db.owner)
    ensures o.OwnedBy? ==> o.other == old(db.owner)[Decimal(slot)] != id
  {
    var slotStr := Decimal(slot);
    var owner := db.GetOwner(slotStr);
    match owner
    case None =>
      o := NoOwner;
    case Some(other) =>
      if other != id {
        o := OwnedBy(other);
      } else {
        db.DelOwner(slotStr);
        db.ZRemLease(slotStr);
        db.ZAddAvailable(slotStr, now);
        o := Ok;
      }
  }

  /** The cleanup daemon's `release_slot`, which checks no ownership. */
  method ReleaseSlot(db: Server, slot: nat, now: nat)
    modifies db
    ensures db.State() == Apply(old(db.State()), DaemonRelease(Decimal(slot), now)).0
  {
    var slotStr := Decimal(slot);
    db.DelOwner(slotStr);
    db.ZRemLease(slotStr);
    db.ZAddAvailable(slotStr, now);
  }
}
