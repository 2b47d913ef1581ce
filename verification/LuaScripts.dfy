/**
 The Lua scripts of aeroslot-lua. Redis runs each one atomically, so each is one
 step of the specification machine in SlotStore. (`init` is in PoolLoops: both
 programs run the same loop behind the same range check.)
 */
module LuaScripts {
  import opened Options
  import opened MemberOrder
  import opened SlotStore
  import opened Redis
  import opened PoolLoops

  method Claim(db: Server, id: InstanceId, now: nat, ttl: nat) returns (reply: Reply)
    modifies db
    ensures (db.State(), reply) == Apply(old(db.State()), Op.Claim(id, now, ttl))
  {
    Sweep(db, now);
    var slot := db.ZPopMinAvailable();
    if slot.None? {
      return Exhausted;
    }
    db.ZAddLease(slot.value, now + ttl);
    db.SetOwner(slot.value, id);
    reply := Claimed(slot.value);
  }

  method Renew(db: Server, id: InstanceId, slot: Member, now: nat, ttl: nat) returns (reply: Reply)
    modifies db
    ensures (db.State(), reply) == Apply(old(db.State()), Op.Renew(id, slot, now, ttl))
  {
    var owner := db.GetOwner(slot);
    if owner != Some(id) {
      return Refused;
    }
    db.ZAddLease(slot, now + ttl);
    reply := Accepted;
  }

  method Release(db: Server, id: InstanceId, slot: Member, now: nat) returns (reply: Reply)
    modifies db
    ensures (db.State(), reply) == Apply(old(db.State()), Op.Release(id, slot, now))
  {
    var owner := db.GetOwner(slot);
    if owner != Some(id) {
      return Refused;
    }
    db.DelOwner(slot);
    db.ZRemLease(slot);
    db.ZAddAvailable(slot, now);
    reply := Accepted;
  }
}
