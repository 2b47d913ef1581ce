/**
 The daemon's view of the world: weight files, leases, IPVS and the ASG joined
 on the backend's IP address.
 */
module Snapshot {
  import opened Options
  import AsgParser

  type u32 = x: int | 0 <= x < 0x1_0000_0000

  const MAX_U64 := 0xffff_ffff_ffff_ffff

  type u64 = x: int | 0 <= x <= MAX_U64

  datatype BackendState = Active | Draining | Disabled | Unknown(value: string)

  datatype SlotLease = SlotLease(slot: u32, owner: string, expiresMs: nat)

  datatype AsgGroupInfo = AsgGroupInfo(name: string, desired: int, min: int, max: int)

  datatype AsgInstance = AsgInstance(id: string, lifecycleState: string, healthStatus: string)

  datatype IpvsBackend = IpvsBackend(ip: u32, activeConnections: u32, inactiveConnections: u32)

  datatype WeightEntry = WeightEntry(ip: u32, state: BackendState)

  datatype BackendStatus = BackendStatus(
    ip: u32, slot: Option<u32>, weight: BackendState, ipvs: Option<IpvsBackend>, lease: Option<SlotLease>)

  datatype SystemSnapshot = SystemSnapshot(
    backends: seq<BackendStatus>, leases: seq<SlotLease>, asg: seq<AsgInstance>, asgGroup: Option<AsgGroupInfo>)

  predicate IsExpired(l: SlotLease, nowMs: nat) { l.expiresMs <= nowMs }

  predicate WouldViolateMin(g: AsgGroupInfo) { g.desired <= g.min }

  predicate InService(i: AsgInstance) { i.lifecycleState == "InService" }

  function InServiceIds(asg: seq<AsgInstance>): set<string>
  {
    set i | i in asg && InService(i) :: i.id
  }

  /** Whole seconds since an earlier reading, 0 if that lies in the future. */
  function Elapsed(now: nat, earlier: nat): nat
  {
    if now >= earlier then (now - earlier) / 1000 else 0
  }

  // -- slot numbers and addresses ------------------------------------------------------

  /** Where the slots start, and how far into the subnet. */
  datatype SlotNetwork = SlotNetwork(base: u32, offset: u32)
  {
    function First(): u32 { (base + offset) % 0x1_0000_0000 }

    /** Wraps around, as `u32` addition does in release builds. */
    function IpForSlot(slot: u32): u32 { (base + offset + slot) % 0x1_0000_0000 }

    function SlotForIp(ip: u32): Option<u32>
    {
      if ip >= First() then Some(ip - First()) else None
    }
  }

  /** Different slots have different addresses, wrap-around or not. */
  lemma IpInjective(net: SlotNetwork, a: u32, b: u32)
    ensures net.IpForSlot(a) == net.IpForSlot(b) <==> a == b
  {
    IpFromFirst(net, a);
    IpFromFirst(net, b);
  }

  lemma IpFromFirst(net: SlotNetwork, slot: u32)
    ensures net.IpForSlot(slot) ==
            if net.First() + slot < 0x1_0000_0000 then net.First() + slot else net.First() + slot - 0x1_0000_0000
  {
    var first := net.First();
    var q := (net.base + net.offset) / 0x1_0000_0000;
    assert net.base + net.offset + slot == q * 0x1_0000_0000 + first + slot;
  }

  /** The two mappings are inverse to each other exactly as long as the slot's address does not wrap around. */
  lemma SlotOfIp(net: SlotNetwork, slot: u32, ip: u32)
    ensures net.SlotForIp(ip) == Some(slot) ==> net.IpForSlot(slot) == ip
    ensures net.IpForSlot(slot) == ip ==>
      (net.SlotForIp(ip) == Some(slot) <==> net.First() + slot < 0x1_0000_0000)
    ensures net.base + net.offset + slot < 0x1_0000_0000 ==> net.IpForSlot(slot) == net.base + net.offset + slot
  {
    IpFromFirst(net, slot);
  }

  // -- the join -----------------------------------------------------------------------------

  /** Collecting a list of pairs into a hash map: the last one wins. */
  function IpToLease(net: SlotNetwork, leases: seq<SlotLease>): map<u32, SlotLease>
  {
    if leases == [] then map[]
    else
      var last := leases[|leases| - 1];
      IpToLease(net, leases[..|leases| - 1])[net.IpForSlot(last.slot) := last]
  }

  function FindIpvs(ipvs: seq<IpvsBackend>, ip: u32): Option<IpvsBackend>
  {
    if ipvs == [] then None else if ipvs[0].ip == ip then Some(ipvs[0]) else FindIpvs(ipvs[1..], ip)
  }

  function Join(net: SlotNetwork, w: WeightEntry, byIp: map<u32, SlotLease>, ipvs: seq<IpvsBackend>): BackendStatus
  {
    BackendStatus(w.ip, net.SlotForIp(w.ip), w.state, FindIpvs(ipvs, w.ip),
                  if w.ip in byIp then Some(byIp[w.ip]) else None)
  }

  function Instances(groups: seq<AsgParser.AsgGroup>): seq<AsgInstance>
  {
    if groups == [] then []
    else seq(|groups[0].instances|, i requires 0 <= i < |groups[0].instances| =>
             var inst := groups[0].instances[i];
             AsgInstance(inst.instanceId, inst.lifecycleState, inst.healthStatus)) + Instances(groups[1..])
  }

  /** Capacities are those of the first group in the reply. */
  function GroupInfo(groups: seq<AsgParser.AsgGroup>): Option<AsgGroupInfo>
  {
    if groups == [] then None
    else Some(AsgGroupInfo(groups[0].name, groups[0].desired, groups[0].min, groups[0].max))
  }

  /** What the ASG query yields; `None` when it failed. */
  type AsgReply = Option<seq<AsgParser.AsgGroup>>

  /** One entry per weight file. A failed ASG or IPVS query leaves its part empty. */
  function Collect(net: SlotNetwork, weights: seq<WeightEntry>, leases: seq<SlotLease>, asg: AsgReply,
                   ipvs: Option<seq<IpvsBackend>>): SystemSnapshot
  {
    var byIp := IpToLease(net, leases);
    var realServers := if ipvs.Some? then ipvs.value else [];
    SystemSnapshot(
      seq(|weights|, i requires 0 <= i < |weights| => Join(net, weights[i], byIp, realServers)),
      leases,
      if asg.Some? then Instances(asg.value) else [],
      if asg.Some? then GroupInfo(asg.value) else None)
  }

  predicate DistinctSlots(leases: seq<SlotLease>)
  {
    forall i, j :: 0 <= i < j < |leases| ==> leases[i].slot != leases[j].slot
  }

  predicate DistinctIps(weights: seq<WeightEntry>)
  {
    forall i, j :: 0 <= i < j < |weights| ==> weights[i].ip != weights[j].ip
  }

  lemma {:induction false} LeaseByIp(net: SlotNetwork, leases: seq<SlotLease>, ip: u32, l: SlotLease)
    requires DistinctSlots(leases)
    ensures var m := IpToLease(net, leases);
            ip in m && m[ip] == l <==> l in leases && net.IpForSlot(l.slot) == ip
  {
    if leases != [] {
      var init, last := leases[..|leases| - 1], leases[|leases| - 1];
      assert leases == init + [last];
      LeaseByIp(net, init, ip, l);
      IpInjective(net, last.slot, l.slot);
      if l in init {
        var i :| 0 <= i < |init| && init[i] == l;
        assert leases[i].slot != leases[|leases| - 1].slot;
      }
    }
  }

  /**
   The join: a backend carries lease `l` exactly when `l` is one of the leases
   and its slot's address is the backend's; in terms of the slot number derived
   back from the address, exactly when `l.slot` is that number, unless the
   slot's address wraps around, when it never is.
   */
  lemma {:induction false} CarriesLease(net: SlotNetwork, weights: seq<WeightEntry>, leases: seq<SlotLease>,
                                        asg: AsgReply, ipvs: Option<seq<IpvsBackend>>, k: nat, l: SlotLease)
    requires DistinctSlots(leases) && k < |weights|
    ensures var b := Collect(net, weights, leases, asg, ipvs).backends[k];
            && b.ip == weights[k].ip
            && (b.lease == Some(l) <==> l in leases && net.IpForSlot(l.slot) == b.ip)
            && (net.First() + l.slot < 0x1_0000_0000 ==>
                  (b.lease == Some(l) <==> l in leases && b.slot == Some(l.slot)))
            && (net.First() + l.slot >= 0x1_0000_0000 ==> b.slot != Some(l.slot))
  {
    LeaseByIp(net, leases, weights[k].ip, l);
    SlotOfIp(net, l.slot, weights[k].ip);
  }

  /** The first IPVS entry of the address. */
  predicate FirstAt(ipvs: seq<IpvsBackend>, ip: u32, k: nat)
  {
    k < |ipvs| && ipvs[k].ip == ip && forall j :: 0 <= j < k ==> ipvs[j].ip != ip
  }

  lemma {:induction false} FindsFirst(ipvs: seq<IpvsBackend>, ip: u32)
    ensures FindIpvs(ipvs, ip).None? <==> forall k :: 0 <= k < |ipvs| ==> ipvs[k].ip != ip
    ensures forall k: nat :: FirstAt(ipvs, ip, k) ==> FindIpvs(ipvs, ip) == Some(ipvs[k])
    ensures FindIpvs(ipvs, ip).Some? ==> exists k: nat :: FirstAt(ipvs, ip, k)
  {
    if ipvs != [] && ipvs[0].ip != ip {
      var rest := ipvs[1..];
      FindsFirst(rest, ip);
      assert forall k :: 0 < k < |ipvs| ==> ipvs[k] == rest[k - 1];
      forall k: nat | FirstAt(ipvs, ip, k) ensures FindIpvs(ipvs, ip) == Some(ipvs[k]) {
        assert FirstAt(rest, ip, k - 1);
      }
      if FindIpvs(ipvs, ip).Some? {
        var k: nat :| FirstAt(rest, ip, k);
        assert FirstAt(ipvs, ip, k + 1);
      }
    } else if ipvs != [] {
      assert FirstAt(ipvs, ip, 0);
    }
  }

  /**
   Each backend is its weight file: the same address and the same state, with the
   first IPVS entry of that address, if the query brought one.
   */
  lemma {:induction false} JoinExactly(net: SlotNetwork, weights: seq<WeightEntry>, leases: seq<SlotLease>,
                                       asg: AsgReply, ipvs: Option<seq<IpvsBackend>>)
    ensures var snap := Collect(net, weights, leases, asg, ipvs);
            && snap.leases == leases && |snap.backends| == |weights|
            && forall k :: 0 <= k < |weights| ==>
                 var b := snap.backends[k];
                 && b.ip == weights[k].ip && b.weight == weights[k].state
                 && (ipvs.None? ==> b.ipvs.None?)
                 && (ipvs.Some? ==>
                       && (b.ipvs.None? <==> forall j :: 0 <= j < |ipvs.value| ==> ipvs.value[j].ip != b.ip)
                       && (forall j: nat :: FirstAt(ipvs.value, b.ip, j) ==> b.ipvs == Some(ipvs.value[j])))
  {
    hide IpToLease, FindIpvs;
    var snap := Collect(net, weights, leases, asg, ipvs);
    forall k | 0 <= k < |weights|
      ensures ipvs.Some? ==>
                && (snap.backends[k].ipvs.None? <==>
                      forall j :: 0 <= j < |ipvs.value| ==> ipvs.value[j].ip != weights[k].ip)
                && (forall j: nat :: FirstAt(ipvs.value, weights[k].ip, j) ==>
                      snap.backends[k].ipvs == Some(ipvs.value[j]))
      ensures ipvs.None? ==> snap.backends[k].ipvs.None?
    {
      if ipvs.Some? {
        FindsFirst(ipvs.value, weights[k].ip);
      } else {
        FindsFirst([], weights[k].ip);
      }
    }
  }

  /** The `i`-th instance of the `g`-th group is listed with this id and lifecycle state. */
  predicate ListedAt(groups: seq<AsgParser.AsgGroup>, g: nat, i: nat, id: string, lifecycleState: string)
  {
    && g < |groups| && i < |groups[g].instances|
    && groups[g].instances[i].instanceId == id && groups[g].instances[i].lifecycleState == lifecycleState
  }

  /** The reply lists the instance, in service. */
  ghost predicate ListedInService(asg: AsgReply, id: string)
  {
    asg.Some? && exists g: nat, i: nat :: ListedAt(asg.value, g, i, id, "InService")
  }

  lemma {:induction false} InstanceListed(groups: seq<AsgParser.AsgGroup>, inst: AsgInstance) returns (g: nat, i: nat)
    requires inst in Instances(groups)
    ensures ListedAt(groups, g, i, inst.id, inst.lifecycleState)
  {
    var first, rest := groups[0].instances, groups[1..];
    var mapped := seq(|first|, i requires 0 <= i < |first| =>
      AsgInstance(first[i].instanceId, first[i].lifecycleState, first[i].healthStatus));
    assert Instances(groups) == mapped + Instances(rest);
    if inst in mapped {
      g := 0;
      i :| 0 <= i < |first| && mapped[i] == inst;
    } else {
      g, i := InstanceListed(rest, inst);
      g := g + 1;
    }
  }

  lemma {:induction false} ListedInstance(groups: seq<AsgParser.AsgGroup>, g: nat, i: nat)
    requires g < |groups| && i < |groups[g].instances|
    ensures var inst := groups[g].instances[i];
            AsgInstance(inst.instanceId, inst.lifecycleState, inst.healthStatus) in Instances(groups)
  {
    var first, rest := groups[0].instances, groups[1..];
    var mapped := seq(|first|, i requires 0 <= i < |first| =>
      AsgInstance(first[i].instanceId, first[i].lifecycleState, first[i].healthStatus));
    assert Instances(groups) == mapped + Instances(rest);
    if g == 0 {
      assert mapped[i] in mapped;
    } else {
      ListedInstance(rest, g - 1, i);
    }
  }

  /** Who counts as InService, in terms of the reply: lifecycle state `InService`, in whichever group. */
  lemma {:induction false} InServiceExactly(asg: AsgReply, id: string)
    ensures id in InServiceIds(if asg.Some? then Instances(asg.value) else []) <==> ListedInService(asg, id)
  {
    hide Instances;
    if asg.Some? {
      var insts := Instances(asg.value);
      if id in InServiceIds(insts) {
        var inst :| inst in insts && InService(inst) && inst.id == id;
        var g, i := InstanceListed(asg.value, inst);
      }
      if ListedInService(asg, id) {
        var g: nat, i: nat :| ListedAt(asg.value, g, i, id, "InService");
        ListedInstance(asg.value, g, i);
      }
    }
  }

  /** Capacities are those of the first group of the reply; without a group nothing is known. */
  lemma {:induction false} GroupExactly(net: SlotNetwork, weights: seq<WeightEntry>, leases: seq<SlotLease>,
                                        asg: AsgReply, ipvs: Option<seq<IpvsBackend>>)
    ensures var group := Collect(net, weights, leases, asg, ipvs).asgGroup;
            && (group.Some? <==> asg.Some? && |asg.value| > 0)
            && (group.Some? ==>
                  group.value.desired == asg.value[0].desired && group.value.min == asg.value[0].min
                  && group.value.max == asg.value[0].max)
  {
  }

  // -- what every snapshot satisfies ---------------------------------------------------------

  /** The shape `Collect` gives a snapshot. */
  ghost predicate WellJoined(net: SlotNetwork, snap: SystemSnapshot)
  {
    && DistinctSlots(snap.leases)
    && (forall i, j :: 0 <= i < j < |snap.backends| ==> snap.backends[i].ip != snap.backends[j].ip)
    && (forall i, l :: 0 <= i < |snap.backends| ==>
          (snap.backends[i].lease == Some(l) <==> l in snap.leases && net.IpForSlot(l.slot) == snap.backends[i].ip))
    && (snap.asgGroup.None? ==> snap.asg == [])
  }

  lemma {:induction false} CollectJoinsWell(net: SlotNetwork, weights: seq<WeightEntry>, leases: seq<SlotLease>,
                                            asg: AsgReply, ipvs: Option<seq<IpvsBackend>>)
    requires DistinctSlots(leases) && DistinctIps(weights)
    ensures WellJoined(net, Collect(net, weights, leases, asg, ipvs))
  {
    var snap := Collect(net, weights, leases, asg, ipvs);
    forall i, l | 0 <= i < |snap.backends|
      ensures snap.backends[i].lease == Some(l) <==> l in snap.leases && net.IpForSlot(l.slot) == snap.backends[i].ip
    {
      CarriesLease(net, weights, leases, asg, ipvs, i, l);
    }
  }

  /** A snapshot the daemon can take: one weight file per address and one lease per slot. */
  ghost predicate Collected(snap: SystemSnapshot)
  {
    exists net, weights, leases, asg, ipvs ::
      DistinctSlots(leases) && DistinctIps(weights) && snap == Collect(net, weights, leases, asg, ipvs)
  }
}
