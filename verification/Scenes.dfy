/** Snapshots of a small fleet, as the daemon would take them, for runs that show what can happen. */
module Scenes {
  import opened Options
  import opened Snapshot
  import opened Scaler
  import AsgParser

  /** The most sessions that an IPVS connection count can stand for. */
  const MAX_SESSIONS := 0x7fff_ffff

  function Instance(id: string): AsgParser.AsgInstance
  {
    AsgParser.AsgInstance(id, "eu-west-1a", "InService", "Healthy")
  }

  /** Two active backends with `x` and `y` sessions, their leases good until second 1. */
  function Pair(x: nat, y: nat, desired: int, max: int): SystemSnapshot
    requires x <= MAX_SESSIONS && y <= MAX_SESSIONS
  {
    Collect(SlotNetwork(0, 0), [WeightEntry(0, Active), WeightEntry(1, Active)],
            [SlotLease(0, "i-0", 1000), SlotLease(1, "i-1", 1000)],
            Some([AsgParser.AsgGroup("ftp", desired, 1, max, [Instance("i-0"), Instance("i-1")])]),
            Some([IpvsBackend(0, 2 * x, 0), IpvsBackend(1, 2 * y, 0)]))
  }

  function Backend(ip: u32, sessions: nat, owner: string): BackendStatus
    requires sessions <= MAX_SESSIONS
  {
    BackendStatus(ip, Some(ip), Active, Some(IpvsBackend(ip, 2 * sessions, 0)), Some(SlotLease(ip, owner, 1000)))
  }

  lemma PairJoins(x: nat, y: nat, desired: int, max: int)
    requires x <= MAX_SESSIONS && y <= MAX_SESSIONS
    ensures Collected(Pair(x, y, desired, max))
    ensures Pair(x, y, desired, max).backends == [Backend(0, x, "i-0"), Backend(1, y, "i-1")]
    ensures Pair(x, y, desired, max).asgGroup == Some(AsgGroupInfo("ftp", desired, 1, max))
  {
    var net := SlotNetwork(0, 0);
    var l0, l1 := SlotLease(0, "i-0", 1000), SlotLease(1, "i-1", 1000);
    var leases := [l0, l1];
    assert leases[..1] == [l0] && [l0][..0] == [];
    assert IpToLease(net, []) == map[] && IpToLease(net, [l0]) == map[0 := l0];
    assert IpToLease(net, leases) == map[0 := l0, 1 := l1];
    var i0, i1 := IpvsBackend(0, 2 * x, 0), IpvsBackend(1, 2 * y, 0);
    assert [i0, i1][1..] == [i1];
    assert FindIpvs([i0, i1], 0) == Some(i0) && FindIpvs([i1], 1) == Some(i1) && FindIpvs([i0, i1], 1) == Some(i1);
    assert DistinctSlots(leases) && DistinctIps([WeightEntry(0, Active), WeightEntry(1, Active)]);
  }

  lemma TwoCount(a: BackendStatus, b: BackendStatus, nowMs: nat)
    requires Counts(a, nowMs) && Counts(b, nowMs)
    ensures ActiveOf([a, b], nowMs) == [a, b] && Total([a, b]) == Load(a) + Load(b) && DrainingCount([a, b]) == 0
  {
    hide Counts, Load;
    assert [a, b][1..] == [b] && [b][1..] == [];
    assert ActiveOf([], nowMs) == [] && ActiveOf([b], nowMs) == [b];
    assert Total([]) == 0 && Total([b]) == Load(b);
    NotDraining(a, nowMs);
    NotDraining(b, nowMs);
    assert DrainingCount([]) == 0 && DrainingCount([b]) == 0;
  }

  lemma NotDraining(b: BackendStatus, nowMs: nat)
    requires Counts(b, nowMs)
    ensures b.weight != Draining
  {
  }

  /** What the scaler makes of them. */
  lemma PairCounts(x: nat, y: nat, desired: int, max: int, nowMs: nat)
    requires x <= MAX_SESSIONS && y <= MAX_SESSIONS && nowMs < 1000
    ensures var snap := Pair(x, y, desired, max);
            var active := ActiveOf(snap.backends, nowMs);
            && Collected(snap) && snap.asgGroup == Some(AsgGroupInfo("ftp", desired, 1, max))
            && |active| == 2 && DrainingCount(snap.backends) == 0
            && CeilAvg(active) == (x + y + 1) / 2 && FloorAvg(active) == (x + y) / 2
  {
    hide Pair, ActiveOf, Total, DrainingCount, Collected;
    PairJoins(x, y, desired, max);
    TwoCount(Backend(0, x, "i-0"), Backend(1, y, "i-1"), nowMs);
  }

  /** Nothing received by second 0, and as much as the counter holds a tenth of a second later. */
  const QUIET := Around(0, 0, 0, Some(IfaceSnapshot(0, 0)), true, true)
  const BUSY := Around(100, 100, 101, Some(IfaceSnapshot(MAX_U64, 101)), true, true)

  /** Between the two, the smoothed bandwidth leaves the range of the counter. */
  lemma BusyIsBusy(s: State)
    requires s.bwPrev == QUIET.iface && s.bwSmoothed >= 0.0
    ensures Truncate(ReadBandwidth(s, BUSY.iface).bwSmoothed) == MAX_U64
    ensures ReadBandwidth(s, BUSY.iface).bwSmoothed > 0.0
  {
    var raw := RawBps(QUIET.iface.value, BUSY.iface.value);
    assert raw == Some(MAX_U64 as real / 0.101);
    assert raw.value >= 2.0 * MAX_U64 as real;
    var r := ReadBandwidth(s, BUSY.iface).bwSmoothed;
    assert r >= 0.6 * raw.value >= MAX_U64 as real;
  }
}
