/**
 The scaler: three triggers for growing the group, a gate for draining it, and
 the counters, clocks and windows that persist between passes.
 */
module Scaler {
  import opened Options
  import opened Snapshot
  import Sorting

  datatype ScaleConfig = ScaleConfig(
    hardConnThreshold: u32, slopeLowFloor: u32, slopeThreshold: real, bwThreshold: u64, drainThreshold: u32,
    scaleUpHysteresis: u32, drainHysteresis: u32, scaleUpCooldownSecs: nat, drainCooldownSecs: nat,
    maxConcurrentDraining: u32)

  /** A reading of the interface's RX counter. */
  datatype IfaceSnapshot = IfaceSnapshot(rxBytes: u64, at: nat)

  /** A point of the sliding window. */
  datatype Sample = Sample(at: nat, sessions: nat)

  /** The scaler's persistent state, as a value. */
  datatype State = State(
    upCycles: nat, drainCycles: nat, lastScaleUp: Option<nat>, lastDrain: Option<nat>,
    samples: seq<Sample>, bwPrev: Option<IfaceSnapshot>, bwSmoothed: real, bwRaw: u64)

  const FRESH := State(0, 0, None, None, [], None, 0.0, 0)

  /** What happens around one pass: clock readings, the interface, and whether AWS and the disk comply. */
  datatype Around = Around(nowMs: nat, now: nat, after: nat, iface: Option<IfaceSnapshot>, awsOk: bool, writeOk: bool)

  // -- sessions --------------------------------------------------------------------------------

  function Sessions(connections: u32): nat { connections / 2 }

  /** Backends that take part: active, with a live lease and with IPVS data. */
  predicate Counts(b: BackendStatus, nowMs: nat)
  {
    b.weight == Active && b.lease.Some? && !IsExpired(b.lease.value, nowMs) && b.ipvs.Some?
  }

  function Load(b: BackendStatus): nat
  {
    if b.ipvs.Some? then Sessions(b.ipvs.value.activeConnections) else 0
  }

  function ActiveOf(backends: seq<BackendStatus>, nowMs: nat): seq<BackendStatus>
  {
    if backends == [] then []
    else (if Counts(backends[0], nowMs) then [backends[0]] else []) + ActiveOf(backends[1..], nowMs)
  }

  function Total(active: seq<BackendStatus>): nat
  {
    if active == [] then 0 else Load(active[0]) + Total(active[1..])
  }

  function CeilAvg(active: seq<BackendStatus>): nat
    requires active != []
  {
    (Total(active) + |active| - 1) / |active|
  }

  function FloorAvg(active: seq<BackendStatus>): nat
    requires active != []
  {
    Total(active) / |active|
  }

  function DrainingCount(backends: seq<BackendStatus>): nat
  {
    if backends == [] then 0 else (if backends[0].weight == Draining then 1 else 0) + DrainingCount(backends[1..])
  }

  // -- the slope -------------------------------------------------------------------------------

  /** Seconds from a sample to `now`, when they are enough to divide by. */
  function LagSlope(s: Sample, sessions: nat, now: nat): Option<real>
  {
    if now < s.at || now - s.at < 100 then None
    else Some((sessions as real - s.sessions as real) / ((now - s.at) as real / 1000.0) * 60.0)
  }

  /** The sample `lag` evaluated passes ago. */
  function Back(samples: seq<Sample>, lag: nat): Sample
    requires 1 <= lag <= |samples|
  {
    samples[|samples| - lag]
  }

  /** Usable lags among the `lags` most recent samples. */
  function LagSlopes(samples: seq<Sample>, lags: nat, sessions: nat, now: nat): seq<real>
    requires lags <= |samples|
  {
    if lags == 0 then []
    else
      var earlier := LagSlopes(samples, lags - 1, sessions, now);
      match LagSlope(Back(samples, lags), sessions, now)
      case None => earlier
      case Some(v) => earlier + [v]
  }

  function Sum(s: seq<real>): real
  {
    if s == [] then 0.0 else Sum(s[..|s| - 1]) + s[|s| - 1]
  }

  function Min(a: nat, b: nat): nat { if a <= b then a else b }

  /** Mean of the usable lags, over at most six. */
  function Slope(samples: seq<Sample>, sessions: nat, now: nat): Option<real>
  {
    var lags := LagSlopes(samples, Min(|samples|, 6), sessions, now);
    if lags == [] then None else Some(Sum(lags) / |lags| as real)
  }

  method ComputeSmoothedSlope(samples: seq<Sample>, sessions: nat, now: nat) returns (slope: Option<real>)
    ensures slope == Slope(samples, sessions, now)
  {
    if samples == [] {
      return None;
    }
    var maxLags := Min(|samples|, 6);
    var total := 0.0;
    var count := 0;
    for lag := 1 to maxLags + 1
      invariant var lags := LagSlopes(samples, lag - 1, sessions, now); total == Sum(lags) && count == |lags|
    {
      var past := Back(samples, lag);
      ghost var before := LagSlopes(samples, lag - 1, sessions, now);
      if now < past.at || now - past.at < 100 {
        continue;
      }
      var slopeConnPerMin := (sessions as real - past.sessions as real) / ((now - past.at) as real / 1000.0) * 60.0;
      assert (before + [slopeConnPerMin])[..|before|] == before;
      total := total + slopeConnPerMin;
      count := count + 1;
    }
    if count == 0 {
      slope := None;
    } else {
      slope := Some(total / count as real);
    }
  }

  function PushSample(samples: seq<Sample>, s: Sample): seq<Sample>
  {
    var longer := samples + [s];
    if |longer| > 7 then longer[1..] else longer
  }

  // -- the bandwidth ---------------------------------------------------------------------------

  const EMA_ALPHA := 0.6

  /** Bytes per second between two readings; `None` when too close together or the counter went back. */
  function RawBps(prev: IfaceSnapshot, current: IfaceSnapshot): Option<real>
  {
    if current.at < prev.at || current.at - prev.at <= 100 || current.rxBytes < prev.rxBytes then None
    else Some((current.rxBytes - prev.rxBytes) as real / ((current.at - prev.at) as real / 1000.0))
  }

  /** `as u64`: towards zero, and no further than the type reaches. */
  function Truncate(r: real): u64
  {
    if r < 0.0 then 0 else if r.Floor > MAX_U64 then MAX_U64 else r.Floor
  }

  function ReadBandwidth(s: State, iface: Option<IfaceSnapshot>): State
  {
    if iface.None? then s
    else
      var raw := if s.bwPrev.Some? then RawBps(s.bwPrev.value, iface.value) else None;
      var t := s.(bwPrev := iface);
      if raw.None? then t
      else t.(bwRaw := Truncate(raw.value), bwSmoothed := EMA_ALPHA * raw.value + (1.0 - EMA_ALPHA) * s.bwSmoothed)
  }

  // -- the triggers -----------------------------------------------------------------------------

  datatype Triggers = Triggers(hard: bool, slope: bool, bandwidth: bool)

  predicate Armed(t: Triggers) { t.slope || t.bandwidth }

  predicate Clear(t: Triggers) { !t.hard && !Armed(t) }

  /** The triggers, from the state before the pass. */
  function TriggersOf(s: State, config: ScaleConfig, active: seq<BackendStatus>, around: Around): Triggers
    requires active != []
  {
    var avg := CeilAvg(active);
    var slope := Slope(s.samples, avg, around.now);
    var smoothed := ReadBandwidth(s, around.iface).bwSmoothed;
    Triggers(
      avg >= config.hardConnThreshold,
      avg >= config.slopeLowFloor && slope.Some? && slope.value >= config.slopeThreshold,
      smoothed > 0.0 && Truncate(smoothed) / |active| >= config.bwThreshold && avg >= config.slopeLowFloor)
  }

  // -- scaling up ---------------------------------------------------------------------------------

  /** `(desired + 1) as u32` */
  function NewDesired(desired: int): u32 { (desired + 1) % 0x1_0000_0000 }

  function Observed(s: State, config: ScaleConfig, active: seq<BackendStatus>, around: Around): State
    requires active != []
  {
    ReadBandwidth(s, around.iface).(samples := PushSample(s.samples, Sample(around.now, CeilAvg(active))))
  }

  /** The counter after the triggers have been applied to it. */
  function Counted(cycles: nat, t: Triggers, config: ScaleConfig): nat
  {
    if t.hard then config.scaleUpHysteresis else if Armed(t) then cycles + 1 else 0
  }

  predicate CooledDown(last: Option<nat>, cooldownSecs: nat, now: nat)
  {
    last.None? || Elapsed(now, last.value) >= cooldownSecs
  }

  /** Everything asks for one more instance: the counter, room in the group, and the cooldown. */
  predicate WantsScaleUp(s: State, config: ScaleConfig, group: AsgGroupInfo, active: seq<BackendStatus>, around: Around)
    requires active != []
  {
    var t := TriggersOf(s, config, active, around);
    && !Clear(t)
    && Counted(s.upCycles, t, config) >= config.scaleUpHysteresis
    && group.desired < group.max
    && CooledDown(s.lastScaleUp, config.scaleUpCooldownSecs, around.now)
  }

  function ScaleUp(s: State, config: ScaleConfig, group: Option<AsgGroupInfo>, active: seq<BackendStatus>, dryRun: bool,
                   around: Around): State
    requires active != []
  {
    if group.None? then s
    else
      var t := TriggersOf(s, config, active, around);
      var counted := Observed(s, config, active, around).(upCycles := Counted(s.upCycles, t, config));
      if WantsScaleUp(s, config, group.value, active, around) && (dryRun || around.awsOk) then
        counted.(upCycles := 0, lastScaleUp := Some(around.after))
      else counted
  }

  /** The capacity asked for, if the pass asks for one. */
  function Asked(s: State, config: ScaleConfig, group: Option<AsgGroupInfo>, active: seq<BackendStatus>, dryRun: bool,
                 around: Around): Option<u32>
    requires active != []
  {
    if group.Some? && !dryRun && WantsScaleUp(s, config, group.value, active, around)
    then Some(NewDesired(group.value.desired)) else None
  }

  // -- draining -----------------------------------------------------------------------------------

  /** Fewer sessions on average than the drain threshold, and every guard in front of that check passed. */
  predicate GateOpen(config: ScaleConfig, snap: SystemSnapshot, active: seq<BackendStatus>)
  {
    && snap.asgGroup.Some? && |active| > 1 && snap.asgGroup.value.desired > snap.asgGroup.value.min
    && DrainingCount(snap.backends) < config.maxConcurrentDraining
    && FloorAvg(active) < config.drainThreshold
  }

  function ByLoad(b: BackendStatus): int { Load(b) }

  /** An idle backend; failing that, while nothing else drains, the busiest. */
  function Candidate(snap: SystemSnapshot, active: seq<BackendStatus>): Option<BackendStatus>
  {
    var sorted := Sorting.SortBy(active, ByLoad);
    if sorted == [] then None
    else if Load(sorted[0]) == 0 then Some(sorted[0])
    else if DrainingCount(snap.backends) == 0 then Some(sorted[|sorted| - 1])
    else None
  }

  /** The backend to drain now, if any. */
  function ToDrain(s: State, config: ScaleConfig, snap: SystemSnapshot, active: seq<BackendStatus>,
                   around: Around): Option<BackendStatus>
  {
    if GateOpen(config, snap, active) && s.drainCycles + 1 >= config.drainHysteresis
       && CooledDown(s.lastDrain, config.drainCooldownSecs, around.now)
    then Candidate(snap, active) else None
  }

  function Drain(s: State, config: ScaleConfig, snap: SystemSnapshot, active: seq<BackendStatus>, dryRun: bool,
                 around: Around): State
  {
    if snap.asgGroup.None? then s
    else if |active| <= 1 || snap.asgGroup.value.desired <= snap.asgGroup.value.min then s.(drainCycles := 0)
    else if DrainingCount(snap.backends) >= config.maxConcurrentDraining then s
    else if FloorAvg(active) >= config.drainThreshold then s.(drainCycles := 0)
    else if ToDrain(s, config, snap, active, around).Some? && (dryRun || around.writeOk) then
      s.(drainCycles := 0, lastDrain := Some(around.after))
    else s.(drainCycles := s.drainCycles + 1)
  }

  // -- one pass -----------------------------------------------------------------------------------

  function Pass(s: State, config: ScaleConfig, snap: SystemSnapshot, dryRun: bool, around: Around): State
  {
    var active := ActiveOf(snap.backends, around.nowMs);
    if active == [] then s.(upCycles := 0, drainCycles := 0)
    else Drain(ScaleUp(s, config, snap.asgGroup, active, dryRun, around), config, snap, active, dryRun, around)
  }

  /** What the pass does outside: `SetDesiredCapacity`, and a weight file set to draining. */
  datatype Effects = Effects(asked: Option<u32>, drained: Option<u32>)

  function PassEffects(s: State, config: ScaleConfig, snap: SystemSnapshot, dryRun: bool, around: Around): Effects
  {
    var active := ActiveOf(snap.backends, around.nowMs);
    if active == [] then Effects(None, None)
    else
      var drained := ToDrain(ScaleUp(s, config, snap.asgGroup, active, dryRun, around), config, snap, active, around);
      Effects(Asked(s, config, snap.asgGroup, active, dryRun, around),
              if drained.Some? && !dryRun then Some(drained.value.ip) else None)
  }

  // -- the scaler object --------------------------------------------------------------------------

  class ScalerState {
    var scaleUpCycles: nat
    var drainCycles: nat
    var lastScaleUp: Option<nat>
    var lastDrain: Option<nat>
    var slopeSamples: seq<Sample>
    var bwPrev: Option<IfaceSnapshot>
    var bwSmoothed: real
    var bwRawBps: u64

    function Value(): State
      reads this
    {
      State(scaleUpCycles, drainCycles, lastScaleUp, lastDrain, slopeSamples, bwPrev, bwSmoothed, bwRawBps)
    }

    constructor ()
      ensures Value() == FRESH
    {
      scaleUpCycles, drainCycles, lastScaleUp, lastDrain := 0, 0, None, None;
      slopeSamples, bwPrev, bwSmoothed, bwRawBps := [], None, 0.0, 0;
    }

    method UpdateBandwidth(iface: Option<IfaceSnapshot>)
      modifies this
      ensures Value() == ReadBandwidth(old(Value()), iface)
    {
      if iface.None? {
        return;
      }
      var current := iface.value;
      if bwPrev.Some? && current.at >= bwPrev.value.at {
        var prev := bwPrev.value;
        if current.at - prev.at > 100 {
          if current.rxBytes >= prev.rxBytes {
            var rawBps := (current.rxBytes - prev.rxBytes) as real / ((current.at - prev.at) as real / 1000.0);
            bwRawBps := Truncate(rawBps);
            bwSmoothed := EMA_ALPHA * rawBps + (1.0 - EMA_ALPHA) * bwSmoothed;
          }
        }
      }
      bwPrev := Some(current);
    }

    method PushSlopeSample(s: Sample)
      modifies this`slopeSamples
      ensures slopeSamples == PushSample(old(slopeSamples), s)
    {
      slopeSamples := slopeSamples + [s];
      if |slopeSamples| > 7 {
        slopeSamples := slopeSamples[1..];
      }
    }

    method EvaluateScaleUp(config: ScaleConfig, snap: SystemSnapshot, active: seq<BackendStatus>, dryRun: bool,
                           around: Around)
      returns (asked: Option<u32>)
      requires active != []
      modifies this
      ensures Value() == ScaleUp(old(Value()), config, snap.asgGroup, active, dryRun, around)
      ensures asked == Asked(old(Value()), config, snap.asgGroup, active, dryRun, around)
    {
      hide Slope, ReadBandwidth, PushSample, Total, CooledDown;
      if snap.asgGroup.None? {
        return None;
      }
      var group := snap.asgGroup.value;
      ghost var s := Value();
      var avg := CeilAvg(active);
      UpdateBandwidth(around.iface);
      ghost var t := ReadBandwidth(s, around.iface);
      BandwidthOnly(s, around.iface);
      var slope := ComputeSmoothedSlope(slopeSamples, avg, around.now);
      PushSlopeSample(Sample(around.now, avg));
      var hardTrigger := avg >= config.hardConnThreshold;
      var slopeTrigger := avg >= config.slopeLowFloor && slope.Some? && slope.value >= config.slopeThreshold;
      var bwTrigger :=
        bwSmoothed > 0.0 && Truncate(bwSmoothed) / |active| >= config.bwThreshold && avg >= config.slopeLowFloor;
      assert TriggersOf(s, config, active, around) == Triggers(hardTrigger, slopeTrigger, bwTrigger);
      assert Value() == Observed(s, config, active, around);
      if hardTrigger {
        scaleUpCycles := config.scaleUpHysteresis;
      } else if slopeTrigger || bwTrigger {
        scaleUpCycles := scaleUpCycles + 1;
      } else {
        scaleUpCycles := 0;
        return None;
      }
      if scaleUpCycles < config.scaleUpHysteresis {
        return None;
      }
      if group.desired >= group.max {
        return None;
      }
      if !CooledDown(lastScaleUp, config.scaleUpCooldownSecs, around.now) {
        return None;
      }
      if !dryRun {
        asked := Some(NewDesired(group.desired));
        if !around.awsOk {
          return;
        }
      } else {
        asked := None;
      }
      scaleUpCycles := 0;
      lastScaleUp := Some(around.after);
    }

    method EvaluateDrain(config: ScaleConfig, snap: SystemSnapshot, active: seq<BackendStatus>, dryRun: bool,
                         around: Around)
      returns (drained: Option<u32>)
      modifies this
      ensures Value() == Drain(old(Value()), config, snap, active, dryRun, around)
      ensures drained == (var b := ToDrain(old(Value()), config, snap, active, around);
                          if b.Some? && !dryRun then Some(b.value.ip) else None)
    {
      hide CooledDown, DrainingCount, Total, Sorting.SortBy;
      if snap.asgGroup.None? {
        return None;
      }
      var group := snap.asgGroup.value;
      if |active| <= 1 {
        drainCycles := 0;
        return None;
      }
      if group.desired <= group.min {
        drainCycles := 0;
        return None;
      }
      var drainingCount := DrainingCount(snap.backends);
      if drainingCount >= config.maxConcurrentDraining {
        return None;
      }
      var sorted := Sorting.SortBy(active, ByLoad);
      Sorting.SortKeeps(active, ByLoad);
      if FloorAvg(active) >= config.drainThreshold {
        drainCycles := 0;
        return None;
      }
      drainCycles := drainCycles + 1;
      if drainCycles < config.drainHysteresis {
        return None;
      }
      if !CooledDown(lastDrain, config.drainCooldownSecs, around.now) {
        return None;
      }
      var candidate;
      if Load(sorted[0]) == 0 {
        candidate := sorted[0];
      } else if drainingCount == 0 {
        candidate := sorted[|sorted| - 1];
      } else {
        return None;
      }
      if !dryRun {
        drained := Some(candidate.ip);
        if !around.writeOk {
          return;
        }
      } else {
        drained := None;
      }
      drainCycles := 0;
      lastDrain := Some(around.after);
    }

    method Run(config: ScaleConfig, snap: SystemSnapshot, dryRun: bool, around: Around) returns (effects: Effects)
      modifies this
      ensures Value() == Pass(old(Value()), config, snap, dryRun, around)
      ensures effects == PassEffects(old(Value()), config, snap, dryRun, around)
    {
      hide ActiveOf, ScaleUp, Drain, ToDrain, Asked;
      var active := ActiveOf(snap.backends, around.nowMs);
      if active == [] {
        scaleUpCycles := 0;
        drainCycles := 0;
        return Effects(None, None);
      }
      var asked := EvaluateScaleUp(config, snap, active, dryRun, around);
      var drained := EvaluateDrain(config, snap, active, dryRun, around);
      effects := Effects(asked, drained);
    }
  }

  lemma BandwidthOnly(s: State, iface: Option<IfaceSnapshot>)
    ensures var t := ReadBandwidth(s, iface); t.(bwPrev := s.bwPrev, bwSmoothed := s.bwSmoothed, bwRaw := s.bwRaw) == s
  {
  }
}
