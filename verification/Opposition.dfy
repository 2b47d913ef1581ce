/** Growing and draining at once: exactly which configurations can see a reason for both in one pass. */
module Opposition {
  import opened Options
  import opened Snapshot
  import opened Scaler
  import opened ScalerRuns
  import opened Scenes

  /** One pass sees a reason to grow the group and an open drain gate. */
  predicate Opposes(s: State, config: ScaleConfig, snap: SystemSnapshot, around: Around)
  {
    var active := ActiveOf(snap.backends, around.nowMs);
    active != [] && !Clear(TriggersOf(s, config, active, around)) && GateOpen(config, snap, active)
  }

  /** The highest rounded-up average that goes with an open gate. */
  function Reach(config: ScaleConfig): nat
  {
    Min(config.drainThreshold, MAX_SESSIONS)
  }

  /**
   The slope or the bandwidth trigger can fire at that average: the floor lies no
   higher, and the steepest slope or the greatest bandwidth that there can be
   reaches its threshold.
   */
  predicate CanArm(config: ScaleConfig)
  {
    && config.slopeLowFloor <= Reach(config)
    && (config.bwThreshold <= MAX_U64 / 2 || config.slopeThreshold <= 600.0 * Reach(config) as real)
  }

  /** Draining is off, or no trigger for growing can fire where the gate can be open. */
  predicate Separated(config: ScaleConfig)
  {
    config.drainThreshold == 0 || config.maxConcurrentDraining == 0
    || (config.hardConnThreshold > Reach(config) && !CanArm(config))
  }

  // -- averages --------------------------------------------------------------------------------

  lemma {:induction false} TotalBounded(active: seq<BackendStatus>)
    ensures Total(active) <= |active| * MAX_SESSIONS
  {
    if active != [] {
      TotalBounded(active[1..]);
    }
  }

  lemma {:induction false} Averages(active: seq<BackendStatus>)
    requires active != []
    ensures FloorAvg(active) <= CeilAvg(active) <= FloorAvg(active) + 1
    ensures CeilAvg(active) <= MAX_SESSIONS
  {
    TotalBounded(active);
    hide Total;
    var t, n := Total(active), |active|;
    CeilBounded(t, n, MAX_SESSIONS);
    assert t / n <= (t + n - 1) / n <= t / n + 1 by {
      Rounding(t, n);
    }
  }

  lemma CeilBounded(t: nat, n: nat, m: nat)
    requires n > 0 && t <= n * m
    ensures (t + n - 1) / n <= m
  {
    var q := (t + n - 1) / n;
    assert q * n <= t + n - 1;
    if q > m {
      Times(m + 1, q, n);
    }
  }

  lemma Times(a: int, b: int, n: nat)
    requires a <= b
    ensures a * n <= b * n
  {
  }

  lemma Rounding(t: nat, n: nat)
    requires n > 0
    ensures t / n <= (t + n - 1) / n <= t / n + 1
  {
    var q, r := t / n, t % n;
    assert t == q * n + r;
    var c := (t + n - 1) / n;
    assert c * n <= t + n - 1 < c * n + n;
    if c < q {
      Times(c + 1, q, n);
    } else if c > q + 1 {
      Times(q + 2, c, n);
    }
  }

  // -- separated thresholds --------------------------------------------------------------------

  /** No lag is steeper than all sessions in a tenth of a second. */
  lemma LagAtMost(s: Sample, sessions: nat, now: nat)
    ensures var v := LagSlope(s, sessions, now); v.Some? ==> v.value <= 600.0 * sessions as real
  {
    if now >= s.at && now - s.at >= 100 {
      var dt := (now - s.at) as real / 1000.0;
      var d := sessions as real - s.sessions as real;
      Quotient(d, dt, sessions as real);
    }
  }

  lemma Quotient(d: real, dt: real, most: real)
    requires dt >= 0.1 && d <= most && most >= 0.0
    ensures d / dt * 60.0 <= 600.0 * most
  {
    var q := d / dt;
    assert q * dt == d;
    if q > 10.0 * most {
      Scaled(10.0 * most, q, dt);
      AtLeast(10.0 * most, 0.1, dt);
    }
  }

  lemma AtLeast(a: real, b: real, c: real)
    requires a >= 0.0 && b <= c
    ensures a * b <= a * c
  {
  }

  /** Some bound from below. */
  lemma {:induction false} LagsFrom(samples: seq<Sample>, lags: nat, sessions: nat, now: nat) returns (lo: real)
    requires lags <= |samples|
    ensures Within(samples, lags, sessions, now, lo, 600.0 * sessions as real)
  {
    hide LagSlope, Back;
    if lags == 0 {
      lo := 0.0;
    } else {
      lo := LagsFrom(samples, lags - 1, sessions, now);
      LagAtMost(Back(samples, lags), sessions, now);
      var v := LagSlope(Back(samples, lags), sessions, now);
      if v.Some? && v.value < lo {
        lo := v.value;
      }
    }
  }

  lemma {:induction false} SlopeAtMost(samples: seq<Sample>, sessions: nat, now: nat)
    ensures var slope := Slope(samples, sessions, now); slope.Some? ==> slope.value <= 600.0 * sessions as real
  {
    hide Slope, Within;
    var lo := LagsFrom(samples, Min(|samples|, 6), sessions, now);
    SlopeIsAMean(samples, sessions, now, lo, 600.0 * sessions as real);
  }

  lemma {:induction false} GateBoundsAverage(config: ScaleConfig, snap: SystemSnapshot, active: seq<BackendStatus>)
    requires active != [] && GateOpen(config, snap, active)
    ensures CeilAvg(active) <= Reach(config) && |active| >= 2
  {
    hide CeilAvg, FloorAvg, DrainingCount;
    Averages(active);
  }

  lemma HalfAtMost(r: real, n: nat)
    requires n >= 2
    ensures Truncate(r) / n <= MAX_U64 / 2
  {
    var t := Truncate(r);
    var q := t / n;
    assert q * n <= t;
    Times(2, n, q);
  }

  lemma SeparatedNeverOpposes(s: State, config: ScaleConfig, snap: SystemSnapshot, around: Around)
    requires Separated(config)
    ensures !Opposes(s, config, snap, around)
  {
    hide ActiveOf, Slope, ReadBandwidth, CeilAvg, FloorAvg, Truncate, DrainingCount;
    var active := ActiveOf(snap.backends, around.nowMs);
    if active != [] && GateOpen(config, snap, active) {
      GateBoundsAverage(config, snap, active);
      SlopeAtMost(s.samples, CeilAvg(active), around.now);
      HalfAtMost(ReadBandwidth(s, around.iface).bwSmoothed, |active|);
    }
  }

  // -- thresholds that are not ------------------------------------------------------------------

  /** The first pass of a run, with two idle backends. */
  lemma IdleFirst(u: Setup) returns (turn: Turn)
    ensures turn == Turn(Pair(0, 0, 2, 4), QUIET) && Collected(turn.snap)
    ensures var s := After(u, [turn]);
            s.samples == [Sample(0, 0)] && s.bwPrev == QUIET.iface && s.bwSmoothed == 0.0
  {
    hide Pair, ActiveOf, Pass, CeilAvg, FloorAvg, DrainingCount, Collected;
    turn := Turn(Pair(0, 0, 2, 4), QUIET);
    PairCounts(0, 0, 2, 4, 0);
    assert [turn][..0] == [];
    AfterTurn(u, [turn]);
    PassReads(u, FRESH, turn);
  }

  lemma OneLag(c: nat)
    ensures LagSlope(Sample(0, 0), c, 100) == Some(600.0 * c as real)
  {
    var dt := (100 - 0) as real / 1000.0;
    var d := c as real - 0 as real;
    assert dt == 0.1 && d == c as real;
    assert d / dt == 10.0 * d;
  }

  /** From idle to `c` sessions in a tenth of a second. */
  lemma SteepestSlope(c: nat)
    ensures Slope([Sample(0, 0)], c, 100) == Some(600.0 * c as real)
  {
    var samples := [Sample(0, 0)];
    var v := 600.0 * c as real;
    OneLag(c);
    assert Back(samples, 1) == Sample(0, 0);
    assert LagSlopes(samples, 0, c, 100) == [];
    assert LagSlopes(samples, 1, c, 100) == [v];
    assert [v][..0] == [] && Sum([]) == 0.0 && Sum([v]) == v;
    assert Min(|samples|, 6) == 1 && v / 1 as real == v;
  }

  /** Then all triggers fire that can fire at `c`, and the gate is open. */
  lemma SteepestOpposes(u: Setup, s: State, c: nat)
    requires !Separated(u.config) && c == Reach(u.config)
    requires s.samples == [Sample(0, 0)] && s.bwPrev == QUIET.iface && s.bwSmoothed == 0.0
    ensures c >= 1 && Opposes(s, u.config, Pair(c - 1, c, 2, 4), BUSY)
  {
    hide Pair, ActiveOf, CeilAvg, FloorAvg, Slope, DrainingCount, ReadBandwidth, Truncate, Collected;
    PairCounts(c - 1, c, 2, 4, 100);
    SteepestSlope(c);
    BusyIsBusy(s);
  }

  lemma OppositionExists(u: Setup) returns (run: seq<Turn>, turn: Turn)
    requires !Separated(u.config)
    ensures Real(run + [turn]) && Opposes(After(u, run), u.config, turn.snap, turn.around)
  {
    hide Pair, After, Opposes, Collected, ActiveOf, CeilAvg, FloorAvg, DrainingCount;
    var c := Reach(u.config);
    var first := IdleFirst(u);
    run := [first];
    SteepestOpposes(u, After(u, run), c);
    PairCounts(c - 1, c, 2, 4, 100);
    turn := Turn(Pair(c - 1, c, 2, 4), BUSY);
    assert run + [turn] == [first, turn];
  }

  /** In some run that can happen, from the daemon's start, a pass sees both. */
  ghost predicate CanOppose(u: Setup)
  {
    exists run, turn :: Real(run + [turn]) && Opposes(After(u, run), u.config, turn.snap, turn.around)
  }

  /**
   A pass can see both a trigger to scale up and an open drain gate exactly when the
   thresholds are not separated. With the drain threshold strictly below both
   thresholds for growing they are; with the hard threshold equal to it, or the floor
   equal to it and a bandwidth threshold within range, they are not, since one
   average is rounded up and the other down.
   */
  lemma OppositionExactly(u: Setup)
    ensures CanOppose(u) <==> !Separated(u.config)
    ensures u.config.drainThreshold < u.config.hardConnThreshold && u.config.drainThreshold < u.config.slopeLowFloor ==>
              Separated(u.config)
    ensures 0 < u.config.drainThreshold <= MAX_SESSIONS && u.config.maxConcurrentDraining > 0 ==>
              (u.config.drainThreshold == u.config.hardConnThreshold ==> !Separated(u.config)) &&
              (u.config.drainThreshold == u.config.slopeLowFloor && u.config.bwThreshold <= MAX_U64 / 2 ==>
                 !Separated(u.config))
  {
    hide Opposes, After, Real;
    if Separated(u.config) {
      forall run, turn: Turn ensures !Opposes(After(u, run), u.config, turn.snap, turn.around) {
        SeparatedNeverOpposes(After(u, run), u.config, turn.snap, turn.around);
      }
    } else {
      var run, turn := OppositionExists(u);
    }
  }

  /** With separated thresholds no pass both asks for capacity and drains a backend. */
  lemma NeverBoth(s: State, config: ScaleConfig, snap: SystemSnapshot, dryRun: bool, around: Around)
    requires Separated(config)
    ensures var e := PassEffects(s, config, snap, dryRun, around); !(e.asked.Some? && e.drained.Some?)
  {
    SeparatedNeverOpposes(s, config, snap, around);
    hide ActiveOf, TriggersOf, ScaleUp, DrainingCount, FloorAvg, Candidate, Separated;
  }
}
