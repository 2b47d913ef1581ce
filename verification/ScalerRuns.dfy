/** What the scaler guarantees over whole runs of passes. */
module ScalerRuns {
  import opened Options
  import opened Snapshot
  import opened Scaler
  import Sorting

  /** One pass of a run: what it sees. */
  datatype Turn = Turn(snap: SystemSnapshot, around: Around)

  datatype Setup = Setup(config: ScaleConfig, dryRun: bool)

  function After(u: Setup, run: seq<Turn>): State
  {
    if run == [] then FRESH
    else
      var last := run[|run| - 1];
      Pass(After(u, run[..|run| - 1]), u.config, last.snap, u.dryRun, last.around)
  }

  /** How a pass bears on scaling up. */
  datatype Outcome =
    | NoActives
    | NoGroup
    | Evaluated(triggers: Triggers, acted: bool)

  function OutcomeOf(u: Setup, s: State, turn: Turn): Outcome
  {
    var active := ActiveOf(turn.snap.backends, turn.around.nowMs);
    if active == [] then NoActives
    else if turn.snap.asgGroup.None? then NoGroup
    else Evaluated(TriggersOf(s, u.config, active, turn.around),
                   WantsScaleUp(s, u.config, turn.snap.asgGroup.value, active, turn.around)
                     && (u.dryRun || turn.around.awsOk))
  }

  /** The outcome of the `i`-th pass of the run. */
  function OutcomeAt(u: Setup, run: seq<Turn>, i: nat): Outcome
    requires i < |run|
  {
    OutcomeOf(u, After(u, run[..i]), run[i])
  }

  predicate ActedAt(u: Setup, run: seq<Turn>, i: nat)
    requires i < |run|
  {
    OutcomeAt(u, run, i).Evaluated? && OutcomeAt(u, run, i).acted
  }

  /** What a pass does to the counter and the time of the last action. */
  lemma PassCounts(u: Setup, s: State, turn: Turn)
    ensures var t := Pass(s, u.config, turn.snap, u.dryRun, turn.around);
            match OutcomeOf(u, s, turn)
            case NoActives => t.upCycles == 0 && t.lastScaleUp == s.lastScaleUp
            case NoGroup => t.upCycles == s.upCycles && t.lastScaleUp == s.lastScaleUp
            case Evaluated(triggers, acted) =>
              if acted then t.upCycles == 0 && t.lastScaleUp == Some(turn.around.after)
              else t.upCycles == Counted(s.upCycles, triggers, u.config) && t.lastScaleUp == s.lastScaleUp
  {
    hide ActiveOf, TriggersOf, WantsScaleUp, ToDrain, DrainingCount, FloorAvg, PushSample, Counted;
    var active := ActiveOf(turn.snap.backends, turn.around.nowMs);
    if active != [] {
      BandwidthOnly(s, turn.around.iface);
    }
  }

  /** A pass that evaluates the triggers takes in the interface reading and the session average. */
  lemma PassReads(u: Setup, s: State, turn: Turn)
    ensures var active := ActiveOf(turn.snap.backends, turn.around.nowMs);
            var t := Pass(s, u.config, turn.snap, u.dryRun, turn.around);
            if active == [] || turn.snap.asgGroup.None? then
              t.samples == s.samples && t.bwPrev == s.bwPrev && t.bwSmoothed == s.bwSmoothed
            else
              && t.samples == PushSample(s.samples, Sample(turn.around.now, CeilAvg(active)))
              && t.bwPrev == ReadBandwidth(s, turn.around.iface).bwPrev
              && t.bwSmoothed == ReadBandwidth(s, turn.around.iface).bwSmoothed
  {
    hide ActiveOf, TriggersOf, WantsScaleUp, ToDrain, DrainingCount, FloorAvg, PushSample, Counted, CeilAvg;
    BandwidthOnly(s, turn.around.iface);
  }

  lemma {:induction false} AfterTurn(u: Setup, run: seq<Turn>)
    requires run != []
    ensures var init, last := run[..|run| - 1], run[|run| - 1];
            After(u, run) == Pass(After(u, init), u.config, last.snap, u.dryRun, last.around)
  {
  }

  // -- one step up, never above the maximum -------------------------------------------------

  /** The capacity asked for is one above the snapshot's, at most the maximum, as long as it fits a `u32`. */
  lemma AsksForOneMore(s: State, config: ScaleConfig, snap: SystemSnapshot, dryRun: bool, around: Around)
    ensures var asked := PassEffects(s, config, snap, dryRun, around).asked;
            asked.Some? ==>
              && snap.asgGroup.Some? && snap.asgGroup.value.desired < snap.asgGroup.value.max
              && (asked.value == snap.asgGroup.value.desired + 1 <==>
                    0 <= snap.asgGroup.value.desired + 1 < 0x1_0000_0000)
              && (0 <= snap.asgGroup.value.desired && snap.asgGroup.value.max < 0x1_0000_0000 ==>
                    asked.value == snap.asgGroup.value.desired + 1 <= snap.asgGroup.value.max)
  {
    hide ActiveOf, TriggersOf, ToDrain, ScaleUp;
  }

  // -- cooldown ------------------------------------------------------------------------------

  /** A pass reads the clock before and after it acts, and passes follow one another. */
  predicate ClockRuns(run: seq<Turn>)
  {
    && (forall i :: 0 <= i < |run| ==> run[i].around.now <= run[i].around.after)
    && (forall i, j :: 0 <= i < j < |run| ==> run[i].around.after <= run[j].around.now)
  }

  /** A run that can happen: snapshots the daemon can take, and clocks that run. */
  ghost predicate Real(run: seq<Turn>)
  {
    ClockRuns(run) && forall i :: 0 <= i < |run| ==> Collected(run[i].snap)
  }

  /** When the scaler acted, in order. */
  function ActTimes(u: Setup, run: seq<Turn>): seq<nat>
  {
    if run == [] then []
    else
      var n := |run| - 1;
      ActTimes(u, run[..n]) + if ActedAt(u, run, n) then [run[n].around.after] else []
  }

  predicate Spaced(times: seq<nat>, gap: nat)
  {
    forall i :: 0 < i < |times| ==> times[i] >= times[i - 1] + gap
  }

  lemma {:induction false} ActionsAreSpaced(u: Setup, run: seq<Turn>)
    requires ClockRuns(run)
    ensures var times := ActTimes(u, run);
            && Spaced(times, 1000 * u.config.scaleUpCooldownSecs)
            && After(u, run).lastScaleUp == (if times == [] then None else Some(times[|times| - 1]))
            && (run != [] && times != [] ==> times[|times| - 1] <= run[|run| - 1].around.after)
  {
    if run != [] {
      var n := |run| - 1;
      var init, last := run[..n], run[n];
      ActionsAreSpaced(u, init);
      AfterTurn(u, run);
      hide Pass, TriggersOf, After, ActiveOf;
      PassCounts(u, After(u, init), last);
      if init != [] {
        assert init[n - 1] == run[n - 1];
        assert run[n - 1].around.after <= run[n].around.now;
      }
    }
  }

  /** `k + 1` times a gap apart span at least `k` gaps. */
  lemma {:induction false} SpacedTimesAdd(times: seq<nat>, gap: nat, i: nat, k: nat)
    requires Spaced(times, gap) && i + k < |times|
    ensures times[i + k] >= times[i] + k * gap
  {
    if k > 0 {
      SpacedTimesAdd(times, gap, i, k - 1);
      assert times[i + k] >= times[i + k - 1] + gap;
      assert k * gap == (k - 1) * gap + gap;
    }
  }

  /** Any `k + 1` consecutive scale-ups of a run span at least `k` cooldowns. */
  lemma {:induction false} CooldownOverRuns(u: Setup, run: seq<Turn>, i: nat, k: nat)
    requires ClockRuns(run) && i + k < |ActTimes(u, run)|
    ensures ActTimes(u, run)[i + k] >= ActTimes(u, run)[i] + k * (1000 * u.config.scaleUpCooldownSecs)
  {
    ActionsAreSpaced(u, run);
    SpacedTimesAdd(ActTimes(u, run), 1000 * u.config.scaleUpCooldownSecs, i, k);
  }

  // -- the sliding window ---------------------------------------------------------------------------

  /** The samples of all evaluated passes. */
  function History(u: Setup, run: seq<Turn>): seq<Sample>
  {
    if run == [] then []
    else
      var last := run[|run| - 1];
      var active := ActiveOf(last.snap.backends, last.around.nowMs);
      History(u, run[..|run| - 1])
        + if active == [] || last.snap.asgGroup.None? then [] else [Sample(last.around.now, CeilAvg(active))]
  }

  function LastSeven(s: seq<Sample>): seq<Sample>
  {
    if |s| > 7 then s[|s| - 7..] else s
  }

  /** The window holds the seven most recent evaluated passes. */
  lemma {:induction false} WindowIsRecent(u: Setup, run: seq<Turn>)
    ensures After(u, run).samples == LastSeven(History(u, run))
  {
    if run != [] {
      var init, last := run[..|run| - 1], run[|run| - 1];
      WindowIsRecent(u, init);
      AfterTurn(u, run);
      hide Pass, ActiveOf, CeilAvg;
      PassReads(u, After(u, init), last);
    }
  }

  // -- the slope ---------------------------------------------------------------------------------------

  lemma {:induction false} SumBetween(s: seq<real>, lo: real, hi: real)
    requires forall i :: 0 <= i < |s| ==> lo <= s[i] <= hi
    ensures lo * |s| as real <= Sum(s) <= hi * |s| as real
  {
    if s != [] {
      SumBetween(s[..|s| - 1], lo, hi);
      assert |s| as real == (|s| - 1) as real + 1.0;
      assert lo * |s| as real == lo * (|s| - 1) as real + lo;
      assert hi * |s| as real == hi * (|s| - 1) as real + hi;
    }
  }

  /** One of the `lags` most recent samples lies far enough back. */
  predicate Usable(samples: seq<Sample>, lags: nat, now: nat)
    requires lags <= |samples|
  {
    exists k :: 1 <= k <= lags && Back(samples, k).at + 100 <= now
  }

  /** Every usable lag among the most recent `lags` has a slope from `lo` to `hi`. */
  predicate Within(samples: seq<Sample>, lags: nat, sessions: nat, now: nat, lo: real, hi: real)
    requires lags <= |samples|
  {
    forall k :: 1 <= k <= lags ==>
      var v := LagSlope(Back(samples, k), sessions, now);
      v.Some? ==> lo <= v.value <= hi
  }

  lemma {:induction false} LagsWithin(samples: seq<Sample>, lags: nat, sessions: nat, now: nat, lo: real, hi: real)
    requires lags <= |samples| && Within(samples, lags, sessions, now, lo, hi)
    ensures var slopes := LagSlopes(samples, lags, sessions, now);
            && (forall i :: 0 <= i < |slopes| ==> lo <= slopes[i] <= hi)
            && (slopes != [] <==> Usable(samples, lags, now))
  {
    if lags > 0 {
      LagsWithin(samples, lags - 1, sessions, now, lo, hi);
      OneMoreLag(samples, lags, now);
      assert LagSlope(Back(samples, lags), sessions, now).Some? <==> Back(samples, lags).at + 100 <= now;
      hide LagSlope, Usable, Back;
    }
  }

  lemma {:induction false} OneMoreLag(samples: seq<Sample>, lags: nat, now: nat)
    requires 0 < lags <= |samples|
    ensures Usable(samples, lags, now) <==> Usable(samples, lags - 1, now) || Back(samples, lags).at + 100 <= now
  {
  }

  /**
   The slope exists exactly when one of the last six samples is usable, and lies
   between the least and the greatest per-lag slope; a steady rate is returned as is.
   */
  lemma {:induction false} SlopeIsAMean(samples: seq<Sample>, sessions: nat, now: nat, lo: real, hi: real)
    requires Within(samples, Min(|samples|, 6), sessions, now, lo, hi)
    ensures Slope(samples, sessions, now).Some? <==> Usable(samples, Min(|samples|, 6), now)
    ensures Slope(samples, sessions, now).Some? ==> lo <= Slope(samples, sessions, now).value <= hi
  {
    hide LagSlope, LagSlopes, Sum, Within, Usable;
    var n := Min(|samples|, 6);
    var slopes := LagSlopes(samples, n, sessions, now);
    LagsWithin(samples, n, sessions, now, lo, hi);
    SumBetween(slopes, lo, hi);
    if slopes != [] {
      Divided(Sum(slopes), |slopes| as real, lo, hi);
    }
  }

  /** The sessions of a sample grew at `rate` per minute until now. */
  predicate GrewAt(s: Sample, sessions: nat, now: nat, rate: real)
  {
    now >= s.at && (sessions as real - s.sessions as real) * 60000.0 == rate * (now - s.at) as real
  }

  lemma LagOfSteadyGrowth(s: Sample, sessions: nat, now: nat, rate: real)
    requires GrewAt(s, sessions, now, rate)
    ensures LagSlope(s, sessions, now).Some? ==> LagSlope(s, sessions, now).value == rate
  {
    if now - s.at >= 100 {
      var ms, d := (now - s.at) as real, sessions as real - s.sessions as real;
      assert (d / (ms / 1000.0) * 60.0) * ms == d * 60000.0 by {
        var q := d / (ms / 1000.0);
        assert q * (ms / 1000.0) == d;
        assert q * ms == 1000.0 * (q * (ms / 1000.0));
      }
      SameFactor(d / (ms / 1000.0) * 60.0, rate, ms);
    }
  }

  lemma SameFactor(a: real, b: real, c: real)
    requires c > 0.0 && a * c == b * c
    ensures a == b
  {
    assert (a - b) * c == 0.0;
  }

  /** Sessions that have grown at a steady rate over the last six samples give that rate, in sessions per minute. */
  lemma {:induction false} SteadyGrowth(samples: seq<Sample>, sessions: nat, now: nat, rate: real)
    requires forall i :: 0 <= i < |samples| && |samples| - i <= 6 ==> GrewAt(samples[i], sessions, now, rate)
    ensures Slope(samples, sessions, now) ==
            if exists i :: 0 <= i < |samples| && |samples| - i <= 6 && samples[i].at + 100 <= now
            then Some(rate) else None
  {
    hide LagSlope, Slope;
    var n := Min(|samples|, 6);
    forall k | 1 <= k <= n
      ensures var v := LagSlope(Back(samples, k), sessions, now); v.Some? ==> rate <= v.value <= rate
    {
      assert GrewAt(samples[|samples| - k], sessions, now, rate);
      LagOfSteadyGrowth(Back(samples, k), sessions, now, rate);
    }
    assert Within(samples, n, sessions, now, rate, rate);
    SlopeIsAMean(samples, sessions, now, rate, rate);
    if Usable(samples, n, now) {
      var k :| 1 <= k <= n && Back(samples, k).at + 100 <= now;
      assert samples[|samples| - k].at + 100 <= now;
    }
    if i :| 0 <= i < |samples| && |samples| - i <= 6 && samples[i].at + 100 <= now {
      assert Back(samples, |samples| - i).at + 100 <= now;
    }
  }

  lemma Divided(sum: real, n: real, lo: real, hi: real)
    requires n > 0.0 && lo * n <= sum <= hi * n
    ensures lo <= sum / n <= hi
  {
    var q := sum / n;
    assert q * n == sum;
    if q < lo {
      Scaled(q, lo, n);
    } else if q > hi {
      Scaled(hi, q, n);
    }
  }

  lemma Scaled(a: real, b: real, n: real)
    requires a < b && n > 0.0
    ensures a * n < b * n
  {
  }

  // -- which backend is drained ------------------------------------------------------------------------------

  /** No weight file before `k` takes part with an idle backend. */
  predicate NoneIdleBefore(backends: seq<BackendStatus>, k: nat, nowMs: nat)
  {
    forall i :: 0 <= i < k && i < |backends| && Counts(backends[i], nowMs) ==> Load(backends[i]) > 0
  }

  /** None that takes part is idle or busier, and none behind `k` as busy. */
  predicate LastBusiest(backends: seq<BackendStatus>, k: nat, nowMs: nat)
    requires k < |backends|
  {
    forall i :: 0 <= i < |backends| && Counts(backends[i], nowMs) ==>
      0 < Load(backends[i]) <= Load(backends[k]) && (i > k ==> Load(backends[i]) < Load(backends[k]))
  }

  /**
   A drained backend is active, leased and counted; it is the first idle one, or it is
   the last of the busiest, when none is idle and nothing else is draining; and the cap
   leaves room for it.
   */
  lemma DrainsIdleOrBusiest(s: State, config: ScaleConfig, snap: SystemSnapshot, dryRun: bool, around: Around)
    returns (k: nat)
    ensures var e := PassEffects(s, config, snap, dryRun, around);
            e.drained.Some? ==>
              && DrainingCount(snap.backends) < config.maxConcurrentDraining
              && k < |snap.backends| && Counts(snap.backends[k], around.nowMs) && snap.backends[k].ip == e.drained.value
              && (if Load(snap.backends[k]) == 0 then NoneIdleBefore(snap.backends, k, around.nowMs)
                  else DrainingCount(snap.backends) == 0 && LastBusiest(snap.backends, k, around.nowMs))
  {
    hide ScaleUp, Asked, Sorting.SortBy, FloorAvg, DrainingCount, ActiveOf;
    k := 0;
    var active := ActiveOf(snap.backends, around.nowMs);
    if PassEffects(s, config, snap, dryRun, around).drained.Some? {
      var at := ActiveAt(snap.backends, around.nowMs);
      Sorting.SortKeeps(active, ByLoad);
      var first, last := Sorting.SortEnds(active, ByLoad);
      assert forall i :: 0 <= i < |active| ==> ByLoad(active[i]) == Load(active[i]);
      ActiveAre(snap.backends, around.nowMs);
      k := if Load(active[first]) == 0 then at[first] else at[last];
      assert snap.backends[k] in active;
    }
  }

  /** `at` tells where the elements of `active` stand in `backends`, in order. */
  predicate StandAt(backends: seq<BackendStatus>, active: seq<BackendStatus>, at: seq<nat>)
  {
    && |at| == |active|
    && (forall i, j :: 0 <= i < j < |at| ==> at[i] < at[j])
    && forall i :: 0 <= i < |at| ==> at[i] < |backends| && backends[at[i]] == active[i]
  }

  lemma {:induction false} StandLater(b: BackendStatus, rest: seq<BackendStatus>, active: seq<BackendStatus>,
                                      at: seq<nat>) returns (later: seq<nat>)
    requires StandAt(rest, active, at)
    ensures StandAt([b] + rest, active, later) && StandAt([b] + rest, [b] + active, [0] + later)
    ensures forall k :: k in at ==> k + 1 in later
  {
    later := seq(|at|, i requires 0 <= i < |at| => at[i] + 1);
    assert forall i :: 0 <= i < |at| ==> later[i] == at[i] + 1 && ([b] + rest)[later[i]] == rest[at[i]];
    assert StandAt([b] + rest, active, later);
    assert forall i :: 1 <= i <= |at| ==> ([0] + later)[i] == later[i - 1] && ([b] + active)[i] == active[i - 1];
  }

  /** The backends that take part, in the order of the weight files. */
  lemma {:induction false} ActiveAt(backends: seq<BackendStatus>, nowMs: nat) returns (at: seq<nat>)
    ensures StandAt(backends, ActiveOf(backends, nowMs), at)
    ensures forall k :: 0 <= k < |backends| && Counts(backends[k], nowMs) ==> k in at
  {
    hide StandAt, Counts;
    if backends == [] {
      at := [];
      NoneStand(backends);
    } else {
      var active := ActiveOf(backends[1..], nowMs);
      var before := ActiveAt(backends[1..], nowMs);
      at := StandLater(backends[0], backends[1..], active, before);
      assert [backends[0]] + backends[1..] == backends;
      forall k | 1 <= k < |backends| && Counts(backends[k], nowMs) ensures k in at {
        assert backends[k] == backends[1..][k - 1] && k - 1 in before;
      }
      if Counts(backends[0], nowMs) {
        at := [0] + at;
      } else {
        assert [] + active == active;
      }
    }
  }

  lemma {:induction false} NoneStand(backends: seq<BackendStatus>)
    ensures StandAt(backends, [], [])
  {
  }

  lemma {:induction false} ActiveAre(backends: seq<BackendStatus>, nowMs: nat)
    ensures forall b :: b in ActiveOf(backends, nowMs) <==> b in backends && Counts(b, nowMs)
  {
    if backends != [] {
      ActiveAre(backends[1..], nowMs);
    }
  }
}
