/** What stands behind a drain, and how far apart drains are, over whole runs of scaler passes. */
module DrainRuns {
  import opened Options
  import opened Snapshot
  import opened Scaler
  import opened ScalerRuns
  import opened Hysteresis
  import Sorting

  /** How a pass bears on draining. */
  datatype Gate =
    | Closed              // the load, the group or the number of backends forbids it
    | Unseen              // no group data, or the cap is reached: not evaluated
    | Open(drained: bool)

  function GateOf(u: Setup, s: State, turn: Turn): Gate
  {
    var active := ActiveOf(turn.snap.backends, turn.around.nowMs);
    if active == [] then Closed
    else if turn.snap.asgGroup.None? then Unseen
    else if |active| == 1 || turn.snap.asgGroup.value.desired <= turn.snap.asgGroup.value.min then Closed
    else if DrainingCount(turn.snap.backends) >= u.config.maxConcurrentDraining then Unseen
    else if FloorAvg(active) >= u.config.drainThreshold then Closed
    else Open(ToDrain(s, u.config, turn.snap, active, turn.around).Some? && (u.dryRun || turn.around.writeOk))
  }

  /** The gate of the `i`-th pass of the run. */
  function GateAt(u: Setup, run: seq<Turn>, i: nat): Gate
    requires i < |run|
  {
    GateOf(u, After(u, run[..i]), run[i])
  }

  predicate DrainedAt(u: Setup, run: seq<Turn>, i: nat)
    requires i < |run|
  {
    GateAt(u, run, i) == Open(true)
  }

  /** Scaling up does not touch what draining remembers. */
  lemma {:induction false} ScaleUpLeavesDrain(u: Setup, s: State, turn: Turn, active: seq<BackendStatus>)
    requires active != []
    ensures var t := ScaleUp(s, u.config, turn.snap.asgGroup, active, u.dryRun, turn.around);
            && t.drainCycles == s.drainCycles && t.lastDrain == s.lastDrain
            && ToDrain(t, u.config, turn.snap, active, turn.around)
            == ToDrain(s, u.config, turn.snap, active, turn.around)
  {
    hide TriggersOf, WantsScaleUp, GateOpen, Candidate, PushSample, CooledDown, Counted, CeilAvg;
    BandwidthOnly(s, turn.around.iface);
  }

  lemma PassGates(u: Setup, s: State, turn: Turn)
    ensures var t := Pass(s, u.config, turn.snap, u.dryRun, turn.around);
            match GateOf(u, s, turn)
            case Closed => t.drainCycles == 0 && t.lastDrain == s.lastDrain
            case Unseen => t.drainCycles == s.drainCycles && t.lastDrain == s.lastDrain
            case Open(drained) =>
              if drained then t.drainCycles == 0 && t.lastDrain == Some(turn.around.after)
              else t.drainCycles == s.drainCycles + 1 && t.lastDrain == s.lastDrain
  {
    hide ActiveOf, ScaleUp, ToDrain, DrainingCount, FloorAvg;
    var active := ActiveOf(turn.snap.backends, turn.around.nowMs);
    if active != [] {
      ScaleUpLeavesDrain(u, s, turn, active);
    }
  }

  /** Only an open gate, the counter and the cooldown together drain. */
  lemma DrainNeeds(u: Setup, s: State, turn: Turn)
    requires GateOf(u, s, turn) == Open(true)
    ensures s.drainCycles + 1 >= u.config.drainHysteresis
    ensures CooledDown(s.lastDrain, u.config.drainCooldownSecs, turn.around.now)
  {
    hide ActiveOf, DrainingCount, FloorAvg, Candidate, CooledDown;
  }

  // -- hysteresis --------------------------------------------------------------------------

  /** From the `j`-th pass on, the gate was never seen closed and nothing was drained. */
  predicate NeverClosed(u: Setup, run: seq<Turn>, j: nat)
  {
    forall i :: j <= i < |run| ==> GateAt(u, run, i) == Unseen || GateAt(u, run, i) == Open(false)
  }

  /** Passes from the `j`-th on that saw the gate open. */
  function OpenSince(u: Setup, run: seq<Turn>, j: nat): nat
  {
    if |run| <= j then 0
    else OpenSince(u, run[..|run| - 1], j) + if GateAt(u, run, |run| - 1).Open? then 1 else 0
  }

  lemma {:induction false} NeverClosedStep(u: Setup, run: seq<Turn>, j: nat)
    requires run != [] && j < |run| && NeverClosed(u, run[..|run| - 1], j)
    requires GateAt(u, run, |run| - 1) == Unseen || GateAt(u, run, |run| - 1) == Open(false)
    ensures NeverClosed(u, run, j)
  {
    hide GateOf;
    var init := run[..|run| - 1];
    forall i | j <= i < |run| ensures GateAt(u, run, i) == Unseen || GateAt(u, run, i) == Open(false) {
      if i < |init| {
        assert init[i] == run[i] && init[..i] == run[..i];
        assert GateAt(u, init, i) == GateAt(u, run, i);
      }
    }
  }

  /** The counter is exactly the number of open passes since it was last zero. */
  lemma {:induction false} CounterCountsOpens(u: Setup, run: seq<Turn>) returns (j: nat)
    ensures j <= |run| && After(u, run[..j]).drainCycles == 0 && NeverClosed(u, run, j)
    ensures After(u, run).drainCycles == OpenSince(u, run, j)
  {
    hide GateOf, Pass;
    if After(u, run).drainCycles == 0 {
      j := |run|;
      assert run[..j] == run;
    } else {
      var n := |run| - 1;
      j := CounterCountsOpens(u, run[..n]);
      AfterTurn(u, run);
      PassGates(u, After(u, run[..n]), run[n]);
      assert run[..n][..j] == run[..j];
      NeverClosedStep(u, run, j);
    }
  }

  /**
   Behind every drain: since the counter was last zero the gate has never been seen
   closed, and it was open in at least the required number of passes, the draining
   one included. Passes at the cap or without group data neither count nor reset.
   */
  lemma {:induction false} DrainIsBacked(u: Setup, past: seq<Turn>, turn: Turn) returns (j: nat)
    requires DrainedAt(u, past + [turn], |past|)
    ensures j <= |past| && After(u, past[..j]).drainCycles == 0 && NeverClosed(u, past, j)
    ensures OpenSince(u, past, j) + 1 >= u.config.drainHysteresis
  {
    hide GateOf;
    assert (past + [turn])[..|past|] == past;
    j := CounterCountsOpens(u, past);
    DrainNeeds(u, After(u, past), turn);
  }

  // -- cooldown ------------------------------------------------------------------------------

  /** When the scaler drained, in order. */
  function DrainTimes(u: Setup, run: seq<Turn>): seq<nat>
  {
    if run == [] then []
    else
      var n := |run| - 1;
      DrainTimes(u, run[..n]) + if DrainedAt(u, run, n) then [run[n].around.after] else []
  }

  lemma {:induction false} SpacedGrows(times: seq<nat>, t: nat, gap: nat)
    requires Spaced(times, gap) && (times != [] ==> t >= times[|times| - 1] + gap)
    ensures Spaced(times + [t], gap)
  {
  }

  lemma CooledDownSince(last: nat, cooldownSecs: nat, now: nat)
    requires last <= now && CooledDown(Some(last), cooldownSecs, now)
    ensures now >= last + 1000 * cooldownSecs
  {
  }

  lemma {:induction false} DrainsAreSpaced(u: Setup, run: seq<Turn>)
    requires ClockRuns(run)
    ensures var times := DrainTimes(u, run);
            && Spaced(times, 1000 * u.config.drainCooldownSecs)
            && After(u, run).lastDrain == (if times == [] then None else Some(times[|times| - 1]))
            && (run != [] && times != [] ==> times[|times| - 1] <= run[|run| - 1].around.after)
  {
    hide Pass, GateOf, CooledDown, Spaced;
    if run == [] {
      NoDrains(u);
    } else {
      var n := |run| - 1;
      var init, last := run[..n], run[n];
      DrainsAreSpaced(u, init);
      AfterTurn(u, run);
      PassGates(u, After(u, init), last);
      var times := DrainTimes(u, init);
      assert times != [] ==> init != [] && times[|times| - 1] <= run[n - 1].around.after <= last.around.now;
      if DrainedAt(u, run, n) {
        DrainNeeds(u, After(u, init), last);
        if times != [] {
          CooledDownSince(times[|times| - 1], u.config.drainCooldownSecs, last.around.now);
        }
        SpacedGrows(times, last.around.after, 1000 * u.config.drainCooldownSecs);
      } else {
        assert DrainTimes(u, run) == times;
      }
    }
  }

  lemma NoDrains(u: Setup)
    ensures DrainTimes(u, []) == [] && After(u, []).lastDrain == None && Spaced([], 1000 * u.config.drainCooldownSecs)
  {
  }

  /** Any `k + 1` consecutive drains of a run span at least `k` cooldowns. */
  lemma {:induction false} DrainCooldownOverRuns(u: Setup, run: seq<Turn>, i: nat, k: nat)
    requires ClockRuns(run) && i + k < |DrainTimes(u, run)|
    ensures DrainTimes(u, run)[i + k] >= DrainTimes(u, run)[i] + k * (1000 * u.config.drainCooldownSecs)
  {
    DrainsAreSpaced(u, run);
    SpacedTimesAdd(DrainTimes(u, run), 1000 * u.config.drainCooldownSecs, i, k);
  }

  // -- when it must drain ------------------------------------------------------------------------

  /** Every guard in front of the hysteresis lets the pass through. */
  predicate GateSeenOpen(u: Setup, turn: Turn)
  {
    var active := ActiveOf(turn.snap.backends, turn.around.nowMs);
    && |active| >= 2 && turn.snap.asgGroup.Some? && turn.snap.asgGroup.value.min < turn.snap.asgGroup.value.desired
    && DrainingCount(turn.snap.backends) < u.config.maxConcurrentDraining
    && Total(active) < u.config.drainThreshold * |active|
  }

  /** Open often enough and the last drain long enough ago, and somebody idle, or nobody draining, to take. */
  predicate MustDrain(u: Setup, past: seq<Turn>, j: nat, turn: Turn)
  {
    var active := ActiveOf(turn.snap.backends, turn.around.nowMs);
    var times := DrainTimes(u, past);
    && GateSeenOpen(u, turn)
    && OpenSince(u, past, j) + 1 >= u.config.drainHysteresis
    && (times == [] || turn.around.now >= times[|times| - 1] + 1000 * u.config.drainCooldownSecs)
    && (DrainingCount(turn.snap.backends) == 0 || exists b :: b in active && Load(b) == 0)
  }

  lemma FloorBelow(total: nat, n: nat, limit: nat)
    requires n > 0
    ensures total / n < limit <==> total < limit * n
  {
    var q, r := total / n, total % n;
    assert total == q * n + r;
    if q < limit {
      Times(q + 1, limit, n);
    } else {
      Times(limit, q, n);
    }
  }

  lemma Times(a: int, b: int, n: nat)
    requires a <= b
    ensures a * n <= b * n
  {
  }

  lemma CandidateExists(snap: SystemSnapshot, active: seq<BackendStatus>)
    requires active != []
    ensures Candidate(snap, active).Some? <==>
            DrainingCount(snap.backends) == 0 || exists b :: b in active && Load(b) == 0
  {
    hide DrainingCount, Sorting.SortBy;
    var sorted := Sorting.SortBy(active, ByLoad);
    Sorting.SortSorts(active, ByLoad);
    Sorting.SortKeeps(active, ByLoad);
    if b :| b in active && Load(b) == 0 {
      assert b in sorted;
      var i :| 0 <= i < |sorted| && sorted[i] == b;
      assert ByLoad(sorted[0]) <= ByLoad(sorted[i]);
    }
    assert sorted[0] in sorted && sorted[0] in active;
  }

  lemma OpenExactly(u: Setup, s: State, turn: Turn)
    ensures GateOf(u, s, turn).Open? <==> GateSeenOpen(u, turn)
    ensures GateSeenOpen(u, turn) ==> ActiveOf(turn.snap.backends, turn.around.nowMs) != []
    ensures GateSeenOpen(u, turn) <==>
            GateOpen(u.config, turn.snap, ActiveOf(turn.snap.backends, turn.around.nowMs))
  {
    hide ActiveOf, DrainingCount, Total, ToDrain;
    var active := ActiveOf(turn.snap.backends, turn.around.nowMs);
    if active != [] {
      FloorBelow(Total(active), |active|, u.config.drainThreshold);
    }
  }

  /**
   Exactly when the scaler drains, over runs: a pass picks a backend if and only if it
   must and this is no rehearsal, and the drain takes effect, ending the count and
   starting the cooldown, if the weight file can be written.
   */
  lemma {:induction false} DrainsExactly(u: Setup, past: seq<Turn>, turn: Turn) returns (j: nat)
    requires ClockRuns(past + [turn])
    ensures j <= |past| && After(u, past[..j]).drainCycles == 0 && NeverClosed(u, past, j)
    ensures var go := MustDrain(u, past, j, turn);
            var done := go && (u.dryRun || turn.around.writeOk);
            && (PassEffects(After(u, past), u.config, turn.snap, u.dryRun, turn.around).drained.Some? <==>
                  go && !u.dryRun)
            && DrainTimes(u, past + [turn]) == DrainTimes(u, past) + (if done then [turn.around.after] else [])
  {
    hide ActiveOf, PassEffects, GateOf, After, DrainTimes, OpenSince, NeverClosed, ClockRuns, GateSeenOpen;
    hide DrainingCount;
    PastClockRuns(past, turn);
    j := CounterCountsOpens(u, past);
    DrainsAreSpaced(u, past);
    LastDrainPassed(u, past, turn);
    DrainsHere(u, After(u, past), turn);
    DrainTimesStep(u, past, turn);
  }

  lemma {:induction false} LastDrainPassed(u: Setup, past: seq<Turn>, turn: Turn)
    requires ClockRuns(past + [turn])
    ensures var times := DrainTimes(u, past); times != [] ==> times[|times| - 1] <= turn.around.now
  {
    hide DrainTimes, After;
    PastClockRuns(past, turn);
    DrainsAreSpaced(u, past);
    if past == [] {
      NoDrains(u);
    }
  }

  lemma {:induction false} DrainTimesStep(u: Setup, past: seq<Turn>, turn: Turn)
    ensures DrainTimes(u, past + [turn]) ==
            DrainTimes(u, past) + (if GateOf(u, After(u, past), turn) == Open(true) then [turn.around.after] else [])
  {
    hide After, GateOf;
    var run := past + [turn];
    assert run[..|past|] == past && run[..|run| - 1] == past && run[|past|] == turn;
  }

  /** One pass, in terms of the state it finds. */
  lemma DrainsHere(u: Setup, s: State, turn: Turn)
    requires s.lastDrain.Some? ==> s.lastDrain.value <= turn.around.now
    ensures var go :=
              && GateSeenOpen(u, turn) && s.drainCycles + 1 >= u.config.drainHysteresis
              && (s.lastDrain.None? || turn.around.now >= s.lastDrain.value + 1000 * u.config.drainCooldownSecs)
              && (DrainingCount(turn.snap.backends) == 0
                  || exists b :: b in ActiveOf(turn.snap.backends, turn.around.nowMs) && Load(b) == 0);
            && (GateOf(u, s, turn) == Open(true) <==> go && (u.dryRun || turn.around.writeOk))
            && (PassEffects(s, u.config, turn.snap, u.dryRun, turn.around).drained.Some? <==> go && !u.dryRun)
  {
    hide ActiveOf, ScaleUp, DrainingCount, GateOpen, Candidate, CooledDown, Asked, GateSeenOpen, GateOf, Load;
    var active := ActiveOf(turn.snap.backends, turn.around.nowMs);
    CooledDownExactly(s.lastDrain, u.config.drainCooldownSecs, turn.around.now);
    OpenExactly(u, s, turn);
    PicksExactly(u, s, turn);
    if active != [] {
      CandidateExists(turn.snap, active);
      ScaleUpLeavesDrain(u, s, turn, active);
    }
  }

  lemma PicksExactly(u: Setup, s: State, turn: Turn)
    ensures var active := ActiveOf(turn.snap.backends, turn.around.nowMs);
            GateOf(u, s, turn) == Open(true) <==>
            && active != [] && ToDrain(s, u.config, turn.snap, active, turn.around).Some?
            && (u.dryRun || turn.around.writeOk)
  {
    hide ActiveOf, DrainingCount, FloorAvg, Candidate, CooledDown;
  }
}
