/**
 What stands behind a scale-up: the exact value of the hysteresis counter, and
 when it does count consecutive passes.
 */
module Hysteresis {
  import opened Options
  import opened Snapshot
  import opened Scaler
  import opened ScalerRuns
  import opened Scenes

  /** From the `j`-th pass on, none acted, none had all triggers clear, and there always were active backends. */
  predicate NeverCleared(u: Setup, run: seq<Turn>, j: nat)
  {
    forall i :: j <= i < |run| ==>
      var o := OutcomeAt(u, run, i);
      o.NoGroup? || (o.Evaluated? && !Clear(o.triggers) && !o.acted)
  }

  predicate AtCeiling(o: Outcome) { o.Evaluated? && o.triggers.hard }

  /** The slope or the bandwidth trigger, and not the hard ceiling. */
  predicate BelowCeiling(o: Outcome) { o.Evaluated? && Armed(o.triggers) && !o.triggers.hard }

  /** The last hard-ceiling pass from the `j`-th on. */
  function LastHard(u: Setup, run: seq<Turn>, j: nat): (h: Option<nat>)
    ensures h.Some? ==> j <= h.value < |run|
  {
    if |run| <= j then None
    else if AtCeiling(OutcomeAt(u, run, |run| - 1)) then Some(|run| - 1)
    else LastHard(u, run[..|run| - 1], j)
  }

  /** Passes from the `j`-th on with the slope or the bandwidth trigger below the ceiling. */
  function ArmedSince(u: Setup, run: seq<Turn>, j: nat): nat
  {
    if |run| <= j then 0
    else ArmedSince(u, run[..|run| - 1], j) + if BelowCeiling(OutcomeAt(u, run, |run| - 1)) then 1 else 0
  }

  /** The threshold and the passes since the last hard-ceiling one; without one, the passes since the `j`-th. */
  function Accounted(u: Setup, run: seq<Turn>, j: nat): nat
  {
    match LastHard(u, run, j)
    case Some(h) => u.config.scaleUpHysteresis + ArmedSince(u, run, h + 1)
    case None => ArmedSince(u, run, j)
  }

  /** The counter was zero before the `j`-th pass and has not been since. */
  predicate LastZero(u: Setup, run: seq<Turn>, j: nat)
  {
    && j <= |run| && After(u, run[..j]).upCycles == 0
    && forall k :: j < k <= |run| ==> After(u, run[..k]).upCycles > 0
  }

  lemma {:induction false} OutcomesOfInit(u: Setup, run: seq<Turn>)
    requires run != []
    ensures var init := run[..|run| - 1];
            forall i :: 0 <= i < |init| ==> OutcomeAt(u, run, i) == OutcomeAt(u, init, i)
  {
    hide OutcomeOf;
    var init := run[..|run| - 1];
    assert forall i :: 0 <= i < |init| ==> init[i] == run[i] && init[..i] == run[..i];
  }

  lemma {:induction false} NeverClearedStep(u: Setup, run: seq<Turn>, j: nat)
    requires run != [] && j < |run| && NeverCleared(u, run[..|run| - 1], j)
    requires var o := OutcomeAt(u, run, |run| - 1); o.NoGroup? || (o.Evaluated? && !Clear(o.triggers) && !o.acted)
    ensures NeverCleared(u, run, j)
  {
    OutcomesOfInit(u, run);
    hide OutcomeAt;
  }

  lemma {:induction false} LastZeroStep(u: Setup, run: seq<Turn>, j: nat)
    requires run != [] && LastZero(u, run[..|run| - 1], j) && After(u, run).upCycles > 0
    ensures LastZero(u, run, j)
  {
    hide After;
    var init := run[..|run| - 1];
    assert run[..|run|] == run;
    assert forall k :: 0 <= k <= |init| ==> init[..k] == run[..k];
  }

  lemma {:induction false} AccountStep(u: Setup, run: seq<Turn>, j: nat)
    requires run != [] && j < |run|
    ensures var o := OutcomeAt(u, run, |run| - 1);
            Accounted(u, run, j) ==
            if AtCeiling(o) then u.config.scaleUpHysteresis
            else Accounted(u, run[..|run| - 1], j) + if BelowCeiling(o) then 1 else 0
  {
    hide OutcomeAt;
  }

  /** The counter is exactly what the passes since it was last zero account for. */
  lemma {:induction false} CounterExactly(u: Setup, run: seq<Turn>) returns (j: nat)
    ensures LastZero(u, run, j) && NeverCleared(u, run, j)
    ensures After(u, run).upCycles == Accounted(u, run, j)
  {
    hide Pass, OutcomeOf, Accounted;
    if After(u, run).upCycles == 0 {
      j := |run|;
      assert run[..|run|] == run;
      NothingSince(u, run);
    } else {
      j := CounterExactly(u, run[..|run| - 1]);
      CounterStep(u, run, j);
    }
  }

  lemma {:induction false} NothingSince(u: Setup, run: seq<Turn>)
    ensures Accounted(u, run, |run|) == 0
  {
  }

  lemma {:induction false} CounterStep(u: Setup, run: seq<Turn>, j: nat)
    requires run != [] && After(u, run).upCycles > 0
    requires var init := run[..|run| - 1];
             LastZero(u, init, j) && NeverCleared(u, init, j) && After(u, init).upCycles == Accounted(u, init, j)
    ensures LastZero(u, run, j) && NeverCleared(u, run, j)
    ensures After(u, run).upCycles == Accounted(u, run, j)
  {
    hide Pass, OutcomeOf, After, Accounted, NeverCleared, LastZero;
    var n := |run| - 1;
    AfterTurn(u, run);
    PassCounts(u, After(u, run[..n]), run[n]);
    ZeroIsWithin(u, run[..n], j);
    LastZeroStep(u, run, j);
    NeverClearedStep(u, run, j);
    AccountStep(u, run, j);
  }

  lemma {:induction false} ZeroIsWithin(u: Setup, run: seq<Turn>, j: nat)
    requires LastZero(u, run, j)
    ensures j <= |run|
  {
  }

  /**
   Behind every scale-up: since the counter was last zero, no evaluated pass had all
   triggers clear, and there was a hard-ceiling pass, or the required number of
   passes with the slope or bandwidth trigger, the acting pass included. Passes
   without group data neither count nor reset.
   */
  lemma {:induction false} ScaleUpIsBacked(u: Setup, past: seq<Turn>, turn: Turn) returns (j: nat)
    requires ActedAt(u, past + [turn], |past|)
    ensures LastZero(u, past, j) && NeverCleared(u, past, j)
    ensures var o := OutcomeOf(u, After(u, past), turn);
            && o.Evaluated? && !Clear(o.triggers)
            && (o.triggers.hard || LastHard(u, past, j).Some?
                 || ArmedSince(u, past, j) + 1 >= u.config.scaleUpHysteresis)
  {
    assert (past + [turn])[..|past|] == past;
    j := CounterExactly(u, past);
  }

  // -- when it must act ---------------------------------------------------------------------

  lemma CooledDownExactly(last: Option<nat>, cooldownSecs: nat, now: nat)
    requires last.Some? ==> last.value <= now
    ensures CooledDown(last, cooldownSecs, now) <==> last.None? || now >= last.value + 1000 * cooldownSecs
  {
  }

  /** At the ceiling, or armed for the required passes, with room in the group and the last action long ago. */
  predicate MustAct(u: Setup, past: seq<Turn>, j: nat, t: Triggers, group: AsgGroupInfo, now: nat)
  {
    var times := ActTimes(u, past);
    && (t.hard || ((t.slope || t.bandwidth) && Accounted(u, past, j) + 1 >= u.config.scaleUpHysteresis))
    && group.desired < group.max
    && (times == [] || now >= times[|times| - 1] + 1000 * u.config.scaleUpCooldownSecs)
  }

  /**
   Exactly when the scaler scales up, over runs: an evaluated pass asks for one more
   instance if and only if it must and this is no rehearsal, and the action takes
   effect, ending the count and starting the cooldown, if AWS complies.
   */
  lemma {:induction false} ActsExactly(u: Setup, past: seq<Turn>, turn: Turn) returns (j: nat)
    requires ClockRuns(past + [turn])
    requires ActiveOf(turn.snap.backends, turn.around.nowMs) != [] && turn.snap.asgGroup.Some?
    ensures LastZero(u, past, j) && NeverCleared(u, past, j)
    ensures var s, group := After(u, past), turn.snap.asgGroup.value;
            var t := TriggersOf(s, u.config, ActiveOf(turn.snap.backends, turn.around.nowMs), turn.around);
            var go := MustAct(u, past, j, t, group, turn.around.now);
            var done := go && (u.dryRun || turn.around.awsOk);
            && PassEffects(s, u.config, turn.snap, u.dryRun, turn.around).asked
               == (if go && !u.dryRun then Some((group.desired + 1) % 0x1_0000_0000) else None)
            && (ActedAt(u, past + [turn], |past|) <==> done)
            && ActTimes(u, past + [turn]) == ActTimes(u, past) + (if done then [turn.around.after] else [])
  {
    hide ActiveOf, TriggersOf, PassEffects, OutcomeOf, After, ActTimes, Accounted, LastZero, NeverCleared, ClockRuns;
    PastClockRuns(past, turn);
    j := CounterExactly(u, past);
    ActionsAreSpaced(u, past);
    LastActionPassed(u, past, turn);
    ActsHere(u, After(u, past), turn);
    ActTimesStep(u, past, turn);
  }

  lemma {:induction false} LastActionPassed(u: Setup, past: seq<Turn>, turn: Turn)
    requires ClockRuns(past + [turn])
    ensures var times := ActTimes(u, past); times != [] ==> times[|times| - 1] <= turn.around.now
  {
    hide ActTimes, After;
    PastClockRuns(past, turn);
    ActionsAreSpaced(u, past);
    if past == [] {
      NoActions(u);
    }
  }

  lemma NoActions(u: Setup)
    ensures ActTimes(u, []) == []
  {
  }

  lemma {:induction false} ActTimesStep(u: Setup, past: seq<Turn>, turn: Turn)
    ensures var o := OutcomeOf(u, After(u, past), turn);
            var acted := o.Evaluated? && o.acted;
            && (ActedAt(u, past + [turn], |past|) <==> acted)
            && ActTimes(u, past + [turn]) == ActTimes(u, past) + (if acted then [turn.around.after] else [])
  {
    hide After, OutcomeOf;
    var run := past + [turn];
    assert run[..|past|] == past && run[..|run| - 1] == past && run[|past|] == turn;
  }

  /** One pass, in terms of the state it finds. */
  lemma ActsHere(u: Setup, s: State, turn: Turn)
    requires ActiveOf(turn.snap.backends, turn.around.nowMs) != [] && turn.snap.asgGroup.Some?
    requires s.lastScaleUp.Some? ==> s.lastScaleUp.value <= turn.around.now
    ensures var group := turn.snap.asgGroup.value;
            var t := TriggersOf(s, u.config, ActiveOf(turn.snap.backends, turn.around.nowMs), turn.around);
            var o := OutcomeOf(u, s, turn);
            var go :=
              && (t.hard || ((t.slope || t.bandwidth) && s.upCycles + 1 >= u.config.scaleUpHysteresis))
              && group.desired < group.max
              && (s.lastScaleUp.None?
                  || turn.around.now >= s.lastScaleUp.value + 1000 * u.config.scaleUpCooldownSecs);
            && o.Evaluated? && (o.acted <==> go && (u.dryRun || turn.around.awsOk))
            && PassEffects(s, u.config, turn.snap, u.dryRun, turn.around).asked
               == (if go && !u.dryRun then Some((group.desired + 1) % 0x1_0000_0000) else None)
  {
    hide ActiveOf, TriggersOf, ScaleUp, ToDrain, CooledDown;
    CooledDownExactly(s.lastScaleUp, u.config.scaleUpCooldownSecs, turn.around.now);
  }

  lemma {:induction false} PastClockRuns(past: seq<Turn>, turn: Turn)
    requires ClockRuns(past + [turn])
    ensures ClockRuns(past) && (past != [] ==> past[|past| - 1].around.after <= turn.around.now)
  {
    var run := past + [turn];
    assert forall i :: 0 <= i < |past| ==> run[i] == past[i];
    assert run[|past|] == turn;
  }

  // -- consecutive passes -------------------------------------------------------------------

  lemma {:induction false} NoHardNoSkip(u: Setup, run: seq<Turn>, j: nat)
    requires j <= |run| && NeverCleared(u, run, j)
    requires forall i :: j <= i < |run| ==> OutcomeAt(u, run, i).Evaluated? && !OutcomeAt(u, run, i).triggers.hard
    ensures LastHard(u, run, j) == None && ArmedSince(u, run, j) == |run| - j
    ensures forall i :: j <= i < |run| ==> BelowCeiling(OutcomeAt(u, run, i))
  {
    hide OutcomeAt;
    if j < |run| {
      OutcomesOfInit(u, run);
      NoHardNoSkip(u, run[..|run| - 1], j);
    }
  }

  lemma {:induction false} SamePast(u: Setup, past: seq<Turn>, turn: Turn)
    ensures forall i :: 0 <= i < |past| ==> OutcomeAt(u, past + [turn], i) == OutcomeAt(u, past, i)
    ensures OutcomeAt(u, past + [turn], |past|) == OutcomeOf(u, After(u, past), turn)
  {
    hide OutcomeOf;
    var run := past + [turn];
    assert run[..|run| - 1] == past;
    OutcomesOfInit(u, run);
  }

  /**
   When the counter does count consecutive passes: behind a scale-up lie, without a
   gap since the counter was last zero, nothing but slope or bandwidth passes below
   the ceiling, and at least the required number of them, if and only if no pass
   since then hit the hard ceiling or lacked group data.
   */
  lemma {:induction false} ConsecutiveExactly(u: Setup, past: seq<Turn>, turn: Turn) returns (j: nat)
    requires ActedAt(u, past + [turn], |past|)
    ensures LastZero(u, past, j)
    ensures var run := past + [turn];
            (|run| - j >= u.config.scaleUpHysteresis &&
              forall i :: j <= i < |run| ==> BelowCeiling(OutcomeAt(u, run, i))) <==>
            (forall i :: j <= i < |run| ==> OutcomeAt(u, run, i).Evaluated? && !AtCeiling(OutcomeAt(u, run, i)))
  {
    var run := past + [turn];
    SamePast(u, past, turn);
    j := ScaleUpIsBacked(u, past, turn);
    hide OutcomeAt, OutcomeOf, After, LastHard, ArmedSince, ActedAt;
    if forall i :: j <= i < |run| ==> OutcomeAt(u, run, i).Evaluated? && !AtCeiling(OutcomeAt(u, run, i)) {
      assert forall i :: j <= i < |past| ==> OutcomeAt(u, past, i) == OutcomeAt(u, run, i);
      NoHardNoSkip(u, past, j);
    }
  }

  // -- a run with fewer --------------------------------------------------------------------------

  /** A pass at the ceiling while the group is at its maximum. */
  lemma CeilingOutcome(u: Setup, turn: Turn)
    requires u.config.hardConnThreshold <= MAX_SESSIONS
    requires turn == Turn(Pair(u.config.hardConnThreshold, u.config.hardConnThreshold, 4, 4), QUIET)
    ensures var o := OutcomeOf(u, FRESH, turn); AtCeiling(o) && !o.acted
  {
    hide Pair, ActiveOf, CeilAvg, FloorAvg, Slope, DrainingCount, ReadBandwidth, Collected;
    PairCounts(u.config.hardConnThreshold, u.config.hardConnThreshold, 4, 4, 0);
  }

  /** It sets the counter and leaves it. */
  lemma CeilingAtMaximum(u: Setup) returns (turn: Turn)
    requires u.config.hardConnThreshold <= MAX_SESSIONS
    ensures turn == Turn(Pair(u.config.hardConnThreshold, u.config.hardConnThreshold, 4, 4), QUIET)
    ensures var s := After(u, [turn]);
            && s.upCycles == u.config.scaleUpHysteresis && s.lastScaleUp == None
            && s.bwPrev == QUIET.iface && s.bwSmoothed == 0.0
    ensures AtCeiling(OutcomeAt(u, [turn], 0)) && Collected(turn.snap)
  {
    hide Pair, ActiveOf, Pass, OutcomeOf, CeilAvg, FloorAvg, DrainingCount, Collected, PushSample;
    var c := u.config.hardConnThreshold;
    turn := Turn(Pair(c, c, 4, 4), QUIET);
    PairCounts(c, c, 4, 4, 0);
    CeilingOutcome(u, turn);
    assert [turn][..0] == [];
    AfterTurn(u, [turn]);
    PassCounts(u, FRESH, turn);
    PassReads(u, FRESH, turn);
  }

  /** Below the ceiling, with room in the group, the bandwidth trigger acts on the counter it finds. */
  lemma BusyOutcome(u: Setup, s: State, c: nat)
    requires s.bwPrev == QUIET.iface && s.bwSmoothed == 0.0 && s.lastScaleUp == None
    requires s.upCycles == u.config.scaleUpHysteresis && u.config.bwThreshold <= MAX_U64 / 2
    requires u.config.slopeLowFloor <= c < u.config.hardConnThreshold && c <= MAX_SESSIONS
    ensures var o := OutcomeOf(u, s, Turn(Pair(c, c, 4, 5), BUSY)); BelowCeiling(o) && o.acted
  {
    hide Pair, ActiveOf, CeilAvg, FloorAvg, Slope, DrainingCount, ReadBandwidth, Truncate, Collected;
    PairCounts(c, c, 4, 5, 100);
    BusyIsBusy(s);
  }

  /**
   The counter does not count consecutive passes: under any configuration that asks
   for several, the second pass of a run can scale up, though the first one was at
   the ceiling, with the group at its maximum, and only the second had the bandwidth
   trigger.
   */
  lemma OneArmedPassCanScaleUp(u: Setup) returns (run: seq<Turn>)
    requires u.config.scaleUpHysteresis >= 2
    requires u.config.slopeLowFloor < u.config.hardConnThreshold <= MAX_SESSIONS && u.config.bwThreshold <= MAX_U64 / 2
    ensures Real(run) && |run| == 2 && ActedAt(u, run, 1)
    ensures AtCeiling(OutcomeAt(u, run, 0)) && BelowCeiling(OutcomeAt(u, run, 1))
    ensures ArmedSince(u, run, 0) == 1 < u.config.scaleUpHysteresis
  {
    hide Pair, ActiveOf, After, OutcomeOf, CeilAvg, FloorAvg, DrainingCount, Collected;
    var c := u.config.hardConnThreshold - 1;
    var first := CeilingAtMaximum(u);
    var second := Turn(Pair(c, c, 4, 5), BUSY);
    PairCounts(c, c, 4, 5, 100);
    run := [first, second];
    assert run[..1] == [first] && run[..0] == [] && [first][..0] == [];
    BusyOutcome(u, After(u, [first]), c);
    assert ArmedSince(u, [], 0) == 0 && ArmedSince(u, [first], 0) == 0;
  }
}
