/** The smoothed bandwidth over runs of interface readings. */
module Bandwidth {
  import opened Options
  import opened Scaler
  import opened Snapshot

  /** The scaler's state after the readings; `None` is a reading that failed. */
  function AfterReadings(s: State, readings: seq<Option<IfaceSnapshot>>): State
  {
    if readings == [] then s
    else ReadBandwidth(AfterReadings(s, readings[..|readings| - 1]), readings[|readings| - 1])
  }

  /** What the reading contributes to the average: nothing when it fails, is too early, comes first, or went back. */
  function Contribution(s: State, reading: Option<IfaceSnapshot>): Option<real>
  {
    if reading.Some? && s.bwPrev.Some? then RawBps(s.bwPrev.value, reading.value) else None
  }

  function ContributionAt(s: State, readings: seq<Option<IfaceSnapshot>>, i: nat): Option<real>
    requires i < |readings|
  {
    Contribution(AfterReadings(s, readings[..i]), readings[i])
  }

  /** How many readings contributed. */
  function Contributed(s: State, readings: seq<Option<IfaceSnapshot>>): nat
  {
    if readings == [] then 0
    else
      var n := |readings| - 1;
      Contributed(s, readings[..n]) + if ContributionAt(s, readings, n).Some? then 1 else 0
  }

  /** The baseline is the last reading that did not fail, even after a counter reset. */
  function LastReading(readings: seq<Option<IfaceSnapshot>>): Option<IfaceSnapshot>
  {
    if readings == [] then None
    else if readings[|readings| - 1].Some? then readings[|readings| - 1]
    else LastReading(readings[..|readings| - 1])
  }

  lemma {:induction false} BaselineIsLastReading(s: State, readings: seq<Option<IfaceSnapshot>>)
    requires s.bwPrev.None?
    ensures AfterReadings(s, readings).bwPrev == LastReading(readings)
  {
    if readings != [] {
      BaselineIsLastReading(s, readings[..|readings| - 1]);
    }
  }

  function Power(b: real, n: nat): real
  {
    if n == 0 then 1.0 else b * Power(b, n - 1)
  }

  lemma {:induction false} PowerStep(b: real, n: nat)
    ensures Power(b, n + 1) == b * Power(b, n)
  {
  }

  /** All contributions lie between `lo` and `hi`. */
  predicate RatesWithin(s: State, readings: seq<Option<IfaceSnapshot>>, lo: real, hi: real)
  {
    forall i :: 0 <= i < |readings| ==>
      ContributionAt(s, readings, i).Some? ==> lo <= ContributionAt(s, readings, i).value <= hi
  }

  lemma {:induction false} WithinPrefix(s: State, readings: seq<Option<IfaceSnapshot>>, lo: real, hi: real)
    requires readings != [] && RatesWithin(s, readings, lo, hi)
    ensures RatesWithin(s, readings[..|readings| - 1], lo, hi)
  {
    hide AfterReadings, Contribution;
    var init := readings[..|readings| - 1];
    forall i | 0 <= i < |init|
      ensures ContributionAt(s, init, i) == ContributionAt(s, readings, i)
    {
      assert init[..i] == readings[..i] && init[i] == readings[i];
    }
  }

  lemma Smoothed(s: State, reading: Option<IfaceSnapshot>)
    ensures var c := Contribution(s, reading);
            ReadBandwidth(s, reading).bwSmoothed == if c.Some? then 0.6 * c.value + 0.4 * s.bwSmoothed else s.bwSmoothed
  {
    hide RawBps;
  }

  lemma {:induction false} SmoothedLast(s: State, readings: seq<Option<IfaceSnapshot>>)
    requires readings != []
    ensures var n := |readings| - 1;
            var c, before := ContributionAt(s, readings, n), AfterReadings(s, readings[..n]).bwSmoothed;
            AfterReadings(s, readings).bwSmoothed == if c.Some? then 0.6 * c.value + 0.4 * before else before
  {
    Smoothed(AfterReadings(s, readings[..|readings| - 1]), readings[|readings| - 1]);
  }

  /** The average stays within the range of what it started from and what it was fed. */
  lemma {:induction false} SmoothedWithin(s: State, readings: seq<Option<IfaceSnapshot>>, lo: real, hi: real)
    requires RatesWithin(s, readings, lo, hi) && lo <= s.bwSmoothed <= hi
    ensures lo <= AfterReadings(s, readings).bwSmoothed <= hi
  {
    hide ContributionAt;
    if readings != [] {
      WithinPrefix(s, readings, lo, hi);
      SmoothedWithin(s, readings[..|readings| - 1], lo, hi);
      SmoothedLast(s, readings);
    }
  }

  /**
   Fed a steady rate, the distance to it shrinks to four tenths with every reading
   that contributes; readings that do not contribute change nothing.
   */
  lemma {:induction false} SmoothedConverges(s: State, readings: seq<Option<IfaceSnapshot>>, rate: real)
    requires RatesWithin(s, readings, rate, rate)
    ensures AfterReadings(s, readings).bwSmoothed - rate
         == Power(0.4, Contributed(s, readings)) * (s.bwSmoothed - rate)
  {
    hide ReadBandwidth, ContributionAt, Power;
    if readings == [] {
      PowerZero(0.4, s.bwSmoothed - rate);
    } else {
      var n := |readings| - 1;
      WithinPrefix(s, readings, rate, rate);
      SmoothedConverges(s, readings[..n], rate);
      SmoothedLast(s, readings);
      if ContributionAt(s, readings, n).Some? {
        Shrinks(AfterReadings(s, readings).bwSmoothed, AfterReadings(s, readings[..n]).bwSmoothed, rate,
                0.4, Contributed(s, readings[..n]), s.bwSmoothed - rate);
      }
    }
  }

  lemma PowerZero(b: real, d: real)
    ensures Power(b, 0) * d == d
  {
  }

  lemma Shrinks(after: real, before: real, rate: real, b: real, n: nat, d: real)
    requires after == (1.0 - b) * rate + b * before && before - rate == Power(b, n) * d
    ensures after - rate == Power(b, n + 1) * d
  {
    PowerStep(b, n);
    hide Power;
    var p := Power(b, n);
    assert after - rate == b * (before - rate);
    assert (b * p) * d == b * (p * d);
  }

  /** Readings that all succeed, more than a tenth of a second apart, while bytes come in at `rate` a second. */
  predicate Steady(readings: seq<Option<IfaceSnapshot>>, rate: real)
  {
    && (forall i :: 0 <= i < |readings| ==> readings[i].Some?)
    && forall i :: 0 < i < |readings| ==>
         var a, b := readings[i - 1].value, readings[i].value;
         b.at > a.at + 100 && b.rxBytes >= a.rxBytes
         && (b.rxBytes - a.rxBytes) as real * 1000.0 == rate * (b.at - a.at) as real
  }

  lemma RateOf(a: IfaceSnapshot, b: IfaceSnapshot, rate: real)
    requires b.at > a.at + 100 && b.rxBytes >= a.rxBytes
    requires (b.rxBytes - a.rxBytes) as real * 1000.0 == rate * (b.at - a.at) as real
    ensures RawBps(a, b) == Some(rate)
  {
    var ms, d := (b.at - a.at) as real, (b.rxBytes - a.rxBytes) as real;
    var q := d / (ms / 1000.0);
    assert q * (ms / 1000.0) == d;
    assert q * ms == 1000.0 * (q * (ms / 1000.0)) == rate * ms;
    assert (q - rate) * ms == 0.0;
  }

  lemma {:induction false} SteadyContributes(readings: seq<Option<IfaceSnapshot>>, rate: real, i: nat)
    requires Steady(readings, rate) && i < |readings|
    ensures ContributionAt(FRESH, readings, i) == if i == 0 then None else Some(rate)
  {
    hide ReadBandwidth, RawBps;
    var before := readings[..i];
    BaselineIsLastReading(FRESH, before);
    if i > 0 {
      assert before[|before| - 1] == readings[i - 1];
      RateOf(readings[i - 1].value, readings[i].value, rate);
    }
  }

  lemma {:induction false} SteadyCount(readings: seq<Option<IfaceSnapshot>>, rate: real)
    requires Steady(readings, rate) && readings != []
    ensures Contributed(FRESH, readings) == |readings| - 1
  {
    hide AfterReadings, ContributionAt, Steady;
    var n := |readings| - 1;
    var init := readings[..n];
    SteadyContributes(readings, rate, n);
    if n > 0 {
      SteadyPrefix(readings, rate);
      SteadyCount(init, rate);
    } else {
      assert init == [];
    }
  }

  lemma {:induction false} SteadyPrefix(readings: seq<Option<IfaceSnapshot>>, rate: real)
    requires Steady(readings, rate) && readings != []
    ensures Steady(readings[..|readings| - 1], rate)
  {
    var init := readings[..|readings| - 1];
    assert forall i :: 0 <= i < |init| ==> init[i] == readings[i];
  }

  /** Under steady traffic of `rate` bytes a second, after `n + 1` readings the average is short by 0.4 to the `n`. */
  lemma {:induction false} SteadyTraffic(readings: seq<Option<IfaceSnapshot>>, rate: real)
    requires Steady(readings, rate) && readings != []
    ensures AfterReadings(FRESH, readings).bwSmoothed == rate - Power(0.4, |readings| - 1) * rate
  {
    hide AfterReadings, Steady, Power;
    forall i | 0 <= i < |readings|
      ensures ContributionAt(FRESH, readings, i).Some? ==> rate <= ContributionAt(FRESH, readings, i).value <= rate
    {
      SteadyContributes(readings, rate, i);
    }
    assert RatesWithin(FRESH, readings, rate, rate);
    SmoothedConverges(FRESH, readings, rate);
    SteadyCount(readings, rate);
    assert FRESH.bwSmoothed == 0.0;
    Negated(Power(0.4, |readings| - 1), rate);
  }

  lemma Negated(p: real, rate: real)
    ensures p * (0.0 - rate) == 0.0 - p * rate
  {
  }

  /**
   Which readings contribute, and what: those that succeed more than a tenth of a
   second after the last one with no fewer bytes, and the bytes per second since then;
   the raw rate that is shown is that rate without its fraction.
   */
  lemma ContributesExactly(s: State, reading: Option<IfaceSnapshot>)
    ensures Contribution(s, reading).Some? <==>
            && reading.Some? && s.bwPrev.Some? && reading.value.at > s.bwPrev.value.at + 100
            && reading.value.rxBytes >= s.bwPrev.value.rxBytes
    ensures Contribution(s, reading).Some? ==>
            var ms, bytes := reading.value.at - s.bwPrev.value.at, reading.value.rxBytes - s.bwPrev.value.rxBytes;
            var raw := ReadBandwidth(s, reading).bwRaw;
            && Contribution(s, reading).value * ms as real == 1000.0 * bytes as real
            && (raw < MAX_U64 ==> raw * ms <= 1000 * bytes < raw * ms + ms)
    ensures Contribution(s, reading).None? ==> ReadBandwidth(s, reading).bwRaw == s.bwRaw
  {
    if Contribution(s, reading).Some? {
      var prev, current := s.bwPrev.value, reading.value;
      var ms, bytes := current.at - prev.at, current.rxBytes - prev.rxBytes;
      var q := bytes as real / (ms as real / 1000.0);
      PerSecond(bytes, ms, q);
      if q.Floor < MAX_U64 {
        Whole(q, ms, 1000 * bytes);
      }
    }
  }

  lemma PerSecond(bytes: nat, ms: nat, q: real)
    requires ms > 0 && q == bytes as real / (ms as real / 1000.0)
    ensures q * ms as real == 1000.0 * bytes as real && q >= 0.0
  {
    var t := ms as real / 1000.0;
    assert q * t == bytes as real;
    assert q * ms as real == 1000.0 * (q * t);
    if q < 0.0 {
      Negative(q, t);
    }
  }

  lemma Negative(q: real, t: real)
    requires q < 0.0 && t > 0.0
    ensures q * t < 0.0
  {
  }

  /** Rounding a quotient down, in whole numbers. */
  lemma Whole(q: real, n: nat, total: nat)
    requires n > 0 && q >= 0.0 && q * n as real == total as real
    ensures q.Floor * n <= total < q.Floor * n + n
  {
    var k := q.Floor;
    Product(k, n);
    var rest := Rest(q, k as real, n as real);
    Within(k * n, total, n, rest);
  }

  lemma Product(k: int, n: int)
    ensures (k * n) as real == k as real * n as real
  {
  }

  lemma Rest(q: real, k: real, n: real) returns (rest: real)
    requires k <= q < k + 1.0 && n > 0.0
    ensures 0.0 <= rest < n && q * n == k * n + rest
  {
    var below, above := q - k, k + 1.0 - q;
    assert below * n >= 0.0 && above * n > 0.0;
    assert below * n == q * n - k * n;
    assert above * n == k * n + n - q * n;
    rest := q * n - k * n;
  }

  lemma Within(low: int, total: int, n: int, rest: real)
    requires total as real == low as real + rest && 0.0 <= rest < n as real
    ensures low <= total < low + n
  {
  }
}
