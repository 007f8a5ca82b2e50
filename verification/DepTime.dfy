/** Sample counts to nanoseconds, ring positions and period timestamps, in 64-bit arithmetic. */
module DepTime {
  import opened Words
  import opened Residues

  const NS: int := 1_000_000_000
  const MAX64: u64 := 0xffff_ffff_ffff_ffff

  lemma ScaledQuotient(samples: int, rate: int)
    requires 0 <= samples && rate > 0
    ensures samples * NS / rate == samples / rate * NS + samples % rate * NS / rate
  {
    var whole, rest := samples / rate, samples % rate;
    Division(samples, rate);
    Division(rest * NS, rate);
    assert samples * NS == rate * (whole * NS + rest * NS / rate) + rest * NS % rate by {
      assert rate * (whole * NS) == (rate * whole) * NS;
    }
    DivModIs(samples * NS, rate, whole * NS + rest * NS / rate, rest * NS % rate);
  }

  lemma FractionBound(rest: int, rate: int)
    requires 0 <= rest < rate
    ensures 0 <= rest * NS / rate < NS
  {
    Division(rest * NS, rate);
    var q := rest * NS / rate;
    if q >= NS {
      MulMonotone(rate, NS, q);
    }
  }

  /** The exact time, rounded down, or the largest representable time if it is later than that.
      The types of the intermediate values say that none of them overflows. */
  function SamplesToNs(samples: u64, rate: u32): (r: u64)
    requires rate > 0
    ensures r == if samples * NS / rate <= MAX64 then samples * NS / rate else MAX64
  {
    ScaledQuotient(samples, rate);
    FractionBound(samples % rate, rate);
    var whole: u64 := samples / rate;
    var remainder: u64 := samples % rate;
    if whole > MAX64 / NS then MAX64
    else
      var value: u64 := whole * NS;
      var product: u64 := remainder * NS;
      var fraction: u64 := product / rate;
      if fraction > MAX64 - value then MAX64 else value + fraction
  }

  lemma QuotientMonotone(a: int, b: int, d: int)
    requires a <= b && d > 0
    ensures a / d <= b / d
  {
    Division(a, d);
    Division(b, d);
    if a / d > b / d {
      MulAtLeast(d, a / d - b / d);
      MulMinus(d, a / d, b / d);
    }
  }

  lemma SamplesToNsMonotone(m: u64, n: u64, rate: u32)
    requires rate > 0 && m <= n
    ensures SamplesToNs(m, rate) <= SamplesToNs(n, rate)
  {
    QuotientMonotone(m * NS, n * NS, rate);
  }

  lemma ModOfProduct(period: int, samples: int, capacity: int)
    requires capacity > 0
    ensures period % capacity * samples % capacity == period * samples % capacity
  {
    Division(period, capacity);
    assert period * samples == period % capacity * samples + capacity * (period / capacity * samples) by {
      assert capacity * (period / capacity) * samples == capacity * (period / capacity * samples);
    }
    ModShift(period % capacity * samples, capacity, period / capacity * samples);
  }

  lemma ProductFits(a: int, b: int)
    requires 0 <= a < U32 && 0 <= b < U32
    ensures 0 <= a * b <= MAX64
  {
    MulMonotone(a, b, U32 - 1);
    MulMonotone(a, 0, b);
  }

  /** Where a period starts in the ring, without forming the product that could overflow. */
  function PeriodStart(period: u64, samples: u32, capacity: u32): (r: nat)
    requires capacity > 0
    ensures r == period * samples % capacity
  {
    ModOfProduct(period, samples, capacity);
    ProductFits(period % capacity, samples);
    var product: u64 := period % capacity * samples;
    product % capacity
  }

  /** The clock fields of the shared header as read twice around each other. */
  datatype Reading = Reading(
    flags: u32, period: u64, time: u64, flagsAgain: u32, periodAgain: u64, timeAgain: u64)

  /** Bit 16 of the flags: the writer is between its two updates. */
  predicate WriteActive(flags: u32) {
    flags / 0x1_0000 % 2 == 1
  }

  /** The two readings agree, no write was in progress, and the clock has been set. */
  predicate Stable(r: Reading) {
    && !WriteActive(r.flags) && r.flags == r.flagsAgain
    && r.period == r.periodAgain && r.time == r.timeAgain && r.time != 0
  }

  function Distance(a: u64, b: u64): u64 {
    if a >= b then a - b else b - a
  }

  /** The nanoseconds term of the extrapolation: its last addition is not checked and wraps. */
  function Extrapolated(samples: u64, rate: u32): (r: u64)
    requires rate > 0 && samples / rate <= MAX64 / NS
    ensures r == samples * NS / rate % U64
  {
    ScaledQuotient(samples, rate);
    (samples / rate * NS + samples % rate * NS / rate) % U64
  }

  function PeriodPts(r: Reading, period: u64, samples: u32, rate: u32, fallback: u64): u64
    requires samples > 0 && rate > 0
  {
    var delta := Distance(period, r.period);
    if Stable(r) && delta <= MAX64 / samples && delta * samples / rate <= MAX64 / NS then
      ProductBound(delta, samples);
      var ns := Extrapolated(delta * samples, rate);
      if period >= r.period && ns <= MAX64 - r.time then r.time + ns
      else if period < r.period && ns <= r.time then r.time - ns
      else SamplesToNs(fallback, rate)
    else SamplesToNs(fallback, rate)
  }

  lemma ProductBound(delta: int, samples: int)
    requires samples > 0 && 0 <= delta <= MAX64 / samples
    ensures 0 <= delta * samples <= MAX64
  {
    Division(MAX64, samples);
    var spare := MAX64 / samples - delta;
    assert samples * (MAX64 / samples) == samples * delta + samples * spare;
    assert samples * spare >= 0;
    assert samples * delta == delta * samples;
    assert delta * samples >= 0;
  }

  /** Nanoseconds between two periods, and the time of one extrapolated from the other's, as
      unbounded integers. */
  function ExactNs(a: u64, b: u64, samples: u32, rate: u32): int
    requires rate > 0
  {
    Distance(a, b) * samples * NS / rate
  }

  function ExactPts(r: Reading, period: u64, samples: u32, rate: u32): int
    requires rate > 0
  {
    if period >= r.period then r.time + ExactNs(period, r.period, samples, rate)
    else r.time - ExactNs(period, r.period, samples, rate)
  }

  /** The distances for which the unchecked sum wraps: its whole seconds fit 64 bits, and it does not. */
  predicate SumWraps(distance: nat, rate: u32)
    requires rate > 0
  {
    distance <= MAX64 && distance / rate <= MAX64 / NS && distance * NS / rate > MAX64
  }

  /** What a period's time should be: the exact extrapolation from a stable reading if that and
      the distances it takes fit 64 bits, and otherwise the samples handed out so far. */
  function RightPts(r: Reading, period: u64, samples: u32, rate: u32, fallback: u64): int
    requires rate > 0
  {
    if Stable(r) && Distance(period, r.period) * samples <= MAX64 && ExactNs(period, r.period, samples, rate) <= MAX64
       && 0 <= ExactPts(r, period, samples, rate) <= MAX64
    then ExactPts(r, period, samples, rate)
    else SamplesToNs(fallback, rate)
  }

  /** The extrapolation with one turn of the 64-bit sum lost. */
  function WrappedPts(r: Reading, period: u64, samples: u32, rate: u32): int
    requires rate > 0
  {
    var rest := ExactNs(period, r.period, samples, rate) - U64;
    if period >= r.period then r.time + rest else r.time - rest
  }

  /** A stable reading from so far away that the sum wraps, and what is left of it fits again. */
  predicate Misdirected(r: Reading, period: u64, samples: u32, rate: u32)
    requires rate > 0
  {
    && Stable(r) && SumWraps(Distance(period, r.period) * samples, rate)
    && 0 <= WrappedPts(r, period, samples, rate) <= MAX64
  }

  /** The time given out is right unless the reading is misdirected; then it lies within a second
      of the reading's own time, and is right only if it happens to be the fallback's time. */
  lemma PeriodPtsIsExact(r: Reading, period: u64, samples: u32, rate: u32, fallback: u64)
    requires samples > 0 && rate > 0
    ensures var pts := PeriodPts(r, period, samples, rate, fallback);
            var right := RightPts(r, period, samples, rate, fallback);
            && (pts == right <==>
                  Misdirected(r, period, samples, rate) ==>
                    WrappedPts(r, period, samples, rate) == SamplesToNs(fallback, rate))
            && (Misdirected(r, period, samples, rate) ==>
                  pts == WrappedPts(r, period, samples, rate) && r.time - NS < pts < r.time + NS)
  {
    if Stable(r) {
      var distance := Distance(period, r.period) * samples;
      MulMonotone(samples, 0, Distance(period, r.period));
      DistanceFits(Distance(period, r.period), samples);
      if distance <= MAX64 {
        ExtrapolatedExactly(distance, rate);
        WrappedRest(distance, rate);
      }
    }
  }

  /** What is left of a sum that wraps is less than a second. */
  lemma WrappedRest(samples: u64, rate: u32)
    requires rate > 0
    ensures SumWraps(samples, rate) ==>
              0 <= samples * NS / rate - U64 < NS && Extrapolated(samples, rate) == samples * NS / rate - U64
  {
    if SumWraps(samples, rate) {
      ScaledQuotient(samples, rate);
      FractionBound(samples % rate, rate);
    }
  }

  /** The wrapping sum is right exactly when the true one fits 64 bits. */
  lemma ExtrapolatedExactly(samples: u64, rate: u32)
    requires rate > 0
    ensures samples * NS / rate <= MAX64 ==> samples / rate <= MAX64 / NS
    ensures samples / rate <= MAX64 / NS ==>
              (Extrapolated(samples, rate) == samples * NS / rate <==> samples * NS / rate <= MAX64)
  {
    ScaledQuotient(samples, rate);
    FractionBound(samples % rate, rate);
    WrappedSum(samples / rate, samples % rate * NS / rate, samples * NS / rate);
  }

  lemma WrappedSum(whole: nat, fraction: nat, total: nat)
    requires total == whole * NS + fraction && fraction < NS
    ensures total <= MAX64 ==> whole <= MAX64 / NS
    ensures whole <= MAX64 / NS ==> (total % U64 == total <==> total <= MAX64)
  {
  }

  lemma DistanceFits(delta: u64, samples: u32)
    requires samples > 0
    ensures delta * samples <= MAX64 <==> delta <= MAX64 / samples
  {
    if delta * samples <= MAX64 {
      QuotientMonotone(delta * samples, MAX64, samples);
      DivModIs(delta * samples, samples, delta, 0);
    }
    if delta <= MAX64 / samples {
      ProductBound(delta, samples);
    }
  }

  /** At 48 kHz, one sample a period, with a reading of time 1 at period 0: a period about 584
      years on, where nothing was handed out yet, gets a time of 0.29 seconds instead of 0. */
  lemma NanosecondsWrap()
    ensures var r, far := Reading(0, 0, 1, 0, 0, 1), 18446744073 * 48000 + 47999;
            && PeriodPts(r, far, 1, 48000, 0) == 290_427_551
            && RightPts(r, far, 1, 48000, 0) == 0
  {
  }

  /** Stream time handed to receivers: the clock relative to its first value, held monotone. */
  datatype Clock = Clock(started: bool, origin: u64, last: u64)

  function RunningTime(c: Clock, timestamp: u64, fallback: u64): (r: (Clock, u64))
    ensures r.0.started && r.0.last == r.1
    ensures !c.started ==> r.1 == 0
    ensures r.0.origin == if c.started then c.origin else timestamp
    ensures c.started ==>
              && r.1 >= c.last && r.1 >= (if timestamp >= c.origin then timestamp - c.origin else fallback)
              && (r.1 > c.last ==> r.1 == if timestamp >= c.origin then timestamp - c.origin else fallback)
  {
    if !c.started then (Clock(true, timestamp, 0), 0)
    else
      var pts := if timestamp >= c.origin then timestamp - c.origin else fallback;
      var held := if pts < c.last then c.last else pts;
      (c.(last := held), held)
  }
}
