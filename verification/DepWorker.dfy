/** The worker of a DEP context: which periods it hands to the endpoints, and with what time. */
module DepWorker {
  import opened Words
  import opened Ranges
  import opened DepTime
  import opened DepRing

  /** A period handed to the endpoints. */
  datatype Handed = Handed(period: nat, pts: u64)

  function Periods(handed: seq<Handed>): (r: seq<int>)
    ensures |r| == |handed|
  {
    seq(|handed|, i requires 0 <= i < |handed| => handed[i].period)
  }

  lemma PeriodsSnoc(handed: seq<Handed>, h: Handed)
    ensures Periods(handed + [h]) == Periods(handed) + [h.period]
  {
  }

  /** The times start at 0, never go back, and the clock keeps the last. */
  predicate TimesOk(handed: seq<Handed>, clock: Clock) {
    && (forall j, k | 0 <= j < k < |handed| :: handed[j].pts <= handed[k].pts)
    && clock.started == (handed != [])
    && (handed != [] ==> handed[0].pts == 0 && handed[|handed| - 1].pts == clock.last)
  }

  lemma TimesSnoc(handed: seq<Handed>, clock: Clock, period: nat, timestamp: u64, fallback: u64)
    requires TimesOk(handed, clock)
    ensures var step := RunningTime(clock, timestamp, fallback);
            TimesOk(handed + [Handed(period, step.1)], step.0)
  {
  }

  /** How far the worker has come: the next period, the samples handed over so far as long as they
      fit 64 bits, stream time, and the periods handed over. */
  datatype Progress = Progress(next: u64, fallback: u64, clock: Clock, handed: seq<Handed>)

  /** Hand over the next period, with the time that a reading of the shared clock gives it. */
  function HandStep(g: Geometry, rate: u32, s: Progress, reading: Reading): Progress
    requires ValidGeometry(g) && rate > 0 && s.next < MAX64
  {
    var timestamp := PeriodPts(reading, s.next, g.period, rate, s.fallback);
    var step := RunningTime(s.clock, timestamp, SamplesToNs(s.fallback, rate));
    Progress(s.next + 1, if s.fallback <= MAX64 - g.period then s.fallback + g.period else s.fallback,
             step.0, s.handed + [Handed(s.next, step.1)])
  }

  function HandAll(g: Geometry, rate: u32, s: Progress, readings: u64 -> Reading, current: u64): Progress
    requires ValidGeometry(g) && rate > 0
    decreases current - s.next
  {
    if s.next >= current then s else HandAll(g, rate, HandStep(g, rate, s, readings(s.next)), readings, current)
  }

  /** The first of the periods up to `current` that the ring still holds. */
  function FirstKept(g: Geometry, next: u64, current: u64): (first: u64)
    requires ValidGeometry(g) && next <= current
    ensures next <= first <= current && current - first <= RingPeriods(g)
    ensures first > next ==> current - first == RingPeriods(g)
  {
    if current - next > RingPeriods(g) then current - RingPeriods(g) else next
  }

  /** The sample count of the fallback is that of the periods handed over, up to the last that fits. */
  predicate FallbackOk(g: Geometry, s: Progress) {
    |s.handed| * g.period <= MAX64 ==> s.fallback == |s.handed| * g.period
  }

  lemma FallbackKept(g: Geometry, rate: u32, s: Progress, reading: Reading)
    requires ValidGeometry(g) && rate > 0 && s.next < MAX64 && FallbackOk(g, s)
    ensures FallbackOk(g, HandStep(g, rate, s, reading))
  {
    assert (|s.handed| + 1) * g.period == |s.handed| * g.period + g.period;
    assert |s.handed| * g.period >= 0;
  }

  class Worker {
    const geometry: Geometry
    const rate: u32
    const resetSerial: u32
    const connectedAt: u64
    var nextPeriod: u64
    var fallbackSamples: u64
    var clock: Clock
    var lost: nat
    ghost var handed: seq<Handed>

    /** Every period since the connection was handed over once, in order, or counted as lost once;
        the times handed over start at 0 and never go back. */
    ghost predicate Valid()
      reads this
    {
      Steady() && FallbackOk(geometry, View())
    }

    ghost predicate Steady()
      reads this
    {
      && ValidGeometry(geometry) && rate > 0
      && connectedAt <= nextPeriod
      && Increasing(Periods(handed))
      && (forall p | p in Periods(handed) :: connectedAt <= p < nextPeriod)
      && |handed| + lost == nextPeriod - connectedAt
      && TimesOk(handed, clock)
    }

    ghost function View(): Progress
      reads this
    {
      Progress(nextPeriod, fallbackSamples, clock, handed)
    }

    constructor (geometry: Geometry, rate: u32, resetSerial: u32, periodCount: u64)
      requires ValidGeometry(geometry) && rate > 0
      ensures Valid() && nextPeriod == periodCount == connectedAt && lost == 0 && handed == []
      ensures this.geometry == geometry && this.rate == rate && this.resetSerial == resetSerial
    {
      this.geometry, this.rate, this.resetSerial := geometry, rate, resetSerial;
      connectedAt, nextPeriod := periodCount, periodCount;
      fallbackSamples, clock, lost, handed := 0, Clock(false, 0, 0), 0, [];
    }

    /** Log the next period with its running time, and move on. */
    method Record(timestamp: u64, fallback: u64)
      requires Valid() && nextPeriod < MAX64
      modifies this`nextPeriod, this`clock, this`handed
      ensures Steady() && nextPeriod == old(nextPeriod) + 1
      ensures var step := RunningTime(old(clock), timestamp, fallback);
              clock == step.0 && handed == old(handed) + [Handed(old(nextPeriod), step.1)]
      ensures Periods(handed) == Periods(old(handed)) + [old(nextPeriod)]
    {
      var step := RunningTime(clock, timestamp, fallback);
      TimesSnoc(handed, clock, nextPeriod, timestamp, fallback);
      PeriodsSnoc(handed, Handed(nextPeriod, step.1));
      IncreasingSnoc(Periods(handed), nextPeriod);
      clock := step.0;
      handed := handed + [Handed(nextPeriod, step.1)];
      nextPeriod := nextPeriod + 1;
    }

    /** Hand over the next period; `reading` is what the shared clock fields show just then. */
    method HandOver(reading: Reading)
      requires Valid() && nextPeriod < MAX64
      modifies this`nextPeriod, this`fallbackSamples, this`clock, this`handed
      ensures Valid() && View() == HandStep(geometry, rate, old(View()), reading)
      ensures Periods(handed) == Periods(old(handed)) + [old(nextPeriod)]
    {
      FallbackKept(geometry, rate, View(), reading);
      var timestamp := PeriodPts(reading, nextPeriod, geometry.period, rate, fallbackSamples);
      Record(timestamp, SamplesToNs(fallbackSamples, rate));
      if fallbackSamples <= MAX64 - geometry.period {
        fallbackSamples := fallbackSamples + geometry.period;
      }
    }

    /** One wake-up. `current` is the period count read; the result is false when the mapping has
        been reset or replaced, and then nothing is handed over. */
    method WakeUp(magicOk: bool, reset: u32, current: u64, readings: u64 -> Reading) returns (connected: bool)
      requires Valid()
      modifies this`nextPeriod, this`fallbackSamples, this`clock, this`handed, this`lost
      ensures Valid()
      ensures connected <==> magicOk && reset == resetSerial && reset % 2 == 0 && current >= old(nextPeriod)
      ensures !connected ==> nextPeriod == old(nextPeriod) && handed == old(handed) && lost == old(lost)
      ensures connected ==>
                var first := FirstKept(geometry, old(nextPeriod), current);
                && nextPeriod == current
                && lost == old(lost) + first - old(nextPeriod)
                && View() == HandAll(geometry, rate, old(View()).(next := first), readings, current)
                && Periods(handed) == Periods(old(handed)) + Range(first, current - first)
    {
      if !magicOk || reset != resetSerial || reset % 2 == 1 || current < nextPeriod {
        return false;
      }
      SkipLost(current);
      HandOverAll(current, readings);
      connected := true;
    }

    /** Periods that the ring no longer holds are counted, not handed over. */
    method SkipLost(current: u64)
      requires Valid() && nextPeriod <= current
      modifies this`nextPeriod, this`lost
      ensures Valid() && nextPeriod == FirstKept(geometry, old(nextPeriod), current)
      ensures lost == old(lost) + nextPeriod - old(nextPeriod)
    {
      var available := current - nextPeriod;
      var ringPeriods := RingPeriods(geometry);
      RingHolds(geometry);
      if available > ringPeriods {
        lost := lost + available - ringPeriods;
        nextPeriod := nextPeriod + (available - ringPeriods);
      }
    }

    method HandOverAll(current: u64, readings: u64 -> Reading)
      requires Valid() && nextPeriod <= current
      modifies this`nextPeriod, this`fallbackSamples, this`clock, this`handed
      ensures Valid() && nextPeriod == current
      ensures View() == HandAll(geometry, rate, old(View()), readings, current)
      ensures Periods(handed) == Periods(old(handed)) + Range(old(nextPeriod), current - old(nextPeriod))
    {
      hide HandStep, FallbackOk, TimesOk;
      while nextPeriod < current
        invariant Valid() && old(nextPeriod) <= nextPeriod <= current
        invariant HandAll(geometry, rate, View(), readings, current) ==
                  HandAll(geometry, rate, old(View()), readings, current)
        invariant Periods(handed) == Periods(old(handed)) + Range(old(nextPeriod), nextPeriod - old(nextPeriod))
      {
        ghost var n := nextPeriod - old(nextPeriod);
        HandOver(readings(nextPeriod));
        assert Range(old(nextPeriod), n + 1) == Range(old(nextPeriod), n) + [nextPeriod - 1];
      }
    }
  }

  /** The periods of the connection that were not handed over are exactly as many as were counted. */
  lemma LostAreTheRest(w: Worker)
    requires w.Valid()
    ensures |Span(w.connectedAt, w.nextPeriod) - Members(Periods(w.handed))| == w.lost
  {
    MissedSize(Periods(w.handed), w.connectedAt, w.nextPeriod);
  }
}
