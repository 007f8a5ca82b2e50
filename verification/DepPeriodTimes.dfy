/** The time that the worker hands over with each period: which reading and which count it comes
    from, and that an exact clock gives every period exactly its distance from the first. */
module DepPeriodTimes {
  import opened Words
  import opened Residues
  import opened DepTime
  import opened DepRing
  import opened DepWorker

  /** The samples counted after `k` more periods: the count stays where the next would not fit. */
  function CountAfter(period: u32, count: u64, k: nat): u64 {
    if k == 0 then count
    else
      var before := CountAfter(period, count, k - 1);
      if before + period < 0x1_0000_0000_0000_0000 then before + period else before
  }

  /** The worker from which `HandAll` starts has handed over nothing, or its clock holds the last. */
  predicate Running(s: Progress) {
    && s.clock.started == (s.handed != [])
    && (s.handed != [] ==> s.handed[|s.handed| - 1].pts == s.clock.last)
  }

  /** What period `p` is stamped with, by the reading taken for it. */
  function Timestamp(g: Geometry, rate: u32, s: Progress, readings: u64 -> Reading, p: u64): u64
    requires ValidGeometry(g) && rate > 0 && s.next <= p
  {
    PeriodPts(readings(p), p, g.period, rate, CountAfter(g.period, s.fallback, p - s.next))
  }

  /** The stamp that stream time counts from: that of the first period ever handed over. */
  function Origin(g: Geometry, rate: u32, s: Progress, readings: u64 -> Reading): u64
    requires ValidGeometry(g) && rate > 0
  {
    if s.clock.started then s.clock.origin else Timestamp(g, rate, s, readings, s.next)
  }

  /** Time since the origin, or the time of the samples counted if the stamp lies before it. */
  function Elapsed(g: Geometry, rate: u32, s: Progress, readings: u64 -> Reading, p: u64): u64
    requires ValidGeometry(g) && rate > 0 && s.next <= p
  {
    var stamp, origin := Timestamp(g, rate, s, readings, p), Origin(g, rate, s, readings);
    if stamp >= origin then stamp - origin else SamplesToNs(CountAfter(g.period, s.fallback, p - s.next), rate)
  }

  lemma {:induction false} HandAllExtends(g: Geometry, rate: u32, s: Progress, readings: u64 -> Reading, current: u64)
    requires ValidGeometry(g) && rate > 0 && s.next <= current
    ensures var t := HandAll(g, rate, s, readings, current);
            |t.handed| == |s.handed| + (current - s.next) && t.handed[..|s.handed|] == s.handed
    decreases current - s.next
  {
    if s.next < current {
      var s1 := HandStep(g, rate, s, readings(s.next));
      HandAllExtends(g, rate, s1, readings, current);
      var t := HandAll(g, rate, s1, readings, current);
      hide HandAll, HandStep;
      assert s1.handed[..|s.handed|] == s.handed;
      assert t.handed[..|s.handed|] == t.handed[..|s1.handed|][..|s.handed|];
    }
  }

  lemma {:induction false} CountShift(period: u32, count: u64, k: nat)
    ensures CountAfter(period, CountAfter(period, count, 1), k) == CountAfter(period, count, k + 1)
  {
    if k > 0 {
      CountShift(period, count, k - 1);
    }
  }

  lemma OneHanded(g: Geometry, rate: u32, s: Progress, readings: u64 -> Reading)
    requires ValidGeometry(g) && rate > 0 && s.next < MAX64 && Running(s)
    ensures var s1 := HandStep(g, rate, s, readings(s.next));
            var before := if s.handed == [] then 0 else s.handed[|s.handed| - 1].pts;
            && Running(s1) && s1.next == s.next + 1 && s1.fallback == CountAfter(g.period, s.fallback, 1)
            && s1.clock.started && s1.clock.origin == Origin(g, rate, s, readings)
            && |s1.handed| == |s.handed| + 1
            && s1.handed[|s.handed|].period == s.next
            && s1.handed[|s.handed|].pts ==
               var elapsed := Elapsed(g, rate, s, readings, s.next); if elapsed < before then before else elapsed
  {
    hide PeriodPts;
    assert CountAfter(g.period, s.fallback, 0) == s.fallback;
  }

  /** From the second period on, the same stamps, origin and elapsed times. */
  lemma SameTimes(g: Geometry, rate: u32, s: Progress, readings: u64 -> Reading, p: u64)
    requires ValidGeometry(g) && rate > 0 && s.next < p && Running(s)
    ensures var s1 := HandStep(g, rate, s, readings(s.next));
            && Timestamp(g, rate, s1, readings, p) == Timestamp(g, rate, s, readings, p)
            && Origin(g, rate, s1, readings) == Origin(g, rate, s, readings)
            && Elapsed(g, rate, s1, readings, p) == Elapsed(g, rate, s, readings, p)
  {
    OneHanded(g, rate, s, readings);
    CountShift(g.period, s.fallback, p - s.next - 1);
    hide PeriodPts, HandStep, CountAfter;
  }

  /** Every period handed over comes with the time elapsed by its own reading, held at the time
      before it if that is later. */
  lemma {:induction false} EachPeriodTime(
    g: Geometry, rate: u32, s: Progress, readings: u64 -> Reading, current: u64, p: u64)
    requires ValidGeometry(g) && rate > 0 && Running(s) && s.next <= p < current
    ensures var t, i := HandAll(g, rate, s, readings, current), |s.handed| + (p - s.next);
            && i < |t.handed| && t.handed[i].period == p
            && t.handed[i].pts ==
               var elapsed, before := Elapsed(g, rate, s, readings, p), if i == 0 then 0 else t.handed[i - 1].pts;
               if elapsed < before then before else elapsed
    decreases current - s.next
  {
    var s1 := HandStep(g, rate, s, readings(s.next));
    OneHanded(g, rate, s, readings);
    HandAllExtends(g, rate, s1, readings, current);
    var t := HandAll(g, rate, s1, readings, current);
    assert HandAll(g, rate, s, readings, current) == t;
    if p == s.next {
      hide HandAll, HandStep, Elapsed, Origin;
      HandedAt(s.handed, s1.handed, t.handed);
      HandAllKeeps(g, rate, s, readings);
    } else {
      SameTimes(g, rate, s, readings, p);
      EachPeriodTime(g, rate, s1, readings, current, p);
    }
  }

  lemma HandAllKeeps(g: Geometry, rate: u32, s: Progress, readings: u64 -> Reading)
    requires ValidGeometry(g) && rate > 0 && s.next < MAX64
    ensures HandStep(g, rate, s, readings(s.next)).handed[..|s.handed|] == s.handed
  {
  }

  lemma HandedAt(a: seq<Handed>, b: seq<Handed>, c: seq<Handed>)
    requires |a| < |b| <= |c| && c[..|b|] == b
    ensures c[|a|] == b[|a|] && (a != [] ==> c[|a| - 1] == b[|a| - 1])
  {
    assert c[|a|] == c[..|b|][|a|];
    if a != [] {
      assert c[|a| - 1] == c[..|b|][|a| - 1];
    }
  }

  /** When period `p` begins on a clock that gives each period `d` nanoseconds. */
  function ClockTime(base: int, d: nat, p: nat): int {
    base + p * d
  }

  /** A reading of such a clock, from near enough to `p`. */
  predicate OnTheClock(r: Reading, base: int, d: nat, p: u64, samples: u32) {
    && Stable(r) && r.time == ClockTime(base, d, r.period)
    && Distance(p, r.period) * samples <= MAX64 && Distance(p, r.period) * d <= MAX64
    && 0 <= ClockTime(base, d, p) <= MAX64
  }

  lemma ExactDistance(delta: nat, samples: nat, rate: nat, d: nat)
    requires rate > 0 && samples * NS == d * rate
    ensures delta * samples * NS / rate == delta * d
  {
    assert delta * samples * NS == delta * (samples * NS);
    assert delta * (d * rate) == rate * (delta * d);
    DivModIs(delta * samples * NS, rate, delta * d, 0);
  }

  lemma ClockShift(base: int, d: nat, q: nat, p: nat)
    requires q <= p
    ensures ClockTime(base, d, p) - ClockTime(base, d, q) == (p - q) * d >= 0
  {
    assert p * d == q * d + (p - q) * d;
    assert (p - q) * d >= 0;
  }

  lemma ExactStamp(r: Reading, base: int, d: nat, p: u64, samples: u32, rate: u32, fallback: u64)
    requires samples > 0 && rate > 0 && samples * NS == d * rate && OnTheClock(r, base, d, p, samples)
    ensures PeriodPts(r, p, samples, rate, fallback) == ClockTime(base, d, p)
  {
    ExactDistance(Distance(p, r.period), samples, rate, d);
    if p >= r.period {
      ClockShift(base, d, r.period, p);
    } else {
      ClockShift(base, d, p, r.period);
    }
    hide ClockTime, PeriodPts, Stable;
    assert ExactNs(p, r.period, samples, rate) == Distance(p, r.period) * d;
    PeriodPtsIsExact(r, p, samples, rate, fallback);
  }

  lemma ExactElapsed(g: Geometry, rate: u32, s: Progress, readings: u64 -> Reading, base: int, d: nat, p: u64)
    requires ValidGeometry(g) && rate > 0 && !s.clock.started && s.next <= p && g.period * NS == d * rate
    requires OnTheClock(readings(p), base, d, p, g.period)
    requires OnTheClock(readings(s.next), base, d, s.next, g.period)
    ensures Elapsed(g, rate, s, readings, p) == (p - s.next) * d
  {
    hide ClockTime, OnTheClock, PeriodPts;
    ExactStamp(readings(p), base, d, p, g.period, rate, CountAfter(g.period, s.fallback, p - s.next));
    ExactStamp(readings(s.next), base, d, s.next, g.period, rate, CountAfter(g.period, s.fallback, 0));
    ClockShift(base, d, s.next, p);
  }

  /** With an exact clock, every reading stable, the times handed over are exact: period `p` comes
      `p - first` period lengths after the first. */
  lemma {:induction false} ExactClockExactTimes(
    g: Geometry, rate: u32, s: Progress, readings: u64 -> Reading, current: u64, base: int, d: nat, p: u64)
    requires ValidGeometry(g) && rate > 0 && s.handed == [] && !s.clock.started && s.next <= p < current
    requires g.period * NS == d * rate
    requires forall q: u64 | s.next <= q <= p :: OnTheClock(readings(q), base, d, q, g.period)
    ensures var t := HandAll(g, rate, s, readings, current);
            && p - s.next < |t.handed| && t.handed[p - s.next].period == p
            && t.handed[p - s.next].pts == (p - s.next) * d
    decreases p
  {
    hide HandAll, Elapsed, OnTheClock;
    EachPeriodTime(g, rate, s, readings, current, p);
    ExactElapsed(g, rate, s, readings, base, d, p);
    if p > s.next {
      ExactClockExactTimes(g, rate, s, readings, current, base, d, p - 1);
      assert (p - s.next) * d == (p - 1 - s.next) * d + d;
    }
  }
}
