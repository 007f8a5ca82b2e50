/** The shared sample ring that an external writer fills period by period, and why a reader that
    checks the period count before and after its copy reads no torn period. */
module DepRing {
  import opened Words
  import opened Residues

  /** Ring geometry: samples per channel in the ring, samples per period. */
  datatype Geometry = Geometry(capacity: u32, period: u32)

  predicate ValidGeometry(g: Geometry) {
    0 < g.period <= g.capacity
  }

  /** How many whole periods the ring holds. */
  function RingPeriods(g: Geometry): nat
    requires ValidGeometry(g)
  {
    g.capacity / g.period
  }

  /** Samples by channel and position; a period's samples by channel and offset. */
  type Planes = seq<seq<int>>

  datatype Shared = Shared(count: nat, planes: Planes)

  predicate ShapedPlanes(planes: Planes, channels: nat, length: nat) {
    |planes| == channels && forall c | 0 <= c < channels :: |planes[c]| == length
  }

  /** How far position `x` lies past the start of period `p`, around the ring. */
  function Offset(g: Geometry, p: nat, x: nat): (o: nat)
    requires ValidGeometry(g)
    ensures o < g.capacity
  {
    (x - p * g.period) % g.capacity
  }

  /** Publishing: the samples and the count become visible together. */
  function Publish(g: Geometry, s: Shared, data: Planes): (t: Shared)
    requires ValidGeometry(g) && ShapedPlanes(s.planes, |s.planes|, g.capacity)
    requires ShapedPlanes(data, |s.planes|, g.period)
    ensures |t.planes| == |s.planes| && ShapedPlanes(t.planes, |t.planes|, g.capacity)
  {
    Shared(s.count + 1,
           seq(|s.planes|, c requires 0 <= c < |s.planes| =>
             seq(g.capacity, x requires 0 <= x < g.capacity =>
               if Offset(g, s.count, x) < g.period then data[c][Offset(g, s.count, x)] else s.planes[c][x])))
  }

  /** Everything the writer publishes from `start` on, and the ring after the first `n` of it. */
  datatype Writer = Writer(start: Shared, published: seq<Planes>)

  predicate ValidWriter(g: Geometry, w: Writer) {
    && ValidGeometry(g)
    && ShapedPlanes(w.start.planes, |w.start.planes|, g.capacity)
    && forall k | 0 <= k < |w.published| :: ShapedPlanes(w.published[k], |w.start.planes|, g.period)
  }

  function After(g: Geometry, w: Writer, n: nat): (s: Shared)
    requires ValidWriter(g, w) && n <= |w.published|
    ensures s.count == w.start.count + n
    ensures |s.planes| == |w.start.planes| && ShapedPlanes(s.planes, |s.planes|, g.capacity)
  {
    if n == 0 then w.start else Publish(g, After(g, w, n - 1), w.published[n - 1])
  }

  /** Where sample `i` of period `p` is. */
  function Position(g: Geometry, p: nat, i: nat): (x: nat)
    requires ValidGeometry(g)
    ensures x < g.capacity
  {
    (p * g.period + i) % g.capacity
  }

  lemma RingHolds(g: Geometry)
    requires ValidGeometry(g)
    ensures RingPeriods(g) >= 1 && RingPeriods(g) * g.period <= g.capacity
  {
    Division(g.capacity, g.period);
  }

  lemma OwnOffset(g: Geometry, p: nat, i: nat)
    requires ValidGeometry(g) && i < g.capacity
    ensures Offset(g, p, Position(g, p, i)) == i
  {
    var x := p * g.period + i;
    Division(x, g.capacity);
    assert Position(g, p, i) - p * g.period == i + g.capacity * -(x / g.capacity);
    ModShift(i, g.capacity, -(x / g.capacity));
    DivModIs(i, g.capacity, 0, i);
  }

  /** A period fewer than RingPeriods later overwrites no sample of an earlier one. */
  lemma OtherOffset(g: Geometry, p: nat, q: nat, i: nat)
    requires ValidGeometry(g) && i < g.period && q < p < q + RingPeriods(g)
    ensures Offset(g, p, Position(g, q, i)) >= g.period
  {
    var x, d := q * g.period + i, (p - q) * g.period - i;
    RingHolds(g);
    MulMonotone(g.period, 1, p - q);
    MulMonotone(g.period, p - q, RingPeriods(g) - 1);
    assert g.period <= (p - q) * g.period <= RingPeriods(g) * g.period - g.period;
    Division(x, g.capacity);
    assert (p - q) * g.period == p * g.period - q * g.period;
    assert Position(g, q, i) - p * g.period == -d + g.capacity * -(x / g.capacity);
    ModShift(-d, g.capacity, -(x / g.capacity));
    DivModIs(-d, g.capacity, -1, g.capacity - d);
  }

  /** Every period still inside the ring is there in full. */
  lemma {:induction false} PeriodIntact(g: Geometry, w: Writer, n: nat, p: nat, c: nat, i: nat)
    requires ValidWriter(g, w) && n <= |w.published|
    requires w.start.count <= p < w.start.count + n && w.start.count + n - p <= RingPeriods(g)
    requires c < |w.start.planes| && i < g.period
    ensures After(g, w, n).planes[c][Position(g, p, i)] == w.published[p - w.start.count][c][i]
  {
    var last := w.start.count + n - 1;
    if p == last {
      OwnOffset(g, p, i);
    } else {
      OtherOffset(g, last, p, i);
      PeriodIntact(g, w, n - 1, p, c, i);
    }
  }

  /** The check made before and after the copy: period `p` is complete and not yet overwritten. */
  predicate Present(g: Geometry, latest: nat, p: nat)
    requires ValidGeometry(g)
  {
    p + 1 <= latest && latest - p <= RingPeriods(g)
  }

  /** When the reader's accesses happen, in periods published by then: the first check, each
      sample read, the second check. Nothing is said about the order of the reads themselves. */
  datatype Timing = Timing(first: nat, samples: seq<seq<nat>>, last: nat)

  predicate ValidTiming(w: Writer, t: Timing, frames: nat, channels: nat) {
    && t.first <= t.last <= |w.published|
    && |t.samples| == frames
    && forall i | 0 <= i < frames :: |t.samples[i]| == channels &&
         forall c | 0 <= c < channels :: t.first <= t.samples[i][c] <= t.last
  }

  /** What the copy loop sees of sample `i` of period `p` in plane `plane`, `n` publications in. */
  function Seen(g: Geometry, w: Writer, n: nat, plane: nat, p: nat, i: nat): int
    requires ValidWriter(g, w) && n <= |w.published| && plane < |w.start.planes|
  {
    After(g, w, n).planes[plane][Position(g, p, i)]
  }

  /** If both checks pass, every sample read in between is the published one. */
  lemma NoTornRead(g: Geometry, w: Writer, t: Timing, n: nat, plane: nat, p: nat, i: nat)
    requires ValidWriter(g, w) && t.first <= n <= t.last <= |w.published|
    requires w.start.count <= p && plane < |w.start.planes| && i < g.period
    requires Present(g, w.start.count + t.first, p) && Present(g, w.start.count + t.last, p)
    ensures Seen(g, w, n, plane, p, i) == w.published[p - w.start.count][plane][i]
  {
    PeriodIntact(g, w, n, p, plane, i);
  }

  /** After `n` publications the place of the first sample of period `p` holds sample `i` of the
      later period `q`, in every channel. */
  predicate Overwrites(g: Geometry, w: Writer, n: nat, p: nat, q: nat, i: nat)
    requires ValidWriter(g, w) && n <= |w.published| && w.start.count <= p
  {
    && p < q < w.start.count + n && i < g.period && Position(g, q, i) == Position(g, p, 0)
    && forall c | 0 <= c < |w.start.planes| ::
         After(g, w, n).planes[c][Position(g, p, 0)] == w.published[q - w.start.count][c][i]
  }

  lemma PositionOfOffset(g: Geometry, q: nat, x: nat)
    requires ValidGeometry(g) && x < g.capacity
    ensures Position(g, q, Offset(g, q, x)) == x
  {
    var d := x - q * g.period;
    Division(d, g.capacity);
    assert q * g.period + d % g.capacity == x + g.capacity * -(d / g.capacity);
    ModShift(x, g.capacity, -(d / g.capacity));
    DivModIs(x, g.capacity, 0, x);
  }

  /** The period that comes RingPeriods later begins at or before the end of the ring's lap, and
      so reaches over the first sample. */
  lemma LapOffset(g: Geometry, p: nat)
    requires ValidGeometry(g)
    ensures Offset(g, p + RingPeriods(g), Position(g, p, 0)) < g.period
  {
    var start, rest := p * g.period, g.capacity % g.period;
    Division(start, g.capacity);
    Division(g.capacity, g.period);
    assert (p + RingPeriods(g)) * g.period == start + (g.capacity - rest);
    assert Position(g, p, 0) - (p + RingPeriods(g)) * g.period == rest + g.capacity * -(start / g.capacity + 1);
    ModShift(rest, g.capacity, -(start / g.capacity + 1));
    DivModIs(rest, g.capacity, 0, rest);
  }

  /** The second check is needed, and is exact, for every ring and however far the writer has gone:
      once the check fails because the writer has lapped the period, the period's first sample
      has been overwritten with one of a later period. */
  lemma {:induction false} LappedIsOverwritten(g: Geometry, w: Writer, n: nat, p: nat)
    requires ValidWriter(g, w) && n <= |w.published| && w.start.count <= p
    requires w.start.count + n > p + RingPeriods(g)
    ensures exists q: nat, i: nat :: Overwrites(g, w, n, p, q, i)
  {
    var x, last := Position(g, p, 0), w.start.count + n - 1;
    var o := Offset(g, last, x);
    RingHolds(g);
    if o < g.period {
      PositionOfOffset(g, last, x);
      assert Overwrites(g, w, n, p, last, o);
    } else {
      LapOffset(g, p);
      LappedIsOverwritten(g, w, n - 1, p);
      var q: nat, i: nat :| Overwrites(g, w, n - 1, p, q, i);
      assert Overwrites(g, w, n, p, q, i);
    }
  }
}
