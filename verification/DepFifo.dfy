/** The per-endpoint frame FIFO of the DEP context: a circular buffer in arrays that are updated
    in place, dropping the oldest frames when it is full. A frame is one sample per channel. */
module DepFifo {
  import opened Words
  import opened Residues
  import opened Circular
  import opened DepTime
  import opened DepRing

  type Frame = seq<int>

  datatype Result = Ok | Error | Again | Timeout

  const SIZE_MAX: int := 0xffff_ffff_ffff_ffff

  function Min(a: int, b: int): int {
    if a < b then a else b
  }

  function Max(a: int, b: int): int {
    if a < b then b else a
  }

  function One(b: bool): nat {
    if b then 1 else 0
  }

  /** What `n` frames more do to a queue of at most `cap`: the oldest go. */
  function Pushed<T>(cap: nat, queue: seq<T>, more: seq<T>): (r: seq<T>)
    ensures |r| == Min(cap, |queue| + |more|)
  {
    (queue + more)[|queue| + |more| - Min(cap, |queue| + |more|)..]
  }

  lemma PushedCounts(cap: nat, used: nat, n: nat)
    requires used <= cap
    ensures var skip := if n > cap then n - cap else 0;
            && skip == Max(0, n - cap) && n - skip == Min(n, cap)
            && Max(0, used + (n - skip) - cap) == Max(0, n - skip - (cap - used))
            && skip + Max(0, used + (n - skip) - cap) == Excess(cap, used, n)
            && (Max(0, used + (n - skip) - cap) > 0 <==> used + Min(n, cap) > cap)
            && One(skip > 0) == (if skip > 0 then 1 else 0)
  {
  }

  /** Skipping the oldest of `more` and dropping the oldest of `queue` keeps the newest of both. */
  lemma PushedParts<T>(cap: nat, queue: seq<T>, more: seq<T>)
    requires |queue| <= cap
    ensures var skip := Max(0, |more| - cap);
            var drop := Max(0, |more| - skip - (cap - |queue|));
            drop <= |queue| && queue[drop..] + more[skip..] == Pushed(cap, queue, more)
  {
    var skip := Max(0, |more| - cap);
    var drop := Max(0, |more| - skip - (cap - |queue|));
    if skip > 0 {
      assert (queue + more)[|queue| + skip..] == more[skip..];
    } else {
      assert (queue + more)[drop..] == queue[drop..] + more;
    }
  }

  /** What the receive loop copies for period `p`: frame by frame, channel by channel, each sample
      read at its own moment. */
  function CopiedFrame(g: Geometry, w: Writer, t: Timing, map_: seq<nat>, p: nat, i: nat): (f: Frame)
    requires ValidWriter(g, w) && ValidTiming(w, t, g.period, |map_|) && i < g.period
    requires forall c | 0 <= c < |map_| :: map_[c] < |w.start.planes|
    ensures |f| == |map_|
  {
    seq(|map_|, c requires 0 <= c < |map_| => Seen(g, w, t.samples[i][c], map_[c], p, i))
  }

  function Copied(g: Geometry, w: Writer, t: Timing, map_: seq<nat>, p: nat): (r: seq<Frame>)
    requires ValidWriter(g, w) && ValidTiming(w, t, g.period, |map_|)
    requires forall c | 0 <= c < |map_| :: map_[c] < |w.start.planes|
    ensures |r| == g.period
  {
    seq(g.period, i requires 0 <= i < g.period => CopiedFrame(g, w, t, map_, p, i))
  }

  /** The frames that the writer published as period `p`, in the endpoint's channel order. */
  function PublishedFrames(g: Geometry, w: Writer, map_: seq<nat>, p: nat): (r: seq<Frame>)
    requires ValidWriter(g, w) && w.start.count <= p < w.start.count + |w.published|
    requires forall c | 0 <= c < |map_| :: map_[c] < |w.start.planes|
    ensures |r| == g.period
  {
    seq(g.period, i requires 0 <= i < g.period =>
      seq(|map_|, c requires 0 <= c < |map_| => w.published[p - w.start.count][map_[c]][i]))
  }

  lemma CopiedIsPublished(g: Geometry, w: Writer, t: Timing, map_: seq<nat>, p: nat)
    requires ValidWriter(g, w) && ValidTiming(w, t, g.period, |map_|) && w.start.count <= p
    requires forall c | 0 <= c < |map_| :: map_[c] < |w.start.planes|
    requires Present(g, w.start.count + t.first, p) && Present(g, w.start.count + t.last, p)
    ensures Copied(g, w, t, map_, p) == PublishedFrames(g, w, map_, p)
  {
    var copied, published := Copied(g, w, t, map_, p), PublishedFrames(g, w, map_, p);
    forall i | 0 <= i < g.period
      ensures copied[i] == published[i]
    {
      forall c | 0 <= c < |map_|
        ensures copied[i][c] == published[i][c]
      {
        NoTornRead(g, w, t, t.samples[i][c], map_[c], p, i);
      }
    }
  }

  /** The timestamp of frame `i` of a period that starts at `pts`, held at the largest value. */
  function Stamp(pts: u64, i: u32, rate: u32): (r: u64)
    requires rate > 0
    ensures r == if pts + i * 1_000_000_000 / rate < 0x1_0000_0000_0000_0000 then pts + i * 1_000_000_000 / rate
                 else 0xffff_ffff_ffff_ffff
  {
    Min(MAX64, pts + SamplesToNs(i, rate))
  }

  function StampsFrom(pts: u64, frames: u32, rate: u32): (r: seq<u64>)
    requires rate > 0
    ensures |r| == frames
  {
    seq(frames, i requires 0 <= i < frames => Stamp(pts, i, rate))
  }

  /** A receive queue with its frames' timestamps and the counters that copying changes. */
  datatype Fifo = Fifo(frames: seq<Frame>, stamps: seq<u64>, dropped: nat, overruns: nat)

  /** How many of `used` frames must go for `more` to fit. */
  function Excess(cap: nat, used: nat, more: nat): nat {
    Max(0, used + more - cap)
  }

  /** The oldest frames make room, and the copy goes in behind the rest. */
  function Taken(cap: nat, f: Fifo, copy: seq<Frame>, times: seq<u64>): (t: Fifo)
    requires |f.frames| == |f.stamps| <= cap && |copy| == |times| <= cap
    ensures |t.frames| == |t.stamps| <= cap
    ensures |t.frames| + t.dropped == |f.frames| + f.dropped + |copy|
  {
    var n := Excess(cap, |f.frames|, |copy|);
    Fifo(f.frames[n..] + copy, f.stamps[n..] + times, f.dropped + n, f.overruns + One(n > 0))
  }

  /** A copy taken back: the indices return, but where frames had made room the end of the copy
      remains, and the counters stay counted. */
  function Torn(cap: nat, f: Fifo, copy: seq<Frame>, times: seq<u64>): (t: Fifo)
    requires |f.frames| == |f.stamps| <= cap && |copy| == |times| <= cap
    ensures |t.frames| == |f.frames| && |t.stamps| == |f.stamps|
  {
    var n := Excess(cap, |f.frames|, |copy|);
    Fifo(copy[|copy| - n..] + f.frames[n..], times[|copy| - n..] + f.stamps[n..],
         f.dropped + n, f.overruns + One(n > 0) + 1)
  }

  /** Period `p` was there at the first check, and no longer at the second. */
  predicate TornRead(g: Geometry, w: Writer, t: Timing, map_: seq<nat>, p: u64) {
    && ValidWriter(g, w) && ValidTiming(w, t, g.period, |map_|)
    && (forall c | 0 <= c < |map_| :: map_[c] < |w.start.planes|)
    && w.start.count <= p
    && Present(g, w.start.count + t.first, p) && !Present(g, w.start.count + t.last, p)
  }

  /** Whatever the writer publishes and whenever the samples are read, a copy taken back leaves the
      frames and their timestamps as they were. */
  ghost predicate KeepsQueue(cap: nat, f: Fifo, g: Geometry, rate: u32, map_: seq<nat>)
    requires |f.frames| == |f.stamps| <= cap && g.period <= cap && rate > 0
  {
    forall w, t, p: u64, pts: u64 {:trigger TornRead(g, w, t, map_, p), StampsFrom(pts, g.period, rate)} ::
      TornRead(g, w, t, map_, p) ==>
        var after := Torn(cap, f, Copied(g, w, t, map_, p), StampsFrom(pts, g.period, rate));
        after.frames == f.frames && after.stamps == f.stamps
  }

  lemma RoomKeeps(cap: nat, f: Fifo, copy: seq<Frame>, times: seq<u64>)
    requires |f.frames| == |f.stamps| <= cap && |copy| == |times| <= cap && |f.frames| + |copy| <= cap
    ensures Torn(cap, f, copy, times).frames == f.frames && Torn(cap, f, copy, times).stamps == f.stamps
  {
    assert copy[|copy|..] + f.frames == f.frames && times[|copy|..] + f.stamps == f.stamps;
  }

  /** One more than every plane that the map names. */
  function PlanesFor(map_: seq<nat>): (n: nat)
    ensures forall c | 0 <= c < |map_| :: map_[c] < n
  {
    if map_ == [] then 0 else Max(PlanesFor(map_[..|map_| - 1]), map_[|map_| - 1] + 1)
  }

  function Plain(channels: nat, length: nat, v: int): (planes: Planes)
    ensures ShapedPlanes(planes, channels, length)
    ensures forall c, x | 0 <= c < channels && 0 <= x < length :: planes[c][x] == v
  {
    seq(channels, _ => seq(length, _ => v))
  }

  /** A writer that fills the ring with `v` and goes one period past its end. */
  function Lapping(g: Geometry, map_: seq<nat>, v: int): (w: Writer)
    requires ValidGeometry(g)
    ensures ValidWriter(g, w)
  {
    var n := PlanesFor(map_);
    Writer(Shared(0, Plain(n, g.capacity, v)), seq(RingPeriods(g) + 1, _ => Plain(n, g.period, v)))
  }

  /** Read after the first period, checked again when the writer has gone past it. */
  function TooLate(g: Geometry, map_: seq<nat>): Timing
    requires ValidGeometry(g)
  {
    Timing(1, seq(g.period, _ => seq(|map_|, _ => 1)), RingPeriods(g) + 1)
  }

  lemma LappingIsTorn(g: Geometry, map_: seq<nat>, v: int)
    requires ValidGeometry(g)
    ensures var w, t := Lapping(g, map_, v), TooLate(g, map_);
            TornRead(g, w, t, map_, 0) &&
            forall i | 0 <= i < g.period :: Copied(g, w, t, map_, 0)[i] == seq(|map_|, _ => v)
  {
    RingHolds(g);
    var w, t := Lapping(g, map_, v), TooLate(g, map_);
    assert TornRead(g, w, t, map_, 0);
    forall i | 0 <= i < g.period
      ensures Copied(g, w, t, map_, 0)[i] == seq(|map_|, _ => v)
    {
      forall c | 0 <= c < |map_|
        ensures CopiedFrame(g, w, t, map_, 0, i)[c] == v
      {
        PeriodIntact(g, w, 1, 0, map_[c], i);
      }
    }
  }

  /** A sample that no frame equal to `frame` has first. */
  function OtherSample(frame: Frame): int {
    if frame != [] && frame[0] == 0 then 1 else 0
  }

  lemma FullChanges(cap: nat, f: Fifo, g: Geometry, rate: u32, map_: seq<nat>)
    requires |f.frames| == |f.stamps| <= cap && g.period <= cap && rate > 0 && ValidGeometry(g) && map_ != []
    requires |f.frames| + g.period > cap
    ensures !KeepsQueue(cap, f, g, rate, map_)
  {
    var v := OtherSample(f.frames[0]);
    var w, t, times := Lapping(g, map_, v), TooLate(g, map_), StampsFrom(0, g.period, rate);
    LappingIsTorn(g, map_, v);
    var n, copy := Excess(cap, |f.frames|, g.period), Copied(g, w, t, map_, 0);
    assert Torn(cap, f, copy, times).frames[0] == copy[g.period - n];
    assert copy[g.period - n] == seq(|map_|, _ => v) && seq(|map_|, _ => v)[0] == v;
  }

  /** Taking a copy back leaves the queue as it was exactly where nothing had to make room: with
      room for the period it always does, and without it some writer's timing changes the queue. */
  lemma TornUnchanged(cap: nat, f: Fifo, g: Geometry, rate: u32, map_: seq<nat>)
    requires |f.frames| == |f.stamps| <= cap && g.period <= cap && rate > 0 && ValidGeometry(g) && map_ != []
    ensures KeepsQueue(cap, f, g, rate, map_) <==> |f.frames| + g.period <= cap
  {
    if |f.frames| + g.period <= cap {
      forall w, t, p: u64, pts: u64 | TornRead(g, w, t, map_, p)
        ensures var after := Torn(cap, f, Copied(g, w, t, map_, p), StampsFrom(pts, g.period, rate));
                after.frames == f.frames && after.stamps == f.stamps
      {
        RoomKeeps(cap, f, Copied(g, w, t, map_, p), StampsFrom(pts, g.period, rate));
      }
    } else {
      FullChanges(cap, f, g, rate, map_);
    }
  }

  class Endpoint {
    const receiving: bool
    const channelMap: seq<nat>
    const queuePeriods: u32
    const blockSamples: u32
    var samples: array<Frame>
    var timestamps: array<u64>
    var capacity: nat
    var readFrame: nat
    var usedFrames: nat
    var configuredPeriod: u32
    var sampleRate: u32
    var enabled: bool
    var periods: nat
    var overruns: nat
    var underflows: nat
    var droppedFrames: nat

    ghost predicate Valid()
      reads this
    {
      && samples.Length == capacity
      && (receiving ==> timestamps.Length == capacity)
      && usedFrames <= capacity
      && (if capacity == 0 then readFrame == 0 else readFrame < capacity)
    }

    ghost function Queue(): (q: seq<Frame>)
      reads this, samples
      requires Valid()
      ensures |q| == usedFrames
    {
      Around(samples[..], readFrame, usedFrames)
    }

    ghost function Stamps(): (q: seq<u64>)
      reads this, timestamps
      requires Valid() && receiving
      ensures |q| == usedFrames
    {
      Around(timestamps[..], readFrame, usedFrames)
    }

    ghost function View(): Fifo
      reads this, samples, timestamps
      requires Valid() && receiving
    {
      Fifo(Queue(), Stamps(), droppedFrames, overruns)
    }

    constructor (receiving: bool, channelMap: seq<nat>, queuePeriods: u32, blockSamples: u32)
      ensures Valid() && fresh(samples) && fresh(timestamps) && capacity == 0 && Queue() == []
      ensures this.receiving == receiving && this.channelMap == channelMap
      ensures this.queuePeriods == queuePeriods && this.blockSamples == blockSamples
      ensures droppedFrames == 0 && !enabled
    {
      this.receiving, this.channelMap := receiving, channelMap;
      this.queuePeriods, this.blockSamples := queuePeriods, blockSamples;
      samples, timestamps := new Frame[0], new u64[0];
      capacity, readFrame, usedFrames, configuredPeriod, sampleRate := 0, 0, 0, 0, 0;
      enabled := false;
      periods, overruns, underflows, droppedFrames := 0, 0, 0, 0;
    }

    /** Drop up to `frames` of the oldest frames. Consumed frames count as dropped too. */
    method Drop(frames: nat)
      requires Valid() && 0 < capacity
      modifies this`readFrame, this`usedFrames, this`droppedFrames
      ensures Valid()
      ensures var n := Min(frames, old(usedFrames));
              && Queue() == old(Queue())[n..]
              && (receiving ==> Stamps() == old(Stamps())[n..])
              && readFrame == Slot(old(readFrame), n, capacity)
              && droppedFrames == old(droppedFrames) + n
    {
      var n := Min(frames, usedFrames);
      DropFront(samples[..], readFrame, usedFrames, n);
      if receiving {
        DropFront(timestamps[..], readFrame, usedFrames, n);
      }
      readFrame := Slot(readFrame, n, capacity);
      usedFrames := usedFrames - n;
      droppedFrames := droppedFrames + n;
    }

    /** The copy loop of a write: frames go to the slots after the last used one. */
    method Append(frames: seq<Frame>)
      requires Valid() && usedFrames + |frames| <= capacity
      modifies this`usedFrames, samples
      ensures Valid() && Queue() == old(Queue()) + frames
    {
      for i := 0 to |frames|
        invariant Valid() && usedFrames == old(usedFrames)
        invariant Around(samples[..], readFrame, usedFrames + i) == old(Queue()) + frames[..i]
      {
        var slot := Slot(readFrame, usedFrames + i, capacity);
        ghost var store := samples[..];
        PutBack(store, readFrame, usedFrames + i, frames[i]);
        samples[slot] := frames[i];
        assert samples[..] == store[slot := frames[i]];
        assert frames[..i + 1] == frames[..i] + [frames[i]];
      }
      usedFrames := usedFrames + |frames|;
    }

    /** Make room for `frames` more by dropping the oldest. */
    method MakeRoom(frames: nat)
      requires Valid() && 0 < frames <= capacity
      modifies this`readFrame, this`usedFrames, this`droppedFrames, this`overruns
      ensures Valid()
      ensures var n := Max(0, old(usedFrames) + frames - capacity);
              && Queue() == old(Queue())[n..]
              && (receiving ==> Stamps() == old(Stamps())[n..])
              && readFrame == Slot(old(readFrame), n, capacity) && usedFrames == old(usedFrames) - n
              && droppedFrames == old(droppedFrames) + n
              && overruns == old(overruns) + One(n > 0)
    {
      SlotSame(readFrame, capacity);
      if frames > capacity - usedFrames {
        Drop(frames - (capacity - usedFrames));
        overruns := overruns + 1;
      }
    }

    /** Skip what can never fit, make room for the rest, copy it in. */
    method AppendNewest(frames: seq<Frame>)
      requires Valid() && frames != [] && 0 < capacity
      modifies this`readFrame, this`usedFrames, this`droppedFrames, this`overruns, samples
      ensures Valid() && Queue() == Pushed(capacity, old(Queue()), frames)
      ensures droppedFrames == old(droppedFrames) + Excess(capacity, old(usedFrames), |frames|)
      ensures overruns == old(overruns) + One(|frames| > capacity) +
                          One(old(usedFrames) + Min(|frames|, capacity) > capacity)
    {
      PushedParts(capacity, Queue(), frames);
      PushedCounts(capacity, usedFrames, |frames|);
      hide Pushed, Excess, Min, Max, One;
      var skip := if |frames| > capacity then |frames| - capacity else 0;
      if skip > 0 {
        overruns := overruns + 1;
        droppedFrames := droppedFrames + skip;
      }
      MakeRoom(|frames| - skip);
      Append(frames[skip..]);
    }

    /** Frames from the application: the queue keeps the newest that fit. */
    method Write(frames: seq<Frame>) returns (r: Result)
      requires Valid() && |frames| < U32
      modifies this`readFrame, this`usedFrames, this`droppedFrames, this`overruns, samples
      ensures Valid()
      ensures r == if receiving || frames == [] then Error else if !enabled || capacity == 0 then Again else Ok
      ensures Queue() == if r.Ok? then Pushed(capacity, old(Queue()), frames) else old(Queue())
      ensures old(usedFrames) + old(droppedFrames) + (if r.Ok? then |frames| else 0) == usedFrames + droppedFrames
      ensures overruns == old(overruns) + if r.Ok? then
                One(|frames| > capacity) + One(old(usedFrames) + Min(|frames|, capacity) > capacity) else 0
    {
      if receiving || frames == [] {
        return Error;
      }
      if !enabled || capacity == 0 {
        return Again;
      }
      AppendNewest(frames);
      return Ok;
    }

    /** A block for the application, once the wait for it is over: the oldest frames, or nothing. */
    method Read() returns (r: Result, frames: seq<Frame>, pts: u64, rate: u32)
      requires Valid() && |channelMap| < U32
      modifies this`readFrame, this`usedFrames, this`droppedFrames
      ensures Valid()
      ensures var wanted := if blockSamples != 0 then blockSamples else configuredPeriod;
              && (r == if !receiving then Error
                       else if !enabled || wanted == 0 || old(usedFrames) < wanted then Timeout
                       else if wanted * |channelMap| > SIZE_MAX / 4 then Error
                       else Ok)
              && (if r.Ok?
                  then frames == old(Queue())[..wanted] && Queue() == old(Queue())[wanted..] &&
                       pts == old(Stamps())[0] && Stamps() == old(Stamps())[wanted..] && rate == sampleRate
                  else frames == [] && Queue() == old(Queue()) && (receiving ==> Stamps() == old(Stamps())))
      ensures old(usedFrames) + old(droppedFrames) == usedFrames + droppedFrames
    {
      frames, pts, rate := [], 0, 0;
      if !receiving {
        return Error, frames, pts, rate;
      }
      var wanted := if blockSamples != 0 then blockSamples else configuredPeriod;
      if !enabled || wanted == 0 || usedFrames < wanted {
        return Timeout, frames, pts, rate;
      }
      if wanted * |channelMap| > SIZE_MAX / 4 {
        return Error, frames, pts, rate;
      }
      SlotSame(readFrame, capacity);
      hide Slot;
      pts, rate := timestamps[readFrame], sampleRate;
      for i := 0 to wanted
        invariant frames == Queue()[..i]
      {
        frames := frames + [samples[Slot(readFrame, i, capacity)]];
      }
      Drop(wanted);
      r := Ok;
    }

    /** Size the buffers for a period length; the queue is emptied only if that changes. */
    method Prepare(period: u32, rate: u32) returns (ok: bool)
      requires Valid()
      modifies this`samples, this`timestamps, this`capacity, this`configuredPeriod
      modifies this`readFrame, this`usedFrames, this`sampleRate
      ensures Valid()
      ensures ok <==> 0 < FramesFor(period) <= SIZE_MAX / 8 && FramesFor(period) * |channelMap| <= SIZE_MAX / 4
      ensures ok ==> capacity == FramesFor(period) && configuredPeriod == period && sampleRate == rate
      ensures !ok ==>
                capacity == old(capacity) && configuredPeriod == old(configuredPeriod) && sampleRate == old(sampleRate)
      ensures ok && queuePeriods > 0 ==> period <= capacity
      ensures if ok && (old(capacity) != FramesFor(period) || old(configuredPeriod) != period)
              then Queue() == [] && fresh(samples) && (receiving ==> fresh(timestamps))
              else samples == old(samples) && timestamps == old(timestamps) &&
                   readFrame == old(readFrame) && usedFrames == old(usedFrames)
    {
      if queuePeriods > 0 {
        MulMonotone(period, 1, queuePeriods);
        assert queuePeriods * period == period * queuePeriods;
      }
      var frames := queuePeriods * period;
      if frames == 0 {
        return false;
      }
      if blockSamples > frames {
        frames := blockSamples;
      }
      if frames * |channelMap| > SIZE_MAX / 4 || frames > SIZE_MAX / 8 {
        return false;
      }
      if capacity != frames || configuredPeriod != period {
        samples := new Frame[frames];
        if receiving {
          timestamps := new u64[frames];
        }
        capacity, configuredPeriod, readFrame, usedFrames := frames, period, 0, 0;
      }
      sampleRate := rate;
      ok := true;
    }

    /** Room for the wanted periods and, if there are any, for a block. */
    function FramesFor(period: u32): (frames: nat)
      ensures frames == 0 <==> queuePeriods == 0 || period == 0
      ensures frames > 0 ==>
                && queuePeriods * period <= frames && blockSamples <= frames
                && (frames == queuePeriods * period || frames == blockSamples)
    {
      NonZeroProduct(queuePeriods, period);
      if queuePeriods * period == 0 then 0
      else if blockSamples > queuePeriods * period then blockSamples
      else queuePeriods * period
    }

    /** One frame of a period, its channels read one at a time. */
    method CopyFrame(g: Geometry, w: Writer, t: Timing, period: u64, start: nat, i: nat) returns (frame: Frame)
      requires ValidWriter(g, w) && ValidTiming(w, t, g.period, |channelMap|) && i < g.period
      requires forall c | 0 <= c < |channelMap| :: channelMap[c] < |w.start.planes|
      requires start == period * g.period % g.capacity
      ensures frame == CopiedFrame(g, w, t, channelMap, period, i)
    {
      frame := [];
      var ringSample := Slot(start, i, g.capacity);
      SamplePosition(g, period, start, i);
      for channel := 0 to |channelMap|
        invariant frame == CopiedFrame(g, w, t, channelMap, period, i)[..channel]
      {
        var ring := After(g, w, t.samples[i][channel]);
        frame := frame + [ring.planes[channelMap[channel]][ringSample]];
      }
    }

    /** Fill the slot `i` places after the last used one. */
    method PutFrame(i: nat, frame: Frame, stamp: u64)
      requires Valid() && receiving && usedFrames + i < capacity
      modifies samples, timestamps
      ensures Around(samples[..], readFrame, usedFrames + i + 1) ==
              old(Around(samples[..], readFrame, usedFrames + i)) + [frame]
      ensures Around(timestamps[..], readFrame, usedFrames + i + 1) ==
              old(Around(timestamps[..], readFrame, usedFrames + i)) + [stamp]
    {
      var slot := Slot(readFrame, usedFrames + i, capacity);
      PutBack(samples[..], readFrame, usedFrames + i, frame);
      PutBack(timestamps[..], readFrame, usedFrames + i, stamp);
      ghost var store, times := samples[..], timestamps[..];
      samples[slot] := frame;
      timestamps[slot] := stamp;
      assert samples[..] == store[slot := frame] && timestamps[..] == times[slot := stamp];
    }

    /** One turn of the copy loop: a frame, and its timestamp. */
    method CopyOne(g: Geometry, rate: u32, w: Writer, t: Timing, period: u64, pts: u64, start: nat, i: nat)
      requires Valid() && receiving && rate > 0 && usedFrames + i < capacity
      requires ValidWriter(g, w) && ValidTiming(w, t, g.period, |channelMap|) && i < g.period
      requires forall c | 0 <= c < |channelMap| :: channelMap[c] < |w.start.planes|
      requires start == period * g.period % g.capacity
      modifies samples, timestamps
      ensures Around(samples[..], readFrame, usedFrames + i + 1) ==
              old(Around(samples[..], readFrame, usedFrames + i)) + [CopiedFrame(g, w, t, channelMap, period, i)]
      ensures Around(timestamps[..], readFrame, usedFrames + i + 1) ==
              old(Around(timestamps[..], readFrame, usedFrames + i)) + [Stamp(pts, i, rate)]
    {
      var frame := CopyFrame(g, w, t, period, start, i);
      hide Slot, Around, CopiedFrame, ValidTiming, ValidWriter;
      var offset := SamplesToNs(i, rate);
      var stamp := if offset > MAX64 - pts then MAX64 else pts + offset;
      PutFrame(i, frame, stamp);
    }

    /** The copy loop of a receive: one frame at a time, its channels one at a time. */
    method CopyPeriod(g: Geometry, rate: u32, w: Writer, t: Timing, period: u64, pts: u64)
      requires Valid() && receiving && rate > 0 && usedFrames + g.period <= capacity
      requires ValidWriter(g, w) && ValidTiming(w, t, g.period, |channelMap|)
      requires forall c | 0 <= c < |channelMap| :: channelMap[c] < |w.start.planes|
      modifies this`usedFrames, samples, timestamps
      ensures Valid() && usedFrames == old(usedFrames) + g.period
      ensures Queue() == old(Queue()) + Copied(g, w, t, channelMap, period)
      ensures Stamps() == old(Stamps()) + StampsFrom(pts, g.period, rate)
    {
      assert 0 < g.period <= g.capacity;
      hide Slot, Around, CopiedFrame, ValidTiming, ValidWriter, Stamp, Copied, StampsFrom;
      var start := PeriodStart(period, g.period, g.capacity);
      ghost var copied, stamps := Copied(g, w, t, channelMap, period), StampsFrom(pts, g.period, rate);
      for i := 0 to g.period
        invariant Valid() && usedFrames == old(usedFrames)
        invariant Around(samples[..], readFrame, usedFrames + i) == old(Queue()) + copied[..i]
        invariant Around(timestamps[..], readFrame, usedFrames + i) == old(Stamps()) + stamps[..i]
      {
        OneMoreCopied(g, w, t, channelMap, period, i);
        OneMoreStamp(pts, g.period, rate, i);
        CopyOne(g, rate, w, t, period, pts, start, i);
      }
      usedFrames := usedFrames + g.period;
    }

    /** Room is made first, then the copy goes in behind what is left. */
    method CopyInto(g: Geometry, rate: u32, w: Writer, t: Timing, period: u64, pts: u64)
      requires Valid() && receiving && rate > 0 && g.period <= capacity
      requires ValidWriter(g, w) && ValidTiming(w, t, g.period, |channelMap|)
      requires forall c | 0 <= c < |channelMap| :: channelMap[c] < |w.start.planes|
      modifies this`readFrame, this`usedFrames, this`droppedFrames, this`overruns, samples, timestamps
      ensures Valid()
      ensures var copy, times := Copied(g, w, t, channelMap, period), StampsFrom(pts, g.period, rate);
              View() == Taken(capacity, old(View()), copy, times)
      ensures readFrame == Slot(old(readFrame), Excess(capacity, old(usedFrames), g.period), capacity)
    {
      hide Around, Slot, One, Copied, StampsFrom;
      MakeRoom(g.period);
      CopyPeriod(g, rate, w, t, period, pts);
    }

    /** The copy is in: keep it, or put the indices back to `read` and `used`. */
    method KeepOrRollBack(
      keep: bool, read: nat, used: nat, ghost f: Fifo, ghost copy: seq<Frame>, ghost times: seq<u64>)
      requires Valid() && receiving && |f.frames| == |f.stamps| == used <= capacity && |copy| == |times| <= capacity
      requires read < capacity && readFrame == Slot(read, Excess(capacity, used, |copy|), capacity)
      requires View() == Taken(capacity, f, copy, times)
      modifies this`readFrame, this`usedFrames, this`overruns
      ensures Valid()
      ensures View() == if keep then Taken(capacity, f, copy, times) else Torn(capacity, f, copy, times)
    {
      if !keep {
        RolledBack(samples[..], read, f.frames, copy, Excess(capacity, used, |copy|));
        RolledBack(timestamps[..], read, f.stamps, times, Excess(capacity, used, |copy|));
        readFrame, usedFrames := read, used;
        overruns := overruns + 1;
      }
    }

    /** Copy, then look at the period count again, and put the indices back if it has moved on. */
    method CopyAndCheck(g: Geometry, rate: u32, w: Writer, t: Timing, period: u64, pts: u64) returns (ok: bool)
      requires Valid() && receiving && rate > 0 && g.period <= capacity
      requires ValidWriter(g, w) && ValidTiming(w, t, g.period, |channelMap|)
      requires forall c | 0 <= c < |channelMap| :: channelMap[c] < |w.start.planes|
      modifies this`readFrame, this`usedFrames, this`droppedFrames, this`overruns, samples, timestamps
      ensures Valid()
      ensures ok <==> Present(g, w.start.count + t.last, period)
      ensures var copy, times := Copied(g, w, t, channelMap, period), StampsFrom(pts, g.period, rate);
              View() == if ok then Taken(capacity, old(View()), copy, times)
                        else Torn(capacity, old(View()), copy, times)
    {
      var originalRead, originalUsed := readFrame, usedFrames;
      CopyInto(g, rate, w, t, period, pts);
      var latest := After(g, w, t.last).count;
      ok := period + 1 <= latest && latest - period <= RingPeriods(g);
      KeepOrRollBack(ok, originalRead, originalUsed, old(View()),
                     Copied(g, w, t, channelMap, period), StampsFrom(pts, g.period, rate));
    }

    /** Take period `period` out of the shared ring while the writer goes on writing. With both
        checks passed the queue gains exactly the published frames. */
    method ReceivePeriod(g: Geometry, rate: u32, w: Writer, t: Timing, period: u64, pts: u64) returns (ok: bool)
      requires Valid() && receiving && rate > 0 && g.period <= capacity
      requires ValidWriter(g, w) && ValidTiming(w, t, g.period, |channelMap|)
      requires forall c | 0 <= c < |channelMap| :: channelMap[c] < |w.start.planes|
      requires w.start.count <= period
      modifies this`readFrame, this`usedFrames, this`droppedFrames, this`overruns, this`periods
      modifies samples, timestamps
      ensures Valid() && periods == old(periods) + One(ok)
      ensures ok <==> Present(g, w.start.count + t.first, period) && Present(g, w.start.count + t.last, period)
      ensures var times := StampsFrom(pts, g.period, rate);
              View() ==
              if ok then Taken(capacity, old(View()), PublishedFrames(g, w, channelMap, period), times)
              else if Present(g, w.start.count + t.first, period)
              then Torn(capacity, old(View()), Copied(g, w, t, channelMap, period), times)
              else old(View())
    {
      var latest := After(g, w, t.first).count;
      if latest < period + 1 || latest - period > RingPeriods(g) {
        return false;
      }
      assert Present(g, w.start.count + t.first, period);
      ok := CopyAndCheck(g, rate, w, t, period, pts);
      if ok {
        CopiedIsPublished(g, w, t, channelMap, period);
        periods := periods + 1;
      }
    }

    /** The sample of frame `i` in channel `c` that a period plays: silence past the queue's end. */
    ghost function Played(i: nat, c: nat): int
      reads this, samples
      requires Valid() && (i < usedFrames ==> c < |Queue()[i]|)
    {
      if i < usedFrames then Queue()[i][c] else 0
    }

    /** One frame into the ring, channel by channel. */
    method PlayFrame(tx: array2<int>, x: nat, i: nat)
      requires Valid() && x < tx.Length1 && Routed(channelMap, tx.Length0)
      requires i < usedFrames ==> |Queue()[i]| == |channelMap|
      modifies tx
      ensures forall c | 0 <= c < |channelMap| :: tx[channelMap[c], x] == Played(i, c)
      ensures forall p, y | 0 <= p < tx.Length0 && 0 <= y < tx.Length1 && (y != x || p !in channelMap) ::
                tx[p, y] == old(tx[p, y])
    {
      var available := i < usedFrames;
      var frame: Frame := [];
      if available {
        frame := samples[Slot(readFrame, i, capacity)];
      }
      for channel := 0 to |channelMap|
        invariant forall c | 0 <= c < channel :: tx[channelMap[c], x] == Played(i, c)
        invariant forall p, y | 0 <= p < tx.Length0 && 0 <= y < tx.Length1 && (y != x || p !in channelMap) ::
                    tx[p, y] == old(tx[p, y])
      {
        tx[channelMap[channel], x] := if available then frame[channel] else 0;
      }
    }

    /** Play one period at `start` in the ring. */
    method PlayPeriod(g: Geometry, tx: array2<int>, start: nat)
      requires Valid() && ValidGeometry(g) && start < g.capacity
      requires tx.Length1 == g.capacity && Routed(channelMap, tx.Length0)
      requires forall f | f in Queue() :: |f| == |channelMap|
      modifies tx
      ensures forall i, c | 0 <= i < g.period && 0 <= c < |channelMap| ::
                tx[channelMap[c], Slot(start, i, g.capacity)] == Played(i, c)
      ensures forall p, x | 0 <= p < tx.Length0 && 0 <= x < tx.Length1 &&
                            (p !in channelMap || Past(start, x, g.capacity) >= g.period) ::
                tx[p, x] == old(tx[p, x])
    {
      for i := 0 to g.period
        invariant forall j, c | 0 <= j < i && 0 <= c < |channelMap| ::
                    tx[channelMap[c], Slot(start, j, g.capacity)] == Played(j, c)
        invariant forall p, x | 0 <= p < tx.Length0 && 0 <= x < tx.Length1 &&
                                (p !in channelMap || Past(start, x, g.capacity) >= i) ::
                    tx[p, x] == old(tx[p, x])
      {
        var x := Slot(start, i, g.capacity);
        PastSlot(start, i, g.capacity);
        forall j | 0 <= j < i
          ensures Slot(start, j, g.capacity) != x
        {
          SlotsDiffer(start, j, i, g.capacity);
        }
        PlayFrame(tx, x, i);
      }
    }

    /** Hand period `period` to the transmit ring: a prefix of the queue, padded with silence, goes
        to the period's place (moved on by the lead), and leaves the queue. */
    method TransmitPeriod(g: Geometry, rate: u32, tx: array2<int>, leadUs: u32, period: u64)
      requires Valid() && ValidGeometry(g) && 0 < capacity
      requires tx.Length1 == g.capacity && Routed(channelMap, tx.Length0)
      requires forall f | f in Queue() :: |f| == |channelMap|
      modifies this`readFrame, this`usedFrames, this`droppedFrames, this`underflows, this`periods, tx
      ensures Valid()
      ensures var n := Min(g.period, old(usedFrames));
              Queue() == old(Queue())[n..] && droppedFrames == old(droppedFrames) + n
      ensures underflows == old(underflows) + One(old(usedFrames) < g.period) && periods == old(periods) + 1
      ensures forall i, c | 0 <= i < g.period && 0 <= c < |channelMap| ::
                tx[channelMap[c], Slot(TxStart(g, rate, leadUs, period), i, g.capacity)] == old(Played(i, c))
      ensures forall p, x | 0 <= p < tx.Length0 && 0 <= x < tx.Length1 &&
                            (p !in channelMap || Past(TxStart(g, rate, leadUs, period), x, g.capacity) >= g.period) ::
                tx[p, x] == old(tx[p, x])
    {
      hide TxStart, Slot, Around, Past, Routed, Played;
      var start := TxStart(g, rate, leadUs, period);
      PlayPeriod(g, tx, start);
      Consume(g.period);
    }

    /** The frames of one period leave the queue. */
    method Consume(period: u32)
      requires Valid() && 0 < capacity
      modifies this`readFrame, this`usedFrames, this`droppedFrames, this`underflows, this`periods
      ensures Valid()
      ensures var n := Min(period, old(usedFrames));
              Queue() == old(Queue())[n..] && droppedFrames == old(droppedFrames) + n
      ensures underflows == old(underflows) + One(old(usedFrames) < period) && periods == old(periods) + 1
    {
      var short := usedFrames < period;
      Drop(if usedFrames < period then usedFrames else period);
      if short {
        underflows := underflows + 1;
      }
      periods := periods + 1;
    }
  }

  lemma NonZeroProduct(a: nat, b: nat)
    ensures a * b == 0 <==> a == 0 || b == 0
  {
    if a > 0 && b > 0 {
      MulAtLeast(a, b);
    }
  }

  lemma OneMoreCopied(g: Geometry, w: Writer, t: Timing, map_: seq<nat>, p: nat, i: nat)
    requires ValidWriter(g, w) && ValidTiming(w, t, g.period, |map_|) && i < g.period
    requires forall c | 0 <= c < |map_| :: map_[c] < |w.start.planes|
    ensures var copied := Copied(g, w, t, map_, p);
            copied[..i + 1] == copied[..i] + [CopiedFrame(g, w, t, map_, p, i)]
  {
    hide CopiedFrame;
  }

  lemma OneMoreStamp(pts: u64, frames: u32, rate: u32, i: nat)
    requires rate > 0 && i < frames
    ensures var stamps := StampsFrom(pts, frames, rate); stamps[..i + 1] == stamps[..i] + [Stamp(pts, i, rate)]
  {
    hide Stamp;
  }

  /** Each channel has a plane of its own. */
  predicate Routed(channelMap: seq<nat>, planes: nat) {
    && (forall c | 0 <= c < |channelMap| :: channelMap[c] < planes)
    && (forall c, d | 0 <= c < d < |channelMap| :: channelMap[c] != channelMap[d])
  }

  /** How far `x` lies past `start` around the ring. */
  function Past(start: nat, x: nat, cap: nat): nat
    requires cap > 0
  {
    (x - start) % cap
  }

  lemma PastSlot(start: nat, i: nat, cap: nat)
    requires i < cap
    ensures Past(start, Slot(start, i, cap), cap) == i
  {
    Division(start + i, cap);
    assert Slot(start, i, cap) - start == i + cap * -((start + i) / cap);
    ModShift(i, cap, -((start + i) / cap));
    DivModIs(i, cap, 0, i);
  }

  /** Where a period starts in the transmit ring: its place in the ring, moved on by the lead. */
  function TxStart(g: Geometry, rate: u32, leadUs: u32, period: u64): (x: nat)
    requires ValidGeometry(g)
    ensures x < g.capacity && x == (period * g.period + leadUs * rate / 1_000_000) % g.capacity
  {
    ProductFits(leadUs, rate);
    var lead: u64 := leadUs * rate / 1_000_000;
    SumOfResidues(period * g.period, lead, g.capacity);
    (PeriodStart(period, g.period, g.capacity) + lead % g.capacity) % g.capacity
  }

  lemma SumOfDivisions(q: nat, r: nat, p: nat, s: nat, cap: nat)
    requires cap > 0
    ensures (r + s) % cap == (cap * q + r + (cap * p + s)) % cap
  {
    assert cap * q + r + (cap * p + s) == r + s + cap * (q + p);
    ModShift(r + s, cap, q + p);
  }

  lemma SumOfResidues(a: nat, b: nat, cap: nat)
    requires cap > 0
    ensures (a % cap + b % cap) % cap == (a + b) % cap
  {
    Division(a, cap);
    Division(b, cap);
    SumOfDivisions(a / cap, a % cap, b / cap, b % cap, cap);
  }

  lemma SlotSame(read: nat, cap: nat)
    requires read < cap
    ensures Slot(read, 0, cap) == read
  {
    DivModIs(read, cap, 0, read);
  }

  lemma SamplePosition(g: Geometry, p: nat, start: nat, i: nat)
    requires ValidGeometry(g) && start == p * g.period % g.capacity
    ensures Slot(start, i, g.capacity) == Position(g, p, i)
  {
    Division(p * g.period, g.capacity);
    ModShift(start + i, g.capacity, p * g.period / g.capacity);
  }

  /** The queue as it reads when, after dropping `n` of `queue` and adding `more`, the indices are
      put back: the slots of the dropped frames now hold the last of `more`. */
  lemma RolledBack<T>(store: seq<T>, read: nat, queue: seq<T>, more: seq<T>, n: nat)
    requires |queue| <= |store| && read < |store| && |more| <= |store|
    requires n == Max(0, |queue| + |more| - |store|)
    requires Around(store, Slot(read, n, |store|), |queue| + |more| - n) == queue[n..] + more
    ensures Around(store, read, |queue|) == more[|more| - n..] + queue[n..]
  {
    if n == 0 {
      SlotSame(read, |store|);
      var here, all := Around(store, read, |queue|), Around(store, read, |queue| + |more|);
      forall i | 0 <= i < |queue| ensures here[i] == queue[i] {
        assert here[i] == all[i];
      }
    } else {
      TurnBack(store, read, |queue|, n);
    }
  }
}
