/** The times of received frames: over every run, whatever the timing, a waiting frame carries the
    time of its place in the period that it was copied from. */
module DepStamps {
  import opened Words
  import opened DepRing
  import opened DepFifo
  import opened DepReceive

  /** Where a frame was copied from, and the time at which that period starts. */
  datatype Origin = Origin(period: u64, offset: u32, pts: u64)

  /** The time of frame `offset` of a period that starts at `pts`: rounded down, and held at the
      largest 64-bit value. */
  function TimeAt(pts: int, offset: int, rate: int): int
    requires rate > 0
  {
    var exact := pts + offset * 1_000_000_000 / rate;
    if exact < 0x1_0000_0000_0000_0000 then exact else 0xffff_ffff_ffff_ffff
  }

  function CopyOrigins(c: Link, period: u64, pts: u64): (o: seq<Origin>)
    ensures |o| == c.g.period
  {
    seq(c.g.period, i requires 0 <= i < c.g.period => Origin(period, i, pts))
  }

  /** What an event does to the waiting frames, told by their origins: a copy goes behind the
      newest that fit, or, taken back, leaves its end where frames had made room. */
  function OriginStep(c: Link, o: seq<Origin>, e: Intake): seq<Origin>
    requires ValidLink(c) && |o| <= c.cap
  {
    match e
    case Read(wanted) => if |o| < wanted then o else o[wanted..]
    case Receive(period, pts, _) =>
      var copy, n := CopyOrigins(c, period, pts), Excess(c.cap, |o|, c.g.period);
      if !Fresh(c, e) then o
      else if StillFresh(c, e) then o[n..] + copy
      else copy[|copy| - n..] + o[n..]
  }

  predicate StampsAre(stamps: seq<u64>, o: seq<Origin>, rate: u32)
    requires rate > 0
  {
    |stamps| == |o| && forall k | 0 <= k < |o| :: stamps[k] == TimeAt(o[k].pts, o[k].offset, rate)
  }

  /** The waiting frames have the times of their origins. */
  predicate Stamped(c: Link, s: Stage, o: seq<Origin>)
    requires ValidLink(c)
  {
    |o| == |s.fifo.frames| <= c.cap && StampsAre(s.fifo.stamps, o, c.rate)
  }

  function Origins(c: Link, events: seq<Intake>): (o: seq<Origin>)
    requires ValidLink(c)
    ensures |o| <= c.cap
    decreases |events|
  {
    if events == [] then [] else OriginStep(c, Origins(c, events[..|events| - 1]), events[|events| - 1])
  }

  lemma CopyStamped(c: Link, period: u64, pts: u64)
    requires ValidLink(c)
    ensures StampsAre(StampsFrom(pts, c.g.period, c.rate), CopyOrigins(c, period, pts), c.rate)
  {
  }

  lemma StampsJoin(a: seq<u64>, o: seq<Origin>, b: seq<u64>, p: seq<Origin>, rate: u32)
    requires rate > 0 && StampsAre(a, o, rate) && StampsAre(b, p, rate)
    ensures StampsAre(a + b, o + p, rate)
  {
    hide TimeAt;
  }

  lemma StampsDrop(a: seq<u64>, o: seq<Origin>, n: nat, rate: u32)
    requires rate > 0 && StampsAre(a, o, rate) && n <= |a|
    ensures StampsAre(a[n..], o[n..], rate)
  {
    hide TimeAt;
  }

  lemma StepStamped(c: Link, s: Stage, o: seq<Origin>, e: Intake)
    requires ValidLink(c) && ValidStage(c, s) && Possible(c, s, e) && Stamped(c, s, o)
    ensures Stamped(c, Step(c, s, e), OriginStep(c, o, e))
  {
    hide StampsAre, Copied, Present, StampsFrom, CopyOrigins, ValidTiming, ValidWriter;
    match e {
      case Read(wanted) =>
        if wanted <= |o| {
          StampsDrop(s.fifo.stamps, o, wanted, c.rate);
        }
      case Receive(period, pts, t) =>
        var copy, times := CopyOrigins(c, period, pts), StampsFrom(pts, c.g.period, c.rate);
        var n := Excess(c.cap, |o|, c.g.period);
        CopyStamped(c, period, pts);
        StampsDrop(s.fifo.stamps, o, n, c.rate);
        StampsDrop(times, copy, c.g.period - n, c.rate);
        StampsJoin(s.fifo.stamps[n..], o[n..], times, copy, c.rate);
        StampsJoin(times[c.g.period - n..], copy[c.g.period - n..], s.fifo.stamps[n..], o[n..], c.rate);
    }
  }

  /** Over every possible run, torn copies and full queues included, every waiting frame has the
      time of its origin. */
  lemma {:induction false} WaitingFramesAreStamped(c: Link, events: seq<Intake>)
    requires ValidLink(c) && Run(c, events).Some?
    ensures Stamped(c, Run(c, events).value, Origins(c, events))
    decreases |events|
  {
    if events != [] {
      var before := events[..|events| - 1];
      WaitingFramesAreStamped(c, before);
      StepStamped(c, Run(c, before).value, Origins(c, before), events[|events| - 1]);
    }
  }

  /** The origin is a place in a period that this event copied. */
  predicate CopiedBy(c: Link, e: Intake, o: Origin)
    requires ValidLink(c)
  {
    e.Receive? && Fresh(c, e) && e.period == o.period && e.pts == o.pts && o.offset < c.g.period
  }

  /** Every origin belongs to an event of the run. */
  lemma {:induction false} OriginsWereCopied(c: Link, events: seq<Intake>, k: nat)
    requires ValidLink(c) && k < |Origins(c, events)|
    ensures exists j :: 0 <= j < |events| && CopiedBy(c, events[j], Origins(c, events)[k])
    decreases |events|
  {
    hide Present;
    var last := |events| - 1;
    var before, e := events[..last], events[last];
    var o, o' := Origins(c, before), Origins(c, events);
    if CopiedBy(c, e, o'[k]) {
    } else {
      var i := OriginBefore(c, o, e, k);
      OriginsWereCopied(c, before, i);
      var j :| 0 <= j < |before| && CopiedBy(c, before[j], o[i]);
      assert events[j] == before[j];
    }
  }

  lemma OriginBefore(c: Link, o: seq<Origin>, e: Intake, k: nat) returns (i: nat)
    requires ValidLink(c) && |o| <= c.cap && k < |OriginStep(c, o, e)|
    requires !CopiedBy(c, e, OriginStep(c, o, e)[k])
    ensures i < |o| && OriginStep(c, o, e)[k] == o[i]
  {
    match e {
      case Read(wanted) => i := if |o| < wanted then k else k + wanted;
      case Receive(period, pts, t) =>
        var n := Excess(c.cap, |o|, c.g.period);
        i := if Fresh(c, e) && StillFresh(c, e) then k + n else k;
    }
  }

  predicate FramesAre(c: Link, frames: seq<Frame>, o: seq<Origin>)
    requires ValidLink(c)
  {
    |frames| == |o| && forall k | 0 <= k < |o| :: FrameIs(c, frames[k], o[k])
  }

  /** The frame at each origin, as it was published. */
  predicate AsPublished(c: Link, s: Stage, o: seq<Origin>)
    requires ValidLink(c)
  {
    FramesAre(c, s.fifo.frames, o)
  }

  predicate FrameIs(c: Link, frame: Frame, o: Origin)
    requires ValidLink(c)
  {
    && c.w.start.count <= o.period < c.w.start.count + |c.w.published| && o.offset < c.g.period
    && frame == PublishedFrames(c.g, c.w, c.channels, o.period)[o.offset]
  }

  lemma FramesJoin(c: Link, a: seq<Frame>, o: seq<Origin>, b: seq<Frame>, p: seq<Origin>)
    requires ValidLink(c) && FramesAre(c, a, o) && FramesAre(c, b, p)
    ensures FramesAre(c, a + b, o + p)
  {
    hide FrameIs;
  }

  lemma FramesDrop(c: Link, a: seq<Frame>, o: seq<Origin>, n: nat)
    requires ValidLink(c) && FramesAre(c, a, o) && n <= |a|
    ensures FramesAre(c, a[n..], o[n..])
  {
    hide FrameIs;
  }

  lemma TakenPublished(c: Link, s: Stage, o: seq<Origin>, e: Intake)
    requires ValidLink(c) && ValidStage(c, s) && Possible(c, s, e) && AsPublished(c, s, o)
    requires Fresh(c, e) && StillFresh(c, e)
    ensures AsPublished(c, Step(c, s, e), OriginStep(c, o, e))
  {
    CopiedIsPublished(c.g, c.w, e.t, c.channels, e.period);
    CopyPublished(c, e.period, e.pts);
    hide FramesAre, Copied, PublishedFrames, CopyOrigins, StampsFrom, ValidTiming, Present;
    var copy, frames := CopyOrigins(c, e.period, e.pts), PublishedFrames(c.g, c.w, c.channels, e.period);
    assert |o| == |s.fifo.frames| by {
      SameLength(c, s.fifo.frames, o);
    }
    var n := Excess(c.cap, |o|, c.g.period);
    FramesDrop(c, s.fifo.frames, o, n);
    FramesJoin(c, s.fifo.frames[n..], o[n..], frames, copy);
  }

  lemma SameLength(c: Link, frames: seq<Frame>, o: seq<Origin>)
    requires ValidLink(c) && FramesAre(c, frames, o)
    ensures |frames| == |o|
  {
  }

  lemma StepPublished(c: Link, s: Stage, o: seq<Origin>, e: Intake)
    requires ValidLink(c) && ValidStage(c, s) && Possible(c, s, e) && AsPublished(c, s, o) && !TornFull(c, s, e)
    ensures AsPublished(c, Step(c, s, e), OriginStep(c, o, e))
  {
    SameLength(c, s.fifo.frames, o);
    hide FramesAre, Copied, CopyOrigins, StampsFrom, ValidTiming, Present;
    match e {
      case Read(wanted) =>
        if wanted <= |o| {
          FramesDrop(c, s.fifo.frames, o, wanted);
        }
      case Receive(period, pts, t) =>
        if Fresh(c, e) && StillFresh(c, e) {
          TakenPublished(c, s, o, e);
        } else if Fresh(c, e) {
          RoomKeeps(c.cap, s.fifo, Copied(c.g, c.w, t, c.channels, period), StampsFrom(pts, c.g.period, c.rate));
          assert CopyOrigins(c, period, pts)[c.g.period..] + o[0..] == o;
        }
    }
  }

  lemma CopyPublished(c: Link, period: u64, pts: u64)
    requires ValidLink(c) && c.w.start.count <= period < c.w.start.count + |c.w.published|
    ensures var frames, o := PublishedFrames(c.g, c.w, c.channels, period), CopyOrigins(c, period, pts);
            FramesAre(c, frames, o)
  {
    hide PublishedFrames;
  }

  /** As long as no copy is taken back from a queue without room, every waiting frame is the
      published one at its origin, and so has the time of that very frame. */
  lemma {:induction false} WaitingFramesArePublished(c: Link, events: seq<Intake>)
    requires ValidLink(c) && Run(c, events).Some? && RoomWhenTorn(c, events)
    ensures AsPublished(c, Run(c, events).value, Origins(c, events))
    decreases |events|
  {
    if events != [] {
      var before := events[..|events| - 1];
      WaitingFramesArePublished(c, before);
      StepPublished(c, Run(c, before).value, Origins(c, before), events[|events| - 1]);
    }
  }

  /** A block read next comes with the time of its first frame: frame `offset` of a published
      period that was received with time `pts`. */
  lemma BlockHasItsTime(c: Link, events: seq<Intake>)
    requires ValidLink(c) && Run(c, events).Some? && RoomWhenTorn(c, events)
    requires |Run(c, events).value.fifo.frames| > 0
    ensures var f, o := Run(c, events).value.fifo, Origins(c, events);
            && |o| > 0 && FrameIs(c, f.frames[0], o[0])
            && (exists j :: 0 <= j < |events| && CopiedBy(c, events[j], o[0]))
            && f.stamps[0] == TimeAt(o[0].pts, o[0].offset, c.rate)
  {
    WaitingFramesAreStamped(c, events);
    WaitingFramesArePublished(c, events);
    OriginsWereCopied(c, events, 0);
  }
}
