/** A receive endpoint over a whole run of received periods and reads, at one queue size and with
    one writer, whatever the timing. Both methods of the endpoint are proved to take the steps of
    the run. */
module DepReceive {
  import opened Words
  import opened Circular
  import opened DepRing
  import opened DepFifo
  import opened Subsequences

  /** What stays the same: the ring and its writer, the endpoint's channels and its queue size. */
  datatype Link = Link(g: Geometry, w: Writer, channels: seq<nat>, rate: u32, cap: nat)

  predicate ValidLink(c: Link) {
    && ValidWriter(c.g, c.w) && c.g.period <= c.cap && c.rate > 0
    && forall k | 0 <= k < |c.channels| :: c.channels[k] < |c.w.start.planes|
  }

  /** A period with the time of its start and the moments of its reads, or a block read. */
  datatype Intake = Receive(period: u64, pts: u64, t: Timing) | Read(wanted: nat)

  /** `handed` is every frame given to the application, `next` one past the last period tried. */
  datatype Stage = Stage(fifo: Fifo, handed: seq<Frame>, next: nat)

  predicate ValidStage(c: Link, s: Stage) {
    |s.fifo.frames| == |s.fifo.stamps| <= c.cap
  }

  /** Periods are tried in increasing order, from the writer's first on. */
  predicate Possible(c: Link, s: Stage, e: Intake)
    requires ValidLink(c)
  {
    e.Receive? ==>
      ValidTiming(c.w, e.t, c.g.period, |c.channels|) && c.w.start.count <= e.period && s.next <= e.period
  }

  predicate Fresh(c: Link, e: Intake)
    requires ValidLink(c)
  {
    e.Receive? && Present(c.g, c.w.start.count + e.t.first, e.period)
  }

  predicate StillFresh(c: Link, e: Intake)
    requires ValidLink(c)
  {
    e.Receive? && Present(c.g, c.w.start.count + e.t.last, e.period)
  }

  function Step(c: Link, s: Stage, e: Intake): (t: Stage)
    requires ValidLink(c) && ValidStage(c, s) && Possible(c, s, e)
    ensures ValidStage(c, t)
  {
    match e
    case Receive(period, pts, t) =>
      var copy, times := Copied(c.g, c.w, t, c.channels, period), StampsFrom(pts, c.g.period, c.rate);
      var fifo := if !Fresh(c, e) then s.fifo
                  else if StillFresh(c, e) then Taken(c.cap, s.fifo, copy, times)
                  else Torn(c.cap, s.fifo, copy, times);
      Stage(fifo, s.handed, period + 1)
    case Read(wanted) =>
      if |s.fifo.frames| < wanted then s
      else
        Stage(s.fifo.(frames := s.fifo.frames[wanted..], stamps := s.fifo.stamps[wanted..],
                      dropped := s.fifo.dropped + wanted),
              s.handed + s.fifo.frames[..wanted], s.next)
  }

  /** A copy that is taken back although the queue had to make room for it. */
  predicate TornFull(c: Link, s: Stage, e: Intake)
    requires ValidLink(c)
  {
    Fresh(c, e) && !StillFresh(c, e) && |s.fifo.frames| + c.g.period > c.cap
  }

  const EMPTY := Stage(Fifo([], [], 0, 0), [], 0)

  /** The stage after a possible run; none after an impossible one. */
  function Run(c: Link, events: seq<Intake>): (s: Option<Stage>)
    requires ValidLink(c)
    ensures s.Some? ==> ValidStage(c, s.value)
    decreases |events|
  {
    if events == [] then Some(EMPTY)
    else
      var s, e := Run(c, events[..|events| - 1]), events[|events| - 1];
      if s.Some? && Possible(c, s.value, e) then Some(Step(c, s.value, e)) else None
  }

  /** No copy is taken back from a queue without room for it. */
  predicate RoomWhenTorn(c: Link, events: seq<Intake>)
    requires ValidLink(c)
    decreases |events|
  {
    events == [] ||
    (var before := events[..|events| - 1];
     && RoomWhenTorn(c, before)
     && (Run(c, before).Some? ==> !TornFull(c, Run(c, before).value, events[|events| - 1])))
  }

  /** The frames of the writer's first `n` periods, in order. */
  function PublishedUpTo(c: Link, n: nat): seq<Frame>
    requires ValidLink(c) && n <= |c.w.published|
  {
    if n == 0 then []
    else PublishedUpTo(c, n - 1) + PublishedFrames(c.g, c.w, c.channels, c.w.start.count + n - 1)
  }

  lemma {:induction false} UpToMore(c: Link, m: nat, n: nat)
    requires ValidLink(c) && m <= n <= |c.w.published|
    ensures exists more :: PublishedUpTo(c, n) == PublishedUpTo(c, m) + more
    decreases n
  {
    if m == n {
      assert PublishedUpTo(c, n) == PublishedUpTo(c, m) + [];
    } else {
      UpToMore(c, m, n - 1);
      var more :| PublishedUpTo(c, n - 1) == PublishedUpTo(c, m) + more;
      var last := PublishedFrames(c.g, c.w, c.channels, c.w.start.count + n - 1);
      assert PublishedUpTo(c, n) == PublishedUpTo(c, m) + (more + last);
    }
  }

  /** A selection of the earlier periods is one of the later, too. */
  lemma SelectedMore(c: Link, part: seq<Frame>, m: nat, n: nat)
    requires ValidLink(c) && m <= n <= |c.w.published| && Subsequence(part, PublishedUpTo(c, m))
    ensures Subsequence(part, PublishedUpTo(c, n))
  {
    UpToMore(c, m, n);
    var more :| PublishedUpTo(c, n) == PublishedUpTo(c, m) + more;
    SubsequenceMore(part, PublishedUpTo(c, m), more);
  }

  /** How many of the writer's periods lie before `next`. */
  function Behind(c: Link, next: nat): (n: nat)
    ensures n <= |c.w.published|
  {
    if next <= c.w.start.count then 0 else Min(next - c.w.start.count, |c.w.published|)
  }

  /** What was handed out and what waits is a selection, in order, of what was published. */
  predicate InOrder(c: Link, s: Stage)
    requires ValidLink(c)
  {
    Subsequence(s.handed + s.fifo.frames, PublishedUpTo(c, Behind(c, s.next)))
  }

  /** Making room in the queue and putting new elements behind it keeps the order. */
  lemma QueueMoves<T>(handed: seq<T>, queue: seq<T>, n: nat, copy: seq<T>, all: seq<T>)
    requires Subsequence(handed + queue, all) && n <= |queue|
    ensures Subsequence(handed + (queue[n..] + copy), all + copy)
  {
    hide Subsequence;
    SubsequenceDrop(handed, queue, n, all);
    SubsequenceBoth(handed + queue[n..], all, copy);
    assert handed + (queue[n..] + copy) == handed + queue[n..] + copy;
  }

  lemma TakenInOrder(c: Link, s: Stage, e: Intake)
    requires ValidLink(c) && ValidStage(c, s) && Possible(c, s, e) && InOrder(c, s)
    requires Fresh(c, e) && StillFresh(c, e)
    ensures InOrder(c, Step(c, s, e))
  {
    var p := e.period;
    var k := p - c.w.start.count;
    CopiedIsPublished(c.g, c.w, e.t, c.channels, p);
    BehindNext(c, s, e);
    hide Copied, PublishedFrames, Present, ValidTiming, Subsequence, ValidWriter, StampsFrom, Behind;
    var copy := PublishedFrames(c.g, c.w, c.channels, p);
    SelectedMore(c, s.handed + s.fifo.frames, Behind(c, s.next), k);
    QueueMoves(s.handed, s.fifo.frames, Excess(c.cap, |s.fifo.frames|, |copy|), copy, PublishedUpTo(c, k));
  }

  lemma BehindNext(c: Link, s: Stage, e: Intake)
    requires ValidLink(c) && Possible(c, s, e) && StillFresh(c, e)
    ensures var k := e.period - c.w.start.count;
            0 <= k < |c.w.published| && Behind(c, s.next) <= k && Behind(c, e.period + 1) == k + 1
  {
  }

  /** The same frames after a period that was not taken. */
  lemma SameInOrder(c: Link, s: Stage, t: Stage)
    requires ValidLink(c) && InOrder(c, s) && t.handed == s.handed && t.fifo.frames == s.fifo.frames && s.next <= t.next
    ensures InOrder(c, t)
  {
    SelectedMore(c, s.handed + s.fifo.frames, Behind(c, s.next), Behind(c, t.next));
  }

  lemma ReadInOrder(c: Link, s: Stage, wanted: nat)
    requires ValidLink(c) && ValidStage(c, s) && InOrder(c, s)
    ensures InOrder(c, Step(c, s, Read(wanted)))
  {
    hide Subsequence, PublishedUpTo;
    if wanted <= |s.fifo.frames| {
      assert s.handed + s.fifo.frames[..wanted] + s.fifo.frames[wanted..] == s.handed + s.fifo.frames;
    }
  }

  lemma StepInOrder(c: Link, s: Stage, e: Intake)
    requires ValidLink(c) && ValidStage(c, s) && Possible(c, s, e) && InOrder(c, s) && !TornFull(c, s, e)
    ensures InOrder(c, Step(c, s, e))
  {
    hide InOrder, Copied, ValidTiming, Torn, Taken, StampsFrom, Present;
    match e {
      case Read(wanted) => ReadInOrder(c, s, wanted);
      case Receive(period, pts, t) =>
        if Fresh(c, e) && StillFresh(c, e) {
          TakenInOrder(c, s, e);
        } else {
          if Fresh(c, e) {
            RoomKeeps(c.cap, s.fifo, Copied(c.g, c.w, t, c.channels, period), StampsFrom(pts, c.g.period, c.rate));
          }
          SameInOrder(c, s, Step(c, s, e));
        }
    }
  }

  /** Over every run of periods received and blocks read, at whatever moments the copy loop reads
      its samples: the frames handed out, and those still waiting, are an in-order subsequence of
      what was published, as long as no copy is taken back from a queue without room for it. */
  lemma {:induction false} HandsOutInOrder(c: Link, events: seq<Intake>)
    requires ValidLink(c) && Run(c, events).Some? && RoomWhenTorn(c, events)
    ensures InOrder(c, Run(c, events).value)
    ensures Subsequence(Run(c, events).value.handed, PublishedUpTo(c, |c.w.published|))
    decreases |events|
  {
    var s := Run(c, events).value;
    if events != [] {
      var before := events[..|events| - 1];
      HandsOutInOrder(c, before);
      StepInOrder(c, Run(c, before).value, events[|events| - 1]);
    }
    SelectedMore(c, s.handed + s.fifo.frames, Behind(c, s.next), |c.w.published|);
    SubsequencePrefix(s.handed + s.fifo.frames, PublishedUpTo(c, |c.w.published|), |s.handed|);
    assert (s.handed + s.fifo.frames)[..|s.handed|] == s.handed;
  }

  /** The frames of the periods taken so far, in order. */
  function TakenFrames(c: Link, events: seq<Intake>): seq<Frame>
    requires ValidLink(c)
    decreases |events|
  {
    if events == [] then []
    else
      var before, e := TakenFrames(c, events[..|events| - 1]), events[|events| - 1];
      if Fresh(c, e) && StillFresh(c, e) && c.w.start.count <= e.period < c.w.start.count + |c.w.published|
      then before + PublishedFrames(c.g, c.w, c.channels, e.period) else before
  }

  /** Nothing taken is missing: it was handed out or waits, and what was dropped was handed out. */
  predicate Lossless(c: Link, s: Stage, taken: seq<Frame>) {
    s.handed + s.fifo.frames == taken && s.fifo.dropped == |s.handed|
  }

  lemma StepLossless(c: Link, s: Stage, e: Intake, taken: seq<Frame>)
    requires ValidLink(c) && ValidStage(c, s) && Possible(c, s, e) && Lossless(c, s, taken)
    requires Step(c, s, e).fifo.overruns == s.fifo.overruns
    ensures Lossless(c, Step(c, s, e),
                     if Fresh(c, e) && StillFresh(c, e) then taken + PublishedFrames(c.g, c.w, c.channels, e.period)
                     else taken)
  {
    match e {
      case Read(wanted) =>
        if wanted <= |s.fifo.frames| {
          assert s.handed + s.fifo.frames[..wanted] + s.fifo.frames[wanted..] == s.handed + s.fifo.frames;
        }
      case Receive(period, pts, t) =>
        if Fresh(c, e) && StillFresh(c, e) {
          CopiedIsPublished(c.g, c.w, t, c.channels, period);
          hide Copied, PublishedFrames, StampsFrom, Present, ValidTiming;
          var copy := PublishedFrames(c.g, c.w, c.channels, period);
          assert s.fifo.frames[0..] == s.fifo.frames;
          assert s.handed + (s.fifo.frames + copy) == s.handed + s.fifo.frames + copy;
        }
    }
  }

  lemma OverrunsGrow(c: Link, s: Stage, e: Intake)
    requires ValidLink(c) && ValidStage(c, s) && Possible(c, s, e)
    ensures var t := Step(c, s, e);
            && t.fifo.overruns >= s.fifo.overruns
            && (t.fifo.overruns > s.fifo.overruns <==>
                  Fresh(c, e) && (!StillFresh(c, e) || |s.fifo.frames| + c.g.period > c.cap))
  {
    hide Copied, StampsFrom, Present, ValidTiming;
  }

  /** The overrun count grows exactly when a copy is taken back or frames have to make room for one,
      and as long as it is zero nothing received is lost. */
  lemma {:induction false} NoOverrunNoLoss(c: Link, events: seq<Intake>)
    requires ValidLink(c) && Run(c, events).Some? && Run(c, events).value.fifo.overruns == 0
    ensures Lossless(c, Run(c, events).value, TakenFrames(c, events))
    decreases |events|
  {
    if events != [] {
      var before, e := events[..|events| - 1], events[|events| - 1];
      OverrunsGrow(c, Run(c, before).value, e);
      hide Fresh, StillFresh, Step, Lossless;
      NoOverrunNoLoss(c, before);
      StepLossless(c, Run(c, before).value, e, TakenFrames(c, before));
    }
  }

  // The hypothesis is needed.

  /** A ring of one sample, a queue of one frame, and the samples 5, 6 and 7. */
  const SMALL := Link(Geometry(1, 1), Writer(Shared(0, [[0]]), [[[5]], [[6]], [[7]]]), [0], 48000, 1)

  /** Period `p`, checked after `first` publications, read and checked again after `last`. */
  function Try(p: u64, first: nat, last: nat): Intake {
    Receive(p, 0, Timing(first, [[last]], last))
  }

  /** Period 1 is gone by the time it is read; the copy, of period 2, is taken back from the full
      queue and takes the place of period 0. */
  const REPEATS := [Try(0, 1, 1), Try(1, 2, 3), Read(1), Try(2, 3, 3), Read(1)]

  lemma SmallLink()
    ensures ValidLink(SMALL)
  {
    assert ShapedPlanes(SMALL.w.start.planes, 1, 1);
  }

  lemma SmallRing(p: nat, n: nat)
    requires 1 <= n <= 3
    ensures ValidLink(SMALL) && Position(SMALL.g, p, 0) == 0
    ensures After(SMALL.g, SMALL.w, n).planes[0][0] == 4 + n
  {
    SmallLink();
    PeriodIntact(SMALL.g, SMALL.w, n, n - 1, 0, 0);
  }

  lemma SmallSeen(p: u64, last: nat)
    requires 1 <= last <= 3 && ValidLink(SMALL)
    ensures Seen(SMALL.g, SMALL.w, last, 0, p, 0) == 4 + last
  {
    hide After, Position;
    SmallRing(p, last);
  }

  lemma SmallFrame(t: Timing, p: u64, last: nat)
    requires 1 <= t.first <= last <= 3 && ValidLink(SMALL) && t.samples == [[last]] && t.last == last
    ensures ValidTiming(SMALL.w, t, 1, 1) && CopiedFrame(SMALL.g, SMALL.w, t, [0], p, 0) == [4 + last]
  {
    SmallSeen(p, last);
    hide Seen, ValidWriter;
  }

  lemma SmallCopy(p: u64, first: nat, last: nat)
    requires 1 <= first <= last <= 3 && ValidLink(SMALL)
    ensures var t := Try(p, first, last).t;
            ValidTiming(SMALL.w, t, 1, 1) && Copied(SMALL.g, SMALL.w, t, [0], p) == [[4 + last]]
  {
    SmallFrame(Try(p, first, last).t, p, last);
    hide CopiedFrame, ValidWriter;
  }

  predicate At(o: Option<Stage>, queue: seq<Frame>, handed: seq<Frame>, next: nat) {
    && o.Some? && o.value.fifo.frames == queue && |o.value.fifo.stamps| == |queue|
    && o.value.handed == handed && o.value.next == next
  }

  lemma TryStep(s: Stage, p: u64, first: nat, last: nat)
    requires ValidLink(SMALL) && ValidStage(SMALL, s) && s.next <= p && 1 <= first <= last <= 3
    ensures Possible(SMALL, s, Try(p, first, last))
    ensures p + 1 == first ==> At(Some(Step(SMALL, s, Try(p, first, last))), [[4 + last]], s.handed, p + 1) ||
                               s.fifo.frames == []
    ensures p + 1 == first == last ==> At(Some(Step(SMALL, s, Try(p, first, last))), [[4 + last]], s.handed, p + 1)
  {
    SmallCopy(p, first, last);
    hide Copied, StampsFrom, ValidTiming;
  }

  lemma RunMore(c: Link, events: seq<Intake>, k: nat)
    requires ValidLink(c) && k < |events|
    ensures var s := Run(c, events[..k]);
            Run(c, events[..k + 1]) ==
            if s.Some? && Possible(c, s.value, events[k]) then Some(Step(c, s.value, events[k])) else None
  {
    hide Step, Possible;
    assert events[..k + 1][..k] == events[..k];
  }

  lemma FirstOne()
    ensures ValidLink(SMALL) && At(Run(SMALL, REPEATS[..1]), [[5]], [], 1)
  {
    SmallRing(0, 1);
    assert REPEATS[..1] == [Try(0, 1, 1)] && [Try(0, 1, 1)][..0] == [];
    assert Run(SMALL, []) == Some(EMPTY);
    hide Try, ValidLink, Possible, Step;
    TryStep(EMPTY, 0, 1, 1);
  }

  lemma FirstTwo()
    ensures ValidLink(SMALL) && At(Run(SMALL, REPEATS[..2]), [[7]], [], 2)
  {
    FirstOne();
    RunMore(SMALL, REPEATS, 1);
    assert REPEATS[1] == Try(1, 2, 3);
    hide Run, Try, ValidLink, Possible, Step, REPEATS;
    TryStep(Run(SMALL, REPEATS[..1]).value, 1, 2, 3);
  }

  lemma FirstThree()
    ensures ValidLink(SMALL) && At(Run(SMALL, REPEATS[..3]), [], [[7]], 2)
  {
    FirstTwo();
    RunMore(SMALL, REPEATS, 2);
    assert REPEATS[2] == Read(1);
    hide Run, Try, ValidLink, Possible, Step, REPEATS;
    ReadOne(Run(SMALL, REPEATS[..2]).value, [7]);
  }

  lemma FirstFour()
    ensures ValidLink(SMALL) && At(Run(SMALL, REPEATS[..4]), [[7]], [[7]], 3)
  {
    FirstThree();
    RunMore(SMALL, REPEATS, 3);
    assert REPEATS[3] == Try(2, 3, 3);
    hide Run, Try, ValidLink, Possible, Step, REPEATS;
    TryStep(Run(SMALL, REPEATS[..3]).value, 2, 3, 3);
  }

  lemma RepeatsRun()
    ensures ValidLink(SMALL) && At(Run(SMALL, REPEATS), [], [[7], [7]], 3)
  {
    FirstFour();
    RunMore(SMALL, REPEATS, 4);
    assert REPEATS[4] == Read(1) && REPEATS[..5] == REPEATS;
    hide Run, Try, ValidLink, Possible, Step, REPEATS;
    ReadOne(Run(SMALL, REPEATS[..4]).value, [7]);
  }

  lemma ReadOne(s: Stage, frame: Frame)
    requires ValidLink(SMALL) && ValidStage(SMALL, s) && s.fifo.frames == [frame]
    ensures Possible(SMALL, s, Read(1))
    ensures At(Some(Step(SMALL, s, Read(1))), [], s.handed + [frame], s.next)
  {
  }

  /** A possible run whose copy is taken back from a full queue hands out a frame twice that was
      published once, and so no subsequence of what was published. */
  lemma TornCopyRepeats()
    ensures ValidLink(SMALL) && Run(SMALL, REPEATS).Some? && !RoomWhenTorn(SMALL, REPEATS)
    ensures Run(SMALL, REPEATS).value.handed == [[7], [7]]
    ensures PublishedUpTo(SMALL, 3) == [[5], [6], [7]]
    ensures !Subsequence(Run(SMALL, REPEATS).value.handed, PublishedUpTo(SMALL, 3))
  {
    RepeatsRun();
    PublishedSmall();
    NotTwice();
    if RoomWhenTorn(SMALL, REPEATS) {
      HandsOutInOrder(SMALL, REPEATS);
    }
  }

  lemma PublishedFrame(p: nat)
    requires ValidLink(SMALL) && p < 3
    ensures PublishedFrames(SMALL.g, SMALL.w, [0], p) == [[5 + p]]
  {
    hide ValidWriter;
    var frame := PublishedFrames(SMALL.g, SMALL.w, [0], p)[0];
    assert frame == [5 + p];
  }

  lemma ThreePeriods(c: Link, a: Frame, b: Frame, d: Frame)
    requires ValidLink(c) && c.w.start.count == 0 && |c.w.published| == 3
    requires PublishedFrames(c.g, c.w, c.channels, 0) == [a]
    requires PublishedFrames(c.g, c.w, c.channels, 1) == [b]
    requires PublishedFrames(c.g, c.w, c.channels, 2) == [d]
    ensures PublishedUpTo(c, 3) == [a, b, d]
  {
    hide PublishedFrames, ValidLink;
    assert PublishedUpTo(c, 1) == [a] && PublishedUpTo(c, 2) == [a, b];
  }

  lemma PublishedSmall()
    requires ValidLink(SMALL)
    ensures PublishedUpTo(SMALL, 3) == [[5], [6], [7]]
  {
    hide PublishedFrames, PublishedUpTo, ValidLink;
    PublishedFrame(0);
    PublishedFrame(1);
    PublishedFrame(2);
    ThreePeriods(SMALL, [5], [6], [7]);
  }

  lemma NotTwice()
    ensures !Subsequence<Frame>([[7], [7]], [[5], [6], [7]])
  {
    var seven: Frame, six: Frame, five: Frame := [7], [6], [5];
    assert five[0] != seven[0] && six[0] != seven[0];
    assert multiset([seven, seven])[seven] == 2 && multiset([five, six, seven])[seven] == 1;
    if Subsequence<Frame>([[7], [7]], [[5], [6], [7]]) {
      SubsequenceCounts<Frame>([[7], [7]], [[5], [6], [7]]);
    }
  }

  // The endpoint takes the steps of the run.

  /** Frames dropped and overruns counted before the run began. */
  datatype Earlier = Earlier(dropped: nat, overruns: nat)

  function Counted(f: Fifo, b: Earlier): Fifo {
    f.(dropped := b.dropped + f.dropped, overruns := b.overruns + f.overruns)
  }

  /** The endpoint is where the run is. */
  ghost predicate Mirrors(e: Endpoint, c: Link, s: Stage, b: Earlier)
    reads e, e.samples, e.timestamps
    requires e.Valid()
  {
    e.receiving && e.View() == Counted(s.fifo, b) && e.channelMap == c.channels && e.capacity == c.cap
  }

  /** The counts so far are carried along. */
  lemma CountedStep(cap: nat, f: Fifo, copy: seq<Frame>, times: seq<u64>, b: Earlier)
    requires |f.frames| == |f.stamps| <= cap && |copy| == |times| <= cap
    ensures Taken(cap, Counted(f, b), copy, times) == Counted(Taken(cap, f, copy, times), b)
    ensures Torn(cap, Counted(f, b), copy, times) == Counted(Torn(cap, f, copy, times), b)
  {
  }

  /** Sizing the queue: a change empties it and begins a new run, whatever was counted before. */
  method ResizeStep(e: Endpoint, period: u32, rate: u32, ghost c: Link, ghost s: Stage, ghost b: Earlier)
    returns (ok: bool, ghost s': Stage, ghost b': Earlier)
    requires e.Valid() && Mirrors(e, c, s, b)
    modifies e`samples, e`timestamps, e`capacity, e`configuredPeriod, e`readFrame, e`usedFrames, e`sampleRate
    ensures e.Valid() && Mirrors(e, c.(cap := e.capacity), s', b')
    ensures if e.samples == old(e.samples) then s' == s && b' == b && e.capacity == c.cap
            else ok && s' == EMPTY && b' == Earlier(b.dropped + s.fifo.dropped, b.overruns + s.fifo.overruns)
  {
    ok := e.Prepare(period, rate);
    s', b' := s, b;
    if e.samples != old(e.samples) {
      s', b' := EMPTY, Earlier(e.droppedFrames, e.overruns);
    }
  }

  method ReceiveStep(e: Endpoint, period: u64, pts: u64, c: Link, t: Timing, ghost s: Stage, ghost b: Earlier)
    returns (ok: bool, ghost s': Stage)
    requires ValidLink(c) && e.Valid() && Mirrors(e, c, s, b) && ValidStage(c, s)
    requires Possible(c, s, Receive(period, pts, t))
    modifies e`readFrame, e`usedFrames, e`droppedFrames, e`overruns, e`periods, e.samples, e.timestamps
    ensures e.Valid() && Mirrors(e, c, s', b) && s' == Step(c, s, Receive(period, pts, t))
  {
    s' := Step(c, s, Receive(period, pts, t));
    CountedStep(c.cap, s.fifo, Copied(c.g, c.w, t, c.channels, period), StampsFrom(pts, c.g.period, c.rate), b);
    hide Taken, Torn, Counted, Copied, PublishedFrames, StampsFrom;
    ok := e.ReceivePeriod(c.g, c.rate, c.w, t, period, pts);
    if ok {
      CopiedIsPublished(c.g, c.w, t, c.channels, period);
    }
  }

  method ReadStep(e: Endpoint, ghost c: Link, ghost s: Stage, ghost b: Earlier)
    returns (r: Result, frames: seq<Frame>, pts: u64, rate: u32, ghost s': Stage)
    requires ValidLink(c) && e.Valid() && Mirrors(e, c, s, b) && ValidStage(c, s) && |e.channelMap| < U32
    modifies e`readFrame, e`usedFrames, e`droppedFrames
    ensures e.Valid() && Mirrors(e, c, s', b) && s'.handed == s.handed + frames
    ensures r.Ok? ==> 0 < |frames| <= |s.fifo.frames| && pts == s.fifo.stamps[0]
    ensures s' == if r.Ok? then Step(c, s, Read(|frames|)) else s
  {
    hide Around, Slot, ValidWriter;
    r, frames, pts, rate := e.Read();
    s' := if r.Ok? then Step(c, s, Read(|frames|)) else s;
  }
}
