/** The UDP source's own loss estimate, and how it compares with the reorder element's. */
module LossEstimator {
  import opened Words
  import opened Ranges
  import opened RtpHeader
  import opened ReorderRing
  import opened ReorderUnwrapped
  import opened ReorderOrder
  import opened ReorderStream
  import opened ReorderEviction

  /** The estimator looks at every packet with a fixed header of version 2. */
  predicate Numbered(data: seq<u8>) {
    |data| >= 12 && data[0] / 64 == 2
  }

  datatype Stats = Stats(packets: nat, haveSeq: bool, expectedSeq: u16, lost: nat, outOfOrder: nat)

  const NO_STATS := Stats(0, false, 0, 0, 0)

  function UpdateStats(s: Stats, data: seq<u8>): Stats {
    if !Numbered(data) then s
    else
      var sequence := Word16(data[2], data[3]);
      var next := s.(packets := s.packets + 1, haveSeq := true, expectedSeq := Lo16(sequence + 1));
      var ahead := Dist16(sequence, s.expectedSeq);
      if !s.haveSeq || ahead == 0 then next
      else if ahead < 0x8000 then next.(lost := s.lost + ahead)
      else s.(packets := s.packets + 1, outOfOrder := s.outOfOrder + 1)
  }

  class RtpStatistics {
    var packets: nat
    var haveSeq: bool
    var expectedSeq: u16
    var lost: nat
    var outOfOrder: nat

    function View(): Stats
      reads this
    {
      Stats(packets, haveSeq, expectedSeq, lost, outOfOrder)
    }

    constructor ()
      ensures View() == NO_STATS
    {
      packets, haveSeq, expectedSeq, lost, outOfOrder := 0, false, 0, 0, 0;
    }

    method Update(data: seq<u8>)
      modifies this
      ensures View() == UpdateStats(old(View()), data)
    {
      if |data| < 12 || data[0] / 64 != 2 {
        return;
      }
      var sequence: int := Word16(data[2], data[3]);
      packets := packets + 1;
      if !haveSeq {
        expectedSeq := Lo16(sequence + 1);
        haveSeq := true;
        return;
      }
      var delta := Dist16(sequence, expectedSeq);
      if delta == 0 {
        expectedSeq := Lo16(sequence + 1);
      } else if delta < 0x8000 {
        lost := lost + delta;
        expectedSeq := Lo16(sequence + 1);
      } else {
        outOfOrder := outOfOrder + 1;
      }
    }
  }

  function StatsRun(events: seq<Event>): Stats
    decreases |events|
  {
    if events == [] then NO_STATS
    else
      var s := StatsRun(events[..|events| - 1]);
      var e := events[|events| - 1];
      if e.Push? then UpdateStats(s, e.arrival.bytes) else s
  }

  /** One past the highest number pushed, and the numbers jumped over on the way there. */
  datatype Reach = Reach(top: int, jumped: set<int>)

  function ReachStep(o: Option<Reach>, n: int): Reach {
    match o
    case None => Reach(n + 1, {})
    case Some(h) => if n < h.top then h else Reach(n + 1, h.jumped + Span(h.top, n))
  }

  function ReachRun(events: seq<Event>, nums: seq<int>): Option<Reach>
    requires |events| == |nums|
    decreases |events|
  {
    if events == [] then None
    else
      var last := |events| - 1;
      var o := ReachRun(events[..last], nums[..last]);
      if Counts(events[last]) then Some(ReachStep(o, nums[last])) else o
  }

  predicate Counts(e: Event) {
    e.Push? && Numbered(e.arrival.bytes)
  }

  /** `nums` gives the unwrapped number of every packet that the estimator looks at. */
  predicate Unwraps(events: seq<Event>, nums: seq<int>) {
    && |events| == |nums|
    && forall i | 0 <= i < |events| && Counts(events[i]) ::
         Word16(events[i].arrival.bytes[2], events[i].arrival.bytes[3]) == Lo16(nums[i])
  }

  /** Every packet is within half a lap of the highest number so far. */
  predicate NearTop(events: seq<Event>, nums: seq<int>)
    requires |events| == |nums|
    decreases |events|
  {
    events == [] ||
    (var last := |events| - 1;
     var o := ReachRun(events[..last], nums[..last]);
     && NearTop(events[..last], nums[..last])
     && (Counts(events[last]) && o.Some? ==> o.value.top - 0x8000 <= nums[last] < o.value.top + 0x8000))
  }

  /** Unwrapped, the estimator counts exactly the numbers jumped over. */
  predicate Estimates(s: Stats, o: Option<Reach>) {
    match o
    case None => s == NO_STATS
    case Some(h) =>
      && s.haveSeq && s.expectedSeq == Lo16(h.top) && s.lost == |h.jumped|
      && forall n | n in h.jumped :: n < h.top
  }

  lemma ParsedHeader(bytes: seq<u8>, h: Header)
    requires ParseRtp(bytes) == Some(h)
    ensures Numbered(bytes) && Word16(bytes[2], bytes[3]) == h.sequence
  {
  }

  /** Packets shorter than a fixed header, or of another version than 2, change nothing; all others
      are counted. */
  lemma OnlyVersionTwo(s: Stats, data: seq<u8>)
    ensures UpdateStats(s, data).packets == s.packets + 1 || UpdateStats(s, data) == s
    ensures UpdateStats(s, data) == s <==> |data| < 12 || data[0] < 0x80 || data[0] >= 0xc0
  {
  }

  lemma JumpedMore(jumped: set<int>, top: int, n: int)
    requires top <= n && forall m | m in jumped :: m < top
    ensures |jumped + Span(top, n)| == |jumped| + (n - top)
  {
    assert jumped !! Span(top, n);
  }

  lemma ReadNear(n: int, top: int)
    requires top - 0x8000 <= n < top + 0x8000
    ensures Dist16(Lo16(n), Lo16(top)) == if n < top then n - top + 0x1_0000 else n - top
    ensures Lo16(Lo16(n) + 1) == Lo16(n + 1)
  {
    if n >= top {
      DistAhead(top, n);
    } else {
      DistBehind(top, n);
    }
  }

  lemma EstimateStep(s: Stats, o: Option<Reach>, bytes: seq<u8>, n: int)
    requires Estimates(s, o)
    requires Numbered(bytes) && Word16(bytes[2], bytes[3]) == Lo16(n)
    requires o.Some? ==> o.value.top - 0x8000 <= n < o.value.top + 0x8000
    ensures Estimates(UpdateStats(s, bytes), Some(ReachStep(o, n)))
  {
    hide Dist16, Lo16, Word16;
    match o {
      case None => ReadNear(n, n);
      case Some(h) =>
        ReadNear(n, h.top);
        if n >= h.top {
          JumpedMore(h.jumped, h.top, n);
        }
    }
  }

  /** Fed any packets, the estimate is the number of unbounded numbers jumped over on the way to
      the highest one, as long as each is within half a lap of it. */
  lemma {:induction false} EstimateRun(events: seq<Event>, nums: seq<int>)
    requires Unwraps(events, nums) && NearTop(events, nums)
    ensures Estimates(StatsRun(events), ReachRun(events, nums))
    decreases |events|
  {
    if events != [] {
      var last := |events| - 1;
      EstimateRun(events[..last], nums[..last]);
      if Counts(events[last]) {
        EstimateStep(StatsRun(events[..last]), ReachRun(events[..last], nums[..last]),
                     events[last].arrival.bytes, nums[last]);
      }
    }
  }

  /** The first number that the estimator saw, and how many of the packets it looked at were behind
      the highest number then. */
  datatype Tally = Tally(first: int, looked: nat, behind: nat)

  function TallyRun(events: seq<Event>, nums: seq<int>): Option<Tally>
    requires |events| == |nums|
    decreases |events|
  {
    if events == [] then None
    else
      var last := |events| - 1;
      var t, h := TallyRun(events[..last], nums[..last]), ReachRun(events[..last], nums[..last]);
      if !Counts(events[last]) then t
      else if t.None? then Some(Tally(nums[last], 1, 0))
      else
        var behind := h.Some? && nums[last] < h.value.top;
        Some(t.value.(looked := t.value.looked + 1, behind := t.value.behind + if behind then 1 else 0))
  }

  predicate Tallied(s: Stats, h: Option<Reach>, t: Option<Tally>) {
    && h.Some? == t.Some?
    && match t
       case None => s == NO_STATS
       case Some(y) =>
         && s.packets == y.looked && s.outOfOrder == y.behind
         && (s.packets - s.outOfOrder) + s.lost == h.value.top - y.first
  }

  lemma TallyStep(s: Stats, h: Option<Reach>, t: Option<Tally>, bytes: seq<u8>, n: int)
    requires Estimates(s, h) && Tallied(s, h, t) && Numbered(bytes) && Word16(bytes[2], bytes[3]) == Lo16(n)
    requires h.Some? ==> h.value.top - 0x8000 <= n < h.value.top + 0x8000
    ensures var behind := h.Some? && n < h.value.top;
            Tallied(UpdateStats(s, bytes), Some(ReachStep(h, n)),
                    if t.None? then Some(Tally(n, 1, 0))
                    else Some(Tally(t.value.first, t.value.looked + 1, t.value.behind + if behind then 1 else 0)))
  {
    hide Dist16, Lo16, Word16;
    if h.Some? {
      ReadNear(n, h.value.top);
    }
  }

  /** Over every run: every packet looked at is counted, out of order exactly those behind the
      highest number before them, and those in order and the ones counted lost make up the way from
      the first number to the highest. */
  lemma {:induction false} EstimateTallies(events: seq<Event>, nums: seq<int>)
    requires Unwraps(events, nums) && NearTop(events, nums)
    ensures Tallied(StatsRun(events), ReachRun(events, nums), TallyRun(events, nums))
    decreases |events|
  {
    if events != [] {
      var last := |events| - 1;
      EstimateTallies(events[..last], nums[..last]);
      EstimateRun(events[..last], nums[..last]);
      if Counts(events[last]) {
        hide Tallied, Estimates, UpdateStats, Numbered;
        TallyStep(StatsRun(events[..last]), ReachRun(events[..last], nums[..last]),
                  TallyRun(events[..last], nums[..last]), events[last].arrival.bytes, nums[last]);
      }
    }
  }

  lemma CarriesUnwraps(events: seq<Event>, nums: seq<int>, ssrc: u32)
    requires Carries(events, nums, ssrc)
    ensures Unwraps(events, nums)
    ensures forall i | 0 <= i < |events| :: Counts(events[i]) == events[i].Push?
  {
    forall i | 0 <= i < |events| && events[i].Push?
      ensures Counts(events[i]) && Word16(events[i].arrival.bytes[2], events[i].arrival.bytes[3]) == Lo16(nums[i])
    {
      ParsedHeader(events[i].arrival.bytes, Header(Lo16(nums[i]), ssrc));
    }
  }

  /** The flow and the reach after the same packets: nothing waits or was passed beyond the top,
      and a number not jumped over has been emitted, is waiting, was evicted, or is about to be
      placed. */
  predicate Covers(f: Flow, h: Reach, placing: set<int>) {
    && f.start <= f.exp <= h.top
    && (forall n | n in f.held :: n < h.top)
    && (forall n | n in h.jumped :: f.start <= n < h.top)
    && (forall n | n in f.evicted :: f.start <= n < h.top)
    && (forall n | f.start <= n < h.top && n !in h.jumped ::
          n in f.out || n in f.held || n in f.evicted || n in placing)
  }

  lemma EmitCovers(f: Flow, h: Reach, placing: set<int>)
    requires Covers(f, h, placing) && f.exp in f.held
    ensures Covers(EmitHead(f), h, placing)
  {
    var g := EmitHead(f);
    assert forall n :: n in f.out || n == f.exp ==> n in g.out;
  }

  lemma {:induction false} DrainCovers(f: Flow, h: Reach, placing: set<int>)
    requires Covers(f, h, placing)
    ensures Covers(DrainFlow(f), h, placing)
    decreases |f.held|
  {
    if f.exp in f.held {
      EmitCovers(f, h, placing);
      DrainCovers(EmitHead(f), h, placing);
    }
  }

  lemma {:induction false} SkipCovers(f: Flow, h: Reach, n: int, placing: set<int>)
    requires Covers(f, h, placing) && f.exp <= n <= h.top
    ensures Covers(SkipFlow(f, n), h, placing)
    decreases n - f.exp
  {
    if f.exp != n {
      SkipCovers(SkipHead(f), h, n, placing);
    }
  }

  lemma {:induction false} AdvanceCovers(cfg: Config, f: Flow, h: Reach, n: int, placing: set<int>)
    requires ValidConfig(cfg) && Covers(f, h, placing) && n < h.top
    ensures Covers(Advance(cfg, f, n), h, placing)
    decreases n - f.exp
  {
    if n - f.exp < cfg.window {
    } else if f.exp in f.held {
      EmitCovers(f, h, placing);
      AdvanceCovers(cfg, EmitHead(f), h, n, placing);
    } else {
      AdvanceCovers(cfg, SkipHead(f), h, n, placing);
    }
  }

  lemma SettleCovers(cfg: Config, f: Flow, h: Reach, now: u64)
    requires Covers(f, h, {})
    ensures Covers(SettleFlow(cfg, f, now), h, {})
  {
    match FirstExpired(cfg, f.held, f.exp, f.exp + cfg.window, now) {
      case None =>
      case Some(n) => SkipCovers(f, h, n, {});
    }
    DrainCovers(SkipGapFlow(cfg, f, now), h, {});
  }

  lemma StoreCovers(cfg: Config, f: Flow, h: Reach, n: int, now: u64)
    requires ValidConfig(cfg) && Covers(f, h, {n}) && n < h.top && forall m | m in f.held :: f.exp <= m
    ensures Covers(StoreFlow(cfg, f, n, now), h, {})
  {
  }

  lemma PlaceCovers(cfg: Config, r: Ring, f: Flow, h: Reach, n: int, now: u64)
    requires Matches(cfg, r, f, FRESH)
    requires Covers(f, h, {n}) && n < h.top && n < f.exp + 0x8000
    requires n < f.exp ==> Covers(f, h, {})
    ensures Covers(PlaceFlow(cfg, f, n, now), h, {})
  {
    if n >= f.exp {
      AdvanceCovers(cfg, f, h, n, {n});
      AdvanceSimulates(cfg, r, f, FRESH, n);
      var g := Advance(cfg, f, n);
      if n !in g.held {
        StoreCovers(cfg, g, h, n, now);
        DrainCovers(StoreFlow(cfg, g, n, now), h, {});
        SettleCovers(cfg, DrainFlow(StoreFlow(cfg, g, n, now)), h, now);
      }
    }
  }

  lemma ReachCovers(o: Option<Flow>, p: Option<Reach>, n: int)
    requires o.Some? == p.Some? && (o.Some? ==> Covers(o.value, p.value, {}))
    ensures var f, h := Begun(o, n), ReachStep(p, n);
            Covers(f, h, {n}) && n < h.top && (n < f.exp ==> Covers(f, h, {}))
  {
    if o.Some? && n < o.value.exp {
      assert ReachStep(p, n) == p.value;
    }
  }

  lemma PushCovers(cfg: Config, r: Ring, o: Option<Flow>, p: Option<Reach>, n: int, now: u64)
    requires o.Some? == p.Some? && (o.Some? ==> Covers(o.value, p.value, {}))
    requires Matches(cfg, r, Begun(o, n), FRESH)
    requires Begun(o, n).exp - 0x8000 <= n < Begun(o, n).exp + 0x8000
    ensures Covers(PlaceFlow(cfg, Begun(o, n), n, now), ReachStep(p, n), {})
  {
    ReachCovers(o, p, n);
    hide Covers, Matches, ReachStep, PlaceFlow;
    PlaceCovers(cfg, r, Begun(o, n), ReachStep(p, n), n, now);
  }

  lemma {:induction false} StreamCovers(cfg: Config, events: seq<Event>, nums: seq<int>, ssrc: u32)
    requires ValidConfig(cfg) && Carries(events, nums, ssrc) && Orderly(cfg, events, nums)
    ensures var o, p := FlowRun(cfg, events, nums), ReachRun(events, nums);
            o.Some? == p.Some? && (o.Some? ==> Covers(o.value, p.value, {}))
    decreases |events|
  {
    if events != [] {
      var last := |events| - 1;
      StreamCovers(cfg, events[..last], nums[..last], ssrc);
      StreamRefines(cfg, events[..last], nums[..last], ssrc);
      CarriesUnwraps(events, nums, ssrc);
      assert Counts(events[last]) == events[last].Push?;
      var o, p := FlowRun(cfg, events[..last], nums[..last]), ReachRun(events[..last], nums[..last]);
      var r := Run(cfg, Opened(cfg), events[..last]);
      match events[last] {
        case Watchdog(now) =>
          if o.Some? {
            SettleCovers(cfg, o.value, p.value, now);
          }
        case Push(a) =>
          StartsClear(cfg, r, o, nums[last], ssrc);
          PushCovers(cfg, if o.Some? then r else Anchor(r, Lo16(nums[last])), o, p, nums[last], a.now);
      }
    }
  }

  lemma StartsClear(cfg: Config, r: Ring, o: Option<Flow>, n: int, ssrc: u32)
    requires Refines(cfg, r, o, ssrc)
    ensures Matches(cfg, if o.Some? then r else Anchor(r, Lo16(n)), Begun(o, n), FRESH)
  {
  }

  /** Jumped-over numbers that arrived before being given up. */
  function FilledInTime(f: Flow, h: Reach): set<int> {
    set n | n in h.jumped && (n in f.out || n in f.held)
  }

  function StillMissing(f: Flow, h: Reach): set<int> {
    Span(f.exp, h.top) - f.held.Keys
  }

  /** Numbers that came in their turn and were evicted for good. */
  function ThrownOut(f: Flow, h: Reach): set<int> {
    set n | n in f.evicted && n !in h.jumped && n !in f.out && n !in f.held
  }

  function Skipped(f: Flow): set<int> {
    Span(f.start, f.exp) - Members(f.out)
  }

  lemma GapsAreMissed(f: Flow)
    requires FlowOk(f)
    ensures |Skipped(f)| == f.gaps
  {
    MissedSize(f.out, f.start, f.exp);
  }

  lemma ThreeParts(whole: set<int>, a: set<int>, b: set<int>, c: set<int>)
    requires whole == a + b + c && a !! b && (a + b) !! c
    ensures |whole| == |a| + |b| + |c|
  {
    assert |a + b| == |a| + |b|;
    assert |a + b + c| == |a + b| + |c|;
  }

  /** A number was jumped over or thrown out exactly when it was given up, filled in time, or is
      missing. */
  lemma Parts(f: Flow, h: Reach, n: int)
    requires Covers(f, h, {}) && (n in f.held ==> f.exp <= n) && (n in f.out ==> f.start <= n < f.exp)
    ensures n in h.jumped || n in ThrownOut(f, h) <==>
              || (f.start <= n < f.exp && n !in f.out)
              || n in FilledInTime(f, h)
              || n in StillMissing(f, h)
  {
  }

  lemma PartsApart(f: Flow, h: Reach)
    requires FlowOk(f) && Covers(f, h, {}) && forall n | n in f.held :: f.exp <= n
    ensures h.jumped + ThrownOut(f, h) == Skipped(f) + FilledInTime(f, h) + StillMissing(f, h)
    ensures Skipped(f) !! FilledInTime(f, h) && (Skipped(f) + FilledInTime(f, h)) !! StillMissing(f, h)
  {
    assert forall n :: n in Skipped(f) <==> f.start <= n < f.exp && n !in f.out;
    hide Skipped, ThrownOut, Covers;
    forall n
      ensures n in h.jumped + ThrownOut(f, h) <==> n in Skipped(f) + FilledInTime(f, h) + StillMissing(f, h)
    {
      Parts(f, h, n);
    }
  }

  /** The source's count and what was thrown out make up the gaps, what was filled in before it was
      given up, and what is still missing. */
  lemma JumpedSplit(f: Flow, h: Reach)
    requires FlowOk(f) && Covers(f, h, {}) && forall n | n in f.held :: f.exp <= n
    ensures |h.jumped| + |ThrownOut(f, h)| == f.gaps + |FilledInTime(f, h)| + |StillMissing(f, h)|
  {
    GapsAreMissed(f);
    PartsApart(f, h);
    ThreeParts(h.jumped + ThrownOut(f, h), Skipped(f), FilledInTime(f, h), StillMissing(f, h));
    assert h.jumped !! ThrownOut(f, h);
    assert |h.jumped + ThrownOut(f, h)| == |h.jumped| + |ThrownOut(f, h)|;
  }

  /** The two loss counters, fed the same stream, at any window: the source's estimate and the
      packets thrown out are the reorder element's gaps, the numbers filled in before they were
      given up, and those still missing. */
  lemma CountersCompared(cfg: Config, events: seq<Event>, nums: seq<int>, ssrc: u32)
    requires ValidConfig(cfg) && Carries(events, nums, ssrc) && Orderly(cfg, events, nums) && NearTop(events, nums)
    ensures var r, s := Run(cfg, Opened(cfg), events), StatsRun(events);
            var o, p := FlowRun(cfg, events, nums), ReachRun(events, nums);
            && o.Some? == p.Some? == r.haveExpected
            && if o.None? then r.count.lostGaps == s.lost == 0
               else s.lost + |ThrownOut(o.value, p.value)| ==
                    r.count.lostGaps + |FilledInTime(o.value, p.value)| + |StillMissing(o.value, p.value)|
  {
    StreamRefines(cfg, events, nums, ssrc);
    CarriesUnwraps(events, nums, ssrc);
    EstimateRun(events, nums);
    StreamCovers(cfg, events, nums, ssrc);
    var o := FlowRun(cfg, events, nums);
    if o.Some? {
      JumpedSplit(o.value, ReachRun(events, nums).value);
    }
  }

  lemma PlaceThrowsNothing(cfg: Config, r: Ring, f: Flow, n: int, now: u64)
    requires Matches(cfg, r, f, FRESH) && 0x1_0000 % cfg.window == 0 && n < f.exp + 0x8000
    ensures PlaceFlow(cfg, f, n, now).evicted == f.evicted
  {
    if n >= f.exp {
      AdvanceOnward(cfg, f, n);
      AdvanceSimulates(cfg, r, f, FRESH, n);
      var g := Advance(cfg, f, n);
      if n !in g.held {
        NoClash(cfg, g, n);
        DrainOnward(StoreFlow(cfg, g, n, now));
        SettleOnward(cfg, DrainFlow(StoreFlow(cfg, g, n, now)), now);
      }
    }
  }

  lemma {:induction false} StreamThrowsNothing(cfg: Config, events: seq<Event>, nums: seq<int>, ssrc: u32)
    requires ValidConfig(cfg) && 0x1_0000 % cfg.window == 0
    requires Carries(events, nums, ssrc) && Orderly(cfg, events, nums)
    ensures FlowRun(cfg, events, nums).Some? ==> FlowRun(cfg, events, nums).value.evicted == {}
    decreases |events|
  {
    if events != [] {
      var last := |events| - 1;
      StreamThrowsNothing(cfg, events[..last], nums[..last], ssrc);
      StreamRefines(cfg, events[..last], nums[..last], ssrc);
      var o, r := FlowRun(cfg, events[..last], nums[..last]), Run(cfg, Opened(cfg), events[..last]);
      match events[last] {
        case Watchdog(now) =>
          if o.Some? {
            SettleOnward(cfg, o.value, now);
          }
        case Push(a) =>
          StartsClear(cfg, r, o, nums[last], ssrc);
          PlaceThrowsNothing(cfg, if o.Some? then r else Anchor(r, Lo16(nums[last])), Begun(o, nums[last]),
                             nums[last], a.now);
      }
    }
  }

  /** With a window that divides 65536 the element never reports more loss than the source. */
  lemma NeverMoreGaps(cfg: Config, events: seq<Event>, nums: seq<int>, ssrc: u32)
    requires ValidConfig(cfg) && 0x1_0000 % cfg.window == 0
    requires Carries(events, nums, ssrc) && Orderly(cfg, events, nums) && NearTop(events, nums)
    ensures Run(cfg, Opened(cfg), events).count.lostGaps <= StatsRun(events).lost
  {
    CountersCompared(cfg, events, nums, ssrc);
    StreamThrowsNothing(cfg, events, nums, ssrc);
  }
}
