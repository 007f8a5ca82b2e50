/** For every window that does not divide the sequence space, a run in which a waiting packet is
    evicted and then counted as lost. It makes two conditions exact: which windows never evict, and
    which keep the element's gaps below the source's estimate. */
module ReorderEvicted {
  import opened Words
  import opened Ranges
  import opened RtpHeader
  import opened ReorderRing
  import opened ReorderUnwrapped
  import opened ReorderOrder
  import opened ReorderStream
  import opened ReorderEviction
  import opened LossEstimator

  function Arriving(n: int): Event {
    Push(Arrival(Bare(Lo16(n), 1), 0, 0, true))
  }

  /** The last multiple of the window below the wrap; it shares slot 0 with 65536. */
  function Partner(cfg: Config): (m: int)
    requires ValidConfig(cfg)
  {
    0x1_0000 - 0x1_0000 % cfg.window
  }

  predicate Uneven(cfg: Config) {
    ValidConfig(cfg) && 0x1_0000 % cfg.window != 0
  }

  lemma PartnerIs(cfg: Config)
    requires Uneven(cfg)
    ensures var m := Partner(cfg);
            && 3 <= cfg.window && 0x8000 < m < 0x1_0000 < m + cfg.window
            && SlotOf(cfg, m) == SlotOf(cfg, 0x1_0000)
  {
    OtherWindow(cfg);
  }

  /** Number m - 2 starts the stream, m - 1 is missing, m waits and loses its slot to 65536, and
      the watchdog then gives up everything up to 65536. */
  function Numbers(cfg: Config): (nums: seq<int>)
    requires ValidConfig(cfg)
    ensures |nums| == 4
  {
    [Partner(cfg) - 2, Partner(cfg), 0x1_0000, 0]
  }

  function Events(cfg: Config): (events: seq<Event>)
    requires ValidConfig(cfg)
    ensures |events| == 4
  {
    [Arriving(Partner(cfg) - 2), Arriving(Partner(cfg)), Arriving(0x1_0000), Watchdog(cfg.timeout)]
  }

  lemma EventsCarry(cfg: Config)
    requires ValidConfig(cfg)
    ensures Carries(Events(cfg), Numbers(cfg), 1)
  {
    hide Bare;
    var events, nums := Events(cfg), Numbers(cfg);
    forall i | 0 <= i < 4 && events[i].Push?
      ensures events[i].arrival.accepted && ParseRtp(events[i].arrival.bytes) == Some(Header(Lo16(nums[i]), 1))
    {
      assert events[i] == Arriving(nums[i]);
      BareParses(Lo16(nums[i]), 1);
    }
  }

  // The flow of the run, event by event.

  function Sole(n: int): map<int, u64> {
    map[n := 0]
  }

  function Flow1(m: int): Flow {
    Flow(m - 2, {}, m - 1, map[], {}, {}, {}, [m - 2], 0, 0, 0, 0)
  }

  function Flow2(m: int): Flow {
    Flow1(m).(held := Sole(m))
  }

  lemma NoneYet(cfg: Config, f: Flow)
    requires ValidConfig(cfg) && forall n | n in f.held :: f.held[n] == 0
    ensures FirstExpired(cfg, f.held, f.exp, f.exp + cfg.window, 0) == None && LowestFirst(cfg, f, 0)
    ensures SettleFlow(cfg, f, 0) == DrainFlow(f)
  {
  }

  lemma First(cfg: Config)
    requires Uneven(cfg)
    ensures var m := Partner(cfg);
            && PlaceFlow(cfg, StartFlow(m - 2, {}), m - 2, 0) == Flow1(m)
            && PlaceOrderly(cfg, StartFlow(m - 2, {}), m - 2, 0)
  {
    PartnerIs(cfg);
    var m := Partner(cfg);
    var f := StartFlow(m - 2, {});
    assert Advance(cfg, f, m - 2) == f;
    var stored := StoreFlow(cfg, f, m - 2, 0);
    assert stored.held == Sole(m - 2);
    assert EmitHead(stored) == Flow1(m);
    assert DrainFlow(stored) == Flow1(m);
    NoneYet(cfg, Flow1(m));
  }

  lemma Second(cfg: Config)
    requires Uneven(cfg)
    ensures var m := Partner(cfg);
            PlaceFlow(cfg, Flow1(m), m, 0) == Flow2(m) && PlaceOrderly(cfg, Flow1(m), m, 0)
  {
    PartnerIs(cfg);
    var m := Partner(cfg);
    assert Advance(cfg, Flow1(m), m) == Flow1(m);
    assert StoreFlow(cfg, Flow1(m), m, 0) == Flow2(m);
    assert DrainFlow(Flow2(m)) == Flow2(m);
    NoneYet(cfg, Flow2(m));
  }

  /** Room for 65536: at most m - 1 is given up for it, and m goes on waiting. */
  lemma Room(cfg: Config)
    requires Uneven(cfg)
    ensures var m := Partner(cfg);
            var g := Advance(cfg, Flow2(m), 0x1_0000);
            && g.held == Sole(m) && m - 1 <= g.exp <= m && g.gaps == g.exp - (m - 1) && 0x1_0000 < g.exp + cfg.window
            && g.evicted == {}
  {
    PartnerIs(cfg);
    var m := Partner(cfg);
    if 0x1_0000 - (m - 1) >= cfg.window {
      assert Advance(cfg, SkipHead(Flow2(m)), 0x1_0000) == SkipHead(Flow2(m));
    }
  }

  function Flow3(cfg: Config): Flow
    requires ValidConfig(cfg)
  {
    StoreFlow(cfg, Advance(cfg, Flow2(Partner(cfg)), 0x1_0000), 0x1_0000, 0)
  }

  lemma Third(cfg: Config)
    requires Uneven(cfg)
    ensures var m := Partner(cfg);
            && PlaceFlow(cfg, Flow2(m), 0x1_0000, 0) == Flow3(cfg) && PlaceOrderly(cfg, Flow2(m), 0x1_0000, 0)
            && Flow3(cfg).held == Sole(0x1_0000) && Flow3(cfg).gaps == Flow3(cfg).exp - (m - 1)
            && m - 1 <= Flow3(cfg).exp <= m && 0x1_0000 < Flow3(cfg).exp + cfg.window
  {
    PartnerIs(cfg);
    Room(cfg);
    var m := Partner(cfg);
    var g := Advance(cfg, Flow2(m), 0x1_0000);
    assert Clash(cfg, g.held, 0x1_0000) == {m};
    assert Flow3(cfg).held == Sole(0x1_0000);
    assert DrainFlow(Flow3(cfg)) == Flow3(cfg);
    NoneYet(cfg, Flow3(cfg));
  }

  lemma {:induction false} SkipCounts(f: Flow, n: int)
    requires f.exp <= n
    ensures SkipFlow(f, n).gaps == f.gaps + (n - f.exp)
    decreases n - f.exp
  {
    if f.exp != n {
      SkipCounts(SkipHead(f), n);
    }
  }

  lemma {:induction false} DrainCounts(f: Flow)
    ensures DrainFlow(f).gaps == f.gaps
    decreases |f.held|
  {
    if f.exp in f.held {
      DrainCounts(EmitHead(f));
    }
  }

  lemma Fourth(cfg: Config)
    requires Uneven(cfg)
    ensures SettleFlow(cfg, Flow3(cfg), cfg.timeout).gaps == 0x1_0000 - (Partner(cfg) - 1)
    ensures LowestFirst(cfg, Flow3(cfg), cfg.timeout)
  {
    Third(cfg);
    var f := Flow3(cfg);
    assert 0x1_0000 in f.held && Expired(cfg, f.held[0x1_0000], cfg.timeout);
    assert FirstExpired(cfg, f.held, f.exp, f.exp + cfg.window, cfg.timeout) == Some(0x1_0000);
    SkipCounts(f, 0x1_0000);
    DrainCounts(SkipGapFlow(cfg, f, cfg.timeout));
  }

  lemma FlowAfter(cfg: Config, events: seq<Event>, nums: seq<int>, k: nat, o: Option<Flow>)
    requires ValidConfig(cfg) && |events| == |nums| && k < |events|
    requires FlowRun(cfg, events[..k], nums[..k]) == o && Orderly(cfg, events[..k], nums[..k])
    requires StepOrderly(cfg, o, events[k], nums[k])
    ensures FlowRun(cfg, events[..k + 1], nums[..k + 1]) == FlowStep(cfg, o, events[k], nums[k])
    ensures Orderly(cfg, events[..k + 1], nums[..k + 1])
  {
    assert events[..k + 1][..k] == events[..k] && nums[..k + 1][..k] == nums[..k];
  }

  lemma AfterOne(cfg: Config)
    requires Uneven(cfg)
    ensures var events, nums := Events(cfg), Numbers(cfg);
            && Orderly(cfg, events[..1], nums[..1])
            && FlowRun(cfg, events[..1], nums[..1]) == Some(Flow1(Partner(cfg)))
  {
    First(cfg);
    hide Bare, PlaceFlow, PlaceOrderly, LowestFirst, Flow1, ValidConfig, Sole;
    FlowAfter(cfg, Events(cfg), Numbers(cfg), 0, None);
  }

  lemma AfterTwo(cfg: Config)
    requires Uneven(cfg)
    ensures var events, nums := Events(cfg), Numbers(cfg);
            && Orderly(cfg, events[..2], nums[..2])
            && FlowRun(cfg, events[..2], nums[..2]) == Some(Flow2(Partner(cfg)))
  {
    AfterOne(cfg);
    Second(cfg);
    hide Bare, Carries, ValidConfig, SlotOf, Sole, FlowRun, Orderly, PlaceFlow, PlaceOrderly, LowestFirst, Flow1, Flow2;
    FlowAfter(cfg, Events(cfg), Numbers(cfg), 1, Some(Flow1(Partner(cfg))));
  }

  lemma AfterThree(cfg: Config)
    requires Uneven(cfg)
    ensures var events, nums := Events(cfg), Numbers(cfg);
            && Orderly(cfg, events[..3], nums[..3])
            && FlowRun(cfg, events[..3], nums[..3]) == Some(Flow3(cfg))
  {
    AfterTwo(cfg);
    Third(cfg);
    hide Bare, FlowRun, Orderly, PlaceFlow, SettleFlow, PlaceOrderly, LowestFirst, Flow1, Flow2, Flow3;
    FlowAfter(cfg, Events(cfg), Numbers(cfg), 2, Some(Flow2(Partner(cfg))));
  }

  lemma RunIs(cfg: Config)
    requires Uneven(cfg)
    ensures var events, nums := Events(cfg), Numbers(cfg);
            && Orderly(cfg, events, nums)
            && FlowRun(cfg, events, nums) == Some(SettleFlow(cfg, Flow3(cfg), cfg.timeout))
  {
    var events, nums := Events(cfg), Numbers(cfg);
    AfterThree(cfg);
    Fourth(cfg);
    hide Bare, FlowRun, Orderly, PlaceFlow, SettleFlow, PlaceOrderly, LowestFirst, Flow1, Flow2, Flow3;
    FlowAfter(cfg, events, nums, 3, Some(Flow3(cfg)));
    assert events[..4] == events && nums[..4] == nums;
  }

  lemma ReachAfter(events: seq<Event>, nums: seq<int>, k: nat, o: Option<Reach>)
    requires |events| == |nums| && k < |events|
    requires ReachRun(events[..k], nums[..k]) == o && NearTop(events[..k], nums[..k])
    requires Counts(events[k]) && o.Some? ==> o.value.top - 0x8000 <= nums[k] < o.value.top + 0x8000
    ensures ReachRun(events[..k + 1], nums[..k + 1]) == if Counts(events[k]) then Some(ReachStep(o, nums[k])) else o
    ensures NearTop(events[..k + 1], nums[..k + 1])
  {
    assert events[..k + 1][..k] == events[..k] && nums[..k + 1][..k] == nums[..k];
  }

  lemma ReachTwo(cfg: Config)
    requires Uneven(cfg) && Unwraps(Events(cfg), Numbers(cfg))
    requires forall i | 0 <= i < 4 :: Counts(Events(cfg)[i]) == Events(cfg)[i].Push?
    ensures var events, nums, m := Events(cfg), Numbers(cfg), Partner(cfg);
            && NearTop(events[..2], nums[..2])
            && ReachRun(events[..2], nums[..2]) == Some(Reach(m + 1, {} + Span(m - 1, m)))
  {
    PartnerIs(cfg);
    hide Bare, Unwraps, Counts, Span, ValidConfig;
    var events, nums, m := Events(cfg), Numbers(cfg), Partner(cfg);
    ReachAfter(events, nums, 0, None);
    ReachAfter(events, nums, 1, Some(Reach(m - 1, {})));
  }

  lemma ReachIs(cfg: Config)
    requires Uneven(cfg) && Unwraps(Events(cfg), Numbers(cfg))
    requires forall i | 0 <= i < 4 :: Counts(Events(cfg)[i]) == Events(cfg)[i].Push?
    ensures NearTop(Events(cfg), Numbers(cfg))
    ensures var m := Partner(cfg);
            ReachRun(Events(cfg), Numbers(cfg)) ==
              Some(Reach(0x1_0001, {} + Span(m - 1, m) + Span(m + 1, 0x1_0000)))
  {
    hide Bare, Unwraps, Counts, Span, ValidConfig, ReachRun, NearTop, SlotOf;
    PartnerIs(cfg);
    ReachTwo(cfg);
    var events, nums, m := Events(cfg), Numbers(cfg), Partner(cfg);
    var jumped := {} + Span(m - 1, m);
    ReachAfter(events, nums, 2, Some(Reach(m + 1, jumped)));
    ReachAfter(events, nums, 3, Some(Reach(0x1_0001, jumped + Span(m + 1, 0x1_0000))));
    assert events[..4] == events && nums[..4] == nums;
  }

  /** The source sees m - 1 and everything between m and 65536 jumped over. */
  lemma SourceSees(cfg: Config)
    requires Uneven(cfg)
    ensures NearTop(Events(cfg), Numbers(cfg)) && StatsRun(Events(cfg)).lost == 0x1_0000 - Partner(cfg)
  {
    PartnerIs(cfg);
    EventsCarry(cfg);
    CarriesUnwraps(Events(cfg), Numbers(cfg), 1);
    ReachIs(cfg);
    EstimateRun(Events(cfg), Numbers(cfg));
    hide Bare, Events, Numbers;
    JumpedMore({}, Partner(cfg) - 1, Partner(cfg));
    JumpedMore({} + Span(Partner(cfg) - 1, Partner(cfg)), Partner(cfg) + 1, 0x1_0000);
  }

  /** With any window that does not divide 65536, the element counts one gap more than the source's
      estimate in the run above: the packet that was evicted. */
  lemma EvictedPacketIsMiscounted(cfg: Config)
    requires ValidConfig(cfg) && 0x1_0000 % cfg.window != 0
    ensures Carries(Events(cfg), Numbers(cfg), 1) && Orderly(cfg, Events(cfg), Numbers(cfg))
    ensures NearTop(Events(cfg), Numbers(cfg))
    ensures StatsRun(Events(cfg)).lost == 0x1_0000 % cfg.window
    ensures Run(cfg, Opened(cfg), Events(cfg)).count.lostGaps == 0x1_0000 % cfg.window + 1
  {
    EventsCarry(cfg);
    RunIs(cfg);
    Fourth(cfg);
    SourceSees(cfg);
    StreamRefines(cfg, Events(cfg), Numbers(cfg), 1);
  }

  /** Over every orderly stream the element reports no more loss than the source. */
  ghost predicate NeverMore(cfg: Config)
    requires ValidConfig(cfg)
  {
    forall events, nums, ssrc {:trigger Carries(events, nums, ssrc)} ::
      Carries(events, nums, ssrc) && Orderly(cfg, events, nums) && NearTop(events, nums) ==>
        Run(cfg, Opened(cfg), events).count.lostGaps <= StatsRun(events).lost
  }

  /** That is so exactly for the windows that divide the sequence space. */
  lemma NeverMoreExactly(cfg: Config)
    requires ValidConfig(cfg)
    ensures NeverMore(cfg) <==> 0x1_0000 % cfg.window == 0
  {
    hide Run, StatsRun, Orderly, NearTop, Events, Numbers;
    if 0x1_0000 % cfg.window == 0 {
      forall events, nums, ssrc | Carries(events, nums, ssrc) && Orderly(cfg, events, nums) && NearTop(events, nums)
        ensures Run(cfg, Opened(cfg), events).count.lostGaps <= StatsRun(events).lost
      {
        NeverMoreGaps(cfg, events, nums, ssrc);
      }
    } else {
      EvictedPacketIsMiscounted(cfg);
    }
  }

  // The same run on the ring: the waiting packet is evicted.

  lemma StoreEvicts(cfg: Config, r: Ring, id: nat, sequence: u16, now: u64)
    requires Shaped(cfg, r)
    requires var slot := r.slots[sequence % cfg.window]; slot.buffer.Some? && slot.sequence != sequence
    ensures !NoneEvicted(Insert(cfg, r, id, sequence, now).released)
  {
    var stored := Store(cfg, r, id, sequence, now);
    assert stored.released[|r.released|].reason == Evicted;
    assert Insert(cfg, r, id, sequence, now).released == stored.released;
  }

  lemma MateEvicted(cfg: Config, r: Ring, f: Flow, b: Base, m: int, n: int, id: nat, now: u64)
    requires Matches(cfg, r, f, b) && m in f.held && m < n < m + 0x1_0000 && SlotOf(cfg, m) == SlotOf(cfg, n)
    ensures !NoneEvicted(Insert(cfg, r, id, Lo16(n), now).released)
  {
    assert Keeps(cfg, r.slots, m, f.held[m]);
    assert Lo16(m) != Lo16(n);
    hide Insert, TableMatches, RecordsMatch, SlotsMatch, NoneEvicted;
    StoreEvicts(cfg, r, id, Lo16(n), now);
  }

  lemma PlaceInserts(cfg: Config, r: Ring, f: Flow, b: Base, n: int, id: nat, now: u64)
    requires Matches(cfg, r, f, b) && f.exp <= n < f.exp + 0x8000
    ensures Place(cfg, r, id, Lo16(n), now) == Insert(cfg, Overflow(cfg, r, Lo16(n)), id, Lo16(n), now)
  {
    hide Overflow, Insert, SlotsMatch, TableMatches;
    DistAhead(f.exp, n);
  }

  lemma ThirdEvicts(cfg: Config, r: Ring, id: nat)
    requires Uneven(cfg) && Matches(cfg, r, Flow2(Partner(cfg)), FRESH)
    ensures !NoneEvicted(Place(cfg, r, id, 0, 0).released)
  {
    PartnerIs(cfg);
    Room(cfg);
    var m := Partner(cfg);
    hide Overflow, Insert, Advance, Matches, NoneEvicted, Place;
    PlaceInserts(cfg, r, Flow2(m), FRESH, 0x1_0000, id, 0);
    AdvanceSimulates(cfg, r, Flow2(m), FRESH, 0x1_0000);
    MateEvicted(cfg, Overflow(cfg, r, 0), Advance(cfg, Flow2(m), 0x1_0000), FRESH, m, 0x1_0000, id, 0);
  }

  lemma PushPlaces(cfg: Config, r: Ring, n: int)
    requires Shaped(cfg, r) && r.lockedSsrc == 1
    ensures Step(cfg, r, Arriving(n)) == Place(cfg, Counting(r), r.count.inPackets, Lo16(n), 0)
  {
    hide Place, Bare;
    BareParses(Lo16(n), 1);
  }

  lemma {:induction false} OrderlyIsGuarded(cfg: Config, events: seq<Event>, nums: seq<int>, ssrc: u32)
    requires ValidConfig(cfg) && Carries(events, nums, ssrc) && Orderly(cfg, events, nums)
    ensures RunGuard(cfg, events)
    decreases |events|
  {
    if events != [] {
      var last := |events| - 1;
      OrderlyIsGuarded(cfg, events[..last], nums[..last], ssrc);
      StreamRefines(cfg, events[..last], nums[..last], ssrc);
      StepGuarded(cfg, Run(cfg, Opened(cfg), events[..last]), FlowRun(cfg, events[..last], nums[..last]),
                  events[last], nums[last], ssrc);
    }
  }

  lemma StepGuarded(cfg: Config, r: Ring, o: Option<Flow>, e: Event, n: int, ssrc: u32)
    requires Refines(cfg, r, o, ssrc) && ssrc != 0 && StepOrderly(cfg, o, e, n)
    requires e.Push? ==> e.arrival.accepted && ParseRtp(e.arrival.bytes) == Some(Header(Lo16(n), ssrc))
    ensures StepGuard(cfg, r, e)
  {
    match e {
      case Watchdog(now) =>
        if o.Some? {
          GuardAgrees(cfg, r.slots, o.value.exp, o.value.held, now);
        }
      case Push(a) =>
        var r1 := Counting(r).(lockedSsrc := ssrc);
        StartsClear(cfg, r, o, n, ssrc);
        PlaceStepGuarded(cfg, r1, Begun(o, n), n, r.count.inPackets, a.now);
    }
  }

  lemma PlaceStepGuarded(cfg: Config, r: Ring, f: Flow, n: int, id: nat, now: u64)
    requires Shaped(cfg, r) && Matches(cfg, Anchor(r, Lo16(n)), f, FRESH) && PlaceOrderly(cfg, f, n, now)
    ensures PlaceGuard(cfg, r, id, Lo16(n), now)
  {
    PlaceGuarded(cfg, Anchor(r, Lo16(n)), f, FRESH, n, id, now);
    AnchoredOnce(cfg, r, id, Lo16(n), now);
  }

  lemma CarriesPrefix(events: seq<Event>, nums: seq<int>, ssrc: u32, k: nat)
    requires Carries(events, nums, ssrc) && k <= |events|
    ensures Carries(events[..k], nums[..k], ssrc)
  {
  }

  lemma WitnessGuarded(cfg: Config)
    requires Uneven(cfg)
    ensures RunGuard(cfg, Events(cfg)[..3])
  {
    EventsCarry(cfg);
    AfterThree(cfg);
    hide Events, Numbers, Bare, Orderly, FlowRun, RunGuard;
    CarriesPrefix(Events(cfg), Numbers(cfg), 1, 3);
    OrderlyIsGuarded(cfg, Events(cfg)[..3], Numbers(cfg)[..3], 1);
  }

  lemma RunOneMore(cfg: Config, events: seq<Event>, k: nat)
    requires ValidConfig(cfg) && k < |events|
    ensures Run(cfg, Opened(cfg), events[..k + 1]) == Step(cfg, Run(cfg, Opened(cfg), events[..k]), events[k])
  {
    hide Step;
    assert events[..k + 1][..k] == events[..k];
  }

  lemma StepEvicts(cfg: Config, r: Ring)
    requires Uneven(cfg) && Refines(cfg, r, Some(Flow2(Partner(cfg))), 1)
    ensures !NoneEvicted(Step(cfg, r, Arriving(0x1_0000)).released)
  {
    assert Matches(cfg, Counting(r), Flow2(Partner(cfg)), FRESH);
    hide Bare, Place, Flow2, NoneEvicted, Step, Arriving, Matches;
    PushPlaces(cfg, r, 0x1_0000);
    ThirdEvicts(cfg, Counting(r), r.count.inPackets);
  }

  lemma WitnessRefines(cfg: Config)
    requires Uneven(cfg)
    ensures Refines(cfg, Run(cfg, Opened(cfg), Events(cfg)[..2]), Some(Flow2(Partner(cfg))), 1)
  {
    EventsCarry(cfg);
    AfterTwo(cfg);
    hide Bare, Orderly, FlowRun, Flow2, Run, Events, Numbers, Refines, Opened;
    CarriesPrefix(Events(cfg), Numbers(cfg), 1, 2);
    StreamRefines(cfg, Events(cfg)[..2], Numbers(cfg)[..2], 1);
  }

  lemma WitnessEvicts(cfg: Config)
    requires Uneven(cfg)
    ensures !NoneEvicted(Run(cfg, Opened(cfg), Events(cfg)[..3]).released)
  {
    WitnessRefines(cfg);
    assert Events(cfg)[2] == Arriving(0x1_0000);
    hide Bare, NoneEvicted, Step, Run, Events, Arriving, Flow2, Matches;
    RunOneMore(cfg, Events(cfg), 2);
    StepEvicts(cfg, Run(cfg, Opened(cfg), Events(cfg)[..2]));
  }

  /** No guarded run ever evicts. */
  ghost predicate NeverEvicts(cfg: Config)
    requires ValidConfig(cfg)
  {
    forall events {:trigger RunGuard(cfg, events)} ::
      RunGuard(cfg, events) ==> NoneEvicted(Run(cfg, Opened(cfg), events).released)
  }

  /** That, too, is so exactly for the windows that divide the sequence space. */
  lemma NeverEvictsExactly(cfg: Config)
    requires ValidConfig(cfg)
    ensures NeverEvicts(cfg) <==> 0x1_0000 % cfg.window == 0
  {
    hide Run, RunGuard, NoneEvicted, Events;
    if 0x1_0000 % cfg.window == 0 {
      forall events | RunGuard(cfg, events)
        ensures NoneEvicted(Run(cfg, Opened(cfg), events).released)
      {
        NothingEvicted(cfg, events);
      }
    } else {
      WitnessGuarded(cfg);
      WitnessEvicts(cfg);
    }
  }
}
