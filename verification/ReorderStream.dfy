/** One sender's stream through the reorder element, from open: over every orderly run the
    sixteen-bit ring refines a flow of unbounded numbers. */
module ReorderStream {
  import opened Words
  import opened RtpHeader
  import opened ReorderRing
  import opened ReorderUnwrapped
  import opened ReorderOrder

  /** Every pushed packet parses, comes from `ssrc`, and `nums` gives its unwrapped number. */
  predicate Carries(events: seq<Event>, nums: seq<int>, ssrc: u32) {
    && |events| == |nums| && ssrc != 0
    && forall i | 0 <= i < |events| && events[i].Push? ::
         events[i].arrival.accepted &&
         ParseRtp(events[i].arrival.bytes) == Some(Header(Lo16(nums[i]), ssrc))
  }

  function Begun(o: Option<Flow>, n: int): Flow {
    if o.Some? then o.value else StartFlow(n, {})
  }

  function FlowStep(cfg: Config, o: Option<Flow>, e: Event, n: int): Option<Flow>
    requires ValidConfig(cfg)
  {
    match e
    case Push(a) => Some(PlaceFlow(cfg, Begun(o, n), n, a.now))
    case Watchdog(now) => if o.Some? then Some(SettleFlow(cfg, o.value, now)) else None
  }

  function FlowRun(cfg: Config, events: seq<Event>, nums: seq<int>): Option<Flow>
    requires ValidConfig(cfg) && |events| == |nums|
    decreases |events|
  {
    if events == [] then None
    else
      var last := |events| - 1;
      FlowStep(cfg, FlowRun(cfg, events[..last], nums[..last]), events[last], nums[last])
  }

  /** A timeout skip from here goes to the lowest waiting number. */
  predicate LowestFirst(cfg: Config, f: Flow, now: u64) {
    var first := FirstExpired(cfg, f.held, f.exp, f.exp + cfg.window, now);
    first.Some? ==> forall m | m in f.held :: first.value <= m
  }

  /** Half-range reading is right, and a timeout skip overtakes nothing. */
  predicate PlaceOrderly(cfg: Config, f: Flow, n: int, now: u64)
    requires ValidConfig(cfg)
  {
    && f.exp - 0x8000 <= n < f.exp + 0x8000
    && (n >= f.exp && n !in Advance(cfg, f, n).held ==>
          LowestFirst(cfg, DrainFlow(StoreFlow(cfg, Advance(cfg, f, n), n, now)), now))
  }

  predicate StepOrderly(cfg: Config, o: Option<Flow>, e: Event, n: int)
    requires ValidConfig(cfg)
  {
    match e
    case Push(a) => PlaceOrderly(cfg, Begun(o, n), n, a.now)
    case Watchdog(now) => o.Some? ==> LowestFirst(cfg, o.value, now)
  }

  predicate Orderly(cfg: Config, events: seq<Event>, nums: seq<int>)
    requires ValidConfig(cfg) && |events| == |nums|
    decreases |events|
  {
    events == [] ||
    (var last := |events| - 1;
     && Orderly(cfg, events[..last], nums[..last])
     && StepOrderly(cfg, FlowRun(cfg, events[..last], nums[..last]), events[last], nums[last]))
  }

  const FRESH := Base(0, 0, 0, 0, 0)

  predicate Refines(cfg: Config, r: Ring, o: Option<Flow>, ssrc: u32) {
    && Shaped(cfg, r)
    && match o
       case None => Quiet(r) && Clear(r.skipped) && r.lockedSsrc == 0 && r.output == [] &&
                    r.count.(inPackets := 0) == Counters(0, 0, 0, 0, 0, 0)
       case Some(f) => Matches(cfg, r, f, FRESH) && FlowOk(f) && r.lockedSsrc == ssrc
  }

  lemma GuardAgrees(cfg: Config, slots: seq<Slot>, exp: int, held: map<int, u64>, now: u64)
    requires ValidConfig(cfg) && |slots| == cfg.window && SlotsMatch(cfg, slots, exp, held)
    requires var first := FirstExpired(cfg, held, exp, exp + cfg.window, now);
             first.Some? ==> forall m | m in held :: first.value <= m
    ensures NothingNearer(cfg, slots, Lo16(exp), now)
  {
    NearestAgrees(cfg, slots, exp, held, now);
    var first := FirstExpired(cfg, held, exp, exp + cfg.window, now);
    if first.Some? {
      DistAhead(exp, first.value);
      forall i | 0 <= i < |slots| && slots[i].buffer.Some?
        ensures Dist16(slots[i].sequence, Lo16(exp)) >= Dist16(Lo16(first.value), Lo16(exp))
      {
        assert Accounted(cfg, slots[i], i, exp, held);
        var m := Ahead(exp, slots[i].sequence);
        LowOfAhead(exp, slots[i].sequence);
        assert Keeps(cfg, slots, m, held[m]);
        DistAhead(exp, m);
      }
    }
  }

  lemma PlaceGuarded(cfg: Config, r: Ring, f: Flow, b: Base, n: int, id: nat, now: u64)
    requires Matches(cfg, r, f, b) && PlaceOrderly(cfg, f, n, now)
    ensures PlaceGuard(cfg, r, id, Lo16(n), now)
  {
    if n >= f.exp {
      DistAhead(f.exp, n);
      AdvanceSimulates(cfg, r, f, b, n);
      var s, g := Overflow(cfg, r, Lo16(n)), Advance(cfg, f, n);
      DuplicateAgrees(cfg, s, g, b, n);
      if n !in g.held {
        StoreSimulates(cfg, s, g, b, n, id, now);
        var s1, g1 := Store(cfg, s, id, Lo16(n), now), StoreFlow(cfg, g, n, now);
        DrainSimulates(cfg, s1, g1, b);
        GuardAgrees(cfg, Drain(cfg, s1).slots, DrainFlow(g1).exp, DrainFlow(g1).held, now);
      }
    } else {
      DistBehind(f.exp, n);
    }
  }

  lemma PlaceRefines(cfg: Config, r: Ring, f: Flow, n: int, id: nat, now: u64, ssrc: u32)
    requires Matches(cfg, r, f, FRESH) && FlowOk(f) && r.lockedSsrc == ssrc
    requires PlaceOrderly(cfg, f, n, now)
    ensures Refines(cfg, Place(cfg, r, id, Lo16(n), now), Some(PlaceFlow(cfg, f, n, now)), ssrc)
  {
    PlaceGuarded(cfg, r, f, FRESH, n, id, now);
    PlaceSimulates(cfg, r, f, FRESH, n, id, now);
    PlaceOk(cfg, f, n, now);
  }

  /** The first packet, or the next one, as it is placed. */
  lemma PushRefines(cfg: Config, r: Ring, o: Option<Flow>, a: Arrival, n: int, ssrc: u32)
    requires Refines(cfg, r, o, ssrc) && PlaceOrderly(cfg, Begun(o, n), n, a.now)
    ensures var r1 := Counting(r).(lockedSsrc := ssrc);
            Refines(cfg, Place(cfg, r1, r.count.inPackets, Lo16(n), a.now),
                    Some(PlaceFlow(cfg, Begun(o, n), n, a.now)), ssrc)
  {
    var r1, id := Counting(r).(lockedSsrc := ssrc), r.count.inPackets;
    var r2 := Anchor(r1, Lo16(n));
    assert Matches(cfg, r2, Begun(o, n), FRESH) && FlowOk(Begun(o, n)) && r2.lockedSsrc == ssrc;
    hide Refines, Begun, Matches, FlowOk, PlaceOrderly, Place, PlaceFlow, Anchor, Counting;
    AnchoredOnce(cfg, r1, id, Lo16(n), a.now);
    PlaceRefines(cfg, r2, Begun(o, n), n, id, a.now, ssrc);
  }

  lemma StepRefines(cfg: Config, r: Ring, o: Option<Flow>, e: Event, n: int, ssrc: u32)
    requires Refines(cfg, r, o, ssrc) && ssrc != 0 && StepOrderly(cfg, o, e, n)
    requires e.Push? ==> e.arrival.accepted && ParseRtp(e.arrival.bytes) == Some(Header(Lo16(n), ssrc))
    ensures Refines(cfg, Step(cfg, r, e), FlowStep(cfg, o, e, n), ssrc)
  {
    match e {
      case Watchdog(now) =>
        match o {
          case None => SettleQuiet(cfg, r, now);
          case Some(f) =>
            GuardAgrees(cfg, r.slots, f.exp, f.held, now);
            SettleSimulates(cfg, r, f, FRESH, now);
            SettleOk(cfg, f, now);
        }
      case Push(a) =>
        assert r.lockedSsrc == 0 || r.lockedSsrc == ssrc;
        PushRefines(cfg, r, o, a, n, ssrc);
        hide Place, PlaceFlow, PlaceOrderly, Refines;
    }
  }

  /** The sixteen-bit ring refines the flow of unbounded numbers. */
  lemma {:induction false} StreamRefines(cfg: Config, events: seq<Event>, nums: seq<int>, ssrc: u32)
    requires ValidConfig(cfg) && Carries(events, nums, ssrc) && Orderly(cfg, events, nums)
    ensures Refines(cfg, Run(cfg, Opened(cfg), events), FlowRun(cfg, events, nums), ssrc)
    decreases |events|
  {
    if events != [] {
      var last := |events| - 1;
      StreamRefines(cfg, events[..last], nums[..last], ssrc);
      StepRefines(cfg, Run(cfg, Opened(cfg), events[..last]), FlowRun(cfg, events[..last], nums[..last]),
                  events[last], nums[last], ssrc);
    }
  }
}
