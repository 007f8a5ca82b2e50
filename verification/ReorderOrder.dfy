/** Order over every run of pushes and watchdog drains, across SSRC switches: as long as each
    timeout skip goes to the nearest waiting packet, the ring keeps its window and emits in
    strictly increasing unwrapped order. The guard is exact, and a short run breaks it. */
module ReorderOrder {
  import opened Words
  import opened Ranges
  import opened RtpHeader
  import opened ReorderRing
  import opened ReorderLabels
  import opened ReorderUnwrapped

  /** What every flow satisfies: emitted numbers increase and lie between `start` and `exp`,
      and each number passed was either emitted or counted as a gap. */
  predicate FlowOk(f: Flow) {
    && f.start <= f.exp
    && Increasing(f.out)
    && (forall k | 0 <= k < |f.out| :: f.start <= f.out[k] < f.exp)
    && |f.out| + f.gaps == f.exp - f.start
  }

  lemma {:induction false} DrainOk(f: Flow)
    requires FlowOk(f)
    ensures FlowOk(DrainFlow(f)) && DrainFlow(f).exp !in DrainFlow(f).held
    decreases |f.held|
  {
    if f.exp in f.held {
      DrainOk(EmitHead(f));
    }
  }

  lemma {:induction false} SkipOk(f: Flow, n: int)
    requires FlowOk(f) && f.exp <= n
    ensures FlowOk(SkipFlow(f, n)) && SkipFlow(f, n).exp == n
    decreases n - f.exp
  {
    if f.exp != n {
      SkipOk(SkipHead(f), n);
    }
  }

  lemma {:induction false} AdvanceOk(cfg: Config, f: Flow, n: int)
    requires ValidConfig(cfg) && FlowOk(f)
    ensures FlowOk(Advance(cfg, f, n))
    decreases n - f.exp
  {
    if n - f.exp < cfg.window {
    } else if f.exp in f.held {
      AdvanceOk(cfg, EmitHead(f), n);
    } else {
      AdvanceOk(cfg, SkipHead(f), n);
    }
  }

  lemma SettleOk(cfg: Config, f: Flow, now: u64)
    requires FlowOk(f)
    ensures FlowOk(SettleFlow(cfg, f, now))
  {
    match FirstExpired(cfg, f.held, f.exp, f.exp + cfg.window, now) {
      case None =>
      case Some(n) => SkipOk(f, n);
    }
    DrainOk(SkipGapFlow(cfg, f, now));
  }

  lemma PlaceOk(cfg: Config, f: Flow, n: int, now: u64)
    requires ValidConfig(cfg) && FlowOk(f)
    ensures FlowOk(PlaceFlow(cfg, f, n, now))
  {
    if n >= f.exp {
      AdvanceOk(cfg, f, n);
      var g := Advance(cfg, f, n);
      if n !in g.held {
        DrainOk(StoreFlow(cfg, g, n, now));
        SettleOk(cfg, DrainFlow(StoreFlow(cfg, g, n, now)), now);
      }
    }
  }

  /** Emitting and skipping stay in the epoch and evict nothing. */
  predicate Onward(f: Flow, g: Flow) {
    g.start == f.start && g.left == f.left && g.evicted == f.evicted
  }

  lemma {:induction false} DrainOnward(f: Flow)
    ensures Onward(f, DrainFlow(f))
    decreases |f.held|
  {
    if f.exp in f.held {
      DrainOnward(EmitHead(f));
    }
  }

  lemma {:induction false} SkipOnward(f: Flow, n: int)
    requires f.exp <= n
    ensures Onward(f, SkipFlow(f, n))
    decreases n - f.exp
  {
    if f.exp != n {
      SkipOnward(SkipHead(f), n);
    }
  }

  lemma {:induction false} AdvanceOnward(cfg: Config, f: Flow, n: int)
    requires ValidConfig(cfg)
    ensures Onward(f, Advance(cfg, f, n))
    decreases n - f.exp
  {
    if n - f.exp < cfg.window {
    } else if f.exp in f.held {
      AdvanceOnward(cfg, EmitHead(f), n);
    } else {
      AdvanceOnward(cfg, SkipHead(f), n);
    }
  }

  lemma SettleOnward(cfg: Config, f: Flow, now: u64)
    ensures Onward(f, SettleFlow(cfg, f, now))
  {
    match FirstExpired(cfg, f.held, f.exp, f.exp + cfg.window, now) {
      case None =>
      case Some(n) => SkipOnward(f, n);
    }
    DrainOnward(SkipGapFlow(cfg, f, now));
  }

  /** The number nearest to `exp` with low half `s`, on the half-range reading of the distance. */
  function Near(exp: int, s: u16): (n: int)
    ensures exp - 0x8000 <= n < exp + 0x8000 && Lo16(n) == s
  {
    if Dist16(s, exp) < 0x8000 then exp + Dist16(s, exp) else exp + Dist16(s, exp) - 0x1_0000
  }

  /** The unwrapped account of a run: nothing before the first packet of an epoch, a flow after. */
  datatype Track = Idle | Live(flow: Flow, base: Base)

  predicate Quiet(r: Ring) {
    !r.haveExpected && forall i | 0 <= i < |r.slots| :: r.slots[i].buffer.None?
  }

  predicate Follows(cfg: Config, r: Ring, t: Track) {
    && Shaped(cfg, r)
    && match t
       case Idle => Quiet(r)
       case Live(f, b) => Matches(cfg, r, f, b) && FlowOk(f)
  }

  predicate Clear(skipped: seq<bool>) {
    forall i | 0 <= i < |skipped| :: !skipped[i]
  }

  /** Before a packet numbered `n`, with `left` marked in the table. */
  function StartFlow(n: int, left: set<int>): Flow {
    Flow(n, left, n, map[], left, {}, {}, [], 0, 0, 0, 0)
  }

  /** The numbers up to half a lap before `n` that are marked in the table. */
  function LeftOver(skipped: seq<bool>, n: int): set<int>
    requires |skipped| == 0x1_0000
  {
    set m | n - 0x8000 <= m < n && skipped[Lo16(m)]
  }

  function BaseOf(r: Ring): Base {
    Base(|r.output|, r.count.lostGaps, r.count.latePackets, r.count.droppedOld, r.count.droppedDup)
  }

  function TrackPlace(cfg: Config, r: Ring, t: Track, sequence: u16, now: u64): Track
    requires Shaped(cfg, r)
  {
    match t
    case Idle => Live(PlaceFlow(cfg, StartFlow(sequence, LeftOver(r.skipped, sequence)), sequence, now), BaseOf(r))
    case Live(f, b) => Live(PlaceFlow(cfg, f, Near(f.exp, sequence), now), b)
  }

  function TrackAccept(cfg: Config, r: Ring, t: Track, h: Header, a: Arrival): Track
    requires Shaped(cfg, r)
  {
    match SsrcGate(cfg, r.lockedSsrc, h.ssrc, a)
    case Reject => t
    case Admit => TrackPlace(cfg, r, t, h.sequence, a.now)
    case LockThen(ok) => if ok then TrackPlace(cfg, r, t, h.sequence, a.now) else t
    case SwitchThen(ok) => if ok then TrackPlace(cfg, r, Idle, h.sequence, a.now) else Idle
  }

  function TrackStep(cfg: Config, r: Ring, t: Track, e: Event): Track
    requires Shaped(cfg, r)
  {
    match e
    case Watchdog(now) => if t.Live? then Live(SettleFlow(cfg, t.flow, now), t.base) else Idle
    case Push(a) =>
      match ParseRtp(a.bytes)
      case None => t
      case Some(h) => TrackAccept(cfg, r, t, h, a)
  }

  function TrackRun(cfg: Config, events: seq<Event>): Track
    requires ValidConfig(cfg)
    decreases |events|
  {
    if events == [] then Idle
    else
      var before := events[..|events| - 1];
      TrackStep(cfg, Run(cfg, Opened(cfg), before), TrackRun(cfg, before), events[|events| - 1])
  }

  predicate AcceptGuard(cfg: Config, r: Ring, id: nat, h: Header, a: Arrival)
    requires Shaped(cfg, r)
  {
    match SsrcGate(cfg, r.lockedSsrc, h.ssrc, a)
    case Reject => true
    case Admit => PlaceGuard(cfg, r, id, h.sequence, a.now)
    case LockThen(ok) => ok ==> PlaceGuard(cfg, r.(lockedSsrc := h.ssrc), id, h.sequence, a.now)
    case SwitchThen(ok) => ok ==> PlaceGuard(cfg, SwitchSsrc(r, h.ssrc), id, h.sequence, a.now)
  }

  /** If this event makes a timeout skip, the skip goes to the nearest waiting packet. */
  predicate StepGuard(cfg: Config, r: Ring, e: Event)
    requires Shaped(cfg, r)
  {
    match e
    case Watchdog(now) => NothingNearer(cfg, r.slots, r.expected, now)
    case Push(a) =>
      match ParseRtp(a.bytes)
      case None => true
      case Some(h) => AcceptGuard(cfg, Counting(r), r.count.inPackets, h, a)
  }

  predicate RunGuard(cfg: Config, events: seq<Event>)
    requires ValidConfig(cfg)
    decreases |events|
  {
    events == [] ||
    (var before := events[..|events| - 1];
     RunGuard(cfg, before) && StepGuard(cfg, Run(cfg, Opened(cfg), before), events[|events| - 1]))
  }

  lemma AnchorMatches(cfg: Config, r: Ring, n: int)
    requires Shaped(cfg, r) && Quiet(r)
    ensures Matches(cfg, Anchor(r, Lo16(n)), StartFlow(n, LeftOver(r.skipped, n)), BaseOf(r))
  {
  }

  lemma AnchoredOnce(cfg: Config, r: Ring, id: nat, sequence: u16, now: u64)
    requires Shaped(cfg, r)
    ensures Shaped(cfg, Anchor(r, sequence))
    ensures Place(cfg, Anchor(r, sequence), id, sequence, now) == Place(cfg, r, id, sequence, now)
    ensures PlaceGuard(cfg, Anchor(r, sequence), id, sequence, now) == PlaceGuard(cfg, r, id, sequence, now)
  {
    hide Overflow, Insert, InsertGuard, Behind, Dist16;
  }

  /** The first packet of an epoch is placed as any other, on a ring whose counter it has set. */
  lemma EpochBegins(cfg: Config, r: Ring, id: nat, n: u16, now: u64)
    requires Shaped(cfg, r) && Quiet(r)
    ensures var r0 := Anchor(r, n);
            && Matches(cfg, r0, StartFlow(n, LeftOver(r.skipped, n)), BaseOf(r)) && r0.released == r.released
            && Place(cfg, r0, id, n, now) == Place(cfg, r, id, n, now)
            && PlaceGuard(cfg, r0, id, n, now) == PlaceGuard(cfg, r, id, n, now)
  {
    assert Lo16(n) == n;
    hide Matches, LeftOver, BaseOf, Place, PlaceGuard, Quiet, StartFlow, Lo16;
    AnchorMatches(cfg, r, n);
    AnchoredOnce(cfg, r, id, n, now);
  }

  lemma PlaceFollows(cfg: Config, r: Ring, t: Track, id: nat, sequence: u16, now: u64)
    requires Follows(cfg, r, t) && PlaceGuard(cfg, r, id, sequence, now)
    ensures Follows(cfg, Place(cfg, r, id, sequence, now), TrackPlace(cfg, r, t, sequence, now))
  {
    match t {
      case Idle =>
        EpochBegins(cfg, r, id, sequence, now);
        hide Matches, LeftOver, BaseOf, Place, PlaceGuard, PlaceFlow, Anchor;
        var f, b := StartFlow(sequence, LeftOver(r.skipped, sequence)), BaseOf(r);
        PlaceSimulates(cfg, Anchor(r, sequence), f, b, sequence, id, now);
        PlaceOk(cfg, f, sequence, now);
      case Live(f, b) =>
        hide Matches, LeftOver, BaseOf, Place, PlaceGuard, PlaceFlow;
        PlaceSimulates(cfg, r, f, b, Near(f.exp, sequence), id, now);
        PlaceOk(cfg, f, Near(f.exp, sequence), now);
    }
  }

  lemma SettleQuiet(cfg: Config, r: Ring, now: u64)
    requires Shaped(cfg, r) && Quiet(r)
    ensures Settle(cfg, r, now) == r
  {
  }

  /** The account of a run does not depend on the SSRC or on the packet count. */
  lemma SameFollows(cfg: Config, r: Ring, t: Track, ssrc: u32)
    requires Follows(cfg, r, t)
    ensures Follows(cfg, r.(lockedSsrc := ssrc), t)
    ensures Follows(cfg, Counting(r), t)
  {
  }

  lemma AcceptFollows(cfg: Config, r: Ring, t: Track, id: nat, h: Header, a: Arrival)
    requires Follows(cfg, r, t) && AcceptGuard(cfg, r, id, h, a)
    ensures Follows(cfg, Accept(cfg, r, id, h, a), TrackAccept(cfg, r, t, h, a))
  {
    match SsrcGate(cfg, r.lockedSsrc, h.ssrc, a) {
      case Reject => assert Accept(cfg, r, id, h, a).slots == r.slots;
      case Admit => PlaceFollows(cfg, r, t, id, h.sequence, a.now);
      case LockThen(ok) =>
        var locked := r.(lockedSsrc := h.ssrc);
        SameFollows(cfg, r, t, h.ssrc);
        if ok {
          PlaceFollows(cfg, locked, t, id, h.sequence, a.now);
        } else {
          assert Accept(cfg, r, id, h, a) == Let(locked, id, PropertyError);
        }
      case SwitchThen(ok) =>
        var switched := SwitchSsrc(r, h.ssrc);
        assert Follows(cfg, switched, Idle);
        if ok {
          PlaceFollows(cfg, switched, Idle, id, h.sequence, a.now);
        }
    }
  }

  lemma StepFollows(cfg: Config, r: Ring, t: Track, e: Event)
    requires Follows(cfg, r, t) && StepGuard(cfg, r, e)
    ensures Follows(cfg, Step(cfg, r, e), TrackStep(cfg, r, t, e))
  {
    match e {
      case Watchdog(now) =>
        if t.Live? {
          SettleSimulates(cfg, r, t.flow, t.base, now);
          SettleOk(cfg, t.flow, now);
        } else {
          SettleQuiet(cfg, r, now);
        }
      case Push(a) =>
        if ParseRtp(a.bytes).Some? {
          SameFollows(cfg, r, t, 0);
          AcceptFollows(cfg, Counting(r), t, r.count.inPackets, ParseRtp(a.bytes).value, a);
        }
    }
  }

  lemma {:induction false} RunFollows(cfg: Config, events: seq<Event>)
    requires ValidConfig(cfg) && RunGuard(cfg, events)
    ensures Follows(cfg, Run(cfg, Opened(cfg), events), TrackRun(cfg, events))
    decreases |events|
  {
    if events != [] {
      var before := events[..|events| - 1];
      RunFollows(cfg, before);
      StepFollows(cfg, Run(cfg, Opened(cfg), before), TrackRun(cfg, before), events[|events| - 1]);
    }
  }

  /** Every occupied slot is the right one for its number and lies in the window. */
  predicate Windowed(cfg: Config, r: Ring)
    requires Shaped(cfg, r)
  {
    forall i | 0 <= i < cfg.window && r.slots[i].buffer.Some? ::
      r.slots[i].sequence % cfg.window == i && Dist16(r.slots[i].sequence, r.expected) < cfg.window
  }

  /** Over every guarded run, from open, through any number of SSRC switches: the slots stay in
      the window, every packet was sent under the number in its own header, and those sent since
      the epoch began have the low halves of strictly increasing numbers; those numbers and the
      gaps newly counted make up the whole way that the expected number has come since the
      epoch's first packet. */
  lemma EmittedInOrder(cfg: Config, events: seq<Event>)
    requires ValidConfig(cfg) && RunGuard(cfg, events)
    ensures var r := Run(cfg, Opened(cfg), events);
            && Windowed(cfg, r)
            && OutputLabelled(Pushed(events), r.output)
            && (r.haveExpected ==>
                  && TrackRun(cfg, events).Live?
                  && var Live(f, b) := TrackRun(cfg, events);
                     && r.expected == Lo16(f.exp)
                     && |r.output| == b.output + |f.out|
                     && (forall k | 0 <= k < |f.out| :: r.output[b.output + k].sequence == Lo16(f.out[k]))
                     && Increasing(f.out)
                     && (forall k | 0 <= k < |f.out| :: f.start <= f.out[k] < f.exp)
                     && f.exp - f.start == |f.out| + (r.count.lostGaps - b.lostGaps))
  {
    hide Windowed, Run, TrackRun, RunGuard, Opened, Pushed, SlotsMatch, TableMatches, SlotLabelled, OutputLabelled;
    hide Increasing, LostBehind;
    RunFollows(cfg, events);
    RunLabelled(cfg, events);
    FollowsWindowed(cfg, Run(cfg, Opened(cfg), events), TrackRun(cfg, events));
  }

  lemma FollowsWindowed(cfg: Config, r: Ring, t: Track)
    requires Follows(cfg, r, t)
    ensures Windowed(cfg, r)
  {
    if t.Live? {
      MatchesWindowed(cfg, r, t.flow, t.base);
    }
  }

  lemma MatchesWindowed(cfg: Config, r: Ring, f: Flow, b: Base)
    requires Matches(cfg, r, f, b)
    ensures Windowed(cfg, r)
  {
    forall i | 0 <= i < cfg.window && r.slots[i].buffer.Some?
      ensures r.slots[i].sequence % cfg.window == i && Dist16(r.slots[i].sequence, r.expected) < cfg.window
    {
      assert Accounted(cfg, r.slots[i], i, f.exp, f.held);
      var n := Ahead(f.exp, r.slots[i].sequence);
      assert Keeps(cfg, r.slots, n, f.held[n]);
      LowOfAhead(f.exp, r.slots[i].sequence);
      DistAhead(f.exp, n);
    }
  }

  /** Skipping touches no slot and counts every number it passes. */
  lemma {:induction false} SkipToTotal(cfg: Config, r: Ring, target: u16)
    requires Shaped(cfg, r)
    ensures var t := SkipTo(cfg, r, target);
            && t.slots == r.slots && t.output == r.output && t.expected == target
            && t.count.lostGaps == r.count.lostGaps + Dist16(target, r.expected)
    decreases Dist16(target, r.expected)
  {
    if r.expected != target {
      SkipToTotal(cfg, SkipExpected(cfg, r), target);
    }
  }

  lemma OvertakenDistance(s: u16, expected: u16, target: u16)
    ensures Dist16(s, expected) < Dist16(target, expected) ==>
              Dist16(s, target) == 0x1_0000 + Dist16(s, expected) - Dist16(target, expected)
    ensures Dist16(s, expected) >= Dist16(target, expected) ==>
              Dist16(s, target) == Dist16(s, expected) - Dist16(target, expected)
  {
  }

  /** The guard is exact: a timeout skip keeps the slots in the window if and only if it goes to
      the nearest waiting packet. Otherwise the packet it steps over ends up behind `expected`. */
  lemma GuardIsExact(cfg: Config, r: Ring, now: u64)
    requires Shaped(cfg, r) && Windowed(cfg, r)
    ensures Windowed(cfg, SkipGap(cfg, r, now)) <==> NothingNearer(cfg, r.slots, r.expected, now)
  {
    var best := Nearest(cfg, r.slots, r.expected, now, |r.slots|);
    if best.Some? {
      SkipToTotal(cfg, r, best.value);
      forall i | 0 <= i < cfg.window && r.slots[i].buffer.Some?
        ensures Dist16(r.slots[i].sequence, best.value) < cfg.window <==>
                Dist16(r.slots[i].sequence, r.expected) >= Dist16(best.value, r.expected)
      {
        OvertakenDistance(r.slots[i].sequence, r.expected, best.value);
      }
    }
  }
}
