/** Which packet is sent as which number of a stream: beyond the sixteen-bit labels, the buffer
    emitted as an unbounded number is a buffer that was pushed with that very number, and so is
    never exchanged for one that is whole laps away. */
module ReorderNumbers {
  import opened Words
  import opened RtpHeader
  import opened ReorderRing
  import opened ReorderUnwrapped
  import opened ReorderOrder
  import opened ReorderStream
  import opened ReorderAccounting

  /** The numbers of the buffers pushed by a run; a buffer's id is its place here. */
  function PushedNumbers(events: seq<Event>, nums: seq<int>): (pn: seq<int>)
    requires |events| == |nums|
    decreases |events|
  {
    if events == [] then []
    else
      var last := |events| - 1;
      PushedNumbers(events[..last], nums[..last]) + if events[last].Push? then [nums[last]] else []
  }

  predicate Has(pn: seq<int>, id: nat, n: int) {
    id < |pn| && pn[id] == n
  }

  predicate SlotOwned(pn: seq<int>, s: Slot, exp: int) {
    s.buffer.Some? ==> Has(pn, s.buffer.value, Ahead(exp, s.sequence))
  }

  /** Emission `k` is a buffer pushed with number `out[k]`. */
  predicate Sends(pn: seq<int>, output: seq<Emission>, out: seq<int>) {
    |output| == |out| && forall k | 0 <= k < |output| :: Has(pn, output[k].id, out[k])
  }

  predicate Owns(pn: seq<int>, r: Ring, f: Flow) {
    && (forall i | 0 <= i < |r.slots| :: SlotOwned(pn, r.slots[i], f.exp))
    && Sends(pn, r.output, f.out)
  }

  lemma EmitSlots(cfg: Config, slots: seq<Slot>, exp: int, held: map<int, u64>, pn: seq<int>, s: Slot)
    requires ValidConfig(cfg) && |slots| == cfg.window && SlotsMatch(cfg, slots, exp, held) && s.buffer.None?
    requires forall i | 0 <= i < |slots| :: SlotOwned(pn, slots[i], exp)
    ensures var t := slots[SlotOf(cfg, exp) := s];
            forall i | 0 <= i < |t| :: SlotOwned(pn, t[i], exp + 1)
  {
    forall i | 0 <= i < |slots| && i != SlotOf(cfg, exp)
      ensures SlotOwned(pn, slots[i], exp + 1)
    {
      assert SlotOwned(pn, slots[i], exp) && Accounted(cfg, slots[i], i, exp, held);
      AheadShift(exp, slots[i].sequence);
      LowOfAhead(exp, slots[i].sequence);
    }
  }

  /** The buffer in the slot of the expected number was pushed with that number. */
  lemma HeadOwned(cfg: Config, r: Ring, f: Flow, b: Base, pn: seq<int>)
    requires Matches(cfg, r, f, b) && f.exp in f.held && Owns(pn, r, f)
    ensures HeadReady(cfg, r) && Has(pn, r.slots[SlotOf(cfg, f.exp)].buffer.value, f.exp)
  {
    HeadAgrees(cfg, r, f);
    AheadOfLow(f.exp, f.exp);
    hide SlotsMatch, TableMatches, RecordsMatch, Has, Sends;
    assert SlotOwned(pn, r.slots[SlotOf(cfg, f.exp)], f.exp);
  }

  lemma OneMoreSent(pn: seq<int>, output: seq<Emission>, out: seq<int>, e: Emission, n: int)
    requires Sends(pn, output, out) && Has(pn, e.id, n)
    ensures Sends(pn, output + [e], out + [n])
  {
    hide Has;
  }

  lemma EmitOwns(cfg: Config, r: Ring, f: Flow, b: Base, pn: seq<int>)
    requires Matches(cfg, r, f, b) && f.exp in f.held && Owns(pn, r, f)
    ensures HeadReady(cfg, r) && Owns(pn, Emit(cfg, r), EmitHead(f))
  {
    hide SlotOwned, Has, SlotsMatch, TableMatches, RecordsMatch, Sends;
    HeadOwned(cfg, r, f, b, pn);
    var s := r.slots[SlotOf(cfg, f.exp)];
    OneMoreSent(pn, r.output, f.out, Emission(s.buffer.value, s.sequence), f.exp);
    EmitSlots(cfg, r.slots, f.exp, f.held, pn, s.(buffer := None));
  }

  lemma SkipOwns(cfg: Config, r: Ring, f: Flow, b: Base, pn: seq<int>)
    requires Matches(cfg, r, f, b) && f.exp !in f.held && Owns(pn, r, f)
    ensures Owns(pn, SkipExpected(cfg, r), SkipHead(f))
  {
    forall i | 0 <= i < |r.slots|
      ensures SlotOwned(pn, r.slots[i], f.exp + 1)
    {
      assert SlotOwned(pn, r.slots[i], f.exp) && Accounted(cfg, r.slots[i], i, f.exp, f.held);
      AheadShift(f.exp, r.slots[i].sequence);
    }
  }

  lemma {:induction false} DrainOwns(cfg: Config, r: Ring, f: Flow, b: Base, pn: seq<int>)
    requires Matches(cfg, r, f, b) && Owns(pn, r, f)
    ensures Owns(pn, Drain(cfg, r), DrainFlow(f))
    decreases |f.held|
  {
    HeadAgrees(cfg, r, f);
    hide Owns, SlotsMatch, TableMatches, RecordsMatch;
    if f.exp in f.held {
      EmitSimulates(cfg, r, f, b);
      EmitOwns(cfg, r, f, b, pn);
      DrainOwns(cfg, Emit(cfg, r), EmitHead(f), b, pn);
    }
  }

  lemma {:induction false} SkipToOwns(cfg: Config, r: Ring, f: Flow, b: Base, n: int, pn: seq<int>)
    requires Matches(cfg, r, f, b) && f.exp <= n < f.exp + 0x1_0000 && Owns(pn, r, f)
    requires forall m | m in f.held :: n <= m
    ensures Owns(pn, SkipTo(cfg, r, Lo16(n)), SkipFlow(f, n))
    decreases n - f.exp
  {
    hide Owns, SlotsMatch, TableMatches, RecordsMatch;
    DistAhead(f.exp, n);
    if f.exp != n {
      SkipSimulates(cfg, r, f, b);
      SkipOwns(cfg, r, f, b, pn);
      SkipToOwns(cfg, SkipExpected(cfg, r), SkipHead(f), b, n, pn);
    }
  }

  lemma SkipGapOwns(cfg: Config, r: Ring, f: Flow, b: Base, now: u64, pn: seq<int>)
    requires Matches(cfg, r, f, b) && NothingNearer(cfg, r.slots, r.expected, now) && Owns(pn, r, f)
    ensures Owns(pn, SkipGap(cfg, r, now), SkipGapFlow(cfg, f, now))
  {
    hide Matches, Owns, NothingNearer, Nearest, FirstExpired, SkipTo, SkipFlow, SlotsMatch;
    MatchesShape(cfg, r, f, b);
    NearestAgrees(cfg, r.slots, f.exp, f.held, now);
    var first := FirstExpired(cfg, f.held, f.exp, f.exp + cfg.window, now);
    if first.Some? {
      NothingNearerAgrees(cfg, r.slots, f.exp, f.held, now, first.value);
      SkipToOwns(cfg, r, f, b, first.value, pn);
    }
  }

  lemma MatchesShape(cfg: Config, r: Ring, f: Flow, b: Base)
    requires Matches(cfg, r, f, b)
    ensures Shaped(cfg, r) && r.expected == Lo16(f.exp) && SlotsMatch(cfg, r.slots, f.exp, f.held)
  {
  }

  lemma SettleOwns(cfg: Config, r: Ring, f: Flow, b: Base, now: u64, pn: seq<int>)
    requires Matches(cfg, r, f, b) && NothingNearer(cfg, r.slots, r.expected, now) && Owns(pn, r, f)
    ensures Owns(pn, Settle(cfg, r, now), SettleFlow(cfg, f, now))
  {
    hide Owns, SlotsMatch, TableMatches, RecordsMatch, NothingNearer;
    SkipGapSimulates(cfg, r, f, b, now);
    SkipGapOwns(cfg, r, f, b, now, pn);
    DrainOwns(cfg, SkipGap(cfg, r, now), SkipGapFlow(cfg, f, now), b, pn);
  }

  lemma {:induction false} AdvanceOwns(cfg: Config, r: Ring, f: Flow, b: Base, n: int, pn: seq<int>)
    requires Matches(cfg, r, f, b) && f.exp <= n < f.exp + 0x1_0000 && Owns(pn, r, f)
    ensures Owns(pn, Overflow(cfg, r, Lo16(n)), Advance(cfg, f, n))
    decreases n - f.exp
  {
    hide Owns, SlotsMatch, TableMatches, RecordsMatch;
    DistAhead(f.exp, n);
    HeadAgrees(cfg, r, f);
    if n - f.exp < cfg.window {
    } else if f.exp in f.held {
      EmitSimulates(cfg, r, f, b);
      EmitOwns(cfg, r, f, b, pn);
      AdvanceOwns(cfg, Emit(cfg, r), EmitHead(f), b, n, pn);
    } else {
      SkipSimulates(cfg, r, f, b);
      SkipOwns(cfg, r, f, b, pn);
      AdvanceOwns(cfg, SkipExpected(cfg, r), SkipHead(f), b, n, pn);
    }
  }

  lemma StoreOwns(cfg: Config, r: Ring, f: Flow, n: int, id: nat, now: u64, pn: seq<int>)
    requires Shaped(cfg, r) && Owns(pn, r, f) && Has(pn, id, n) && f.exp <= n < f.exp + cfg.window
    ensures Owns(pn, Store(cfg, r, id, Lo16(n), now), StoreFlow(cfg, f, n, now))
  {
    AheadOfLow(f.exp, n);
    hide Has;
  }

  lemma InsertOwns(cfg: Config, r: Ring, f: Flow, b: Base, n: int, id: nat, now: u64, pn: seq<int>)
    requires Matches(cfg, r, f, b) && f.exp <= n < f.exp + cfg.window && Owns(pn, r, f) && Has(pn, id, n)
    requires InsertGuard(cfg, r, id, Lo16(n), now)
    ensures Owns(pn, Insert(cfg, r, id, Lo16(n), now), InsertFlow(cfg, f, n, now))
  {
    DuplicateAgrees(cfg, r, f, b, n);
    if n !in f.held {
      StoreSimulates(cfg, r, f, b, n, id, now);
      StoreOwns(cfg, r, f, n, id, now, pn);
      var s, g := Store(cfg, r, id, Lo16(n), now), StoreFlow(cfg, f, n, now);
      hide Owns, Matches, Store, StoreFlow, Settle, SettleFlow, Drain, DrainFlow, NothingNearer;
      DrainSimulates(cfg, s, g, b);
      DrainOwns(cfg, s, g, b, pn);
      SettleOwns(cfg, Drain(cfg, s), DrainFlow(g), b, now, pn);
    }
  }

  lemma PlaceOwns(cfg: Config, r: Ring, f: Flow, b: Base, n: int, id: nat, now: u64, pn: seq<int>)
    requires Matches(cfg, r, f, b) && f.exp - 0x8000 <= n < f.exp + 0x8000 && Owns(pn, r, f) && Has(pn, id, n)
    requires PlaceGuard(cfg, r, id, Lo16(n), now)
    ensures Owns(pn, Place(cfg, r, id, Lo16(n), now), PlaceFlow(cfg, f, n, now))
  {
    hide SlotsMatch, TableMatches, RecordsMatch, Insert, InsertFlow, InsertGuard, Overflow, Advance, Has;
    if n < f.exp {
      DistBehind(f.exp, n);
    } else {
      DistAhead(f.exp, n);
      AdvanceSimulates(cfg, r, f, b, n);
      AdvanceOwns(cfg, r, f, b, n, pn);
      InsertOwns(cfg, Overflow(cfg, r, Lo16(n)), Advance(cfg, f, n), b, n, id, now, pn);
    }
  }

  /** The flow's output is the ring's, buffer by buffer; before the first packet there is none. */
  predicate StreamOwns(pn: seq<int>, r: Ring, o: Option<Flow>) {
    match o
    case None => r.output == []
    case Some(f) => Owns(pn, r, f)
  }

  lemma MoreOwns(pn: seq<int>, n: int, r: Ring, f: Flow)
    requires Owns(pn, r, f)
    ensures Owns(pn + [n], Counting(r), f)
  {
    assert forall id: nat, m: int :: Has(pn, id, m) ==> Has(pn + [n], id, m);
    assert forall i | 0 <= i < |r.slots| :: SlotOwned(pn, r.slots[i], f.exp);
  }

  /** Placing the first packet of the stream, or the next one. */
  lemma PushOwns(cfg: Config, r: Ring, o: Option<Flow>, a: Arrival, n: int, ssrc: u32, pn: seq<int>)
    requires Refines(cfg, r, o, ssrc) && ssrc != 0 && PlaceOrderly(cfg, Begun(o, n), n, a.now)
    requires a.accepted && ParseRtp(a.bytes) == Some(Header(Lo16(n), ssrc))
    requires StreamOwns(pn, r, o) && r.count.inPackets == |pn|
    ensures Owns(pn + [n], Step(cfg, r, Push(a)), PlaceFlow(cfg, Begun(o, n), n, a.now))
  {
    var r1 := Counting(r).(lockedSsrc := ssrc);
    var r2, f, id := Anchor(r1, Lo16(n)), Begun(o, n), r.count.inPackets;
    BegunOwns(cfg, r, o, n, ssrc, pn);
    PushIsPlace(cfg, r, o, a, n, ssrc);
    hide Refines, StreamOwns, Begun, Matches, PlaceOrderly, Owns, PlaceGuard, Place, Step, Anchor, Counting;
    PlaceGuarded(cfg, r2, f, FRESH, n, id, a.now);
    PlaceOwns(cfg, r2, f, FRESH, n, id, a.now, pn + [n]);
  }

  lemma BegunOwns(cfg: Config, r: Ring, o: Option<Flow>, n: int, ssrc: u32, pn: seq<int>)
    requires Refines(cfg, r, o, ssrc) && StreamOwns(pn, r, o)
    ensures var r2 := Anchor(Counting(r).(lockedSsrc := ssrc), Lo16(n));
            Matches(cfg, r2, Begun(o, n), FRESH) && Owns(pn + [n], r2, Begun(o, n))
  {
    var r1 := Counting(r).(lockedSsrc := ssrc);
    if o.Some? {
      MoreOwns(pn, n, r, o.value);
      assert Matches(cfg, r1, o.value, FRESH);
    } else {
      assert Matches(cfg, Anchor(r1, Lo16(n)), StartFlow(n, {}), FRESH);
    }
  }

  lemma PushIsPlace(cfg: Config, r: Ring, o: Option<Flow>, a: Arrival, n: int, ssrc: u32)
    requires Refines(cfg, r, o, ssrc) && a.accepted && ParseRtp(a.bytes) == Some(Header(Lo16(n), ssrc))
    ensures var r2 := Anchor(Counting(r).(lockedSsrc := ssrc), Lo16(n));
            Shaped(cfg, r2) && Step(cfg, r, Push(a)) == Place(cfg, r2, r.count.inPackets, Lo16(n), a.now)
  {
    var r1 := Counting(r).(lockedSsrc := ssrc);
    assert r.lockedSsrc == 0 || r.lockedSsrc == ssrc;
    hide Place, Matches, Quiet;
    assert Step(cfg, r, Push(a)) == Place(cfg, r1, r.count.inPackets, Lo16(n), a.now);
    AnchoredOnce(cfg, r1, r.count.inPackets, Lo16(n), a.now);
  }

  lemma StepOwns(cfg: Config, r: Ring, o: Option<Flow>, e: Event, n: int, ssrc: u32, pn: seq<int>)
    requires Refines(cfg, r, o, ssrc) && ssrc != 0 && StepOrderly(cfg, o, e, n)
    requires e.Push? ==> e.arrival.accepted && ParseRtp(e.arrival.bytes) == Some(Header(Lo16(n), ssrc))
    requires StreamOwns(pn, r, o) && r.count.inPackets == |pn|
    ensures StreamOwns(pn + if e.Push? then [n] else [], Step(cfg, r, e), FlowStep(cfg, o, e, n))
  {
    hide Owns, PlaceOrderly;
    match e {
      case Push(a) => PushOwns(cfg, r, o, a, n, ssrc, pn);
      case Watchdog(now) =>
        assert pn + [] == pn;
        match o {
          case None => SettleQuiet(cfg, r, now);
          case Some(f) =>
            GuardAgrees(cfg, r.slots, f.exp, f.held, now);
            SettleOwns(cfg, r, f, FRESH, now, pn);
        }
    }
  }

  lemma {:induction false} NumbersPushed(events: seq<Event>, nums: seq<int>)
    requires |events| == |nums|
    ensures |PushedNumbers(events, nums)| == Pushes(events)
    decreases |events|
  {
    if events != [] {
      NumbersPushed(events[..|events| - 1], nums[..|events| - 1]);
    }
  }

  /** In every orderly stream the packet emitted as number `n` of the flow was pushed as `n`. */
  lemma {:induction false} StreamSends(cfg: Config, events: seq<Event>, nums: seq<int>, ssrc: u32)
    requires ValidConfig(cfg) && Carries(events, nums, ssrc) && Orderly(cfg, events, nums)
    ensures StreamOwns(PushedNumbers(events, nums), Run(cfg, Opened(cfg), events), FlowRun(cfg, events, nums))
    decreases |events|
  {
    hide StreamOwns, Refines, Step, FlowStep;
    if events != [] {
      var last := |events| - 1;
      var before, earlier := events[..last], nums[..last];
      StreamSends(cfg, before, earlier, ssrc);
      StreamRefines(cfg, before, earlier, ssrc);
      NumbersPushed(before, earlier);
      ExactlyOnePlace(cfg, before, 0);
      StepOwns(cfg, Run(cfg, Opened(cfg), before), FlowRun(cfg, before, earlier), events[last], nums[last], ssrc,
               PushedNumbers(before, earlier));
    } else {
      NoneOwned(cfg);
    }
  }

  lemma NoneOwned(cfg: Config)
    requires ValidConfig(cfg)
    ensures StreamOwns([], Opened(cfg), None)
  {
  }
}
