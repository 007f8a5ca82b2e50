/** Conservation of numbers: over every run, whatever arrives and whatever is stepped over, the
    expected number has moved on by exactly what was emitted and what was counted as a gap. */
module ReorderAdvance {
  import opened Words
  import opened RtpHeader
  import opened ReorderRing

  /** What the expected number has not been moved by. */
  function Way(r: Ring): u16 {
    Lo16(r.expected - |r.output| - r.count.lostGaps)
  }

  /** From one state to a later one nothing but emitting and counting gaps moves the counter on. */
  predicate Moves(r: Ring, t: Ring) {
    && Way(t) == Way(r)
    && |r.output| <= |t.output| && r.count.lostGaps <= t.count.lostGaps
    && t.haveExpected == r.haveExpected
  }

  lemma WayShift(expected: u16, n: int)
    ensures Lo16(Lo16(expected + 1) - (n + 1)) == Lo16(expected - n)
  {
  }

  lemma EmitMovesOn(cfg: Config, r: Ring)
    requires Shaped(cfg, r) && HeadReady(cfg, r)
    ensures Moves(r, Emit(cfg, r))
  {
    WayShift(r.expected, |r.output| + r.count.lostGaps);
    hide Lo16;
  }

  lemma SkipMovesOn(cfg: Config, r: Ring)
    requires Shaped(cfg, r)
    ensures Moves(r, SkipExpected(cfg, r))
  {
    WayShift(r.expected, |r.output| + r.count.lostGaps);
    hide Lo16;
  }

  lemma {:induction false} DrainMovesOn(cfg: Config, r: Ring)
    requires Shaped(cfg, r)
    ensures Moves(r, Drain(cfg, r))
    decreases Occupied(r.slots)
  {
    hide Way;
    if r.haveExpected && HeadReady(cfg, r) {
      EmitMovesOn(cfg, r);
      DrainMovesOn(cfg, Emit(cfg, r));
    }
  }

  lemma {:induction false} SkipToMovesOn(cfg: Config, r: Ring, target: u16)
    requires Shaped(cfg, r)
    ensures Moves(r, SkipTo(cfg, r, target))
    decreases Dist16(target, r.expected)
  {
    hide Way;
    if r.expected != target {
      SkipMovesOn(cfg, r);
      SkipToMovesOn(cfg, SkipExpected(cfg, r), target);
    }
  }

  lemma {:induction false} OverflowMovesOn(cfg: Config, r: Ring, sequence: u16)
    requires Shaped(cfg, r)
    ensures Moves(r, Overflow(cfg, r, sequence))
    decreases Dist16(sequence, r.expected)
  {
    hide Way;
    if Dist16(sequence, r.expected) >= cfg.window {
      DistTurn(sequence, r.expected);
      if HeadReady(cfg, r) {
        EmitMovesOn(cfg, r);
      } else {
        SkipMovesOn(cfg, r);
      }
      OverflowMovesOn(cfg, Advanced(cfg, r), sequence);
    }
  }

  lemma SettleMovesOn(cfg: Config, r: Ring, now: u64)
    requires Shaped(cfg, r)
    ensures Moves(r, Settle(cfg, r, now))
  {
    hide Way;
    var best := Nearest(cfg, r.slots, r.expected, now, |r.slots|);
    if best.Some? {
      SkipToMovesOn(cfg, r, best.value);
    }
    DrainMovesOn(cfg, SkipGap(cfg, r, now));
  }

  lemma InsertMovesOn(cfg: Config, r: Ring, id: nat, sequence: u16, now: u64)
    requires Shaped(cfg, r)
    ensures Moves(r, Insert(cfg, r, id, sequence, now))
  {
    var slot := r.slots[sequence % cfg.window];
    if !(slot.buffer.Some? && slot.sequence == sequence) {
      var stored := Store(cfg, r, id, sequence, now);
      assert Moves(r, stored);
      hide Way, Store, Drain, Settle;
      DrainMovesOn(cfg, stored);
      SettleMovesOn(cfg, Drain(cfg, stored), now);
    }
  }

  lemma PlaceMovesOn(cfg: Config, r: Ring, id: nat, sequence: u16, now: u64)
    requires Shaped(cfg, r)
    ensures Moves(Anchor(r, sequence), Place(cfg, r, id, sequence, now))
  {
    hide Lo16, Insert, Overflow;
    var r0 := Anchor(r, sequence);
    if Dist16(sequence, r0.expected) < 0x8000 {
      OverflowMovesOn(cfg, r0, sequence);
      InsertMovesOn(cfg, Overflow(cfg, r0, sequence), id, sequence, now);
    }
  }

  /** Where an epoch began: its first number, and how many packets had been sent and gaps counted. */
  datatype Epoch = Epoch(start: u16, sent: nat, gaps: nat)

  function EpochPlace(r: Ring, o: Option<Epoch>, sequence: u16): Option<Epoch> {
    if r.haveExpected then o else Some(Epoch(sequence, |r.output|, r.count.lostGaps))
  }

  function EpochAccept(cfg: Config, r: Ring, o: Option<Epoch>, h: Header, a: Arrival): Option<Epoch> {
    match SsrcGate(cfg, r.lockedSsrc, h.ssrc, a)
    case Reject => o
    case Admit => EpochPlace(r, o, h.sequence)
    case LockThen(ok) => if ok then EpochPlace(r, o, h.sequence) else o
    case SwitchThen(ok) => if ok then EpochPlace(SwitchSsrc(r, h.ssrc), None, h.sequence) else None
  }

  function EpochStep(cfg: Config, r: Ring, o: Option<Epoch>, e: Event): Option<Epoch> {
    match e
    case Watchdog(_) => o
    case Push(a) =>
      match ParseRtp(a.bytes)
      case None => o
      case Some(h) => EpochAccept(cfg, r, o, h, a)
  }

  /** The epoch that the run is in; none before its first packet. */
  function EpochRun(cfg: Config, events: seq<Event>): Option<Epoch>
    requires ValidConfig(cfg)
    decreases |events|
  {
    if events == [] then None
    else
      var before := events[..|events| - 1];
      EpochStep(cfg, Run(cfg, Opened(cfg), before), EpochRun(cfg, before), events[|events| - 1])
  }

  predicate Advances(r: Ring, o: Option<Epoch>) {
    && r.haveExpected == o.Some?
    && (o.Some? ==>
          && o.value.sent <= |r.output| && o.value.gaps <= r.count.lostGaps
          && r.expected == Lo16(o.value.start + (|r.output| - o.value.sent) + (r.count.lostGaps - o.value.gaps)))
  }

  lemma WayIsAdvance(expected: u16, n: int, start: u16, before: int)
    ensures Lo16(expected - n) == Lo16(start - before) <==> expected == Lo16(start + (n - before))
  {
  }

  lemma MovesAdvances(r: Ring, t: Ring, o: Option<Epoch>)
    requires Advances(r, o) && Moves(r, t)
    ensures Advances(t, o)
  {
    if o.Some? {
      var before := o.value.sent + o.value.gaps;
      WayIsAdvance(r.expected, |r.output| + r.count.lostGaps, o.value.start, before);
      WayIsAdvance(t.expected, |t.output| + t.count.lostGaps, o.value.start, before);
      hide Lo16;
    }
  }

  lemma PlaceAdvances(cfg: Config, r: Ring, o: Option<Epoch>, id: nat, sequence: u16, now: u64)
    requires Shaped(cfg, r) && Advances(r, o)
    ensures Advances(Place(cfg, r, id, sequence, now), EpochPlace(r, o, sequence))
  {
    assert Advances(Anchor(r, sequence), EpochPlace(r, o, sequence));
    hide Place, Advances, Moves, Anchor, EpochPlace;
    PlaceMovesOn(cfg, r, id, sequence, now);
    MovesAdvances(Anchor(r, sequence), Place(cfg, r, id, sequence, now), EpochPlace(r, o, sequence));
  }

  lemma AcceptAdvances(cfg: Config, r: Ring, o: Option<Epoch>, id: nat, h: Header, a: Arrival)
    requires Shaped(cfg, r) && Advances(r, o)
    ensures Advances(Accept(cfg, r, id, h, a), EpochAccept(cfg, r, o, h, a))
  {
    hide Place, Lo16;
    match SsrcGate(cfg, r.lockedSsrc, h.ssrc, a) {
      case Reject =>
      case Admit => PlaceAdvances(cfg, r, o, id, h.sequence, a.now);
      case LockThen(ok) => PlaceAdvances(cfg, r.(lockedSsrc := h.ssrc), o, id, h.sequence, a.now);
      case SwitchThen(ok) => PlaceAdvances(cfg, SwitchSsrc(r, h.ssrc), None, id, h.sequence, a.now);
    }
  }

  lemma StepAdvances(cfg: Config, r: Ring, o: Option<Epoch>, e: Event)
    requires Shaped(cfg, r) && Advances(r, o)
    ensures Advances(Step(cfg, r, e), EpochStep(cfg, r, o, e))
  {
    hide Settle, Lo16;
    match e {
      case Watchdog(now) =>
        SettleMovesOn(cfg, r, now);
        MovesAdvances(r, Settle(cfg, r, now), o);
      case Push(a) =>
        if ParseRtp(a.bytes).Some? {
          AcceptAdvances(cfg, Counting(r), o, r.count.inPackets, ParseRtp(a.bytes).value, a);
        }
    }
  }

  /** Over every run, of any events and at any window: an epoch is under way exactly while there is
      an expected number, and that number is, on sixteen bits, the epoch's first plus the packets
      sent since and the gaps counted since: none is passed without being sent or counted. */
  lemma {:induction false} EveryNumberCounted(cfg: Config, events: seq<Event>)
    requires ValidConfig(cfg)
    ensures Advances(Run(cfg, Opened(cfg), events), EpochRun(cfg, events))
    decreases |events|
  {
    hide Advances, Step, EpochStep;
    if events == [] {
      OpenedAdvances(cfg);
    } else {
      var before := events[..|events| - 1];
      EveryNumberCounted(cfg, before);
      StepAdvances(cfg, Run(cfg, Opened(cfg), before), EpochRun(cfg, before), events[|events| - 1]);
    }
  }

  lemma OpenedAdvances(cfg: Config)
    requires ValidConfig(cfg)
    ensures Advances(Opened(cfg), None)
  {
  }
}
