/** Conservation: over every run, each packet that reached the sink pad is in exactly one place. */
module ReorderAccounting {
  import opened Words
  import opened RtpHeader
  import opened ReorderRing

  /** How often packet `id` is waiting in a slot, was sent downstream, was released. */
  function Held(slots: seq<Slot>, id: nat): nat {
    if slots == [] then 0
    else (if slots[0].buffer == Some(id) then 1 else 0) + Held(slots[1..], id)
  }

  function Sent(output: seq<Emission>, id: nat): nat {
    if output == [] then 0
    else Sent(output[..|output| - 1], id) + if output[|output| - 1].id == id then 1 else 0
  }

  function Released(released: seq<Release>, id: nat): nat {
    if released == [] then 0
    else Released(released[..|released| - 1], id) + if released[|released| - 1].id == id then 1 else 0
  }

  function CountReason(released: seq<Release>, reason: Reason): nat {
    if released == [] then 0
    else CountReason(released[..|released| - 1], reason) +
         if released[|released| - 1].reason == reason then 1 else 0
  }

  function Places(r: Ring, id: nat): nat {
    Held(r.slots, id) + Sent(r.output, id) + Released(r.released, id)
  }

  predicate CountersAgree(r: Ring) {
    && r.count.parseFail == CountReason(r.released, Unparseable)
    && r.count.droppedOld == CountReason(r.released, Old)
    && r.count.latePackets == CountReason(r.released, Late)
    && r.count.droppedDup == CountReason(r.released, Duplicate)
  }

  /** Packets that emitting and skipping can move: waiting ones become sent ones. */
  function Live(r: Ring, id: nat): nat {
    Held(r.slots, id) + Sent(r.output, id)
  }

  function Is(id: nat, other: nat): nat {
    if id == other then 1 else 0
  }

  function In(s: Slot, id: nat): nat {
    if s.buffer == Some(id) then 1 else 0
  }

  lemma {:induction false} HeldUpdate(slots: seq<Slot>, i: nat, s: Slot, id: nat)
    requires i < |slots|
    ensures Held(slots[i := s], id) == Held(slots, id) + In(s, id) - In(slots[i], id)
  {
    if i == 0 {
      assert slots[i := s][1..] == slots[1..];
    } else {
      assert slots[i := s][1..] == slots[1..][i - 1 := s];
      HeldUpdate(slots[1..], i - 1, s, id);
    }
  }

  lemma LetMoves(r: Ring, id: nat, reason: Reason, other: nat)
    ensures Places(Let(r, id, reason), other) == Places(r, other) + Is(id, other)
  {
    var t := Let(r, id, reason);
    assert t.released[..|t.released| - 1] == r.released;
  }

  /** One more discarded packet: only the counter of its reason grows. */
  lemma LetCounts(r: Ring, id: nat, reason: Reason, why: Reason)
    ensures CountReason(Let(r, id, reason).released, why) ==
            CountReason(r.released, why) + if why == reason then 1 else 0
  {
    var t := Let(r, id, reason);
    assert t.released[..|t.released| - 1] == r.released;
  }

  lemma EmitMoves(cfg: Config, r: Ring, id: nat)
    requires Shaped(cfg, r) && HeadReady(cfg, r)
    ensures Live(Emit(cfg, r), id) == Live(r, id)
  {
    var i := r.expected % cfg.window;
    HeldUpdate(r.slots, i, r.slots[i].(buffer := None), id);
    var t := Emit(cfg, r);
    assert t.output[..|t.output| - 1] == r.output;
  }

  lemma {:induction false} DrainMoves(cfg: Config, r: Ring, id: nat)
    requires Shaped(cfg, r)
    ensures Live(Drain(cfg, r), id) == Live(r, id)
    decreases Occupied(r.slots)
  {
    if r.haveExpected && HeadReady(cfg, r) {
      EmitMoves(cfg, r, id);
      DrainMoves(cfg, Emit(cfg, r), id);
    }
  }

  lemma {:induction false} SkipToMoves(cfg: Config, r: Ring, target: u16, id: nat)
    requires Shaped(cfg, r)
    ensures Live(SkipTo(cfg, r, target), id) == Live(r, id)
    decreases Dist16(target, r.expected)
  {
    if r.expected != target {
      SkipToMoves(cfg, SkipExpected(cfg, r), target, id);
    }
  }

  lemma AdvancedMoves(cfg: Config, r: Ring, id: nat)
    requires Shaped(cfg, r)
    ensures Live(Advanced(cfg, r), id) == Live(r, id)
  {
    if HeadReady(cfg, r) {
      EmitMoves(cfg, r, id);
    }
  }

  lemma {:induction false} OverflowMoves(cfg: Config, r: Ring, sequence: u16, id: nat)
    requires Shaped(cfg, r)
    ensures Live(Overflow(cfg, r, sequence), id) == Live(r, id)
    decreases Dist16(sequence, r.expected)
  {
    if Dist16(sequence, r.expected) >= cfg.window {
      var t := Advanced(cfg, r);
      AdvancedMoves(cfg, r, id);
      DistTurn(sequence, r.expected);
      OverflowMoves(cfg, t, sequence, id);
    }
  }

  lemma SettleMoves(cfg: Config, r: Ring, now: u64, id: nat)
    requires Shaped(cfg, r)
    ensures Live(Settle(cfg, r, now), id) == Live(r, id)
  {
    match Nearest(cfg, r.slots, r.expected, now, |r.slots|) {
      case None =>
      case Some(target) => SkipToMoves(cfg, r, target, id);
    }
    DrainMoves(cfg, SkipGap(cfg, r, now), id);
  }

  lemma StoreMoves(cfg: Config, r: Ring, id: nat, sequence: u16, now: u64, other: nat)
    requires Shaped(cfg, r)
    ensures Places(Store(cfg, r, id, sequence, now), other) == Places(r, other) + Is(id, other)
  {
    var i := sequence % cfg.window;
    HeldUpdate(r.slots, i, Slot(Some(id), sequence, now), other);
    if r.slots[i].buffer.Some? {
      LetMoves(r, r.slots[i].buffer.value, Evicted, other);
    }
  }

  lemma BehindMoves(r: Ring, id: nat, sequence: u16, other: nat)
    requires |r.skipped| == 0x1_0000
    ensures Places(Behind(r, id, sequence), other) == Places(r, other) + Is(id, other)
  {
    if r.skipped[sequence] {
      LetMoves(r.(skipped := r.skipped[sequence := false],
                  count := r.count.(latePackets := r.count.latePackets + 1)), id, Late, other);
    } else {
      LetMoves(r.(count := r.count.(droppedOld := r.count.droppedOld + 1)), id, Old, other);
    }
  }

  lemma InsertMoves(cfg: Config, r: Ring, id: nat, sequence: u16, now: u64, other: nat)
    requires Shaped(cfg, r)
    ensures Places(Insert(cfg, r, id, sequence, now), other) == Places(r, other) + Is(id, other)
  {
    var slot := r.slots[sequence % cfg.window];
    if slot.buffer.Some? && slot.sequence == sequence {
      LetMoves(r.(count := r.count.(droppedDup := r.count.droppedDup + 1)), id, Duplicate, other);
    } else {
      var stored := Store(cfg, r, id, sequence, now);
      StoreMoves(cfg, r, id, sequence, now, other);
      DrainMoves(cfg, stored, other);
      SettleMoves(cfg, Drain(cfg, stored), now, other);
    }
  }

  lemma PlaceMoves(cfg: Config, r: Ring, id: nat, sequence: u16, now: u64, other: nat)
    requires Shaped(cfg, r)
    ensures Places(Place(cfg, r, id, sequence, now), other) == Places(r, other) + Is(id, other)
  {
    var r0 := Anchor(r, sequence);
    if Dist16(sequence, r0.expected) >= 0x8000 {
      BehindMoves(r0, id, sequence, other);
    } else {
      OverflowMoves(cfg, r0, sequence, other);
      InsertMoves(cfg, Overflow(cfg, r0, sequence), id, sequence, now, other);
    }
  }

  /** Discarding for `reason` and bumping its counter keeps the counters exact. */
  lemma LetAgrees(r: Ring, id: nat, reason: Reason)
    requires CountersAgree(r)
    ensures CountersAgree(Counted(r, id, reason))
  {
    LetCounts(r, id, reason, Unparseable);
    LetCounts(r, id, reason, Old);
    LetCounts(r, id, reason, Late);
    LetCounts(r, id, reason, Duplicate);
  }

  function Counted(r: Ring, id: nat, reason: Reason): Ring {
    var c := r.count;
    Let(r, id, reason).(count :=
      match reason
      case Unparseable => c.(parseFail := c.parseFail + 1)
      case Old => c.(droppedOld := c.droppedOld + 1)
      case Late => c.(latePackets := c.latePackets + 1)
      case Duplicate => c.(droppedDup := c.droppedDup + 1)
      case _ => c)
  }

  lemma SameAgrees(r: Ring, t: Ring)
    requires CountersAgree(r) && t.released == r.released && t.count == r.count
    ensures CountersAgree(t)
  {
  }

  lemma StoreAgrees(cfg: Config, r: Ring, id: nat, sequence: u16, now: u64)
    requires Shaped(cfg, r) && CountersAgree(r)
    ensures CountersAgree(Store(cfg, r, id, sequence, now))
  {
    var slot := r.slots[sequence % cfg.window];
    if slot.buffer.Some? {
      LetAgrees(r, slot.buffer.value, Evicted);
      SameAgrees(Counted(r, slot.buffer.value, Evicted), Store(cfg, r, id, sequence, now));
    } else {
      SameAgrees(r, Store(cfg, r, id, sequence, now));
    }
  }

  lemma KeepsAgree(r: Ring, t: Ring)
    requires CountersAgree(r) && KeepsReleased(r, t)
    ensures CountersAgree(t)
  {
  }

  lemma FreshAgrees(cfg: Config, r: Ring, id: nat, sequence: u16, now: u64)
    requires Shaped(cfg, r) && CountersAgree(r)
    ensures var t := Settle(cfg, Drain(cfg, Store(cfg, r, id, sequence, now)), now);
            CountersAgree(t) && t.count.inPackets == r.count.inPackets
  {
    var stored := Store(cfg, r, id, sequence, now);
    var drained := Drain(cfg, stored);
    StoreAgrees(cfg, r, id, sequence, now);
    KeepsAgree(stored, drained);
    KeepsAgree(drained, Settle(cfg, drained, now));
  }

  lemma InsertAgrees(cfg: Config, r: Ring, id: nat, sequence: u16, now: u64)
    requires Shaped(cfg, r) && CountersAgree(r)
    ensures CountersAgree(Insert(cfg, r, id, sequence, now))
    ensures Insert(cfg, r, id, sequence, now).count.inPackets == r.count.inPackets
  {
    LetAgrees(r, id, Duplicate);
    FreshAgrees(cfg, r, id, sequence, now);
  }

  lemma BehindAgrees(r: Ring, id: nat, sequence: u16)
    requires |r.skipped| == 0x1_0000 && CountersAgree(r)
    ensures CountersAgree(Behind(r, id, sequence))
    ensures Behind(r, id, sequence).count.inPackets == r.count.inPackets
  {
    LetAgrees(r, id, if r.skipped[sequence] then Late else Old);
  }

  lemma PlaceAgrees(cfg: Config, r: Ring, id: nat, sequence: u16, now: u64)
    requires Shaped(cfg, r) && CountersAgree(r)
    ensures CountersAgree(Place(cfg, r, id, sequence, now))
    ensures Place(cfg, r, id, sequence, now).count.inPackets == r.count.inPackets
  {
    hide Insert, Overflow, CountersAgree, Counted;
    var r0 := Anchor(r, sequence);
    SameAgrees(r, r0);
    if Dist16(sequence, r0.expected) >= 0x8000 {
      BehindAgrees(r0, id, sequence);
    } else {
      var made := Overflow(cfg, r0, sequence);
      KeepsAgree(r0, made);
      InsertAgrees(cfg, made, id, sequence, now);
    }
  }

  /** Emptying the slots releases exactly what was held. */
  lemma {:induction false} FlushMoves(slots: seq<Slot>, n: nat, released: seq<Release>, reason: Reason, id: nat)
    requires n <= |slots|
    ensures Released(released + FlushLog(slots, n, reason), id) == Released(released, id) + Held(slots[..n], id)
  {
    var log := released + FlushLog(slots, n, reason);
    if n == 0 {
      assert log == released;
    } else {
      FlushMoves(slots, n - 1, released, reason, id);
      HeldSnoc(slots, n, id);
      FlushLogStep(slots, n, released, reason);
    }
  }

  lemma FlushLogStep(slots: seq<Slot>, n: nat, released: seq<Release>, reason: Reason)
    requires 0 < n <= |slots|
    ensures var log := released + FlushLog(slots, n, reason);
            var before := released + FlushLog(slots, n - 1, reason);
            if slots[n - 1].buffer.Some?
            then log != [] && log[..|log| - 1] == before &&
                 log[|log| - 1] == Release(slots[n - 1].buffer.value, reason)
            else log == before
  {
  }

  lemma {:induction false} FlushCounts(slots: seq<Slot>, n: nat, released: seq<Release>, reason: Reason, why: Reason)
    requires n <= |slots| && why != reason
    ensures CountReason(released + FlushLog(slots, n, reason), why) == CountReason(released, why)
  {
    if n == 0 {
      assert released + FlushLog(slots, n, reason) == released;
    } else {
      FlushCounts(slots, n - 1, released, reason, why);
      FlushLogStep(slots, n, released, reason);
    }
  }

  lemma {:induction false} HeldSnoc(slots: seq<Slot>, n: nat, id: nat)
    requires 0 < n <= |slots|
    ensures Held(slots[..n], id) == Held(slots[..n - 1], id) + In(slots[n - 1], id)
  {
    if n > 1 {
      assert slots[..n][1..] == slots[1..][..n - 1];
      assert slots[..n - 1][1..] == slots[1..][..n - 2];
      HeldSnoc(slots[1..], n - 1, id);
    } else {
      assert slots[..n] == [slots[0]];
    }
  }

  lemma {:induction false} EmptyHolds(slots: seq<Slot>, id: nat)
    requires forall i | 0 <= i < |slots| :: slots[i].buffer.None?
    ensures Held(slots, id) == 0
  {
    if slots != [] {
      EmptyHolds(slots[1..], id);
    }
  }

  lemma SwitchMoves(r: Ring, ssrc: u32, id: nat)
    ensures Places(SwitchSsrc(r, ssrc), id) == Places(r, id)
  {
    FlushMoves(r.slots, |r.slots|, r.released, Flushed, id);
    assert r.slots[..|r.slots|] == r.slots;
    EmptyHolds(Emptied(r.slots), id);
  }

  lemma SwitchAgrees(r: Ring, ssrc: u32)
    requires CountersAgree(r)
    ensures CountersAgree(SwitchSsrc(r, ssrc))
  {
    FlushCounts(r.slots, |r.slots|, r.released, Flushed, Unparseable);
    FlushCounts(r.slots, |r.slots|, r.released, Flushed, Old);
    FlushCounts(r.slots, |r.slots|, r.released, Flushed, Late);
    FlushCounts(r.slots, |r.slots|, r.released, Flushed, Duplicate);
  }

  /** Closing leaves nothing waiting, and loses nothing from the account. */
  lemma CloseMoves(r: Ring, id: nat)
    ensures Places(CloseStep(r), id) == Places(r, id)
    ensures Held(CloseStep(r).slots, id) == 0
  {
    FlushMoves(r.slots, |r.slots|, r.released, Closed, id);
    assert r.slots[..|r.slots|] == r.slots;
    EmptyHolds(Emptied(r.slots), id);
  }

  lemma AcceptMoves(cfg: Config, r: Ring, id: nat, h: Header, a: Arrival, other: nat)
    requires Shaped(cfg, r)
    ensures Places(Accept(cfg, r, id, h, a), other) == Places(r, other) + Is(id, other)
  {
    match SsrcGate(cfg, r.lockedSsrc, h.ssrc, a) {
      case Reject => LetMoves(r, id, Foreign, other);
      case Admit => PlaceMoves(cfg, r, id, h.sequence, a.now, other);
      case LockThen(ok) =>
        LetMoves(r.(lockedSsrc := h.ssrc), id, PropertyError, other);
        PlaceMoves(cfg, r.(lockedSsrc := h.ssrc), id, h.sequence, a.now, other);
      case SwitchThen(ok) =>
        SwitchMoves(r, h.ssrc, other);
        LetMoves(SwitchSsrc(r, h.ssrc), id, PropertyError, other);
        PlaceMoves(cfg, SwitchSsrc(r, h.ssrc), id, h.sequence, a.now, other);
    }
  }

  /** A reason without a counter of its own. */
  lemma LetPlain(r: Ring, id: nat, reason: Reason)
    requires CountersAgree(r) && reason in {Foreign, PropertyError, Evicted, Flushed, Closed}
    ensures CountersAgree(Let(r, id, reason))
  {
    LetAgrees(r, id, reason);
    SameAgrees(Counted(r, id, reason), Let(r, id, reason));
  }

  lemma AdmitAgrees(cfg: Config, r: Ring, ok: bool, id: nat, sequence: u16, now: u64)
    requires Shaped(cfg, r) && CountersAgree(r)
    ensures var t := if ok then Place(cfg, r, id, sequence, now) else Let(r, id, PropertyError);
            CountersAgree(t) && t.count.inPackets == r.count.inPackets
  {
    if ok {
      PlaceAgrees(cfg, r, id, sequence, now);
    } else {
      LetPlain(r, id, PropertyError);
    }
  }

  lemma AcceptAgrees(cfg: Config, r: Ring, id: nat, h: Header, a: Arrival)
    requires Shaped(cfg, r) && CountersAgree(r)
    ensures CountersAgree(Accept(cfg, r, id, h, a))
    ensures Accept(cfg, r, id, h, a).count.inPackets == r.count.inPackets
  {
    match SsrcGate(cfg, r.lockedSsrc, h.ssrc, a) {
      case Reject => LetPlain(r, id, Foreign);
      case Admit => PlaceAgrees(cfg, r, id, h.sequence, a.now);
      case LockThen(ok) =>
        SameAgrees(r, r.(lockedSsrc := h.ssrc));
        AdmitAgrees(cfg, r.(lockedSsrc := h.ssrc), ok, id, h.sequence, a.now);
      case SwitchThen(ok) =>
        SwitchAgrees(r, h.ssrc);
        AdmitAgrees(cfg, SwitchSsrc(r, h.ssrc), ok, id, h.sequence, a.now);
    }
  }

  lemma PushMoves(cfg: Config, r: Ring, parsed: Option<Header>, a: Arrival, other: nat)
    requires Shaped(cfg, r)
    ensures Places(PushStep(cfg, r, parsed, a), other) == Places(r, other) + Is(r.count.inPackets, other)
  {
    var r0 := Counting(r);
    match parsed {
      case None =>
        LetMoves(r0.(count := r0.count.(parseFail := r0.count.parseFail + 1)), r.count.inPackets, Unparseable, other);
      case Some(h) => AcceptMoves(cfg, r0, r.count.inPackets, h, a, other);
    }
  }

  lemma PushAgrees(cfg: Config, r: Ring, parsed: Option<Header>, a: Arrival)
    requires Shaped(cfg, r) && CountersAgree(r)
    ensures CountersAgree(PushStep(cfg, r, parsed, a))
    ensures PushStep(cfg, r, parsed, a).count.inPackets == r.count.inPackets + 1
  {
    var r0 := Counting(r);
    match parsed {
      case None => LetAgrees(r0, r.count.inPackets, Unparseable);
      case Some(h) => AcceptAgrees(cfg, r0, r.count.inPackets, h, a);
    }
  }

  function Pushes(events: seq<Event>): nat {
    if events == [] then 0
    else Pushes(events[..|events| - 1]) + if events[|events| - 1].Push? then 1 else 0
  }

  /** Whatever arrives, in whatever order, with whatever clock readings, and at any window size:
      packet number `id` has exactly one place, and each counter of discarded packets is the
      number of packets discarded for its reason. */
  lemma {:induction false} ExactlyOnePlace(cfg: Config, events: seq<Event>, id: nat)
    requires ValidConfig(cfg)
    ensures var r := Run(cfg, Opened(cfg), events);
            && Held(r.slots, id) + Sent(r.output, id) + Released(r.released, id) ==
               (if id < Pushes(events) then 1 else 0)
            && CountersAgree(r)
            && r.count.inPackets == Pushes(events)
    decreases |events|
  {
    if events == [] {
      EmptyHolds(Opened(cfg).slots, id);
    } else {
      var before := events[..|events| - 1];
      ExactlyOnePlace(cfg, before, id);
      var r := Run(cfg, Opened(cfg), before);
      match events[|events| - 1] {
        case Push(a) =>
          PushMoves(cfg, r, ParseRtp(a.bytes), a, id);
          PushAgrees(cfg, r, ParseRtp(a.bytes), a);
        case Watchdog(now) => SettleMoves(cfg, r, now, id);
      }
    }
  }

  /** After close every packet has been either sent or released, exactly once. */
  lemma ClosedAccount(cfg: Config, events: seq<Event>, id: nat)
    requires ValidConfig(cfg)
    ensures var r := CloseStep(Run(cfg, Opened(cfg), events));
            Sent(r.output, id) + Released(r.released, id) == if id < Pushes(events) then 1 else 0
  {
    ExactlyOnePlace(cfg, events, id);
    CloseMoves(Run(cfg, Opened(cfg), events), id);
  }
}
