/** The lock-protected steps of the RTP reorder element, as functions on its state.
    The element itself (ReorderElement) is proved to perform exactly these. */
module ReorderRing {
  import opened Words
  import opened RtpHeader

  /** A ring slot; `sequence` and `arrival` keep their last value when the buffer is taken out.
      A buffer is named by the number of the arrival that brought it. */
  datatype Slot = Slot(buffer: Option<nat>, sequence: u16, arrival: u64)

  /** Why a packet was let go without being sent downstream. */
  datatype Reason = Unparseable | Foreign | PropertyError | Old | Late | Duplicate | Evicted | Flushed | Closed

  datatype Release = Release(id: nat, reason: Reason)
  datatype Emission = Emission(id: nat, sequence: u16)

  datatype Config = Config(window: nat, timeout: u64, ssrcInactive: u64)

  datatype Counters = Counters(
    inPackets: nat, droppedOld: nat, latePackets: nat, droppedDup: nat, lostGaps: nat, parseFail: nat)

  /** `output` logs what went to the source pad, `released` what was unreferenced instead. */
  datatype Ring = Ring(
    slots: seq<Slot>,
    skipped: seq<bool>,
    expected: u16,
    haveExpected: bool,
    lockedSsrc: u32,
    count: Counters,
    output: seq<Emission>,
    released: seq<Release>)

  /** A buffer reaching the sink pad. `lastValid` is the route's last valid RTP time as read
      under the lock; `accepted` says whether the depayloader takes a new SSRC. */
  datatype Arrival = Arrival(bytes: seq<u8>, now: u64, lastValid: u64, accepted: bool)
  datatype Event = Push(arrival: Arrival) | Watchdog(now: u64)

  predicate ValidConfig(cfg: Config) {
    1 <= cfg.window <= 0x8000 && 0 < cfg.timeout
  }

  predicate Shaped(cfg: Config, r: Ring) {
    && ValidConfig(cfg)
    && |r.slots| == cfg.window
    && |r.skipped| == 0x1_0000
  }

  function Occupied(slots: seq<Slot>): nat {
    if slots == [] then 0
    else (if slots[0].buffer.Some? then 1 else 0) + Occupied(slots[1..])
  }

  lemma {:induction false} OccupiedUpdate(slots: seq<Slot>, i: nat, s: Slot)
    requires i < |slots|
    ensures Occupied(slots[i := s]) ==
            Occupied(slots) + (if s.buffer.Some? then 1 else 0) - (if slots[i].buffer.Some? then 1 else 0)
  {
    if i == 0 {
      assert slots[i := s][1..] == slots[1..];
    } else {
      assert slots[i := s][1..] == slots[1..][i - 1 := s];
      OccupiedUpdate(slots[1..], i - 1, s);
    }
  }

  /** The slot of the expected sequence number holds that very number. */
  predicate HeadReady(cfg: Config, r: Ring)
    requires Shaped(cfg, r)
  {
    var s := r.slots[r.expected % cfg.window];
    s.buffer.Some? && s.sequence == r.expected
  }

  /** The steps that emit and skip leave the released packets and everything but
      `lostGaps` among the counters alone. */
  predicate KeepsReleased(r: Ring, t: Ring) {
    && t.released == r.released
    && t.count == r.count.(lostGaps := t.count.lostGaps)
    && t.haveExpected == r.haveExpected
    && t.lockedSsrc == r.lockedSsrc
  }

  function Emit(cfg: Config, r: Ring): (t: Ring)
    requires Shaped(cfg, r) && HeadReady(cfg, r)
    ensures Shaped(cfg, t) && Occupied(t.slots) == Occupied(r.slots) - 1
  {
    var i := r.expected % cfg.window;
    OccupiedUpdate(r.slots, i, r.slots[i].(buffer := None));
    r.(slots := r.slots[i := r.slots[i].(buffer := None)],
       expected := Lo16(r.expected + 1),
       output := r.output + [Emission(r.slots[i].buffer.value, r.slots[i].sequence)])
  }

  function SkipExpected(cfg: Config, r: Ring): (t: Ring)
    requires Shaped(cfg, r)
    ensures Shaped(cfg, t)
  {
    r.(skipped := r.skipped[r.expected := true],
       expected := Lo16(r.expected + 1),
       count := r.count.(lostGaps := r.count.lostGaps + 1))
  }

  function Drain(cfg: Config, r: Ring): (t: Ring)
    requires Shaped(cfg, r)
    ensures Shaped(cfg, t) && KeepsReleased(r, t)
    decreases Occupied(r.slots)
  {
    if r.haveExpected && HeadReady(cfg, r) then Drain(cfg, Emit(cfg, r)) else r
  }

  /** Declare lost every number from `expected` up to, not including, `target`. */
  function SkipTo(cfg: Config, r: Ring, target: u16): (t: Ring)
    requires Shaped(cfg, r)
    ensures Shaped(cfg, t) && KeepsReleased(r, t)
    decreases Dist16(target, r.expected)
  {
    if r.expected == target then r else SkipTo(cfg, SkipExpected(cfg, r), target)
  }

  /** One turn of the overflow loop: the expected number moves up by one. */
  function Advanced(cfg: Config, r: Ring): (t: Ring)
    requires Shaped(cfg, r)
    ensures Shaped(cfg, t) && KeepsReleased(r, t) && t.expected == Lo16(r.expected + 1)
  {
    if HeadReady(cfg, r) then Emit(cfg, r) else SkipExpected(cfg, r)
  }

  /** The window-overflow loop: make room until `sequence` is inside the window. */
  function Overflow(cfg: Config, r: Ring, sequence: u16): (t: Ring)
    requires Shaped(cfg, r)
    ensures Shaped(cfg, t) && KeepsReleased(r, t)
    ensures Dist16(sequence, t.expected) < cfg.window
    decreases Dist16(sequence, r.expected)
  {
    if Dist16(sequence, r.expected) < cfg.window then r
    else
      DistTurn(sequence, r.expected);
      Overflow(cfg, Advanced(cfg, r), sequence)
  }

  predicate Expired(cfg: Config, arrival: u64, now: u64) {
    Sub64(now, arrival) >= cfg.timeout
  }

  predicate TimedOut(cfg: Config, s: Slot, now: u64) {
    s.buffer.Some? && Expired(cfg, s.arrival, now)
  }

  /** Candidate for the next timeout skip among the first `n` slots: the nearest one found by
      a scan that starts from the distance UINT16_MAX, so that distance is never chosen. */
  function Nearest(cfg: Config, slots: seq<Slot>, expected: u16, now: u64, n: nat): (best: Option<u16>)
    requires n <= |slots|
    ensures best.Some? ==>
              && Dist16(best.value, expected) < 0xffff
              && (exists i | 0 <= i < n :: TimedOut(cfg, slots[i], now) && slots[i].sequence == best.value)
    ensures forall i | 0 <= i < n && TimedOut(cfg, slots[i], now) ::
              Dist16(slots[i].sequence, expected) >= if best.Some? then Dist16(best.value, expected) else 0xffff
  {
    if n == 0 then None
    else
      var best := Nearest(cfg, slots, expected, now, n - 1);
      var s := slots[n - 1];
      var limit := if best.Some? then Dist16(best.value, expected) else 0xffff;
      if TimedOut(cfg, s, now) && Dist16(s.sequence, expected) < limit then Some(s.sequence) else best
  }

  function SkipGap(cfg: Config, r: Ring, now: u64): (t: Ring)
    requires Shaped(cfg, r)
    ensures Shaped(cfg, t) && KeepsReleased(r, t)
  {
    match Nearest(cfg, r.slots, r.expected, now, |r.slots|)
    case None => r
    case Some(target) => SkipTo(cfg, r, target)
  }

  function Let(r: Ring, id: nat, reason: Reason): Ring {
    r.(released := r.released + [Release(id, reason)])
  }

  function Store(cfg: Config, r: Ring, id: nat, sequence: u16, now: u64): (t: Ring)
    requires Shaped(cfg, r)
    ensures Shaped(cfg, t)
  {
    var i := sequence % cfg.window;
    var freed := if r.slots[i].buffer.Some? then Let(r, r.slots[i].buffer.value, Evicted) else r;
    freed.(slots := r.slots[i := Slot(Some(id), sequence, now)],
           skipped := r.skipped[sequence := false])
  }

  function Settle(cfg: Config, r: Ring, now: u64): (t: Ring)
    requires Shaped(cfg, r)
    ensures Shaped(cfg, t) && KeepsReleased(r, t)
  {
    Drain(cfg, SkipGap(cfg, r, now))
  }

  /** A packet behind the expected number: late if that number was declared lost, else old. */
  function Behind(r: Ring, id: nat, sequence: u16): Ring
    requires |r.skipped| == 0x1_0000
  {
    if r.skipped[sequence] then
      Let(r.(skipped := r.skipped[sequence := false],
             count := r.count.(latePackets := r.count.latePackets + 1)), id, Late)
    else
      Let(r.(count := r.count.(droppedOld := r.count.droppedOld + 1)), id, Old)
  }

  /** A packet inside the window: a duplicate, or stored and everything due sent on. */
  function Insert(cfg: Config, r: Ring, id: nat, sequence: u16, now: u64): (t: Ring)
    requires Shaped(cfg, r)
    ensures Shaped(cfg, t)
  {
    var slot := r.slots[sequence % cfg.window];
    if slot.buffer.Some? && slot.sequence == sequence then
      Let(r.(count := r.count.(droppedDup := r.count.droppedDup + 1)), id, Duplicate)
    else
      Settle(cfg, Drain(cfg, Store(cfg, r, id, sequence, now)), now)
  }

  /** The first packet of an epoch sets the expected number. */
  function Anchor(r: Ring, sequence: u16): Ring {
    if r.haveExpected then r else r.(expected := sequence, haveExpected := true)
  }

  /** A packet of the locked SSRC, from the half-range test on. */
  function Place(cfg: Config, r: Ring, id: nat, sequence: u16, now: u64): (t: Ring)
    requires Shaped(cfg, r)
    ensures Shaped(cfg, t)
  {
    var r0 := Anchor(r, sequence);
    if Dist16(sequence, r0.expected) >= 0x8000 then Behind(r0, id, sequence)
    else Insert(cfg, Overflow(cfg, r0, sequence), id, sequence, now)
  }

  /** The buffers still in the first `n` slots, let go in slot order. */
  function FlushLog(slots: seq<Slot>, n: nat, reason: Reason): seq<Release>
    requires n <= |slots|
  {
    if n == 0 then []
    else FlushLog(slots, n - 1, reason) +
         (if slots[n - 1].buffer.Some? then [Release(slots[n - 1].buffer.value, reason)] else [])
  }

  function Emptied(slots: seq<Slot>): (e: seq<Slot>)
    ensures |e| == |slots|
  {
    seq(|slots|, i requires 0 <= i < |slots| => slots[i].(buffer := None))
  }

  /** What the SSRC gate decides about a parsed packet. */
  datatype Gate = Reject | Admit | LockThen(ok: bool) | SwitchThen(ok: bool)

  function SsrcGate(cfg: Config, lockedSsrc: u32, ssrc: u32, a: Arrival): Gate {
    if lockedSsrc == 0 then LockThen(a.accepted)
    else if lockedSsrc == ssrc then Admit
    else if a.lastValid == 0 || Sub64(a.now, a.lastValid) <= cfg.ssrcInactive then Reject
    else SwitchThen(a.accepted)
  }

  function SwitchSsrc(r: Ring, ssrc: u32): Ring {
    r.(slots := Emptied(r.slots),
       released := r.released + FlushLog(r.slots, |r.slots|, Flushed),
       lockedSsrc := ssrc,
       haveExpected := false)
  }

  /** A packet whose header parsed, through the SSRC gate. */
  function Accept(cfg: Config, r: Ring, id: nat, h: Header, a: Arrival): (t: Ring)
    requires Shaped(cfg, r)
    ensures Shaped(cfg, t)
  {
    match SsrcGate(cfg, r.lockedSsrc, h.ssrc, a)
    case Reject => Let(r, id, Foreign)
    case Admit => Place(cfg, r, id, h.sequence, a.now)
    case LockThen(ok) =>
      var locked := r.(lockedSsrc := h.ssrc);
      if ok then Place(cfg, locked, id, h.sequence, a.now) else Let(locked, id, PropertyError)
    case SwitchThen(ok) =>
      var switched := SwitchSsrc(r, h.ssrc);
      if ok then Place(cfg, switched, id, h.sequence, a.now) else Let(switched, id, PropertyError)
  }

  function Counting(r: Ring): Ring {
    r.(count := r.count.(inPackets := r.count.inPackets + 1))
  }

  function PushStep(cfg: Config, r: Ring, parsed: Option<Header>, a: Arrival): (t: Ring)
    requires Shaped(cfg, r)
    ensures Shaped(cfg, t)
  {
    var id := r.count.inPackets;
    var r0 := Counting(r);
    match parsed
    case None => Let(r0.(count := r0.count.(parseFail := r0.count.parseFail + 1)), id, Unparseable)
    case Some(h) => Accept(cfg, r0, id, h, a)
  }

  function Step(cfg: Config, r: Ring, e: Event): (t: Ring)
    requires Shaped(cfg, r)
    ensures Shaped(cfg, t)
  {
    match e
    case Push(a) => PushStep(cfg, r, ParseRtp(a.bytes), a)
    case Watchdog(now) => Settle(cfg, r, now)
  }

  function Run(cfg: Config, r: Ring, events: seq<Event>): (t: Ring)
    requires Shaped(cfg, r)
    ensures Shaped(cfg, t)
    decreases |events|
  {
    if events == [] then r else Step(cfg, Run(cfg, r, events[..|events| - 1]), events[|events| - 1])
  }

  function Opened(cfg: Config): (r: Ring)
    requires ValidConfig(cfg)
    ensures Shaped(cfg, r)
  {
    Ring(seq(cfg.window, _ => Slot(None, 0, 0)), seq(0x1_0000, _ => false), 0, false, 0,
         Counters(0, 0, 0, 0, 0, 0), [], [])
  }

  function CloseStep(r: Ring): Ring {
    r.(slots := Emptied(r.slots),
       released := r.released + FlushLog(r.slots, |r.slots|, Closed),
       haveExpected := false)
  }
}
