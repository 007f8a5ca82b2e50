/** For every window of three or more, a run that breaks order: a timeout skip steps over a packet
    that is still waiting. */
module ReorderOvertaken {
  import opened Words
  import opened RtpHeader
  import opened ReorderRing
  import opened ReorderOrder

  predicate Wide(cfg: Config) {
    ValidConfig(cfg) && 3 <= cfg.window
  }

  function Arriving(s: u8, now: u64): Event {
    Push(Arrival(Bare(s, 1), now, 0, true))
  }

  /** Only the slots in `waiting` are occupied, as it says. */
  predicate Waiting(slots: seq<Slot>, waiting: map<nat, Slot>) {
    && (forall i | i in waiting :: i < |slots| && slots[i] == waiting[i])
    && (forall i | 0 <= i < |slots| && slots[i].buffer.Some? :: i in waiting)
  }

  /** The state the run passes through, as far as the next steps depend on it. */
  predicate At(cfg: Config, r: Ring, packets: nat, expected: u16, gaps: nat, output: seq<Emission>,
               waiting: map<nat, Slot>)
  {
    && Shaped(cfg, r) && r.haveExpected && r.lockedSsrc == 1
    && r.count.inPackets == packets && r.expected == expected && r.count.lostGaps == gaps
    && r.output == output && Waiting(r.slots, waiting)
  }

  lemma DrainOnce(cfg: Config, r: Ring)
    requires Shaped(cfg, r) && r.haveExpected && HeadReady(cfg, r)
    requires !HeadReady(cfg, Emit(cfg, r))
    ensures Drain(cfg, r) == Emit(cfg, r)
  {
  }

  lemma NoneTimedOut(cfg: Config, r: Ring, now: u64)
    requires Shaped(cfg, r) && forall i | 0 <= i < cfg.window :: !TimedOut(cfg, r.slots[i], now)
    ensures SkipGap(cfg, r, now) == r
  {
  }

  lemma StepPlaces(cfg: Config, r: Ring, s: u8, now: u64)
    requires Shaped(cfg, r) && (r.lockedSsrc == 1 || r.lockedSsrc == 0)
    ensures Step(cfg, r, Arriving(s, now)) ==
            Place(cfg, Counting(r).(lockedSsrc := 1), r.count.inPackets, s, now)
  {
    hide Place, Bare;
    BareParses(s, 1);
  }

  lemma FirstPlaced(cfg: Config, r: Ring)
    requires Wide(cfg) && r == Counting(Opened(cfg)).(lockedSsrc := 1)
    ensures At(cfg, Place(cfg, r, 0, 0, 0), 1, 1, 0, [Emission(0, 0)], map[])
  {
    var anchored := Anchor(r, 0);
    var stored := Store(cfg, anchored, 0, 0, 0);
    var sent := Emit(cfg, stored);
    assert Waiting(sent.slots, map[]) && !HeadReady(cfg, sent);
    DrainOnce(cfg, stored);
    NoneTimedOut(cfg, sent, 0);
    assert Overflow(cfg, anchored, 0) == anchored;
    assert Drain(cfg, sent) == sent;
  }

  lemma First(cfg: Config)
    requires Wide(cfg)
    ensures At(cfg, Step(cfg, Opened(cfg), Arriving(0, 0)), 1, 1, 0, [Emission(0, 0)], map[])
  {
    hide Place, Step, At;
    StepPlaces(cfg, Opened(cfg), 0, 0);
    FirstPlaced(cfg, Counting(Opened(cfg)).(lockedSsrc := 1));
  }

  /** A packet inside the window, not next, whose slot is free. */
  predicate Fits(cfg: Config, r: Ring, s: u8) {
    && Shaped(cfg, r) && r.haveExpected && r.expected < s < r.expected + cfg.window
    && r.slots[s % cfg.window].buffer.None? && !HeadReady(cfg, r)
  }

  lemma FitsInside(cfg: Config, r: Ring, s: u8)
    requires Fits(cfg, r, s)
    ensures Dist16(s, r.expected) < cfg.window && Overflow(cfg, r, s) == r
  {
  }

  /** It is stored, nothing is sent, and a timeout skip follows. */
  lemma FitsPlaced(cfg: Config, r: Ring, id: nat, s: u8, now: u64)
    requires Fits(cfg, r, s)
    ensures Place(cfg, r, id, s, now) == Settle(cfg, Store(cfg, r, id, s, now), now)
  {
    hide Settle, Overflow, Nearest;
    FitsInside(cfg, r, s);
    var stored := Store(cfg, r, id, s, now);
    assert !HeadReady(cfg, stored);
    assert Drain(cfg, stored) == stored;
  }

  /** Exactly one slot has timed out, not the next one: its packet is sent next. */
  lemma Jumps(cfg: Config, r: Ring, i: nat, now: u64)
    requires Shaped(cfg, r) && r.haveExpected && i < cfg.window
    requires forall j | 0 <= j < cfg.window :: TimedOut(cfg, r.slots[j], now) <==> j == i
    requires r.slots[i].sequence % cfg.window == i && Dist16(r.slots[i].sequence, r.expected) < 0xffff
    requires forall j | 0 <= j < cfg.window && j != i && r.slots[j].buffer.Some? ::
               r.slots[j].sequence != Lo16(r.slots[i].sequence + 1)
    ensures var s, t := r.slots[i], Settle(cfg, r, now);
            && Shaped(cfg, t) && t.haveExpected && t.lockedSsrc == r.lockedSsrc
            && t.expected == Lo16(s.sequence + 1)
            && t.slots == r.slots[i := s.(buffer := None)]
            && t.count.lostGaps == r.count.lostGaps + Dist16(s.sequence, r.expected)
            && t.count.inPackets == r.count.inPackets
            && t.output == r.output + [Emission(s.buffer.value, s.sequence)]
  {
    var s := r.slots[i];
    var best := Nearest(cfg, r.slots, r.expected, now, cfg.window);
    assert TimedOut(cfg, r.slots[i], now);
    assert best == Some(s.sequence);
    SkipToTotal(cfg, r, s.sequence);
    var skipped := SkipTo(cfg, r, s.sequence);
    DrainOnce(cfg, skipped);
  }

  /** Packet 3, which came second, waits. */
  function Three(cfg: Config): map<nat, Slot>
    requires Wide(cfg)
  {
    map[SlotOfThree(cfg) := Slot(Some(1), 3, 0)]
  }

  function SlotOfThree(cfg: Config): (i: nat)
    requires Wide(cfg)
    ensures i == 3 % cfg.window && i < cfg.window && i != 2
  {
    if cfg.window == 3 then 0 else 3
  }

  lemma OneMoreWaits(slots: seq<Slot>, waiting: map<nat, Slot>, i: nat, s: Slot)
    requires Waiting(slots, waiting) && i < |slots| && s.buffer.Some?
    ensures Waiting(slots[i := s], waiting[i := s])
  {
  }

  /** Packet 2, which came third. */
  function Two(cfg: Config): map<nat, Slot> {
    map[2 := Slot(Some(2), 2, cfg.timeout)]
  }

  lemma ThreeStored(cfg: Config, r: Ring)
    requires Wide(cfg) && At(cfg, r, 2, 1, 0, [Emission(0, 0)], map[])
    ensures Settle(cfg, Store(cfg, r, 1, 3, 0), 0) == Store(cfg, r, 1, 3, 0)
    ensures At(cfg, Store(cfg, r, 1, 3, 0), 2, 1, 0, [Emission(0, 0)], Three(cfg))
  {
    var stored := Store(cfg, r, 1, 3, 0);
    OneMoreWaits(r.slots, map[], SlotOfThree(cfg), Slot(Some(1), 3, 0));
    NoneTimedOut(cfg, stored, 0);
    assert Drain(cfg, stored) == stored;
  }

  lemma Second(cfg: Config, r: Ring)
    requires Wide(cfg) && At(cfg, r, 1, 1, 0, [Emission(0, 0)], map[])
    ensures At(cfg, Step(cfg, r, Arriving(3, 0)), 2, 1, 0, [Emission(0, 0)], Three(cfg))
  {
    var counted := Counting(r).(lockedSsrc := 1);
    assert At(cfg, counted, 2, 1, 0, [Emission(0, 0)], map[]) && !HeadReady(cfg, counted);
    assert Fits(cfg, counted, 3) && Shaped(cfg, r) && r.lockedSsrc == 1 && r.count.inPackets == 1;
    hide Settle, Step, Place, Store, Fits, Arriving, Waiting, At, HeadReady, Three;
    StepPlaces(cfg, r, 3, 0);
    FitsPlaced(cfg, counted, 1, 3, 0);
    ThreeStored(cfg, counted);
  }

  /** Both wait, and packet 3 has timed out. */
  predicate BothWait(cfg: Config, r: Ring)
    requires Wide(cfg)
  {
    At(cfg, r, 3, 1, 0, [Emission(0, 0)], Three(cfg)[2 := Slot(Some(2), 2, cfg.timeout)])
  }

  lemma SmallSlots(cfg: Config)
    requires Wide(cfg)
    ensures 1 % cfg.window == 1 && 2 % cfg.window == 2
  {
  }

  /** Packet 2 has just been counted. */
  lemma TwoFits(cfg: Config, r: Ring)
    requires Wide(cfg) && At(cfg, r, 3, 1, 0, [Emission(0, 0)], Three(cfg))
    ensures Fits(cfg, r, 2)
  {
    SmallSlots(cfg);
    assert r.slots[2].buffer.None?;
    hide Waiting, Three;
  }

  lemma TwoStored(cfg: Config, r: Ring)
    requires Wide(cfg) && At(cfg, r, 3, 1, 0, [Emission(0, 0)], Three(cfg))
    ensures BothWait(cfg, Store(cfg, r, 2, 2, cfg.timeout))
  {
    hide Waiting, Three;
    SmallSlots(cfg);
    OneMoreWaits(r.slots, Three(cfg), 2, Slot(Some(2), 2, cfg.timeout));
  }

  lemma ThreeJumps(cfg: Config, r: Ring)
    requires Wide(cfg) && BothWait(cfg, r)
    ensures At(cfg, Settle(cfg, r, cfg.timeout), 3, 4, 2, [Emission(0, 0), Emission(1, 3)], Two(cfg))
  {
    var i := SlotOfThree(cfg);
    hide Settle;
    assert r.slots[i] == Slot(Some(1), 3, 0) && r.slots[2] == Slot(Some(2), 2, cfg.timeout);
    Jumps(cfg, r, i, cfg.timeout);
  }

  lemma Third(cfg: Config, r: Ring)
    requires Wide(cfg) && At(cfg, r, 2, 1, 0, [Emission(0, 0)], Three(cfg))
    ensures At(cfg, Step(cfg, r, Arriving(2, cfg.timeout)), 3, 4, 2, [Emission(0, 0), Emission(1, 3)], Two(cfg))
  {
    var counted := Counting(r).(lockedSsrc := 1);
    assert At(cfg, counted, 3, 1, 0, [Emission(0, 0)], Three(cfg));
    assert Shaped(cfg, r) && r.lockedSsrc == 1 && r.count.inPackets == 2;
    hide Settle, Step, Place, Store, BothWait, Fits, Arriving, Waiting, At;
    StepPlaces(cfg, r, 2, cfg.timeout);
    TwoFits(cfg, counted);
    TwoStored(cfg, counted);
    FitsPlaced(cfg, counted, 2, 2, cfg.timeout);
    ThreeJumps(cfg, Store(cfg, counted, 2, 2, cfg.timeout));
  }

  /** Late enough for packet 2 to have waited out the timeout, too. */
  function Later(cfg: Config): u64 {
    2 * cfg.timeout % U64
  }

  lemma LaterIs(cfg: Config)
    ensures Sub64(Later(cfg), cfg.timeout) == cfg.timeout
  {
  }

  lemma Fourth(cfg: Config, r: Ring)
    requires Wide(cfg) && At(cfg, r, 3, 4, 2, [Emission(0, 0), Emission(1, 3)], Two(cfg))
    ensures At(cfg, Step(cfg, r, Watchdog(Later(cfg))), 3, 3, 0x1_0000,
               [Emission(0, 0), Emission(1, 3), Emission(2, 2)], map[])
  {
    LaterIs(cfg);
    hide Later, Sub64;
    assert r.slots[2] == Slot(Some(2), 2, cfg.timeout);
    Jumps(cfg, r, 2, Later(cfg));
  }

  function Events(cfg: Config): (events: seq<Event>)
    ensures |events| == 4
  {
    [Arriving(0, 0), Arriving(3, 0), Arriving(2, cfg.timeout), Watchdog(Later(cfg))]
  }

  lemma OneMore(cfg: Config, k: nat)
    requires ValidConfig(cfg) && k < 4
    ensures var events := Events(cfg);
            Run(cfg, Opened(cfg), events[..k + 1]) == Step(cfg, Run(cfg, Opened(cfg), events[..k]), events[k])
  {
    hide Step;
    var events := Events(cfg);
    assert events[..k + 1][..k] == events[..k];
  }

  lemma AfterThree(cfg: Config)
    requires Wide(cfg)
    ensures At(cfg, Run(cfg, Opened(cfg), Events(cfg)[..3]), 3, 4, 2, [Emission(0, 0), Emission(1, 3)], Two(cfg))
  {
    hide Step, Run, At, Opened, Arriving;
    var events := Events(cfg);
    OneMore(cfg, 0);
    OneMore(cfg, 1);
    OneMore(cfg, 2);
    NoneRun(cfg);
    assert events[..0] == [];
    First(cfg);
    Second(cfg, Run(cfg, Opened(cfg), events[..1]));
    Third(cfg, Run(cfg, Opened(cfg), events[..2]));
  }

  lemma NoneRun(cfg: Config)
    requires ValidConfig(cfg)
    ensures Run(cfg, Opened(cfg), []) == Opened(cfg)
  {
  }

  /** Packets 0 and 3 arrive at time 0 and packet 2 when 3 has waited out the timeout: 3 is sent,
      stepping over 2, and once 2 has waited as long, the watchdog counts nearly a whole lap of
      gaps on its way round to it. The three packets leave in the order 0, 3, 2. */
  lemma OvertakenPacket(cfg: Config)
    requires ValidConfig(cfg) && 3 <= cfg.window
    ensures var r := Run(cfg, Opened(cfg), Events(cfg));
            r.output == [Emission(0, 0), Emission(1, 3), Emission(2, 2)] && r.count.lostGaps == 0x1_0000
  {
    AfterThree(cfg);
    OneMore(cfg, 3);
    Fourth(cfg, Run(cfg, Opened(cfg), Events(cfg)[..3]));
    assert Events(cfg)[..4] == Events(cfg);
    hide Step, Run;
  }
}
