/** Which windows can make the ring throw a waiting packet out for another one: those that do not
    divide the sequence space, and no other. */
module ReorderEviction {
  import opened Words
  import opened Residues
  import opened RtpHeader
  import opened ReorderRing
  import opened ReorderUnwrapped
  import opened ReorderOrder

  lemma LowResidue(n: int, w: int)
    requires w > 0 && 0x1_0000 % w == 0
    ensures Lo16(n) % w == n % w
  {
    var k, laps := 0x1_0000 / w, n / 0x1_0000;
    Division(0x1_0000, w);
    assert w * (k * laps) == (w * k) * laps;
    ModShift(Lo16(n), w, k * laps);
  }

  /** Two numbers of one window never share a slot. */
  ghost predicate SlotsApart(cfg: Config)
    requires ValidConfig(cfg)
  {
    forall m, n | m < n < m + cfg.window :: SlotOf(cfg, m) != SlotOf(cfg, n)
  }

  lemma DividingWindow(cfg: Config, m: int, n: int)
    requires ValidConfig(cfg) && 0x1_0000 % cfg.window == 0 && m < n < m + cfg.window
    ensures SlotOf(cfg, m) != SlotOf(cfg, n)
  {
    LowResidue(m, cfg.window);
    LowResidue(n, cfg.window);
    if m % cfg.window == n % cfg.window {
      SameResidue(m, n, cfg.window);
    }
  }

  /** The largest multiple of the window below the wrap shares slot 0 with the wrap itself. */
  lemma OtherWindow(cfg: Config)
    requires ValidConfig(cfg) && 0x1_0000 % cfg.window != 0
    ensures var m := 0x1_0000 - 0x1_0000 % cfg.window;
            m < 0x1_0000 < m + cfg.window && SlotOf(cfg, m) == SlotOf(cfg, 0x1_0000)
  {
    var m := 0x1_0000 - 0x1_0000 % cfg.window;
    Division(0x1_0000, cfg.window);
    DivModIs(m, cfg.window, 0x1_0000 / cfg.window, 0);
    DivModIs(0, cfg.window, 0, 0);
  }

  /** Eviction is impossible exactly for the windows that divide the sequence space. */
  lemma EvictionFreeWindows(cfg: Config)
    requires ValidConfig(cfg)
    ensures SlotsApart(cfg) <==> 0x1_0000 % cfg.window == 0
  {
    if 0x1_0000 % cfg.window == 0 {
      forall m, n | m < n < m + cfg.window
        ensures SlotOf(cfg, m) != SlotOf(cfg, n)
      {
        DividingWindow(cfg, m, n);
      }
    } else {
      OtherWindow(cfg);
    }
  }

  lemma NoClash(cfg: Config, f: Flow, n: int)
    requires ValidConfig(cfg) && 0x1_0000 % cfg.window == 0
    requires (forall m | m in f.held :: f.exp <= m < f.exp + cfg.window) && f.exp <= n < f.exp + cfg.window
    ensures Clash(cfg, f.held, n) == {}
  {
    forall m | m in f.held && m != n
      ensures SlotOf(cfg, m) != SlotOf(cfg, n)
    {
      if m < n {
        DividingWindow(cfg, m, n);
      } else {
        DividingWindow(cfg, n, m);
      }
    }
  }

  lemma StoreEvictsNothing(cfg: Config, r: Ring, id: nat, sequence: u16, now: u64)
    requires Shaped(cfg, r) && Windowed(cfg, r) && 0x1_0000 % cfg.window == 0
    requires Dist16(sequence, r.expected) < cfg.window
    requires var slot := r.slots[sequence % cfg.window]; !(slot.buffer.Some? && slot.sequence == sequence)
    ensures Store(cfg, r, id, sequence, now).released == r.released
  {
    var slot := r.slots[sequence % cfg.window];
    if slot.buffer.Some? {
      var m, n := Ahead(r.expected, slot.sequence), Ahead(r.expected, sequence);
      LowOfAhead(r.expected, slot.sequence);
      LowOfAhead(r.expected, sequence);
      assert SlotOf(cfg, m) == SlotOf(cfg, n);
      if m < n {
        DividingWindow(cfg, m, n);
      } else if n < m {
        DividingWindow(cfg, n, m);
      }
    }
  }

  predicate NoneEvicted(released: seq<Release>) {
    forall k | 0 <= k < |released| :: released[k].reason != Evicted
  }

  lemma {:induction false} FlushEvictsNothing(slots: seq<Slot>, n: nat, reason: Reason)
    requires n <= |slots| && reason != Evicted
    ensures NoneEvicted(FlushLog(slots, n, reason))
  {
    if n > 0 {
      FlushEvictsNothing(slots, n - 1, reason);
    }
  }

  lemma InsertEvictsNothing(cfg: Config, r: Ring, id: nat, sequence: u16, now: u64)
    requires Shaped(cfg, r) && Windowed(cfg, r) && 0x1_0000 % cfg.window == 0
    requires Dist16(sequence, r.expected) < cfg.window && NoneEvicted(r.released)
    ensures NoneEvicted(Insert(cfg, r, id, sequence, now).released)
  {
    var slot := r.slots[sequence % cfg.window];
    if !(slot.buffer.Some? && slot.sequence == sequence) {
      StoreEvictsNothing(cfg, r, id, sequence, now);
    }
  }

  lemma PlaceEvictsNothing(cfg: Config, r: Ring, f: Flow, b: Base, n: int, id: nat, now: u64)
    requires Matches(cfg, r, f, b) && f.exp - 0x8000 <= n < f.exp + 0x8000
    requires 0x1_0000 % cfg.window == 0 && NoneEvicted(r.released)
    ensures NoneEvicted(Place(cfg, r, id, Lo16(n), now).released)
  {
    if n < f.exp {
      DistBehind(f.exp, n);
    } else {
      DistAhead(f.exp, n);
      AdvanceSimulates(cfg, r, f, b, n);
      var s := Overflow(cfg, r, Lo16(n));
      MatchesWindowed(cfg, s, Advance(cfg, f, n), b);
      InsertEvictsNothing(cfg, s, id, Lo16(n), now);
    }
  }

  lemma FirstEvictsNothing(cfg: Config, r: Ring, id: nat, sequence: u16, now: u64)
    requires Shaped(cfg, r) && Quiet(r) && 0x1_0000 % cfg.window == 0 && NoneEvicted(r.released)
    ensures NoneEvicted(Place(cfg, r, id, sequence, now).released)
  {
    EpochBegins(cfg, r, id, sequence, now);
    hide Place, Matches, LeftOver, BaseOf, NoneEvicted, Anchor, Quiet;
    PlaceEvictsNothing(cfg, Anchor(r, sequence), StartFlow(sequence, LeftOver(r.skipped, sequence)), BaseOf(r),
                       sequence, id, now);
  }

  lemma FollowedEvictsNothing(cfg: Config, r: Ring, t: Track, id: nat, sequence: u16, now: u64)
    requires Follows(cfg, r, t) && 0x1_0000 % cfg.window == 0 && NoneEvicted(r.released)
    ensures NoneEvicted(Place(cfg, r, id, sequence, now).released)
  {
    match t {
      case Idle => FirstEvictsNothing(cfg, r, id, sequence, now);
      case Live(f, b) =>
        hide Place, Matches, NoneEvicted;
        PlaceEvictsNothing(cfg, r, f, b, Near(f.exp, sequence), id, now);
    }
  }

  lemma StepEvictsNothing(cfg: Config, r: Ring, t: Track, e: Event)
    requires Follows(cfg, r, t) && 0x1_0000 % cfg.window == 0 && NoneEvicted(r.released)
    ensures NoneEvicted(Step(cfg, r, e).released)
  {
    match e {
      case Watchdog(now) =>
      case Push(a) =>
        match ParseRtp(a.bytes) {
          case None =>
          case Some(h) =>
            SameFollows(cfg, r, t, 0);
            AcceptEvictsNothing(cfg, Counting(r), t, r.count.inPackets, h, a);
        }
    }
  }

  lemma AcceptEvictsNothing(cfg: Config, r: Ring, t: Track, id: nat, h: Header, a: Arrival)
    requires Follows(cfg, r, t) && 0x1_0000 % cfg.window == 0 && NoneEvicted(r.released)
    ensures NoneEvicted(Accept(cfg, r, id, h, a).released)
  {
    match SsrcGate(cfg, r.lockedSsrc, h.ssrc, a) {
      case Reject =>
      case Admit => FollowedEvictsNothing(cfg, r, t, id, h.sequence, a.now);
      case LockThen(ok) =>
        SameFollows(cfg, r, t, h.ssrc);
        FollowedEvictsNothing(cfg, r.(lockedSsrc := h.ssrc), t, id, h.sequence, a.now);
      case SwitchThen(ok) =>
        var switched := SwitchSsrc(r, h.ssrc);
        FlushEvictsNothing(r.slots, |r.slots|, Flushed);
        assert Follows(cfg, switched, Idle);
        FollowedEvictsNothing(cfg, switched, Idle, id, h.sequence, a.now);
    }
  }

  /** With a window that divides 65536 no guarded run, of any packets and through any number of
      SSRC switches, ever evicts a waiting packet. */
  lemma {:induction false} NothingEvicted(cfg: Config, events: seq<Event>)
    requires ValidConfig(cfg) && 0x1_0000 % cfg.window == 0 && RunGuard(cfg, events)
    ensures NoneEvicted(Run(cfg, Opened(cfg), events).released)
    decreases |events|
  {
    if events != [] {
      var before := events[..|events| - 1];
      NothingEvicted(cfg, before);
      RunFollows(cfg, before);
      StepEvictsNothing(cfg, Run(cfg, Opened(cfg), before), TrackRun(cfg, before), events[|events| - 1]);
    }
  }
}
