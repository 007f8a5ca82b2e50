/** Which windows can lose order: with one or two places at most one packet waits behind the
    expected number, so that no timeout skip can step over another; with three or more it can. */
module ReorderNarrow {
  import opened Words
  import opened RtpHeader
  import opened ReorderRing
  import opened ReorderUnwrapped
  import opened ReorderOrder
  import opened ReorderStream
  import opened ReorderGuard
  import ReorderOvertaken

  predicate Narrow(cfg: Config) {
    ValidConfig(cfg) && cfg.window <= 2
  }

  /** Nothing due is waiting. */
  predicate Drained(f: Flow) {
    f.exp !in f.held
  }

  lemma {:induction false} DrainDrains(f: Flow)
    ensures Drained(DrainFlow(f))
    decreases |f.held|
  {
    if f.exp in f.held {
      DrainDrains(EmitHead(f));
    }
  }

  lemma OneWaits(cfg: Config, r: Ring, f: Flow, b: Base, now: u64)
    requires Narrow(cfg) && Matches(cfg, r, f, b) && Drained(f)
    ensures LowestFirst(cfg, f, now)
  {
    hide TableMatches, RecordsMatch, Keeps, Accounted;
  }

  lemma PlaceIsOrderly(cfg: Config, r: Ring, f: Flow, b: Base, n: int, id: nat, now: u64)
    requires Narrow(cfg) && Matches(cfg, r, f, b) && f.exp - 0x8000 <= n < f.exp + 0x8000
    ensures PlaceOrderly(cfg, f, n, now)
  {
    var s, g := Overflow(cfg, r, Lo16(n)), Advance(cfg, f, n);
    if n >= f.exp && n !in g.held {
      AdvanceSimulates(cfg, r, f, b, n);
      StoreSimulates(cfg, s, g, b, n, id, now);
      var s1, g1 := Store(cfg, s, id, Lo16(n), now), StoreFlow(cfg, g, n, now);
      hide Matches, LowestFirst, Drained, Store, StoreFlow, Drain, DrainFlow;
      DrainSimulates(cfg, s1, g1, b);
      DrainDrains(g1);
      OneWaits(cfg, Drain(cfg, s1), DrainFlow(g1), b, now);
    }
  }

  lemma FollowedGuarded(cfg: Config, r: Ring, t: Track, id: nat, sequence: u16, now: u64)
    requires Narrow(cfg) && Follows(cfg, r, t)
    ensures PlaceGuard(cfg, r, id, sequence, now)
  {
    hide PlaceGuard, Matches, LeftOver, BaseOf, PlaceOrderly, Place;
    match t {
      case Idle =>
        EpochBegins(cfg, r, id, sequence, now);
        hide Anchor;
        var f, b := StartFlow(sequence, LeftOver(r.skipped, sequence)), BaseOf(r);
        PlaceIsOrderly(cfg, Anchor(r, sequence), f, b, sequence, id, now);
        PlaceGuarded(cfg, Anchor(r, sequence), f, b, sequence, id, now);
      case Live(f, b) =>
        PlaceIsOrderly(cfg, r, f, b, Near(f.exp, sequence), id, now);
        PlaceGuarded(cfg, r, f, b, Near(f.exp, sequence), id, now);
    }
  }

  lemma AcceptGuarded(cfg: Config, r: Ring, t: Track, id: nat, h: Header, a: Arrival)
    requires Narrow(cfg) && Follows(cfg, r, t)
    ensures AcceptGuard(cfg, r, id, h, a)
  {
    match SsrcGate(cfg, r.lockedSsrc, h.ssrc, a) {
      case Reject =>
      case Admit => FollowedGuarded(cfg, r, t, id, h.sequence, a.now);
      case LockThen(ok) =>
        SameFollows(cfg, r, t, h.ssrc);
        FollowedGuarded(cfg, r.(lockedSsrc := h.ssrc), t, id, h.sequence, a.now);
      case SwitchThen(ok) =>
        assert Follows(cfg, SwitchSsrc(r, h.ssrc), Idle);
        FollowedGuarded(cfg, SwitchSsrc(r, h.ssrc), Idle, id, h.sequence, a.now);
    }
  }

  predicate TrackDrained(t: Track) {
    t.Live? ==> Drained(t.flow)
  }

  lemma NarrowStep(cfg: Config, r: Ring, t: Track, e: Event)
    requires Narrow(cfg) && Follows(cfg, r, t) && TrackDrained(t)
    ensures StepGuard(cfg, r, e)
  {
    match e {
      case Watchdog(now) =>
        if t.Live? {
          OneWaits(cfg, r, t.flow, t.base, now);
          GuardAgrees(cfg, r.slots, t.flow.exp, t.flow.held, now);
        }
      case Push(a) =>
        if ParseRtp(a.bytes).Some? {
          SameFollows(cfg, r, t, 0);
          AcceptGuarded(cfg, Counting(r), t, r.count.inPackets, ParseRtp(a.bytes).value, a);
        }
    }
  }

  lemma {:induction false} AdvanceHolds(cfg: Config, f: Flow, n: int)
    requires ValidConfig(cfg)
    ensures forall m | m in Advance(cfg, f, n).held :: m in f.held
    decreases n - f.exp
  {
    if n - f.exp < cfg.window {
    } else if f.exp in f.held {
      AdvanceHolds(cfg, EmitHead(f), n);
    } else {
      AdvanceHolds(cfg, SkipHead(f), n);
    }
  }

  lemma PlaceDrains(cfg: Config, f: Flow, n: int, now: u64)
    requires ValidConfig(cfg) && Drained(f) && forall m | m in f.held :: m < f.exp + cfg.window
    ensures Drained(PlaceFlow(cfg, f, n, now))
  {
    var g := Advance(cfg, f, n);
    AdvanceHolds(cfg, f, n);
    if n >= f.exp && n !in g.held {
      DrainDrains(SkipGapFlow(cfg, DrainFlow(StoreFlow(cfg, g, n, now)), now));
    }
  }

  lemma TrackPlaceDrains(cfg: Config, r: Ring, t: Track, sequence: u16, now: u64)
    requires Follows(cfg, r, t) && TrackDrained(t)
    ensures TrackDrained(TrackPlace(cfg, r, t, sequence, now))
  {
    match t {
      case Idle => PlaceDrains(cfg, StartFlow(sequence, LeftOver(r.skipped, sequence)), sequence, now);
      case Live(f, b) => PlaceDrains(cfg, f, Near(f.exp, sequence), now);
    }
  }

  lemma TrackStepDrains(cfg: Config, r: Ring, t: Track, e: Event)
    requires Follows(cfg, r, t) && TrackDrained(t)
    ensures TrackDrained(TrackStep(cfg, r, t, e))
  {
    match e {
      case Watchdog(now) =>
        if t.Live? {
          DrainDrains(SkipGapFlow(cfg, t.flow, now));
        }
      case Push(a) =>
        match ParseRtp(a.bytes) {
          case None =>
          case Some(h) =>
            TrackPlaceDrains(cfg, r, t, h.sequence, a.now);
            IdlePlaceDrains(cfg, r, h.sequence, a.now);
        }
    }
  }

  /** The first packet of an epoch. */
  lemma IdlePlaceDrains(cfg: Config, r: Ring, sequence: u16, now: u64)
    requires Shaped(cfg, r)
    ensures TrackDrained(TrackPlace(cfg, r, Idle, sequence, now))
  {
    PlaceDrains(cfg, StartFlow(sequence, LeftOver(r.skipped, sequence)), sequence, now);
  }

  lemma {:induction false} NarrowRun(cfg: Config, events: seq<Event>)
    requires Narrow(cfg)
    ensures RunGuard(cfg, events) && TrackDrained(TrackRun(cfg, events))
    decreases |events|
  {
    hide Follows, TrackDrained, StepGuard, TrackStep, Step;
    if events != [] {
      var before, e := events[..|events| - 1], events[|events| - 1];
      NarrowRun(cfg, before);
      RunFollows(cfg, before);
      NarrowStep(cfg, Run(cfg, Opened(cfg), before), TrackRun(cfg, before), e);
      TrackStepDrains(cfg, Run(cfg, Opened(cfg), before), TrackRun(cfg, before), e);
    } else {
      NoneDrained();
    }
  }

  lemma NoneDrained()
    ensures TrackDrained(Idle)
  {
  }

  /** No run lets a packet be overtaken. */
  ghost predicate NeverOvertakes(cfg: Config)
    requires ValidConfig(cfg)
  {
    forall events {:trigger AlwaysWindowed(cfg, events)} :: AlwaysWindowed(cfg, events)
  }

  /** After packet 3 has stepped over it, packet 2 is outside the window. */
  lemma OvertakenOutside(cfg: Config)
    requires ReorderOvertaken.Wide(cfg)
    ensures !AlwaysWindowed(cfg, ReorderOvertaken.Events(cfg)[..3])
  {
    ReorderOvertaken.AfterThree(cfg);
    var events := ReorderOvertaken.Events(cfg)[..3];
    assert events[..3] == events;
    hide Run, ReorderOvertaken.Events, AlwaysWindowed;
    TwoOutside(cfg, Run(cfg, Opened(cfg), events));
    assert !WindowedAt(cfg, events, 3);
    NotAlways(cfg, events, 3);
  }

  lemma NotAlways(cfg: Config, events: seq<Event>, k: nat)
    requires ValidConfig(cfg) && k <= |events| && !WindowedAt(cfg, events, k)
    ensures !AlwaysWindowed(cfg, events)
  {
  }

  lemma TwoOutside(cfg: Config, r: Ring)
    requires ReorderOvertaken.Wide(cfg) && Shaped(cfg, r) && r.expected == 4
    requires r.slots[2] == Slot(Some(2), 2, cfg.timeout)
    ensures !Windowed(cfg, r)
  {
    assert r.slots[2].buffer.Some? && Dist16(2, 4) >= cfg.window;
  }

  /** Over every run every waiting packet stays in its slot and inside the window, exactly for
      windows of one and two. */
  lemma NeverOvertakesExactly(cfg: Config)
    requires ValidConfig(cfg)
    ensures NeverOvertakes(cfg) <==> cfg.window <= 2
  {
    hide AlwaysWindowed, RunGuard;
    if cfg.window <= 2 {
      forall events
        ensures AlwaysWindowed(cfg, events)
      {
        NarrowRun(cfg, events);
        RunGuardIsExact(cfg, events);
      }
    } else {
      OvertakenOutside(cfg);
    }
  }
}
