/** The guard of the ordering theorem is exact over runs: it holds of a run exactly when the slots
    stay in the window after every event. A packet that a timeout skip has stepped over is left
    behind the expected number, and draining never comes round to it. */
module ReorderGuard {
  import opened Words
  import opened RtpHeader
  import opened ReorderRing
  import opened ReorderUnwrapped
  import opened ReorderOrder

  /** Counted from `origin`, every waiting packet is inside the window. */
  predicate WindowedFrom(cfg: Config, r: Ring, origin: u16) {
    forall i | 0 <= i < |r.slots| && r.slots[i].buffer.Some? :: Dist16(r.slots[i].sequence, origin) < cfg.window
  }

  lemma OneFurther(expected: u16, origin: u16)
    requires Dist16(expected, origin) < 0x8000
    ensures Dist16(Lo16(expected + 1), origin) == Dist16(expected, origin) + 1
  {
  }

  lemma EmitPasses(cfg: Config, r: Ring, origin: u16, i: nat)
    requires Shaped(cfg, r) && WindowedFrom(cfg, r, origin) && i < cfg.window && r.slots[i].buffer.Some?
    requires HeadReady(cfg, r) && Dist16(r.slots[i].sequence, origin) < Dist16(r.expected, origin)
    ensures var t := Emit(cfg, r);
            && WindowedFrom(cfg, t, origin) && t.slots[i] == r.slots[i]
            && Dist16(r.expected, origin) < Dist16(t.expected, origin) <= cfg.window
  {
    var head := r.expected % cfg.window;
    assert r.slots[head].buffer.Some? && Dist16(r.slots[head].sequence, origin) < cfg.window;
    assert head != i;
    OneFurther(r.expected, origin);
    hide Dist16, Lo16;
    assert WindowedFrom(cfg, Emit(cfg, r), origin);
  }

  /** Draining goes on from a number past slot `i`, and stops inside the window without it. */
  lemma {:induction false} DrainPasses(cfg: Config, r: Ring, origin: u16, i: nat)
    requires Shaped(cfg, r) && WindowedFrom(cfg, r, origin) && i < cfg.window && r.slots[i].buffer.Some?
    requires Dist16(r.slots[i].sequence, origin) < Dist16(r.expected, origin) <= cfg.window
    ensures var t := Drain(cfg, r);
            t.slots[i] == r.slots[i] && Dist16(r.expected, origin) <= Dist16(t.expected, origin) <= cfg.window
    decreases Occupied(r.slots)
  {
    if r.haveExpected && HeadReady(cfg, r) {
      EmitPasses(cfg, r, origin, i);
      DrainPasses(cfg, Emit(cfg, r), origin, i);
    }
  }

  /** A packet once stepped over stays behind: the state after the skip and the drain is not in
      the window. */
  lemma OvertakenStays(cfg: Config, r: Ring, now: u64)
    requires Shaped(cfg, r) && Windowed(cfg, r) && !NothingNearer(cfg, r.slots, r.expected, now)
    ensures !Windowed(cfg, Settle(cfg, r, now))
  {
    var target := Nearest(cfg, r.slots, r.expected, now, |r.slots|).value;
    var i :| 0 <= i < |r.slots| && r.slots[i].buffer.Some? &&
             Dist16(r.slots[i].sequence, r.expected) < Dist16(target, r.expected);
    SkipToTotal(cfg, r, target);
    var skipped := SkipGap(cfg, r, now);
    assert WindowedFrom(cfg, skipped, r.expected);
    DrainPasses(cfg, skipped, r.expected, i);
    var t := Drain(cfg, skipped);
    OvertakenDistance(t.slots[i].sequence, r.expected, t.expected);
  }

  lemma PlaceUnguarded(cfg: Config, r: Ring, f: Flow, b: Base, n: int, id: nat, now: u64)
    requires Matches(cfg, r, f, b) && f.exp - 0x8000 <= n < f.exp + 0x8000
    requires !PlaceGuard(cfg, r, id, Lo16(n), now)
    ensures !Windowed(cfg, Place(cfg, r, id, Lo16(n), now))
  {
    if n < f.exp {
      DistBehind(f.exp, n);
    } else {
      DistAhead(f.exp, n);
      AdvanceSimulates(cfg, r, f, b, n);
      var s, g := Overflow(cfg, r, Lo16(n)), Advance(cfg, f, n);
      StoreSimulates(cfg, s, g, b, n, id, now);
      var s1, g1 := Store(cfg, s, id, Lo16(n), now), StoreFlow(cfg, g, n, now);
      DrainSimulates(cfg, s1, g1, b);
      MatchesWindowed(cfg, Drain(cfg, s1), DrainFlow(g1), b);
      OvertakenStays(cfg, Drain(cfg, s1), now);
    }
  }

  lemma FollowedUnguarded(cfg: Config, r: Ring, t: Track, id: nat, sequence: u16, now: u64)
    requires Follows(cfg, r, t) && !PlaceGuard(cfg, r, id, sequence, now)
    ensures !Windowed(cfg, Place(cfg, r, id, sequence, now))
  {
    hide Place, PlaceGuard, Matches, Windowed, LeftOver;
    match t {
      case Idle =>
        EpochBegins(cfg, r, id, sequence, now);
        hide Anchor;
        var f := StartFlow(sequence, LeftOver(r.skipped, sequence));
        PlaceUnguarded(cfg, Anchor(r, sequence), f, BaseOf(r), sequence, id, now);
      case Live(f, b) => PlaceUnguarded(cfg, r, f, b, Near(f.exp, sequence), id, now);
    }
  }

  lemma AcceptUnguarded(cfg: Config, r: Ring, t: Track, id: nat, h: Header, a: Arrival)
    requires Follows(cfg, r, t) && !AcceptGuard(cfg, r, id, h, a)
    ensures !Windowed(cfg, Accept(cfg, r, id, h, a))
  {
    match SsrcGate(cfg, r.lockedSsrc, h.ssrc, a) {
      case Reject =>
      case Admit => FollowedUnguarded(cfg, r, t, id, h.sequence, a.now);
      case LockThen(ok) =>
        SameFollows(cfg, r, t, h.ssrc);
        FollowedUnguarded(cfg, r.(lockedSsrc := h.ssrc), t, id, h.sequence, a.now);
      case SwitchThen(ok) =>
        assert Follows(cfg, SwitchSsrc(r, h.ssrc), Idle);
        FollowedUnguarded(cfg, SwitchSsrc(r, h.ssrc), Idle, id, h.sequence, a.now);
    }
  }

  lemma StepUnguarded(cfg: Config, r: Ring, t: Track, e: Event)
    requires Follows(cfg, r, t) && !StepGuard(cfg, r, e)
    ensures !Windowed(cfg, Step(cfg, r, e))
  {
    match e {
      case Watchdog(now) =>
        assert t.Live?;
        MatchesWindowed(cfg, r, t.flow, t.base);
        OvertakenStays(cfg, r, now);
      case Push(a) =>
        SameFollows(cfg, r, t, 0);
        AcceptUnguarded(cfg, Counting(r), t, r.count.inPackets, ParseRtp(a.bytes).value, a);
    }
  }

  predicate WindowedAt(cfg: Config, events: seq<Event>, k: nat)
    requires ValidConfig(cfg) && k <= |events|
  {
    Windowed(cfg, Run(cfg, Opened(cfg), events[..k]))
  }

  /** After every event each waiting packet is in its slot and inside the window. */
  predicate AlwaysWindowed(cfg: Config, events: seq<Event>)
    requires ValidConfig(cfg)
  {
    forall k | 0 <= k <= |events| :: WindowedAt(cfg, events, k)
  }

  lemma AlwaysSnoc(cfg: Config, events: seq<Event>)
    requires ValidConfig(cfg) && events != []
    ensures AlwaysWindowed(cfg, events) <==>
            AlwaysWindowed(cfg, events[..|events| - 1]) && Windowed(cfg, Run(cfg, Opened(cfg), events))
  {
    hide Run, Windowed, Opened;
    var last := |events| - 1;
    var before := events[..last];
    assert events[..|events|] == events;
    forall k | 0 <= k <= last
      ensures WindowedAt(cfg, before, k) == WindowedAt(cfg, events, k)
    {
      assert before[..k] == events[..k];
    }
    assert WindowedAt(cfg, events, |events|) == Windowed(cfg, Run(cfg, Opened(cfg), events));
  }

  lemma LastGuarded(cfg: Config, events: seq<Event>)
    requires ValidConfig(cfg) && events != [] && RunGuard(cfg, events[..|events| - 1])
    ensures RunGuard(cfg, events) <==> Windowed(cfg, Run(cfg, Opened(cfg), events))
  {
    var before := events[..|events| - 1];
    RunFollows(cfg, before);
    if RunGuard(cfg, events) {
      EmittedInOrder(cfg, events);
    } else {
      StepUnguarded(cfg, Run(cfg, Opened(cfg), before), TrackRun(cfg, before), events[|events| - 1]);
    }
  }

  /** A run is guarded if and only if the slots stay in the window all the way. */
  lemma {:induction false} RunGuardIsExact(cfg: Config, events: seq<Event>)
    requires ValidConfig(cfg)
    ensures RunGuard(cfg, events) <==> AlwaysWindowed(cfg, events)
    decreases |events|
  {
    if events != [] {
      var before := events[..|events| - 1];
      RunGuardIsExact(cfg, before);
      AlwaysSnoc(cfg, events);
      if RunGuard(cfg, before) {
        LastGuarded(cfg, events);
      }
    }
  }
}
