/** The 65536-entry table of declared losses refines a set of unbounded numbers, in every SSRC
    epoch: a packet behind the expected number counts as late exactly when its number was given up
    for lost and has not arrived since. Only for numbers before the epoch's first does the table
    speak of an earlier stream, because a switch of SSRC does not clear it. */
module ReorderLateness {
  import opened Words
  import opened RtpHeader
  import opened ReorderRing
  import opened ReorderUnwrapped
  import opened ReorderOrder

  /** Passed without being emitted. */
  predicate GivenUp(f: Flow, n: int) {
    f.start <= n < f.exp && n !in f.out
  }

  /** What being late should mean: from the epoch's first number on, given up and not seen since;
      before it, marked when the epoch began and not seen since. */
  predicate Marked(f: Flow, n: int) {
    n !in f.seen && if n >= f.start then GivenUp(f, n) else n in f.left
  }

  ghost predicate LostExact(f: Flow) {
    && (forall n :: n in f.lost <==> Marked(f, n))
    && (forall n | n in f.seen :: n < f.exp)
    && (forall n | n in f.out :: n < f.exp)
    && (forall n | n in f.left :: n < f.start)
    && f.start <= f.exp
  }

  lemma StartLost(n: int, left: set<int>)
    requires forall m | m in left :: m < n
    ensures LostExact(StartFlow(n, left))
  {
  }

  lemma EmitLost(f: Flow)
    requires LostExact(f) && f.exp in f.held
    ensures LostExact(EmitHead(f))
  {
    var g := EmitHead(f);
    assert forall n :: n in g.out <==> n in f.out || n == f.exp;
    forall n
      ensures n in g.lost <==> Marked(g, n)
    {
      assert n in f.lost <==> Marked(f, n);
    }
  }

  lemma SkipLost(f: Flow)
    requires LostExact(f)
    ensures LostExact(SkipHead(f))
  {
    var g := SkipHead(f);
    forall n
      ensures n in g.lost <==> Marked(g, n)
    {
      assert n in f.lost <==> Marked(f, n);
    }
  }

  lemma {:induction false} DrainLost(f: Flow)
    requires LostExact(f)
    ensures LostExact(DrainFlow(f))
    decreases |f.held|
  {
    if f.exp in f.held {
      EmitLost(f);
      DrainLost(EmitHead(f));
    }
  }

  lemma {:induction false} SkipToLost(f: Flow, n: int)
    requires LostExact(f) && f.exp <= n
    ensures LostExact(SkipFlow(f, n))
    decreases n - f.exp
  {
    if f.exp != n {
      SkipLost(f);
      SkipToLost(SkipHead(f), n);
    }
  }

  lemma {:induction false} AdvanceLost(cfg: Config, f: Flow, n: int)
    requires ValidConfig(cfg) && LostExact(f)
    ensures LostExact(Advance(cfg, f, n))
    decreases n - f.exp
  {
    if n - f.exp < cfg.window {
    } else if f.exp in f.held {
      EmitLost(f);
      AdvanceLost(cfg, EmitHead(f), n);
    } else {
      SkipLost(f);
      AdvanceLost(cfg, SkipHead(f), n);
    }
  }

  lemma SettleLost(cfg: Config, f: Flow, now: u64)
    requires LostExact(f)
    ensures LostExact(SettleFlow(cfg, f, now))
  {
    match FirstExpired(cfg, f.held, f.exp, f.exp + cfg.window, now) {
      case None =>
      case Some(n) => SkipToLost(f, n);
    }
    DrainLost(SkipGapFlow(cfg, f, now));
  }

  /** The same as far as the table goes. */
  lemma SameLost(f: Flow, g: Flow)
    requires LostExact(f) && g.start == f.start && g.left == f.left && g.exp == f.exp
    requires g.lost == f.lost && g.seen == f.seen && g.out == f.out
    ensures LostExact(g)
  {
    forall n ensures n in g.lost <==> Marked(g, n) {
      assert n in f.lost <==> Marked(f, n);
    }
  }

  lemma BehindLost(f: Flow, n: int)
    requires LostExact(f) && n < f.exp
    ensures LostExact(BehindFlow(f, n))
  {
    var g := BehindFlow(f, n);
    forall m ensures m in g.lost <==> Marked(g, m) {
      assert m in f.lost <==> Marked(f, m);
    }
  }

  lemma PlaceLost(cfg: Config, f: Flow, n: int, now: u64)
    requires ValidConfig(cfg) && LostExact(f)
    ensures LostExact(PlaceFlow(cfg, f, n, now))
  {
    if n < f.exp {
      BehindLost(f, n);
    } else {
      AdvanceLost(cfg, f, n);
      var g := Advance(cfg, f, n);
      if n in g.held {
        SameLost(g, g.(dup := g.dup + 1));
      } else {
        var stored := StoreFlow(cfg, g, n, now);
        SameLost(g, stored);
        DrainLost(stored);
        SettleLost(cfg, DrainFlow(stored), now);
      }
    }
  }

  ghost predicate TrackLost(t: Track) {
    t.Live? ==> LostExact(t.flow)
  }

  lemma TrackPlaceLost(cfg: Config, r: Ring, t: Track, sequence: u16, now: u64)
    requires Shaped(cfg, r) && TrackLost(t)
    ensures TrackLost(TrackPlace(cfg, r, t, sequence, now))
  {
    match t {
      case Idle =>
        var left := LeftOver(r.skipped, sequence);
        StartLost(sequence, left);
        PlaceLost(cfg, StartFlow(sequence, left), sequence, now);
      case Live(f, b) => PlaceLost(cfg, f, Near(f.exp, sequence), now);
    }
  }

  lemma TrackStepLost(cfg: Config, r: Ring, t: Track, e: Event)
    requires Shaped(cfg, r) && TrackLost(t)
    ensures TrackLost(TrackStep(cfg, r, t, e))
  {
    match e {
      case Watchdog(now) =>
        if t.Live? {
          SettleLost(cfg, t.flow, now);
        }
      case Push(a) =>
        match ParseRtp(a.bytes) {
          case None =>
          case Some(h) =>
            TrackPlaceLost(cfg, r, t, h.sequence, a.now);
            TrackPlaceLost(cfg, r, Idle, h.sequence, a.now);
        }
    }
  }

  lemma {:induction false} TrackRunLost(cfg: Config, events: seq<Event>)
    requires ValidConfig(cfg)
    ensures TrackLost(TrackRun(cfg, events))
    decreases |events|
  {
    if events != [] {
      var before := events[..|events| - 1];
      TrackRunLost(cfg, before);
      TrackStepLost(cfg, Run(cfg, Opened(cfg), before), TrackRun(cfg, before), events[|events| - 1]);
    }
  }

  /** A packet of the locked SSRC whose number is behind the expected one. */
  predicate ArrivesBehind(cfg: Config, r: Ring, a: Arrival) {
    match ParseRtp(a.bytes)
    case None => false
    case Some(h) => SsrcGate(cfg, r.lockedSsrc, h.ssrc, a).Admit? && r.haveExpected &&
                    Dist16(h.sequence, r.expected) >= 0x8000
  }

  lemma BehindStep(cfg: Config, r: Ring, a: Arrival)
    requires Shaped(cfg, r) && ArrivesBehind(cfg, r, a)
    ensures Step(cfg, r, Push(a)) == Behind(Counting(r), r.count.inPackets, ParseRtp(a.bytes).value.sequence)
  {
  }

  lemma MarkIsLost(cfg: Config, r: Ring, f: Flow, b: Base, s: u16)
    requires Matches(cfg, r, f, b) && Dist16(s, r.expected) >= 0x8000
    ensures Near(f.exp, s) < f.exp && r.skipped[s] == (Near(f.exp, s) in f.lost)
  {
    DistOfLow(s, f.exp);
  }

  /** In any epoch of any guarded run, of any packets, a packet up to half a lap behind the
      expected number is counted late if its number is marked in the sense above, and old
      otherwise: for the epoch's own numbers, if it was given up and has not been seen since. */
  lemma LateExactly(cfg: Config, events: seq<Event>, a: Arrival)
    requires ValidConfig(cfg) && RunGuard(cfg, events)
    requires ArrivesBehind(cfg, Run(cfg, Opened(cfg), events), a)
    ensures TrackRun(cfg, events).Live?
    ensures var r := Run(cfg, Opened(cfg), events);
            var f := TrackRun(cfg, events).flow;
            var n := Near(f.exp, ParseRtp(a.bytes).value.sequence);
            var count := r.count.(inPackets := r.count.inPackets + 1);
            && n < f.exp
            && Step(cfg, r, Push(a)).count ==
               if Marked(f, n) then count.(latePackets := count.latePackets + 1)
               else count.(droppedOld := count.droppedOld + 1)
  {
    RunFollows(cfg, events);
    TrackRunLost(cfg, events);
    var r, t := Run(cfg, Opened(cfg), events), TrackRun(cfg, events);
    var s := ParseRtp(a.bytes).value.sequence;
    BehindStep(cfg, r, a);
    MarkIsLost(cfg, r, t.flow, t.base, s);
    assert Near(t.flow.exp, s) in t.flow.lost <==> Marked(t.flow, Near(t.flow.exp, s));
  }

  /** An epoch's flow as a step leaves it: its first number and the marks found then stay. */
  predicate SameEpoch(f: Flow, g: Flow) {
    g.start == f.start && g.left == f.left
  }

  lemma PlaceStaysInEpoch(cfg: Config, f: Flow, n: int, now: u64)
    requires ValidConfig(cfg)
    ensures SameEpoch(f, PlaceFlow(cfg, f, n, now))
  {
    AdvanceOnward(cfg, f, n);
    var stored := StoreFlow(cfg, Advance(cfg, f, n), n, now);
    DrainOnward(stored);
    SettleOnward(cfg, DrainFlow(stored), now);
  }

  /** The epoch began at event `k`, with the marks that the table held then. */
  predicate BeganAt(cfg: Config, events: seq<Event>, k: nat, f: Flow, b: Base)
    requires ValidConfig(cfg) && k < |events|
  {
    var r := Run(cfg, Opened(cfg), events[..k]);
    b == BaseOf(r) && f.left == LeftOver(r.skipped, f.start)
  }

  lemma TrackStepBegins(cfg: Config, r: Ring, t: Track, e: Event)
    requires Shaped(cfg, r) && TrackStep(cfg, r, t, e).Live?
    ensures var Live(g, b) := TrackStep(cfg, r, t, e);
            || (t.Live? && SameEpoch(t.flow, g) && b == t.base)
            || (b == BaseOf(r) && g.left == LeftOver(r.skipped, g.start))
  {
    match e {
      case Watchdog(now) => SettleOnward(cfg, t.flow, now);
      case Push(a) =>
        match ParseRtp(a.bytes) {
          case None =>
          case Some(h) =>
            var s := h.sequence;
            PlaceStaysInEpoch(cfg, StartFlow(s, LeftOver(r.skipped, s)), s, a.now);
            if t.Live? {
              PlaceStaysInEpoch(cfg, t.flow, Near(t.flow.exp, s), a.now);
            }
        }
    }
  }

  /** What `left` stands for: the marks up to half a lap before the epoch's first number in the
      table as it was when the epoch began. */
  lemma {:induction false} LeftFromBefore(cfg: Config, events: seq<Event>)
    requires ValidConfig(cfg) && TrackRun(cfg, events).Live?
    ensures var Live(f, b) := TrackRun(cfg, events);
            exists k :: 0 <= k < |events| && BeganAt(cfg, events, k, f, b)
    decreases |events|
  {
    var last := |events| - 1;
    var before := events[..last];
    var t, t' := TrackRun(cfg, before), TrackRun(cfg, events);
    TrackStepBegins(cfg, Run(cfg, Opened(cfg), before), t, events[last]);
    if t.Live? && SameEpoch(t.flow, t'.flow) && t'.base == t.base {
      LeftFromBefore(cfg, before);
      var k :| 0 <= k < |before| && BeganAt(cfg, before, k, t.flow, t.base);
      assert before[..k] == events[..k];
      assert BeganAt(cfg, events, k, t'.flow, t'.base);
    } else {
      assert BeganAt(cfg, events, last, t'.flow, t'.base);
    }
  }
}
