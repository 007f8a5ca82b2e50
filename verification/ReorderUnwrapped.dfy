/** The reorder element without wrap-around: sequence numbers are unbounded integers, the slot
    ring is a map from number to arrival time, the table of lost numbers is a set.
    Related states of the two stay related (Simulates...), so what is proved here about
    unbounded numbers holds of the sixteen-bit ring. */
module ReorderUnwrapped {
  import opened Words
  import opened ReorderRing

  /** `start` is the first number of the SSRC epoch, `left` the numbers before it whose marks an
      earlier epoch left in the table, `exp` the unwrapped expected number, `held` the waiting
      numbers with their arrival times, `lost` the numbers marked in the table, `seen` the numbers
      that arrived behind `exp`, `evicted` those that lost their slot to another, `out` the numbers
      emitted in this epoch. */
  datatype Flow = Flow(
    start: int, left: set<int>, exp: int, held: map<int, u64>, lost: set<int>, seen: set<int>,
    evicted: set<int>, out: seq<int>, gaps: nat, late: nat, stale: nat, dup: nat)

  /** The slot that a number maps to. */
  function SlotOf(cfg: Config, n: int): (i: nat)
    requires ValidConfig(cfg)
    ensures i < cfg.window
  {
    Lo16(n) % cfg.window
  }

  function EmitHead(f: Flow): Flow
    requires f.exp in f.held
  {
    f.(exp := f.exp + 1, held := f.held - {f.exp}, out := f.out + [f.exp])
  }

  function SkipHead(f: Flow): Flow {
    f.(exp := f.exp + 1, lost := f.lost + {f.exp}, gaps := f.gaps + 1)
  }

  function DrainFlow(f: Flow): Flow
    decreases |f.held|
  {
    if f.exp in f.held then DrainFlow(EmitHead(f)) else f
  }

  function SkipFlow(f: Flow, target: int): Flow
    requires f.exp <= target
    decreases target - f.exp
  {
    if f.exp == target then f else SkipFlow(SkipHead(f), target)
  }

  /** Emit or skip until `n` is inside the window. */
  function Advance(cfg: Config, f: Flow, n: int): Flow
    requires ValidConfig(cfg)
    decreases n - f.exp
  {
    if n - f.exp < cfg.window then f
    else if f.exp in f.held then Advance(cfg, EmitHead(f), n)
    else Advance(cfg, SkipHead(f), n)
  }

  /** The first waiting number, counting up from `from`, that has waited out the timeout. */
  function FirstExpired(cfg: Config, held: map<int, u64>, from: int, limit: int, now: u64): (r: Option<int>)
    ensures r.Some? ==> from <= r.value < limit && r.value in held && Expired(cfg, held[r.value], now)
    ensures forall n | n in held && from <= n < (if r.Some? then r.value else limit) ::
              !Expired(cfg, held[n], now)
    decreases limit - from
  {
    if from >= limit then None
    else if from in held && Expired(cfg, held[from], now) then Some(from)
    else FirstExpired(cfg, held, from + 1, limit, now)
  }

  function SkipGapFlow(cfg: Config, f: Flow, now: u64): Flow {
    match FirstExpired(cfg, f.held, f.exp, f.exp + cfg.window, now)
    case None => f
    case Some(n) => SkipFlow(f, n)
  }

  function SettleFlow(cfg: Config, f: Flow, now: u64): Flow {
    DrainFlow(SkipGapFlow(cfg, f, now))
  }

  /** Waiting numbers that share a slot with `n`; none when the window divides 65536. */
  function Clash(cfg: Config, held: map<int, u64>, n: int): set<int>
    requires ValidConfig(cfg)
  {
    set m | m in held && m != n && SlotOf(cfg, m) == SlotOf(cfg, n)
  }

  function StoreFlow(cfg: Config, f: Flow, n: int, now: u64): Flow
    requires ValidConfig(cfg)
  {
    f.(held := (f.held - Clash(cfg, f.held, n))[n := now], evicted := f.evicted + Clash(cfg, f.held, n))
  }

  function BehindFlow(f: Flow, n: int): Flow {
    var g := f.(seen := f.seen + {n});
    if n in f.lost then g.(late := f.late + 1, lost := f.lost - {n}) else g.(stale := f.stale + 1)
  }

  function InsertFlow(cfg: Config, f: Flow, n: int, now: u64): Flow
    requires ValidConfig(cfg)
  {
    if n in f.held then f.(dup := f.dup + 1)
    else SettleFlow(cfg, DrainFlow(StoreFlow(cfg, f, n, now)), now)
  }

  function PlaceFlow(cfg: Config, f: Flow, n: int, now: u64): Flow
    requires ValidConfig(cfg)
  {
    if n < f.exp then BehindFlow(f, n) else InsertFlow(cfg, Advance(cfg, f, n), n, now)
  }

  /** The ring's records at the start of an epoch. */
  datatype Base = Base(output: nat, lostGaps: nat, latePackets: nat, droppedOld: nat, droppedDup: nat)

  predicate Keeps(cfg: Config, slots: seq<Slot>, n: int, arrival: u64)
    requires ValidConfig(cfg) && |slots| == cfg.window
  {
    var s := slots[SlotOf(cfg, n)];
    s.buffer.Some? && s.sequence == Lo16(n) && s.arrival == arrival
  }

  /** Slot `i`, if occupied, is the right slot for its number, and that number is waiting. */
  predicate Accounted(cfg: Config, s: Slot, i: nat, exp: int, held: map<int, u64>)
    requires ValidConfig(cfg)
  {
    s.buffer.Some? ==> Ahead(exp, s.sequence) in held && s.sequence % cfg.window == i
  }

  predicate SlotsMatch(cfg: Config, slots: seq<Slot>, exp: int, held: map<int, u64>)
    requires ValidConfig(cfg) && |slots| == cfg.window
  {
    && (forall n | n in held :: exp <= n < exp + cfg.window && Keeps(cfg, slots, n, held[n]))
    && (forall i {:trigger Accounted(cfg, slots[i], i, exp, held)} | 0 <= i < |slots| ::
          Accounted(cfg, slots[i], i, exp, held))
  }

  /** The table agrees with `lost` on the half lap behind `exp`, and is clear for waiting numbers. */
  predicate TableMatches(skipped: seq<bool>, f: Flow)
    requires |skipped| == 0x1_0000
  {
    && (forall n | f.exp - 0x8000 <= n < f.exp :: skipped[Lo16(n)] == (n in f.lost))
    && (forall n | n in f.held :: !skipped[Lo16(n)])
  }

  predicate RecordsMatch(r: Ring, f: Flow, b: Base) {
    && r.count.lostGaps == b.lostGaps + f.gaps
    && r.count.latePackets == b.latePackets + f.late
    && r.count.droppedOld == b.droppedOld + f.stale
    && r.count.droppedDup == b.droppedDup + f.dup
    && |r.output| == b.output + |f.out|
    && (forall k | 0 <= k < |f.out| :: r.output[b.output + k].sequence == Lo16(f.out[k]))
  }

  predicate LostBehind(f: Flow) {
    forall n | n in f.lost :: n < f.exp
  }

  predicate Matches(cfg: Config, r: Ring, f: Flow, b: Base) {
    && Shaped(cfg, r)
    && r.haveExpected
    && r.expected == Lo16(f.exp)
    && SlotsMatch(cfg, r.slots, f.exp, f.held)
    && RecordsMatch(r, f, b)
    && TableMatches(r.skipped, f)
    && LostBehind(f)
    && f.start <= f.exp
  }

  lemma AheadShift(from: int, s: u16)
    ensures Ahead(from + 1, s) == if Ahead(from, s) == from then from + 0x1_0000 else Ahead(from, s)
  {
  }

  /** The slot of the expected number holds it exactly when the flow has it waiting. */
  lemma HeadAgrees(cfg: Config, r: Ring, f: Flow)
    requires Shaped(cfg, r) && r.expected == Lo16(f.exp) && SlotsMatch(cfg, r.slots, f.exp, f.held)
    ensures HeadReady(cfg, r) <==> f.exp in f.held
  {
    var i := r.expected % cfg.window;
    assert Accounted(cfg, r.slots[i], i, f.exp, f.held);
    AheadOfLow(f.exp, f.exp);
  }

  lemma ClearHead(cfg: Config, slots: seq<Slot>, exp: int, held: map<int, u64>, s: Slot)
    requires ValidConfig(cfg) && |slots| == cfg.window && SlotsMatch(cfg, slots, exp, held)
    requires exp in held && s.buffer.None?
    ensures SlotsMatch(cfg, slots[SlotOf(cfg, exp) := s], exp + 1, held - {exp})
  {
    var slots', held' := slots[SlotOf(cfg, exp) := s], held - {exp};
    assert Keeps(cfg, slots, exp, held[exp]);
    forall n | n in held'
      ensures exp + 1 <= n < exp + 1 + cfg.window && Keeps(cfg, slots', n, held'[n])
    {
      assert n in held && Keeps(cfg, slots, n, held[n]);
      if SlotOf(cfg, n) == SlotOf(cfg, exp) {
        LowInjective(n, exp);
      }
    }
    forall i | 0 <= i < |slots'|
      ensures Accounted(cfg, slots'[i], i, exp + 1, held')
    {
      assert Accounted(cfg, slots[i], i, exp, held);
      AheadShift(exp, slots[i].sequence);
      LowOfAhead(exp, slots[i].sequence);
    }
  }

  lemma EmitSimulates(cfg: Config, r: Ring, f: Flow, b: Base)
    requires Matches(cfg, r, f, b) && f.exp in f.held
    ensures HeadReady(cfg, r) && Matches(cfg, Emit(cfg, r), EmitHead(f), b)
  {
    HeadAgrees(cfg, r, f);
    var i := SlotOf(cfg, f.exp);
    ClearHead(cfg, r.slots, f.exp, f.held, r.slots[i].(buffer := None));
    EmitRecords(cfg, r, f, b);
    EmitTable(r.skipped, f);
  }

  lemma EmitTable(skipped: seq<bool>, f: Flow)
    requires |skipped| == 0x1_0000 && f.exp in f.held && TableMatches(skipped, f) && LostBehind(f)
    ensures TableMatches(skipped, EmitHead(f))
  {
  }

  /** Skipping a number that is not waiting leaves the slots related. */
  lemma SkipSlots(cfg: Config, slots: seq<Slot>, exp: int, held: map<int, u64>)
    requires ValidConfig(cfg) && |slots| == cfg.window && SlotsMatch(cfg, slots, exp, held)
    requires exp !in held
    ensures SlotsMatch(cfg, slots, exp + 1, held)
  {
    forall i | 0 <= i < |slots|
      ensures Accounted(cfg, slots[i], i, exp + 1, held)
    {
      assert Accounted(cfg, slots[i], i, exp, held);
      AheadShift(exp, slots[i].sequence);
    }
  }

  lemma SkipSimulates(cfg: Config, r: Ring, f: Flow, b: Base)
    requires Matches(cfg, r, f, b) && f.exp !in f.held
    ensures !HeadReady(cfg, r) && Matches(cfg, SkipExpected(cfg, r), SkipHead(f), b)
  {
    HeadAgrees(cfg, r, f);
    SkipSlots(cfg, r.slots, f.exp, f.held);
    SkipRecords(cfg, r, f, b);
    SkipTable(cfg, r.skipped, f);
  }

  lemma SkipRecords(cfg: Config, r: Ring, f: Flow, b: Base)
    requires Shaped(cfg, r) && r.expected == Lo16(f.exp) && RecordsMatch(r, f, b)
    ensures RecordsMatch(SkipExpected(cfg, r), SkipHead(f), b)
    ensures SkipExpected(cfg, r).expected == Lo16(f.exp + 1)
  {
  }

  lemma EmitRecords(cfg: Config, r: Ring, f: Flow, b: Base)
    requires Shaped(cfg, r) && HeadReady(cfg, r) && r.expected == Lo16(f.exp) && f.exp in f.held
    requires RecordsMatch(r, f, b)
    ensures RecordsMatch(Emit(cfg, r), EmitHead(f), b)
    ensures Emit(cfg, r).expected == Lo16(f.exp + 1)
  {
  }

  lemma SkipTable(cfg: Config, skipped: seq<bool>, f: Flow)
    requires |skipped| == 0x1_0000 && TableMatches(skipped, f) && LostBehind(f) && ValidConfig(cfg)
    requires forall n | n in f.held :: f.exp < n < f.exp + cfg.window
    ensures TableMatches(skipped[Lo16(f.exp) := true], SkipHead(f))
  {
    var after := skipped[Lo16(f.exp) := true];
    forall n | f.exp + 1 - 0x8000 <= n < f.exp
      ensures Lo16(n) != Lo16(f.exp)
    {
    }
    forall n | n in f.held
      ensures Lo16(n) != Lo16(f.exp)
    {
      if Lo16(n) == Lo16(f.exp) {
        LowInjective(n, f.exp);
      }
    }
  }

  lemma {:induction false} DrainSimulates(cfg: Config, r: Ring, f: Flow, b: Base)
    requires Matches(cfg, r, f, b)
    ensures Matches(cfg, Drain(cfg, r), DrainFlow(f), b)
    decreases |f.held|
  {
    HeadAgrees(cfg, r, f);
    if f.exp in f.held {
      EmitSimulates(cfg, r, f, b);
      DrainSimulates(cfg, Emit(cfg, r), EmitHead(f), b);
    }
  }

  lemma {:induction false} SkipToSimulates(cfg: Config, r: Ring, f: Flow, b: Base, n: int)
    requires Matches(cfg, r, f, b) && f.exp <= n < f.exp + 0x1_0000
    requires forall m | m in f.held :: n <= m
    ensures Matches(cfg, SkipTo(cfg, r, Lo16(n)), SkipFlow(f, n), b)
    decreases n - f.exp
  {
    if f.exp == n {
    } else {
      assert r.expected != Lo16(n) by {
        if Lo16(f.exp) == Lo16(n) {
          LowInjective(f.exp, n);
        }
      }
      SkipSimulates(cfg, r, f, b);
      SkipToSimulates(cfg, SkipExpected(cfg, r), SkipHead(f), b, n);
    }
  }

  lemma ExpiredIsFound(cfg: Config, slots: seq<Slot>, exp: int, held: map<int, u64>, now: u64, n: int)
    requires ValidConfig(cfg) && |slots| == cfg.window && SlotsMatch(cfg, slots, exp, held)
    requires n in held && Expired(cfg, held[n], now)
    ensures var best := Nearest(cfg, slots, Lo16(exp), now, |slots|);
            best.Some? && Dist16(best.value, Lo16(exp)) <= n - exp
  {
    assert Keeps(cfg, slots, n, held[n]);
    assert TimedOut(cfg, slots[SlotOf(cfg, n)], now);
    DistAhead(exp, n);
  }

  lemma FoundIsExpired(cfg: Config, slots: seq<Slot>, exp: int, held: map<int, u64>, now: u64)
    requires ValidConfig(cfg) && |slots| == cfg.window && SlotsMatch(cfg, slots, exp, held)
    ensures var best := Nearest(cfg, slots, Lo16(exp), now, |slots|);
            best.Some? ==> var m := Ahead(exp, best.value);
                           m in held && Expired(cfg, held[m], now) && Dist16(best.value, Lo16(exp)) == m - exp
  {
    var best := Nearest(cfg, slots, Lo16(exp), now, |slots|);
    if best.Some? {
      var i :| 0 <= i < |slots| && TimedOut(cfg, slots[i], now) && slots[i].sequence == best.value;
      var m := Ahead(exp, best.value);
      LowOfAhead(exp, best.value);
      assert Accounted(cfg, slots[i], i, exp, held);
      assert Keeps(cfg, slots, m, held[m]);
      DistAhead(exp, m);
    }
  }

  /** The scan over the slots finds the first expired number of the flow. */
  lemma NearestAgrees(cfg: Config, slots: seq<Slot>, exp: int, held: map<int, u64>, now: u64)
    requires ValidConfig(cfg) && |slots| == cfg.window && SlotsMatch(cfg, slots, exp, held)
    ensures var n := FirstExpired(cfg, held, exp, exp + cfg.window, now);
            Nearest(cfg, slots, Lo16(exp), now, |slots|) == if n.Some? then Some(Lo16(n.value)) else None
  {
    var best := Nearest(cfg, slots, Lo16(exp), now, |slots|);
    var first := FirstExpired(cfg, held, exp, exp + cfg.window, now);
    FoundIsExpired(cfg, slots, exp, held, now);
    if first.Some? {
      ExpiredIsFound(cfg, slots, exp, held, now, first.value);
    }
    if best.Some? {
      LowOfAhead(exp, best.value);
    }
  }

  /** No waiting packet lies before the one the timeout skips to. */
  predicate NothingNearer(cfg: Config, slots: seq<Slot>, expected: u16, now: u64) {
    var target := Nearest(cfg, slots, expected, now, |slots|);
    target.Some? ==>
      forall i | 0 <= i < |slots| && slots[i].buffer.Some? ::
        Dist16(slots[i].sequence, expected) >= Dist16(target.value, expected)
  }

  lemma NothingNearerAgrees(cfg: Config, slots: seq<Slot>, exp: int, held: map<int, u64>, now: u64, n: int)
    requires ValidConfig(cfg) && |slots| == cfg.window && SlotsMatch(cfg, slots, exp, held)
    requires NothingNearer(cfg, slots, Lo16(exp), now)
    requires FirstExpired(cfg, held, exp, exp + cfg.window, now) == Some(n)
    ensures forall m | m in held :: n <= m
  {
    NearestAgrees(cfg, slots, exp, held, now);
    DistAhead(exp, n);
    forall m | m in held
      ensures n <= m
    {
      assert Keeps(cfg, slots, m, held[m]);
      DistAhead(exp, m);
    }
  }

  lemma SkipGapSimulates(cfg: Config, r: Ring, f: Flow, b: Base, now: u64)
    requires Matches(cfg, r, f, b) && NothingNearer(cfg, r.slots, r.expected, now)
    ensures Matches(cfg, SkipGap(cfg, r, now), SkipGapFlow(cfg, f, now), b)
  {
    hide Nearest, FirstExpired, NothingNearer, SkipTo, SkipFlow, SlotsMatch, TableMatches, RecordsMatch;
    NearestAgrees(cfg, r.slots, f.exp, f.held, now);
    var first := FirstExpired(cfg, f.held, f.exp, f.exp + cfg.window, now);
    if first.Some? {
      NothingNearerAgrees(cfg, r.slots, f.exp, f.held, now, first.value);
      SkipToSimulates(cfg, r, f, b, first.value);
    }
  }

  lemma SettleSimulates(cfg: Config, r: Ring, f: Flow, b: Base, now: u64)
    requires Matches(cfg, r, f, b) && NothingNearer(cfg, r.slots, r.expected, now)
    ensures Matches(cfg, Settle(cfg, r, now), SettleFlow(cfg, f, now), b)
  {
    SkipGapSimulates(cfg, r, f, b, now);
    DrainSimulates(cfg, SkipGap(cfg, r, now), SkipGapFlow(cfg, f, now), b);
  }

  lemma {:induction false} AdvanceSimulates(cfg: Config, r: Ring, f: Flow, b: Base, n: int)
    requires Matches(cfg, r, f, b) && f.exp <= n < f.exp + 0x1_0000
    ensures Matches(cfg, Overflow(cfg, r, Lo16(n)), Advance(cfg, f, n), b)
    ensures Advance(cfg, f, n).exp <= n < Advance(cfg, f, n).exp + cfg.window
    decreases n - f.exp
  {
    DistAhead(f.exp, n);
    HeadAgrees(cfg, r, f);
    if n - f.exp < cfg.window {
    } else if f.exp in f.held {
      EmitSimulates(cfg, r, f, b);
      AdvanceSimulates(cfg, Emit(cfg, r), EmitHead(f), b, n);
    } else {
      SkipSimulates(cfg, r, f, b);
      AdvanceSimulates(cfg, SkipExpected(cfg, r), SkipHead(f), b, n);
    }
  }

  lemma StoreSlots(cfg: Config, slots: seq<Slot>, exp: int, held: map<int, u64>, n: int, id: nat, now: u64)
    requires ValidConfig(cfg) && |slots| == cfg.window && SlotsMatch(cfg, slots, exp, held)
    requires exp <= n < exp + cfg.window
    ensures SlotsMatch(cfg, slots[SlotOf(cfg, n) := Slot(Some(id), Lo16(n), now)], exp,
                       (held - Clash(cfg, held, n))[n := now])
  {
    var slots' := slots[SlotOf(cfg, n) := Slot(Some(id), Lo16(n), now)];
    var held' := (held - Clash(cfg, held, n))[n := now];
    forall m | m in held'
      ensures exp <= m < exp + cfg.window && Keeps(cfg, slots', m, held'[m])
    {
      if m != n {
        assert m in held && Keeps(cfg, slots, m, held[m]);
        assert SlotOf(cfg, m) != SlotOf(cfg, n);
      }
    }
    forall i | 0 <= i < |slots'|
      ensures Accounted(cfg, slots'[i], i, exp, held')
    {
      if i == SlotOf(cfg, n) {
        AheadOfLow(exp, n);
      } else {
        assert Accounted(cfg, slots[i], i, exp, held);
        LowOfAhead(exp, slots[i].sequence);
      }
    }
  }

  lemma StoreTable(cfg: Config, skipped: seq<bool>, f: Flow, n: int, now: u64)
    requires ValidConfig(cfg) && |skipped| == 0x1_0000 && TableMatches(skipped, f)
    requires f.exp <= n < f.exp + cfg.window
    ensures TableMatches(skipped[Lo16(n) := false], StoreFlow(cfg, f, n, now))
  {
    forall m | f.exp - 0x8000 <= m < f.exp
      ensures Lo16(m) != Lo16(n)
    {
      if Lo16(m) == Lo16(n) {
        LowInjective(m, n);
      }
    }
  }

  lemma StoreSimulates(cfg: Config, r: Ring, f: Flow, b: Base, n: int, id: nat, now: u64)
    requires Matches(cfg, r, f, b) && f.exp <= n < f.exp + cfg.window
    ensures Matches(cfg, Store(cfg, r, id, Lo16(n), now), StoreFlow(cfg, f, n, now), b)
  {
    StoreSlots(cfg, r.slots, f.exp, f.held, n, id, now);
    StoreTable(cfg, r.skipped, f, n, now);
  }

  /** A slot of the window holds `n` exactly when the flow has it waiting. */
  lemma DuplicateAgrees(cfg: Config, r: Ring, f: Flow, b: Base, n: int)
    requires Matches(cfg, r, f, b) && f.exp <= n < f.exp + cfg.window
    ensures var s := r.slots[SlotOf(cfg, n)];
            (s.buffer.Some? && s.sequence == Lo16(n)) <==> n in f.held
  {
    var i := SlotOf(cfg, n);
    assert Accounted(cfg, r.slots[i], i, f.exp, f.held);
    AheadOfLow(f.exp, n);
    if n in f.held {
      assert Keeps(cfg, r.slots, n, f.held[n]);
    }
  }

  /** The guard of a push: when it stores its packet, nothing nearer at the timeout skip. */
  predicate PlaceGuard(cfg: Config, r: Ring, id: nat, sequence: u16, now: u64)
    requires Shaped(cfg, r)
  {
    var r0 := Anchor(r, sequence);
    Dist16(sequence, r0.expected) < 0x8000 ==> InsertGuard(cfg, Overflow(cfg, r0, sequence), id, sequence, now)
  }

  predicate InsertGuard(cfg: Config, r: Ring, id: nat, sequence: u16, now: u64)
    requires Shaped(cfg, r)
  {
    var slot := r.slots[sequence % cfg.window];
    var t := Drain(cfg, Store(cfg, r, id, sequence, now));
    !(slot.buffer.Some? && slot.sequence == sequence) ==> NothingNearer(cfg, t.slots, t.expected, now)
  }

  lemma InsertSimulates(cfg: Config, r: Ring, f: Flow, b: Base, n: int, id: nat, now: u64)
    requires Matches(cfg, r, f, b) && f.exp <= n < f.exp + cfg.window
    requires InsertGuard(cfg, r, id, Lo16(n), now)
    ensures Matches(cfg, Insert(cfg, r, id, Lo16(n), now), InsertFlow(cfg, f, n, now), b)
  {
    DuplicateAgrees(cfg, r, f, b, n);
    if n !in f.held {
      StoreSimulates(cfg, r, f, b, n, id, now);
      var s, g := Store(cfg, r, id, Lo16(n), now), StoreFlow(cfg, f, n, now);
      DrainSimulates(cfg, s, g, b);
      SettleSimulates(cfg, Drain(cfg, s), DrainFlow(g), b, now);
    }
  }

  lemma BehindSimulates(cfg: Config, r: Ring, f: Flow, b: Base, n: int, id: nat)
    requires Matches(cfg, r, f, b) && f.exp - 0x8000 <= n < f.exp
    ensures Matches(cfg, Behind(r, id, Lo16(n)), BehindFlow(f, n), b)
  {
    BehindTable(r.skipped, f, n);
  }

  lemma BehindTable(skipped: seq<bool>, f: Flow, n: int)
    requires |skipped| == 0x1_0000 && TableMatches(skipped, f) && f.exp - 0x8000 <= n < f.exp
    ensures skipped[Lo16(n)] ==> TableMatches(skipped[Lo16(n) := false], BehindFlow(f, n))
    ensures !skipped[Lo16(n)] ==> TableMatches(skipped, BehindFlow(f, n))
  {
    forall m | f.exp - 0x8000 <= m < f.exp && m != n
      ensures Lo16(m) != Lo16(n)
    {
      if Lo16(m) == Lo16(n) {
        LowInjective(m, n);
      }
    }
  }

  /** One packet of the epoch: the ring does to the low sixteen bits of `n` what the flow does to `n`. */
  lemma PlaceSimulates(cfg: Config, r: Ring, f: Flow, b: Base, n: int, id: nat, now: u64)
    requires Matches(cfg, r, f, b) && f.exp - 0x8000 <= n < f.exp + 0x8000
    requires PlaceGuard(cfg, r, id, Lo16(n), now)
    ensures Matches(cfg, Place(cfg, r, id, Lo16(n), now), PlaceFlow(cfg, f, n, now), b)
  {
    if n < f.exp {
      DistBehind(f.exp, n);
      BehindSimulates(cfg, r, f, b, n, id);
    } else {
      DistAhead(f.exp, n);
      AdvanceSimulates(cfg, r, f, b, n);
      InsertSimulates(cfg, Overflow(cfg, r, Lo16(n)), Advance(cfg, f, n), b, n, id, now);
    }
  }
}
