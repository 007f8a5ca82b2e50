/** What the reorder element is for: a stream whose packets are displaced by less than the window
    comes out sorted and complete. */
module ReorderSorting {
  import opened Words
  import opened Ranges
  import opened ReorderRing
  import opened ReorderUnwrapped
  import opened ReorderStream
  import opened ReorderEviction
  import opened ReorderNumbers

  /** The numbers pushed by a run. */
  function Arrived(events: seq<Event>, nums: seq<int>): set<int>
    requires |events| == |nums|
    decreases |events|
  {
    if events == [] then {}
    else
      var last := |events| - 1;
      Arrived(events[..last], nums[..last]) + if events[last].Push? then {nums[last]} else {}
  }

  /** No waiting packet has waited out the timeout when it is looked at. */
  ghost predicate StepPatient(cfg: Config, o: Option<Flow>, e: Event, n: int)
    requires ValidConfig(cfg)
  {
    match e
    case Watchdog(now) => o.Some? ==> NoneExpired(cfg, o.value, now)
    case Push(a) =>
      var f := Begun(o, n);
      n >= f.exp && n !in Advance(cfg, f, n).held ==>
        NoneExpired(cfg, DrainFlow(StoreFlow(cfg, Advance(cfg, f, n), n, a.now)), a.now)
  }

  predicate NoneExpired(cfg: Config, f: Flow, now: u64) {
    forall n | n in f.held :: !Expired(cfg, f.held[n], now)
  }

  /** Nothing a window or more behind packet `n` is missing. */
  predicate NoneTooFarBehind(cfg: Config, start: int, arrived: set<int>, n: int) {
    start <= n && forall m | start <= m <= n - cfg.window :: m in arrived
  }

  /** Nothing that has arrived is half a lap or more ahead of packet `n`. */
  predicate NoneTooFarAhead(arrived: set<int>, n: int) {
    forall m | m in arrived :: m < n + 0x8000
  }

  /** Packet `n` fits what has arrived. */
  predicate Fits(cfg: Config, start: int, arrived: set<int>, n: int) {
    NoneTooFarBehind(cfg, start, arrived, n) && NoneTooFarAhead(arrived, n)
  }

  /** Displacement below the window, first packet lowest, no timeout. */
  ghost predicate Displaced(cfg: Config, events: seq<Event>, nums: seq<int>, start: int)
    requires ValidConfig(cfg) && |events| == |nums|
    decreases |events|
  {
    events == [] ||
    (var last := |events| - 1;
     var o := FlowRun(cfg, events[..last], nums[..last]);
     && Displaced(cfg, events[..last], nums[..last], start)
     && StepPatient(cfg, o, events[last], nums[last])
     && (events[last].Push? ==>
           && Fits(cfg, start, Arrived(events[..last], nums[..last]), nums[last])
           && (o.None? ==> nums[last] == start)))
  }

  /** Everything from `start` up to `exp` was emitted in order, the rest of what arrived waits. */
  predicate Sorted(cfg: Config, f: Flow, arrived: set<int>) {
    && f.start <= f.exp && f.gaps == 0
    && f.out == Range(f.start, f.exp - f.start)
    && (forall n | f.start <= n < f.exp :: n in arrived)
    && (forall n | n in arrived :: f.start <= n && (n < f.exp || n in f.held))
    && (forall n | n in f.held :: n in arrived && f.exp <= n < f.exp + cfg.window)
  }

  lemma {:induction false} DrainSorted(cfg: Config, f: Flow, arrived: set<int>)
    requires Sorted(cfg, f, arrived)
    ensures Sorted(cfg, DrainFlow(f), arrived) && DrainFlow(f).exp !in arrived
    ensures DrainFlow(f).start == f.start
    decreases |f.held|
  {
    if f.exp in f.held {
      var g := EmitHead(f);
      assert g.out == Range(g.start, g.exp - g.start);
      DrainSorted(cfg, g, arrived);
    }
  }

  lemma PatientSettle(cfg: Config, f: Flow, arrived: set<int>, now: u64)
    requires Sorted(cfg, f, arrived) && NoneExpired(cfg, f, now)
    ensures SettleFlow(cfg, f, now) == DrainFlow(f)
  {
  }

  /** Inside the window from the first number still missing. */
  lemma FitsWindow(cfg: Config, f: Flow, arrived: set<int>, n: int)
    requires ValidConfig(cfg) && Sorted(cfg, f, arrived) && f.exp !in arrived && Fits(cfg, f.start, arrived, n)
    ensures f.exp - 0x8000 <= n < f.exp + cfg.window
    ensures n < f.exp || n in f.held ==> arrived + {n} == arrived
  {
    if f.exp > f.start {
      assert f.exp - 1 in arrived;
    }
  }

  lemma StoreSorted(cfg: Config, f: Flow, arrived: set<int>, n: int, now: u64)
    requires ValidConfig(cfg) && 0x1_0000 % cfg.window == 0
    requires Sorted(cfg, f, arrived) && f.exp <= n < f.exp + cfg.window
    ensures Sorted(cfg, StoreFlow(cfg, f, n, now), arrived + {n})
  {
    NoClash(cfg, f, n);
    assert f.held - Clash(cfg, f.held, n) == f.held;
  }

  lemma PlaceSorted(cfg: Config, f: Flow, arrived: set<int>, n: int, now: u64)
    requires ValidConfig(cfg) && 0x1_0000 % cfg.window == 0
    requires Sorted(cfg, f, arrived) && f.exp !in arrived && Fits(cfg, f.start, arrived, n)
    requires n >= f.exp && n !in f.held ==> NoneExpired(cfg, DrainFlow(StoreFlow(cfg, f, n, now)), now)
    ensures f.exp - 0x8000 <= n < f.exp + cfg.window
    ensures var g := PlaceFlow(cfg, f, n, now);
            Sorted(cfg, g, arrived + {n}) && g.exp !in arrived + {n} && g.start == f.start
  {
    FitsWindow(cfg, f, arrived, n);
    if n >= f.exp && n !in f.held {
      var stored, more := StoreFlow(cfg, f, n, now), arrived + {n};
      StoreSorted(cfg, f, arrived, n, now);
      DrainSorted(cfg, stored, more);
      PatientSettle(cfg, DrainFlow(stored), more, now);
      hide Sorted, NoneExpired, Clash, Fits;
      DrainSorted(cfg, DrainFlow(stored), more);
    }
  }

  lemma {:induction false} StreamSorted(cfg: Config, events: seq<Event>, nums: seq<int>, start: int)
    requires ValidConfig(cfg) && 0x1_0000 % cfg.window == 0
    requires |events| == |nums| && Displaced(cfg, events, nums, start)
    ensures Orderly(cfg, events, nums)
    ensures var o, arrived := FlowRun(cfg, events, nums), Arrived(events, nums);
            if o.Some?
            then Sorted(cfg, o.value, arrived) && o.value.start == start && o.value.exp !in arrived
            else arrived == {}
    decreases |events|
  {
    if events != [] {
      var last := |events| - 1;
      StreamSorted(cfg, events[..last], nums[..last], start);
      var o, arrived := FlowRun(cfg, events[..last], nums[..last]), Arrived(events[..last], nums[..last]);
      match events[last] {
        case Watchdog(now) =>
          if o.Some? {
            PatientSettle(cfg, o.value, arrived, now);
            DrainSorted(cfg, o.value, arrived);
          }
        case Push(a) =>
          var f := Begun(o, nums[last]);
          PlaceSorted(cfg, f, arrived, nums[last], a.now);
      }
    }
  }

  /** No gap counted; the output carries start, start + 1, and so on, all of which arrived, each
      in a buffer pushed with that number, and stops at the first number that has not arrived. */
  predicate OutputIs(r: Ring, start: int, arrived: set<int>, pn: seq<int>) {
    && r.count.lostGaps == 0
    && (forall k | 0 <= k < |r.output| :: OutputAt(r.output[k], start + k, arrived, pn))
    && start + |r.output| !in arrived
  }

  predicate OutputAt(e: Emission, n: int, arrived: set<int>, pn: seq<int>) {
    n in arrived && e.sequence == Lo16(n) && Has(pn, e.id, n)
  }

  lemma SortedOutput(cfg: Config, r: Ring, f: Flow, arrived: set<int>, pn: seq<int>)
    requires RecordsMatch(r, f, FRESH) && Sorted(cfg, f, arrived) && f.exp !in arrived && Owns(pn, r, f)
    ensures OutputIs(r, f.start, arrived, pn)
  {
    hide RecordsMatch, Sorted, Owns, OutputAt;
    SortedTotals(cfg, r, f, arrived);
    forall k | 0 <= k < |r.output|
      ensures OutputAt(r.output[k], f.start + k, arrived, pn)
    {
      SortedAt(cfg, r, f, arrived, pn, k);
    }
  }

  lemma SortedTotals(cfg: Config, r: Ring, f: Flow, arrived: set<int>)
    requires RecordsMatch(r, f, FRESH) && Sorted(cfg, f, arrived)
    ensures r.count.lostGaps == 0 && f.start + |r.output| == f.exp
  {
  }

  lemma RecordAt(r: Ring, f: Flow, k: nat)
    requires RecordsMatch(r, f, FRESH) && k < |r.output|
    ensures |r.output| == |f.out| && r.output[k].sequence == Lo16(f.out[k])
  {
    assert r.output[0 + k].sequence == Lo16(f.out[k]);
  }

  lemma SortedNumber(cfg: Config, f: Flow, arrived: set<int>, k: nat)
    requires Sorted(cfg, f, arrived) && k < |f.out|
    ensures f.out[k] == f.start + k && f.out[k] in arrived
  {
    hide Range;
  }

  lemma SortedAt(cfg: Config, r: Ring, f: Flow, arrived: set<int>, pn: seq<int>, k: nat)
    requires RecordsMatch(r, f, FRESH) && Sorted(cfg, f, arrived) && Owns(pn, r, f) && k < |r.output|
    ensures OutputAt(r.output[k], f.start + k, arrived, pn)
  {
    hide RecordsMatch, Sorted, Has;
    RecordAt(r, f, k);
    SortedNumber(cfg, f, arrived, k);
  }

  lemma RefinedOutput(cfg: Config, r: Ring, o: Option<Flow>, ssrc: u32, start: int, arrived: set<int>, pn: seq<int>)
    requires Refines(cfg, r, o, ssrc) && StreamOwns(pn, r, o)
    requires if o.Some?
             then Sorted(cfg, o.value, arrived) && o.value.start == start && o.value.exp !in arrived
             else arrived == {}
    ensures OutputIs(r, start, arrived, pn)
  {
    if o.Some? {
      SortedOutput(cfg, r, o.value, arrived, pn);
    }
  }

  /** Reordering sorts. After any such run the output is, across any number of sixteen-bit laps,
      the longest contiguous run of the numbers that arrived, from the first, each once, in order
      and in its own buffer; and no gap was ever counted. */
  lemma SortsDisplacedStreams(cfg: Config, events: seq<Event>, nums: seq<int>, ssrc: u32, start: int)
    requires ValidConfig(cfg) && 0x1_0000 % cfg.window == 0
    requires Carries(events, nums, ssrc) && Displaced(cfg, events, nums, start)
    ensures OutputIs(Run(cfg, Opened(cfg), events), start, Arrived(events, nums), PushedNumbers(events, nums))
  {
    StreamSorted(cfg, events, nums, start);
    StreamRefines(cfg, events, nums, ssrc);
    StreamSends(cfg, events, nums, ssrc);
    hide Refines, StreamOwns, OutputIs, Orderly, Displaced, Carries, Run, FlowRun, Arrived;
    RefinedOutput(cfg, Run(cfg, Opened(cfg), events), FlowRun(cfg, events, nums), ssrc, start, Arrived(events, nums),
                  PushedNumbers(events, nums));
  }
}
