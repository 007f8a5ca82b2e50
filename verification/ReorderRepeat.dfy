/** Why a packet half a lap behind the others has to be ruled out: repeated, it reads as one far
    ahead, and the element counts gaps where nothing is missing. */
module ReorderRepeat {
  import opened Words
  import opened Ranges
  import opened RtpHeader
  import opened ReorderRing
  import opened ReorderUnwrapped
  import opened ReorderStream
  import opened ReorderNumbers
  import opened ReorderSorting
  import ReorderEvicted

  const COUNT := 40001

  /** The numbers from 0 on, in order. */
  function InOrder(k: nat): (nums: seq<int>)
    ensures |nums| == k
  {
    seq(k, i => i)
  }

  function Pushes(nums: seq<int>): (events: seq<Event>)
    ensures |events| == |nums|
  {
    seq(|nums|, i requires 0 <= i < |nums| => ReorderEvicted.Arriving(nums[i]))
  }

  lemma PushesCarry(nums: seq<int>)
    ensures Carries(Pushes(nums), nums, 1)
  {
    hide Bare;
    forall i | 0 <= i < |nums|
      ensures ParseRtp(Pushes(nums)[i].arrival.bytes) == Some(Header(Lo16(nums[i]), 1))
    {
      BareParses(Lo16(nums[i]), 1);
    }
  }

  /** After the first `k` numbers all of them are out. */
  function FlowAfter(k: nat): Flow {
    Flow(0, {}, k, map[], {}, {}, {}, Range(0, k), 0, 0, 0, 0)
  }

  lemma NextPlaced(cfg: Config, k: nat)
    requires ValidConfig(cfg)
    ensures PlaceFlow(cfg, FlowAfter(k), k, 0) == FlowAfter(k + 1)
    ensures DrainFlow(StoreFlow(cfg, FlowAfter(k), k, 0)) == FlowAfter(k + 1)
  {
    var f := FlowAfter(k);
    assert Advance(cfg, f, k) == f;
    var stored := StoreFlow(cfg, f, k, 0);
    assert stored.held == map[k := 0];
    assert Range(0, k) + [k] == Range(0, k + 1);
    assert EmitHead(stored) == FlowAfter(k + 1);
    assert DrainFlow(stored) == FlowAfter(k + 1);
    assert FirstExpired(cfg, map[], k + 1, k + 1 + cfg.window, 0) == None;
  }

  /** The run up to there: displaced by nothing, everything out. */
  ghost predicate AllOut(cfg: Config, events: seq<Event>, nums: seq<int>, k: nat)
    requires ValidConfig(cfg) && |events| == |nums|
  {
    && Displaced(cfg, events, nums, 0) && Arrived(events, nums) == Span(0, k)
    && FlowRun(cfg, events, nums) == if k == 0 then None else Some(FlowAfter(k))
  }

  lemma OneMoreFits(cfg: Config, k: nat)
    requires ValidConfig(cfg)
    ensures Fits(cfg, 0, Span(0, k), k) && Span(0, k) + {k} == Span(0, k + 1)
  {
  }

  lemma OneMorePatient(cfg: Config, k: nat)
    requires ValidConfig(cfg)
    ensures var o := if k == 0 then None else Some(FlowAfter(k));
            Begun(o, k) == FlowAfter(k) && StepPatient(cfg, o, ReorderEvicted.Arriving(k), k)
  {
    assert Range(0, 0) == [];
    NextPlaced(cfg, k);
    hide PlaceFlow, DrainFlow, StoreFlow, Bare, Range;
    assert Advance(cfg, FlowAfter(k), k) == FlowAfter(k);
  }

  lemma OneMoreOut(cfg: Config, events: seq<Event>, nums: seq<int>)
    requires ValidConfig(cfg) && |events| == |nums| > 0
    requires var k := |events| - 1;
             events[k] == ReorderEvicted.Arriving(nums[k]) && nums[k] == k && AllOut(cfg, events[..k], nums[..k], k)
    ensures AllOut(cfg, events, nums, |events|)
  {
    var k := |events| - 1;
    OneMoreFits(cfg, k);
    OneMorePatient(cfg, k);
    NextPlaced(cfg, k);
    hide PlaceFlow, DrainFlow, StoreFlow, Advance, Bare, StepPatient, Fits, FlowAfter, Span, Begun;
  }

  lemma OneFewer(k: nat)
    requires k > 0
    ensures var nums := InOrder(k);
            && nums[..k - 1] == InOrder(k - 1) && Pushes(nums)[..k - 1] == Pushes(InOrder(k - 1))
            && nums[k - 1] == k - 1 && Pushes(nums)[k - 1] == ReorderEvicted.Arriving(k - 1)
  {
    hide Bare;
    assert InOrder(k)[..k - 1] == InOrder(k - 1);
  }

  lemma {:induction false} InOrderIsOut(cfg: Config, k: nat)
    requires ValidConfig(cfg)
    ensures AllOut(cfg, Pushes(InOrder(k)), InOrder(k), k)
  {
    if k > 0 {
      InOrderIsOut(cfg, k - 1);
      OneFewer(k);
      hide AllOut, Pushes, InOrder, Bare;
      OneMoreOut(cfg, Pushes(InOrder(k)), InOrder(k));
    }
  }

  // The repeat of 0, read as 65536.

  lemma {:induction false} AdvanceEmpty(cfg: Config, f: Flow, n: int)
    requires ValidConfig(cfg) && f.held == map[]
    ensures var g := Advance(cfg, f, n);
            g.held == map[] && g.gaps >= f.gaps && (n - f.exp >= cfg.window ==> g.gaps > f.gaps)
    decreases n - f.exp
  {
    if n - f.exp >= cfg.window {
      AdvanceEmpty(cfg, SkipHead(f), n);
    }
  }

  lemma {:induction false} DrainHolds(f: Flow)
    ensures forall m | m in DrainFlow(f).held :: m in f.held && DrainFlow(f).held[m] == f.held[m]
    decreases |f.held|
  {
    if f.exp in f.held {
      DrainHolds(EmitHead(f));
    }
  }

  lemma RepeatCounts(cfg: Config)
    requires ValidConfig(cfg) && cfg.window <= 0x4000
    ensures var f := FlowAfter(COUNT);
            PlaceOrderly(cfg, f, 0x1_0000, 0) && PlaceFlow(cfg, f, 0x1_0000, 0).gaps > 0
  {
    var f := FlowAfter(COUNT);
    AdvanceEmpty(cfg, f, 0x1_0000);
    var g := Advance(cfg, f, 0x1_0000);
    hide Advance;
    var stored := StoreFlow(cfg, g, 0x1_0000, 0);
    assert stored.held == map[0x1_0000 := 0];
    DrainHolds(stored);
    ReorderEvicted.DrainCounts(stored);
    ReorderEvicted.NoneYet(cfg, DrainFlow(stored));
    ReorderEvicted.DrainCounts(DrainFlow(stored));
  }

  /** 40001 packets in order and then the first again. */
  function Repeated(): (nums: seq<int>)
    ensures |nums| == COUNT + 1
  {
    InOrder(COUNT) + [0]
  }

  /** What the element takes them for. */
  function TakenAs(): (nums: seq<int>)
    ensures |nums| == COUNT + 1
  {
    InOrder(COUNT) + [0x1_0000]
  }

  lemma SameEvents()
    ensures Pushes(TakenAs()) == Pushes(Repeated())
    ensures Pushes(Repeated())[..COUNT] == Pushes(InOrder(COUNT))
    ensures Repeated()[..COUNT] == InOrder(COUNT) == TakenAs()[..COUNT]
    ensures Pushes(Repeated())[COUNT] == ReorderEvicted.Arriving(0)
  {
    hide Bare;
  }

  lemma GapsCounted(cfg: Config)
    requires ValidConfig(cfg) && 0x1_0000 % cfg.window == 0 && cfg.window <= 0x4000
    ensures Run(cfg, Opened(cfg), Pushes(Repeated())).count.lostGaps > 0
  {
    var events := Pushes(Repeated());
    SameEvents();
    InOrderIsOut(cfg, COUNT);
    RepeatCounts(cfg);
    PushesCarry(TakenAs());
    StreamSorted(cfg, Pushes(InOrder(COUNT)), InOrder(COUNT), 0);
    EndOrderly(cfg, events, TakenAs());
    hide Pushes, Carries, FlowRun, Orderly, Run;
    StreamRefines(cfg, events, TakenAs(), 1);
  }

  lemma EndOrderly(cfg: Config, events: seq<Event>, nums: seq<int>)
    requires ValidConfig(cfg) && |events| == |nums| == COUNT + 1
    requires AllOut(cfg, events[..COUNT], nums[..COUNT], COUNT)
    requires events[COUNT] == ReorderEvicted.Arriving(0) && nums[COUNT] == 0x1_0000
    requires PlaceOrderly(cfg, FlowAfter(COUNT), 0x1_0000, 0)
    requires Orderly(cfg, events[..COUNT], nums[..COUNT])
    ensures Orderly(cfg, events, nums)
    ensures FlowRun(cfg, events, nums) == Some(PlaceFlow(cfg, FlowAfter(COUNT), 0x1_0000, 0))
  {
    hide PlaceFlow, PlaceOrderly, FlowAfter, Displaced, Arrived, Bare;
  }

  /** The bound is needed. All but the last packet are displaced by nothing; the last is the first
      one again, at the window and the timeout nothing is wrong with it, and what is missing is
      only that nothing half a lap ahead of it has arrived. Gaps are counted and the output is not
      what it should be. */
  lemma FarRepeatBreaks(cfg: Config)
    requires ValidConfig(cfg) && 0x1_0000 % cfg.window == 0 && cfg.window <= 0x4000
    ensures var events, nums := Pushes(Repeated()), Repeated();
            && Carries(events, nums, 1) && Displaced(cfg, events[..COUNT], nums[..COUNT], 0)
            && StepPatient(cfg, FlowRun(cfg, events[..COUNT], nums[..COUNT]), events[COUNT], nums[COUNT])
            && NoneTooFarBehind(cfg, 0, Arrived(events[..COUNT], nums[..COUNT]), nums[COUNT])
            && !OutputIs(Run(cfg, Opened(cfg), events), 0, Arrived(events, nums), PushedNumbers(events, nums))
  {
    PushesCarry(Repeated());
    SameEvents();
    InOrderIsOut(cfg, COUNT);
    GapsCounted(cfg);
    hide Pushes, Carries, Displaced, Run, Arrived, PushedNumbers, Repeated, InOrder, FlowRun, OutputAt;
  }
}
