/** A transmit endpoint over a whole run of writes and played periods at one queue size. Both
    methods of the endpoint are proved to take the steps of the run. */
module DepTransmit {
  import opened Words
  import opened Circular
  import opened DepRing
  import opened DepFifo
  import opened Subsequences

  datatype Event = Offer(frames: seq<Frame>) | Play(period: nat)

  /** `offered` is everything written, `played` every frame played that was not padding. */
  datatype State = State(queue: seq<Frame>, dropped: nat, offered: seq<Frame>, played: seq<Frame>)

  function Step(cap: nat, s: State, e: Event): State {
    match e
    case Offer(frames) =>
      var queue := Pushed(cap, s.queue, frames);
      State(queue, s.dropped + |s.queue| + |frames| - |queue|, s.offered + frames, s.played)
    case Play(period) =>
      var n := Min(period, |s.queue|);
      State(s.queue[n..], s.dropped + n, s.offered, s.played + s.queue[..n])
  }

  function Run(cap: nat, events: seq<Event>): State
    decreases |events|
  {
    if events == [] then State([], 0, [], [])
    else Step(cap, Run(cap, events[..|events| - 1]), events[|events| - 1])
  }

  /** The queue is the newest of what was offered, what left it is counted, and what was played is
      an in-order selection of what left it. */
  predicate Accounted(cap: nat, s: State) {
    && |s.queue| <= cap
    && |s.offered| == |s.queue| + s.dropped
    && s.queue == s.offered[s.dropped..]
    && Subsequence(s.played, s.offered[..s.dropped])
  }

  lemma StepAccounted(cap: nat, s: State, e: Event)
    requires Accounted(cap, s)
    ensures Accounted(cap, Step(cap, s, e))
  {
    var t := Step(cap, s, e);
    match e {
      case Offer(frames) =>
        assert s.queue + frames == t.offered[s.dropped..];
        assert t.offered[..t.dropped] == s.offered[..s.dropped] + t.offered[s.dropped..t.dropped];
        SubsequenceMore(s.played, s.offered[..s.dropped], t.offered[s.dropped..t.dropped]);
      case Play(period) =>
        var n := Min(period, |s.queue|);
        assert s.offered[..t.dropped] == s.offered[..s.dropped] + s.queue[..n];
        SubsequenceBoth(s.played, s.offered[..s.dropped], s.queue[..n]);
    }
  }

  /** Over every run: frames offered are frames waiting plus frames dropped (played ones count as
      dropped), and without its padding the transmit output is an in-order subsequence of what
      was written. */
  lemma {:induction false} PlaysInOrder(cap: nat, events: seq<Event>)
    ensures Accounted(cap, Run(cap, events))
    ensures Subsequence(Run(cap, events).played, Run(cap, events).offered)
    decreases |events|
  {
    if events != [] {
      PlaysInOrder(cap, events[..|events| - 1]);
      StepAccounted(cap, Run(cap, events[..|events| - 1]), events[|events| - 1]);
    }
    var s := Run(cap, events);
    assert s.offered == s.offered[..s.dropped] + s.offered[s.dropped..];
    SubsequenceMore(s.played, s.offered[..s.dropped], s.offered[s.dropped..]);
  }

  /** The endpoint is where the run is, which began with `base` frames already dropped. */
  ghost predicate Mirrors(e: Endpoint, s: State, base: nat)
    reads e, e.samples
    requires e.Valid()
  {
    e.Queue() == s.queue && e.droppedFrames == base + s.dropped
  }

  /** Sizing the queue: a change empties it and begins a new run, whatever was dropped before. */
  method ResizeStep(e: Endpoint, period: u32, rate: u32, ghost s: State, ghost base: nat)
    returns (ok: bool, ghost t: State, ghost newBase: nat)
    requires e.Valid() && Mirrors(e, s, base)
    modifies e`samples, e`timestamps, e`capacity, e`configuredPeriod, e`readFrame, e`usedFrames, e`sampleRate
    ensures e.Valid() && Mirrors(e, t, newBase)
    ensures if e.samples == old(e.samples) then t == s && newBase == base
            else ok && t == Run(e.capacity, []) && newBase == base + s.dropped
  {
    ok := e.Prepare(period, rate);
    t, newBase := s, base;
    if e.samples != old(e.samples) {
      t, newBase := Run(e.capacity, []), e.droppedFrames;
    }
  }

  /** A write that is accepted is one step of the run, any other none. */
  method WriteStep(e: Endpoint, frames: seq<Frame>, ghost s: State, ghost base: nat)
    returns (r: Result, ghost t: State)
    requires e.Valid() && Mirrors(e, s, base) && |frames| < U32
    modifies e`readFrame, e`usedFrames, e`droppedFrames, e`overruns, e.samples
    ensures e.Valid() && Mirrors(e, t, base)
    ensures t == if r.Ok? then Step(e.capacity, s, Offer(frames)) else s
  {
    r := e.Write(frames);
    t := if r.Ok? then Step(e.capacity, s, Offer(frames)) else s;
  }

  /** Playing a period is one step of the run, and what the step adds to `played` is what now stands
      at the period's place in the ring, with silence after it. */
  method PlayStep(
    e: Endpoint, g: Geometry, rate: u32, tx: array2<int>, leadUs: u32, period: u64, ghost s: State, ghost base: nat)
    returns (ghost t: State)
    requires e.Valid() && Mirrors(e, s, base) && ValidGeometry(g) && 0 < e.capacity
    requires tx.Length1 == g.capacity && Routed(e.channelMap, tx.Length0)
    requires forall f | f in e.Queue() :: |f| == |e.channelMap|
    modifies e`readFrame, e`usedFrames, e`droppedFrames, e`underflows, e`periods, tx
    ensures e.Valid() && Mirrors(e, t, base)
    ensures t == Step(e.capacity, s, Play(g.period))
    ensures forall i, c | 0 <= i < g.period && 0 <= c < |e.channelMap| ::
              tx[e.channelMap[c], Slot(TxStart(g, rate, leadUs, period), i, g.capacity)] ==
              PlayedSample(s, t, i, c)
  {
    t := Step(e.capacity, s, Play(g.period));
    ghost var queue := e.Queue();
    e.TransmitPeriod(g, rate, tx, leadUs, period);
    forall i, c | 0 <= i < g.period && 0 <= c < |e.channelMap|
      ensures old(e.Played(i, c)) == PlayedSample(s, t, i, c)
    {
    }
  }

  /** Sample `c` of the frame played as number `i` between two states, or silence. */
  ghost function PlayedSample(s: State, t: State, i: nat, c: nat): int {
    var k := |s.played| + i;
    if k < |t.played| && c < |t.played[k]| then t.played[k][c] else 0
  }
}
