/** The ring between the thread that reads the socket and the element that hands packets on: it
    refuses new packets when full, and keeps the order of the others. */
module ReaderRing {
  import opened Words
  import opened Residues
  import opened Circular
  import opened Subsequences

  /** A packet buffer, told apart from every other. */
  type Buffer = nat

  datatype Step = Arrive(buffer: Buffer) | Take | Stop

  /** `delivered`: handed on. `released`: given back unused. */
  datatype State = State(held: seq<Buffer>, delivered: seq<Buffer>, released: seq<Buffer>, overflow: nat)

  function ArriveStep(s: State, buffer: Buffer, cap: nat): State {
    if |s.held| >= cap then s.(released := s.released + [buffer], overflow := s.overflow + 1)
    else s.(held := s.held + [buffer])
  }

  function TakeStep(s: State): State {
    if s.held == [] then s else s.(held := s.held[1..], delivered := s.delivered + [s.held[0]])
  }

  function StopStep(s: State): State {
    s.(held := [], released := s.released + s.held)
  }

  function StepOf(s: State, step: Step, cap: nat): State {
    match step
    case Arrive(buffer) => ArriveStep(s, buffer, cap)
    case Take => TakeStep(s)
    case Stop => StopStep(s)
  }

  function Run(steps: seq<Step>, cap: nat): State {
    if steps == [] then State([], [], [], 0)
    else StepOf(Run(steps[..|steps| - 1], cap), steps[|steps| - 1], cap)
  }

  function Arrivals(steps: seq<Step>): seq<Buffer> {
    if steps == [] then []
    else
      Arrivals(steps[..|steps| - 1]) +
      match steps[|steps| - 1]
      case Arrive(buffer) => [buffer]
      case _ => []
  }

  predicate Accounted(s: State, arrivals: seq<Buffer>, cap: nat) {
    && |s.held| <= cap && Subsequence(s.delivered + s.held, arrivals)
    && multiset(s.delivered) + multiset(s.held) + multiset(s.released) == multiset(arrivals)
  }

  lemma ArriveAccounted(s: State, arrivals: seq<Buffer>, buffer: Buffer, cap: nat)
    requires Accounted(s, arrivals, cap)
    ensures Accounted(ArriveStep(s, buffer, cap), arrivals + [buffer], cap)
  {
    if |s.held| >= cap {
      SubsequenceMore(s.delivered + s.held, arrivals, [buffer]);
    } else {
      SubsequenceBoth(s.delivered + s.held, arrivals, [buffer]);
      assert s.delivered + (s.held + [buffer]) == s.delivered + s.held + [buffer];
    }
  }

  lemma TakeAccounted(s: State, arrivals: seq<Buffer>, cap: nat)
    requires Accounted(s, arrivals, cap)
    ensures Accounted(TakeStep(s), arrivals, cap)
  {
    if s.held != [] {
      assert s.delivered + [s.held[0]] + s.held[1..] == s.delivered + s.held;
      assert s.held == [s.held[0]] + s.held[1..];
    }
  }

  lemma StopAccounted(s: State, arrivals: seq<Buffer>, cap: nat)
    requires Accounted(s, arrivals, cap)
    ensures Accounted(StopStep(s), arrivals, cap)
  {
    SubsequencePrefix(s.delivered + s.held, arrivals, |s.delivered|);
    assert (s.delivered + s.held)[..|s.delivered|] == s.delivered == s.delivered + [];
  }

  /** In every run, packets are handed on in the order of their arrival, and each that arrived is
      handed on, still held, or given back, once. */
  lemma {:induction false} RunAccounted(steps: seq<Step>, cap: nat)
    ensures var s := Run(steps, cap);
            && |s.held| <= cap && Subsequence(s.delivered + s.held, Arrivals(steps))
            && multiset(s.delivered) + multiset(s.held) + multiset(s.released) == multiset(Arrivals(steps))
  {
    if steps != [] {
      hide Subsequence, ArriveStep, TakeStep, StopStep;
      var before, step := steps[..|steps| - 1], steps[|steps| - 1];
      RunAccounted(before, cap);
      match step {
        case Arrive(buffer) => ArriveAccounted(Run(before, cap), Arrivals(before), buffer, cap);
        case Take => TakeAccounted(Run(before, cap), Arrivals(before), cap);
        case Stop => StopAccounted(Run(before, cap), Arrivals(before), cap);
      }
      assert Arrivals(before) + [] == Arrivals(before);
    }
  }

  function Occupied(steps: seq<Step>, cap: nat): nat {
    |Run(steps, cap).held|
  }

  /** Nothing is refused, and nothing given back, as long as the ring is not full when a packet
      arrives and is not stopped: then all that arrived is handed on or held, in order. */
  lemma {:induction false} LosslessUnlessFull(steps: seq<Step>, cap: nat)
    requires forall i | 0 <= i < |steps| :: !steps[i].Stop? && (steps[i].Arrive? ==> Occupied(steps[..i], cap) < cap)
    ensures var s := Run(steps, cap);
            s.delivered + s.held == Arrivals(steps) && s.released == [] && s.overflow == 0
  {
    if steps != [] {
      var before, step := steps[..|steps| - 1], steps[|steps| - 1];
      forall i | 0 <= i < |before|
        ensures !before[i].Stop? && (before[i].Arrive? ==> Occupied(before[..i], cap) < cap)
      {
        assert before[i] == steps[i] && before[..i] == steps[..i];
      }
      LosslessUnlessFull(before, cap);
      assert step == steps[|steps| - 1] && Occupied(steps[..|steps| - 1], cap) == |Run(before, cap).held|;
      var s := Run(before, cap);
      if step.Arrive? {
        assert s.delivered + (s.held + [step.buffer]) == s.delivered + s.held + [step.buffer];
      } else if s.held != [] {
        assert s.delivered + [s.held[0]] + s.held[1..] == s.delivered + s.held;
      }
    }
  }

  /** How many packets have met a full ring. */
  function MetFull(steps: seq<Step>, cap: nat): nat {
    if steps == [] then 0
    else
      var before := steps[..|steps| - 1];
      MetFull(before, cap) + if steps[|steps| - 1].Arrive? && Occupied(before, cap) >= cap then 1 else 0
  }

  /** The overflow count is that of the packets that met a full ring, and they are given back. */
  lemma {:induction false} OverflowCounts(steps: seq<Step>, cap: nat)
    ensures Run(steps, cap).overflow == MetFull(steps, cap) <= |Run(steps, cap).released|
  {
    if steps != [] {
      OverflowCounts(steps[..|steps| - 1], cap);
    }
  }

  class PacketRing {
    const ring: array<Buffer>
    var head: nat
    var tail: nat
    var count: nat
    var overflow: nat
    ghost var delivered: seq<Buffer>
    ghost var released: seq<Buffer>

    ghost predicate Valid()
      reads this
    {
      0 < ring.Length && head < ring.Length && count <= ring.Length && tail == Slot(head, count, ring.Length)
    }

    ghost function View(): State
      reads this, ring
      requires Valid()
    {
      State(Around(ring[..], head, count), delivered, released, overflow)
    }

    constructor (cap: nat)
      requires 0 < cap
      ensures Valid() && fresh(ring) && ring.Length == cap && View() == Run([], cap)
    {
      ring := new Buffer[cap];
      head, tail, count, overflow, delivered, released := 0, 0, 0, 0, [], [];
    }

    /** The reader thread has a packet. */
    method Enqueue(buffer: Buffer)
      requires Valid()
      modifies this, ring
      ensures Valid() && View() == ArriveStep(old(View()), buffer, ring.Length)
    {
      hide Slot, Around;
      if count >= ring.Length {
        overflow := overflow + 1;
        released := released + [buffer];
        return;
      }
      PutBack(ring[..], head, count, buffer);
      ghost var before := ring[..];
      ring[tail] := buffer;
      assert ring[..] == before[tail := buffer];
      NextSlot(head, count, ring.Length);
      tail := (tail + 1) % ring.Length;
      count := count + 1;
    }

    /** The element asks for a packet. */
    method Dequeue() returns (buffer: Option<Buffer>)
      requires Valid()
      modifies this
      ensures Valid() && View() == TakeStep(old(View()))
      ensures buffer == if old(View()).held == [] then None else Some(old(View()).held[0])
    {
      if count == 0 {
        return None;
      }
      DropFront(ring[..], head, count, 1);
      SlotMoved(head, 1, count - 1, ring.Length);
      FirstSlot(head, ring.Length);
      buffer := Some(ring[head]);
      delivered := delivered + [ring[head]];
      head := (head + 1) % ring.Length;
      count := count - 1;
    }

    /** The thread has ended: what is left is given back. */
    method Clear()
      requires Valid()
      modifies this
      ensures Valid() && View() == StopStep(old(View()))
    {
      ghost var held := View().held;
      for i := 0 to count
        invariant Valid() && View() == old(View()).(released := old(released) + held[..i])
      {
        var idx := (head + i) % ring.Length;
        released := released + [ring[idx]];
      }
      head, tail, count := 0, 0, 0;
    }
  }

  lemma NextSlot(head: nat, n: nat, cap: nat)
    requires 0 < cap
    ensures (Slot(head, n, cap) + 1) % cap == Slot(head, n + 1, cap)
  {
    SlotMoved(head, n, 1, cap);
  }

  lemma FirstSlot(head: nat, cap: nat)
    requires head < cap
    ensures Slot(head, 0, cap) == head
  {
    DivModIs(head, cap, 0, head);
  }
}
