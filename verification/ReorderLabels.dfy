/** Which buffer carries which number: over every run, whatever is waiting or was sent under a
    sequence number is the buffer whose own header holds that number. */
module ReorderLabels {
  import opened Words
  import opened RtpHeader
  import opened ReorderRing
  import opened ReorderAccounting

  /** The buffers pushed by a run, in order; a buffer's id is its place here. */
  function Pushed(events: seq<Event>): (pushed: seq<Arrival>)
    decreases |events|
  {
    if events == [] then []
    else
      var last := |events| - 1;
      Pushed(events[..last]) + if events[last].Push? then [events[last].arrival] else []
  }

  /** Buffer `id` is there, and its own header holds `sequence`. */
  predicate Bears(pushed: seq<Arrival>, id: nat, sequence: u16) {
    id < |pushed| && var h := ParseRtp(pushed[id].bytes); h.Some? && h.value.sequence == sequence
  }

  predicate SlotLabelled(pushed: seq<Arrival>, s: Slot) {
    s.buffer.Some? ==> Bears(pushed, s.buffer.value, s.sequence)
  }

  predicate OutputLabelled(pushed: seq<Arrival>, output: seq<Emission>) {
    forall k | 0 <= k < |output| :: Bears(pushed, output[k].id, output[k].sequence)
  }

  predicate Labelled(pushed: seq<Arrival>, r: Ring) {
    && (forall i | 0 <= i < |r.slots| :: SlotLabelled(pushed, r.slots[i]))
    && OutputLabelled(pushed, r.output)
  }

  lemma EmitLabelled(cfg: Config, r: Ring, pushed: seq<Arrival>)
    requires Shaped(cfg, r) && HeadReady(cfg, r) && Labelled(pushed, r)
    ensures Labelled(pushed, Emit(cfg, r))
  {
    hide Bears;
    assert SlotLabelled(pushed, r.slots[r.expected % cfg.window]);
  }

  lemma {:induction false} DrainLabelled(cfg: Config, r: Ring, pushed: seq<Arrival>)
    requires Shaped(cfg, r) && Labelled(pushed, r)
    ensures Labelled(pushed, Drain(cfg, r))
    decreases Occupied(r.slots)
  {
    hide Labelled;
    if r.haveExpected && HeadReady(cfg, r) {
      EmitLabelled(cfg, r, pushed);
      DrainLabelled(cfg, Emit(cfg, r), pushed);
    }
  }

  lemma {:induction false} SkipToLabelled(cfg: Config, r: Ring, target: u16, pushed: seq<Arrival>)
    requires Shaped(cfg, r) && Labelled(pushed, r)
    ensures Labelled(pushed, SkipTo(cfg, r, target))
    decreases Dist16(target, r.expected)
  {
    hide SlotLabelled, OutputLabelled;
    if r.expected != target {
      SkipToLabelled(cfg, SkipExpected(cfg, r), target, pushed);
    }
  }

  lemma {:induction false} OverflowLabelled(cfg: Config, r: Ring, sequence: u16, pushed: seq<Arrival>)
    requires Shaped(cfg, r) && Labelled(pushed, r)
    ensures Labelled(pushed, Overflow(cfg, r, sequence))
    decreases Dist16(sequence, r.expected)
  {
    hide SlotLabelled, OutputLabelled;
    if Dist16(sequence, r.expected) >= cfg.window {
      DistTurn(sequence, r.expected);
      if HeadReady(cfg, r) {
        EmitLabelled(cfg, r, pushed);
      }
      OverflowLabelled(cfg, Advanced(cfg, r), sequence, pushed);
    }
  }

  lemma SettleLabelled(cfg: Config, r: Ring, now: u64, pushed: seq<Arrival>)
    requires Shaped(cfg, r) && Labelled(pushed, r)
    ensures Labelled(pushed, Settle(cfg, r, now))
  {
    hide Labelled;
    var best := Nearest(cfg, r.slots, r.expected, now, |r.slots|);
    if best.Some? {
      SkipToLabelled(cfg, r, best.value, pushed);
    }
    DrainLabelled(cfg, SkipGap(cfg, r, now), pushed);
  }

  lemma InsertLabelled(cfg: Config, r: Ring, id: nat, sequence: u16, now: u64, pushed: seq<Arrival>)
    requires Shaped(cfg, r) && Labelled(pushed, r) && Bears(pushed, id, sequence)
    ensures Labelled(pushed, Insert(cfg, r, id, sequence, now))
  {
    hide Bears, Settle, Drain;
    var slot := r.slots[sequence % cfg.window];
    if !(slot.buffer.Some? && slot.sequence == sequence) {
      var stored := Store(cfg, r, id, sequence, now);
      DrainLabelled(cfg, stored, pushed);
      SettleLabelled(cfg, Drain(cfg, stored), now, pushed);
    }
  }

  lemma PlaceLabelled(cfg: Config, r: Ring, id: nat, sequence: u16, now: u64, pushed: seq<Arrival>)
    requires Shaped(cfg, r) && Labelled(pushed, r) && Bears(pushed, id, sequence)
    ensures Labelled(pushed, Place(cfg, r, id, sequence, now))
  {
    hide SlotLabelled, OutputLabelled, Bears, Insert, Overflow;
    var r0 := Anchor(r, sequence);
    if Dist16(sequence, r0.expected) < 0x8000 {
      OverflowLabelled(cfg, r0, sequence, pushed);
      InsertLabelled(cfg, Overflow(cfg, r0, sequence), id, sequence, now, pushed);
    }
  }

  lemma SwitchLabelled(r: Ring, ssrc: u32, pushed: seq<Arrival>)
    requires Labelled(pushed, r)
    ensures Labelled(pushed, SwitchSsrc(r, ssrc))
  {
    hide Bears;
  }

  lemma AcceptLabelled(cfg: Config, r: Ring, id: nat, h: Header, a: Arrival, pushed: seq<Arrival>)
    requires Shaped(cfg, r) && Labelled(pushed, r) && Bears(pushed, id, h.sequence)
    ensures Labelled(pushed, Accept(cfg, r, id, h, a))
  {
    hide SlotLabelled, OutputLabelled, Bears, Place;
    SwitchLabelled(r, h.ssrc, pushed);
    match SsrcGate(cfg, r.lockedSsrc, h.ssrc, a) {
      case Reject =>
      case Admit => PlaceLabelled(cfg, r, id, h.sequence, a.now, pushed);
      case LockThen(ok) =>
        PlaceLabelled(cfg, r.(lockedSsrc := h.ssrc), id, h.sequence, a.now, pushed);
      case SwitchThen(ok) =>
        PlaceLabelled(cfg, SwitchSsrc(r, h.ssrc), id, h.sequence, a.now, pushed);
    }
  }

  /** One more buffer pushed leaves the labels of the others right. */
  lemma MoreLabelled(pushed: seq<Arrival>, a: Arrival, r: Ring)
    requires Labelled(pushed, r)
    ensures Labelled(pushed + [a], r) && Labelled(pushed + [a], Counting(r))
  {
    assert forall id: nat, s: u16 :: Bears(pushed, id, s) ==> Bears(pushed + [a], id, s);
    assert forall i | 0 <= i < |r.slots| :: SlotLabelled(pushed, r.slots[i]);
  }

  lemma {:induction false} PushedAre(events: seq<Event>)
    ensures |Pushed(events)| == Pushes(events)
    decreases |events|
  {
    if events != [] {
      PushedAre(events[..|events| - 1]);
    }
  }

  lemma StepLabelled(cfg: Config, r: Ring, e: Event, pushed: seq<Arrival>)
    requires Shaped(cfg, r) && Labelled(pushed, r) && r.count.inPackets == |pushed|
    ensures Labelled(pushed + if e.Push? then [e.arrival] else [], Step(cfg, r, e))
  {
    hide SlotLabelled, OutputLabelled, Place, Settle;
    match e {
      case Watchdog(now) =>
        SettleLabelled(cfg, r, now, pushed);
        assert pushed + [] == pushed;
      case Push(a) =>
        MoreLabelled(pushed, a, r);
        var parsed := ParseRtp(a.bytes);
        if parsed.Some? {
          assert Bears(pushed + [a], |pushed|, parsed.value.sequence);
          AcceptLabelled(cfg, Counting(r), |pushed|, parsed.value, a, pushed + [a]);
        }
    }
  }

  /** After any run, of any events, every waiting buffer and every buffer sent carries the number
      in its own header. */
  lemma {:induction false} RunLabelled(cfg: Config, events: seq<Event>)
    requires ValidConfig(cfg)
    ensures Labelled(Pushed(events), Run(cfg, Opened(cfg), events))
    decreases |events|
  {
    hide Labelled, Step;
    if events != [] {
      var before := events[..|events| - 1];
      RunLabelled(cfg, before);
      PushedAre(before);
      ExactlyOnePlace(cfg, before, 0);
      StepLabelled(cfg, Run(cfg, Opened(cfg), before), events[|events| - 1], Pushed(before));
    } else {
      OpenedLabelled(cfg);
    }
  }

  lemma OpenedLabelled(cfg: Config)
    requires ValidConfig(cfg)
    ensures Labelled([], Opened(cfg))
  {
  }
}
