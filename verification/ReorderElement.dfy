/** The reorder element itself: slots and the table of declared losses are arrays updated in
    place, one lock-protected call at a time. Each method performs exactly the step of
    ReorderRing, whose runs the other Reorder modules are about. */
module ReorderElement {
  import opened Words
  import opened RtpHeader
  import opened ReorderRing
  import opened ReorderGate

  /** The part of the route that the element shares with the rest of the coordinator. */
  class Route {
    var lastValidTime: u64

    constructor ()
      ensures lastValidTime == 0
    {
      lastValidTime := 0;
    }
  }

  lemma SkipTurn(cfg: Config, r: Ring, target: u16)
    requires Shaped(cfg, r) && r.expected != target
    ensures SkipTo(cfg, r, target) == SkipTo(cfg, SkipExpected(cfg, r), target)
    ensures Dist16(target, SkipExpected(cfg, r).expected) < Dist16(target, r.expected)
  {
  }

  class Reorder {
    const window: nat
    const timeout: u64
    const ssrcInactive: u64
    const probeOnly: bool
    const route: Route
    var slots: array<Slot>
    var skipped: array<bool>
    var expected: u16
    var haveExpected: bool
    var lockedSsrc: u32
    var inPackets: nat
    var droppedOld: nat
    var latePackets: nat
    var droppedDup: nat
    var lostGaps: nat
    var parseFail: nat
    ghost var output: seq<Emission>
    ghost var released: seq<Release>

    ghost function Cfg(): Config {
      Config(window, timeout, ssrcInactive)
    }

    ghost predicate Valid()
      reads this
    {
      && ValidConfig(Cfg())
      && slots.Length == window
      && skipped.Length == 0x1_0000
    }

    ghost function View(): (r: Ring)
      reads this, slots, skipped
      requires Valid()
      ensures Shaped(Cfg(), r)
    {
      Ring(slots[..], skipped[..], expected, haveExpected, lockedSsrc,
           Counters(inPackets, droppedOld, latePackets, droppedDup, lostGaps, parseFail), output, released)
    }

    /** Creation with a timeout in milliseconds, and open: empty slots, clear table. A stream counts
        as inactive after fifty timeouts. */
    constructor (route: Route, window: nat, timeoutMs: nat, probeOnly: bool)
      requires 1 <= window <= 0x8000 && 1 <= timeoutMs <= 10000
      ensures Valid() && fresh(slots) && fresh(skipped) && this.route == route && this.probeOnly == probeOnly
      ensures Cfg() == Config(window, timeoutMs * 1_000_000, 50 * (timeoutMs * 1_000_000))
      ensures View() == Opened(Cfg())
    {
      this.route, this.window, this.timeout := route, window, timeoutMs * 1_000_000;
      this.ssrcInactive, this.probeOnly := timeoutMs * 1_000_000 * 50, probeOnly;
      slots := new Slot[window](_ => Slot(None, 0, 0));
      skipped := new bool[0x1_0000](_ => false);
      expected, haveExpected, lockedSsrc := 0, false, 0;
      inPackets, droppedOld, latePackets, droppedDup, lostGaps, parseFail := 0, 0, 0, 0, 0, 0;
      output, released := [], [];
      new;
      assert slots[..] == Opened(Cfg()).slots;
      assert skipped[..] == Opened(Cfg()).skipped;
    }

    method EmitHead()
      requires Valid() && HeadReady(Cfg(), View())
      modifies this`expected, this`output, slots
      ensures Valid() && View() == Emit(Cfg(), old(View()))
    {
      var i := expected % window;
      ghost var slot := slots[i];
      slots[i] := slots[i].(buffer := None);
      output := output + [Emission(slot.buffer.value, slot.sequence)];
      expected := Lo16(expected + 1);
    }

    method SkipHead()
      requires Valid()
      modifies this`expected, this`lostGaps, skipped
      ensures Valid() && View() == SkipExpected(Cfg(), old(View()))
    {
      skipped[expected] := true;
      lostGaps := lostGaps + 1;
      expected := Lo16(expected + 1);
    }

    method DrainReady()
      requires Valid()
      modifies this`expected, this`output, slots
      ensures Valid() && View() == Drain(Cfg(), old(View()))
    {
      while haveExpected
        invariant Valid() && Drain(Cfg(), View()) == Drain(Cfg(), old(View()))
        decreases Occupied(slots[..])
      {
        var i := expected % window;
        if slots[i].buffer.None? || slots[i].sequence != expected {
          break;
        }
        EmitHead();
      }
    }

    method FindNearest(now: u64) returns (nearest: Option<u16>)
      requires Valid()
      ensures nearest == Nearest(Cfg(), slots[..], expected, now, window)
    {
      hide Dist16, Sub64;
      nearest := None;
      var nearestDistance: u16 := 0xffff;
      for i := 0 to window
        invariant nearest == Nearest(Cfg(), slots[..], expected, now, i)
        invariant nearestDistance == if nearest.Some? then Dist16(nearest.value, expected) else 0xffff
      {
        var slot := slots[i];
        if slot.buffer.Some? && Sub64(now, slot.arrival) >= timeout {
          var distance := Dist16(slot.sequence, expected);
          if distance < nearestDistance {
            nearest, nearestDistance := Some(slot.sequence), distance;
          }
        }
      }
    }

    method SkipUntil(target: u16)
      requires Valid()
      modifies this`expected, this`lostGaps, skipped
      ensures Valid() && View() == SkipTo(Cfg(), old(View()), target)
    {
      ghost var goal := SkipTo(Cfg(), View(), target);
      while expected != target
        invariant Valid() && SkipTo(Cfg(), View(), target) == goal
        decreases Dist16(target, expected)
      {
        SkipTurn(Cfg(), View(), target);
        hide SkipTo, SkipExpected, Dist16;
        SkipHead();
      }
    }

    method SkipGapIfTimedOut(now: u64)
      requires Valid()
      modifies this`expected, this`lostGaps, skipped
      ensures Valid() && View() == SkipGap(Cfg(), old(View()), now)
    {
      var nearest := FindNearest(now);
      if nearest.Some? {
        SkipUntil(nearest.value);
      }
    }

    method AdvanceHead()
      requires Valid()
      modifies this`expected, this`output, this`lostGaps, slots, skipped
      ensures Valid() && View() == Advanced(Cfg(), old(View()))
    {
      var head := slots[expected % window];
      if head.buffer.Some? && head.sequence == expected {
        EmitHead();
      } else {
        SkipHead();
      }
    }

    method MakeRoom(sequence: u16)
      requires Valid()
      modifies this`expected, this`output, this`lostGaps, slots, skipped
      ensures Valid() && View() == Overflow(Cfg(), old(View()), sequence)
    {
      while Dist16(sequence, expected) >= window
        invariant Valid() && Overflow(Cfg(), View(), sequence) == Overflow(Cfg(), old(View()), sequence)
        decreases Dist16(sequence, expected)
      {
        DistTurn(sequence, expected);
        AdvanceHead();
      }
    }

    method DropBehind(sequence: u16, id: nat)
      requires Valid()
      modifies this`latePackets, this`droppedOld, this`released, skipped
      ensures Valid() && View() == Behind(old(View()), id, sequence)
    {
      if skipped[sequence] {
        skipped[sequence] := false;
        latePackets := latePackets + 1;
        released := released + [Release(id, Late)];
      } else {
        droppedOld := droppedOld + 1;
        released := released + [Release(id, Old)];
      }
    }

    method StoreBuffer(sequence: u16, now: u64, id: nat)
      requires Valid()
      modifies this`released, slots, skipped
      ensures Valid() && View() == Store(Cfg(), old(View()), id, sequence, now)
    {
      var i := sequence % window;
      if slots[i].buffer.Some? {
        released := released + [Release(slots[i].buffer.value, Evicted)];
      }
      slots[i] := Slot(Some(id), sequence, now);
      skipped[sequence] := false;
    }

    /** A packet inside the window: a duplicate, or stored and everything due sent on. */
    method InsertBuffer(sequence: u16, now: u64, id: nat)
      requires Valid()
      modifies this`expected, this`output, this`released, this`lostGaps, this`droppedDup, slots, skipped, route
      ensures Valid() && View() == Insert(Cfg(), old(View()), id, sequence, now)
      ensures route.lastValidTime ==
              if !probeOnly && !Waiting(Cfg(), old(View()), sequence) then now else old(route.lastValidTime)
    {
      var slot := slots[sequence % window];
      if slot.buffer.Some? && slot.sequence == sequence {
        droppedDup := droppedDup + 1;
        released := released + [Release(id, Duplicate)];
        return;
      }
      StoreBuffer(sequence, now, id);
      if !probeOnly {
        route.lastValidTime := now;
      }
      DrainReady();
      SkipGapIfTimedOut(now);
      DrainReady();
    }

    method PlaceBuffer(sequence: u16, now: u64, id: nat)
      requires Valid()
      modifies this`expected, this`haveExpected, this`output, this`released, this`lostGaps
      modifies this`latePackets, this`droppedOld, this`droppedDup, slots, skipped, route
      ensures Valid() && View() == Place(Cfg(), old(View()), id, sequence, now)
      ensures route.lastValidTime ==
              if !probeOnly && Stores(Cfg(), old(View()), sequence) then now else old(route.lastValidTime)
    {
      if !haveExpected {
        expected, haveExpected := sequence, true;
      }
      ghost var anchored := View();
      assert anchored == Anchor(old(View()), sequence);
      hide Overflow, Insert, Behind, Waiting, Anchor;
      if Dist16(sequence, expected) >= 0x8000 {
        DropBehind(sequence, id);
      } else {
        MakeRoom(sequence);
        InsertBuffer(sequence, now, id);
      }
    }

    /** Let every waiting buffer go, as an SSRC switch and closing do. */
    method ReleaseAll(ghost reason: Reason)
      requires Valid()
      modifies this`released, slots
      ensures Valid()
      ensures slots[..] == Emptied(old(slots[..]))
      ensures released == old(released) + FlushLog(old(slots[..]), window, reason)
    {
      ghost var before := slots[..];
      for i := 0 to window
        invariant Valid()
        invariant forall k | 0 <= k < i :: slots[k] == before[k].(buffer := None)
        invariant forall k | i <= k < window :: slots[k] == before[k]
        invariant released == old(released) + FlushLog(before, i, reason)
      {
        if slots[i].buffer.Some? {
          released := released + [Release(slots[i].buffer.value, reason)];
        }
        slots[i] := slots[i].(buffer := None);
      }
    }

    /** The buffer is let go. */
    method Refuse(id: nat, ghost reason: Reason)
      requires Valid()
      modifies this`released
      ensures Valid() && View() == Let(old(View()), id, reason)
    {
      released := released + [Release(id, reason)];
    }

    /** The waiting packets go, and the element begins anew with another SSRC. */
    method TakeOver(ssrc: u32)
      requires Valid()
      modifies this`released, this`lockedSsrc, this`haveExpected, slots
      ensures Valid() && View() == SwitchSsrc(old(View()), ssrc)
    {
      hide Emptied, FlushLog;
      ReleaseAll(Flushed);
      lockedSsrc := ssrc;
      haveExpected := false;
    }

    /** A parsed packet through the SSRC gate. */
    method AcceptBuffer(h: Header, now: u64, accepted: bool, id: nat, ghost bytes: seq<u8>) returns (ok: bool)
      requires Valid()
      modifies this`expected, this`haveExpected, this`lockedSsrc, this`output, this`released, this`lostGaps
      modifies this`latePackets, this`droppedOld, this`droppedDup, slots, skipped, route
      ensures Valid()
      ensures View() == Accept(Cfg(), old(View()), id, h, Arrival(bytes, now, old(route.lastValidTime), accepted))
      ensures !ok <==> !accepted && (old(lockedSsrc) == 0 || old(lockedSsrc) != h.ssrc) &&
                       !TooSoon(Cfg(), old(View()), Arrival(bytes, now, old(route.lastValidTime), accepted), h.ssrc)
      ensures route.lastValidTime ==
              if !probeOnly && Kept(old(View()), View()) then now else old(route.lastValidTime)
    {
      hide Place, Emptied, FlushLog, Stores, Kept, LetGo, Extends;
      ghost var r := View();
      if lockedSsrc == 0 {
        lockedSsrc := h.ssrc;
        NothingLet(r, View());
        if !accepted {
          NotKept(r, Let(View(), id, PropertyError), id, PropertyError);
          Refuse(id, PropertyError);
          return false;
        }
      } else if lockedSsrc != h.ssrc {
        var last := route.lastValidTime;
        if last == 0 || Sub64(now, last) <= ssrcInactive {
          NotKept(r, Let(r, id, Foreign), id, Foreign);
          Refuse(id, Foreign);
          return true;
        }
        SwitchKeeps(r, h.ssrc);
        TakeOver(h.ssrc);
        if !accepted {
          NotKept(r, Let(View(), id, PropertyError), id, PropertyError);
          Refuse(id, PropertyError);
          return false;
        }
      } else {
        NothingLet(r, r);
      }
      KeptIfStored(Cfg(), r, View(), id, h.sequence, now);
      PlaceBuffer(h.sequence, now, id);
      ok := true;
    }

    /** One buffer at the sink pad. `accepted` is whether the depayloader takes a new SSRC, true
        where there is none to ask; the result is whether the call succeeded. */
    method PushBuffer(bytes: seq<u8>, now: u64, accepted: bool) returns (ok: bool)
      requires Valid()
      modifies this`inPackets, this`parseFail
      modifies this`expected, this`haveExpected, this`lockedSsrc, this`output, this`released, this`lostGaps
      modifies this`latePackets, this`droppedOld, this`droppedDup, slots, skipped, route
      ensures Valid()
      ensures View() == Step(Cfg(), old(View()), Push(Arrival(bytes, now, old(route.lastValidTime), accepted)))
      ensures !ok <==> LetsGo(old(View()), View(), PropertyError)
      ensures route.lastValidTime ==
              if !probeOnly && Kept(old(View()), View()) then now else old(route.lastValidTime)
    {
      hide Accept, ParseRtp, Kept, LetsGo, LetGo;
      ghost var r, a := View(), Arrival(bytes, now, route.lastValidTime, accepted);
      var id := inPackets;
      inPackets := inPackets + 1;
      var parsed := ParseRtp(bytes);
      if parsed.None? {
        parseFail := parseFail + 1;
        Refuse(id, Unparseable);
        NotKept(r, View(), id, Unparseable);
        OneLet(r, View(), Unparseable, PropertyError);
        return true;
      }
      PropertyErrorExactly(Cfg(), r, a);
      ParsedSsrc(bytes);
      SameLetGo(r, Counting(r), Step(Cfg(), r, Push(a)));
      ok := AcceptBuffer(parsed.value, now, accepted, id, bytes);
    }

    method WatchdogDrain(now: u64)
      requires Valid()
      modifies this`expected, this`output, this`lostGaps, slots, skipped
      ensures Valid() && View() == Step(Cfg(), old(View()), Watchdog(now))
    {
      SkipGapIfTimedOut(now);
      DrainReady();
    }

    method Close()
      requires Valid()
      modifies this`released, this`haveExpected, slots
      ensures Valid() && View() == CloseStep(old(View()))
    {
      ReleaseAll(Closed);
      haveExpected := false;
    }
  }
}
