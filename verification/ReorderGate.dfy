/** What one pushed buffer does, as its bytes and the element's fields decide: which SSRC is let
    in, when another may take over, and where the buffer goes. Stated on the fields alone. */
module ReorderGate {
  import opened Words
  import opened RtpHeader
  import opened ReorderRing

  /** What a step has let go, with its reasons. */
  function LetGo(r: Ring, t: Ring): seq<Release> {
    if |r.released| <= |t.released| then t.released[|r.released|..] else []
  }

  /** The packets let go before stay on record. */
  predicate Extends(r: Ring, t: Ring) {
    |r.released| <= |t.released| && t.released[..|r.released|] == r.released
  }

  /** Nothing has changed but the count of buffers and the record of this one. */
  predicate OnlyLet(r: Ring, t: Ring, reason: Reason) {
    t == r.(count := t.count, released := r.released + [Release(r.count.inPackets, reason)])
  }

  predicate OnlyPlacing(reason: Reason) {
    reason == Old || reason == Late || reason == Duplicate || reason == Evicted
  }

  /** What placing a packet lets go, it lets go for these reasons only. */
  predicate Places(r: Ring, t: Ring) {
    Extends(r, t) && t.lockedSsrc == r.lockedSsrc && t.haveExpected &&
    t.count.inPackets == r.count.inPackets && t.count.parseFail == r.count.parseFail &&
    forall k | 0 <= k < |LetGo(r, t)| :: OnlyPlacing(LetGo(r, t)[k].reason)
  }

  lemma InsertPlaces(cfg: Config, r: Ring, id: nat, sequence: u16, now: u64)
    requires Shaped(cfg, r) && r.haveExpected
    ensures Places(r, Insert(cfg, r, id, sequence, now))
  {
    hide Drain, Settle;
    var stored := Store(cfg, r, id, sequence, now);
    assert Places(r, stored);
  }

  lemma PlacePlaces(cfg: Config, r: Ring, id: nat, sequence: u16, now: u64)
    requires Shaped(cfg, r)
    ensures Places(r, Place(cfg, r, id, sequence, now))
  {
    hide Insert, Overflow;
    var r0 := Anchor(r, sequence);
    if Dist16(sequence, r0.expected) < 0x8000 {
      var s := Overflow(cfg, r0, sequence);
      InsertPlaces(cfg, s, id, sequence, now);
      assert LetGo(r, Insert(cfg, s, id, sequence, now)) == LetGo(s, Insert(cfg, s, id, sequence, now));
    }
  }

  /** A buffer without an RTP header is let go, and counted as such. */
  lemma UnparseableIsLet(cfg: Config, r: Ring, a: Arrival)
    requires Shaped(cfg, r) && ParseRtp(a.bytes).None?
    ensures var t := Step(cfg, r, Push(a));
            && OnlyLet(r, t, Unparseable)
            && t.count == r.count.(inPackets := r.count.inPackets + 1, parseFail := r.count.parseFail + 1)
  {
  }

  /** Another SSRC than the locked one, while packets of that have been seen and have not been
      missing for longer than the inactivity time. */
  predicate TooSoon(cfg: Config, r: Ring, a: Arrival, ssrc: u32) {
    && r.lockedSsrc != 0 && r.lockedSsrc != ssrc
    && (a.lastValid == 0 || (a.now - a.lastValid) % 0x1_0000_0000_0000_0000 <= cfg.ssrcInactive)
  }

  predicate LetsGo(r: Ring, t: Ring, reason: Reason) {
    exists k :: 0 <= k < |LetGo(r, t)| && LetGo(r, t)[k].reason == reason
  }

  lemma OneLet(r: Ring, t: Ring, reason: Reason, why: Reason)
    requires t.released == r.released + [Release(r.count.inPackets, reason)]
    ensures LetsGo(r, t, why) <==> why == reason
  {
    assert LetGo(r, t) == [Release(r.count.inPackets, reason)];
    if why == reason {
      assert LetGo(r, t)[0].reason == why;
    }
  }

  lemma PlacedLets(r: Ring, s: Ring, t: Ring, why: Reason)
    requires Places(s, t) && s.released == r.released && !OnlyPlacing(why)
    ensures !LetsGo(r, t, why)
  {
    assert LetGo(r, t) == LetGo(s, t);
  }

  /** The packet of another SSRC that comes too soon changes nothing, and no other packet is ever
      let go as foreign. */
  lemma ForeignExactly(cfg: Config, r: Ring, a: Arrival)
    requires Shaped(cfg, r) && ParseRtp(a.bytes).Some?
    ensures var t, ssrc := Step(cfg, r, Push(a)), ParseRtp(a.bytes).value.ssrc;
            && (TooSoon(cfg, r, a, ssrc) ==> OnlyLet(r, t, Foreign) && t.count == Counting(r).count)
            && (LetsGo(r, t, Foreign) <==> TooSoon(cfg, r, a, ssrc))
  {
    var h, id := ParseRtp(a.bytes).value, r.count.inPackets;
    hide ParseRtp, Place, FlushLog, LetsGo, Places;
    var t, r0 := Step(cfg, r, Push(a)), Counting(r);
    if TooSoon(cfg, r, a, h.ssrc) {
      OneLet(r, t, Foreign, Foreign);
    } else if r.lockedSsrc == 0 || r.lockedSsrc == h.ssrc {
      LockedStep(cfg, r, a, Foreign);
    } else {
      SwitchedStep(cfg, r, a, Foreign);
    }
  }

  /** The locked SSRC, or the first one: the packet is placed, unless the depayloader refuses the
      first one's SSRC. */
  lemma LockedStep(cfg: Config, r: Ring, a: Arrival, why: Reason)
    requires Shaped(cfg, r) && ParseRtp(a.bytes).Some? && !OnlyPlacing(why)
    requires r.lockedSsrc == 0 || r.lockedSsrc == ParseRtp(a.bytes).value.ssrc
    ensures var t, h := Step(cfg, r, Push(a)), ParseRtp(a.bytes).value;
            var locked := Counting(r).(lockedSsrc := h.ssrc);
            && t.lockedSsrc == h.ssrc
            && (if r.lockedSsrc == 0 && !a.accepted
                then t == locked.(released := r.released + [Release(r.count.inPackets, PropertyError)])
                else t == Place(cfg, locked, r.count.inPackets, h.sequence, a.now))
            && (LetsGo(r, t, why) <==> why == PropertyError && r.lockedSsrc == 0 && !a.accepted)
  {
    var h, id := ParseRtp(a.bytes).value, r.count.inPackets;
    hide ParseRtp, Place, FlushLog, LetsGo;
    var t, locked := Step(cfg, r, Push(a)), Counting(r).(lockedSsrc := h.ssrc);
    if r.lockedSsrc == 0 && !a.accepted {
      OneLet(r, t, PropertyError, why);
    } else {
      PlacePlaces(cfg, locked, id, h.sequence, a.now);
      PlacedLets(r, locked, t, why);
    }
  }

  /** A packet on a ring where none waits and none is expected: it is sent at once. */
  lemma FirstIsSent(cfg: Config, r: Ring, id: nat, s: u16, now: u64)
    requires Shaped(cfg, r) && !r.haveExpected && forall i | 0 <= i < |r.slots| :: r.slots[i].buffer.None?
    ensures Place(cfg, r, id, s, now) ==
            r.(slots := r.slots[s % cfg.window := Slot(None, s, now)], skipped := r.skipped[s := false],
               expected := Lo16(s + 1), haveExpected := true, output := r.output + [Emission(id, s)])
  {
    var anchored := Anchor(r, s);
    var stored := Store(cfg, anchored, id, s, now);
    var sent := Emit(cfg, stored);
    assert forall i | 0 <= i < |sent.slots| :: sent.slots[i].buffer.None?;
    assert Overflow(cfg, anchored, s) == anchored;
    assert Drain(cfg, sent) == sent && Drain(cfg, stored) == sent;
    assert SkipGap(cfg, sent, now) == sent;
  }

  lemma SwitchPlaces(cfg: Config, r: Ring, a: Arrival)
    requires Shaped(cfg, r) && ParseRtp(a.bytes).Some?
    requires var ssrc := ParseRtp(a.bytes).value.ssrc;
             r.lockedSsrc != 0 && r.lockedSsrc != ssrc && !TooSoon(cfg, r, a, ssrc)
    ensures var h, id := ParseRtp(a.bytes).value, r.count.inPackets;
            var s := SwitchSsrc(Counting(r), h.ssrc);
            Step(cfg, r, Push(a)) ==
            if a.accepted then Place(cfg, s, id, h.sequence, a.now)
            else s.(released := s.released + [Release(id, PropertyError)])
  {
    hide ParseRtp, Place, FlushLog, Emptied;
  }

  lemma SwitchedIs(cfg: Config, r: Ring, a: Arrival)
    requires Shaped(cfg, r) && ParseRtp(a.bytes).Some?
    requires var ssrc := ParseRtp(a.bytes).value.ssrc;
             r.lockedSsrc != 0 && r.lockedSsrc != ssrc && !TooSoon(cfg, r, a, ssrc)
    ensures var h, id := ParseRtp(a.bytes).value, r.count.inPackets;
            var s := SwitchSsrc(Counting(r), h.ssrc);
            Step(cfg, r, Push(a)) ==
            if a.accepted then
              s.(slots := s.slots[h.sequence % cfg.window := Slot(None, h.sequence, a.now)],
                 skipped := s.skipped[h.sequence := false], expected := Lo16(h.sequence + 1), haveExpected := true,
                 output := s.output + [Emission(id, h.sequence)])
            else s.(released := s.released + [Release(id, PropertyError)])
  {
    hide ParseRtp, Place, FlushLog, Step, TooSoon, Lo16;
    SwitchPlaces(cfg, r, a);
    var h := ParseRtp(a.bytes).value;
    FirstIsSent(cfg, SwitchSsrc(Counting(r), h.ssrc), r.count.inPackets, h.sequence, a.now);
  }

  lemma {:induction false} FlushLets(slots: seq<Slot>, n: nat)
    requires n <= |slots|
    ensures forall k | 0 <= k < |FlushLog(slots, n, Flushed)| :: FlushLog(slots, n, Flushed)[k].reason == Flushed
    ensures forall id: nat :: Release(id, Flushed) in FlushLog(slots, n, Flushed) <==>
                         exists i :: 0 <= i < n && slots[i].buffer == Some(id)
  {
    if n > 0 {
      FlushLets(slots, n - 1);
      forall id: nat
        ensures Release(id, Flushed) in FlushLog(slots, n, Flushed) <==>
                exists i :: 0 <= i < n && slots[i].buffer == Some(id)
      {
        if slots[n - 1].buffer == Some(id) {
          assert Release(id, Flushed) in FlushLog(slots, n, Flushed);
        }
      }
    }
  }

  lemma SwitchedStep(cfg: Config, r: Ring, a: Arrival, why: Reason)
    requires Shaped(cfg, r) && ParseRtp(a.bytes).Some? && why != Flushed
    requires var ssrc := ParseRtp(a.bytes).value.ssrc;
             r.lockedSsrc != 0 && r.lockedSsrc != ssrc && !TooSoon(cfg, r, a, ssrc)
    ensures LetsGo(r, Step(cfg, r, Push(a)), why) <==> why == PropertyError && !a.accepted
  {
    SwitchedIs(cfg, r, a);
    FlushLets(r.slots, |r.slots|);
    hide ParseRtp, FlushLog, Step, TooSoon, Emptied;
    var t, log := Step(cfg, r, Push(a)), FlushLog(r.slots, |r.slots|, Flushed);
    if a.accepted {
      assert LetGo(r, t) == log;
    } else {
      assert LetGo(r, t) == log + [Release(r.count.inPackets, PropertyError)];
      assert LetGo(r, t)[|log|].reason == PropertyError;
    }
  }

  /** Another SSRC after the inactivity time takes over: every waiting packet is flushed and no
      other, and the newcomer is sent at once and begins an epoch of its own, unless the
      depayloader refuses its SSRC. */
  lemma TakesOver(cfg: Config, r: Ring, a: Arrival)
    requires Shaped(cfg, r) && ParseRtp(a.bytes).Some?
    requires var ssrc := ParseRtp(a.bytes).value.ssrc;
             && r.lockedSsrc != 0 && r.lockedSsrc != ssrc && a.lastValid != 0
             && (a.now - a.lastValid) % 0x1_0000_0000_0000_0000 > cfg.ssrcInactive
    ensures var t, h, id := Step(cfg, r, Push(a)), ParseRtp(a.bytes).value, r.count.inPackets;
            && t.lockedSsrc == h.ssrc && Extends(r, t)
            && (forall i | 0 <= i < |t.slots| :: t.slots[i].buffer.None?)
            && (forall other: nat :: Release(other, Flushed) in LetGo(r, t) <==>
                                exists i :: 0 <= i < |r.slots| && r.slots[i].buffer == Some(other))
            && t.count == Counting(r).count
            && (if a.accepted then
                  && t.haveExpected && t.expected == Lo16(h.sequence + 1)
                  && t.output == r.output + [Emission(id, h.sequence)]
                  && t.skipped == r.skipped[h.sequence := false]
                else
                  && !t.haveExpected && t.output == r.output && t.skipped == r.skipped
                  && Release(id, PropertyError) in LetGo(r, t))
  {
    SwitchedIs(cfg, r, a);
    FlushLets(r.slots, |r.slots|);
    hide ParseRtp, FlushLog, Step;
    var t, log := Step(cfg, r, Push(a)), FlushLog(r.slots, |r.slots|, Flushed);
    if a.accepted {
      assert LetGo(r, t) == log;
    } else {
      assert LetGo(r, t) == log + [Release(r.count.inPackets, PropertyError)];
    }
  }

  /** Only the first packet of an SSRC, from an open element or at a take-over, asks the
      depayloader, and only then is it refused for that. */
  lemma PropertyErrorExactly(cfg: Config, r: Ring, a: Arrival)
    requires Shaped(cfg, r) && ParseRtp(a.bytes).Some?
    ensures var t, ssrc := Step(cfg, r, Push(a)), ParseRtp(a.bytes).value.ssrc;
            && (LetsGo(r, t, PropertyError) <==>
                  !a.accepted && r.lockedSsrc != ssrc && !TooSoon(cfg, r, a, ssrc))
            && t.lockedSsrc == (if TooSoon(cfg, r, a, ssrc) then r.lockedSsrc else ssrc)
  {
    var h := ParseRtp(a.bytes).value;
    ParsedSsrc(a.bytes);
    hide ParseRtp, Place, FlushLog, LetsGo;
    if TooSoon(cfg, r, a, h.ssrc) {
      OneLet(r, Step(cfg, r, Push(a)), Foreign, PropertyError);
    } else if r.lockedSsrc == 0 || r.lockedSsrc == h.ssrc {
      LockedStep(cfg, r, a, PropertyError);
    } else {
      SwitchedStep(cfg, r, a, PropertyError);
      SwitchedIs(cfg, r, a);
    }
  }

  lemma ParsedSsrc(bytes: seq<u8>)
    ensures ParseRtp(bytes).Some? ==> ParseRtp(bytes).value.ssrc != 0
  {
  }

  // When a push counts as a sign of life of the stream.

  predicate Waiting(cfg: Config, r: Ring, sequence: u16)
    requires Shaped(cfg, r)
  {
    var slot := r.slots[sequence % cfg.window];
    slot.buffer.Some? && slot.sequence == sequence
  }

  /** The packet ends up in a slot, if only to be sent at once. */
  predicate Stores(cfg: Config, r: Ring, sequence: u16)
    requires Shaped(cfg, r)
  {
    var r0 := Anchor(r, sequence);
    Dist16(sequence, r0.expected) < 0x8000 && !Waiting(cfg, Overflow(cfg, r0, sequence), sequence)
  }

  /** Whatever was let go was waiting before: the packet itself was kept. */
  predicate Kept(r: Ring, t: Ring) {
    forall k | 0 <= k < |LetGo(r, t)| :: LetGo(r, t)[k].reason == Evicted || LetGo(r, t)[k].reason == Flushed
  }

  lemma PlaceKept(cfg: Config, r: Ring, id: nat, sequence: u16, now: u64)
    requires Shaped(cfg, r)
    ensures Kept(r, Place(cfg, r, id, sequence, now)) <==> Stores(cfg, r, sequence)
  {
    hide Overflow, Drain, Settle;
    var r0, t := Anchor(r, sequence), Place(cfg, r, id, sequence, now);
    if Dist16(sequence, r0.expected) >= 0x8000 {
      assert LetGo(r, t)[0].reason != Evicted && LetGo(r, t)[0].reason != Flushed;
    } else {
      var s := Overflow(cfg, r0, sequence);
      if Waiting(cfg, s, sequence) {
        assert LetGo(r, t) == [Release(id, Duplicate)];
        assert LetGo(r, t)[0].reason == Duplicate;
      } else {
        var stored := Store(cfg, s, id, sequence, now);
        assert LetGo(r, t) == LetGo(s, stored);
      }
    }
  }

  /** Up to `s` only waiting packets were let go. */
  lemma KeptAfter(r: Ring, s: Ring, t: Ring)
    requires Extends(r, s) && Kept(r, s) && Extends(s, t)
    ensures Kept(r, t) <==> Kept(s, t)
  {
    assert LetGo(r, t) == LetGo(r, s) + LetGo(s, t);
    if Kept(r, t) {
      forall k | 0 <= k < |LetGo(s, t)|
        ensures LetGo(s, t)[k].reason == Evicted || LetGo(s, t)[k].reason == Flushed
      {
        assert LetGo(s, t)[k] == LetGo(r, t)[|LetGo(r, s)| + k];
      }
    }
  }

  lemma KeptIfStored(cfg: Config, r: Ring, s: Ring, id: nat, sequence: u16, now: u64)
    requires Shaped(cfg, s) && Extends(r, s) && Kept(r, s)
    ensures Kept(r, Place(cfg, s, id, sequence, now)) <==> Stores(cfg, s, sequence)
  {
    hide Place, Kept, Stores, Extends;
    PlaceKept(cfg, s, id, sequence, now);
    PlaceExtends(cfg, s, id, sequence, now);
    KeptAfter(r, s, Place(cfg, s, id, sequence, now));
  }

  lemma NothingLet(r: Ring, t: Ring)
    requires t.released == r.released
    ensures Extends(r, t) && Kept(r, t)
  {
  }

  lemma SameLetGo(r: Ring, s: Ring, t: Ring)
    requires s.released == r.released
    ensures LetGo(r, t) == LetGo(s, t) && Kept(r, t) == Kept(s, t)
  {
  }

  /** The packet itself was let go for one of the other reasons. */
  lemma NotKept(r: Ring, t: Ring, id: nat, reason: Reason)
    requires |t.released| > |r.released| && t.released[|t.released| - 1] == Release(id, reason)
    requires reason != Evicted && reason != Flushed
    ensures !Kept(r, t)
  {
    assert LetGo(r, t)[|LetGo(r, t)| - 1].reason == reason;
  }

  lemma SwitchKeeps(r: Ring, ssrc: u32)
    ensures Extends(r, SwitchSsrc(r, ssrc)) && Kept(r, SwitchSsrc(r, ssrc))
  {
    hide Emptied;
    FlushLets(r.slots, |r.slots|);
    assert LetGo(r, SwitchSsrc(r, ssrc)) == FlushLog(r.slots, |r.slots|, Flushed);
  }

  lemma PlaceExtends(cfg: Config, r: Ring, id: nat, sequence: u16, now: u64)
    requires Shaped(cfg, r)
    ensures Extends(r, Place(cfg, r, id, sequence, now))
  {
    hide Place;
    PlacePlaces(cfg, r, id, sequence, now);
  }
}
