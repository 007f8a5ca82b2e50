/** A run through a change of SSRC in which a packet of the new stream is counted late although
    nothing of that stream was given up: the table still holds a mark of the old stream. */
module ReorderSwitched {
  import opened Words
  import opened RtpHeader
  import opened ReorderRing
  import opened ReorderUnwrapped
  import opened ReorderOrder

  const ONE := Config(1, 10, 500)

  function ArrivalFrom(ssrc: u8, s: u8, now: u64): Arrival {
    Arrival(Bare(s, ssrc), now, 1, true)
  }

  function From(ssrc: u8, s: u8, now: u64): Event {
    Push(ArrivalFrom(ssrc, s, now))
  }

  /** Stream 1 loses packet 1; much later stream 2 begins with 2, and its packet 1 follows. */
  const SWITCHED := [From(1, 0, 0), From(1, 2, 0), From(2, 2, 1000), From(2, 1, 1000)]

  lemma StepAccepts(r: Ring, ssrc: u8, s: u8, now: u64)
    requires Shaped(ONE, r) && ssrc != 0
    ensures var a, id := ArrivalFrom(ssrc, s, now), r.count.inPackets;
            && Step(ONE, r, From(ssrc, s, now)) == Accept(ONE, Counting(r), id, Header(s, ssrc), a)
            && StepGuard(ONE, r, From(ssrc, s, now)) == AcceptGuard(ONE, Counting(r), id, Header(s, ssrc), a)
  {
    hide Bare, Accept, AcceptGuard, Counting;
    BareParses(s, ssrc);
  }

  predicate Vacant(r: Ring) {
    Shaped(ONE, r) && r.slots[0].buffer.None?
  }

  lemma SettleVacant(r: Ring, now: u64)
    requires Vacant(r)
    ensures Drain(ONE, r) == r && Settle(ONE, r, now) == r && NothingNearer(ONE, r.slots, r.expected, now)
  {
    assert Nearest(ONE, r.slots, r.expected, now, 0) == None;
    assert !TimedOut(ONE, r.slots[0], now);
  }

  /** With a window of one a packet at the expected number is sent at once. */
  lemma SentAtOnce(r: Ring, id: nat, s: u16, now: u64)
    requires Vacant(r) && r.haveExpected && r.expected == s
    ensures var t := Insert(ONE, r, id, s, now);
            && Vacant(t) && t.haveExpected && t.expected == Lo16(s + 1) && t.lockedSsrc == r.lockedSsrc
            && t.count == r.count && t.skipped == r.skipped[s := false]
    ensures InsertGuard(ONE, r, id, s, now)
  {
    var stored := Store(ONE, r, id, s, now);
    var sent := Emit(ONE, stored);
    SettleVacant(sent, now);
    assert Drain(ONE, stored) == sent;
  }

  /** What the run depends on. */
  predicate Now(r: Ring, ssrc: u32, expected: u16, gaps: nat, late: nat) {
    && Vacant(r) && r.haveExpected && r.lockedSsrc == ssrc && r.expected == expected
    && r.count.lostGaps == gaps && r.count.latePackets == late
  }

  lemma First(r: Ring)
    requires r == Opened(ONE)
    ensures StepGuard(ONE, r, From(1, 0, 0)) && Now(Step(ONE, r, From(1, 0, 0)), 1, 1, 0, 0)
  {
    hide Bare, ParseRtp, Step, StepGuard, From, Insert, InsertGuard;
    StepAccepts(r, 1, 0, 0);
    var locked := Anchor(Counting(r).(lockedSsrc := 1), 0);
    SentAtOnce(locked, 0, 0, 0);
  }

  lemma Second(r: Ring)
    requires Now(r, 1, 1, 0, 0)
    ensures StepGuard(ONE, r, From(1, 2, 0))
    ensures var t := Step(ONE, r, From(1, 2, 0)); Now(t, 1, 3, 1, 0) && t.skipped[1]
  {
    hide Bare, ParseRtp, Step, StepGuard, From, Insert, InsertGuard;
    StepAccepts(r, 1, 2, 0);
    var moved := SkipExpected(ONE, Counting(r));
    assert Overflow(ONE, moved, 2) == moved;
    assert Overflow(ONE, Counting(r), 2) == moved;
    SentAtOnce(moved, r.count.inPackets, 2, 0);
  }

  lemma Third(r: Ring)
    requires Now(r, 1, 3, 1, 0) && r.skipped[1]
    ensures StepGuard(ONE, r, From(2, 2, 1000))
    ensures var t := Step(ONE, r, From(2, 2, 1000)); Now(t, 2, 3, 1, 0) && t.skipped[1]
  {
    hide Bare, ParseRtp, Step, StepGuard, From, Insert, InsertGuard;
    StepAccepts(r, 2, 2, 1000);
    var switched := Anchor(SwitchSsrc(Counting(r), 2), 2);
    assert Overflow(ONE, switched, 2) == switched;
    SentAtOnce(switched, r.count.inPackets, 2, 1000);
  }

  lemma Fourth(r: Ring)
    requires Now(r, 2, 3, 1, 0) && r.skipped[1]
    ensures StepGuard(ONE, r, From(2, 1, 1000))
    ensures Now(Step(ONE, r, From(2, 1, 1000)), 2, 3, 1, 1)
  {
    hide Bare, ParseRtp, Step, StepGuard, From, Insert, InsertGuard;
    StepAccepts(r, 2, 1, 1000);
  }

  lemma OneMore(events: seq<Event>, k: nat)
    requires k < |events|
    ensures Run(ONE, Opened(ONE), events[..k + 1]) == Step(ONE, Run(ONE, Opened(ONE), events[..k]), events[k])
    ensures RunGuard(ONE, events[..k + 1]) <==>
            RunGuard(ONE, events[..k]) && StepGuard(ONE, Run(ONE, Opened(ONE), events[..k]), events[k])
  {
    hide Step, StepGuard;
    assert events[..k + 1][..k] == events[..k];
  }

  lemma OldStream()
    ensures RunGuard(ONE, SWITCHED[..2])
    ensures var r := Run(ONE, Opened(ONE), SWITCHED[..2]); Now(r, 1, 3, 1, 0) && r.skipped[1]
  {
    OneMore(SWITCHED, 0);
    OneMore(SWITCHED, 1);
    assert SWITCHED[..0] == [] && RunGuard(ONE, []) && Run(ONE, Opened(ONE), []) == Opened(ONE);
    hide Step, StepGuard, Run, RunGuard, From, Opened, Vacant;
    First(Opened(ONE));
    Second(Run(ONE, Opened(ONE), SWITCHED[..1]));
  }

  lemma NewStream()
    ensures RunGuard(ONE, SWITCHED[..4]) && Now(Run(ONE, Opened(ONE), SWITCHED[..4]), 2, 3, 1, 1)
  {
    hide Step, StepGuard, Run, RunGuard, From, Opened, Vacant;
    OldStream();
    OneMore(SWITCHED, 2);
    OneMore(SWITCHED, 3);
    Third(Run(ONE, Opened(ONE), SWITCHED[..2]));
    Fourth(Run(ONE, Opened(ONE), SWITCHED[..3]));
  }

  /** The second stream begins after two packets and gives nothing up, yet its packet 1, which it
      never missed, is counted late. */
  lemma LeftoverMarkIsCounted()
    ensures RunGuard(ONE, SWITCHED)
    ensures var began, r := Run(ONE, Opened(ONE), SWITCHED[..2]), Run(ONE, Opened(ONE), SWITCHED);
            && began.lockedSsrc == 1 && r.lockedSsrc == 2
            && r.count.lostGaps == began.count.lostGaps
            && r.count.latePackets == began.count.latePackets + 1
  {
    hide Run, RunGuard, From, Opened;
    OldStream();
    NewStream();
    assert SWITCHED[..4] == SWITCHED;
  }
}
