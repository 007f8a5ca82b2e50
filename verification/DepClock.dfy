/** Why a stable reading of the shared clock can be trusted: the writer brackets its updates of the
    period count and the time of that period with a flag, and the reader reads all three twice. */
module DepClock {
  import opened Words
  import opened DepTime
  import opened DepPeriodTimes

  /** The clock fields of the shared header at one moment. */
  datatype ClockFields = ClockFields(flags: u32, period: u64, time: u64)

  /** The seventeenth bit of the flags is set: an update is in progress. */
  predicate Updating(f: ClockFields) {
    f.flags % 0x2_0000 >= 0x1_0000
  }

  /** The fields from moment to moment: the period count and its time never go back. */
  predicate GoesOn(history: seq<ClockFields>) {
    forall i, j | 0 <= i <= j < |history| ::
      history[i].period <= history[j].period && history[i].time <= history[j].time
  }

  /** The moments of the six reads, one after the other. */
  predicate InTurn(at: seq<nat>, moments: nat) {
    |at| == 6 && (forall i, j | 0 <= i <= j < 6 :: at[i] <= at[j]) && at[5] < moments
  }

  /** What is read at those moments. */
  function ReadAt(history: seq<ClockFields>, at: seq<nat>): Reading
    requires InTurn(at, |history|)
  {
    Reading(history[at[0]].flags, history[at[1]].period, history[at[2]].time,
            history[at[3]].flags, history[at[4]].period, history[at[5]].time)
  }

  lemma UpdatingIsActive(f: ClockFields)
    ensures Updating(f) <==> WriteActive(f.flags)
  {
  }

  /** However the reads fall among the writes: a stable reading is of a period count and a time that
      stood there together at a moment when no update was in progress. */
  lemma StableIsConsistent(history: seq<ClockFields>, at: seq<nat>)
    requires GoesOn(history) && InTurn(at, |history|) && Stable(ReadAt(history, at))
    ensures var r, m := ReadAt(history, at), at[3];
            !Updating(history[m]) && history[m].period == r.period && history[m].time == r.time && r.time != 0
  {
    UpdatingIsActive(history[at[3]]);
    hide WriteActive, Updating;
  }

  /** And a reading that no update disturbs, of a clock that has been set, is stable. */
  lemma QuietIsStable(history: seq<ClockFields>, at: seq<nat>)
    requires InTurn(at, |history|) && !Updating(history[at[0]]) && history[at[0]].time != 0
    requires forall m | at[0] <= m <= at[5] :: history[m] == history[at[0]]
    ensures Stable(ReadAt(history, at))
  {
    UpdatingIsActive(history[at[0]]);
    hide WriteActive, Updating;
    assert forall i | 0 <= i < 6 :: history[at[i]] == history[at[0]];
  }

  /** A clock that is right whenever no update is in progress. */
  predicate KeepsTime(history: seq<ClockFields>, base: int, d: nat) {
    forall m | 0 <= m < |history| && !Updating(history[m]) && history[m].time != 0 ::
      history[m].time == ClockTime(base, d, history[m].period)
  }

  /** So every stable reading of it gives periods near enough exactly their time. */
  lemma StableReadingIsExact(
    history: seq<ClockFields>, at: seq<nat>, base: int, d: nat, p: u64, samples: u32, rate: u32, fallback: u64)
    requires GoesOn(history) && InTurn(at, |history|) && KeepsTime(history, base, d)
    requires samples > 0 && rate > 0 && samples * NS == d * rate
    requires var r := ReadAt(history, at);
             && Stable(r) && Distance(p, r.period) * samples <= MAX64 && Distance(p, r.period) * d <= MAX64
             && 0 <= ClockTime(base, d, p) <= MAX64
    ensures PeriodPts(ReadAt(history, at), p, samples, rate, fallback) == ClockTime(base, d, p)
  {
    StableIsConsistent(history, at);
    hide Stable, Updating, ClockTime, PeriodPts;
    ExactStamp(ReadAt(history, at), base, d, p, samples, rate, fallback);
  }
}
