/** The control bar of the active rider's card. `startLap` and `stopLap` do not look at the
    entry's status themselves; the card decides which of them an operator can reach. */
module ActiveRiderCard {
  import opened Wrappers
  import opened Records
  import opened LapStats
  import opened ViewState
  import opened RaceContext

  /** Which buttons render, and whether the "Race Completed" banner shows instead. */
  datatype Controls = Controls(start: bool, stop: bool, resetLast: bool, disqualify: bool, finished: bool)

  const NoControls := Controls(false, false, false, false, false)

  /** The card for `activeRider`; no rider renders the empty state without any control. */
  function ControlsFor(rider: Option<ActiveRider>): (c: Controls)
    ensures rider.None? ==> c == NoControls
    ensures c.start <==> rider.Some? && (rider.value.entry.status == Ready || rider.value.entry.status == Queued)
    ensures c.stop <==> rider.Some? && rider.value.entry.status == Racing
    ensures c.resetLast <==> c.stop
    ensures c.disqualify <==> rider.Some? && (rider.value.entry.status == Racing || rider.value.entry.status == Ready
                                              || rider.value.entry.status == Queued)
    ensures c.finished <==> rider.Some? && rider.value.entry.status == Completed
  {
    match rider
    case None => NoControls
    case Some(me) =>
      var s := me.entry.status;
      var isRacing := s == Racing;
      var isReady := s == Ready;
      var isQueued := s == Queued;
      Controls(isReady || isQueued, isRacing, isRacing, isRacing || isReady || isQueued, s == Completed)
  }

  /** Start and Stop are never offered together, Disqualify is offered exactly when one of them
      is, and a completed, cancelled or disqualified entry offers no control at all. */
  lemma ControlsConsistent(rider: Option<ActiveRider>)
    ensures var c := ControlsFor(rider);
      && !(c.start && c.stop)
      && (c.disqualify <==> c.start || c.stop)
      && (c.finished ==> c == NoControls.(finished := true))
      && ((rider.Some? && (rider.value.entry.status == Cancelled || rider.value.entry.status == Disqualified))
          ==> c == NoControls)
  {
  }

  /** `{raceEntry.rounds_completed}/{activeRider.rounds || 1}`. */
  function RoundsShown(me: ActiveRider): (r: (int, int))
    ensures r.0 == me.entry.roundsCompleted
    ensures r.1 != 0 && (me.rounds != 0 ==> r.1 == me.rounds)
  {
    (me.entry.roundsCompleted, OrOne(Some(me.rounds)))
  }

  /** Once `startLap` has marked the rider `racing`, the card swaps Start for Stop and Reset. */
  lemma StartedOffersStop(me: ActiveRider, nowIso: Time)
    requires ControlsFor(Some(me)).start
    ensures ControlsFor(Some(me.(entry := me.entry.(status := Racing, startedAt := Some(nowIso)))))
      == Controls(false, true, true, true, false)
  {
  }

  /** After a recorded lap the card offers Stop again while rounds remain, and shows only the
      banner once they reach the quota; the rounds display then reads at least `n/n`. */
  lemma {:induction false} StoppedControls(me: ActiveRider, laps: seq<Lap>, lapId: int, lapTime: int, day: Day, now: Time)
    ensures var r := StopStep(me, laps, lapId, lapTime, day, now);
      var shown := RoundsShown(r.rider);
      && (r.complete ==> ControlsFor(Some(r.rider)) == NoControls.(finished := true) && shown.0 >= shown.1)
      && (!r.complete ==> ControlsFor(Some(r.rider)) == Controls(false, true, true, true, false) && shown.0 < shown.1)
  {
    StopStepFacts(me, laps, lapId, lapTime, day, now);
  }
}
