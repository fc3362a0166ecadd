/** The provider's local state and the reducer that is the only way it changes. */
module ViewState {
  import opened Wrappers
  import opened Records
  import opened LapStats
  import opened RaceQueue

  /** `state.activeRider`: the rider shown in the control panel, with `rounds` already defaulted. */
  datatype ActiveRider = ActiveRider(
    regId: RegId, code: string, fullName: string, enrollmentNo: Option<string>, college: string,
    rounds: int, entry: EntryView)

  /** A toast message and whether it reports success (`'success'`) or an error. */
  datatype Toast = Toast(message: string, success: bool)

  datatype State = State(
    queue: seq<QueueItem>, activeRider: Option<ActiveRider>, laps: seq<Lap>,
    toast: Option<Toast>, loading: bool)

  const Initial := State([], None, [], None, false)

  datatype Action =
    | SetQueue(queue: seq<QueueItem>)
    | SetActiveRider(rider: Option<ActiveRider>)
    | SetLaps(laps: seq<Lap>)
    | AddLap(lap: Lap)
    | UpdateLap(lapPatch: LapPatch)
    | SetToast(toast: Option<Toast>)
    | SetLoading(loading: bool)
    | UpdateActiveRaceEntry(entryPatch: Patch)
    | Unknown(kind: string)

  /** `reducer(state, action)`. */
  function Reduce(s: State, a: Action): (r: State)
    ensures !a.SetQueue? ==> r.queue == s.queue
    ensures !a.SetActiveRider? && !a.UpdateActiveRaceEntry? ==> r.activeRider == s.activeRider
    ensures !a.SetLaps? && !a.AddLap? && !a.UpdateLap? ==> r.laps == s.laps
    ensures !a.SetToast? ==> r.toast == s.toast
    ensures !a.SetLoading? ==> r.loading == s.loading
    ensures r.activeRider.Some? ==> a.SetActiveRider? || s.activeRider.Some?
    ensures a.UpdateActiveRaceEntry? && s.activeRider.Some? ==>
      r.activeRider.Some? && r.activeRider.value == s.activeRider.value.(entry := r.activeRider.value.entry)
  {
    match a
    case SetQueue(q) => s.(queue := q)
    case SetActiveRider(rider) => s.(activeRider := rider)
    case SetLaps(l) => s.(laps := l)
    case AddLap(l) => s.(laps := s.laps + [l])
    case UpdateLap(p) => s.(laps := PatchLaps(s.laps, p))
    case SetToast(t) => s.(toast := t)
    case SetLoading(b) => s.(loading := b)
    case UpdateActiveRaceEntry(p) =>
      if s.activeRider.None? then s
      else s.(activeRider := Some(s.activeRider.value.(entry := ApplyToView(s.activeRider.value.entry, p))))
    case Unknown(_) => s
  }

  /** Each action changes only the part of the state it names: `ADD_LAP` appends,
      `UPDATE_LAP` merges into the laps with the payload's id and no other, and
      `UPDATE_ACTIVE_RACE_ENTRY` does nothing when no rider is active. Unknown actions change nothing. */
  lemma ReduceChangesOnlyItsTarget(s: State, a: Action)
    ensures a.SetQueue? ==> Reduce(s, a) == s.(queue := a.queue)
    ensures a.SetActiveRider? ==> Reduce(s, a) == s.(activeRider := a.rider)
    ensures a.SetLaps? ==> Reduce(s, a) == s.(laps := a.laps)
    ensures a.SetToast? ==> Reduce(s, a) == s.(toast := a.toast)
    ensures a.SetLoading? ==> Reduce(s, a) == s.(loading := a.loading)
    ensures a.AddLap? ==>
      Reduce(s, a) == s.(laps := Reduce(s, a).laps) && |Reduce(s, a).laps| == |s.laps| + 1
      && Reduce(s, a).laps[..|s.laps|] == s.laps && Reduce(s, a).laps[|s.laps|] == a.lap
    ensures a.UpdateLap? ==>
      Reduce(s, a) == s.(laps := Reduce(s, a).laps) && |Reduce(s, a).laps| == |s.laps|
      && forall i :: 0 <= i < |s.laps| ==>
           (s.laps[i].id != a.lapPatch.id ==> Reduce(s, a).laps[i] == s.laps[i])
           && (s.laps[i].id == a.lapPatch.id ==> Reduce(s, a).laps[i] == MergeLap(s.laps[i], a.lapPatch))
    ensures a.UpdateActiveRaceEntry? && s.activeRider.None? ==> Reduce(s, a) == s
    ensures a.UpdateActiveRaceEntry? && s.activeRider.Some? ==>
      Reduce(s, a) == s.(activeRider := Some(s.activeRider.value.(entry := ApplyToView(s.activeRider.value.entry, a.entryPatch))))
    ensures a.Unknown? ==> Reduce(s, a) == s
  {
  }

  /** The same `UPDATE_LAP` dispatched twice leaves the state as one dispatch does. */
  lemma UpdateLapIdempotent(s: State, p: LapPatch)
    ensures Reduce(Reduce(s, UpdateLap(p)), UpdateLap(p)) == Reduce(s, UpdateLap(p))
  {
    PatchLapsIdempotent(s.laps, p);
  }

  /** `ADD_LAP` of a valid lap adds exactly that lap to the valid laps. */
  lemma AddLapExtendsValid(s: State, l: Lap)
    requires l.valid
    ensures ValidLaps(Reduce(s, AddLap(l)).laps) == ValidLaps(s.laps) + [l]
  {
    ValidLapsAppend(s.laps, l);
  }

  /** An `UPDATE_ACTIVE_RACE_ENTRY` that writes no status keeps the active rider's status. */
  lemma EntryPatchKeepsStatus(s: State, p: Patch)
    requires p.status.None?
    ensures var r := Reduce(s, UpdateActiveRaceEntry(p));
      (r.activeRider.Some? <==> s.activeRider.Some?)
      && (s.activeRider.Some? ==> r.activeRider.value.entry.status == s.activeRider.value.entry.status)
  {
  }
}
