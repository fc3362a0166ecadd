/** The race-control provider: each callback of the context is a method that reads and writes
    the store, dispatches to the reducer and starts or stops the stopwatch.

    Every write whose error the code inspects takes a flag saying whether the store accepted it;
    a refused write ends the callback (the error toast becomes the returned `Outcome`). A write
    whose error the code ignores takes a flag that only decides whether the store changed. The
    clock readings (`new Date().toISOString()` and `Date.now()`) are parameters, one per reading. */
module RaceContext {
  import opened Wrappers
  import opened Seqs
  import opened Records
  import opened LapStats
  import opened RaceQueue
  import opened RiderLookup
  import opened ViewState
  import opened RaceStore

  /** Which toast a callback ends with, or that it returned early without one. */
  datatype Outcome =
    | Ignored          // returned before doing anything
    | NotFound         // "Search failed for ..."
    | Ineligible       // "User not eligible or payment incomplete"
    | AlreadyCompleted // "Rider already completed their race"
    | AlreadyActive    // "Rider is already in the queue / racing"
    | TrackOccupied    // "Another rider is currently racing. Stop them first."
    | StoreFailure     // "Failed to ...: <error>"
    | Done             // the success toast, or no toast at all

  /** `{ race_status: 'queued', queued_at: now }`. */
  function RequeuePatch(now: Time): Patch {
    NoChange.(status := Some(Queued), queuedAt := Some(now))
  }

  /** `startLap`'s store update: racing, keeping the start time the local copy has. */
  function StartPatch(startedAt: Option<Time>, now: Time): Patch {
    NoChange.(status := Some(Racing), startedAt := Some(startedAt.GetOr(now)))
  }

  /** `stopLap`'s `updateData`. */
  function StopPatch(st: Stats, complete: bool, now: Time): Patch {
    NoChange.(roundsCompleted := Some(st.rounds), best := Some(st.best), avg := Some(st.avg),
              status := Some(if complete then Completed else Racing),
              completedAt := if complete then Some(now) else None)
  }

  /** The values `stopLap` computes once its lap insert succeeded: the new lap, the local lap list
      after `ADD_LAP`, the statistics over the valid laps, whether the race is over, the entry
      update and the rider as `UPDATE_ACTIVE_RACE_ENTRY` leaves it. */
  datatype LapStop = LapStop(lap: Lap, laps: seq<Lap>, stats: Stats, complete: bool, patch: Patch,
                             rider: ActiveRider)

  function StopStep(me: ActiveRider, laps: seq<Lap>, lapId: int, lapTime: int, day: Day, now: Time): (r: LapStop)
    ensures r.lap.lapNumber == |ValidLaps(laps)| + 1 && r.lap.valid && r.laps == laps + [r.lap]
    ensures r.stats.rounds == |ValidLaps(laps)| + 1
    ensures r.complete <==> |ValidLaps(laps)| + 1 >= OrOne(Some(me.rounds))
    ensures r.rider.regId == me.regId && r.rider.entry.roundsCompleted == r.stats.rounds
    ensures r.rider.entry.status == (if r.complete then Completed else Racing)
  {
    var lap := Lap(lapId, me.regId, day, |ValidLaps(laps)| + 1, lapTime, true);
    var st := StatsOf(ValidLaps(laps) + [lap]);
    var complete := st.rounds >= OrOne(Some(me.rounds));
    var p := StopPatch(st, complete, now);
    LapStop(lap, laps + [lap], st, complete, p, me.(entry := ApplyToView(me.entry, p)))
  }

  /** What `stopLap` promises about the lap it records and the entry it writes: the lap gets the
      next number among the valid laps, it is appended to the valid laps, the counters agree with the
      valid laps afterwards, and the race completes exactly when the rounds reach the rider's quota. */
  lemma StopStepFacts(me: ActiveRider, laps: seq<Lap>, lapId: int, lapTime: int, day: Day, now: Time)
    ensures var r := StopStep(me, laps, lapId, lapTime, day, now);
      && r.lap == Lap(lapId, me.regId, day, |ValidLaps(laps)| + 1, lapTime, true)
      && r.laps == laps + [r.lap] && ValidLaps(r.laps) == ValidLaps(laps) + [r.lap]
      && r.patch == StopPatch(r.stats, r.complete, now)
      && r.rider == me.(entry := r.rider.entry)
      && r.rider.entry == ApplyToView(me.entry, r.patch)
      && r.rider.entry.roundsCompleted == |ValidLaps(laps)| + 1
      && StatsAgree(r.rider.entry, r.laps)
      && (r.complete <==> r.rider.entry.roundsCompleted >= OrOne(Some(me.rounds)))
      && r.rider.entry.status == (if r.complete then Completed else Racing)
      && r.rider.entry.completedAt == (if r.complete then Some(now) else me.entry.completedAt)
      && r.rider.entry.startedAt == me.entry.startedAt
      && (r.patch.status == Some(Racing) <==> !r.complete)
  {
    ValidLapsAppend(laps, Lap(lapId, me.regId, day, |ValidLaps(laps)| + 1, lapTime, true));
  }

  /** `invalidateLap`'s update: the three counters and nothing else. */
  function CountersPatch(st: Stats): Patch {
    NoChange.(roundsCompleted := Some(st.rounds), best := Some(st.best), avg := Some(st.avg))
  }

  /** `editLapTime`'s update: best and average only. */
  function BestAvgPatch(st: Stats): Patch {
    NoChange.(best := Some(st.best), avg := Some(st.avg))
  }

  function InvalidPatch(lapId: int): LapPatch { LapPatch(lapId, Some(false), None) }

  function TimePatch(lapId: int, ms: int): LapPatch { LapPatch(lapId, None, Some(ms)) }

  /** The registration ids of the `racing` rows (`racingNow`). */
  function RacingIds(rows: seq<Entry>): (s: set<RegId>)
    ensures forall id :: id in s <==> exists i :: 0 <= i < |rows| && rows[i].status == Racing && rows[i].regId == id
  {
    set i | 0 <= i < |rows| && rows[i].status == Racing :: rows[i].regId
  }

  /** After every row of `id` gets a status other than `racing`, `id` is not racing. */
  lemma StatusLeavesNotRacing(rows: seq<Entry>, id: RegId, st: Status)
    requires st != Racing
    ensures id !in RacingIds(UpdateWhere(rows, ByReg(id), StatusPatch(st)))
  {
    var r := UpdateWhere(rows, ByReg(id), StatusPatch(st));
    assert forall i :: 0 <= i < |r| && r[i].regId == id ==> r[i].status == st;
  }

  datatype ScanResult = ScanResult(outcome: Outcome, rows: seq<Entry>)

  /** What `scanRider` does to `race_entries`, and the toast it ends with. */
  function Scan(regs: seq<Registration>, rows: seq<Entry>, raw: string, now: Time, day: Day, writeOk: bool): (r: ScanResult)
    ensures var reg := Lookup(regs, raw);
      && (reg.None? ==> r.outcome == NotFound)
      && (reg.Some? && !Eligible(reg.value) ==> r.outcome == Ineligible)
      && (reg.Some? && Eligible(reg.value) ==>
            var id := reg.value.id;
            var act := Decide(Single(rows, id));
            && (act == RejectCompleted ==> r.outcome == AlreadyCompleted)
            && (act == RejectActive ==> r.outcome == AlreadyActive)
            && (act == InsertNew || act == Requeue ==> r.outcome == if writeOk then Done else StoreFailure)
            && (act == InsertNew && writeOk ==> r.rows == rows + [NewEntry(id, day, now)])
            && (act == Requeue && writeOk ==> r.rows == UpdateWhere(rows, ByReg(id), RequeuePatch(now))))
    ensures r.outcome != Done ==> r.rows == rows
    ensures OneRacingRider(rows) ==> OneRacingRider(r.rows)
  {
    var reg := Lookup(regs, raw);
    if reg.None? then ScanResult(NotFound, rows)
    else if !Eligible(reg.value) then ScanResult(Ineligible, rows)
    else
      var id := reg.value.id;
      match Decide(Single(rows, id))
      case RejectCompleted => ScanResult(AlreadyCompleted, rows)
      case RejectActive => ScanResult(AlreadyActive, rows)
      case InsertNew =>
        if !writeOk then ScanResult(StoreFailure, rows)
        else
          AppendNotRacing(rows, NewEntry(id, day, now), id);
          ScanResult(Done, rows + [NewEntry(id, day, now)])
      case Requeue =>
        if !writeOk then ScanResult(StoreFailure, rows)
        else
          UpdateNotRacing(rows, ByReg(id), RequeuePatch(now), id);
          ScanResult(Done, UpdateWhere(rows, ByReg(id), RequeuePatch(now)))
  }

  /** Scanning the same rider again right after a scan that queued them is refused, as long as the
      rider had at most one row: their one row is now `queued`. */
  lemma ScanTwiceRefused(regs: seq<Registration>, rows: seq<Entry>, raw: string, now: Time, day: Day,
                         now2: Time, day2: Day, writeOk2: bool)
    requires Lookup(regs, raw).Some? && Eligible(Lookup(regs, raw).value)
    requires |Filter(rows, ByReg(Lookup(regs, raw).value.id))| <= 1
    requires Scan(regs, rows, raw, now, day, true).outcome == Done
    ensures Scan(regs, Scan(regs, rows, raw, now, day, true).rows, raw, now2, day2, writeOk2).outcome == AlreadyActive
  {
    var id := Lookup(regs, raw).value.id;
    var after := Scan(regs, rows, raw, now, day, true).rows;
    if |Filter(rows, ByReg(id))| == 0 {
      FilterAppend(rows, [NewEntry(id, day, now)], ByReg(id));
      assert [NewEntry(id, day, now)][1..] == [];
      assert Filter(after, ByReg(id)) == [NewEntry(id, day, now)];
    } else {
      UpdateOwnFilter(rows, id, RequeuePatch(now));
      assert Filter(after, ByReg(id))[0] == ApplyToEntry(Filter(rows, ByReg(id))[0], RequeuePatch(now));
    }
  }

  /** Filtering a rider's rows after patching them gives their patched rows. */
  lemma {:induction false} UpdateOwnFilter(rows: seq<Entry>, id: RegId, p: Patch)
    ensures var after := Filter(UpdateWhere(rows, ByReg(id), p), ByReg(id));
      var before := Filter(rows, ByReg(id));
      |after| == |before| && forall k :: 0 <= k < |before| ==> after[k] == ApplyToEntry(before[k], p)
    decreases |rows|
  {
    if rows != [] {
      UpdateOwnFilter(rows[1..], id, p);
      var u := UpdateWhere(rows, ByReg(id), p);
      var rest := UpdateWhere(rows[1..], ByReg(id), p);
      assert u[1..] == rest;
      var before := Filter(rows, ByReg(id));
      var tail := Filter(rows[1..], ByReg(id));
      if rows[0].regId == id {
        assert before == [rows[0]] + tail;
        assert Filter(u, ByReg(id)) == [ApplyToEntry(rows[0], p)] + Filter(rest, ByReg(id));
      } else {
        assert before == tail;
        assert Filter(u, ByReg(id)) == Filter(rest, ByReg(id));
      }
    }
  }

  /** Because `.single()` finds no row when a rider has several, scanning such a rider inserts yet
      another `queued` row instead of refusing or re-queueing. */
  lemma ScanWithSeveralRowsInserts(regs: seq<Registration>, rows: seq<Entry>, raw: string, now: Time, day: Day)
    requires Lookup(regs, raw).Some? && Eligible(Lookup(regs, raw).value)
    requires |Filter(rows, ByReg(Lookup(regs, raw).value.id))| >= 2
    ensures var r := Scan(regs, rows, raw, now, day, true);
      r.outcome == Done
      && |Filter(r.rows, ByReg(Lookup(regs, raw).value.id))| == |Filter(rows, ByReg(Lookup(regs, raw).value.id))| + 1
  {
    var id := Lookup(regs, raw).value.id;
    FilterAppend(rows, [NewEntry(id, day, now)], ByReg(id));
    assert [NewEntry(id, day, now)][1..] == [];
  }

  /** `scanRider` inserts only when `.single()` finds no row, so a store with one row per rider
      keeps that shape; with it, the single-racing-rider rule means a single `racing` row. */
  lemma ScanKeepsOneRowPerRider(regs: seq<Registration>, rows: seq<Entry>, raw: string, now: Time, day: Day,
                                writeOk: bool)
    requires OneRowPerRider(rows)
    ensures OneRowPerRider(Scan(regs, rows, raw, now, day, writeOk).rows)
  {
    var reg := Lookup(regs, raw);
    if reg.Some? && Eligible(reg.value) && writeOk {
      var id := reg.value.id;
      var act := Decide(Single(rows, id));
      if act == InsertNew {
        OneRowFilter(rows, id);
        NoRowFilter(rows, id);
        AppendKeepsOneRow(rows, NewEntry(id, day, now));
        assert Scan(regs, rows, raw, now, day, writeOk).rows == rows + [NewEntry(id, day, now)];
      } else if act == Requeue {
        UpdateKeepsOneRow(rows, ByReg(id), RequeuePatch(now));
        assert Scan(regs, rows, raw, now, day, writeOk).rows == UpdateWhere(rows, ByReg(id), RequeuePatch(now));
      } else {
        assert Scan(regs, rows, raw, now, day, writeOk).rows == rows;
      }
    } else {
      assert Scan(regs, rows, raw, now, day, writeOk).rows == rows;
    }
  }

  /** Only a paid registration whose status is `PAID` is ever queued; any other is refused with
      the eligibility toast and the entries stay as they were. */
  lemma ScanQueuesOnlyPaid(regs: seq<Registration>, rows: seq<Entry>, raw: string, now: Time, day: Day,
                           writeOk: bool)
    ensures Scan(regs, rows, raw, now, day, writeOk).outcome == Done ==>
      Lookup(regs, raw).Some? && Lookup(regs, raw).value.isPaid && Lookup(regs, raw).value.status == "PAID"
    ensures Lookup(regs, raw).Some? && !(Lookup(regs, raw).value.isPaid && Lookup(regs, raw).value.status == "PAID") ==>
      Scan(regs, rows, raw, now, day, writeOk) == ScanResult(Ineligible, rows)
  {
  }

  /** `startLap` updates by `registration_id` alone: every row of the rider becomes `racing`, so
      a rider with rows on two days ends with two `racing` rows. */
  lemma StartRacesEveryRow(rows: seq<Entry>, id: RegId, startedAt: Option<Time>, now: Time, i: int, j: int)
    requires 0 <= i < |rows| && 0 <= j < |rows| && i != j
    requires rows[i].regId == id && rows[j].regId == id
    ensures var after := UpdateWhere(rows, ByReg(id), StartPatch(startedAt, now));
      after[i].status == Racing && after[j].status == Racing && !OneRowPerRider(after)
  {
    var after := UpdateWhere(rows, ByReg(id), StartPatch(startedAt, now));
    if i < j {
      assert after[i].regId == after[j].regId;
    } else {
      assert after[j].regId == after[i].regId;
    }
  }

  /** `stopLap` writes `racing` for a lap that does not complete the race, so stopping a lap for a
      selected rider who is not the one racing would give two riders `racing` rows. The card offers
      Stop only for a `racing` entry, which rules this out. */
  lemma StopForOtherRiderBreaksRule(rows: seq<Entry>, racer: RegId, me: RegId, st: Stats, now: Time, i: int, j: int)
    requires racer != me
    requires 0 <= i < |rows| && rows[i].regId == racer && rows[i].status == Racing
    requires 0 <= j < |rows| && rows[j].regId == me
    ensures !OneRacingRider(UpdateWhere(rows, ByReg(me), StopPatch(st, false, now)))
  {
    var after := UpdateWhere(rows, ByReg(me), StopPatch(st, false, now));
    assert after[i] == rows[i];
    assert after[j].status == Racing;
  }

  class RaceProvider {
    const store: Store
    var state: State
    /** `stopwatchRef.current.startTime`. */
    var startTime: Option<Time>

    ghost predicate Valid()
      reads this, store
    {
      && store.Valid()
      && (state.activeRider.None? ==> state.laps == [])
      && (forall i :: 0 <= i < |state.laps| ==> state.laps[i].id < store.nextLapId)
    }

    constructor (s: Store)
      requires s.Valid()
      ensures Valid()
      ensures store == s && state == Initial && startTime.None?
    {
      store := s;
      state := Initial;
      startTime := None;
    }

    method Dispatch(a: Action)
      modifies this
      ensures state == Reduce(old(state), a) && startTime == old(startTime)
    {
      state := Reduce(state, a);
    }

    /** `fetchQueue`: on a successful read the queue is replaced by the projection of the store. */
    method FetchQueue(readOk: bool)
      requires Valid()
      modifies this
      ensures Valid()
      ensures startTime == old(startTime)
      ensures state == if readOk then old(state).(queue := QueueOf(store.entries, store.registrations)) else old(state)
    {
      if !readOk {
        return;
      }
      Dispatch(SetQueue(QueueOf(store.entries, store.registrations)));
    }

    /** `scanRider`: look the rider up, check eligibility, then queue a new entry or re-queue an
        old one. The new row's `race_day` is `day`, the store's default for the column. */
    method ScanRider(raw: string, now: Time, day: Day, writeOk: bool, queueOk: bool) returns (o: Outcome)
      requires Valid()
      modifies this, store
      ensures Valid()
      ensures store.laps == old(store.laps) && store.nextLapId == old(store.nextLapId)
      ensures startTime == old(startTime) && !state.loading
      ensures state.activeRider == old(state.activeRider) && state.laps == old(state.laps)
      ensures Scan(store.registrations, old(store.entries), raw, now, day, writeOk) == ScanResult(o, store.entries)
      ensures o != Done ==> state.queue == old(state.queue)
      ensures o == Done ==> state.queue == if queueOk then QueueOf(store.entries, store.registrations) else old(state.queue)
    {
      Dispatch(SetLoading(true));
      var reg := Lookup(store.registrations, raw);
      if reg.None? {
        Dispatch(SetLoading(false));
        return NotFound;
      }
      var r := reg.value;
      if !Eligible(r) {
        Dispatch(SetLoading(false));
        return Ineligible;
      }
      var existing := Single(store.entries, r.id);
      match Decide(existing) {
        case RejectCompleted =>
          Dispatch(SetLoading(false));
          return AlreadyCompleted;
        case RejectActive =>
          Dispatch(SetLoading(false));
          return AlreadyActive;
        case InsertNew =>
        case Requeue =>
      }
      o := Admit(r.id, Decide(existing), now, day, writeOk, queueOk);
    }

    /** The end of a `scanRider` that was not refused: the write, the queue reload and the end of
        the loading state. */
    method Admit(id: RegId, act: EntryAction, now: Time, day: Day, writeOk: bool, queueOk: bool) returns (o: Outcome)
      requires Valid() && (act == InsertNew || act == Requeue)
      modifies this, store
      ensures Valid()
      ensures store.laps == old(store.laps) && store.nextLapId == old(store.nextLapId)
      ensures startTime == old(startTime)
      ensures o == if writeOk then Done else StoreFailure
      ensures store.entries == if !writeOk then old(store.entries)
                               else if act == InsertNew then old(store.entries) + [NewEntry(id, day, now)]
                               else UpdateWhere(old(store.entries), ByReg(id), RequeuePatch(now))
      ensures state == old(state).(loading := false,
                                   queue := if writeOk && queueOk then QueueOf(store.entries, store.registrations)
                                            else old(state.queue))
    {
      if !writeOk {
        Dispatch(SetLoading(false));
        return StoreFailure;
      }
      Enqueue(id, act, now, day);
      FetchQueue(queueOk);
      Dispatch(SetLoading(false));
      return Done;
    }

    /** The write at the end of `scanRider`: insert a fresh `queued` row, or re-queue every row
        of the rider. */
    method Enqueue(id: RegId, act: EntryAction, now: Time, day: Day)
      requires act == InsertNew || act == Requeue
      modifies store
      ensures store.laps == old(store.laps) && store.nextLapId == old(store.nextLapId)
      ensures store.entries == if act == InsertNew then old(store.entries) + [NewEntry(id, day, now)]
                               else UpdateWhere(old(store.entries), ByReg(id), RequeuePatch(now))
      ensures OneRacingRider(old(store.entries)) ==> OneRacingRider(store.entries)
    {
      if act == InsertNew {
        AppendNotRacing(store.entries, NewEntry(id, day, now), id);
        store.entries := store.entries + [NewEntry(id, day, now)];
      } else {
        UpdateNotRacing(store.entries, ByReg(id), RequeuePatch(now), id);
        store.entries := UpdateWhere(store.entries, ByReg(id), RequeuePatch(now));
      }
    }

    /** `markReady`: only a `queued` row of the rider becomes `ready`. */
    method MarkReady(id: RegId, writeOk: bool, queueOk: bool) returns (o: Outcome)
      requires Valid()
      modifies this, store
      ensures Valid()
      ensures store.laps == old(store.laps) && store.nextLapId == old(store.nextLapId)
      ensures startTime == old(startTime)
      ensures o == if writeOk then Done else StoreFailure
      ensures !writeOk ==> store.entries == old(store.entries) && state == old(state)
      ensures writeOk ==>
        && store.entries == UpdateWhere(old(store.entries), QueuedOf(id), StatusPatch(Ready))
        && state == if queueOk then old(state).(queue := QueueOf(store.entries, store.registrations)) else old(state)
      ensures OneRacingRider(old(store.entries)) ==> OneRacingRider(store.entries)
    {
      if !writeOk {
        return StoreFailure;
      }
      UpdateNotRacing(store.entries, QueuedOf(id), StatusPatch(Ready), id);
      store.entries := UpdateWhere(store.entries, QueuedOf(id), StatusPatch(Ready));
      FetchQueue(queueOk);
      return Done;
    }

    /** `selectRider`: make the rider's only entry the active one and load the rider's laps. */
    method SelectRider(id: RegId)
      requires Valid()
      modifies this
      ensures Valid()
      ensures startTime == old(startTime) && state.queue == old(state.queue)
      ensures var re := Single(store.entries, id);
        var reg := FindReg(store.registrations, id);
        && (re.None? || reg.None? ==> state == old(state))
        && (re.Some? && reg.Some? ==>
              && state.activeRider == Some(ActiveRider(id, reg.value.code, reg.value.fullName,
                   reg.value.enrollmentNo, reg.value.college, OrOne(reg.value.rounds), ViewOf(re.value)))
              && state.laps == RiderLaps(store.laps, id))
    {
      var re := Single(store.entries, id);
      var reg := FindReg(store.registrations, id);
      if re.None? || reg.None? {
        return;
      }
      var g := reg.value;
      var laps := RiderLaps(store.laps, id);
      RiderLapsBounded(store.laps, id, store.nextLapId);
      Dispatch(SetActiveRider(Some(ActiveRider(id, g.code, g.fullName, g.enrollmentNo, g.college,
                                               OrOne(g.rounds), ViewOf(re.value)))));
      Dispatch(SetLaps(laps));
    }

    /** `startLap`: refuse when the first `racing` row belongs to someone else; otherwise mark the
        rider's rows `racing` and start the stopwatch. `nowIso` is the timestamp written,
        `nowMs` the stopwatch reading. */
    method StartLap(nowIso: Time, nowMs: Time, writeOk: bool, queueOk: bool) returns (o: Outcome)
      requires Valid()
      modifies this, store
      ensures Valid()
      ensures store.laps == old(store.laps) && store.nextLapId == old(store.nextLapId)
      ensures old(state.activeRider).None? ==> o == Ignored
      ensures o != Done ==> store.entries == old(store.entries) && state == old(state) && startTime == old(startTime)
      ensures o == Done || o == TrackOccupied || o == StoreFailure || o == Ignored
      ensures o == TrackOccupied ==> exists i :: 0 <= i < |old(store.entries)| && old(store.entries)[i].status == Racing
                                               && old(store.entries)[i].regId != old(state.activeRider).value.regId
      ensures old(state.activeRider).Some? ==>
        var me := old(state.activeRider).value;
        && (OneRacingRider(old(store.entries)) && !NoOtherRacing(old(store.entries), me.regId) ==> o == TrackOccupied)
        && (o == Done <==> writeOk && (OneRacingRider(old(store.entries)) ==> NoOtherRacing(old(store.entries), me.regId))
                           && o != TrackOccupied)
        && (o == Done ==>
              && store.entries == UpdateWhere(old(store.entries), ByReg(me.regId), StartPatch(me.entry.startedAt, nowIso))
              && startTime == Some(nowMs)
              && state.activeRider == Some(me.(entry := me.entry.(status := Racing, startedAt := Some(nowIso))))
              && state.laps == old(state.laps)
              && state.queue == if queueOk then QueueOf(store.entries, store.registrations) else old(state.queue))
      ensures o == Done && OneRacingRider(old(store.entries)) ==>
        NoOtherRacing(store.entries, old(state.activeRider).value.regId)
      ensures OneRacingRider(old(store.entries)) ==> OneRacingRider(store.entries)
    {
      if state.activeRider.None? {
        return Ignored;
      }
      var me := state.activeRider.value;
      var racing := RacingIds(store.entries);
      if racing != {} {
        var first :| first in racing;
        if first != me.regId {
          return TrackOccupied;
        }
        if OneRacingRider(store.entries) {
          var k :| 0 <= k < |store.entries| && store.entries[k].status == Racing && store.entries[k].regId == first;
          assert NoOtherRacing(store.entries, me.regId);
        }
      } else {
        assert forall i :: 0 <= i < |store.entries| && store.entries[i].status == Racing ==> store.entries[i].regId in racing;
      }
      if !writeOk {
        return StoreFailure;
      }
      MarkRacing(nowIso, nowMs, queueOk);
      return Done;
    }

    /** The writes of a `startLap` that went ahead: the rider's rows become `racing`, the stopwatch
        starts, the local entry follows and the queue is reloaded. */
    method MarkRacing(nowIso: Time, nowMs: Time, queueOk: bool)
      requires Valid() && state.activeRider.Some?
      modifies this, store
      ensures Valid()
      ensures store.laps == old(store.laps) && store.nextLapId == old(store.nextLapId)
      ensures var me := old(state.activeRider).value;
        && store.entries == UpdateWhere(old(store.entries), ByReg(me.regId), StartPatch(me.entry.startedAt, nowIso))
        && state == old(state).(activeRider := Some(me.(entry := me.entry.(status := Racing, startedAt := Some(nowIso)))),
                                queue := if queueOk then QueueOf(store.entries, store.registrations) else old(state.queue))
      ensures startTime == Some(nowMs)
      ensures NoOtherRacing(old(store.entries), old(state.activeRider).value.regId) ==>
        NoOtherRacing(store.entries, old(state.activeRider).value.regId) && OneRacingRider(store.entries)
    {
      var me := state.activeRider.value;
      ghost var before := store.entries;
      store.entries := UpdateWhere(store.entries, ByReg(me.regId), StartPatch(me.entry.startedAt, nowIso));
      if NoOtherRacing(before, me.regId) {
        UpdateOwnRows(before, me.regId, StartPatch(me.entry.startedAt, nowIso));
      }
      startTime := Some(nowMs);
      Dispatch(UpdateActiveRaceEntry(NoChange.(status := Some(Racing), startedAt := Some(nowIso))));
      FetchQueue(queueOk);
    }

    /** `stopLap`: record the running lap, recompute the rider's statistics over the valid laps and
        either complete the race or restart the stopwatch. `nowMs` and `restartMs` are the two
        `Date.now()` readings, `completedIso` the completion timestamp, `day` the lap's `race_day`
        default. */
    method StopLap(nowMs: Time, day: Day, lapOk: bool, entryOk: bool, completedIso: Time, restartMs: Time,
                   queueOk: bool) returns (o: Outcome)
      requires Valid()
      modifies this, store
      ensures Valid()
      ensures o == Ignored || o == StoreFailure || o == Done
      ensures o == Ignored <==> old(state.activeRider).None? || old(startTime).None? || old(startTime).value == 0
      ensures o == StoreFailure <==> o != Ignored && !lapOk
      ensures o != Done ==>
        && store.entries == old(store.entries) && store.laps == old(store.laps)
        && store.nextLapId == old(store.nextLapId) && state == old(state)
      ensures o == Ignored ==> startTime == old(startTime)
      ensures o == StoreFailure ==> startTime.None?
      ensures o == Done ==>
        var me := old(state.activeRider).value;
        var r := StopStep(me, old(state.laps), old(store.nextLapId), nowMs - old(startTime).value, day, completedIso);
        && store.laps == old(store.laps) + [r.lap] && store.nextLapId == old(store.nextLapId) + 1
        && store.entries == (if entryOk then UpdateWhere(old(store.entries), ByReg(me.regId), r.patch) else old(store.entries))
        && state == old(state).(activeRider := Some(r.rider), laps := r.laps,
                                queue := if r.complete && queueOk then QueueOf(store.entries, store.registrations)
                                         else old(state.queue))
        && startTime == (if r.complete then None else Some(restartMs))
      ensures (&& OneRacingRider(old(store.entries)) && old(state.activeRider).Some?
               && RacingRowOf(old(store.entries), old(state.activeRider).value.regId))
        ==> OneRacingRider(store.entries)
      ensures OneRacingRider(old(store.entries)) && o == Done && state.activeRider.value.entry.status == Completed
        ==> OneRacingRider(store.entries)
    {
      if state.activeRider.None? || startTime.None? || startTime.value == 0 {
        return Ignored;
      }
      var lapTime := nowMs - startTime.value;
      if !lapOk {
        startTime := None;
        return StoreFailure;
      }
      var r := StopStep(state.activeRider.value, state.laps, store.nextLapId, lapTime, day, completedIso);
      assert r == StopStep(old(state.activeRider).value, old(state.laps), old(store.nextLapId),
                           nowMs - old(startTime).value, day, completedIso);
      FinishLap(r, lapTime, day, entryOk, completedIso, restartMs, queueOk);
      return Done;
    }

    /** The part of `stopLap` after a successful lap insert: stop the stopwatch, record the lap,
        and settle the entry with the statistics over the valid laps including it. */
    method FinishLap(r: LapStop, lapTime: int, day: Day, entryOk: bool, completedIso: Time, restartMs: Time,
                     queueOk: bool)
      requires Valid() && state.activeRider.Some?
      requires r == StopStep(state.activeRider.value, state.laps, store.nextLapId, lapTime, day, completedIso)
      modifies this, store
      ensures Valid()
      ensures store.laps == old(store.laps) + [r.lap] && store.nextLapId == old(store.nextLapId) + 1
      ensures store.entries == (if entryOk then UpdateWhere(old(store.entries), ByReg(old(state.activeRider).value.regId), r.patch)
                                else old(store.entries))
      ensures state == old(state).(activeRider := Some(r.rider), laps := r.laps,
                                   queue := if r.complete && queueOk then QueueOf(store.entries, store.registrations)
                                            else old(state.queue))
      ensures startTime == (if r.complete then None else Some(restartMs))
      ensures OneRacingRider(old(store.entries)) && RacingRowOf(old(store.entries), old(state.activeRider).value.regId)
        ==> OneRacingRider(store.entries)
      ensures OneRacingRider(old(store.entries)) && r.complete ==> OneRacingRider(store.entries)
    {
      startTime := None;
      StopStepFacts(state.activeRider.value, state.laps, store.nextLapId, lapTime, day, completedIso);
      var newLap := RecordLap(r.lap.lapNumber, lapTime, day);
      SettleLap(r.patch, r.complete, entryOk, restartMs, queueOk);
    }

    /** The tail of `stopLap`: write the statistics, then either restart the stopwatch or, once
        the race is complete, reload the queue. */
    method SettleLap(p: Patch, complete: bool, entryOk: bool, restartMs: Time, queueOk: bool)
      requires Valid() && state.activeRider.Some? && startTime.None?
      modifies this, store
      ensures Valid()
      ensures store.laps == old(store.laps) && store.nextLapId == old(store.nextLapId)
      ensures var me := old(state.activeRider).value;
        && state == old(state).(activeRider := Some(me.(entry := ApplyToView(me.entry, p))),
                                queue := if complete && queueOk then QueueOf(store.entries, store.registrations)
                                         else old(state.queue))
        && store.entries == (if entryOk then UpdateWhere(old(store.entries), ByReg(me.regId), p) else old(store.entries))
      ensures startTime == (if complete then None else Some(restartMs))
      ensures (&& OneRacingRider(old(store.entries))
               && RacingRowOf(old(store.entries), old(state.activeRider).value.regId))
        ==> OneRacingRider(store.entries)
      ensures p.status != Some(Racing) && OneRacingRider(old(store.entries)) ==> OneRacingRider(store.entries)
    {
      var me := state.activeRider.value;
      if OneRacingRider(store.entries) && RacingRowOf(store.entries, me.regId) {
        RacingRowIsOnly(store.entries, me.regId);
      }
      SaveEntry(p, entryOk);
      if !complete {
        startTime := Some(restartMs);
      }
      if complete {
        FetchQueue(queueOk);
      }
    }

    /** The lap insert of `stopLap` and its `ADD_LAP`: the store gives the new row the next id and
        `valid: true`. */
    method RecordLap(lapNumber: int, lapTime: int, day: Day) returns (newLap: Lap)
      requires Valid() && state.activeRider.Some?
      modifies this, store
      ensures Valid()
      ensures newLap == Lap(old(store.nextLapId), old(state.activeRider).value.regId, day, lapNumber, lapTime, true)
      ensures store.laps == old(store.laps) + [newLap] && store.nextLapId == old(store.nextLapId) + 1
      ensures store.entries == old(store.entries) && startTime == old(startTime)
      ensures state == old(state).(laps := old(state.laps) + [newLap])
      ensures ValidLaps(state.laps) == ValidLaps(old(state.laps)) + [newLap]
      ensures forall i :: 0 <= i < |old(state.laps)| ==> old(state.laps)[i].id != newLap.id
    {
      newLap := Lap(store.nextLapId, state.activeRider.value.regId, day, lapNumber, lapTime, true);
      store.laps := store.laps + [newLap];
      store.nextLapId := store.nextLapId + 1;
      ValidLapsAppend(state.laps, newLap);
      Dispatch(AddLap(newLap));
    }

    /** The step `stopLap`, `invalidateLap` and `editLapTime` share: update the active rider's rows
        with `p` (unless the store refuses, which the code does not check) and dispatch
        `UPDATE_ACTIVE_RACE_ENTRY` with the same payload. */
    method SaveEntry(p: Patch, entryOk: bool)
      requires Valid() && state.activeRider.Some?
      modifies this, store
      ensures Valid()
      ensures store.laps == old(store.laps) && store.nextLapId == old(store.nextLapId)
      ensures startTime == old(startTime)
      ensures state == old(state).(activeRider := Some(old(state.activeRider).value.(
                         entry := ApplyToView(old(state.activeRider).value.entry, p))))
      ensures store.entries == if entryOk then UpdateWhere(old(store.entries), ByReg(old(state.activeRider).value.regId), p)
                               else old(store.entries)
      ensures p.status != Some(Racing) && OneRacingRider(old(store.entries)) ==> OneRacingRider(store.entries)
      ensures NoOtherRacing(old(store.entries), old(state.activeRider).value.regId) ==> OneRacingRider(store.entries)
    {
      var me := state.activeRider.value;
      if entryOk {
        ghost var before := store.entries;
        store.entries := UpdateWhere(store.entries, ByReg(me.regId), p);
        if p.status != Some(Racing) {
          UpdateNotRacing(before, ByReg(me.regId), p, me.regId);
        }
        if NoOtherRacing(before, me.regId) {
          UpdateOwnRows(before, me.regId, p);
        }
      }
      Dispatch(UpdateActiveRaceEntry(p));
    }

    /** The two halves of every lap correction: the `laps` row is patched in the store and the
        same patch is dispatched as `UPDATE_LAP`. */
    method PatchLap(lp: LapPatch)
      requires Valid()
      modifies this, store
      ensures Valid()
      ensures store.laps == PatchLaps(old(store.laps), lp)
      ensures store.entries == old(store.entries) && store.nextLapId == old(store.nextLapId)
      ensures state == old(state).(laps := PatchLaps(old(state.laps), lp)) && startTime == old(startTime)
    {
      store.laps := PatchLaps(store.laps, lp);
      Dispatch(UpdateLap(lp));
      ReduceChangesOnlyItsTarget(old(state), UpdateLap(lp));
    }

    /** `invalidateLap`: mark the lap invalid in the store and locally; when valid laps remain,
        write their count, best and average, otherwise leave the entry as it was. */
    method InvalidateLap(lapId: int, writeOk: bool, entryOk: bool) returns (o: Outcome)
      requires Valid()
      modifies this, store
      ensures Valid()
      ensures startTime == old(startTime) && state.queue == old(state.queue) && store.nextLapId == old(store.nextLapId)
      ensures o == if writeOk then Done else StoreFailure
      ensures !writeOk ==> store.entries == old(store.entries) && store.laps == old(store.laps) && state == old(state)
      ensures writeOk ==>
        && store.laps == PatchLaps(old(store.laps), InvalidPatch(lapId))
        && state.laps == PatchLaps(old(state.laps), InvalidPatch(lapId))
      ensures writeOk && |ValidLaps(state.laps)| == 0 ==>
        state.activeRider == old(state.activeRider) && store.entries == old(store.entries)
      ensures writeOk && |ValidLaps(state.laps)| > 0 ==>
        var me := old(state.activeRider).value;
        var p := CountersPatch(StatsOf(ValidLaps(state.laps)));
        && old(state.activeRider).Some?
        && state.activeRider == Some(me.(entry := ApplyToView(me.entry, p)))
        && store.entries == (if entryOk then UpdateWhere(old(store.entries), ByReg(me.regId), p) else old(store.entries))
        && StatsAgree(state.activeRider.value.entry, state.laps)
      ensures state.activeRider.Some? <==> old(state.activeRider).Some?
      ensures state.activeRider.Some? ==> state.activeRider.value.entry.status == old(state.activeRider).value.entry.status
      ensures OneRacingRider(old(store.entries)) ==> OneRacingRider(store.entries)
    {
      if !writeOk {
        return StoreFailure;
      }
      var valid := Filter(state.laps, KeepsAfterInvalidate(lapId));
      InvalidateMatchesPatch(state.laps, lapId);
      PatchLap(InvalidPatch(lapId));
      if |valid| > 0 {
        SaveEntry(CountersPatch(StatsOf(valid)), entryOk);
      }
      return Done;
    }

    /** `resetLastLap`: invalidate the last valid lap in list order, if there is one. */
    method ResetLastLap(writeOk: bool, entryOk: bool) returns (o: Outcome)
      requires Valid()
      modifies this, store
      ensures Valid()
      ensures startTime == old(startTime) && state.queue == old(state.queue) && store.nextLapId == old(store.nextLapId)
      ensures LastValid(old(state.laps)).None? ==>
        o == Ignored && store.entries == old(store.entries) && store.laps == old(store.laps) && state == old(state)
      ensures LastValid(old(state.laps)).Some? ==>
        var target := LastValid(old(state.laps)).value.id;
        && o == (if writeOk then Done else StoreFailure)
        && (writeOk ==> store.laps == PatchLaps(old(store.laps), InvalidPatch(target))
                        && state.laps == PatchLaps(old(state.laps), InvalidPatch(target)))
        && (writeOk && |ValidLaps(state.laps)| > 0 ==> StatsAgree(state.activeRider.value.entry, state.laps))
      ensures OneRacingRider(old(store.entries)) ==> OneRacingRider(store.entries)
    {
      var last := LastValid(state.laps);
      if last.None? {
        return Ignored;
      }
      o := InvalidateLap(last.value.id, writeOk, entryOk);
    }

    /** `editLapTime`: replace one lap's time in the store and locally, and when valid laps remain
        rewrite best and average (the lap count is left alone). The editor only submits positive
        times. */
    method EditLapTime(lapId: int, newMs: int, writeOk: bool, entryOk: bool) returns (o: Outcome)
      requires Valid()
      requires newMs > 0
      modifies this, store
      ensures Valid()
      ensures startTime == old(startTime) && state.queue == old(state.queue) && store.nextLapId == old(store.nextLapId)
      ensures o == if writeOk then Done else StoreFailure
      ensures !writeOk ==> store.entries == old(store.entries) && store.laps == old(store.laps) && state == old(state)
      ensures writeOk ==>
        && store.laps == PatchLaps(old(store.laps), TimePatch(lapId, newMs))
        && state.laps == PatchLaps(old(state.laps), TimePatch(lapId, newMs))
        && |ValidLaps(state.laps)| == |ValidLaps(old(state.laps))|
      ensures writeOk && |ValidLaps(state.laps)| == 0 ==>
        state.activeRider == old(state.activeRider) && store.entries == old(store.entries)
      ensures writeOk && |ValidLaps(state.laps)| > 0 ==>
        var me := old(state.activeRider).value;
        var p := BestAvgPatch(StatsOf(ValidLaps(state.laps)));
        && old(state.activeRider).Some?
        && state.activeRider == Some(me.(entry := ApplyToView(me.entry, p)))
        && store.entries == (if entryOk then UpdateWhere(old(store.entries), ByReg(me.regId), p) else old(store.entries))
      ensures old(state.activeRider).Some? && StatsAgree(old(state.activeRider).value.entry, old(state.laps)) ==>
        StatsAgree(state.activeRider.value.entry, state.laps)
      ensures state.activeRider.Some? <==> old(state.activeRider).Some?
      ensures state.activeRider.Some? ==>
        && state.activeRider.value.entry.status == old(state.activeRider).value.entry.status
        && state.activeRider.value.entry.roundsCompleted == old(state.activeRider).value.entry.roundsCompleted
      ensures OneRacingRider(old(store.entries)) ==> OneRacingRider(store.entries)
    {
      if !writeOk {
        return StoreFailure;
      }
      var laps := state.laps;
      var updated := ValidLaps(seq(|laps|, i requires 0 <= i < |laps| =>
                                   if laps[i].id == lapId then laps[i].(timeMs := newMs) else laps[i]));
      EditMatchesPatch(laps, lapId, newMs);
      EditKeepsCount(laps, lapId, newMs);
      PatchLap(TimePatch(lapId, newMs));
      if |updated| > 0 {
        SaveEntry(BestAvgPatch(StatsOf(updated)), entryOk);
      }
      return Done;
    }

    /** `cancelRider`: every row of the rider becomes `cancelled`, whatever its status; the rider
        leaves the control panel if it was the active one. */
    method CancelRider(id: RegId, writeOk: bool, queueOk: bool) returns (o: Outcome)
      requires Valid()
      modifies this, store
      ensures Valid()
      ensures store.laps == old(store.laps) && store.nextLapId == old(store.nextLapId)
      ensures o == if writeOk then Done else StoreFailure
      ensures !writeOk ==> store.entries == old(store.entries) && state == old(state) && startTime == old(startTime)
      ensures writeOk ==>
        var wasActive := old(state.activeRider).Some? && old(state.activeRider).value.regId == id;
        && store.entries == UpdateWhere(old(store.entries), ByReg(id), StatusPatch(Cancelled))
        && (wasActive ==> state.activeRider.None? && state.laps == [] && startTime.None?)
        && (!wasActive ==> state.activeRider == old(state.activeRider) && state.laps == old(state.laps)
                           && startTime == old(startTime))
        && state.queue == (if queueOk then QueueOf(store.entries, store.registrations) else old(state.queue))
        && id !in RacingIds(store.entries)
      ensures OneRacingRider(old(store.entries)) ==> OneRacingRider(store.entries)
    {
      if !writeOk {
        return StoreFailure;
      }
      UpdateNotRacing(store.entries, ByReg(id), StatusPatch(Cancelled), id);
      StatusLeavesNotRacing(store.entries, id, Cancelled);
      store.entries := UpdateWhere(store.entries, ByReg(id), StatusPatch(Cancelled));
      if state.activeRider.Some? && state.activeRider.value.regId == id {
        startTime := None;
        Dispatch(SetActiveRider(None));
        Dispatch(SetLaps([]));
        assert state.activeRider.None? && state.laps == [];
      } else {
        assert state == old(state);
      }
      FetchQueue(queueOk);
      return Done;
    }

    /** `disqualifyRider`: every row of the active rider becomes `disqualified`, whatever its
        status, and the control panel is cleared. */
    method DisqualifyRider(writeOk: bool, queueOk: bool) returns (o: Outcome)
      requires Valid()
      modifies this, store
      ensures Valid()
      ensures store.laps == old(store.laps) && store.nextLapId == old(store.nextLapId)
      ensures old(state.activeRider).None? ==> o == Ignored
      ensures o != Done ==> store.entries == old(store.entries) && state == old(state) && startTime == old(startTime)
      ensures old(state.activeRider).Some? ==>
        var id := old(state.activeRider).value.regId;
        && o == (if writeOk then Done else StoreFailure)
        && (writeOk ==>
              && store.entries == UpdateWhere(old(store.entries), ByReg(id), StatusPatch(Disqualified))
              && state.activeRider.None? && state.laps == [] && startTime.None?
              && state.queue == (if queueOk then QueueOf(store.entries, store.registrations) else old(state.queue))
              && id !in RacingIds(store.entries))
      ensures OneRacingRider(old(store.entries)) ==> OneRacingRider(store.entries)
    {
      if state.activeRider.None? {
        return Ignored;
      }
      var id := state.activeRider.value.regId;
      if !writeOk {
        return StoreFailure;
      }
      UpdateNotRacing(store.entries, ByReg(id), StatusPatch(Disqualified), id);
      StatusLeavesNotRacing(store.entries, id, Disqualified);
      store.entries := UpdateWhere(store.entries, ByReg(id), StatusPatch(Disqualified));
      startTime := None;
      Dispatch(SetActiveRider(None));
      Dispatch(SetLaps([]));
      FetchQueue(queueOk);
      return Done;
    }
  }
}
