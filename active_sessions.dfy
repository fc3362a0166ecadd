/** The admin panel of active sessions: the `racing`, `queued` and `ready` entries of every day,
    latest start first, and the two overrides that act on one `(registration_id, race_day)` pair. */
module ActiveSessions {
  import opened Wrappers
  import opened Seqs
  import opened Records
  import opened RaceStore

  /** One row of the panel: the entry's key and state with the registration's name and college. */
  datatype SessionItem = SessionItem(
    regId: RegId, status: Status, day: Day, queuedAt: Time, startedAt: Option<Time>,
    fullName: string, enrollmentNo: Option<string>, college: string)

  /** `.in('race_status', ['racing', 'queued', 'ready'])` together with the inner join on
      `registrations`. */
  function IsActive(regs: seq<Registration>): Entry -> bool {
    (e: Entry) => (e.status == Racing || e.status == Queued || e.status == Ready) && FindReg(regs, e.regId).Some?
  }

  function Started(): Entry -> bool { (e: Entry) => e.startedAt.Some? }

  function NotStarted(): Entry -> bool { (e: Entry) => e.startedAt.None? }

  /** Ascending order of this key is descending `race_started_at`. */
  function LatestFirstKey(e: Entry): int { if e.startedAt.Some? then -e.startedAt.value else 0 }

  /** `.order('race_started_at', { ascending: false, nullsFirst: false })`: the rows with a start
      time, latest first, then the rows without one. */
  function LatestFirst(rows: seq<Entry>): (r: seq<Entry>)
    ensures multiset(r) == multiset(rows)
  {
    FilterPartition(rows, Started(), NotStarted());
    SortBy(Filter(rows, Started()), LatestFirstKey) + Filter(rows, NotStarted())
  }

  /** The entries the panel lists, in the order it lists them. */
  function SessionRows(entries: seq<Entry>, regs: seq<Registration>): (r: seq<Entry>)
    ensures multiset(r) == multiset(Filter(entries, IsActive(regs)))
  {
    LatestFirst(Filter(entries, IsActive(regs)))
  }

  function ItemOf(e: Entry, reg: Registration): SessionItem {
    SessionItem(e.regId, e.status, e.day, e.queuedAt, e.startedAt, reg.fullName, reg.enrollmentNo, reg.college)
  }

  /** Every listed row is active and has a registration. */
  lemma SessionRowsActive(entries: seq<Entry>, regs: seq<Registration>)
    ensures var rows := SessionRows(entries, regs);
      forall i :: 0 <= i < |rows| ==> IsActive(regs)(rows[i])
  {
    var rows := SessionRows(entries, regs);
    forall i | 0 <= i < |rows| ensures IsActive(regs)(rows[i]) {
      assert rows[i] in multiset(rows);
      FilterMember(entries, IsActive(regs), rows[i]);
    }
  }

  /** `setSessions(data)` after a successful read. */
  function Sessions(entries: seq<Entry>, regs: seq<Registration>): (q: seq<SessionItem>)
    ensures |q| == |Filter(entries, IsActive(regs))|
    ensures forall i :: 0 <= i < |q| ==> q[i].status == Racing || q[i].status == Queued || q[i].status == Ready
  {
    var rows := SessionRows(entries, regs);
    SessionRowsActive(entries, regs);
    Joined(rows, regs, ItemOf)
  }

  /** The panel lists exactly the `racing`, `queued` and `ready` entries that have a registration,
      each as often as it is stored. */
  lemma SessionRowsExactly(entries: seq<Entry>, regs: seq<Registration>, e: Entry)
    ensures e in multiset(SessionRows(entries, regs)) <==> e in entries && IsActive(regs)(e)
  {
    if e in multiset(SessionRows(entries, regs)) {
      FilterMember(entries, IsActive(regs), e);
    }
    if e in entries && IsActive(regs)(e) {
      FilterKeeps(entries, IsActive(regs), e);
    }
  }

  /** The sorted part of `LatestFirst` holds only rows with a start time. */
  lemma StartedPart(rows: seq<Entry>, a: seq<Entry>)
    requires a == SortBy(Filter(rows, Started()), LatestFirstKey)
    ensures forall i :: 0 <= i < |a| ==> a[i].startedAt.Some?
  {
    forall i | 0 <= i < |a| ensures a[i].startedAt.Some? {
      assert a[i] in multiset(a);
      FilterMember(rows, Started(), a[i]);
    }
  }

  /** Rows with a start time come first, latest first; the rows without one come last. */
  lemma LatestFirstOrdered(rows: seq<Entry>)
    ensures var r := LatestFirst(rows);
      forall i, j :: 0 <= i < j < |r| && r[j].startedAt.Some? ==>
        r[i].startedAt.Some? && r[i].startedAt.value >= r[j].startedAt.value
  {
    var a := SortBy(Filter(rows, Started()), LatestFirstKey);
    var b := Filter(rows, NotStarted());
    var r: seq<Entry> := a + b;
    StartedPart(rows, a);
    forall i, j | 0 <= i < j < |r| && r[j].startedAt.Some?
      ensures r[i].startedAt.Some? && r[i].startedAt.value >= r[j].startedAt.value
    {
      assert j < |a|;
      assert r[i] == a[i] && r[j] == a[j];
      assert SortedBy(a, LatestFirstKey);
      assert LatestFirstKey(a[i]) <= LatestFirstKey(a[j]);
    }
  }

  lemma SessionsOrdered(entries: seq<Entry>, regs: seq<Registration>)
    ensures var r := SessionRows(entries, regs);
      forall i, j :: 0 <= i < j < |r| && r[j].startedAt.Some? ==>
        r[i].startedAt.Some? && r[i].startedAt.value >= r[j].startedAt.value
  {
    LatestFirstOrdered(Filter(entries, IsActive(regs)));
  }

  /** The rows `forceRemove` keeps: everything but the given pair. */
  function OtherEntries(id: RegId, day: Day): Entry -> bool {
    (e: Entry) => !(e.regId == id && e.day == day)
  }

  function OtherLaps(id: RegId, day: Day): Lap -> bool {
    (l: Lap) => !(l.regId == id && l.day == day)
  }

  /** `forceComplete`'s update. */
  function CompletePatch(now: Time): Patch {
    NoChange.(status := Some(Completed), completedAt := Some(now))
  }

  /** A stored entry survives `forceRemove` exactly when it is not the removed pair. */
  lemma RemoveEntriesExactly(rows: seq<Entry>, id: RegId, day: Day, e: Entry)
    requires e in rows
    ensures e in multiset(Filter(rows, OtherEntries(id, day))) <==> !(e.regId == id && e.day == day)
  {
    if e in multiset(Filter(rows, OtherEntries(id, day))) {
      FilterMember(rows, OtherEntries(id, day), e);
    } else if !(e.regId == id && e.day == day) {
      FilterKeeps(rows, OtherEntries(id, day), e);
    }
  }

  /** A stored lap survives `forceRemove` exactly when it belongs to another rider or another day. */
  lemma RemoveLapsExactly(laps: seq<Lap>, id: RegId, day: Day, l: Lap)
    requires l in laps
    ensures l in multiset(Filter(laps, OtherLaps(id, day))) <==> !(l.regId == id && l.day == day)
  {
    if l in multiset(Filter(laps, OtherLaps(id, day))) {
      FilterMember(laps, OtherLaps(id, day), l);
    } else if !(l.regId == id && l.day == day) {
      FilterKeeps(laps, OtherLaps(id, day), l);
    }
  }

  /** Deleting laps keeps every remaining id below the next id. */
  lemma RemoveLapsBounded(laps: seq<Lap>, keep: Lap -> bool, bound: int)
    requires forall i :: 0 <= i < |laps| ==> laps[i].id < bound
    ensures forall i :: 0 <= i < |Filter(laps, keep)| ==> Filter(laps, keep)[i].id < bound
  {
    var r := Filter(laps, keep);
    forall i | 0 <= i < |r| ensures r[i].id < bound {
      assert r[i] in multiset(r);
      FilterMember(laps, keep, r[i]);
    }
  }

  /** After a removal the pair no longer appears in the panel. */
  lemma RemovedLeavesPanel(entries: seq<Entry>, regs: seq<Registration>, id: RegId, day: Day)
    ensures var r := SessionRows(Filter(entries, OtherEntries(id, day)), regs);
      forall i :: 0 <= i < |r| ==> !(r[i].regId == id && r[i].day == day)
  {
    var kept := Filter(entries, OtherEntries(id, day));
    var r := SessionRows(kept, regs);
    forall i | 0 <= i < |r| ensures !(r[i].regId == id && r[i].day == day) {
      assert r[i] in multiset(r);
      FilterMember(kept, IsActive(regs), r[i]);
      assert r[i] in multiset(kept);
      FilterMember(entries, OtherEntries(id, day), r[i]);
    }
  }

  /** `forceComplete` marks the pair's rows `completed` at `now`, whatever their status, and leaves
      their rounds and lap statistics (and every other row) as they were. */
  lemma ForceCompleteEffect(rows: seq<Entry>, id: RegId, day: Day, now: Time, i: int)
    requires 0 <= i < |rows|
    ensures var r := UpdateWhere(rows, ByRegDay(id, day), CompletePatch(now));
      && (rows[i].regId == id && rows[i].day == day ==>
            && r[i].status == Completed && r[i].completedAt == Some(now)
            && r[i] == rows[i].(status := Completed, completedAt := Some(now)))
      && (!(rows[i].regId == id && rows[i].day == day) ==> r[i] == rows[i])
  {
  }

  /** No row of the pair is active once `forceComplete` has updated it. */
  lemma CompletedNotActive(entries: seq<Entry>, regs: seq<Registration>, id: RegId, day: Day, now: Time, e: Entry)
    requires e in multiset(UpdateWhere(entries, ByRegDay(id, day), CompletePatch(now)))
    requires e.regId == id && e.day == day
    ensures !IsActive(regs)(e)
  {
    var updated := UpdateWhere(entries, ByRegDay(id, day), CompletePatch(now));
    assert e in updated;
    var k :| 0 <= k < |updated| && updated[k] == e;
    ForceCompleteEffect(entries, id, day, now, k);
  }

  /** After a forced completion the pair no longer appears in the panel. */
  lemma CompletedLeavesPanel(entries: seq<Entry>, regs: seq<Registration>, id: RegId, day: Day, now: Time)
    ensures var r := SessionRows(UpdateWhere(entries, ByRegDay(id, day), CompletePatch(now)), regs);
      forall i :: 0 <= i < |r| ==> !(r[i].regId == id && r[i].day == day)
  {
    var updated := UpdateWhere(entries, ByRegDay(id, day), CompletePatch(now));
    var r := SessionRows(updated, regs);
    forall i | 0 <= i < |r| ensures !(r[i].regId == id && r[i].day == day) {
      assert r[i] in multiset(r);
      FilterMember(updated, IsActive(regs), r[i]);
      if r[i].regId == id && r[i].day == day {
        CompletedNotActive(entries, regs, id, day, now, r[i]);
      }
    }
  }

  /** The panel's state: the store it reads and the list it shows. */
  class SessionsPanel {
    const store: Store
    var sessions: seq<SessionItem>

    ghost predicate Valid()
      reads this, store
    {
      store.Valid()
    }

    constructor (s: Store)
      requires s.Valid()
      ensures Valid() && store == s && sessions == []
    {
      store := s;
      sessions := [];
    }

    /** `fetchSessions`: a failed read is only logged, and the list stays as it was. */
    method FetchSessions(readOk: bool)
      modifies this
      ensures sessions == if readOk then Sessions(store.entries, store.registrations) else old(sessions)
    {
      if readOk {
        sessions := Sessions(store.entries, store.registrations);
      }
    }

    /** `forceRemove`: delete the pair's laps (the result is not inspected), then its entry; only a
        successful entry deletion reloads the list. `entryOk` is the entry deletion's outcome. */
    method ForceRemove(id: RegId, day: Day, entryOk: bool, readOk: bool) returns (ok: bool)
      requires Valid()
      modifies this, store
      ensures Valid()
      ensures ok == entryOk
      ensures store.laps == Filter(old(store.laps), OtherLaps(id, day)) && store.nextLapId == old(store.nextLapId)
      ensures store.entries == if entryOk then Filter(old(store.entries), OtherEntries(id, day)) else old(store.entries)
      ensures sessions == if entryOk && readOk then Sessions(store.entries, store.registrations) else old(sessions)
      ensures OneRacingRider(old(store.entries)) ==> OneRacingRider(store.entries)
    {
      RemoveLapsBounded(store.laps, OtherLaps(id, day), store.nextLapId);
      store.laps := Filter(store.laps, OtherLaps(id, day));
      if !entryOk {
        return false;
      }
      if OneRacingRider(store.entries) {
        FilterKeepsOneRacing(store.entries, OtherEntries(id, day));
      }
      store.entries := Filter(store.entries, OtherEntries(id, day));
      FetchSessions(readOk);
      return true;
    }

    /** `forceComplete`: mark the pair `completed` at `now`; a successful write reloads the list. */
    method ForceComplete(id: RegId, day: Day, now: Time, writeOk: bool, readOk: bool) returns (ok: bool)
      requires Valid()
      modifies this, store
      ensures Valid()
      ensures ok == writeOk
      ensures store.laps == old(store.laps) && store.nextLapId == old(store.nextLapId)
      ensures store.entries == if writeOk then UpdateWhere(old(store.entries), ByRegDay(id, day), CompletePatch(now))
                               else old(store.entries)
      ensures sessions == if writeOk && readOk then Sessions(store.entries, store.registrations) else old(sessions)
      ensures OneRacingRider(old(store.entries)) ==> OneRacingRider(store.entries)
    {
      if !writeOk {
        return false;
      }
      UpdateNotRacing(store.entries, ByRegDay(id, day), CompletePatch(now), id);
      store.entries := UpdateWhere(store.entries, ByRegDay(id, day), CompletePatch(now));
      FetchSessions(readOk);
      return true;
    }
  }
}
