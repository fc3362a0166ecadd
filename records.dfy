/** The rows of the store's tables (`registrations`, `race_entries`, `laps`), the partial updates
    the code writes into them, and the single-racing-rider invariant. */
module Records {
  import opened Wrappers
  import opened Seqs

  /** `registrations.id`, which `race_entries.registration_id` and `laps.registration_id` hold. */
  type RegId = string
  type Day = int
  /** A wall-clock instant in milliseconds since the epoch. The ISO-8601 timestamps the store
      keeps stand for such instants and order the same way. */
  type Time = int

  datatype Status = Queued | Ready | Racing | Completed | Cancelled | Disqualified

  /** A `registrations` row: `code` is the human-readable `registration_id`. */
  datatype Registration = Registration(
    id: RegId, code: string, fullName: string, enrollmentNo: Option<string>, college: string,
    rounds: Option<int>, isPaid: bool, status: string)

  /** `rounds || 1`: a missing or zero round count means one round. */
  function OrOne(rounds: Option<int>): (r: int)
    ensures r != 0
    ensures r == 1 <==> rounds.None? || rounds.value == 0 || rounds.value == 1
    ensures rounds.Some? && rounds.value != 0 ==> r == rounds.value
  {
    if rounds.Some? && rounds.value != 0 then rounds.value else 1
  }

  /** A `race_entries` row. A freshly inserted row has no start or completion time, zero rounds
      and no lap statistics. */
  datatype Entry = Entry(
    regId: RegId, day: Day, status: Status, queuedAt: Time,
    startedAt: Option<Time>, completedAt: Option<Time>,
    roundsCompleted: int, best: Option<int>, avg: Option<int>)

  /** The provider's local copy of the active rider's entry (`activeRider.raceEntry`). */
  datatype EntryView = EntryView(
    status: Status, roundsCompleted: int, best: Option<int>, avg: Option<int>,
    startedAt: Option<Time>, completedAt: Option<Time>)

  /** The fields `selectRider` copies from the stored entry. */
  function ViewOf(e: Entry): (v: EntryView)
    ensures v.status == e.status && v.roundsCompleted == e.roundsCompleted
    ensures v.best == e.best && v.avg == e.avg && v.startedAt == e.startedAt && v.completedAt.None?
  {
    EntryView(e.status, e.roundsCompleted, e.best, e.avg, e.startedAt, None)
  }

  /** A `laps` row; `valid` is true when inserted. */
  datatype Lap = Lap(id: int, regId: RegId, day: Day, lapNumber: int, timeMs: int, valid: bool)

  /** The keys present in an update object such as `{ race_status: 'racing', race_started_at }`:
      `Some` for a key that is written, `None` for a key that is left alone. */
  datatype Patch = Patch(
    status: Option<Status>, queuedAt: Option<Time>, startedAt: Option<Time>,
    completedAt: Option<Time>, roundsCompleted: Option<int>, best: Option<int>, avg: Option<int>)

  const NoChange := Patch(None, None, None, None, None, None, None)

  function StatusPatch(s: Status): Patch { NoChange.(status := Some(s)) }

  /** `{ ...row, ...patch }` on a stored entry. */
  function ApplyToEntry(e: Entry, p: Patch): Entry {
    e.(status := p.status.GetOr(e.status), queuedAt := p.queuedAt.GetOr(e.queuedAt),
       startedAt := if p.startedAt.Some? then p.startedAt else e.startedAt,
       completedAt := if p.completedAt.Some? then p.completedAt else e.completedAt,
       roundsCompleted := p.roundsCompleted.GetOr(e.roundsCompleted),
       best := if p.best.Some? then p.best else e.best,
       avg := if p.avg.Some? then p.avg else e.avg)
  }

  /** `{ ...raceEntry, ...patch }` on the local copy. */
  function ApplyToView(v: EntryView, p: Patch): EntryView {
    v.(status := p.status.GetOr(v.status),
       startedAt := if p.startedAt.Some? then p.startedAt else v.startedAt,
       completedAt := if p.completedAt.Some? then p.completedAt else v.completedAt,
       roundsCompleted := p.roundsCompleted.GetOr(v.roundsCompleted),
       best := if p.best.Some? then p.best else v.best,
       avg := if p.avg.Some? then p.avg else v.avg)
  }

  /** The payload of an `UPDATE_LAP` action and of a lap update: the lap's id and the keys written. */
  datatype LapPatch = LapPatch(id: int, valid: Option<bool>, timeMs: Option<int>)

  /** `{ ...lap, ...patch }`. */
  function MergeLap(l: Lap, p: LapPatch): Lap {
    l.(id := p.id, valid := p.valid.GetOr(l.valid), timeMs := p.timeMs.GetOr(l.timeMs))
  }

  /** `.update(p).eq(...)`: every row the selector matches is patched, the others are kept. */
  function UpdateWhere(rows: seq<Entry>, sel: Entry -> bool, p: Patch): (r: seq<Entry>)
    ensures |r| == |rows|
    ensures forall i :: 0 <= i < |rows| ==>
      r[i] == if sel(rows[i]) then ApplyToEntry(rows[i], p) else rows[i]
  {
    seq(|rows|, i requires 0 <= i < |rows| => if sel(rows[i]) then ApplyToEntry(rows[i], p) else rows[i])
  }

  /** The row `scanRider` inserts; the other columns take their defaults. */
  function NewEntry(id: RegId, day: Day, now: Time): (e: Entry)
    ensures e.regId == id && e.day == day && e.status == Queued && e.queuedAt == now
  {
    Entry(id, day, Queued, now, None, None, 0, None, None)
  }

  /** `.eq('registration_id', id)`. */
  function ByReg(id: RegId): Entry -> bool { (e: Entry) => e.regId == id }

  /** `.eq('registration_id', id).eq('race_day', day)`. */
  function ByRegDay(id: RegId, day: Day): Entry -> bool { (e: Entry) => e.regId == id && e.day == day }

  /** `.eq('registration_id', id).eq('race_status', 'queued')`. */
  function QueuedOf(id: RegId): Entry -> bool { (e: Entry) => e.regId == id && e.status == Queued }

  /** `.single()` on the rows of one rider: the row when there is exactly one. */
  function Single(rows: seq<Entry>, id: RegId): (r: Option<Entry>)
    ensures r.Some? ==> r.value in rows && r.value.regId == id
    ensures r.Some? <==> |Filter(rows, ByReg(id))| == 1
  {
    var m := Filter(rows, ByReg(id));
    if |m| == 1 then
      assert m[0] in multiset(m);
      FilterMember(rows, ByReg(id), m[0]);
      Some(m[0])
    else None
  }

  /** The registration a row joins to (`registrations!inner(...)`), if any. */
  function FindReg(regs: seq<Registration>, id: RegId): (r: Option<Registration>)
    ensures r.Some? ==> r.value in regs && r.value.id == id
    ensures r.None? ==> forall k :: 0 <= k < |regs| ==> regs[k].id != id
  {
    if regs == [] then None
    else if regs[0].id == id then Some(regs[0])
    else FindReg(regs[1..], id)
  }

  /** `registrations.id` is the table's key. */
  ghost predicate UniqueIds(regs: seq<Registration>) {
    forall i, j :: 0 <= i < j < |regs| ==> regs[i].id != regs[j].id
  }

  /** The inner join of `rows` with `registrations`: each row together with its registration,
      combined by `join`, in the order of `rows`. */
  function Joined<R>(rows: seq<Entry>, regs: seq<Registration>, join: (Entry, Registration) -> R): (q: seq<R>)
    requires forall i :: 0 <= i < |rows| ==> FindReg(regs, rows[i].regId).Some?
    ensures |q| == |rows|
    ensures forall i :: 0 <= i < |rows| ==> q[i] == join(rows[i], FindReg(regs, rows[i].regId).value)
  {
    seq(|rows|, i requires 0 <= i < |rows| => join(rows[i], FindReg(regs, rows[i].regId).value))
  }

  /** The single-racing-rider rule: every row with status `racing` belongs to the same rider. */
  ghost predicate OneRacingRider(rows: seq<Entry>) {
    forall i, j :: 0 <= i < |rows| && 0 <= j < |rows| && rows[i].status == Racing && rows[j].status == Racing
      ==> rows[i].regId == rows[j].regId
  }

  /** No rider other than `id` has a row with status `racing`. */
  ghost predicate NoOtherRacing(rows: seq<Entry>, id: RegId) {
    forall i :: 0 <= i < |rows| && rows[i].status == Racing ==> rows[i].regId == id
  }

  lemma NoOtherRacingIsOne(rows: seq<Entry>, id: RegId)
    requires NoOtherRacing(rows, id)
    ensures OneRacingRider(rows)
  {
  }

  /** Under the rule, either nobody but `id` races or some other rider does and `id` does not. */
  lemma OneRacingSplit(rows: seq<Entry>, id: RegId)
    requires OneRacingRider(rows)
    ensures NoOtherRacing(rows, id) || forall i :: 0 <= i < |rows| && rows[i].status == Racing ==> rows[i].regId != id
  {
  }

  /** An update that writes no `racing` status keeps the rule, and keeps "nobody but `id`". */
  lemma UpdateNotRacing(rows: seq<Entry>, sel: Entry -> bool, p: Patch, id: RegId)
    requires p.status != Some(Racing)
    ensures OneRacingRider(rows) ==> OneRacingRider(UpdateWhere(rows, sel, p))
    ensures NoOtherRacing(rows, id) ==> NoOtherRacing(UpdateWhere(rows, sel, p), id)
  {
    var r := UpdateWhere(rows, sel, p);
    assert forall i :: 0 <= i < |r| && r[i].status == Racing ==> rows[i].status == Racing && r[i].regId == rows[i].regId;
  }

  /** Patching the rows of `id` alone keeps "nobody but `id` races", whatever the patch writes. */
  lemma UpdateOwnRows(rows: seq<Entry>, id: RegId, p: Patch)
    requires NoOtherRacing(rows, id)
    ensures NoOtherRacing(UpdateWhere(rows, ByReg(id), p), id)
    ensures OneRacingRider(UpdateWhere(rows, ByReg(id), p))
  {
    var r := UpdateWhere(rows, ByReg(id), p);
    assert forall i :: 0 <= i < |r| && r[i].regId != id ==> r[i] == rows[i];
  }

  /** Deleting rows keeps the rule. */
  lemma FilterKeepsOneRacing(rows: seq<Entry>, keep: Entry -> bool)
    requires OneRacingRider(rows)
    ensures OneRacingRider(Filter(rows, keep))
  {
    var r := Filter(rows, keep);
    forall i, j | 0 <= i < |r| && 0 <= j < |r| && r[i].status == Racing && r[j].status == Racing
      ensures r[i].regId == r[j].regId
    {
      assert r[i] in multiset(r) && r[j] in multiset(r);
      FilterMember(rows, keep, r[i]);
      FilterMember(rows, keep, r[j]);
      var a :| 0 <= a < |rows| && rows[a] == r[i];
      var b :| 0 <= b < |rows| && rows[b] == r[j];
    }
  }

  /** Adding a row that is not `racing` keeps the rule, and keeps "nobody but `id`". */
  lemma AppendNotRacing(rows: seq<Entry>, e: Entry, id: RegId)
    requires e.status != Racing
    ensures OneRacingRider(rows) ==> OneRacingRider(rows + [e])
    ensures NoOtherRacing(rows, id) ==> NoOtherRacing(rows + [e], id)
  {
    assert forall i :: 0 <= i < |rows| ==> (rows + [e])[i] == rows[i];
  }

  /** `markReady`'s update changes only `queued` rows of the given rider, and makes them `ready`. */
  lemma MarkReadyOnlyQueued(rows: seq<Entry>, id: RegId, i: int)
    requires 0 <= i < |rows|
    ensures var r := UpdateWhere(rows, QueuedOf(id), StatusPatch(Ready));
      && (r[i] != rows[i] ==> rows[i].regId == id && rows[i].status == Queued)
      && (rows[i].regId == id && rows[i].status == Queued ==> r[i] == rows[i].(status := Ready))
  {
  }

  /** Some row of rider `id` is `racing`. */
  ghost predicate RacingRowOf(rows: seq<Entry>, id: RegId) {
    exists i :: 0 <= i < |rows| && rows[i].status == Racing && rows[i].regId == id
  }

  /** Under the rule, a rider with a `racing` row is the only one racing. */
  lemma RacingRowIsOnly(rows: seq<Entry>, id: RegId)
    requires OneRacingRider(rows) && RacingRowOf(rows, id)
    ensures NoOtherRacing(rows, id)
  {
    var k :| 0 <= k < |rows| && rows[k].status == Racing && rows[k].regId == id;
  }

  /** Each rider has at most one `race_entries` row, whatever the day. */
  ghost predicate OneRowPerRider(rows: seq<Entry>) {
    forall i, j :: 0 <= i < j < |rows| ==> rows[i].regId != rows[j].regId
  }

  /** With one row per rider, the single-racing-rider rule allows at most one `racing` row. */
  lemma OneRacingRow(rows: seq<Entry>, i: int, j: int)
    requires OneRowPerRider(rows) && OneRacingRider(rows)
    requires 0 <= i < |rows| && 0 <= j < |rows| && rows[i].status == Racing && rows[j].status == Racing
    ensures i == j
  {
  }

  /** With one row per rider, `.eq('registration_id', id)` finds at most one row. */
  lemma {:induction false} OneRowFilter(rows: seq<Entry>, id: RegId)
    requires OneRowPerRider(rows)
    ensures |Filter(rows, ByReg(id))| <= 1
    decreases |rows|
  {
    if rows != [] {
      var t := rows[1..];
      assert forall k :: 0 <= k < |t| ==> t[k] == rows[k + 1];
      OneRowFilter(t, id);
      if rows[0].regId == id {
        NoRowFilter(t, id);
      }
    }
  }

  /** Nobody in `rows` has id `id` exactly when `.eq('registration_id', id)` finds nothing. */
  lemma NoRowFilter(rows: seq<Entry>, id: RegId)
    ensures Filter(rows, ByReg(id)) == [] <==> forall k :: 0 <= k < |rows| ==> rows[k].regId != id
  {
    var f := Filter(rows, ByReg(id));
    if f != [] {
      assert f[0] in multiset(f);
      FilterMember(rows, ByReg(id), f[0]);
    }
    forall k | 0 <= k < |rows| && rows[k].regId == id ensures f != [] {
      FilterKeeps(rows, ByReg(id), rows[k]);
    }
  }

  /** An update keeps every row's rider, so it keeps one row per rider. */
  lemma UpdateKeepsOneRow(rows: seq<Entry>, sel: Entry -> bool, p: Patch)
    requires OneRowPerRider(rows)
    ensures OneRowPerRider(UpdateWhere(rows, sel, p))
  {
    var r := UpdateWhere(rows, sel, p);
    assert forall k :: 0 <= k < |r| ==> r[k].regId == rows[k].regId;
  }

  /** Appending a row for a rider who has none keeps one row per rider. */
  lemma AppendKeepsOneRow(rows: seq<Entry>, e: Entry)
    requires OneRowPerRider(rows) && forall k :: 0 <= k < |rows| ==> rows[k].regId != e.regId
    ensures OneRowPerRider(rows + [e])
  {
    assert forall k :: 0 <= k < |rows| ==> (rows + [e])[k] == rows[k];
  }
}
