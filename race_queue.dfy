/** The queue `fetchQueue` shows: entries that are `queued` or `ready`, joined with their
    registration, oldest `queued_at` first. */
module RaceQueue {
  import opened Wrappers
  import opened Seqs
  import opened Records

  /** One element of `state.queue`. */
  datatype QueueItem = QueueItem(
    regId: RegId, status: Status, queuedAt: Time,
    fullName: string, enrollmentNo: Option<string>, college: string, rounds: int)

  /** `.in('race_status', ['queued', 'ready'])` together with the inner join on `registrations`. */
  function InQueue(regs: seq<Registration>): Entry -> bool {
    (e: Entry) => (e.status == Queued || e.status == Ready) && FindReg(regs, e.regId).Some?
  }

  function QueuedAtKey(e: Entry): int { e.queuedAt }

  /** A queue item: the entry's fields and its registration's, with `rounds || 1`. */
  function ItemOf(e: Entry, reg: Registration): (q: QueueItem)
    ensures q.regId == e.regId && q.status == e.status && q.queuedAt == e.queuedAt
    ensures q.fullName == reg.fullName && q.enrollmentNo == reg.enrollmentNo && q.college == reg.college
    ensures reg.rounds.Some? && reg.rounds.value != 0 ==> q.rounds == reg.rounds.value
    ensures reg.rounds.None? || reg.rounds.value == 0 ==> q.rounds == 1
  {
    QueueItem(e.regId, e.status, e.queuedAt, reg.fullName, reg.enrollmentNo, reg.college, OrOne(reg.rounds))
  }

  /** The `SET_QUEUE` payload after a successful read: the waiting entries in `queued_at` order. */
  function QueueOf(entries: seq<Entry>, regs: seq<Registration>): (q: seq<QueueItem>)
    ensures |q| == |Filter(entries, InQueue(regs))|
    ensures forall i :: 0 <= i < |q| ==> (q[i].status == Queued || q[i].status == Ready) && q[i].rounds != 0
  {
    var p := InQueue(regs);
    var sorted := SortBy(Filter(entries, p), QueuedAtKey);
    forall i | 0 <= i < |sorted| ensures p(sorted[i]) {
      FilterMember(entries, p, sorted[i]);
    }
    Joined(sorted, regs, ItemOf)
  }

  /** The queue is ordered by `queued_at`, oldest first. */
  lemma QueueOrdered(entries: seq<Entry>, regs: seq<Registration>)
    ensures var q := QueueOf(entries, regs);
      forall i, j :: 0 <= i < j < |q| ==> q[i].queuedAt <= q[j].queuedAt
  {
    var sorted := SortBy(Filter(entries, InQueue(regs)), QueuedAtKey);
    assert forall i :: 0 <= i < |sorted| ==> QueueOf(entries, regs)[i].queuedAt == QueuedAtKey(sorted[i]);
  }

  /** Every `queued` or `ready` entry that has a registration is in the queue. */
  lemma QueueComplete(entries: seq<Entry>, regs: seq<Registration>, e: Entry)
    requires e in entries && InQueue(regs)(e)
    ensures exists i ::
      0 <= i < |QueueOf(entries, regs)| && QueueOf(entries, regs)[i] == ItemOf(e, FindReg(regs, e.regId).value)
  {
    FilterKeeps(entries, InQueue(regs), e);
    var i := SortByPosition(Filter(entries, InQueue(regs)), QueuedAtKey, e);
    assert QueueOf(entries, regs)[i] == ItemOf(e, FindReg(regs, e.regId).value);
  }

  /** Every queue item comes from a `queued` or `ready` entry that has a registration. */
  lemma QueueSound(entries: seq<Entry>, regs: seq<Registration>, i: int)
    requires 0 <= i < |QueueOf(entries, regs)|
    ensures exists e ::
      e in entries && InQueue(regs)(e) && QueueOf(entries, regs)[i] == ItemOf(e, FindReg(regs, e.regId).value)
  {
    var sorted := SortBy(Filter(entries, InQueue(regs)), QueuedAtKey);
    var e := sorted[i];
    assert e in multiset(Filter(entries, InQueue(regs)));
    FilterMember(entries, InQueue(regs), e);
    assert QueueOf(entries, regs)[i] == ItemOf(e, FindReg(regs, e.regId).value);
  }
}
