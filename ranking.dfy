/** The ranking query both leaderboards run: the entries with a best lap that have a
    registration (`.not('best_lap_time_ms', 'is', null)` with the inner join on `registrations`),
    fastest best lap first (`.order('best_lap_time_ms', { ascending: true })`). */
module Ranking {
  import opened Wrappers
  import opened Seqs
  import opened Records

  function HasBest(regs: seq<Registration>): Entry -> bool {
    (e: Entry) => e.best.Some? && FindReg(regs, e.regId).Some?
  }

  function BestKey(e: Entry): int { if e.best.Some? then e.best.value else 0 }

  /** The ranked rows. Rows with equal best laps keep their stored order. */
  function Ranked(entries: seq<Entry>, regs: seq<Registration>): (r: seq<Entry>)
    ensures multiset(r) == multiset(Filter(entries, HasBest(regs)))
    ensures |r| == |Filter(entries, HasBest(regs))|
  {
    SortBy(Filter(entries, HasBest(regs)), BestKey)
  }

  /** Every ranked row has a best lap and a registration. */
  lemma RankedJoined(entries: seq<Entry>, regs: seq<Registration>, r: seq<Entry>)
    requires r == Ranked(entries, regs)
    ensures forall i :: 0 <= i < |r| ==> r[i].best.Some? && FindReg(regs, r[i].regId).Some?
  {
    forall i | 0 <= i < |r| ensures r[i].best.Some? && FindReg(regs, r[i].regId).Some? {
      assert r[i] in multiset(r);
      FilterMember(entries, HasBest(regs), r[i]);
    }
  }

  /** The ranked rows are exactly the stored entries with a best lap and a registration, each
      as often as it is stored. */
  lemma RankedExactly(entries: seq<Entry>, regs: seq<Registration>, e: Entry)
    ensures e in multiset(Ranked(entries, regs)) <==> e in entries && e.best.Some? && FindReg(regs, e.regId).Some?
  {
    if e in multiset(Ranked(entries, regs)) {
      FilterMember(entries, HasBest(regs), e);
    }
    if e in entries && HasBest(regs)(e) {
      FilterKeeps(entries, HasBest(regs), e);
    }
  }

  /** The ranked rows are in ascending order of best lap. */
  lemma RankedOrdered(entries: seq<Entry>, regs: seq<Registration>, r: seq<Entry>)
    requires r == Ranked(entries, regs)
    ensures forall i, j :: 0 <= i < j < |r| ==> r[i].best.Some? && r[j].best.Some? && r[i].best.value <= r[j].best.value
  {
    RankedJoined(entries, regs, r);
    assert SortedBy(r, BestKey);
    forall i, j | 0 <= i < j < |r| ensures r[i].best.Some? && r[j].best.Some? && r[i].best.value <= r[j].best.value {
      assert BestKey(r[i]) <= BestKey(r[j]);
    }
  }

  /** A stored entry with a best lap and a registration sits at some position of the ranking. */
  lemma RankedPosition(entries: seq<Entry>, regs: seq<Registration>, e: Entry) returns (k: int)
    requires e in entries && e.best.Some? && FindReg(regs, e.regId).Some?
    ensures 0 <= k < |Ranked(entries, regs)| && Ranked(entries, regs)[k] == e
  {
    RankedExactly(entries, regs, e);
    var r := Ranked(entries, regs);
    assert e in r;
    k :| 0 <= k < |r| && r[k] == e;
  }
}
