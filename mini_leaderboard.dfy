/** The operator's mini leaderboard: every entry with a best lap, fastest first, with its rank.
    Unlike the public board it has no row limit and keeps the `registration_id`. */
module MiniLeaderboard {
  import opened Wrappers
  import opened Seqs
  import opened Records
  import opened Ranking

  /** One row of `leaders`. */
  datatype MiniRow = MiniRow(
    rank: int, regId: RegId, fullName: string, enrollmentNo: Option<string>, college: string,
    best: int, roundsCompleted: int, status: Status)

  function RowOf(rank: int, e: Entry, reg: Registration): MiniRow
    requires e.best.Some?
  {
    MiniRow(rank, e.regId, reg.fullName, reg.enrollmentNo, reg.college, e.best.value, e.roundsCompleted, e.status)
  }

  /** The `map` over the fetched rows, which all have a best lap and a registration. */
  function Rows(rows: seq<Entry>, regs: seq<Registration>): (q: seq<MiniRow>)
    requires forall i :: 0 <= i < |rows| ==> rows[i].best.Some? && FindReg(regs, rows[i].regId).Some?
    ensures |q| == |rows|
    ensures forall i :: 0 <= i < |rows| ==> q[i] == RowOf(i + 1, rows[i], FindReg(regs, rows[i].regId).value)
  {
    seq(|rows|, i requires 0 <= i < |rows| => RowOf(i + 1, rows[i], FindReg(regs, rows[i].regId).value))
  }

  /** `fetchLeaders`: `readOk` is whether the read returned data. */
  function Leaders(entries: seq<Entry>, regs: seq<Registration>, readOk: bool): (q: seq<MiniRow>)
    ensures !readOk ==> q == []
    ensures readOk ==> |q| == |Filter(entries, HasBest(regs))|
    ensures forall i :: 0 <= i < |q| ==> q[i].rank == i + 1
  {
    if !readOk then []
    else
      var r := Ranked(entries, regs);
      RankedJoined(entries, regs, r);
      Rows(r, regs)
  }

  /** Position `i` of the board shows the `i`-th ranked row. */
  lemma RowAt(entries: seq<Entry>, regs: seq<Registration>, i: int)
    requires 0 <= i < |Leaders(entries, regs, true)|
    ensures var r := Ranked(entries, regs);
      && i < |r| && r[i].best.Some? && FindReg(regs, r[i].regId).Some?
      && Leaders(entries, regs, true)[i] == RowOf(i + 1, r[i], FindReg(regs, r[i].regId).value)
  {
    RankedJoined(entries, regs, Ranked(entries, regs));
  }

  /** The board is in ascending order of best lap. */
  lemma LeadersOrdered(entries: seq<Entry>, regs: seq<Registration>, readOk: bool)
    ensures var q := Leaders(entries, regs, readOk);
      forall i, j :: 0 <= i < j < |q| ==> q[i].best <= q[j].best
  {
    var q := Leaders(entries, regs, readOk);
    if readOk {
      RankedOrdered(entries, regs, Ranked(entries, regs));
      forall i, j | 0 <= i < j < |q| ensures q[i].best <= q[j].best {
        RowAt(entries, regs, i);
        RowAt(entries, regs, j);
      }
    }
  }

  /** Every row is a stored entry with a best lap: its `registration_id`, best lap, rounds and
      status are copied unchanged. */
  lemma RowsFromEntries(entries: seq<Entry>, regs: seq<Registration>, i: int)
    requires 0 <= i < |Leaders(entries, regs, true)|
    ensures exists k :: (0 <= k < |entries| && entries[k].best.Some? && FindReg(regs, entries[k].regId).Some?
      && Leaders(entries, regs, true)[i] == RowOf(i + 1, entries[k], FindReg(regs, entries[k].regId).value))
  {
    var r := Ranked(entries, regs);
    RowAt(entries, regs, i);
    assert r[i] in multiset(r);
    FilterMember(entries, HasBest(regs), r[i]);
    var k :| 0 <= k < |entries| && entries[k] == r[i];
  }

  /** Every stored entry with a best lap and a registration is on the board, at the rank of its
      position. */
  lemma EveryRiderListed(entries: seq<Entry>, regs: seq<Registration>, e: Entry)
    requires e in entries && e.best.Some? && FindReg(regs, e.regId).Some?
    ensures var q := Leaders(entries, regs, true);
      exists i :: 0 <= i < |q| && q[i] == RowOf(i + 1, e, FindReg(regs, e.regId).value)
  {
    var k := RankedPosition(entries, regs, e);
    RowAt(entries, regs, k);
  }
}
