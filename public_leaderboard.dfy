/** The public leaderboard page: the twenty fastest best laps with their rank, and the rider
    currently on track. A failed read leaves `data` null, which both views turn into "nothing". */
module PublicLeaderboard {
  import opened Wrappers
  import opened Seqs
  import opened Records
  import opened Ranking

  /** `.limit(20)`. */
  const Limit: nat := 20

  /** One row of `leaders`. */
  datatype Leader = Leader(
    rank: int, fullName: string, enrollmentNo: Option<string>, college: string,
    best: int, roundsCompleted: int, totalRounds: int, status: Status)

  /** The `map((d, i) => ...)` step for the row `e` at rank `rank`. */
  function LeaderOf(rank: int, e: Entry, reg: Registration): Leader
    requires e.best.Some?
  {
    Leader(rank, reg.fullName, reg.enrollmentNo, reg.college, e.best.value, e.roundsCompleted,
           OrOne(reg.rounds), e.status)
  }

  /** The `map` over the fetched rows, which all have a best lap and a registration. */
  function LeaderRows(rows: seq<Entry>, regs: seq<Registration>): (q: seq<Leader>)
    requires forall i :: 0 <= i < |rows| ==> rows[i].best.Some? && FindReg(regs, rows[i].regId).Some?
    ensures |q| == |rows|
    ensures forall i :: 0 <= i < |rows| ==> q[i] == LeaderOf(i + 1, rows[i], FindReg(regs, rows[i].regId).value)
  {
    seq(|rows|, i requires 0 <= i < |rows| => LeaderOf(i + 1, rows[i], FindReg(regs, rows[i].regId).value))
  }

  /** `fetchLeaders`: `readOk` is whether the read returned data. */
  function Leaders(entries: seq<Entry>, regs: seq<Registration>, readOk: bool): (q: seq<Leader>)
    ensures !readOk ==> q == []
    ensures readOk ==> |q| == if |Filter(entries, HasBest(regs))| < Limit then |Filter(entries, HasBest(regs))| else Limit
    ensures |q| <= Limit
    ensures forall i :: 0 <= i < |q| ==> q[i].rank == i + 1 && q[i].totalRounds != 0
  {
    if !readOk then []
    else
      var r := Ranked(entries, regs);
      var top := Take(r, Limit);
      RankedJoined(entries, regs, r);
      LeaderRows(top, regs)
  }

  /** Position `i` of the board shows the `i`-th ranked row. */
  lemma LeaderAt(entries: seq<Entry>, regs: seq<Registration>, i: int)
    requires 0 <= i < |Leaders(entries, regs, true)|
    ensures var r := Ranked(entries, regs);
      && i < |r| && r[i].best.Some? && FindReg(regs, r[i].regId).Some?
      && Leaders(entries, regs, true)[i] == LeaderOf(i + 1, r[i], FindReg(regs, r[i].regId).value)
  {
    RankedJoined(entries, regs, Ranked(entries, regs));
  }

  /** The board is in ascending order of best lap. */
  lemma LeadersOrdered(entries: seq<Entry>, regs: seq<Registration>, readOk: bool)
    ensures var q := Leaders(entries, regs, readOk);
      forall i, j :: 0 <= i < j < |q| ==> q[i].best <= q[j].best
  {
    var q := Leaders(entries, regs, readOk);
    if readOk {
      var r := Ranked(entries, regs);
      RankedOrdered(entries, regs, r);
      forall i, j | 0 <= i < j < |q| ensures q[i].best <= q[j].best {
        LeaderAt(entries, regs, i);
        LeaderAt(entries, regs, j);
      }
    }
  }

  /** Every row of the board is a stored entry with a best lap, shown with its registration's
      name, enrollment number and college, its best lap and rounds unchanged, and `rounds || 1`. */
  lemma LeadersFromEntries(entries: seq<Entry>, regs: seq<Registration>, i: int)
    requires 0 <= i < |Leaders(entries, regs, true)|
    ensures exists k :: (0 <= k < |entries| && entries[k].best.Some? && FindReg(regs, entries[k].regId).Some?
      && Leaders(entries, regs, true)[i] == LeaderOf(i + 1, entries[k], FindReg(regs, entries[k].regId).value))
  {
    var r := Ranked(entries, regs);
    LeaderAt(entries, regs, i);
    assert r[i] in multiset(r);
    FilterMember(entries, HasBest(regs), r[i]);
    var k :| 0 <= k < |entries| && entries[k] == r[i];
  }

  /** The board holds the fastest riders: an entry with a best lap is either on it, at the rank
      of its position, or the board is full and its last row is at least as fast. */
  lemma LeadersAreFastest(entries: seq<Entry>, regs: seq<Registration>, e: Entry)
    requires e in entries && e.best.Some? && FindReg(regs, e.regId).Some?
    ensures var q := Leaders(entries, regs, true);
      || (exists i :: 0 <= i < |q| && q[i] == LeaderOf(i + 1, e, FindReg(regs, e.regId).value))
      || (|q| == Limit && q[Limit - 1].best <= e.best.value)
  {
    var q := Leaders(entries, regs, true);
    var r := Ranked(entries, regs);
    var k := RankedPosition(entries, regs, e);
    if k < Limit {
      LeaderAt(entries, regs, k);
      assert q[k] == LeaderOf(k + 1, e, FindReg(regs, e.regId).value);
    } else {
      RankedOrdered(entries, regs, r);
      LeaderAt(entries, regs, Limit - 1);
      assert r[Limit - 1].best.value <= r[k].best.value;
    }
  }

  /** `activeRacer`: the name and college of a `racing` entry. */
  datatype Racer = Racer(fullName: string, college: string)

  function RacingJoined(regs: seq<Registration>): Entry -> bool {
    (e: Entry) => e.status == Racing && FindReg(regs, e.regId).Some?
  }

  /** `fetchActiveRacer`: `.eq('race_status', 'racing').limit(1).maybeSingle()` with the inner
      join; the first such row in stored order stands for the one the store returns. */
  function ActiveRacer(entries: seq<Entry>, regs: seq<Registration>, readOk: bool): (a: Option<Racer>)
    ensures a.Some? ==> readOk && exists k :: (0 <= k < |entries| && entries[k].status == Racing
      && FindReg(regs, entries[k].regId).Some?
      && a.value == Racer(FindReg(regs, entries[k].regId).value.fullName, FindReg(regs, entries[k].regId).value.college))
  {
    if !readOk then None
    else
      var r := Filter(entries, RacingJoined(regs));
      if |r| == 0 then None
      else
        assert r[0] in multiset(r);
        FilterMember(entries, RacingJoined(regs), r[0]);
        var reg := FindReg(regs, r[0].regId).value;
        Some(Racer(reg.fullName, reg.college))
  }

  /** With a successful read there is an active racer exactly when some entry with a
      registration is `racing`. */
  lemma ActiveRacerPresent(entries: seq<Entry>, regs: seq<Registration>)
    ensures ActiveRacer(entries, regs, true).Some? <==>
      exists k :: 0 <= k < |entries| && entries[k].status == Racing && FindReg(regs, entries[k].regId).Some?
  {
    if k :| 0 <= k < |entries| && entries[k].status == Racing && FindReg(regs, entries[k].regId).Some? {
      FilterKeeps(entries, RacingJoined(regs), entries[k]);
    }
  }

  /** Under the single-racing-rider rule the active racer is that rider. */
  lemma ActiveRacerIsTheRider(entries: seq<Entry>, regs: seq<Registration>, k: int)
    requires OneRacingRider(entries)
    requires 0 <= k < |entries| && entries[k].status == Racing && FindReg(regs, entries[k].regId).Some?
    ensures var reg := FindReg(regs, entries[k].regId).value;
      ActiveRacer(entries, regs, true) == Some(Racer(reg.fullName, reg.college))
  {
    var r := Filter(entries, RacingJoined(regs));
    FilterKeeps(entries, RacingJoined(regs), entries[k]);
    assert r[0] in multiset(r);
    FilterMember(entries, RacingJoined(regs), r[0]);
    var m :| 0 <= m < |entries| && entries[m] == r[0];
  }
}
