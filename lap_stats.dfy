/** The lap statistics the provider recomputes after every lap change: the valid laps, the best
    (minimum) time and `Math.round(sum / count)`. */
module LapStats {
  import opened Wrappers
  import opened Seqs
  import opened Records

  /** `l.valid !== false`. */
  function IsValid(l: Lap): bool { l.valid }

  /** `laps.filter(l => l.valid !== false)`. */
  function ValidLaps(laps: seq<Lap>): (r: seq<Lap>)
    ensures |r| <= |laps|
    ensures forall i :: 0 <= i < |r| ==> r[i].valid
    ensures multiset(r) <= multiset(laps)
    ensures forall l :: l in laps && l.valid ==> l in r
  {
    var r := Filter(laps, IsValid);
    forall l | l in laps && l.valid ensures l in r {
      FilterKeeps(laps, IsValid, l);
    }
    r
  }

  /** `laps.map(l => l.lap_time_ms)`. */
  function Times(laps: seq<Lap>): (r: seq<int>)
    ensures |r| == |laps|
    ensures forall i :: 0 <= i < |laps| ==> r[i] == laps[i].timeMs
  {
    seq(|laps|, i requires 0 <= i < |laps| => laps[i].timeMs)
  }

  /** `times.reduce((a, b) => a + b, 0)`. */
  function Sum(xs: seq<int>): (r: int)
    ensures (forall i :: 0 <= i < |xs| ==> xs[i] >= 0) ==> r >= 0
    ensures |xs| == 1 ==> r == xs[0]
  {
    if xs == [] then 0
    else
      assert forall i :: 0 <= i < |xs[1..]| ==> xs[1..][i] == xs[i + 1];
      xs[0] + Sum(xs[1..])
  }

  /** `Math.min(...times)`. */
  function MinOf(xs: seq<int>): (r: int)
    requires |xs| > 0
    ensures exists i :: 0 <= i < |xs| && xs[i] == r
    ensures forall i :: 0 <= i < |xs| ==> r <= xs[i]
  {
    if |xs| == 1 then xs[0]
    else
      var m := MinOf(xs[1..]);
      assert forall i :: 1 <= i < |xs| ==> xs[i] == xs[1..][i - 1];
      if xs[0] <= m then xs[0] else m
  }

  /** The largest element. */
  function MaxOf(xs: seq<int>): (r: int)
    requires |xs| > 0
    ensures exists i :: 0 <= i < |xs| && xs[i] == r
    ensures forall i :: 0 <= i < |xs| ==> xs[i] <= r
  {
    if |xs| == 1 then xs[0]
    else
      var m := MaxOf(xs[1..]);
      assert forall i :: 1 <= i < |xs| ==> xs[i] == xs[1..][i - 1];
      if xs[0] >= m then xs[0] else m
  }

  /** `Math.round(sum / n)` for a positive count, computed without fractions: the integer nearest
      to `sum / n`, a half rounding up as `Math.round` does (`r - 1/2 <= sum / n < r + 1/2`). */
  function RoundedMean(sum: int, n: int): (r: int)
    requires n > 0
    ensures 2 * n * r <= 2 * sum + n < 2 * n * r + 2 * n
  {
    (2 * sum + n) / (2 * n)
  }

  /** The three numbers written to a `race_entries` row: `rounds_completed`,
      `best_lap_time_ms` and `average_lap_time_ms`. */
  datatype Stats = Stats(rounds: int, best: int, avg: int)

  function StatsOf(valid: seq<Lap>): (s: Stats)
    requires |valid| > 0
    ensures s.rounds == |valid|
    ensures exists i :: 0 <= i < |valid| && s.best == valid[i].timeMs
    ensures forall i :: 0 <= i < |valid| ==> s.best <= valid[i].timeMs
  {
    var t := Times(valid);
    Stats(|valid|, MinOf(t), RoundedMean(Sum(t), |valid|))
  }

  /** The entry's counters agree with the valid laps of `laps` (when there is at least one). */
  ghost predicate StatsAgree(v: EntryView, laps: seq<Lap>) {
    var valid := ValidLaps(laps);
    |valid| > 0 ==>
      var s := StatsOf(valid);
      v.roundsCompleted == s.rounds && v.best == Some(s.best) && v.avg == Some(s.avg)
  }

  /** `laps.filter(l => l.id !== lapId && l.valid !== false)`: the laps `invalidateLap` keeps. */
  function KeepsAfterInvalidate(lapId: int): Lap -> bool {
    (l: Lap) => l.id != lapId && l.valid
  }

  /** The reducer's `UPDATE_LAP`: merges the patch into the laps whose id matches. */
  function PatchLaps(laps: seq<Lap>, p: LapPatch): (r: seq<Lap>)
    ensures |r| == |laps|
    ensures forall i :: 0 <= i < |laps| ==> r[i] == if laps[i].id == p.id then MergeLap(laps[i], p) else laps[i]
  {
    seq(|laps|, i requires 0 <= i < |laps| => if laps[i].id == p.id then MergeLap(laps[i], p) else laps[i])
  }

  /** The lap `resetLastLap` invalidates: the last valid lap in list order. */
  function LastValid(laps: seq<Lap>): (r: Option<Lap>)
    ensures r.None? <==> ValidLaps(laps) == []
    ensures r.Some? ==> r.value == ValidLaps(laps)[|ValidLaps(laps)| - 1]
    ensures r.None? <==> LastValidIndex(laps) == -1
    ensures r.Some? ==> r.value == laps[LastValidIndex(laps)]
  {
    var v := ValidLaps(laps);
    FilteredLast(laps);
    if v == [] then None else Some(v[|v| - 1])
  }

  /** The position of the last lap whose `valid` flag is set, or -1 when there is none: every
      lap after it is invalid. */
  function LastValidIndex(laps: seq<Lap>): (k: int)
    ensures -1 <= k < |laps|
    ensures k >= 0 ==> laps[k].valid
    ensures forall j :: k < j < |laps| && 0 <= j ==> !laps[j].valid
    decreases |laps|
  {
    if laps == [] then -1
    else if laps[|laps| - 1].valid then |laps| - 1
    else
      var init := laps[..|laps| - 1];
      assert forall j :: 0 <= j < |init| ==> init[j] == laps[j];
      LastValidIndex(init)
  }

  /** The last element of the valid laps is the lap at `LastValidIndex`. */
  lemma {:induction false} FilteredLast(laps: seq<Lap>)
    ensures Filter(laps, IsValid) == [] <==> LastValidIndex(laps) == -1
    ensures Filter(laps, IsValid) != [] ==> Filter(laps, IsValid)[|Filter(laps, IsValid)| - 1] == laps[LastValidIndex(laps)]
    decreases |laps|
  {
    if laps != [] {
      var n := |laps|;
      var init, last := laps[..n - 1], laps[n - 1];
      assert laps == init + [last];
      FilterAppend(init, [last], IsValid);
      assert [last][1..] == [];
      var v := Filter(init, IsValid);
      if last.valid {
        assert Filter([last], IsValid) == [last];
        assert LastValidIndex(laps) == n - 1;
        assert Filter(laps, IsValid) == v + [last];
      } else {
        assert Filter([last], IsValid) == [];
        assert Filter(laps, IsValid) == v;
        assert LastValidIndex(laps) == LastValidIndex(init);
        FilteredLast(init);
        if LastValidIndex(init) >= 0 {
          assert laps[LastValidIndex(init)] == init[LastValidIndex(init)];
        }
      }
    }
  }

  function LapNumberKey(l: Lap): int { l.lapNumber }

  /** `.eq('registration_id', id)` on `laps`. */
  function LapOfRider(id: RegId): Lap -> bool { (l: Lap) => l.regId == id }

  /** `.from('laps').eq('registration_id', id).order('lap_number')`: the rider's laps, of every
      day, in lap-number order. */
  function RiderLaps(laps: seq<Lap>, id: RegId): (r: seq<Lap>)
    ensures multiset(r) == multiset(Filter(laps, LapOfRider(id)))
    ensures SortedBy(r, LapNumberKey)
    ensures forall i :: 0 <= i < |r| ==> r[i].regId == id
  {
    var mine := Filter(laps, LapOfRider(id));
    var r := SortBy(mine, LapNumberKey);
    forall i | 0 <= i < |r| ensures r[i].regId == id {
      assert r[i] in multiset(mine);
      FilterMember(laps, LapOfRider(id), r[i]);
    }
    r
  }

  /** A bound on the store's lap ids holds for the laps `selectRider` loads. */
  lemma RiderLapsBounded(laps: seq<Lap>, id: RegId, bound: int)
    requires forall i :: 0 <= i < |laps| ==> laps[i].id < bound
    ensures forall i :: 0 <= i < |RiderLaps(laps, id)| ==> RiderLaps(laps, id)[i].id < bound
  {
    var r := RiderLaps(laps, id);
    forall i | 0 <= i < |r| ensures r[i].id < bound {
      assert r[i] in multiset(Filter(laps, LapOfRider(id)));
      FilterMember(laps, LapOfRider(id), r[i]);
    }
  }

  // ---- lemmas ----

  lemma {:induction false} SumAppend(xs: seq<int>, x: int)
    ensures Sum(xs + [x]) == Sum(xs) + x
    decreases |xs|
  {
    if xs == [] {
      assert xs + [x] == [x];
    } else {
      assert (xs + [x])[1..] == xs[1..] + [x];
      SumAppend(xs[1..], x);
    }
  }

  /** A sum of `n` numbers lies between `n` times their lower bound and `n` times their upper one. */
  lemma {:induction false} SumBounds(xs: seq<int>, lo: int, hi: int)
    requires forall i :: 0 <= i < |xs| ==> lo <= xs[i] <= hi
    ensures |xs| * lo <= Sum(xs) <= |xs| * hi
    decreases |xs|
  {
    if xs != [] {
      assert forall i :: 0 <= i < |xs[1..]| ==> xs[1..][i] == xs[i + 1];
      SumBounds(xs[1..], lo, hi);
      assert |xs| * lo == (|xs| - 1) * lo + lo;
      assert |xs| * hi == (|xs| - 1) * hi + hi;
    }
  }

  /** The rounded average lies between the best and the worst lap time. */
  lemma AverageBetweenBestAndWorst(xs: seq<int>)
    requires |xs| > 0
    ensures MinOf(xs) <= RoundedMean(Sum(xs), |xs|) <= MaxOf(xs)
  {
    SumBounds(xs, MinOf(xs), MaxOf(xs));
    RoundedMeanBetween(Sum(xs), |xs|, MinOf(xs), MaxOf(xs));
  }

  /** A mean of numbers between `lo` and `hi` rounds to a value between them. */
  lemma RoundedMeanBetween(sum: int, n: int, lo: int, hi: int)
    requires n > 0 && n * lo <= sum <= n * hi
    ensures lo <= RoundedMean(sum, n) <= hi
  {
    var a := RoundedMean(sum, n);
    var k := 2 * n;
    assert k * a <= 2 * sum + n < k * a + k;
    assert k * lo <= 2 * sum && 2 * sum <= k * hi;
    assert k * (a + 1) == k * a + k;
    assert k * (hi + 1) == k * hi + k;
    CancelLess(k, lo, a + 1);
    CancelLess(k, a, hi + 1);
  }

  lemma CancelLess(k: int, x: int, y: int)
    requires k > 0 && k * x < k * y
    ensures x < y
  {
  }

  /** The best time after adding a lap is the smaller of the old best and the new time. */
  lemma {:induction false} MinOfAppend(xs: seq<int>, x: int)
    requires |xs| > 0
    ensures MinOf(xs + [x]) == if x < MinOf(xs) then x else MinOf(xs)
  {
    var m := MinOf(xs + [x]);
    assert (xs + [x])[|xs|] == x;
    assert forall i :: 0 <= i < |xs| ==> (xs + [x])[i] == xs[i];
    assert m in xs + [x];
  }

  lemma TimesAppend(a: seq<Lap>, b: seq<Lap>)
    ensures Times(a + b) == Times(a) + Times(b)
  {
  }

  /** Appending a valid lap appends it to the valid laps: the stats `stopLap` computes over the old
      valid laps and the new lap are the stats of the valid laps of the list after `ADD_LAP`. */
  lemma ValidLapsAppend(laps: seq<Lap>, l: Lap)
    requires l.valid
    ensures ValidLaps(laps + [l]) == ValidLaps(laps) + [l]
  {
    FilterAppend(laps, [l], IsValid);
    assert [l][1..] == [];
    assert Filter([l], IsValid) == [l];
  }

  /** The laps `invalidateLap` averages over are the valid laps of the list after its
      `UPDATE_LAP` with `valid: false`. */
  lemma {:induction false} InvalidateMatchesPatch(laps: seq<Lap>, lapId: int)
    ensures Filter(laps, KeepsAfterInvalidate(lapId)) == ValidLaps(PatchLaps(laps, LapPatch(lapId, Some(false), None)))
    decreases |laps|
  {
    var p := LapPatch(lapId, Some(false), None);
    if laps != [] {
      InvalidateMatchesPatch(laps[1..], lapId);
      assert PatchLaps(laps, p) == [PatchLaps(laps, p)[0]] + PatchLaps(laps[1..], p);
    }
  }

  /** The laps `editLapTime` averages over are the valid laps of the list after its
      `UPDATE_LAP` with the new time. */
  lemma {:induction false} EditMatchesPatch(laps: seq<Lap>, lapId: int, t: int)
    ensures ValidLaps(seq(|laps|, i requires 0 <= i < |laps| =>
                        if laps[i].id == lapId then laps[i].(timeMs := t) else laps[i]))
         == ValidLaps(PatchLaps(laps, LapPatch(lapId, None, Some(t))))
  {
    var p := LapPatch(lapId, None, Some(t));
    assert PatchLaps(laps, p) == seq(|laps|, i requires 0 <= i < |laps| =>
                        if laps[i].id == lapId then laps[i].(timeMs := t) else laps[i]);
  }

  /** Only the target lap changes under `UPDATE_LAP`, and its `lap_number`, rider and day stay. */
  lemma PatchLapsOnlyTarget(laps: seq<Lap>, p: LapPatch, i: int)
    requires 0 <= i < |laps|
    ensures laps[i].id != p.id ==> PatchLaps(laps, p)[i] == laps[i]
    ensures PatchLaps(laps, p)[i].id == laps[i].id && PatchLaps(laps, p)[i].lapNumber == laps[i].lapNumber
    ensures PatchLaps(laps, p)[i].regId == laps[i].regId && PatchLaps(laps, p)[i].day == laps[i].day
  {
  }

  /** Applying the same `UPDATE_LAP` twice is the same as applying it once. */
  lemma PatchLapsIdempotent(laps: seq<Lap>, p: LapPatch)
    ensures PatchLaps(PatchLaps(laps, p), p) == PatchLaps(laps, p)
  {
  }

  /** Editing a lap time does not change how many valid laps there are. */
  lemma {:induction false} EditKeepsCount(laps: seq<Lap>, lapId: int, t: int)
    ensures |ValidLaps(PatchLaps(laps, LapPatch(lapId, None, Some(t))))| == |ValidLaps(laps)|
    decreases |laps|
  {
    var p := LapPatch(lapId, None, Some(t));
    if laps != [] {
      EditKeepsCount(laps[1..], lapId, t);
      assert PatchLaps(laps, p) == [PatchLaps(laps, p)[0]] + PatchLaps(laps[1..], p);
    }
  }

  /** Recording a lap and then invalidating it leaves the valid laps as they were. */
  lemma RecordThenInvalidate(laps: seq<Lap>, l: Lap)
    requires forall i :: 0 <= i < |laps| ==> laps[i].id != l.id
    ensures Filter(laps + [l], KeepsAfterInvalidate(l.id)) == ValidLaps(laps)
  {
    var keep := KeepsAfterInvalidate(l.id);
    FilterAppend(laps, [l], keep);
    assert Filter([l], keep) == [] + Filter([l][1..], keep);
    FilterCongruent(laps, keep, IsValid);
  }

  /** Three laps of 45.000 s, 42.000 s and 44.000 s give best 42.000 s and average 43.667 s. */
  lemma ThreeLapExample()
    ensures var xs := [45000, 42000, 44000];
      MinOf(xs) == 42000 && RoundedMean(Sum(xs), 3) == 43667
  {
    var xs := [45000, 42000, 44000];
    assert xs[1..] == [42000, 44000] && xs[1..][1..] == [44000];
    assert Sum(xs) == 131000;
  }
}
