# Kart race control, modelled in Dafny

This project models the race-control core of a kart-timing dashboard. The dashboard is a React
application whose state lives in three Supabase tables: `registrations`, `race_entries` and
`laps`. The model covers seven parts of it:

- the race state machine of the `RaceProvider` context. Its callbacks scan a rider into the
  queue, mark the rider ready, select the rider, start and stop laps, correct the lap history,
  and cancel or disqualify the rider;
- the provider's reducer and its `formatMs` helper. The public page has its own copy of
  `formatMs` (src/pages/PublicLeaderboard.jsx:4-10), which is identical and is modelled by the
  same `TimeFormat.FormatMs`;
- the admin panel of active sessions, with its two overrides;
- the public and the operator leaderboards;
- the guards of the active-rider card, which decide which controls are offered for each status;
- the event-day table.

The tables are an in-memory `RaceStore.Store`. Entries are a sequence of rows, not a map. The
code filters on `registration_id` alone and then calls `.single()`, and a sequence keeps what
that does when one rider has rows for several days. The provider is the class
`RaceContext.RaceProvider`. Its fields are the store, the reducer's `state` and the stopwatch's
`startTime`. Each callback is a method, and every local change goes through the reducer
(`ViewState.Reduce`). Wall-clock readings, ISO timestamps and the `race_day` column default are
parameters. Every store error that the code inspects is a boolean parameter (`writeOk`, `lapOk`,
`queueOk`, `readOk`). The toast a callback ends with is its `Outcome`.

The main invariant is the single-racing-rider rule, `Records.OneRacingRider`: every `racing` row
belongs to the same rider. It is stated per rider, not per row, because `startLap` updates by
`registration_id` alone (src/context/RaceContext.jsx:262-268). A rider with rows on two days
therefore ends with two `racing` rows (`RaceContext.StartRacesEveryRow`). When every rider has at
most one row (`Records.OneRowPerRider`), the rule allows a single `racing` row
(`Records.OneRacingRow`). `scanRider` keeps that shape, since it inserts only when `.single()`
finds no row (`RaceContext.ScanKeepsOneRowPerRider`).

Every store-changing operation preserves the rule. `stopLap` keeps it only when the stopped rider
is the one racing, or when the lap completes the race. The program meets that condition through
the active-rider card alone: the card is the only caller of `stopLap`, and it offers Stop only for
a `racing` entry (src/components/ActiveRiderCard.jsx:80-89). `selectRider` keeps a running
stopwatch, so without that guard a stop for a newly selected rider who is not racing would write
`racing` for a second rider (`RaceContext.StopForOtherRiderBreaksRule`).

The second invariant is that an entry's counters agree with its valid laps
(`LapStats.StatsAgree`). `stopLap` establishes it, and `invalidateLap`, `resetLastLap` and
`editLapTime` keep it whenever a valid lap remains.

Quirks of the code that the model keeps:

- `scanRider`, `startLap`, `stopLap`, the lap corrections, `cancelRider` and `disqualifyRider`
  select rows by `registration_id` only. They update the rider's rows of every day.
- `scanRider` reads the existing entry with `.single()`, which finds nothing when the rider has
  two or more rows. Scanning such a rider inserts yet another row
  (`RaceContext.ScanWithSeveralRowsInserts`).
- After `startLap`, the local entry's `race_started_at` becomes `now`, even when the store kept
  the older start time.
- `stopLap` does not inspect the result of its entry update. The local copy is updated either
  way.
- A `startTime` of 0 counts as "not running", because the code tests `!startTime`.
- When invalidation leaves no valid lap, the entry's statistics are left as they were.
- `selectRider` keeps a running stopwatch when the operator switches riders.
- `forceRemove` deletes the laps before it deletes the entry. If the entry deletion fails, the
  laps are gone anyway.
- `fetchSessions` ignores a failed read, while both leaderboards show an empty board after one.
- `scanRider` has no check against a rider's entries on other days. Its `.single()` filters on
  `registration_id` alone (src/context/RaceContext.jsx:143-147). So a rider whose one stored row
  is `completed` is refused whatever the day, and a rider with two or more rows gets another row
  (`RaceContext.ScanWithSeveralRowsInserts`).

## Model

| member | source | states |
|---|---|---|
| TimeFormat.PadStart | src/context/RaceContext.jsx:12 | `padStart` adds the fill in front only; the result has length max(len, width) and ends with the original string, so nothing is truncated |
| TimeFormat.JsRem | src/context/RaceContext.jsx:10-11 | JavaScript `%`: equal to the mathematical remainder for a non-negative dividend, between -b and 0 for a negative one |
| TimeFormat.NatToString | src/context/RaceContext.jsx:12 | `String(n)` of a non-negative integer is a non-empty string of decimal digits, with at most 1, 2 or 3 digits below 10, 100 or 1000 |
| TimeFormat.NatToStringValue | src/context/RaceContext.jsx:12 | the digits of `String(n)` read back as `n` |
| TimeFormat.PaddedValue | src/context/RaceContext.jsx:12 | a zero-padded `String(n)` is still all digits and still reads back as `n` |
| TimeFormat.FieldsDecompose | src/context/RaceContext.jsx:9-11 | for ms >= 0, seconds < 60, millis < 1000 and minutes >= 0, and minutes*60000 + seconds*1000 + millis = ms |
| TimeFormat.FormatMsRoundTrip | src/context/RaceContext.jsx:7-13 | for every ms >= 0, an independent `M:SS.mmm` parser reads `formatMs(ms)` back as ms |
| TimeFormat.FormatMsFields | src/context/RaceContext.jsx:9-12 | the minutes field is padded to at least two characters and never cut: all its digits precede the `:`, and exactly `SS.mmm` follows |
| TimeFormat.FormatMs | src/context/RaceContext.jsx:7-13 | null renders as `--`; a non-negative count renders as at least nine characters with the `:` seven and the `.` four from the end (its partner `FormatMsRoundTrip` reads it back) |
| TimeFormat.NegativeCount | src/context/RaceContext.jsx:9-12 | with JavaScript's signs a negative count keeps negative fields: -1 ms renders as `-1:-1.0-1` |
| TimeFormat.FormatMsNull | src/context/RaceContext.jsx:8 | null renders as `--` |
| Records.OrOne | src/context/RaceContext.jsx:133 | `rounds \|\| 1` is never 0; it is 1 exactly when rounds is missing, 0 or 1, and otherwise the rounds value |
| Records.UpdateWhere | src/context/RaceContext.jsx:177-180 | `.update(p).eq(...)` patches exactly the selected rows and keeps the others and their order |
| Records.NewEntry | src/context/RaceContext.jsx:163-169 | the inserted entry is `queued` for the rider with `queued_at = now` |
| Records.Single | src/context/RaceContext.jsx:143-147 | `.single()` returns a row of the rider exactly when the rider has exactly one row |
| Records.FindReg | src/context/RaceContext.jsx:74 | the inner join finds a registration with the entry's id, or there is none |
| Records.NoOtherRacingIsOne | src/context/RaceContext.jsx:250-259 | "nobody but this rider races" implies the single-racing-rider rule |
| Records.OneRacingSplit | src/context/RaceContext.jsx:256 | under the rule, either nobody but the rider races, or the rider does not race at all |
| Records.UpdateNotRacing | src/context/RaceContext.jsx:412-446 | an update that does not write `racing` keeps the rule |
| Records.UpdateOwnRows | src/context/RaceContext.jsx:262-268 | patching only the racing rider's own rows keeps the rule, whatever the patch writes |
| Records.FilterKeepsOneRacing | src/components/ActiveSessions.jsx:43-45 | deleting rows keeps the rule |
| Records.AppendNotRacing | src/context/RaceContext.jsx:163-169 | inserting a row that is not `racing` keeps the rule |
| Records.MarkReadyOnlyQueued | src/context/RaceContext.jsx:194-199 | `markReady` changes only `queued` rows of the given rider, and it makes them `ready` |
| Records.RacingRowIsOnly | src/context/RaceContext.jsx:330-333 | under the rule, a rider with a `racing` row is the only rider racing |
| Records.ViewOf | src/context/RaceContext.jsx:234-240 | `selectRider`'s local entry copies status, rounds, best, average and start time, and has no completion time |
| Records.Joined | src/context/RaceContext.jsx:74 | the inner join keeps the rows in order, one result per row, built from the row and its registration |
| Records.OneRacingRow | src/context/RaceContext.jsx:262-268 | with at most one row per rider, two `racing` rows under the rule are the same row |
| Records.OneRowFilter | src/context/RaceContext.jsx:143-147 | with at most one row per rider, `.eq('registration_id', id)` finds at most one row |
| Records.NoRowFilter | src/context/RaceContext.jsx:143-147 | the filter on a rider finds nothing exactly when no row belongs to the rider |
| Records.UpdateKeepsOneRow | src/context/RaceContext.jsx:177-180 | every update keeps each row's rider, and so keeps one row per rider |
| Records.AppendKeepsOneRow | src/context/RaceContext.jsx:163-169 | inserting a row for a rider who has none keeps one row per rider |
| RiderLookup.Trim | src/context/RaceContext.jsx:102 | `trim()` returns the stretch of the input left after removing leading and trailing white space; it neither starts nor ends with white space |
| RiderLookup.TrimIdempotent | src/context/RaceContext.jsx:102 | trimming twice gives the same result as trimming once |
| RiderLookup.ILikeIgnoresCase | src/context/RaceContext.jsx:108 | an `ilike` match does not depend on the case of either side |
| RiderLookup.MaybeSingle | src/context/RaceContext.jsx:109 | `.maybeSingle()` gives a matching registration exactly when exactly one registration matches |
| RiderLookup.Lookup | src/context/RaceContext.jsx:102-130 | the trimmed term is matched against `registration_id` first; the enrollment number is tried only when that match is not unique; a result comes from `registrations` and matches the term |
| RiderLookup.Decide | src/context/RaceContext.jsx:149-186 | no entry means insert; `completed` is refused; `queued`, `ready` and `racing` are refused as active; `cancelled` and `disqualified` are re-queued; each case holds in both directions |
| RaceContext.Scan | src/context/RaceContext.jsx:98-191 | not found, ineligible, already completed or already active: no write. Otherwise a new `queued` row is inserted, or every row of the rider is re-queued with a fresh `queued_at`, unless the write fails. The rule is kept |
| RaceContext.ScanTwiceRefused | src/context/RaceContext.jsx:143-159 | a rider with at most one row who was just queued is refused as already active on the next scan |
| RaceContext.ScanWithSeveralRowsInserts | src/context/RaceContext.jsx:143-169 | a rider with two or more rows gets yet another row on every scan |
| RaceContext.ScanQueuesOnlyPaid | src/context/RaceContext.jsx:136-140 | only a registration with `is_paid` and status `PAID` is ever queued; any other found registration is refused as ineligible with no write |
| RaceContext.ScanKeepsOneRowPerRider | src/context/RaceContext.jsx:143-169 | with at most one row per rider before a scan, there is at most one row per rider after it |
| RaceContext.StartRacesEveryRow | src/context/RaceContext.jsx:262-268 | `startLap`'s update makes every row of the rider `racing`, so two rows of one rider both become `racing` |
| RaceContext.StatusLeavesNotRacing | src/context/RaceContext.jsx:415-418 | after all of a rider's rows get a status other than `racing`, the rider is not among the racing ids |
| RaceContext.UpdateOwnFilter | src/context/RaceContext.jsx:177-180 | after a re-queue, the rider's rows are the old rows with the patch applied, in the same order |
| RaceContext.RacingIds | src/context/RaceContext.jsx:251-255 | `racingNow` holds exactly the ids of the rows that are `racing` |
| RaceContext.StopStepFacts | src/context/RaceContext.jsx:284-335 | the new lap is number (valid laps + 1) and is appended to the valid laps; afterwards the counters agree with the valid laps; status becomes `completed` with `race_completed_at` exactly when rounds reach `rounds \|\| 1`, and stays `racing` otherwise |
| RaceContext.StopStep | src/context/RaceContext.jsx:286-328 | the new lap is valid and numbered valid laps + 1 and is appended; rounds become valid laps + 1; the race completes exactly when they reach `rounds \|\| 1`, and the entry's status is `completed` then and `racing` otherwise |
| RaceContext.StopForOtherRiderBreaksRule | src/context/RaceContext.jsx:314-330 | a lap stop that does not complete the race, for a rider other than the one racing, leaves two riders with `racing` rows |
| RaceContext.RaceProvider.constructor | src/context/RaceContext.jsx:19-25 | the provider starts with an empty queue, no active rider, no laps and a stopped stopwatch |
| RaceContext.RaceProvider.Dispatch | src/context/RaceContext.jsx:62 | `dispatch` replaces the state by the reducer's result and leaves the stopwatch alone |
| RaceContext.RaceProvider.FetchQueue | src/context/RaceContext.jsx:71-95 | a successful read replaces the queue by the queue projection of the store; a failed one changes nothing |
| RaceContext.RaceProvider.ScanRider | src/context/RaceContext.jsx:98-191 | the store's entries become exactly what `Scan` computes, and the outcome is `Scan`'s outcome; laps and the stopwatch are unchanged, loading ends, and the queue is reloaded only after a successful queueing |
| RaceContext.RaceProvider.Admit | src/context/RaceContext.jsx:162-190 | the insert or re-queue, then the queue reload and the end of loading; a failed write changes no entry |
| RaceContext.RaceProvider.Enqueue | src/context/RaceContext.jsx:162-186 | a new row is appended, or the rider's rows are re-queued; the rule is kept |
| RaceContext.RaceProvider.MarkReady | src/context/RaceContext.jsx:194-206 | only the rider's `queued` rows become `ready`; a failed write changes nothing; the rule is kept |
| RaceContext.RaceProvider.SelectRider | src/context/RaceContext.jsx:209-244 | with exactly one entry and a registration, the rider becomes active with `rounds \|\| 1` and their laps in lap-number order; otherwise nothing changes; the stopwatch is kept |
| RaceContext.RaceProvider.StartLap | src/context/RaceContext.jsx:247-278 | no active rider: ignored. Another rider racing: refused with no change. Otherwise, with a successful write, the rider's rows become `racing` and keep their start time or get `now`, the local entry gets `now`, and the stopwatch starts only then. Under the rule it is refused exactly when another rider races, and the rule is kept |
| RaceContext.RaceProvider.MarkRacing | src/context/RaceContext.jsx:261-277 | the write, the local update and the stopwatch start of a `startLap` that went ahead |
| RaceContext.RaceProvider.StopLap | src/context/RaceContext.jsx:281-347 | ignored exactly without an active rider or a running stopwatch (0 counts as stopped). A failed insert leaves the stopwatch stopped and changes nothing else. Otherwise the lap and statistics of `StopStepFacts` are recorded, and the stopwatch restarts exactly when the race is not complete. The rule is kept when the rider was the one racing, or when the race completes |
| RaceContext.RaceProvider.FinishLap | src/context/RaceContext.jsx:284-347 | after a successful insert: the lap gets the next id, the entry update (unchecked) and the local update follow, and the stopwatch restarts or the queue is reloaded |
| RaceContext.RaceProvider.SettleLap | src/context/RaceContext.jsx:317-346 | the statistics write, the restart while laps remain, and the queue reload once the race is complete |
| RaceContext.RaceProvider.RecordLap | src/context/RaceContext.jsx:290-305 | the inserted lap is valid, gets the next id and is appended to the store and to the local list, and its id is new there |
| RaceContext.RaceProvider.SaveEntry | src/context/RaceContext.jsx:330-335 | the rider's rows get the patch unless the unchecked write fails; the local copy gets it regardless |
| RaceContext.RaceProvider.PatchLap | src/context/RaceContext.jsx:350-359 | the lap row with the id is patched in the store and in the local list, and nothing else changes |
| RaceContext.RaceProvider.InvalidateLap | src/context/RaceContext.jsx:350-374 | only the target lap becomes invalid. While valid laps remain, their count, best and average are written and agree with them. Otherwise the entry is untouched. Status is never touched, and a failed write changes nothing |
| RaceContext.RaceProvider.ResetLastLap | src/context/RaceContext.jsx:377-382 | the last valid lap in list order is invalidated; with no valid lap nothing happens |
| RaceContext.RaceProvider.EditLapTime | src/context/RaceContext.jsx:385-409 | only the target lap's time changes. The number of valid laps and `rounds_completed` stay, best and average are rewritten and keep agreeing with the valid laps, and status is never touched |
| RaceContext.RaceProvider.CancelRider | src/context/RaceContext.jsx:412-428 | every row of the rider becomes `cancelled` whatever its status. An active rider leaves the panel and the stopwatch stops. The rule is kept |
| RaceContext.RaceProvider.DisqualifyRider | src/context/RaceContext.jsx:431-446 | every row of the active rider becomes `disqualified` whatever its status, and the panel and the stopwatch are cleared; without an active rider nothing happens |
| LapStats.ValidLaps | src/context/RaceContext.jsx:287 | the laps with `valid !== false`: every one of them is valid, none is added, and every valid lap is kept |
| LapStats.Times | src/context/RaceContext.jsx:309 | the lap times, position by position |
| LapStats.MinOf | src/context/RaceContext.jsx:310 | `Math.min(...times)` is one of the times and no time is smaller |
| LapStats.Sum | src/context/RaceContext.jsx:311 | `reduce((a, b) => a + b, 0)` of non-negative times is non-negative, and of one time is that time (partners `SumAppend`, `SumBounds`) |
| LapStats.SumBounds | src/context/RaceContext.jsx:311 | a sum of n numbers lies between n times their lower bound and n times their upper bound |
| LapStats.RoundedMean | src/context/RaceContext.jsx:311 | `Math.round(sum / n)` is the integer nearest to sum/n, a half rounding up: 2n·r <= 2·sum + n < 2n·r + 2n |
| LapStats.StatsOf | src/context/RaceContext.jsx:308-312 | rounds = the number of valid laps; best is one of their times and no time is below it |
| LapStats.AverageBetweenBestAndWorst | src/context/RaceContext.jsx:310-311 | the rounded average lies between the best and the worst lap time |
| LapStats.MinOfAppend | src/context/RaceContext.jsx:308-310 | the best after a new lap is the smaller of the old best and the new time |
| LapStats.ValidLapsAppend | src/context/RaceContext.jsx:305-308 | the laps `stopLap` averages over are the valid laps of the list after `ADD_LAP` |
| LapStats.PatchLaps | src/context/RaceContext.jsx:37-41 | `UPDATE_LAP` merges the payload into exactly the laps whose id matches |
| LapStats.PatchLapsOnlyTarget | src/context/RaceContext.jsx:37-41 | only the target lap changes, and it keeps its id, lap number, rider and day |
| LapStats.PatchLapsIdempotent | src/context/RaceContext.jsx:37-41 | the same `UPDATE_LAP` applied twice has the effect of applying it once |
| LapStats.InvalidateMatchesPatch | src/context/RaceContext.jsx:359-362 | the laps `invalidateLap` averages over are the valid laps of the list after its `UPDATE_LAP` |
| LapStats.EditMatchesPatch | src/context/RaceContext.jsx:394-397 | the laps `editLapTime` averages over are the valid laps of the list after its `UPDATE_LAP` |
| LapStats.EditKeepsCount | src/context/RaceContext.jsx:397 | editing a time keeps the number of valid laps |
| LapStats.RecordThenInvalidate | src/context/RaceContext.jsx:359-362 | invalidating a just-recorded lap gives back the valid laps from before it |
| LapStats.ThreeLapExample | src/context/RaceContext.jsx:310-311 | laps of 45.000 s, 42.000 s and 44.000 s give best 42.000 s and average 43.667 s |
| LapStats.LastValid | src/context/RaceContext.jsx:378-380 | the last element of the valid laps, found at `LastValidIndex`; none exactly when no lap is valid |
| LapStats.LastValidIndex | src/context/RaceContext.jsx:378-380 | the position of a valid lap after which no lap is valid, or -1 when no lap is valid |
| LapStats.FilteredLast | src/context/RaceContext.jsx:378-380 | the last valid lap in list order is the lap at `LastValidIndex`, and there is none exactly when that index is -1 |
| LapStats.RiderLaps | src/context/RaceContext.jsx:219-223 | all the rider's laps, of every day, each as often as stored, in lap-number order |
| ViewState.ReduceChangesOnlyItsTarget | src/context/RaceContext.jsx:27-58 | each action changes only its own field: `ADD_LAP` appends; `UPDATE_LAP` merges only into the lap with the payload's id; `UPDATE_ACTIVE_RACE_ENTRY` does nothing without an active rider; unknown actions change nothing |
| ViewState.UpdateLapIdempotent | src/context/RaceContext.jsx:37-41 | dispatching the same `UPDATE_LAP` twice gives the state that one dispatch gives |
| ViewState.AddLapExtendsValid | src/context/RaceContext.jsx:35-36 | `ADD_LAP` of a valid lap adds exactly that lap to the valid laps |
| ViewState.EntryPatchKeepsStatus | src/context/RaceContext.jsx:46-54 | an entry patch without a status keeps both the rider's presence and their status |
| ViewState.Reduce | src/context/RaceContext.jsx:27-58 | every action leaves the fields it does not name unchanged; only `SET_ACTIVE_RIDER` can bring in a rider, and `UPDATE_ACTIVE_RACE_ENTRY` changes only the rider's entry |
| RaceQueue.QueueOf | src/context/RaceContext.jsx:71-95 | one item per `queued` or `ready` entry with a registration, each with status `queued` or `ready` and non-zero rounds |
| RaceQueue.QueueOrdered | src/context/RaceContext.jsx:76 | the queue is in ascending `queued_at` order |
| RaceQueue.QueueComplete | src/context/RaceContext.jsx:75 | every `queued` or `ready` entry with a registration appears in the queue |
| RaceQueue.QueueSound | src/context/RaceContext.jsx:72-92 | every queue item is the projection of a stored `queued` or `ready` entry that has a registration |
| RaceQueue.ItemOf | src/context/RaceContext.jsx:85-92 | a queue item copies the entry's id, status and `queued_at` and the registration's name, enrollment number and college; rounds is `rounds \|\| 1` |
| RaceDay.GetRaceDay | src/lib/raceDay.js:19-22 | the table's day for an event date, 4 for any other date, and always within 1..`TOTAL_DAYS` |
| RaceDay.EventCalendar | src/lib/raceDay.js:8-13 | 2026-02-21 to 2026-02-24 are days 1 to 4, and the table has `TOTAL_DAYS` = 4 dates |
| RaceDay.EventDaysInjective | src/lib/raceDay.js:8-13 | distinct event dates are distinct days |
| Seqs.SortBy | src/context/RaceContext.jsx:76 | `order(key, ascending)` returns a permutation of its input in ascending key order |
| Seqs.TiesKeepOrder | src/context/RaceContext.jsx:76 | rows with equal keys come out in their input order (shown on an instance) |
| Seqs.SortByPosition | src/context/RaceContext.jsx:76 | every input row has a position in the sorted result |
| Seqs.Take | src/pages/PublicLeaderboard.jsx:23 | `limit(n)` keeps the first min(n, length) rows, position by position |
| ActiveSessions.LatestFirst | src/components/ActiveSessions.jsx:15 | the ordering keeps every row, each as often as given |
| ActiveSessions.SessionRows | src/components/ActiveSessions.jsx:13-15 | the listed rows are the active rows with a registration, each as often as stored |
| ActiveSessions.SessionRowsActive | src/components/ActiveSessions.jsx:13-14 | every listed row is `racing`, `queued` or `ready` and has a registration |
| ActiveSessions.Sessions | src/components/ActiveSessions.jsx:10-22 | one session per active entry with a registration, each with an active status |
| ActiveSessions.SessionRowsExactly | src/components/ActiveSessions.jsx:13-14 | an entry is listed exactly when it is stored, `racing`, `queued` or `ready`, and has a registration |
| ActiveSessions.StartedPart | src/components/ActiveSessions.jsx:15 | the sorted front part holds only rows with a start time |
| ActiveSessions.LatestFirstOrdered | src/components/ActiveSessions.jsx:15 | rows with a start time come first, latest first; rows without one come last |
| ActiveSessions.SessionsOrdered | src/components/ActiveSessions.jsx:15 | the panel's list is latest start first, with the rows without a start time last |
| ActiveSessions.RemoveEntriesExactly | src/components/ActiveSessions.jsx:43-45 | a stored entry survives `forceRemove` exactly when it is not the removed (rider, day) pair |
| ActiveSessions.RemoveLapsExactly | src/components/ActiveSessions.jsx:39-41 | a stored lap survives exactly when it belongs to another rider or another day |
| ActiveSessions.RemoveLapsBounded | src/components/ActiveSessions.jsx:39-41 | after deleting laps, every remaining lap id is still below the next id |
| ActiveSessions.RemovedLeavesPanel | src/components/ActiveSessions.jsx:37-51 | after a removal the pair no longer appears in the panel |
| ActiveSessions.ForceCompleteEffect | src/components/ActiveSessions.jsx:55-58 | the pair's rows become `completed` at `now` whatever their status, with rounds and statistics kept; other rows are untouched |
| ActiveSessions.CompletedNotActive | src/components/ActiveSessions.jsx:55-58 | no row of the pair is active after the forced completion |
| ActiveSessions.CompletedLeavesPanel | src/components/ActiveSessions.jsx:54-64 | after a forced completion the pair no longer appears in the panel |
| ActiveSessions.SessionsPanel.FetchSessions | src/components/ActiveSessions.jsx:10-22 | a successful read replaces the list; a failed one is only logged and keeps it |
| ActiveSessions.SessionsPanel.ForceRemove | src/components/ActiveSessions.jsx:37-52 | the pair's laps are deleted first, whatever the outcome; the pair's entry is deleted only if that deletion succeeds, and only then is the list reloaded; other rows are untouched and the rule is kept |
| ActiveSessions.SessionsPanel.ForceComplete | src/components/ActiveSessions.jsx:54-65 | a successful write marks the pair completed at `now` and reloads the list; a failed one changes nothing; laps are untouched and the rule is kept |
| Ranking.Ranked | src/pages/PublicLeaderboard.jsx:18-22 | the ranked rows are the entries with a best lap and a registration, each as often as stored |
| Ranking.RankedJoined | src/pages/PublicLeaderboard.jsx:20-21 | every ranked row has a best lap and a registration |
| Ranking.RankedExactly | src/pages/PublicLeaderboard.jsx:20-21 | an entry is ranked exactly when it has a best lap and a registration |
| Ranking.RankedOrdered | src/pages/PublicLeaderboard.jsx:22 | the ranking is in ascending order of best lap |
| Ranking.RankedPosition | src/pages/PublicLeaderboard.jsx:21-22 | every entry with a best lap and a registration has a position in the ranking |
| PublicLeaderboard.Leaders | src/pages/PublicLeaderboard.jsx:17-38 | at most 20 rows: min(20, number of entries with a best lap). Ranks run exactly 1..n in list order, and `total_rounds` is never 0. A failed read gives an empty board |
| PublicLeaderboard.LeaderAt | src/pages/PublicLeaderboard.jsx:25-35 | board position i shows the i-th ranked entry, with rank i + 1 |
| PublicLeaderboard.LeadersOrdered | src/pages/PublicLeaderboard.jsx:22 | the board is in ascending order of best lap |
| PublicLeaderboard.LeadersFromEntries | src/pages/PublicLeaderboard.jsx:28-34 | each row is a stored entry with a best lap, shown with its registration's name, enrollment number and college, its best lap, rounds and status, and `rounds \|\| 1` |
| PublicLeaderboard.LeadersAreFastest | src/pages/PublicLeaderboard.jsx:22-23 | an entry with a best lap is on the board at the rank of its position, or the board is full and its last row is at least as fast |
| PublicLeaderboard.ActiveRacer | src/pages/PublicLeaderboard.jsx:40-52 | an active racer is the name and college of a stored `racing` entry with a registration; a failed read gives none |
| PublicLeaderboard.ActiveRacerPresent | src/pages/PublicLeaderboard.jsx:44-51 | there is an active racer exactly when some entry with a registration is `racing` |
| PublicLeaderboard.ActiveRacerIsTheRider | src/pages/PublicLeaderboard.jsx:40-51 | under the single-racing-rider rule the active racer is the racing rider |
| MiniLeaderboard.Leaders | src/components/MiniLeaderboard.jsx:9-27 | no row limit: one row per entry with a best lap and a registration, ranked 1..n; a failed read gives an empty board |
| MiniLeaderboard.RowAt | src/components/MiniLeaderboard.jsx:15-25 | board position i shows the i-th ranked entry, with rank i + 1 |
| MiniLeaderboard.LeadersOrdered | src/components/MiniLeaderboard.jsx:14 | the board is in ascending order of best lap |
| MiniLeaderboard.RowsFromEntries | src/components/MiniLeaderboard.jsx:16-24 | each row is a stored entry whose `registration_id`, best lap, rounds and status are copied unchanged |
| MiniLeaderboard.EveryRiderListed | src/components/MiniLeaderboard.jsx:9-14 | every entry with a best lap and a registration is on the board, at the rank of its position |
| ActiveRiderCard.ControlsFor | src/components/ActiveRiderCard.jsx:15-99 | no rider: no control. Start only for `ready` or `queued`. Stop and Reset only for `racing`. Disqualify for `racing`, `ready` or `queued`. The banner only for `completed`. Each holds in both directions |
| ActiveRiderCard.ControlsConsistent | src/components/ActiveRiderCard.jsx:75-99 | Start and Stop are never offered together, and Disqualify is offered exactly when one of them is. A completed entry shows only the banner, and a cancelled or disqualified one offers nothing |
| ActiveRiderCard.RoundsShown | src/components/ActiveRiderCard.jsx:53 | the display is `rounds_completed / (rounds \|\| 1)`, and the denominator is never 0 |
| ActiveRiderCard.StartedOffersStop | src/components/ActiveRiderCard.jsx:75-89 | once `startLap` has made the rider `racing`, Start is gone and Stop, Reset and Disqualify are offered |
| ActiveRiderCard.StoppedControls | src/components/ActiveRiderCard.jsx:80-99 | after a lap the card offers Stop again while rounds remain, and only the banner once the rounds reach the quota; the rounds display agrees |

## Left out

- Supabase is modelled as the in-memory store: the query builder, network errors that the code
  does not inspect, authentication and the realtime channels, whose callbacks only re-run the
  fetches modelled here.
- Concurrency between operator stations is not modelled. Every callback runs to completion on its
  own, so the read-then-write occupancy check of `startLap` is sequential here.
- Clocks are parameters. `Date.now()`, `toISOString()` and the IST date of `getRaceDay` are
  passed in. Timestamps are integers that order like the ISO strings.
- The `race_day` column default is a parameter. The lap and entry inserts leave `race_day` to
  the store.
- Toasts, their timeout and the loading spinner are left out. A callback's toast is its
  `Outcome`. The error toast of a failed `fetchQueue` is not modelled. The local `toast` field is
  never set.
- `showToast`'s message texts, `console.log` and `window.confirm` are left out.
- Reads whose errors the code does not inspect always succeed in the model: `existing`,
  `racingNow`, `selectRider`'s reads, and the delete of laps in `forceRemove`.
- `startLap` compares against `racingNow[0]`, and the store returns the rows in an unspecified
  order. The model lets that first row be any `racing` row.
- `fetchActiveRacer` returns some `racing` row. The model takes the first one in stored order.
- Rows with equal sort keys (the same best lap, `queued_at` or start time) come out in their
  stored order. Postgres leaves the order of such ties unspecified.
- The lookup models `.ilike` as string equality up to ASCII case, for a term without `%` or `_`
  wildcards. Non-ASCII case folding is not modelled.
- Floating point is left out. `Math.round(sum/n)` is computed exactly in integers. The lap
  editor's `parseFloat` and `toFixed` are left out, and only its `ms > 0` guard
  (src/components/LapHistory.jsx:20) is kept, as a precondition of `EditLapTime`.
- `removeRider`, `resetLeaderboard` and `clearQueue` are used by components but never defined in
  the context, so there is nothing to model.
- Presentation components are left out: the public header, ticker, stats panel and table, the
  current-racer card, the queue list, the manual search, the QR scanner, the login form, and the
  stopwatch's animation frame.
- The session list's rows keep the registration's fields flat (`SessionItem`). The code stores
  the nested `registrations` object.
- ActiveSessions.SessionsPanel.ForceRemove, ActiveSessions.SessionsPanel.ForceComplete and the
  `RaceProvider` methods state their effects with `old(...)`. Their contracts are proved, and the
  properties they rely on are also proved as separate lemmas on the spec functions.
