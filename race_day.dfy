/** `getRaceDay`: the event calendar (dates in India Standard Time) mapped to day numbers. */
module RaceDay {

  const TotalDays: int := 4

  const EventDays: map<string, int> := map[
    "2026-02-21" := 1,
    "2026-02-22" := 2,
    "2026-02-23" := 3,
    "2026-02-24" := 4
  ]

  /** The day number for `today` (a `YYYY-MM-DD` date): the table's value, or day 4 when the
      date is not in the table (`EVENT_DAYS[today] || 4`). */
  function GetRaceDay(today: string): (d: int)
    ensures 1 <= d <= TotalDays
    ensures today in EventDays ==> d == EventDays[today]
    ensures today !in EventDays ==> d == 4
  {
    if today in EventDays && EventDays[today] != 0 then EventDays[today] else 4
  }

  /** The four event dates are days 1 to 4, in calendar order. */
  lemma EventCalendar()
    ensures GetRaceDay("2026-02-21") == 1 && GetRaceDay("2026-02-22") == 2
    ensures GetRaceDay("2026-02-23") == 3 && GetRaceDay("2026-02-24") == 4
    ensures |EventDays| == TotalDays
  {
    assert EventDays.Keys == {"2026-02-21", "2026-02-22", "2026-02-23", "2026-02-24"};
  }

  /** Distinct event dates are distinct days. */
  lemma EventDaysInjective(a: string, b: string)
    requires a in EventDays && b in EventDays && a != b
    ensures EventDays[a] != EventDays[b]
  {
  }
}
