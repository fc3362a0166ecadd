/** The store's three tables as mutable state. Every operation of the dashboard reads and
    writes them through `.select`, `.insert`, `.update` and `.delete`. */
module RaceStore {
  import opened Records

  class Store {
    /** `registrations` is only ever read. */
    const registrations: seq<Registration>
    var entries: seq<Entry>
    var laps: seq<Lap>
    /** The id the next inserted lap receives (the table's sequence). */
    var nextLapId: int

    ghost predicate Valid()
      reads this
    {
      && UniqueIds(registrations)
      && (forall i :: 0 <= i < |laps| ==> laps[i].id < nextLapId)
    }

    constructor (regs: seq<Registration>, entries0: seq<Entry>, laps0: seq<Lap>, next: int)
      requires UniqueIds(regs)
      requires forall i :: 0 <= i < |laps0| ==> laps0[i].id < next
      ensures Valid()
      ensures registrations == regs && entries == entries0 && laps == laps0 && nextLapId == next
    {
      registrations := regs;
      entries := entries0;
      laps := laps0;
      nextLapId := next;
    }
  }
}
