/**
 * `GameClockService`: reads the single stored clock row and advances it in place. The store's
 * clock table is the only state it reads or writes.
 */
module ClockService {
  import opened Wrappers
  import opened Calendar
  import opened Clock
  import opened GameStore

  class GameClockService {
    const db: GameDb

    constructor(db: GameDb)
      ensures this.db == db
    {
      this.db := db;
    }

    /** `GetCurrentClockAsync`: the one stored row, failing unless there is exactly one; nothing changes. */
    method GetCurrentClock() returns (r: Result<GameClock, ClockError>)
      ensures r == SingleClock(db.gameClock)
      ensures r.Success? <==> |db.gameClock| == 1
      ensures r.Success? ==> r.value == db.gameClock[0]
    {
      r := SingleClock(db.gameClock);
    }

    /**
     * `AdvanceDaysAsync`: the single row is replaced by the clock moved `days` days with phase and
     * season derived again, and that same value is returned. When there is not exactly one row,
     * or the new date would leave years 1 to 9999, the table is left as it was.
     */
    method AdvanceDays(days: int) returns (r: Result<GameClock, ClockError>)
      modifies db`gameClock
      ensures |old(db.gameClock)| != 1 ==> r == SingleClock(old(db.gameClock))
      ensures |old(db.gameClock)| == 1 ==> r == Advance(old(db.gameClock)[0], days)
      ensures r.Success? ==> db.gameClock == [r.value]
      ensures r.Failure? ==> db.gameClock == old(db.gameClock)
    {
      var current := GetCurrentClock();
      if current.Failure? {
        return current;
      }
      r := Advance(current.value, days);
      if r.Success? {
        db.gameClock := db.gameClock[0 := r.value];
      }
    }

    /** `AdvanceToNextEventAsync`: an advance of exactly one day. */
    method AdvanceToNextEvent() returns (r: Result<GameClock, ClockError>)
      modifies db`gameClock
      ensures |old(db.gameClock)| != 1 ==> r == SingleClock(old(db.gameClock))
      ensures |old(db.gameClock)| == 1 ==> r == Advance(old(db.gameClock)[0], 1)
      ensures r.Success? ==> db.gameClock == [r.value]
      ensures r.Failure? ==> db.gameClock == old(db.gameClock)
    {
      r := AdvanceDays(1);
    }
  }

  /**
   * The stored clock stays a consistent singleton row with key 1 through any advance: the
   * invariant a new save starts with and every advance keeps.
   */
  predicate ClockRowValid(rows: seq<GameClock>)
  {
    |rows| == 1 && rows[0].id == ClockId && Consistent(rows[0])
  }

  /** A successful advance of a valid clock table leaves it valid; a failed one leaves it unchanged. */
  lemma AdvanceKeepsClockRowValid(rows: seq<GameClock>, days: int)
    requires ClockRowValid(rows)
    ensures Advance(rows[0], days).Success? ==> ClockRowValid([Advance(rows[0], days).value])
  {
  }

  /** Initialisation of a store without a clock row makes the clock table valid. */
  lemma InitializedClockRowValid(t: Tables)
    requires |t.gameClock| == 0
    ensures ClockRowValid(Initialized(t).gameClock)
  {
    SeedData.InitialClockIsConsistent();
  }
}
