/**
 * The in-game clock: the `GameClock` record and `SeasonPhase` enumeration, and the pure half of
 * `GameClockService` (phase and season derivation, and the new clock value an advance produces).
 * The stateful service that reads and writes the stored clock row is in module ClockService.
 */
module Clock {
  import opened Wrappers
  import opened Calendar

  /** The five phases, declared in the order they occur in a season. */
  datatype SeasonPhase = PreSeason | EarlySeason | TransferWindow | LateSeason | EndOfSeason

  /** The singleton clock row; `season` is the year the current season started in. */
  datatype GameClock = GameClock(id: int, currentDate: DateTime, season: int, phase: SeasonPhase)

  /** The only key the clock row ever has. */
  const ClockId: int := 1

  /** Why reading or advancing the clock fails: `SingleAsync` finds no row or several, or `AddDays` throws. */
  datatype ClockError = NoClock | SeveralClocks | DateOutOfRange

  /** `SingleAsync` over the clock table: its one row, or why there is not exactly one. */
  function SingleClock(rows: seq<GameClock>): (r: Result<GameClock, ClockError>)
    ensures r.Success? <==> |rows| == 1
    ensures r.Success? ==> r.value == rows[0] && r.value in rows
    ensures |rows| == 0 <==> r == Failure(NoClock)
    ensures |rows| > 1 <==> r == Failure(SeveralClocks)
  {
    if |rows| == 0 then Failure(NoClock)
    else if |rows| > 1 then Failure(SeveralClocks)
    else Success(rows[0])
  }

  /** Position of a phase in the enumeration. */
  function PhaseIndex(p: SeasonPhase): nat
  {
    match p
    case PreSeason => 0
    case EarlySeason => 1
    case TransferWindow => 2
    case LateSeason => 3
    case EndOfSeason => 4
  }

  /** The phase for a date's calendar month (the `switch` of `DeterminePhase`, fallback arm included). */
  function DeterminePhase(date: DateTime): (p: SeasonPhase)
    ensures p == PreSeason <==> date.date.month == 7 || date.date.month == 8
    ensures p == EarlySeason <==> 9 <= date.date.month <= 12
    ensures p == TransferWindow <==> date.date.month == 1
    ensures p == LateSeason <==> 2 <= date.date.month <= 4
    ensures p == EndOfSeason <==> date.date.month == 5 || date.date.month == 6
  {
    var month := date.date.month;
    if month == 7 || month == 8 then PreSeason
    else if 9 <= month <= 12 then EarlySeason
    else if month == 1 then TransferWindow
    else if 2 <= month <= 4 then LateSeason
    else if month == 5 || month == 6 then EndOfSeason
    else PreSeason
  }

  /** The year the season containing `date` started: July onwards belongs to that year's season. */
  function DetermineSeason(date: DateTime): (s: int)
    ensures s == date.date.year || s == date.date.year - 1
    ensures s == date.date.year <==> date.date.month >= 7
  {
    if date.date.month >= 7 then date.date.year else date.date.year - 1
  }

  /** Phase and season are the ones derived from the stored date. */
  predicate Consistent(c: GameClock)
  {
    c.phase == DeterminePhase(c.currentDate) && c.season == DetermineSeason(c.currentDate)
  }

  /**
   * The season of a date is the year of the last 1 July (midnight) at or before it: the season
   * runs from 1 July of that year up to, not including, 1 July of the next.
   */
  lemma SeasonStartsOnFirstOfJuly(date: DateTime)
    ensures var s := DetermineSeason(date);
      !Before(date, Midnight(s, 7, 1)) && Before(date, Midnight(s + 1, 7, 1))
  {
    var s := DetermineSeason(date);
    BeforeIsFieldwise(date, Midnight(s, 7, 1));
    BeforeIsFieldwise(date, Midnight(s + 1, 7, 1));
  }

  /** Within one season the phases come in the order of the enumeration. */
  lemma PhasesInSeasonOrder(a: DateTime, b: DateTime)
    requires DetermineSeason(a) == DetermineSeason(b)
    requires !Before(b, a)
    ensures PhaseIndex(DeterminePhase(a)) <= PhaseIndex(DeterminePhase(b))
  {
    BeforeIsFieldwise(b, a);
  }

  /**
   * The clock value `AdvanceDaysAsync(days)` builds from the stored clock `c`: the date moved by
   * `days` days (any integer: the code checks no sign), phase and season derived again from the
   * new date, the key kept. Fails where `AddDays` would leave years 1 to 9999.
   */
  function Advance(c: GameClock, days: int): (r: Result<GameClock, ClockError>)
    ensures r.Success? <==> 0 <= DayNumber(c.currentDate.date) + days < MaxDayCount
    ensures r.Failure? ==> r.error == DateOutOfRange
    ensures r.Success? ==> r.value.id == c.id && Consistent(r.value)
    ensures r.Success? ==> r.value.currentDate == AddDays(c.currentDate, days).value
  {
    match AddDays(c.currentDate, days)
    case None => Failure(DateOutOfRange)
    case Some(newDate) =>
      Success(c.(currentDate := newDate, phase := DeterminePhase(newDate), season := DetermineSeason(newDate)))
  }

  /**
   * An advance of zero days is not rejected: it keeps the date and key, and replaces whatever
   * phase and season the clock held by those derived from the date.
   */
  lemma AdvanceZeroRederives(c: GameClock)
    requires InRange(c.currentDate.date)
    ensures Advance(c, 0) == Success(c.(phase := DeterminePhase(c.currentDate), season := DetermineSeason(c.currentDate)))
  {
    AddZeroDays(c.currentDate);
  }

  /** On a consistent clock, an advance of zero days therefore changes nothing. */
  lemma AdvanceZeroOnConsistentClock(c: GameClock)
    requires Consistent(c) && InRange(c.currentDate.date)
    ensures Advance(c, 0) == Success(c)
  {
    AdvanceZeroRederives(c);
  }

  /** Advancing by `a` and then by `b` days yields the same clock as advancing by `a + b` days. */
  lemma AdvanceAdditive(c: GameClock, a: int, b: int)
    requires Advance(c, a).Success?
    ensures Advance(Advance(c, a).value, b) == Advance(c, a + b)
  {
    AddDaysAdditive(c.currentDate, a, b);
  }

  /** `n` successive one-day advances, stopping at the first that fails. */
  function AdvanceOneDayTimes(c: GameClock, n: nat): Result<GameClock, ClockError>
  {
    if n == 0 then Success(c)
    else match AdvanceOneDayTimes(c, n - 1)
      case Failure(e) => Failure(e)
      case Success(c') => Advance(c', 1)
  }

  /** One advance by `n >= 1` days equals `n` advances by one day, failure included. */
  lemma {:induction false} AdvanceIsRepeatedOneDay(c: GameClock, n: nat)
    requires n >= 1 && InRange(c.currentDate.date)
    ensures AdvanceOneDayTimes(c, n) == Advance(c, n)
  {
    if n > 1 {
      AdvanceIsRepeatedOneDay(c, n - 1);
      AdvanceOneMoreDay(c, n - 1);
    }
  }

  /** The inductive step: `k` one-day advances agreeing with advancing by `k` extends to `k + 1`. */
  lemma AdvanceOneMoreDay(c: GameClock, k: nat)
    requires InRange(c.currentDate.date) && AdvanceOneDayTimes(c, k) == Advance(c, k)
    ensures AdvanceOneDayTimes(c, k + 1) == Advance(c, k + 1)
  {
    if Advance(c, k).Success? {
      AdvanceAdditive(c, k, 1);
    } else {
      AdvanceFailsOnward(c, k);
    }
  }

  /** Once advancing a representable clock by `k >= 0` days fails, advancing by one day more fails too. */
  lemma AdvanceFailsOnward(c: GameClock, k: nat)
    requires InRange(c.currentDate.date) && Advance(c, k).Failure?
    ensures Advance(c, k + 1).Failure?
  {
    DayNumberNonNegative(c.currentDate.date);
  }

  /** `AdvanceToNextEventAsync` moves the clock to the next calendar day. */
  lemma NextEventIsNextDay(c: GameClock)
    requires InRange(c.currentDate.date) && NextDay(c.currentDate.date).year <= 9999
    ensures Advance(c, 1).Success?
    ensures Advance(c, 1).value.currentDate == c.currentDate.(date := NextDay(c.currentDate.date))
  {
    AddOneDay(c.currentDate);
  }
}
