/**
 * The save's store: one sequence per table, and `EnsureGameDatabaseCreated`, which adds the clock
 * row only when there is none and the seed data only when there are no footballers.
 */
module GameStore {
  import opened Clock
  import opened Players
  import opened StaffMembers
  import opened Clubs
  import opened Conversations
  import opened SeedData

  /** The contents of every table at one moment. */
  datatype Tables = Tables(
    gameClock: seq<GameClock>,
    footballers: seq<Footballer>,
    staff: seq<StaffMember>,
    clubs: seq<Club>,
    conversations: seq<Conversation>)

  const EmptyTables: Tables := Tables([], [], [], [], [])

  /** `SeedData`: the seed rows appended to each table. */
  function Seeded(t: Tables): Tables
  {
    t.(footballers := t.footballers + SeedFootballers, staff := t.staff + SeedStaff,
       clubs := t.clubs + [SeedClub], conversations := t.conversations + SeedConversations)
  }

  /** The tables after `EnsureGameDatabaseCreated` (once the schema exists). */
  function Initialized(t: Tables): (r: Tables)
    ensures r.gameClock == if |t.gameClock| == 0 then [InitialClock] else t.gameClock
    ensures |t.footballers| == 0 ==> r == Seeded(t.(gameClock := r.gameClock))
    ensures |t.footballers| > 0 ==> r == t.(gameClock := r.gameClock)
    ensures |r.footballers| > 0
  {
    var withClock := if |t.gameClock| == 0 then t.(gameClock := [InitialClock]) else t;
    if |withClock.footballers| == 0 then Seeded(withClock) else withClock
  }

  /** Initialising twice is initialising once: the second run finds a clock and footballers. */
  lemma InitializeIdempotent(t: Tables)
    ensures Initialized(Initialized(t)) == Initialized(t)
  {
  }

  /** A store with at most one clock row has exactly one after initialising, and it is never a second. */
  lemma InitializeKeepsOneClock(t: Tables)
    requires |t.gameClock| <= 1
    ensures |Initialized(t).gameClock| == 1
    ensures |t.gameClock| == 1 ==> Initialized(t).gameClock == t.gameClock
  {
  }

  /** A store that already has footballers keeps every table but the clock exactly as it was. */
  lemma InitializeKeepsExistingSave(t: Tables)
    requires |t.footballers| > 0
    ensures Initialized(t).footballers == t.footballers && Initialized(t).staff == t.staff
    ensures Initialized(t).clubs == t.clubs && Initialized(t).conversations == t.conversations
  {
  }

  /**
   * A new save holds one consistent clock row with the singleton key and exactly the seed data,
   * and the club's stored counts agree with the tables.
   */
  lemma NewSaveIsSeedState()
    ensures var t := Initialized(EmptyTables);
      t == Tables([InitialClock], SeedFootballers, SeedStaff, [SeedClub], SeedConversations) &&
      t.gameClock[0].id == ClockId && Consistent(t.gameClock[0]) &&
      CountsAgree(t.clubs[0], |t.footballers|, |t.staff|, UnreadCount(t.conversations))
  {
    NewSaveTables();
    InitialClockIsConsistent();
    SeedCountsAgree();
  }

  /** Initialising an empty store writes the initial clock and the seed rows and nothing else. */
  lemma NewSaveTables()
    ensures Initialized(EmptyTables) == Tables([InitialClock], SeedFootballers, SeedStaff, [SeedClub], SeedConversations)
  {
    assert [] + SeedFootballers == SeedFootballers;
    assert [] + SeedStaff == SeedStaff;
    assert [] + SeedConversations == SeedConversations;
  }

  /** The store: the tables as fields every operation reads and writes in place. */
  class GameDb {
    var gameClock: seq<GameClock>
    var footballers: seq<Footballer>
    var staff: seq<StaffMember>
    var clubs: seq<Club>
    var conversations: seq<Conversation>

    /** A freshly created, empty schema. */
    constructor()
      ensures Snapshot() == EmptyTables
    {
      gameClock, footballers, staff, clubs, conversations := [], [], [], [], [];
    }

    function Snapshot(): Tables
      reads this
    {
      Tables(gameClock, footballers, staff, clubs, conversations)
    }

    /** `SeedData`: add every seed row. */
    method SeedData()
      modifies this
      ensures Snapshot() == Seeded(old(Snapshot()))
    {
      footballers := footballers + SeedFootballers;
      staff := staff + SeedStaff;
      clubs := clubs + [SeedClub];
      conversations := conversations + SeedConversations;
    }

    /** `EnsureGameDatabaseCreated`: the guarded clock insertion, then the guarded seeding. */
    method EnsureGameDatabaseCreated()
      modifies this
      ensures Snapshot() == Initialized(old(Snapshot()))
    {
      if |gameClock| == 0 {
        gameClock := gameClock + [InitialClock];
      }
      if |footballers| == 0 {
        SeedData();
      }
    }
  }
}
