# FootballDirector game-state core in Dafny

This project models the game-state core of FootballDirector, a single-player football
management game backend. It covers:

- **The in-game clock.** This is the singleton `GameClock` row (key 1) with its current date,
  season and phase. `GameClockService` reads it, advances it by a number of days and derives the
  phase and season from the new date. A small model of .NET `DateTime` backs it (module
  `Calendar`): proleptic Gregorian dates, a time of day to the second, day numbers counted as
  .NET counts them, `AddDays`, `AddYears` with its 29 February clamp, and chronological order.
- **People and ages.** `Person` carries a date of birth, and age is always derived with
  `GetAge`. `HasBirthdayOn` compares month and day only.
- **Footballers and staff.** The `Footballer` record has seven ratings documented as 1 to 99.
  There are six staff variants (`Coach`, `Manager`, `Physio`, `Scout`, `ChiefExecutive`,
  `ClubOwner`) with attributes documented as 1 to 20, plus the one flattened `StaffMember` row
  shape that is actually stored and served, discriminated by `StaffRole`.
- **Conversations.** This covers threads, messages and summaries, and the read side of
  `ConversationController`:
  - the inbox: NPC-initiated threads, newest last message first;
  - threads by person;
  - a thread by key;
  - the `ToSummary` projection, whose preview is taken from the last message in stored order
    and cut to 100 UTF-16 code units, as .NET's `Length` and range slicing count them
    (module `Utf16Text`).
- **Staff queries.** This is `StaffController`: all rows or the rows of one role, and lookup by
  key.
- **Save initialisation.** This is `EnsureGameDatabaseCreated`. It adds the clock row only when
  none exists, and adds the seed data only when there are no footballers. The seed data is
  given as constants, with lemmas for its consistency: counts, message order, foreign keys,
  rating bounds and role grouping.

The modules follow the source's structure:

- `Clock` holds the record and the pure derivations.
- `ClockService` holds the stateful service, as a class whose methods rewrite the store's
  clock table.
- `GameStore` holds the store: a class with one sequence field per table, and
  `EnsureGameDatabaseCreated` as a method.
- `People`, `Players`, `StaffRecords`, `StaffMembers` and `Conversations` hold the records.
- `StaffQueries` and `ConversationViews` hold the read-only controller queries, as functions.
- `SeedData` holds the seed constants.

Choices the model makes where the code's behaviour is easy to misread:

- **Non-positive advances.** `AdvanceDaysAsync` does not check the sign of its day count, so
  zero and negative counts are accepted and move the date forwards, not at all, or backwards.
  The only failure is the one .NET raises when the date leaves years 1 to 9999.
- **Club counts.** These are stored in the club row and served as stored. Nothing recomputes
  them. The model proves that the seed's stored counts equal the seeded collections' sizes.
- **Inbox order.** The query sorts by `LastMessageAt` descending and specifies no tie-break,
  so the model leaves ties unordered: the inbox and by-person views are specified as a sorted
  permutation of the selected threads. SQLite orders NULL below every value, so under the
  descending sort threads without a `LastMessageAt` come last. The model encodes this choice
  in `NotOlder`.
- **Staff flattening.** No flattening function exists in the code; staff rows are stored in
  flat form. `Flatten` and `Unflatten` are the model's bridge between the variants and the
  rows. They follow the field grouping of the seed rows and of the `Manager` record, which
  carries only `Tactics` from the coaching group, even though the `StaffMember` comments list
  that whole group as shared by coaches and managers.
- **Ages.** `Footballer` and `StaffMember` declare an `int Age` in the position where `Person`
  declares `DateOfBirth`, and the seed passes dates there. The model stores a date of birth and
  derives age through `GetAge`.
- **Phase month ranges.** The comments on `SeasonPhase` give overlapping ranges. The switch in
  `DeterminePhase` is the authority.

## Model

| member | source | states |
|---|---|---|
| `Calendar.AddDays` | FootballDirector.Core/Clock/GameClockService.cs:33 | `AddDays(n)` yields a date whose day number is the old one plus n, at the same time of day; it fails exactly when the result leaves years 1 to 9999 |
| `Calendar.AddDaysAdditive` | FootballDirector.Core/Clock/GameClockService.cs:33 | adding a days and then b days equals adding a + b days |
| `Calendar.FromDayNumber` | FootballDirector.Core/Clock/GameClockService.cs:33 | the date with a given day number has exactly that day number, and lies in years 1 to 9999 below the maximum |
| `Calendar.DayNumberRoundTrip` | FootballDirector.Core/Clock/GameClockService.cs:33 | converting a date to its day number and back gives the same date |
| `Calendar.BeforeIsFieldwise` | FootballDirector.Core/Clock/PersonExtensions.cs:16 | `DateTime` comparison is comparison of year, month, day, hour, minute, second in that order |
| `Calendar.AddYears` | FootballDirector.Core/Clock/PersonExtensions.cs:16 | `AddYears(k)` keeps month, day and time and adds k to the year, except that 29 February becomes 28 February in a common year |
| `Calendar.AddOneDay` | FootballDirector.Core/Clock/GameClockService.cs:56 | adding one day gives the next calendar day, or fails past 9999-12-31 |
| `Calendar.AddZeroDays` | FootballDirector.Core/Clock/GameClockService.cs:30-33 | adding zero days returns the same moment |
| `Clock.SingleClock` | FootballDirector.Core/Clock/GameClockService.cs:24 | `SingleAsync` succeeds exactly when there is one row and returns it; it fails with no row or with several |
| `Clock.DeterminePhase` | FootballDirector.Core/Clock/GameClockService.cs:59-71 | months 7–8 are PreSeason, 9–12 EarlySeason, 1 TransferWindow, 2–4 LateSeason, 5–6 EndOfSeason, each an if-and-only-if, so the fallback arm is never reached |
| `Clock.DetermineSeason` | FootballDirector.Core/Clock/GameClockService.cs:73-78 | the season is the year for July–December and year − 1 otherwise, so it is one of those two |
| `Clock.SeasonStartsOnFirstOfJuly` | FootballDirector.Contracts/GameClock.cs:9 | the season is the year of the last 1 July at or before the date: the date is on or after 1 July of that year and before 1 July of the next |
| `Clock.PhasesInSeasonOrder` | FootballDirector.Contracts/GameClock.cs:12-19 | within one season, later dates never have an earlier phase in the enumeration order |
| `Clock.Advance` | FootballDirector.Core/Clock/GameClockService.cs:32-42 | the advanced clock keeps its key, its date is the old date plus n days, and its phase and season are derived from the new date whatever they were before; it fails only when the date leaves years 1 to 9999 |
| `Clock.AdvanceZeroRederives` | FootballDirector.Core/Clock/GameClockService.cs:30-42 | an advance of zero days is not rejected: for any representable clock it keeps date and key and replaces phase and season by those derived from the date |
| `Clock.AdvanceZeroOnConsistentClock` | FootballDirector.Core/Clock/GameClockService.cs:30-42 | on a consistent clock, an advance of zero days returns the clock unchanged |
| `Clock.AdvanceAdditive` | FootballDirector.Core/Clock/GameClockService.cs:33-35 | advancing by a and then by b days gives the same clock as advancing by a + b days |
| `Clock.AdvanceIsRepeatedOneDay` | FootballDirector.Core/Clock/GameClockService.cs:30-47 | one advance by n ≥ 1 days equals n advances by one day, failure included |
| `Clock.NextEventIsNextDay` | FootballDirector.Core/Clock/GameClockService.cs:53-57 | advancing to the next event moves the clock to the next calendar day |
| `ClockService.GameClockService.GetCurrentClock` | FootballDirector.Core/Clock/GameClockService.cs:22-25 | returns the single stored clock row without changing anything, and fails unless exactly one row exists |
| `ClockService.GameClockService.AdvanceDays` | FootballDirector.Core/Clock/GameClockService.cs:30-48 | the clock table afterwards holds exactly the returned advanced clock; with no single row, or a date out of range, the table is unchanged and the error is returned |
| `ClockService.GameClockService.AdvanceToNextEvent` | FootballDirector.Core/Clock/GameClockService.cs:53-57 | has exactly the effect and result of advancing by one day |
| `ClockService.AdvanceKeepsClockRowValid` | FootballDirector.Core/Clock/GameClockService.cs:37-45 | a successful advance of a single, key-1, consistent clock row leaves a single, key-1, consistent row |
| `ClockService.InitializedClockRowValid` | FootballDirector.Core/Data/GameDataExtensions.cs:31-39 | initialising a store that has no clock leaves one clock row with key 1 whose phase and season match its date |
| `People.GetAge` | FootballDirector.Core/Clock/PersonExtensions.cs:13-19 | the age is the year difference, less one exactly when the date is before the birthday anniversary in that year |
| `People.GetAgeByFields` | FootballDirector.Core/Clock/PersonExtensions.cs:15-18 | the same rule with the comparison written out on calendar fields |
| `People.GetAgeCountsCompletedYears` | FootballDirector.Core/Clock/PersonExtensions.cs:13-19 | the age is a number of completed years: its anniversary is reached and the next one is not |
| `People.CompletedYearsIsAge` | FootballDirector.Core/Clock/PersonExtensions.cs:13-19 | any count of completed years at a moment equals `GetAge` |
| `People.CompletedYearsMonotone` | FootballDirector.Core/Clock/PersonExtensions.cs:13-19 | completed years at an earlier moment are at most those at a later one |
| `People.GetAgeMonotone` | FootballDirector.Core/Clock/PersonExtensions.cs:13-19 | age never decreases as the reference date moves later |
| `People.GetAgeNonNegative` | FootballDirector.Core/Clock/PersonExtensions.cs:13-19 | from the moment of birth on, the age is not negative |
| `People.GetAgeAroundBirthday` | FootballDirector.Core/Clock/PersonExtensions.cs:16-17 | someone born 2000-03-15 is 23 on 2024-03-14 and 24 on 2024-03-15 |
| `People.LeapDayBirthdayReachedOnTwentyEighth` | FootballDirector.Core/Clock/PersonExtensions.cs:16 | a 29 February birthday's age increments on 28 February of a common year, and is one less on 27 February |
| `People.HasBirthdayOnIsAnniversaryDay` | FootballDirector.Core/Clock/PersonExtensions.cs:24-26 | `HasBirthdayOn` holds exactly on the anniversary day, years ignored, except that a 29 February birthday does not hold on the clamped 28 February |
| `People.LeapDayBirthdayMissedInCommonYears` | FootballDirector.Core/Clock/PersonExtensions.cs:24-26 | a 29 February birthday never satisfies `HasBirthdayOn` in a common year |
| `Players.DefaultFootballerViolatesBounds` | FootballDirector.Contracts/Footballer.cs:14-24 | the 1–99 bounds are documentation only: the parameterless footballer has all seven ratings 0, outside them |
| `StaffMembers.Flatten` | FootballDirector.Contracts/StaffMember.cs:20-58 | a variant's row has its role and person fields; exactly the columns of that role are present; its present ratings are in 1–20 exactly when the variant's are |
| `StaffMembers.Unflatten` | FootballDirector.Contracts/StaffMember.cs:27-58 | a row denotes a variant exactly when its present columns are those of its role, and then that variant has the row's role and person |
| `StaffMembers.UnflattenFlatten` | FootballDirector.Contracts/Staff.cs:18-103 | every staff variant survives flattening: reading its row back gives the same variant |
| `StaffMembers.FlattenUnflatten` | FootballDirector.Contracts/StaffMember.cs:29-58 | every role-shaped row is the flattening of the variant it denotes |
| `StaffMembers.DefaultStaffMemberDenotesNoVariant` | FootballDirector.Contracts/StaffMember.cs:61-62 | the parameterless row has role Coach and every optional attribute absent, so it denotes no variant |
| `StaffQueries.GetAll` | FootballDirector.Server/Controllers/StaffController.cs:14-22 | without a role filter, all stored rows; with one, exactly the stored rows of that role, each as often as stored |
| `StaffQueries.RolesPartitionStaff` | FootballDirector.Server/Controllers/StaffController.cs:16-20 | the six role filters split the staff: their sizes sum to the number of rows |
| `StaffQueries.GetById` | FootballDirector.Server/Controllers/StaffController.cs:27-33 | a stored row with the key, or not-found exactly when no stored row has the key |
| `StaffQueries.GetByIdFindsStoredRow` | FootballDirector.Server/Controllers/StaffController.cs:29-32 | with unique keys, looking up a stored row's key returns that row |
| `Conversations.WellFormedThreadBounds` | FootballDirector.Contracts/Conversation.cs:12-16 | in a well-formed thread, no message is later than `LastMessageAt` or earlier than `StartedAt` |
| `Conversations.UnreadCount` | FootballDirector.Contracts/Club.cs:38 | the unread count is at most the number of threads, and zero exactly when every thread is read |
| `Conversations.UnreadCountIsFilter` | FootballDirector.Contracts/Club.cs:38 | the unread count is the size of the `!IsRead` filter |
| `ConversationViews.Truncate` | FootballDirector.Server/Controllers/ConversationController.cs:66-67 | content of up to 100 UTF-16 code units is kept whole; longer content becomes its first 100 code units and "..."; never over 103 code units; always starts with a prefix of the content |
| `ConversationViews.TruncateFixedPoints` | FootballDirector.Server/Controllers/ConversationController.cs:66-67 | truncation leaves a text unchanged exactly when it is at most 100 code units, or is already 100 code units followed by "..." |
| `ConversationViews.TruncateIdempotent` | FootballDirector.Server/Controllers/ConversationController.cs:66-67 | truncating a preview again changes nothing |
| `ConversationViews.TruncateBoundary` | FootballDirector.Server/Controllers/ConversationController.cs:66-67 | exactly 100 code units are not truncated; 101 code units give 100 plus "...", 103 in all |
| `ConversationViews.Preview` | FootballDirector.Server/Controllers/ConversationController.cs:64-67 | the preview is absent exactly when there are no messages, and otherwise is the truncated UTF-16 form of the last message in list order |
| `ConversationViews.PreviewOfBmpText` | FootballDirector.Server/Controllers/ConversationController.cs:66-67 | for text without characters beyond the Basic Multilingual Plane, code units are characters: up to 100 characters are kept whole, and longer text is cut after its 100th character |
| `ConversationViews.AstralTextCutEarlier` | FootballDirector.Server/Controllers/ConversationController.cs:66-67 | a message of 51 to 100 emoji (two code units each) is cut all the same, to its first 50 emoji and "..." |
| `ConversationViews.PreviewCanSplitSurrogatePair` | FootballDirector.Server/Controllers/ConversationController.cs:67 | 99 plain characters followed by an emoji give a preview whose 100th code unit is the emoji's lone high surrogate |
| `ConversationViews.CutAfterUnits` | FootballDirector.Server/Controllers/ConversationController.cs:66-67 | when the first k characters of a long text take exactly 100 code units, the preview is those k characters and "..." |
| `Utf16Text.EncodeChar` | FootballDirector.Server/Controllers/ConversationController.cs:66 | a character in the Basic Multilingual Plane is one code unit of its own value; any other character is two code units, a high surrogate and then a unit that is not one |
| `Utf16Text.EncodeAppend` | FootballDirector.Server/Controllers/ConversationController.cs:66 | the UTF-16 form of a concatenation is the concatenation of the forms |
| `Utf16Text.EncodeBmp` | FootballDirector.Server/Controllers/ConversationController.cs:66 | a text of Basic Multilingual Plane characters has exactly one code unit per character, of the same value |
| `Utf16Text.EncodeAstral` | FootballDirector.Server/Controllers/ConversationController.cs:66 | a text of characters beyond the Basic Multilingual Plane has exactly two code units per character |
| `ConversationViews.ToSummary` | FootballDirector.Server/Controllers/ConversationController.cs:62-73 | copies Id, PersonId, PersonName, PersonRole, InitiatedByNpc, StartedAt, LastMessageAt, IsRead and Subject unchanged, and adds as preview the last message cut to 100 UTF-16 code units, or none for an empty thread |
| `ConversationViews.SummaryKeepsAllButMessages` | FootballDirector.Contracts/Conversation.cs:6-31 | a summary carries every thread field except the messages: putting the messages back restores the thread |
| `ConversationViews.PreviewAgreesWithLastMessageAt` | FootballDirector.Server/Controllers/ConversationController.cs:64-72 | for a well-formed thread, the preview is present exactly when `LastMessageAt` is, and it previews a message sent at that time |
| `ConversationViews.Insert` | FootballDirector.Server/Controllers/ConversationController.cs:21 | inserting one thread into a newest-first list keeps it newest-first and adds exactly that thread |
| `ConversationViews.SortNewestFirst` | FootballDirector.Server/Controllers/ConversationController.cs:21 | the descending sort on `LastMessageAt` is a permutation and is non-increasing, with absent times last |
| `ConversationViews.SummariesNewestFirst` | FootballDirector.Server/Controllers/ConversationController.cs:18-24 | the filtered, sorted, summarised view is a permutation of the summaries of the selected threads, non-increasing in `LastMessageAt` |
| `ConversationViews.GetInbox` | FootballDirector.Server/Controllers/ConversationController.cs:16-26 | the inbox is exactly the summaries of the stored NPC-initiated threads, none dropped or added, non-increasing in `LastMessageAt` |
| `ConversationViews.InboxShowsEveryNpcThread` | FootballDirector.Server/Controllers/ConversationController.cs:18-24 | every stored NPC-initiated thread's summary is in the inbox |
| `ConversationViews.GetByPerson` | FootballDirector.Server/Controllers/ConversationController.cs:50-60 | exactly the summaries of the threads with that person, in the same order as the inbox |
| `ConversationViews.GetById` | FootballDirector.Server/Controllers/ConversationController.cs:34-43 | a stored thread with that key, messages included, or not-found exactly when no thread has the key |
| `ConversationViews.GetByIdFindsStoredThread` | FootballDirector.Server/Controllers/ConversationController.cs:36-42 | with unique keys, looking up a stored thread's key returns that thread |
| `GameStore.Initialized` | FootballDirector.Core/Data/GameDataExtensions.cs:30-45 | the clock row is added only when none exists; seed rows are appended only when there are no footballers, and otherwise nothing else changes |
| `GameStore.InitializeIdempotent` | FootballDirector.Core/Data/GameDataExtensions.cs:30-45 | initialising twice is the same as initialising once |
| `GameStore.InitializeKeepsOneClock` | FootballDirector.Core/Data/GameDataExtensions.cs:31-39 | initialisation never creates a second clock row |
| `GameStore.InitializeKeepsExistingSave` | FootballDirector.Core/Data/GameDataExtensions.cs:42-45 | a store with footballers keeps its footballers, staff, clubs and conversations unchanged |
| `GameStore.NewSaveIsSeedState` | FootballDirector.Core/Data/GameDataExtensions.cs:30-45 | a new save holds one consistent clock row with key 1 and exactly the seed rows, and the club's stored counts agree with them |
| `GameStore.GameDb.SeedData` | FootballDirector.Core/Data/GameDataExtensions.cs:65-257 | appends the seed footballers, staff, club and conversations to the tables |
| `GameStore.GameDb.EnsureGameDatabaseCreated` | FootballDirector.Core/Data/GameDataExtensions.cs:16-46 | the tables afterwards are `Initialized` of the tables before |
| `SeedData.InitialClockIsConsistent` | FootballDirector.Core/Data/GameDataExtensions.cs:33-37 | the initial clock (2024-07-01, season 2024, PreSeason) has key 1 and agrees with `DetermineSeason`/`DeterminePhase` of its date |
| `SeedData.SeedCountsAgree` | FootballDirector.Core/Data/GameDataExtensions.cs:213-216 | the club's stored counts (8, 6, 2) equal the numbers of seeded footballers, seeded staff and unread seeded threads |
| `SeedData.SeedUnreadCount` | FootballDirector.Core/Data/GameDataExtensions.cs:219-253 | exactly two seeded threads are unread |
| `SeedData.SeedThreadsWellFormed` | FootballDirector.Core/Data/GameDataExtensions.cs:219-253 | each seeded thread's messages carry its key, `SentAt` strictly increases, `StartedAt` is the first message's time and `LastMessageAt` the last's |
| `SeedData.ThreadWellFormed` | FootballDirector.Core/Data/GameDataExtensions.cs:219-253 | a thread whose messages fall on its start day at increasing minutes, with recorded first and last times, is well formed and strictly chronological |
| `SeedData.SeedFootballersRated` | FootballDirector.Core/Data/GameDataExtensions.cs:68-117 | every seeded footballer's seven ratings are in 1–99 |
| `SeedData.SeedStaffAreFlattenedVariants` | FootballDirector.Core/Data/GameDataExtensions.cs:120-199 | every seeded staff row has exactly its role's columns, each in 1–20, and is the flattening of a valid variant |
| `SeedData.SeedStaffRoles` | FootballDirector.Core/Data/GameDataExtensions.cs:120-199 | the seeded roles are one manager, two coaches, a scout, a physio and a chief executive, and no club owner |
| `SeedData.SeedPersonKeysUnique` | FootballDirector.Core/Data/GameDataExtensions.cs:68-199 | the seeded people have keys 1–8 and 100–105, all distinct |
| `SeedData.SeedMessageKeys` | FootballDirector.Core/Data/GameDataExtensions.cs:219-253 | the seeded messages are keyed 1 to 12, thread after thread |
| `SeedData.SeedThreadKeysUnique` | FootballDirector.Core/Data/GameDataExtensions.cs:219-255 | no two seeded threads share a key, and no two seeded messages do |
| `SeedData.SeedThreadsNameTheirPeople` | FootballDirector.Core/Data/GameDataExtensions.cs:219-247 | each seeded thread's `PersonId` names a seeded person whose full name and kind match `PersonName` and `PersonRole` |
| `SeedData.SeedFootballerAgesAtGameStart` | FootballDirector.Core/Data/GameDataExtensions.cs:67-116 | the seeded footballers' derived ages on 2024-07-01 are 27, 16, 24, 21, 32, 28, 25 and 22 |
| `SeedData.SeedStaffAgesAtGameStart` | FootballDirector.Core/Data/GameDataExtensions.cs:119-198 | the seeded staff's derived ages on 2024-07-01 are 52, 38, 44, 40, 35 and 48 |

## Left out

- Language-model stack (`LlamaSharpService`, `LlmTestService`, `LlmController` and their request and response types): these are native inference calls, streaming and a lock. None of this is part of the game state.
- Database engine mechanics: the schema check and recreation (`TableExists`, `EnsureDeleted`, `EnsureCreated`), column mapping, and storage failures during `SaveChanges`. The store is a set of in-memory sequences, and every write succeeds.
- Cascade delete of messages with their conversation, and the explicit `Include` of messages: conversations are always held together with their messages. No operation in scope deletes anything.
- `FootballerController` and `ClubController`: these are pass-through listing and keyed lookup with no logic of their own. Hosting, dependency injection, the desktop shell and the front end are also left out.
- Concurrency: the clock's read-modify-write is a single sequential step. The source takes no lock.
- `DateTime` detail: time below one second and `DateTimeKind` are not modelled. Dates are only those of the proleptic Gregorian calendar.
- Message text: a message's content is a Dafny `string`, a sequence of Unicode scalar values, and only the preview is a sequence of UTF-16 code units. A .NET string holding an unpaired surrogate has no counterpart among stored contents; the preview itself can end in one.
- `Calendar.AddYears`: does not model the exception .NET throws when the target year leaves 1 to 9999. Its only caller, `GetAge`, always targets the reference date's own year.
- Seeded `ClubOwner` rows: the seed has none, so the `ClubOwner` variant and the `Wealth` column appear only in the general staff lemmas.
- Input validation with a `ValidationError`: the code has none. The rating bounds are validation predicates (`IsValidSkillRating`, `IsValidAttribute`) that no operation enforces.
