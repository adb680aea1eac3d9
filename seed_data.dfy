/**
 * The fixed content of a new save: the initial clock row and the data `SeedData` adds (eight
 * footballers, six staff rows, the club, four conversations with their messages), with the
 * consistency facts that hold between them.
 */
module SeedData {
  import opened Wrappers
  import opened Calendar
  import opened Clock
  import opened People
  import opened Players
  import R = StaffRecords
  import opened StaffMembers
  import opened Clubs
  import opened Conversations

  /** The clock row added when there is none: 1 July 2024, season 2024, pre-season. */
  const InitialClock: GameClock := GameClock(ClockId, Midnight(2024, 7, 1), 2024, PreSeason)

  function Bio(kind: PersonalityType, upbringing: string, coreMemory: string, funFact: string): Personality
  {
    Personality(kind, Backstory(upbringing, coreMemory, funFact))
  }

  const Fletcher: Footballer :=
    Footballer(Person(1, "Danny", "Fletcher", Midnight(1997, 3, 15), "England",
      Bio(Maverick,
        "Grew up on a council estate in Sheffield with a hardworking single mother.",
        "Scoring a hat-trick on his Premier League debut as an 18-year-old substitute.",
        "Runs a charity providing sports equipment to underprivileged schools.")),
      "LW", 81, 92, 78, 74, 85, 45, 72)

  const Moreno: Footballer :=
    Footballer(Person(2, "Pablo", "Moreno", Midnight(2007, 8, 22), "Spain",
      Bio(Virtuoso,
        "Raised in a working-class neighborhood near Valencia by immigrant parents.",
        "Being scouted by a top academy at just 8 years old after a street football video went viral.",
        "Still lives with his grandmother who taught him his first skills with a tennis ball.")),
      "RW", 83, 88, 76, 79, 90, 32, 56)

  const Lindqvist: Footballer :=
    Footballer(Person(3, "Magnus", "Lindqvist", Midnight(2000, 1, 8), "Norway",
      Bio(Warrior,
        "Born into a family of cross-country skiers in Trondheim who wanted him to follow tradition.",
        "Scoring 5 goals in a cup final after his team was down 2-0 at halftime.",
        "Practices meditation daily and is obsessed with sleep optimization and recovery routines.")),
      "ST", 91, 89, 93, 65, 80, 45, 88)

  const Chambers: Footballer :=
    Footballer(Person(4, "Tyler", "Chambers", Midnight(2003, 5, 30), "England",
      Bio(Heartbeat,
        "Grew up in Birmingham with parents who ran a local youth football club.",
        "Captained his country's U-21 team to a European championship.",
        "Speaks fluent German after a teenage exchange program sparked his love of languages.")),
      "CAM", 88, 78, 82, 83, 86, 68, 78)

  const DeGroot: Footballer :=
    Footballer(Person(5, "Luuk", "de Groot", Midnight(1991, 11, 3), "Netherlands",
      Bio(Mentor,
        "Lost his father to illness when he was a teenager in Rotterdam.",
        "Being released by his boyhood club as a youngster and almost giving up on football.",
        "Plays chess competitively and uses it to sharpen his tactical reading of the game.")),
      "CB", 89, 62, 60, 72, 55, 92, 86)

  const Vidal: Footballer :=
    Footballer(Person(6, "Sergio", "Vidal", Midnight(1996, 4, 17), "Spain",
      Bio(Strategist,
        "Grew up in a middle-class Seville family with parents who valued education.",
        "Winning Player of the Tournament after a dominant European Championship.",
        "Has a degree in economics and considered becoming a financial analyst.")),
      "CDM", 90, 58, 72, 88, 79, 88, 82)

  const Dubois: Footballer :=
    Footballer(Person(7, "Thierry", "Dubois", Midnight(1998, 9, 12), "France",
      Bio(Showman,
        "Raised in the Paris suburbs by a father who coached amateur football and a mother who was a track athlete.",
        "Becoming a World Cup winner at 20 and gracing magazine covers worldwide.",
        "Donates his entire national team salary to charity and runs a foundation for youth athletics.")),
      "ST", 91, 97, 89, 80, 92, 36, 78)

  const Ruiz: Footballer :=
    Footballer(Person(8, "Iker", "Ruiz", Midnight(2002, 2, 28), "Spain",
      Bio(Introvert,
        "Grew up in a small coastal town in Galicia, far from mainland football academies.",
        "Playing over 60 matches in a single season at age 19 for club and country.",
        "Prefers staying home playing video games to going out, and is known for his quiet demeanor.")),
      "CM", 87, 72, 75, 88, 88, 72, 65)

  const SeedFootballers: seq<Footballer> := [Fletcher, Moreno, Lindqvist, Chambers, DeGroot, Vidal, Dubois, Ruiz]

  /** The staff rows, each written as the columns it sets on top of an otherwise empty row. */
  const Santini: StaffMember :=
    BlankRow(Person(100, "Roberto", "Santini", Midnight(1972, 6, 20), "Italy",
      Bio(Strategist,
        "Grew up in a small town near Milan, son of a factory worker who never missed a Sunday match.",
        "Leading a struggling Serie B team to promotion and a domestic cup final in the same season.",
        "Collects vintage tactical boards and has an impressive library of football philosophy books.")),
      Manager).(tactics := Some(17), manManagement := Some(15), motivation := Some(16), mediaHandling := Some(12))

  const Nakamura: StaffMember :=
    BlankRow(Person(101, "Yuki", "Nakamura", Midnight(1986, 4, 5), "Japan",
      Bio(Virtuoso,
        "Raised in Osaka by parents who ran a youth football academy.",
        "Developing three players who went on to play for the national team.",
        "Creates detailed video analysis packages set to classical music for player motivation.")),
      Coach).(specialization := Some(R.Attacking), attacking := Some(16), defending := Some(10),
              goalkeeping := Some(5), tactics := Some(14), communication := Some(15))

  const Whitmore: StaffMember :=
    BlankRow(Person(102, "Graham", "Whitmore", Midnight(1979, 10, 11), "England",
      Bio(Mentor,
        "Former professional defender who played over 400 matches in the lower leagues.",
        "Keeping a record 12 clean sheets during his playing days in a single season.",
        "Runs a popular podcast interviewing legendary defenders about the art of defending.")),
      Coach).(specialization := Some(R.Defending), attacking := Some(8), defending := Some(18),
              goalkeeping := Some(7), tactics := Some(15), communication := Some(14))

  const Ferreira: StaffMember :=
    BlankRow(Person(103, "Maria", "Ferreira", Midnight(1983, 7, 25), "Portugal",
      Bio(Strategist,
        "Daughter of a legendary Portuguese scout who discovered several world-class talents.",
        "Recommending a player for £500k who was later sold for £40 million.",
        "Speaks six languages fluently and travels over 200 days per year watching football.")),
      Scout).(judgingAbility := Some(17), judgingPotential := Some(19))

  const Bergstrom: StaffMember :=
    BlankRow(Person(104, "Anders", "Bergström", Midnight(1988, 12, 3), "Sweden",
      Bio(Heartbeat,
        "Former sports science student who specialized in elite athlete rehabilitation.",
        "Helping a star player return from a career-threatening injury ahead of schedule.",
        "Practices yoga daily and has completed multiple ultramarathons.")),
      Physio).(injuryPrevention := Some(16), recovery := Some(18))

  const Ashworth: StaffMember :=
    BlankRow(Person(105, "Victoria", "Ashworth", Midnight(1976, 2, 14), "England",
      Bio(Strategist,
        "Former investment banker who fell in love with football through her children's youth teams.",
        "Negotiating a stadium naming rights deal worth three times the previous valuation.",
        "The club was founded by her great-grandfather, making her the fourth generation to lead it.")),
      ChiefExecutive).(businessAcumen := Some(17), negotiation := Some(15))

  const SeedStaff: seq<StaffMember> := [Santini, Nakamura, Whitmore, Ferreira, Bergstrom, Ashworth]

  const SeedClub: Club := Club(1, "Ashworth United", "Greenfield Park", "Premier Division", 7,
    ClubFinances(12_500_000, 8_000_000, 450_000, 385_000),
    ClubCounts(8, 6, 2))

  const ContractDiscussion: Conversation := Conversation(1, 3, "Magnus Lindqvist", "Footballer", true,
    At(2024, 1, 15, 10, 30, 0), Some(At(2024, 1, 15, 11, 45, 0)), false, Some("Contract Discussion"), [
      Message(1, 1, false, "Boss, I wanted to talk about my contract situation. I've been performing well and I think it's time we discussed an extension.", At(2024, 1, 15, 10, 30, 0)),
      Message(2, 1, true, "Magnus, you've been excellent this season. What did you have in mind?", At(2024, 1, 15, 10, 45, 0)),
      Message(3, 1, false, "I'm looking for a longer commitment and terms that reflect my contribution. I want to be here long-term, but I also need to feel valued.", At(2024, 1, 15, 11, 45, 0))
    ])

  const YouthProspect: Conversation := Conversation(2, 103, "Maria Ferreira", "Scout", true,
    At(2024, 1, 14, 9, 0, 0), Some(At(2024, 1, 14, 9, 15, 0)), false, Some("Youth Prospect Recommendation"), [
      Message(4, 2, false, "I've been watching a young midfielder in the Portuguese second division. 19 years old, exceptional vision. I think he could be special.", At(2024, 1, 14, 9, 0, 0)),
      Message(5, 2, true, "Tell me more. What makes him stand out?", At(2024, 1, 14, 9, 10, 0)),
      Message(6, 2, false, "His passing range is remarkable for his age. He sees space before it opens. Reminds me of the player I recommended five years ago who's now worth £40m.", At(2024, 1, 14, 9, 15, 0))
    ])

  const FormationDiscussion: Conversation := Conversation(3, 100, "Roberto Santini", "Manager", false,
    At(2024, 1, 10, 14, 0, 0), Some(At(2024, 1, 10, 14, 30, 0)), true, Some("Formation Discussion"), [
      Message(7, 3, true, "Roberto, I've been thinking about the squad balance. What formation do you think suits our current players best?", At(2024, 1, 10, 14, 0, 0)),
      Message(8, 3, false, "With our attacking talent, I favor a 4-3-3. It lets us utilize the wingers and gives Chambers space to operate. But we need a holding midfielder to make it work.", At(2024, 1, 10, 14, 15, 0)),
      Message(9, 3, true, "Vidal could anchor the midfield. He has the tactical awareness.", At(2024, 1, 10, 14, 20, 0)),
      Message(10, 3, false, "Exactly what I was thinking. Vidal reads the game beautifully. With him holding, we can be more adventurous going forward.", At(2024, 1, 10, 14, 30, 0))
    ])

  const MediaAppearance: Conversation := Conversation(4, 7, "Thierry Dubois", "Footballer", true,
    At(2024, 1, 8, 16, 0, 0), Some(At(2024, 1, 8, 16, 10, 0)), true, Some("Media Appearance Request"), [
      Message(11, 4, false, "I've been invited to a charity gala next week. It would be great publicity for my foundation and the club. May I have permission to attend?", At(2024, 1, 8, 16, 0, 0)),
      Message(12, 4, true, "Of course, Thierry. Your charity work reflects well on everyone. Just make sure you're fresh for the weekend match.", At(2024, 1, 8, 16, 10, 0))
    ])

  const SeedConversations: seq<Conversation> := [ContractDiscussion, YouthProspect, FormationDiscussion, MediaAppearance]

  /** The initial clock row has the singleton key and the phase and season of its own date. */
  lemma InitialClockIsConsistent()
    ensures InitialClock.id == ClockId && InRange(InitialClock.currentDate.date)
    ensures InitialClock.phase == DeterminePhase(InitialClock.currentDate)
    ensures InitialClock.season == DetermineSeason(InitialClock.currentDate)
  {
  }

  /** The club's stored counts equal the seeded footballers, staff rows and unread threads. */
  lemma SeedCountsAgree()
    ensures CountsAgree(SeedClub, |SeedFootballers|, |SeedStaff|, UnreadCount(SeedConversations))
  {
    SeedUnreadCount();
  }

  /** Two seeded threads are unread: the contract discussion and the youth prospect. */
  lemma SeedUnreadCount()
    ensures UnreadCount(SeedConversations) == 2
  {
    UnreadCountOfFour(ContractDiscussion, YouthProspect, FormationDiscussion, MediaAppearance);
  }

  /** Each message is sent strictly after the one before it. */
  predicate StrictlyChronological(c: Conversation)
  {
    forall j, k :: 0 <= j < k < |c.messages| ==> Before(c.messages[j].sentAt, c.messages[k].sentAt)
  }

  /**
   * Every seeded thread is well formed (messages owned by it, in order, first and last sending
   * times recorded) and strictly chronological.
   */
  lemma SeedThreadsWellFormed()
    ensures forall c :: c in SeedConversations ==> WellFormedThread(c) && StrictlyChronological(c)
  {
    ContractDiscussionWellFormed();
    YouthProspectWellFormed();
    FormationDiscussionWellFormed();
    MediaAppearanceWellFormed();
  }

  lemma ContractDiscussionWellFormed()
    ensures WellFormedThread(ContractDiscussion) && StrictlyChronological(ContractDiscussion)
  {
    ThreadWellFormed(ContractDiscussion);
  }

  lemma YouthProspectWellFormed()
    ensures WellFormedThread(YouthProspect) && StrictlyChronological(YouthProspect)
  {
    ThreadWellFormed(YouthProspect);
  }

  lemma FormationDiscussionWellFormed()
    ensures WellFormedThread(FormationDiscussion) && StrictlyChronological(FormationDiscussion)
  {
    ThreadWellFormed(FormationDiscussion);
  }

  lemma MediaAppearanceWellFormed()
    ensures WellFormedThread(MediaAppearance) && StrictlyChronological(MediaAppearance)
  {
    ThreadWellFormed(MediaAppearance);
  }

  /**
   * A thread whose messages belong to it, were all sent on its start day at strictly increasing
   * times of day, and whose recorded first and last times are those of its first and last message.
   */
  lemma ThreadWellFormed(c: Conversation)
    requires |c.messages| > 0 && c.lastMessageAt == Some(c.messages[|c.messages| - 1].sentAt)
    requires c.startedAt == c.messages[0].sentAt
    requires forall k :: 0 <= k < |c.messages| ==> c.messages[k].conversationId == c.id
    requires forall k :: 0 <= k < |c.messages| ==> c.messages[k].sentAt.date == c.startedAt.date
    requires forall k :: 0 < k < |c.messages| ==>
      c.messages[k - 1].sentAt.hour * 60 + c.messages[k - 1].sentAt.minute < c.messages[k].sentAt.hour * 60 + c.messages[k].sentAt.minute
    requires forall k :: 0 <= k < |c.messages| ==> c.messages[k].sentAt.second == 0
    ensures WellFormedThread(c) && StrictlyChronological(c)
  {
    var msgs := c.messages;
    assert forall j, k :: 0 <= j < k < |msgs| ==> Before(msgs[j].sentAt, msgs[k].sentAt) by {
      forall j, k | 0 <= j < k < |msgs| ensures Before(msgs[j].sentAt, msgs[k].sentAt) {
        MinutesIncrease(msgs, j, k);
      }
    }
  }

  /** Strictly increasing minutes of the day along a sequence orders any two of its elements. */
  lemma {:induction false} MinutesIncrease(msgs: seq<Message>, j: nat, k: nat)
    requires j < k < |msgs|
    requires forall i :: 0 < i < |msgs| ==>
      msgs[i - 1].sentAt.hour * 60 + msgs[i - 1].sentAt.minute < msgs[i].sentAt.hour * 60 + msgs[i].sentAt.minute
    ensures msgs[j].sentAt.hour * 60 + msgs[j].sentAt.minute < msgs[k].sentAt.hour * 60 + msgs[k].sentAt.minute
    decreases k - j
  {
    if j + 1 < k {
      MinutesIncrease(msgs, j + 1, k);
    }
  }

  /** Every seeded footballer's seven ratings lie within 1 to 99. */
  lemma SeedFootballersRated()
    ensures forall f :: f in SeedFootballers ==> HasValidRatings(f)
  {
  }

  /**
   * Every seeded staff row is the flattening of a variant whose attributes lie within 1 to 20:
   * its present columns are exactly its role's, and each is in range.
   */
  lemma SeedStaffAreFlattenedVariants()
    ensures forall m :: m in SeedStaff ==> RoleShaped(m) && AttributesInRange(m)
    ensures forall m :: m in SeedStaff ==> exists s :: R.HasValidAttributes(s) && Flatten(s) == m
  {
    forall m | m in SeedStaff
      ensures exists s :: R.HasValidAttributes(s) && Flatten(s) == m
    {
      FlattenUnflatten(m);
      assert R.HasValidAttributes(Unflatten(m).value);
    }
  }

  /** The seeded staff rows cover the roles: a manager, two coaches, a scout, a physio, a chief executive and no club owner. */
  lemma SeedStaffRoles()
    ensures Santini.role == Manager && Nakamura.role == Coach && Whitmore.role == Coach
    ensures Ferreira.role == Scout && Bergstrom.role == Physio && Ashworth.role == ChiefExecutive
    ensures forall m :: m in SeedStaff ==> m.role != ClubOwner
  {
  }

  /** The display name of a staff role, as a thread stores it. */
  function RoleName(r: StaffRole): string
  {
    match r
    case Coach => "Coach"
    case Manager => "Manager"
    case Physio => "Physio"
    case Scout => "Scout"
    case ChiefExecutive => "ChiefExecutive"
    case ClubOwner => "ClubOwner"
  }

  /** The keys of the seeded footballers, in seeding order. */
  function SeedFootballerIds(): seq<int>
  {
    seq(|SeedFootballers|, i requires 0 <= i < |SeedFootballers| => SeedFootballers[i].person.id)
  }

  /** The keys of the seeded staff rows, in seeding order. */
  function SeedStaffIds(): seq<int>
  {
    seq(|SeedStaff|, i requires 0 <= i < |SeedStaff| => SeedStaff[i].id)
  }

  /** The keys of every seeded person, footballers first. */
  function SeedPersonIds(): seq<int>
  {
    SeedFootballerIds() + SeedStaffIds()
  }

  /** Each key is below the next one. */
  predicate Ascending(s: seq<int>)
  {
    forall i :: 0 <= i < |s| - 1 ==> s[i] < s[i + 1]
  }

  /** Keys in ascending order are pairwise distinct. */
  lemma {:induction false} AscendingDistinct(s: seq<int>)
    requires Ascending(s)
    ensures forall i, j :: 0 <= i < j < |s| ==> s[i] < s[j]
  {
    if |s| > 1 {
      var t := s[..|s| - 1];
      assert Ascending(t);
      AscendingDistinct(t);
      forall i, j | 0 <= i < j < |s|
        ensures s[i] < s[j]
      {
        if j < |s| - 1 {
          assert s[i] == t[i] && s[j] == t[j];
        } else if i < |s| - 2 {
          assert s[i] == t[i] && s[|s| - 2] == t[|s| - 2];
        }
      }
    }
  }

  /** No two seeded people share a key: footballers are keyed 1 to 8, staff 100 to 105. */
  lemma SeedPersonKeysUnique()
    ensures SeedPersonIds() == SeedKeys
    ensures forall i, j :: 0 <= i < j < |SeedPersonIds()| ==> SeedPersonIds()[i] != SeedPersonIds()[j]
  {
    SeedFootballerKeys();
    SeedStaffKeys();
    assert SeedPersonIds() == SeedKeys;
    SeedKeysDistinct();
  }

  /** The keys of the seeded people, footballers first. */
  const SeedKeys: seq<int> := [1, 2, 3, 4, 5, 6, 7, 8, 100, 101, 102, 103, 104, 105]

  lemma SeedKeysDistinct()
    ensures forall i, j :: 0 <= i < j < |SeedKeys| ==> SeedKeys[i] != SeedKeys[j]
  {
    assert Ascending(SeedKeys);
    AscendingDistinct(SeedKeys);
  }

  lemma SeedFootballerKeys()
    ensures SeedFootballerIds() == [1, 2, 3, 4, 5, 6, 7, 8]
  {
  }

  lemma SeedStaffKeys()
    ensures SeedStaffIds() == [100, 101, 102, 103, 104, 105]
  {
  }

  /** The keys of one thread's messages, in stored order. */
  function ThreadMessageIds(c: Conversation): seq<int>
  {
    seq(|c.messages|, i requires 0 <= i < |c.messages| => c.messages[i].id)
  }

  /** The keys of the messages of `convs`, thread by thread. */
  function MessageIds(convs: seq<Conversation>): seq<int>
    decreases |convs|
  {
    if |convs| == 0 then [] else ThreadMessageIds(convs[0]) + MessageIds(convs[1..])
  }

  /** The seeded messages are keyed 1 to 12 in the order the threads are seeded. */
  lemma SeedMessageKeys()
    ensures MessageIds(SeedConversations) == [1, 2, 3, 4, 5, 6, 7, 8, 9, 10, 11, 12]
  {
    assert ThreadMessageIds(ContractDiscussion) == [1, 2, 3];
    assert ThreadMessageIds(YouthProspect) == [4, 5, 6];
    assert ThreadMessageIds(FormationDiscussion) == [7, 8, 9, 10];
    assert ThreadMessageIds(MediaAppearance) == [11, 12];
    var last3 := [YouthProspect, FormationDiscussion, MediaAppearance];
    var last2 := [FormationDiscussion, MediaAppearance];
    var last1 := [MediaAppearance];
    assert last1[1..] == [] && last2[1..] == last1 && last3[1..] == last2 && SeedConversations[1..] == last3;
    assert MessageIds(last1) == [11, 12];
    assert MessageIds(last2) == [7, 8, 9, 10] + [11, 12];
    assert MessageIds(last3) == [4, 5, 6] + [7, 8, 9, 10, 11, 12];
    assert MessageIds(SeedConversations) == [1, 2, 3] + [4, 5, 6, 7, 8, 9, 10, 11, 12];
  }

  /** No two seeded threads share a key, and no two seeded messages do. */
  lemma SeedThreadKeysUnique()
    ensures forall i, j :: 0 <= i < j < |SeedConversations| ==> SeedConversations[i].id != SeedConversations[j].id
    ensures forall i, j :: 0 <= i < j < |MessageIds(SeedConversations)| ==>
      MessageIds(SeedConversations)[i] != MessageIds(SeedConversations)[j]
  {
    SeedMessageKeys();
    assert Ascending(MessageIds(SeedConversations));
    AscendingDistinct(MessageIds(SeedConversations));
  }

  /**
   * A thread's counterpart is a seeded person with that key whose full name is the stored name,
   * and whose kind (footballer, or a staff row's role) is the stored role.
   */
  predicate NamesSeededPerson(c: Conversation)
  {
    (exists f :: f in SeedFootballers && f.person.id == c.personId &&
       FullName(f.person) == c.personName && c.personRole == "Footballer") ||
    (exists m :: m in SeedStaff && m.id == c.personId &&
       FullName(PersonOf(m)) == c.personName && c.personRole == RoleName(m.role))
  }

  /** Every seeded thread's counterpart exists and matches the stored name and role. */
  lemma SeedThreadsNameTheirPeople()
    ensures NamesSeededPerson(ContractDiscussion) && NamesSeededPerson(YouthProspect)
    ensures NamesSeededPerson(FormationDiscussion) && NamesSeededPerson(MediaAppearance)
  {
    ContractDiscussionCounterpart();
    YouthProspectCounterpart();
    FormationDiscussionCounterpart();
    MediaAppearanceCounterpart();
  }

  lemma ContractDiscussionCounterpart() ensures NamesSeededPerson(ContractDiscussion)
  {
    FootballerCounterpart(ContractDiscussion, Lindqvist);
  }

  lemma YouthProspectCounterpart() ensures NamesSeededPerson(YouthProspect)
  {
    StaffCounterpart(YouthProspect, Ferreira);
  }

  lemma FormationDiscussionCounterpart() ensures NamesSeededPerson(FormationDiscussion)
  {
    StaffCounterpart(FormationDiscussion, Santini);
  }

  lemma MediaAppearanceCounterpart() ensures NamesSeededPerson(MediaAppearance)
  {
    FootballerCounterpart(MediaAppearance, Dubois);
  }

  lemma FootballerCounterpart(c: Conversation, f: Footballer)
    requires f in SeedFootballers && f.person.id == c.personId && c.personRole == "Footballer"
    requires f.person.firstName + " " + f.person.lastName == c.personName
    ensures NamesSeededPerson(c)
  {
  }

  lemma StaffCounterpart(c: Conversation, m: StaffMember)
    requires m in SeedStaff && m.id == c.personId && c.personRole == RoleName(m.role)
    requires m.firstName + " " + m.lastName == c.personName
    ensures NamesSeededPerson(c)
  {
  }

  /** Ages on the first day of the game, derived from the seeded dates of birth. */
  lemma SeedFootballerAgesAtGameStart()
    ensures seq(|SeedFootballers|, i requires 0 <= i < |SeedFootballers| =>
              GetAge(SeedFootballers[i].person, InitialClock.currentDate)) == [27, 16, 24, 21, 32, 28, 25, 22]
  {
    var start := InitialClock.currentDate;
    GetAgeByFields(Fletcher.person, start);
    GetAgeByFields(Moreno.person, start);
    GetAgeByFields(Lindqvist.person, start);
    GetAgeByFields(Chambers.person, start);
    GetAgeByFields(DeGroot.person, start);
    GetAgeByFields(Vidal.person, start);
    GetAgeByFields(Dubois.person, start);
    GetAgeByFields(Ruiz.person, start);
  }

  lemma SeedStaffAgesAtGameStart()
    ensures seq(|SeedStaff|, i requires 0 <= i < |SeedStaff| =>
              GetAge(PersonOf(SeedStaff[i]), InitialClock.currentDate)) == [52, 38, 44, 40, 35, 48]
  {
    var start := InitialClock.currentDate;
    GetAgeByFields(PersonOf(Santini), start);
    GetAgeByFields(PersonOf(Nakamura), start);
    GetAgeByFields(PersonOf(Whitmore), start);
    GetAgeByFields(PersonOf(Ferreira), start);
    GetAgeByFields(PersonOf(Bergstrom), start);
    GetAgeByFields(PersonOf(Ashworth), start);
  }
}
