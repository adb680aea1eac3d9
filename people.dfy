/**
 * People of the game: the `Person` base record with its `Personality`, and the age and
 * birthday rules of `PersonExtensions`. Age is never stored; it is derived from the date of
 * birth and a reference date (normally the clock's current date).
 */
module People {
  import opened Calendar

  /** The eight personality archetypes. */
  datatype PersonalityType = Maverick | Virtuoso | Heartbeat | Mentor | Warrior | Strategist | Showman | Introvert

  datatype Backstory = Backstory(upbringing: string, coreMemory: string, funFact: string)

  datatype Personality = Personality(kind: PersonalityType, backstory: Backstory)

  /** `new Personality()`: a Maverick with an empty backstory. */
  const DefaultPersonality: Personality := Personality(Maverick, Backstory("", "", ""))

  /** What every footballer and staff variant carries. */
  datatype Person = Person(
    id: int,
    firstName: string,
    lastName: string,
    dateOfBirth: DateTime,
    nationality: string,
    personality: Personality)

  function FullName(p: Person): string
  {
    p.firstName + " " + p.lastName
  }

  /**
   * `GetAge`: the difference of the calendar years, less one while `asOf` is still before the
   * birthday anniversary in `asOf`'s year (`AddYears` puts a 29 February birthday on 28 February
   * in common years).
   */
  function GetAge(p: Person, asOf: DateTime): (age: int)
    ensures age == asOf.date.year - p.dateOfBirth.date.year || age == asOf.date.year - p.dateOfBirth.date.year - 1
    ensures age == asOf.date.year - p.dateOfBirth.date.year - 1 <==>
      Before(asOf, AddYears(p.dateOfBirth, asOf.date.year - p.dateOfBirth.date.year))
  {
    var age := asOf.date.year - p.dateOfBirth.date.year;
    if Before(asOf, AddYears(p.dateOfBirth, age)) then age - 1 else age
  }

  /** The age from the calendar fields alone: one less than the year difference while `asOf` is still before the anniversary. */
  lemma GetAgeByFields(p: Person, asOf: DateTime)
    ensures var anniversary := AddYears(p.dateOfBirth, asOf.date.year - p.dateOfBirth.date.year);
      GetAge(p, asOf) == asOf.date.year - p.dateOfBirth.date.year - (if FieldwiseBefore(asOf, anniversary) then 1 else 0)
  {
    BeforeIsFieldwise(asOf, AddYears(p.dateOfBirth, asOf.date.year - p.dateOfBirth.date.year));
  }

  /** At `asOf`, exactly `k` anniversaries of the birth have been reached: the k-th and not the next. */
  predicate CompletedYears(dob: DateTime, asOf: DateTime, k: int)
  {
    !Before(asOf, AddYears(dob, k)) && Before(asOf, AddYears(dob, k + 1))
  }

  /** Later anniversaries are later in time. */
  lemma AnniversariesIncrease(dob: DateTime, j: int, k: int)
    requires j < k
    ensures Before(AddYears(dob, j), AddYears(dob, k))
  {
    BeforeIsFieldwise(AddYears(dob, j), AddYears(dob, k));
  }

  /** `GetAge` is the number of completed years of life. */
  lemma GetAgeCountsCompletedYears(p: Person, asOf: DateTime)
    ensures CompletedYears(p.dateOfBirth, asOf, GetAge(p, asOf))
  {
    var dob, age := p.dateOfBirth, GetAge(p, asOf);
    BeforeIsFieldwise(asOf, AddYears(dob, age));
    BeforeIsFieldwise(asOf, AddYears(dob, age + 1));
  }

  /** No other count of years fits: completed years determine the age. */
  lemma CompletedYearsIsAge(p: Person, asOf: DateTime, k: int)
    requires CompletedYears(p.dateOfBirth, asOf, k)
    ensures k == GetAge(p, asOf)
  {
    GetAgeCountsCompletedYears(p, asOf);
    if k < GetAge(p, asOf) {
      CompletedYearsUnique(p.dateOfBirth, asOf, k, GetAge(p, asOf));
    } else if GetAge(p, asOf) < k {
      CompletedYearsUnique(p.dateOfBirth, asOf, GetAge(p, asOf), k);
    }
  }

  /** At most one count of completed years fits a moment. */
  lemma CompletedYearsUnique(dob: DateTime, asOf: DateTime, j: int, k: int)
    requires j < k
    ensures !(CompletedYears(dob, asOf, j) && CompletedYears(dob, asOf, k))
  {
    if j + 1 < k {
      AnniversariesIncrease(dob, j + 1, k);
    }
  }

  /** An anniversary is never earlier than an anniversary of a smaller count. */
  lemma AnniversariesNonDecreasing(dob: DateTime, j: int, k: int)
    ensures j <= k ==> !Before(AddYears(dob, k), AddYears(dob, j))
  {
    if j < k {
      AnniversariesIncrease(dob, j, k);
    }
  }

  /** Age never decreases as the reference date moves later. */
  lemma GetAgeMonotone(p: Person, a: DateTime, b: DateTime)
    requires !Before(b, a)
    ensures GetAge(p, a) <= GetAge(p, b)
  {
    GetAgeCountsCompletedYears(p, a);
    GetAgeCountsCompletedYears(p, b);
    CompletedYearsMonotone(p.dateOfBirth, a, b, GetAge(p, a), GetAge(p, b));
  }

  /** The count of completed years at a moment is at most the count at any later moment. */
  lemma CompletedYearsMonotone(dob: DateTime, a: DateTime, b: DateTime, j: int, k: int)
    requires !Before(b, a) && CompletedYears(dob, a, j) && CompletedYears(dob, b, k)
    ensures j <= k
  {
    // The anniversary `a` has reached is before the one `b` has not: so it comes from fewer years.
    assert Before(AddYears(dob, j), AddYears(dob, k + 1));
    AnniversariesNonDecreasing(dob, k + 1, j);
  }

  /** From the moment of birth on, the age is not negative. */
  lemma GetAgeNonNegative(p: Person, asOf: DateTime)
    requires !Before(asOf, p.dateOfBirth)
    ensures GetAge(p, asOf) >= 0
  {
    var dob := p.dateOfBirth;
    assert AddYears(dob, 0) == dob;
    GetAgeMonotone(p, dob, asOf);
    GetAgeCountsCompletedYears(p, dob);
    if GetAge(p, dob) < 0 {
      if GetAge(p, dob) + 1 < 0 {
        AnniversariesIncrease(dob, GetAge(p, dob) + 1, 0);
      }
    }
  }

  /** Born 15 March 2000: 23 years old on 14 March 2024 and 24 on 15 March 2024. */
  lemma GetAgeAroundBirthday(p: Person)
    requires p.dateOfBirth == Midnight(2000, 3, 15)
    ensures GetAge(p, Midnight(2024, 3, 14)) == 23
    ensures GetAge(p, Midnight(2024, 3, 15)) == 24
  {
    BeforeIsFieldwise(Midnight(2024, 3, 14), Midnight(2024, 3, 15));
  }

  /**
   * A 29 February birthday is reached on 28 February in a common year: from that day's time
   * of birth on the age is the full year difference, and the day before it is one less.
   */
  lemma LeapDayBirthdayReachedOnTwentyEighth(p: Person, asOf: DateTime)
    requires p.dateOfBirth.date.month == 2 && p.dateOfBirth.date.day == 29
    requires !IsLeapYear(asOf.date.year) && asOf.date.month == 2
    ensures asOf.date.day == 28 && !Before(asOf, p.dateOfBirth.(date := asOf.date)) ==>
      GetAge(p, asOf) == asOf.date.year - p.dateOfBirth.date.year
    ensures asOf.date.day == 27 ==> GetAge(p, asOf) == asOf.date.year - p.dateOfBirth.date.year - 1
  {
    var anniversary := AddYears(p.dateOfBirth, asOf.date.year - p.dateOfBirth.date.year);
    BeforeIsFieldwise(asOf, anniversary);
    BeforeIsFieldwise(asOf, p.dateOfBirth.(date := asOf.date));
  }

  /** `HasBirthdayOn`: the same month and day, whatever the two years. */
  predicate HasBirthdayOn(p: Person, date: DateTime)
  {
    p.dateOfBirth.date.month == date.date.month && p.dateOfBirth.date.day == date.date.day
  }

  /**
   * The birthday predicate against the age rule: `HasBirthdayOn` holds exactly on the day of
   * the anniversary `GetAge` uses, except that a 29 February birthday is celebrated by
   * `GetAge` on 28 February of a common year but never by `HasBirthdayOn`.
   */
  lemma HasBirthdayOnIsAnniversaryDay(p: Person, date: DateTime)
    ensures HasBirthdayOn(p, date) <==>
      AddYears(p.dateOfBirth, date.date.year - p.dateOfBirth.date.year).date == date.date &&
      !(p.dateOfBirth.date.month == 2 && p.dateOfBirth.date.day == 29 && !IsLeapYear(date.date.year))
  {
  }

  /** A 29 February birthday never falls on a day of a common year. */
  lemma LeapDayBirthdayMissedInCommonYears(p: Person, date: DateTime)
    requires p.dateOfBirth.date.month == 2 && p.dateOfBirth.date.day == 29
    requires !IsLeapYear(date.date.year)
    ensures !HasBirthdayOn(p, date)
  {
  }
}
