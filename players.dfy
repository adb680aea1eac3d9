/** The `Footballer` record: a person with a position and seven skill ratings. */
module Players {
  import opened Calendar
  import opened People

  datatype Footballer = Footballer(
    person: Person,
    position: string,
    overallRating: int,
    pace: int,
    shooting: int,
    passing: int,
    dribbling: int,
    defending: int,
    physical: int)

  /** The documented range of every skill rating. */
  predicate IsValidSkillRating(v: int)
  {
    1 <= v <= 99
  }

  /** The seven ratings, overall first. */
  function Ratings(f: Footballer): seq<int>
  {
    [f.overallRating, f.pace, f.shooting, f.passing, f.dribbling, f.defending, f.physical]
  }

  /** Every rating within 1 to 99. The record itself enforces nothing. */
  predicate HasValidRatings(f: Footballer)
  {
    forall i :: 0 <= i < |Ratings(f)| ==> IsValidSkillRating(Ratings(f)[i])
  }

  /** The parameterless instance: key 0, empty strings, `DateTime.MinValue`, every rating 0. */
  const DefaultFootballer: Footballer :=
    Footballer(Person(0, "", "", Midnight(1, 1, 1), "", DefaultPersonality), "", 0, 0, 0, 0, 0, 0, 0)

  /** The bounds are documentation only: the instance EF Core starts from violates all seven. */
  lemma DefaultFootballerViolatesBounds()
    ensures forall i :: 0 <= i < |Ratings(DefaultFootballer)| ==> !IsValidSkillRating(Ratings(DefaultFootballer)[i])
    ensures !HasValidRatings(DefaultFootballer)
  {
    assert !IsValidSkillRating(Ratings(DefaultFootballer)[0]);
  }
}
