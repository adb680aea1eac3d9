/**
 * The staff variants: six kinds of person, each carrying only the attributes meaningful to it.
 * Rated attributes are documented as 1 to 20; a club owner's wealth is a C# `long` amount.
 */
module StaffRecords {
  import opened Primitives
  import opened People

  /** The five coaching specialisations. */
  datatype CoachSpecialization = Attacking | Defending | Goalkeeping | Fitness | SetPiece

  datatype Staff =
    | Coach(person: Person, specialization: CoachSpecialization,
            attacking: int, defending: int, goalkeeping: int, tactics: int, communication: int)
    | Manager(person: Person, tactics: int, manManagement: int, motivation: int, mediaHandling: int)
    | Physio(person: Person, injuryPrevention: int, recovery: int)
    | Scout(person: Person, judgingAbility: int, judgingPotential: int)
    | ChiefExecutive(person: Person, businessAcumen: int, negotiation: int)
    | ClubOwner(person: Person, wealth: Int64, ambition: int)

  /** The documented range of every rated staff attribute. */
  predicate IsValidAttribute(v: int)
  {
    1 <= v <= 20
  }

  /** Every rated attribute of the variant within 1 to 20; wealth is not a rating and is not bounded. */
  predicate HasValidAttributes(s: Staff)
  {
    match s
    case Coach(_, _, a, d, g, t, c) =>
      IsValidAttribute(a) && IsValidAttribute(d) && IsValidAttribute(g) && IsValidAttribute(t) && IsValidAttribute(c)
    case Manager(_, t, mm, mo, mh) =>
      IsValidAttribute(t) && IsValidAttribute(mm) && IsValidAttribute(mo) && IsValidAttribute(mh)
    case Physio(_, ip, r) => IsValidAttribute(ip) && IsValidAttribute(r)
    case Scout(_, ja, jp) => IsValidAttribute(ja) && IsValidAttribute(jp)
    case ChiefExecutive(_, ba, n) => IsValidAttribute(ba) && IsValidAttribute(n)
    case ClubOwner(_, _, am) => IsValidAttribute(am)
  }
}
