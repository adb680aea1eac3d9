/**
 * `StaffMember`: the single stored and served shape of every staff variant, with a role
 * discriminator and one optional column per role-specific attribute. `Flatten` is how a variant
 * becomes a row; `Unflatten` reads a row back as the variant its role names.
 */
module StaffMembers {
  import opened Wrappers
  import opened Primitives
  import opened Calendar
  import opened People
  import R = StaffRecords

  /** The role discriminator, in declaration order. */
  datatype StaffRole = Coach | Manager | Physio | Scout | ChiefExecutive | ClubOwner

  datatype StaffMember = StaffMember(
    id: int,
    firstName: string,
    lastName: string,
    dateOfBirth: DateTime,
    nationality: string,
    personality: Personality,
    role: StaffRole,
    specialization: Option<R.CoachSpecialization>,
    attacking: Option<int>,
    defending: Option<int>,
    goalkeeping: Option<int>,
    tactics: Option<int>,
    communication: Option<int>,
    manManagement: Option<int>,
    motivation: Option<int>,
    mediaHandling: Option<int>,
    injuryPrevention: Option<int>,
    recovery: Option<int>,
    judgingAbility: Option<int>,
    judgingPotential: Option<int>,
    businessAcumen: Option<int>,
    negotiation: Option<int>,
    wealth: Option<Int64>,
    ambition: Option<int>)

  /** The parameterless instance: a Coach row with key 0, empty strings and every attribute absent. */
  const DefaultStaffMember: StaffMember :=
    StaffMember(0, "", "", Midnight(1, 1, 1), "", DefaultPersonality, Coach,
      None, None, None, None, None, None, None, None, None, None, None, None, None, None, None, None, None)

  /** The role a variant is served under. */
  function RoleOf(s: R.Staff): StaffRole
  {
    match s
    case Coach(_, _, _, _, _, _, _) => Coach
    case Manager(_, _, _, _, _) => Manager
    case Physio(_, _, _) => Physio
    case Scout(_, _, _) => Scout
    case ChiefExecutive(_, _, _) => ChiefExecutive
    case ClubOwner(_, _, _) => ClubOwner
  }

  /** The person part of a row. */
  function PersonOf(m: StaffMember): Person
  {
    Person(m.id, m.firstName, m.lastName, m.dateOfBirth, m.nationality, m.personality)
  }

  /**
   * A row is shaped for its role when exactly the columns of that role's variant are present:
   * Tactics for coaches and managers, every other attribute for one role only.
   */
  predicate RoleShaped(m: StaffMember)
  {
    (m.specialization.Some? <==> m.role == Coach) &&
    (m.attacking.Some? <==> m.role == Coach) &&
    (m.defending.Some? <==> m.role == Coach) &&
    (m.goalkeeping.Some? <==> m.role == Coach) &&
    (m.tactics.Some? <==> m.role == Coach || m.role == Manager) &&
    (m.communication.Some? <==> m.role == Coach) &&
    (m.manManagement.Some? <==> m.role == Manager) &&
    (m.motivation.Some? <==> m.role == Manager) &&
    (m.mediaHandling.Some? <==> m.role == Manager) &&
    (m.injuryPrevention.Some? <==> m.role == Physio) &&
    (m.recovery.Some? <==> m.role == Physio) &&
    (m.judgingAbility.Some? <==> m.role == Scout) &&
    (m.judgingPotential.Some? <==> m.role == Scout) &&
    (m.businessAcumen.Some? <==> m.role == ChiefExecutive) &&
    (m.negotiation.Some? <==> m.role == ChiefExecutive) &&
    (m.wealth.Some? <==> m.role == ClubOwner) &&
    (m.ambition.Some? <==> m.role == ClubOwner)
  }

  /** An absent column, or a present one within 1 to 20. */
  predicate ValidOptional(v: Option<int>)
  {
    v.None? || R.IsValidAttribute(v.value)
  }

  /** Every present rated column within 1 to 20 (wealth is an amount, not a rating). */
  predicate AttributesInRange(m: StaffMember)
  {
    ValidOptional(m.attacking) && ValidOptional(m.defending) && ValidOptional(m.goalkeeping) &&
    ValidOptional(m.tactics) && ValidOptional(m.communication) && ValidOptional(m.manManagement) &&
    ValidOptional(m.motivation) && ValidOptional(m.mediaHandling) && ValidOptional(m.injuryPrevention) &&
    ValidOptional(m.recovery) && ValidOptional(m.judgingAbility) && ValidOptional(m.judgingPotential) &&
    ValidOptional(m.businessAcumen) && ValidOptional(m.negotiation) && ValidOptional(m.ambition)
  }

  /** A row with the person's columns, no role columns, and the given role. */
  function BlankRow(p: Person, role: StaffRole): StaffMember
  {
    StaffMember(p.id, p.firstName, p.lastName, p.dateOfBirth, p.nationality, p.personality, role,
      None, None, None, None, None, None, None, None, None, None, None, None, None, None, None, None, None)
  }

  /** The row a variant is stored and served as. */
  function Flatten(s: R.Staff): (m: StaffMember)
    ensures m.role == RoleOf(s) && PersonOf(m) == s.person
    ensures RoleShaped(m)
    ensures AttributesInRange(m) <==> R.HasValidAttributes(s)
  {
    var b := BlankRow(s.person, RoleOf(s));
    match s
    case Coach(_, sp, a, d, g, t, c) =>
      b.(specialization := Some(sp), attacking := Some(a), defending := Some(d), goalkeeping := Some(g),
         tactics := Some(t), communication := Some(c))
    case Manager(_, t, mm, mo, mh) =>
      b.(tactics := Some(t), manManagement := Some(mm), motivation := Some(mo), mediaHandling := Some(mh))
    case Physio(_, ip, r) => b.(injuryPrevention := Some(ip), recovery := Some(r))
    case Scout(_, ja, jp) => b.(judgingAbility := Some(ja), judgingPotential := Some(jp))
    case ChiefExecutive(_, ba, n) => b.(businessAcumen := Some(ba), negotiation := Some(n))
    case ClubOwner(_, w, am) => b.(wealth := Some(w), ambition := Some(am))
  }

  /** The variant a row denotes, or `None` for a row whose columns do not fit its role. */
  function Unflatten(m: StaffMember): (r: Option<R.Staff>)
    ensures r.Some? <==> RoleShaped(m)
    ensures r.Some? ==> RoleOf(r.value) == m.role && r.value.person == PersonOf(m)
  {
    if !RoleShaped(m) then None
    else
      var p := PersonOf(m);
      match m.role
      case Coach =>
        Some(R.Coach(p, m.specialization.value, m.attacking.value, m.defending.value, m.goalkeeping.value,
                     m.tactics.value, m.communication.value))
      case Manager =>
        Some(R.Manager(p, m.tactics.value, m.manManagement.value, m.motivation.value, m.mediaHandling.value))
      case Physio => Some(R.Physio(p, m.injuryPrevention.value, m.recovery.value))
      case Scout => Some(R.Scout(p, m.judgingAbility.value, m.judgingPotential.value))
      case ChiefExecutive => Some(R.ChiefExecutive(p, m.businessAcumen.value, m.negotiation.value))
      case ClubOwner => Some(R.ClubOwner(p, m.wealth.value, m.ambition.value))
  }

  /** Flattening loses nothing: every variant is read back unchanged. */
  lemma UnflattenFlatten(s: R.Staff)
    ensures Unflatten(Flatten(s)) == Some(s)
  {
  }

  /** Every role-shaped row is the flattening of exactly the variant it is read back as. */
  lemma FlattenUnflatten(m: StaffMember)
    requires RoleShaped(m)
    ensures Flatten(Unflatten(m).value) == m
  {
  }

  /** The parameterless row claims the Coach role but carries no coaching columns, so it denotes no variant. */
  lemma DefaultStaffMemberDenotesNoVariant()
    ensures DefaultStaffMember.role == Coach && !RoleShaped(DefaultStaffMember)
    ensures Unflatten(DefaultStaffMember) == None
    ensures AttributesInRange(DefaultStaffMember)
  {
  }
}
