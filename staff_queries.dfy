/** The two staff queries of `StaffController` over the stored staff rows, in stored order. */
module StaffQueries {
  import opened Wrappers
  import opened Seqs
  import opened StaffMembers

  /** No two rows share a key, as the primary key guarantees. */
  predicate UniqueIds(staff: seq<StaffMember>)
  {
    forall i, j :: 0 <= i < j < |staff| ==> staff[i].id != staff[j].id
  }

  /** `GetAll`: every row for no role, otherwise exactly the rows of that role, each as often as stored. */
  function GetAll(staff: seq<StaffMember>, role: Option<StaffRole>): (r: seq<StaffMember>)
    ensures role.None? ==> r == staff
    ensures role.Some? ==> forall m :: m in r <==> m in staff && m.role == role.value
    ensures role.Some? ==> forall m :: multiset(r)[m] == if m.role == role.value then multiset(staff)[m] else 0
  {
    match role
    case None => staff
    case Some(wanted) => Filter(staff, (m: StaffMember) => m.role == wanted)
  }

  /** The number of rows served for one role. */
  function RoleCount(staff: seq<StaffMember>, role: StaffRole): nat
  {
    |GetAll(staff, Some(role))|
  }

  /** Removing the first row lowers the count of its own role by one and no other. */
  lemma RoleCountStep(staff: seq<StaffMember>, role: StaffRole)
    requires |staff| > 0
    ensures RoleCount(staff, role) == RoleCount(staff[1..], role) + if staff[0].role == role then 1 else 0
  {
  }

  /** The six role filters split the staff: their sizes add up to the whole. */
  lemma {:induction false} RolesPartitionStaff(staff: seq<StaffMember>)
    ensures RoleCount(staff, Coach) + RoleCount(staff, Manager) + RoleCount(staff, Physio) +
            RoleCount(staff, Scout) + RoleCount(staff, ChiefExecutive) + RoleCount(staff, ClubOwner) == |staff|
  {
    if |staff| > 0 {
      RolesPartitionStaff(staff[1..]);
      RoleCountStep(staff, Coach);
      RoleCountStep(staff, Manager);
      RoleCountStep(staff, Physio);
      RoleCountStep(staff, Scout);
      RoleCountStep(staff, ChiefExecutive);
      RoleCountStep(staff, ClubOwner);
    }
  }

  /** `GetById`: the row with the key, or `None` (served as 404) when no row has it. */
  function GetById(staff: seq<StaffMember>, id: int): (r: Option<StaffMember>)
    ensures r.None? <==> forall m :: m in staff ==> m.id != id
    ensures r.Some? ==> r.value in staff && r.value.id == id
  {
    FindFirst(staff, (m: StaffMember) => m.id == id)
  }

  /** With unique keys, looking up a stored row's key yields that row. */
  lemma GetByIdFindsStoredRow(staff: seq<StaffMember>, m: StaffMember)
    requires UniqueIds(staff) && m in staff
    ensures GetById(staff, m.id) == Some(m)
  {
    var r := GetById(staff, m.id);
    var i :| 0 <= i < |staff| && staff[i] == r.value;
    var j :| 0 <= j < |staff| && staff[j] == m;
    if i < j {
      assert staff[i].id != staff[j].id;
    } else if j < i {
      assert staff[j].id != staff[i].id;
    }
  }
}
