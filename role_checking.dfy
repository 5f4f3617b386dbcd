/** The role predicates of school_management/utils/role_checking.py, used by
    the dashboards and the template tags. They compare the manager's role
    with the enum member NAMES `EDU_MANAGER` and `PROG_MANAGER`. */
module RoleChecking {
  import opened Basics
  import opened Users
  import Enums

  predicate IsEducationManager(u: User)
  {
    ManagerRoleIs(u, "EDU_MANAGER")
  }

  predicate IsProgramManager(u: User)
  {
    ManagerRoleIs(u, "PROG_MANAGER")
  }

  /** The predicate a role name stands for. */
  predicate Holds(role: string, u: User)
  {
    if role == StudentRole then IsStudent(u)
    else if role == TeacherRole then IsTeacher(u)
    else if role == EducationManagerRole then IsEducationManager(u)
    else if role == ProgramManagerRole then IsProgramManager(u)
    else false
  }

  /** The first role, in priority order, whose predicate holds. */
  function GetUserRole(u: User): (r: Option<string>)
    ensures r.Some? ==>
      exists k :: (0 <= k < |RolePriority| && RolePriority[k] == r.value && Holds(RolePriority[k], u)
                   && forall j :: 0 <= j < k ==> !Holds(RolePriority[j], u))
    ensures r.None? <==> forall k :: 0 <= k < |RolePriority| ==> !Holds(RolePriority[k], u)
  {
    if IsStudent(u) then
      assert RolePriority[0] == StudentRole;
      Some(StudentRole)
    else if IsTeacher(u) then
      assert Holds(RolePriority[1], u) && !Holds(RolePriority[0], u);
      Some(TeacherRole)
    else if IsEducationManager(u) then
      assert Holds(RolePriority[2], u) && !Holds(RolePriority[0], u) && !Holds(RolePriority[1], u);
      Some(EducationManagerRole)
    else if IsProgramManager(u) then
      assert Holds(RolePriority[3], u) && !Holds(RolePriority[0], u) && !Holds(RolePriority[1], u)
        && !Holds(RolePriority[2], u);
      Some(ProgramManagerRole)
    else
      assert forall k :: 0 <= k < |RolePriority| ==> RolePriority[k] in {StudentRole, TeacherRole, EducationManagerRole, ProgramManagerRole};
      None
  }

  /** A student is classified as a student whatever else the user is. */
  lemma StudentWins(u: User)
    requires IsStudent(u)
    ensures GetUserRole(u) == Some(StudentRole)
  {
  }

  lemma ManagerPredicatesExclusive(u: User)
    ensures !(IsEducationManager(u) && IsProgramManager(u))
  {
  }

  /** A manager whose role holds one of the codes `ManagerRole.choices()`
      stores satisfies neither manager predicate. */
  lemma StoredCodesNeverMatch(u: User)
    requires u.manager.Some? && u.manager.value.role.Some?
    requires Enums.IsManagerRoleCode(u.manager.value.role.value)
    ensures !IsEducationManager(u) && !IsProgramManager(u)
  {
    Enums.ManagerRoleCodesExactly();
  }

  /** Hence such a manager, with no student or teacher row, gets no role at all. */
  lemma StoredManagerGetsNoRole(u: User)
    requires !IsStudent(u) && !IsTeacher(u)
    requires u.manager.Some? && u.manager.value.role.Some?
    requires Enums.IsManagerRoleCode(u.manager.value.role.value)
    ensures GetUserRole(u) == None
  {
    StoredCodesNeverMatch(u);
  }
}
