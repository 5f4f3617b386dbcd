/** The role predicates of school_management/utils/role_access_checking.py.
    They compare the manager's role with the stored codes `Education` and
    `Program`. */
module RoleAccessChecking {
  import opened Basics
  import opened Users
  import Enums

  /** `hasattr(user, "teacher") or hasattr(user, "student")`. */
  predicate IsStudentOrTeacher(u: User)
  {
    u.hasTeacher || u.hasStudent
  }

  predicate IsEducationManager(u: User)
  {
    ManagerRoleIs(u, "Education")
  }

  predicate IsProgramManager(u: User)
  {
    ManagerRoleIs(u, "Program")
  }

  predicate Holds(role: string, u: User)
  {
    if role == StudentRole then IsStudent(u)
    else if role == TeacherRole then IsTeacher(u)
    else if role == EducationManagerRole then IsEducationManager(u)
    else if role == ProgramManagerRole then IsProgramManager(u)
    else false
  }

  function GetUserRole(u: User): (r: Option<string>)
    ensures r.Some? ==>
      exists k :: (0 <= k < |RolePriority| && RolePriority[k] == r.value && Holds(RolePriority[k], u)
                   && forall j :: 0 <= j < k ==> !Holds(RolePriority[j], u))
    ensures r.None? <==> forall k :: 0 <= k < |RolePriority| ==> !Holds(RolePriority[k], u)
  {
    if IsStudent(u) then
      assert RolePriority[0] == StudentRole;
      Some(StudentRole)
    else if IsTeacher(u) then
      assert Holds(RolePriority[1], u) && !Holds(RolePriority[0], u);
      Some(TeacherRole)
    else if IsEducationManager(u) then
      assert Holds(RolePriority[2], u) && !Holds(RolePriority[0], u) && !Holds(RolePriority[1], u);
      Some(EducationManagerRole)
    else if IsProgramManager(u) then
      assert Holds(RolePriority[3], u) && !Holds(RolePriority[0], u) && !Holds(RolePriority[1], u)
        && !Holds(RolePriority[2], u);
      Some(ProgramManagerRole)
    else
      assert forall k :: 0 <= k < |RolePriority| ==> RolePriority[k] in {StudentRole, TeacherRole, EducationManagerRole, ProgramManagerRole};
      None
  }

  lemma StudentOrTeacherIsDisjunction(u: User)
    ensures IsStudentOrTeacher(u) <==> IsStudent(u) || IsTeacher(u)
  {
  }

  lemma StudentWins(u: User)
    requires IsStudent(u)
    ensures GetUserRole(u) == Some(StudentRole)
  {
  }

  lemma ManagerPredicatesExclusive(u: User)
    ensures !(IsEducationManager(u) && IsProgramManager(u))
  {
  }

  /** The two manager predicates test for exactly the two codes of
      `ManagerRole.choices()`, in declaration order. */
  lemma ManagerPredicatesUseStoredCodes(u: User)
    ensures IsEducationManager(u) <==> ManagerRoleIs(u, Enums.ManagerRoleChoices()[0].code)
    ensures IsProgramManager(u) <==> ManagerRoleIs(u, Enums.ManagerRoleChoices()[1].code)
  {
    Enums.ManagerRoleCodesExactly();
  }

  /** Every manager with a stored role code, and no student or teacher row,
      is classified as the manager that code names. */
  lemma StoredManagerRecognised(u: User)
    requires !IsStudent(u) && !IsTeacher(u)
    requires u.manager.Some? && u.manager.value.role.Some?
    requires Enums.IsManagerRoleCode(u.manager.value.role.value)
    ensures GetUserRole(u) == Some(if u.manager.value.role.value == "Education"
                                   then EducationManagerRole else ProgramManagerRole)
  {
    Enums.ManagerRoleCodesExactly();
  }
}
