/** What the role checks can see of a signed-in user: which profile rows
    (student, teacher, manager) exist for it, and the manager's role code. */
module Users {
  import opened Basics

  /** A `Manager` row; `role` is a nullable column. */
  datatype ManagerProfile = ManagerProfile(role: Option<string>)

  /** `hasattr(user, "student")`, `hasattr(user, "teacher")` and the related
      manager row, if any. */
  datatype User = User(hasStudent: bool, hasTeacher: bool, manager: Option<ManagerProfile>)

  const StudentRole := "student"
  const TeacherRole := "teacher"
  const EducationManagerRole := "education_manager"
  const ProgramManagerRole := "program_manager"

  /** The role names `get_user_role` can return, highest priority first. */
  const RolePriority: seq<string> := [StudentRole, TeacherRole, EducationManagerRole, ProgramManagerRole]

  /** `user_is_student`, the same in both role modules. */
  predicate IsStudent(u: User)
  {
    u.hasStudent
  }

  /** `user_is_teacher`, the same in both role modules. */
  predicate IsTeacher(u: User)
  {
    u.hasTeacher
  }

  /** `hasattr(user, "manager") and user.manager.role == code`. */
  predicate ManagerRoleIs(u: User, code: string)
  {
    u.manager.Some? && u.manager.value.role == Some(code)
  }
}
