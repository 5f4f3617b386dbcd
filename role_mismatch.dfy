/** The two role modules disagree on every manager: the one the views use
    never recognises a stored `ManagerRole` code. */
module RoleMismatch {
  import opened Basics
  import opened Users
  import RoleChecking
  import RoleAccessChecking

  /** An education manager exactly as the `Manager` model stores one. */
  const StoredEducationManager := User(false, false, Some(ManagerProfile(Some("Education"))))

  lemma EducationManagerMisclassified()
    ensures RoleChecking.GetUserRole(StoredEducationManager) == None
    ensures RoleAccessChecking.GetUserRole(StoredEducationManager) == Some(EducationManagerRole)
  {
  }
}
