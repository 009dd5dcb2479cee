/**
  * The role tests of the signed-in user. A user may be absent (`null`) and
  * a user's profile may be missing; either way the user has no admin role.
  */
module Auth {
  import opened Optional

  datatype Role = StudentRole | TeacherRole | AdminRole | SuperAdminRole

  /** The profile fields the role tests read. */
  datatype Profile = Profile(id: string, email: string, role: Role, isActive: bool)

  datatype AuthUser = AuthUser(id: string, profile: Option<Profile>)

  /** `user?.profile?.role`, `None` when the user or the profile is missing. */
  function RoleOf(user: Option<AuthUser>): (r: Option<Role>)
    ensures r.Some? <==> user.Some? && user.value.profile.Some?
  {
    if user.Some? && user.value.profile.Some? then Some(user.value.profile.value.role) else None
  }

  /** `isAdmin(user)` */
  predicate IsAdmin(user: Option<AuthUser>)
  {
    RoleOf(user) == Some(AdminRole) || RoleOf(user) == Some(SuperAdminRole)
  }

  /** `isSuperAdmin(user)` */
  predicate IsSuperAdmin(user: Option<AuthUser>)
  {
    RoleOf(user) == Some(SuperAdminRole)
  }

  /**
    * A user is an admin exactly when a profile is present with the role
    * admin or super admin, and a super admin exactly when that role is
    * super admin; so every super admin is an admin, and students and
    * teachers are neither.
    */
  lemma RoleTestsSpec(user: Option<AuthUser>)
    ensures IsAdmin(user) <==>
      user.Some? && user.value.profile.Some? &&
      (user.value.profile.value.role == AdminRole || user.value.profile.value.role == SuperAdminRole)
    ensures IsSuperAdmin(user) <==>
      user.Some? && user.value.profile.Some? && user.value.profile.value.role == SuperAdminRole
    ensures IsSuperAdmin(user) ==> IsAdmin(user)
    ensures user == None || user.value.profile == None ==> !IsAdmin(user) && !IsSuperAdmin(user)
  {
  }
}
