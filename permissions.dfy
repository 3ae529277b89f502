/**
  The three permission classes of the API. Each is a boolean combination of
  the caller's authentication, superuser flag and role; together they form
  the hierarchy admin above manager above staff, which `Authorized` states
  once as a comparison of role levels.
 */
module Permissions {
  import opened Models

  /** What a permission check reads from the request's user. An anonymous
      caller is not authenticated and is no superuser; its role is never
      consulted. */
  datatype Caller = Caller(isAuthenticated: bool, isSuperuser: bool, role: Role)

  const StaffLevel: nat := 1
  const ManagerLevel: nat := 2
  const AdminLevel: nat := 3

  /** Ordinal rank of a role. */
  function RoleLevel(role: Role): (n: nat)
    ensures StaffLevel <= n <= AdminLevel
    ensures n == AdminLevel <==> role == AdminRole
    ensures n >= ManagerLevel <==> role != StaffRole
  {
    match role
    case StaffRole => StaffLevel
    case ManagerRole => ManagerLevel
    case AdminRole => AdminLevel
  }

  /** Reference policy: authenticated, and a superuser or of at least the
      required level. */
  predicate Authorized(c: Caller, level: nat) {
    c.isAuthenticated && (c.isSuperuser || RoleLevel(c.role) >= level)
  }

  /** `IsAdminUser.has_permission`. */
  function IsAdminUser(c: Caller): (r: bool)
    ensures r <==> Authorized(c, AdminLevel)
    ensures !c.isAuthenticated ==> !r
    ensures c.isAuthenticated && c.isSuperuser ==> r
    ensures !c.isSuperuser ==> (r <==> c.isAuthenticated && c.role == AdminRole)
    ensures r ==> IsManagerUser(c)
  {
    c.isAuthenticated && (c.isSuperuser || c.role == AdminRole)
  }

  /** `IsManagerUser.has_permission`: admins and managers, never plain staff
      unless a superuser. */
  function IsManagerUser(c: Caller): (r: bool)
    ensures r <==> Authorized(c, ManagerLevel)
    ensures !c.isAuthenticated ==> !r
    ensures c.isAuthenticated && c.isSuperuser ==> r
    ensures !c.isSuperuser ==> (r <==> c.isAuthenticated && c.role in {AdminRole, ManagerRole})
    ensures !c.isSuperuser && c.role == StaffRole ==> !r
    ensures r ==> IsStaffUser(c)
  {
    c.isAuthenticated && (c.isSuperuser || c.role == AdminRole || c.role == ManagerRole)
  }

  /** `IsStaffUser.has_permission`: every role is listed, so every
      authenticated caller passes. */
  function IsStaffUser(c: Caller): (r: bool)
    ensures r <==> Authorized(c, StaffLevel)
    ensures r <==> c.isAuthenticated
  {
    c.isAuthenticated && (c.isSuperuser || c.role == AdminRole || c.role == ManagerRole || c.role == StaffRole)
  }
}
