/**
 * RoleController (/roles): creating needs CREATE ROLE, editing ALTER ANY ROLE and deleting
 * DROP ANY ROLE; every POST returns to the role list.
 */
module RoleController {
  import opened Wrappers
  import opened Text
  import opened Database
  import opened PrivilegeRepository
  import opened Web

  /** The service calls the handlers issue, with the arguments they pass. */
  datatype RoleRequest =
    | CreateRoleCall(roleName: Nullable, password: Nullable)   // roleService.createRole, from the form
    | UpdatePasswordCall(name: string, newPassword: string)    // roleService.updateRolePassword
    | DeleteRoleCall(name: string)                             // roleService.deleteRole

  const NoPrivilege := "redirect:/roles?error=no_privilege"
  const BackToList := "redirect:/roles"

  /** Logged in and holding `privilege`. */
  predicate May(current: Nullable, privilege: string, count: CountQuery -> Reply<int>) {
    current.Some? && HasPrivilege(current.value, privilege, count)
  }

  /** GET /roles/create. */
  function CreateRoleForm(current: Nullable, count: CountQuery -> Reply<int>): (r: Response<RoleRequest>)
    ensures current.None? ==> r == ToLogin()
    ensures current.Some? ==> (r == Denied(NoPrivilege) <==> !May(current, "CREATE ROLE", count))
    ensures r == Response("roles/create", NoFlash, None) <==> May(current, "CREATE ROLE", count)
  {
    if current.None? then ToLogin()
    else if !HasPrivilege(current.value, "CREATE ROLE", count) then Denied(NoPrivilege)
    else Response("roles/create", NoFlash, None)
  }

  /** POST /roles/create: the form's name and password go to the service as they are. */
  function CreateRole(current: Nullable, count: CountQuery -> Reply<int>, roleName: Nullable, password: Nullable,
                      outcome: Outcome): (r: Response<RoleRequest>)
    ensures current.None? ==> r == ToLogin()
    ensures current.Some? && !May(current, "CREATE ROLE", count) ==> r == Denied(NoPrivilege)
    ensures May(current, "CREATE ROLE", count) ==>
              r.Response? && r.target == BackToList && r.call == Some(CreateRoleCall(roleName, password))
    ensures May(current, "CREATE ROLE", count) && outcome.Threw? ==> r.flash == Failure("Failed to create role: " + outcome.message)
  {
    if current.None? then ToLogin()
    else if !HasPrivilege(current.value, "CREATE ROLE", count) then Denied(NoPrivilege)
    else Response(BackToList, Reported(outcome, "Role created successfully", "Failed to create role: "),
                  Some(CreateRoleCall(roleName, password)))
  }

  /**
   * GET /roles/{roleName}/edit. `read` is how roleService.getRole ended (it throws when one of
   * RoleRepository.RoleCall's list queries fails); nothing here catches its exception.
   */
  function EditRoleForm(current: Nullable, count: CountQuery -> Reply<int>, read: Outcome): (r: Response<RoleRequest>)
    ensures current.None? ==> r == ToLogin()
    ensures current.Some? ==> (r == Denied(NoPrivilege) <==> !May(current, "ALTER ANY ROLE", count))
    ensures May(current, "ALTER ANY ROLE", count) && read.Threw? ==> r == Unhandled(read.message)
    ensures r == Response("roles/edit", NoFlash, None) <==> May(current, "ALTER ANY ROLE", count) && read.Completed?
  {
    if current.None? then ToLogin()
    else if !HasPrivilege(current.value, "ALTER ANY ROLE", count) then Denied(NoPrivilege)
    else match read
      case Completed => Response("roles/edit", NoFlash, None)
      case Threw(message) => Unhandled(message)
  }

  /** POST /roles/{roleName}/edit: the service is called only with a non-empty new password. */
  function UpdateRolePassword(current: Nullable, count: CountQuery -> Reply<int>, roleName: string, password: Nullable,
                              outcome: Outcome): (r: Response<RoleRequest>)
    ensures current.None? ==> r == ToLogin()
    ensures current.Some? && !May(current, "ALTER ANY ROLE", count) ==> r == Denied(NoPrivilege)
    ensures r.Response? && r.call.Some? <==> May(current, "ALTER ANY ROLE", count) && Filled(password)
    ensures May(current, "ALTER ANY ROLE", count) && !Filled(password) ==> r == Response(BackToList, NoFlash, None)
    ensures r.Response? && r.call.Some? ==> r.target == BackToList && r.call == Some(UpdatePasswordCall(roleName, password.value))
    ensures r.Response? && r.call.Some? && outcome.Threw? ==> r.flash == Failure("Failed to update role: " + outcome.message)
  {
    if current.None? then ToLogin()
    else if !HasPrivilege(current.value, "ALTER ANY ROLE", count) then Denied(NoPrivilege)
    else if password.Some? && password.value != "" then
      Response(BackToList, Reported(outcome, "Role password updated successfully", "Failed to update role: "),
               Some(UpdatePasswordCall(roleName, password.value)))
    else Response(BackToList, NoFlash, None)
  }

  /** POST /roles/{roleName}/delete. */
  function DeleteRole(current: Nullable, count: CountQuery -> Reply<int>, roleName: string, outcome: Outcome)
    : (r: Response<RoleRequest>)
    ensures current.None? ==> r == ToLogin()
    ensures current.Some? && !May(current, "DROP ANY ROLE", count) ==> r == Denied(NoPrivilege)
    ensures May(current, "DROP ANY ROLE", count) ==>
              r.Response? && r.target == BackToList && r.call == Some(DeleteRoleCall(roleName))
    ensures May(current, "DROP ANY ROLE", count) && outcome.Threw? ==> r.flash == Failure("Failed to delete role: " + outcome.message)
  {
    if current.None? then ToLogin()
    else if !HasPrivilege(current.value, "DROP ANY ROLE", count) then Denied(NoPrivilege)
    else Response(BackToList, Reported(outcome, "Role deleted successfully", "Failed to delete role: "),
                  Some(DeleteRoleCall(roleName)))
  }

  /**
   * Each operation has its own privilege: holding CREATE ROLE alone opens neither the password
   * update nor the delete.
   */
  lemma GatesAreSeparate(current: string, count: CountQuery -> Reply<int>, roleName: string, password: Nullable, outcome: Outcome)
    requires !HasPrivilege(current, "ALTER ANY ROLE", count) && !HasPrivilege(current, "DROP ANY ROLE", count)
    ensures UpdateRolePassword(Some(current), count, roleName, password, outcome) == Denied(NoPrivilege)
    ensures DeleteRole(Some(current), count, roleName, outcome) == Denied(NoPrivilege)
  {
  }
}
