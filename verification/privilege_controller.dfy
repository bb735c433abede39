/**
 * PrivilegeController (/privileges): the grant form, grant and revoke, each open to a user
 * holding GRANT ANY PRIVILEGE or GRANT ANY ROLE. Grant and revoke dispatch on the privilege
 * type; an unknown type does nothing.
 */
module PrivilegeController {
  import opened Wrappers
  import opened Text
  import opened Database
  import opened PrivilegeRepository
  import opened Web

  /** The service calls grant and revoke issue, with the arguments they pass. */
  datatype PrivilegeRequest =
    | GrantSystem(privilege: string, grantee: string, withOption: bool)                 // grantSystemPrivilege
    | GrantRoleTo(role: string, grantee: string, withOption: bool)                      // grantRole
    | GrantObject(privilege: string, table: string, grantee: string, withOption: bool)  // grantObjectPrivilege
    | GrantColumn(privilege: string, table: string, column: string, grantee: string)    // grantColumnPrivilege
    | RevokeSystem(privilege: string, grantee: string)                                  // revokeSystemPrivilege
    | RevokeRoleFrom(role: string, grantee: string)                                     // revokeRole
    | RevokeObject(privilege: string, table: string, grantee: string)                   // revokeObjectPrivilege
  {
    /** Whether the call takes a privilege away. */
    predicate Revoke() {
      RevokeSystem? || RevokeRoleFrom? || RevokeObject?
    }
  }

  const NoPrivilege := "redirect:/privileges?error=no_privilege"
  const BackToList := "redirect:/privileges"
  const BackToForm := "redirect:/privileges/grant"

  /** The gate of all three handlers: logged in, and holding GRANT ANY PRIVILEGE or GRANT ANY ROLE. */
  predicate MayGrant(current: Nullable, count: CountQuery -> Reply<int>) {
    current.Some?
    && (HasPrivilege(current.value, "GRANT ANY PRIVILEGE", count) || HasPrivilege(current.value, "GRANT ANY ROLE", count))
  }

  /** GET /privileges/grant. */
  function GrantPrivilegeForm(current: Nullable, count: CountQuery -> Reply<int>): (r: Response<PrivilegeRequest>)
    ensures current.None? ==> r == ToLogin()
    ensures current.Some? ==> (r == Denied(NoPrivilege) <==> !MayGrant(current, count))
    ensures r == Response("privileges/grant", NoFlash, None) <==> MayGrant(current, count)
  {
    if current.None? then ToLogin()
    else if !HasPrivilege(current.value, "GRANT ANY PRIVILEGE", count) && !HasPrivilege(current.value, "GRANT ANY ROLE", count)
    then Denied(NoPrivilege)
    else Response("privileges/grant", NoFlash, None)
  }

  /** The grant a valid form issues for a type, if the type is known and its fields are present. */
  function GrantRequest(privilegeType: string, privilege: string, grantee: string, table: Nullable, column: Nullable,
                        withOption: bool): (request: Option<PrivilegeRequest>)
    ensures request.Some? <==>
              privilegeType == "SYSTEM" || privilegeType == "ROLE" || (privilegeType == "OBJECT" && Filled(table))
              || (privilegeType == "COLUMN" && Filled(table) && Filled(column))
    ensures request.Some? ==> request.value.grantee == grantee && !request.value.Revoke()
  {
    match privilegeType
    case "SYSTEM" => Some(GrantSystem(privilege, grantee, withOption))
    case "ROLE" => Some(GrantRoleTo(privilege, grantee, withOption))
    case "OBJECT" => if Filled(table) then Some(GrantObject(privilege, table.value, grantee, withOption)) else None
    case "COLUMN" =>
      if Filled(table) && Filled(column) then Some(GrantColumn(privilege, table.value, column.value, grantee)) else None
    case _ => None
  }

  /** POST /privileges/grant: dispatch on the type; OBJECT needs a table, COLUMN a table and a column. */
  function GrantPrivilege(current: Nullable, count: CountQuery -> Reply<int>, privilegeType: string, privilege: string,
                          grantee: string, table: Nullable, column: Nullable, withOption: bool, outcome: Outcome)
    : (r: Response<PrivilegeRequest>)
    ensures current.None? ==> r == ToLogin()
    ensures current.Some? && !MayGrant(current, count) ==> r == Denied(NoPrivilege)
    ensures r.Response? && r.call.Some? <==>
              MayGrant(current, count) && GrantRequest(privilegeType, privilege, grantee, table, column, withOption).Some?
    ensures r.Response? && r.call.Some? ==> r.call == GrantRequest(privilegeType, privilege, grantee, table, column, withOption)
    ensures r.Response? && r.call.Some? ==>
              r.target == BackToList && r.flash.Success? != outcome.Threw?
              && (outcome.Threw? ==> r.flash == Failure("Failed to grant privilege: " + outcome.message))
  {
    if current.None? then ToLogin()
    else if !HasPrivilege(current.value, "GRANT ANY PRIVILEGE", count) && !HasPrivilege(current.value, "GRANT ANY ROLE", count)
    then Denied(NoPrivilege)
    else match privilegeType
      case "SYSTEM" =>
        Response(BackToList, Reported(outcome, "System privilege granted successfully", "Failed to grant privilege: "),
                 Some(GrantSystem(privilege, grantee, withOption)))
      case "ROLE" =>
        Response(BackToList, Reported(outcome, "Role granted successfully", "Failed to grant privilege: "),
                 Some(GrantRoleTo(privilege, grantee, withOption)))
      case "OBJECT" =>
        if !Filled(table) then Response(BackToForm, Failure("Table name is required"), None)
        else Response(BackToList, Reported(outcome, "Object privilege granted successfully", "Failed to grant privilege: "),
                      Some(GrantObject(privilege, table.value, grantee, withOption)))
      case "COLUMN" =>
        if !Filled(table) || !Filled(column) then Response(BackToForm, Failure("Table and column names are required"), None)
        else Response(BackToList, Reported(outcome, "Column privilege granted successfully", "Failed to grant privilege: "),
                      Some(GrantColumn(privilege, table.value, column.value, grantee)))
      case _ => Response(BackToList, NoFlash, None)
  }

  /** The revoke a form issues for a type: SYSTEM, ROLE, or OBJECT with a table; there is no COLUMN case. */
  function RevokeRequest(privilegeType: string, privilege: string, grantee: string, table: Nullable)
    : (request: Option<PrivilegeRequest>)
    ensures request.Some? <==>
              privilegeType == "SYSTEM" || privilegeType == "ROLE" || (privilegeType == "OBJECT" && Filled(table))
    ensures request.Some? ==> request.value.grantee == grantee && request.value.Revoke()
  {
    match privilegeType
    case "SYSTEM" => Some(RevokeSystem(privilege, grantee))
    case "ROLE" => Some(RevokeRoleFrom(privilege, grantee))
    case "OBJECT" => if Filled(table) then Some(RevokeObject(privilege, table.value, grantee)) else None
    case _ => None
  }

  /** POST /privileges/revoke: like grant, but a missing table sends the user back to the list. */
  function RevokePrivilege(current: Nullable, count: CountQuery -> Reply<int>, privilegeType: string, privilege: string,
                           grantee: string, table: Nullable, outcome: Outcome): (r: Response<PrivilegeRequest>)
    ensures current.None? ==> r == ToLogin()
    ensures current.Some? && !MayGrant(current, count) ==> r == Denied(NoPrivilege)
    ensures r.Response? && r.call.Some? <==> MayGrant(current, count) && RevokeRequest(privilegeType, privilege, grantee, table).Some?
    ensures r.Response? && r.call.Some? ==> r.call == RevokeRequest(privilegeType, privilege, grantee, table)
    ensures r.Response? && r.call.Some? ==>
              r.target == BackToList && r.flash.Success? != outcome.Threw?
              && (outcome.Threw? ==> r.flash == Failure("Failed to revoke privilege: " + outcome.message))
  {
    if current.None? then ToLogin()
    else if !HasPrivilege(current.value, "GRANT ANY PRIVILEGE", count) && !HasPrivilege(current.value, "GRANT ANY ROLE", count)
    then Denied(NoPrivilege)
    else match privilegeType
      case "SYSTEM" =>
        Response(BackToList, Reported(outcome, "System privilege revoked successfully", "Failed to revoke privilege: "),
                 Some(RevokeSystem(privilege, grantee)))
      case "ROLE" =>
        Response(BackToList, Reported(outcome, "Role revoked successfully", "Failed to revoke privilege: "),
                 Some(RevokeRoleFrom(privilege, grantee)))
      case "OBJECT" =>
        if !Filled(table) then Response(BackToList, Failure("Table name is required"), None)
        else Response(BackToList, Reported(outcome, "Object privilege revoked successfully", "Failed to revoke privilege: "),
                      Some(RevokeObject(privilege, table.value, grantee)))
      case _ => Response(BackToList, NoFlash, None)
  }

  // ---------------------------------------------------------------------------
  // Facts about the handlers
  // ---------------------------------------------------------------------------

  /** An OBJECT grant without a table, or a COLUMN grant missing either name, issues nothing and returns to the form. */
  lemma MissingNamesStayOnForm(current: Nullable, count: CountQuery -> Reply<int>, privilege: string, grantee: string,
                               table: Nullable, column: Nullable, withOption: bool, outcome: Outcome)
    requires MayGrant(current, count)
    ensures !Filled(table) ==>
              GrantPrivilege(current, count, "OBJECT", privilege, grantee, table, column, withOption, outcome)
              == Response(BackToForm, Failure("Table name is required"), None)
    ensures !Filled(table) || !Filled(column) ==>
              GrantPrivilege(current, count, "COLUMN", privilege, grantee, table, column, withOption, outcome)
              == Response(BackToForm, Failure("Table and column names are required"), None)
    ensures !Filled(table) ==>
              RevokePrivilege(current, count, "OBJECT", privilege, grantee, table, outcome)
              == Response(BackToList, Failure("Table name is required"), None)
  {
  }

  /** The option flag reaches SYSTEM, ROLE and OBJECT grants, and is dropped for a COLUMN grant. */
  lemma OptionForwarding(privilegeType: string, privilege: string, grantee: string, table: Nullable, column: Nullable)
    ensures privilegeType == "COLUMN" ==>
              GrantRequest(privilegeType, privilege, grantee, table, column, true)
              == GrantRequest(privilegeType, privilege, grantee, table, column, false)
    ensures privilegeType in {"SYSTEM", "ROLE"} || (privilegeType == "OBJECT" && Filled(table)) ==>
              GrantRequest(privilegeType, privilege, grantee, table, column, true)
              != GrantRequest(privilegeType, privilege, grantee, table, column, false)
  {
  }

  /** An unknown type, and COLUMN on revoke, issue no call and set no flash. */
  lemma UnknownTypeDoesNothing(current: Nullable, count: CountQuery -> Reply<int>, privilegeType: string, privilege: string,
                               grantee: string, table: Nullable, column: Nullable, withOption: bool, outcome: Outcome)
    requires MayGrant(current, count)
    requires privilegeType != "SYSTEM" && privilegeType != "ROLE" && privilegeType != "OBJECT"
    ensures privilegeType != "COLUMN" ==>
              GrantPrivilege(current, count, privilegeType, privilege, grantee, table, column, withOption, outcome)
              == Response(BackToList, NoFlash, None)
    ensures RevokePrivilege(current, count, privilegeType, privilege, grantee, table, outcome) == Response(BackToList, NoFlash, None)
  {
  }

  /** A failed grant of any type becomes an error flash carrying the exception's message, and the list page. */
  lemma GrantFailureReported(current: Nullable, count: CountQuery -> Reply<int>, privilegeType: string, privilege: string,
                             grantee: string, table: Nullable, column: Nullable, withOption: bool, message: string)
    requires MayGrant(current, count)
    requires GrantRequest(privilegeType, privilege, grantee, table, column, withOption).Some?
    ensures GrantPrivilege(current, count, privilegeType, privilege, grantee, table, column, withOption, Threw(message))
            == Response(BackToList, Failure("Failed to grant privilege: " + message),
                        GrantRequest(privilegeType, privilege, grantee, table, column, withOption))
  {
  }

  /** A failed revoke of any type becomes an error flash carrying the exception's message, and the list page. */
  lemma RevokeFailureReported(current: Nullable, count: CountQuery -> Reply<int>, privilegeType: string, privilege: string,
                              grantee: string, table: Nullable, message: string)
    requires MayGrant(current, count)
    requires RevokeRequest(privilegeType, privilege, grantee, table).Some?
    ensures RevokePrivilege(current, count, privilegeType, privilege, grantee, table, Threw(message))
            == Response(BackToList, Failure("Failed to revoke privilege: " + message),
                        RevokeRequest(privilegeType, privilege, grantee, table))
  {
  }
}
