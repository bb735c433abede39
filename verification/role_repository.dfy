/**
 * RoleRepository: reads of DBA_ROLES, DBA_SYS_PRIVS and DBA_ROLE_PRIVS for one role or all of
 * them, and the role DDL it issues. Role names are used exactly as given. Only the
 * PASSWORD_REQUIRED check catches its failure; the other queries let it through (`Raised`).
 */
module RoleRepository {
  import opened Wrappers
  import opened Text
  import opened Database
  import opened Ddl
  import opened Model

  /** The PASSWORD_REQUIRED check: true only when the first value returned is "YES". */
  function HasPassword(passwordRequired: Reply<Nullable>): (has: bool)
    ensures has <==> passwordRequired.Rows? && |passwordRequired.rows| > 0 && passwordRequired.rows[0] == Some("YES")
  {
    match FirstRow(passwordRequired)
    case Some(flag) => IsYes(flag)
    case None => false
  }

  /**
   * What getRole returns: the role carrying its name as given, the password flag, the system
   * privileges granted to it and the grantees holding it; a failure of either list query
   * escapes as an exception.
   */
  function RoleCall(roleName: string, passwordRequired: string -> Reply<Nullable>,
                    privilegesOf: string -> Reply<string>, usersWithRole: string -> Reply<string>): (call: Call<Role>)
    ensures call.Returned? <==> privilegesOf(roleName).Rows? && usersWithRole(roleName).Rows?
    ensures call.Returned? ==>
              call.value.roleName == Some(roleName)
              && (call.value.hasPassword <==> FirstRow(passwordRequired(roleName)) == Some(Some("YES")))
              && call.value.password.None?
              && call.value.privileges == Some(privilegesOf(roleName).rows)
              && call.value.assignedUsers == Some(usersWithRole(roleName).rows)
  {
    var hasPassword := HasPassword(passwordRequired(roleName));
    var privileges := privilegesOf(roleName);
    if privileges.Failed? then Raised
    else
      var users := usersWithRole(roleName);
      if users.Failed? then Raised
      else Returned(Role(Some(roleName), hasPassword, None, Some(privileges.rows), Some(users.rows)))
  }

  /** Every name the role query returned yields a role. */
  predicate AllRolesReturned(names: seq<string>, passwordRequired: string -> Reply<Nullable>,
                             privilegesOf: string -> Reply<string>, usersWithRole: string -> Reply<string>) {
    forall i :: 0 <= i < |names| ==> RoleCall(names[i], passwordRequired, privilegesOf, usersWithRole).Returned?
  }

  /** getAllRoles: one role per name the role query returns, in that order. */
  method GetAllRoles(roleNames: Reply<string>, passwordRequired: string -> Reply<Nullable>,
                     privilegesOf: string -> Reply<string>, usersWithRole: string -> Reply<string>)
    returns (result: Call<seq<Role>>)
    ensures result.Returned? <==> roleNames.Rows? && AllRolesReturned(roleNames.rows, passwordRequired, privilegesOf, usersWithRole)
    ensures result.Returned? ==>
              |result.value| == |roleNames.rows|
              && forall i :: 0 <= i < |result.value| ==>
                   RoleCall(roleNames.rows[i], passwordRequired, privilegesOf, usersWithRole) == Returned(result.value[i])
  {
    if roleNames.Failed? {
      return Raised;
    }
    var names := roleNames.rows;
    var roles: seq<Role> := [];
    for i := 0 to |names|
      invariant |roles| == i
      invariant forall k :: 0 <= k < i ==> RoleCall(names[k], passwordRequired, privilegesOf, usersWithRole) == Returned(roles[k])
    {
      var role := RoleCall(names[i], passwordRequired, privilegesOf, usersWithRole);
      if role.Raised? {
        return Raised;
      }
      roles := roles + [role.value];
    }
    result := Returned(roles);
  }

  /** A role's password flag is false whenever its check fails or finds no row. */
  lemma NoPasswordWithoutAnswer(roleName: string, passwordRequired: string -> Reply<Nullable>,
                                privilegesOf: string -> Reply<string>, usersWithRole: string -> Reply<string>)
    requires passwordRequired(roleName).Failed? || passwordRequired(roleName).rows == []
    ensures var call := RoleCall(roleName, passwordRequired, privilegesOf, usersWithRole);
            call.Returned? ==> !call.value.hasPassword
  {
  }

  // ---------------------------------------------------------------------------
  // Role DDL
  // ---------------------------------------------------------------------------

  /** The password createRole writes: the given one, or none when it is null or empty. */
  function GivenPassword(password: Nullable): (given: Option<string>)
    ensures given.Some? <==> Filled(password)
    ensures given.Some? ==> given == password
  {
    if Filled(password) then password else None
  }

  /** createRole: CREATE ROLE, with IDENTIFIED BY only for a given password. */
  method CreateRole(db: AdminConnection, roleName: string, password: Nullable) returns (outcome: Outcome)
    modifies db
    ensures var create := Sql(Statement.CreateRole(roleName, GivenPassword(password)));
            db.log == old(db.log) + [create] && outcome == db.verdict(old(db.log), create)
  {
    CreateRoleText(roleName, password);
    if password.Some? && password.value != "" {
      outcome := db.Execute("CREATE ROLE " + roleName + " IDENTIFIED BY " + password.value);
    } else {
      outcome := db.Execute("CREATE ROLE " + roleName);
    }
  }

  /** alterRolePassword: ALTER ROLE ... IDENTIFIED BY; a null password is written as "null". */
  method AlterRolePassword(db: AdminConnection, roleName: string, password: Nullable) returns (outcome: Outcome)
    modifies db
    ensures db.log == old(db.log) + [Sql(Statement.AlterRolePassword(roleName, Show(password)))]
    ensures outcome == db.verdict(old(db.log), Sql(Statement.AlterRolePassword(roleName, Show(password))))
  {
    outcome := db.Execute("ALTER ROLE " + roleName + " IDENTIFIED BY " + Show(password));
  }

  method DropRole(db: AdminConnection, roleName: string) returns (outcome: Outcome)
    modifies db
    ensures db.log == old(db.log) + [Sql(Statement.DropRole(roleName))]
    ensures outcome == db.verdict(old(db.log), Sql(Statement.DropRole(roleName)))
  {
    outcome := db.Execute("DROP ROLE " + roleName);
  }

  /** The CREATE ROLE text names the role as given, and carries a password exactly when one is given. */
  lemma CreateRoleText(roleName: string, password: Nullable)
    ensures Filled(password) ==>
              Sql(Statement.CreateRole(roleName, GivenPassword(password))) == "CREATE ROLE " + roleName + " IDENTIFIED BY " + password.value
    ensures !Filled(password) ==> Sql(Statement.CreateRole(roleName, GivenPassword(password))) == "CREATE ROLE " + roleName
  {
  }
}
