/**
 * UserRepository: reads of Oracle's user catalog (DBA_USERS, DBA_TS_QUOTAS, DBA_ROLE_PRIVS,
 * DBA_SYS_PRIVS), of the application's APP_USER_PROFILE table, and the user DDL it issues.
 * Each query is an input: a function from its bind value to the reply Oracle gives.
 */
module UserRepository {
  import opened Wrappers
  import opened Text
  import opened Database
  import opened Ddl
  import opened Model

  /** A DBA_USERS row. */
  datatype UserRow = UserRow(
    username: Nullable,
    accountStatus: Nullable,
    lockDate: Option<Timestamp>,
    created: Option<Timestamp>,
    defaultTablespace: Nullable,
    temporaryTablespace: Nullable,
    profile: Nullable)

  /** A DBA_SYS_PRIVS row granted directly: PRIVILEGE, GRANTEE, ADMIN_OPTION. */
  datatype SysPrivRow = SysPrivRow(privilege: Nullable, grantee: Nullable, adminOption: Nullable)

  /** A system privilege held through a role: PRIVILEGE, ADMIN_OPTION, GRANTED_ROLE. */
  datatype RolePrivRow = RolePrivRow(privilege: Nullable, adminOption: Nullable, grantedRole: Nullable)

  /** UserRowMapper: the catalog columns it reads, every other field left null. */
  function MapUser(row: UserRow): (u: User)
    ensures u.username == row.username && u.accountStatus == row.accountStatus
    ensures u.lockDate == row.lockDate && u.createdDate == row.created
    ensures u.defaultTablespace == row.defaultTablespace && u.temporaryTablespace == row.temporaryTablespace
    ensures u.profile == row.profile
    ensures u.password.None? && u.quota.None? && u.roles.None? && u.privileges.None?
    ensures u.fullName.None? && u.email.None? && u.phone.None? && u.address.None?
  {
    NoUser.(username := row.username, accountStatus := row.accountStatus, lockDate := row.lockDate,
            createdDate := row.created, defaultTablespace := row.defaultTablespace,
            temporaryTablespace := row.temporaryTablespace, profile := row.profile)
  }

  /** The user getUserInfo makes up for the connected session user: its name and status OPEN. */
  function SessionUser(name: string): User {
    NoUser.(username := Some(name), accountStatus := Some("OPEN"))
  }

  /**
   * getUserInfo: the first DBA_USERS row for the upper-cased name; failing that, a user made
   * up for the connected session user when it is the requested one ignoring case; else null.
   */
  function GetUserInfo(username: string, usersNamed: string -> Reply<UserRow>, sessionUser: Reply<string>): (info: Option<User>)
    ensures FirstRow(usersNamed(Upper(username))).Some? ==> info == Some(MapUser(FirstRow(usersNamed(Upper(username))).value))
    ensures FirstRow(usersNamed(Upper(username))).None? && info.Some? ==>
              info.value.username.Some? && EqualsIgnoreCase(info.value.username.value, username)
              && info.value.accountStatus == Some("OPEN")
  {
    match FirstRow(usersNamed(Upper(username)))
    case Some(row) => Some(MapUser(row))
    case None =>
      match FirstRow(sessionUser)
      case Some(current) => if EqualsIgnoreCase(current, username) then Some(SessionUser(current)) else None
      case None => None
  }

  /** getUserQuota: the first quota found for the upper-cased name, else "0M", also when the query fails. */
  function GetUserQuota(username: string, tablespace: string, quotaOf: (string, string) -> Reply<string>): (quota: string)
    ensures quotaOf(Upper(username), tablespace).Failed? ==> quota == "0M"
    ensures quotaOf(Upper(username), tablespace).Rows? ==>
              quota == (if |quotaOf(Upper(username), tablespace).rows| > 0 then quotaOf(Upper(username), tablespace).rows[0] else "0M")
  {
    FirstRow(quotaOf(Upper(username), tablespace)).GetOr("0M")
  }

  /** getUserRoles: the granted roles of the upper-cased name; a failure propagates. */
  function GetUserRoles(username: string, rolesOf: string -> Reply<string>): (roles: Reply<string>)
    ensures roles.Failed? <==> rolesOf(Upper(username)).Failed?
    ensures roles.Rows? ==> roles.rows == rolesOf(Upper(username)).rows
  {
    rolesOf(Upper(username))
  }

  /** getUserProfile: the first APP_USER_PROFILE row for the upper-cased name, else null. */
  function GetUserProfile(username: string, profilesOf: string -> Reply<UserProfile>): (profile: Option<UserProfile>)
    ensures profile.Some? <==> profilesOf(Upper(username)).Rows? && |profilesOf(Upper(username)).rows| > 0
    ensures profile.Some? ==> profile.value == profilesOf(Upper(username)).rows[0]
  {
    FirstRow(profilesOf(Upper(username)))
  }

  /** getAllUsers: every catalog row mapped, or no user at all when the query fails. */
  function GetAllUsers(users: Reply<UserRow>): (all: seq<User>)
    ensures users.Failed? ==> all == []
    ensures users.Rows? ==> |all| == |users.rows| && forall i :: 0 <= i < |all| ==> all[i] == MapUser(users.rows[i])
  {
    if users.Failed? then [] else seq(|users.rows|, i requires 0 <= i < |users.rows| => MapUser(users.rows[i]))
  }

  /** What the direct-grant callback records for a row: type DIRECT, the grantee as returned, no grantor. */
  predicate RecordsDirect(p: PrivilegeInfo, row: SysPrivRow) {
    p.kind == Direct && p.privilege == row.privilege && p.grantee == row.grantee && p.grantor.None?
    && (p.adminOption <==> row.adminOption == Some("YES")) && p.roleName.None? && p.objectName.None?
  }

  /** What the role callback records for a row: type ROLE, the upper-cased user as grantee, the role's name. */
  predicate RecordsRole(p: PrivilegeInfo, grantee: string, row: RolePrivRow) {
    p.kind == ViaRole && p.privilege == row.privilege && p.grantee == Some(grantee) && p.grantor.None?
    && (p.adminOption <==> row.adminOption == Some("YES")) && p.roleName == row.grantedRole && p.objectName.None?
  }

  function DirectPrivilege(row: SysPrivRow): PrivilegeInfo {
    PrivilegeInfo(row.privilege, row.grantee, None, IsYes(row.adminOption), Direct, None, None)
  }

  function RolePrivilege(grantee: string, row: RolePrivRow): PrivilegeInfo {
    PrivilegeInfo(row.privilege, Some(grantee), None, IsYes(row.adminOption), ViaRole, row.grantedRole, None)
  }

  /**
   * The listing getUserPrivileges builds for `grantee` from the replies to its two queries: a
   * record per direct grant handed to the callback, then, unless the first query failed, a
   * record per grant held through a role.
   */
  predicate ListsPrivileges(privileges: seq<PrivilegeInfo>, grantee: string, direct: Reply<SysPrivRow>, viaRoles: Reply<RolePrivRow>) {
    var d := Handed(direct);
    var r := if direct.Rows? then Handed(viaRoles) else [];
    |privileges| == |d| + |r|
    && (forall i :: 0 <= i < |d| ==> RecordsDirect(privileges[i], d[i]))
    && (forall i :: |d| <= i < |privileges| ==> RecordsRole(privileges[i], grantee, r[i - |d|]))
  }

  /**
   * getUserPrivileges: the direct grants, then the grants held through roles, each added by a
   * row callback; a failing query ends the listing with what was added so far.
   */
  method GetUserPrivileges(username: string, direct: string -> Reply<SysPrivRow>, viaRoles: string -> Reply<RolePrivRow>)
    returns (privileges: seq<PrivilegeInfo>)
    ensures ListsPrivileges(privileges, Upper(username), direct(Upper(username)), viaRoles(Upper(username)))
  {
    privileges := [];
    var key := Upper(username);
    var first := direct(key);
    var d := Handed(first);
    for i := 0 to |d|
      invariant |privileges| == i
      invariant forall k :: 0 <= k < i ==> RecordsDirect(privileges[k], d[k])
    {
      privileges := privileges + [DirectPrivilege(d[i])];
    }
    if first.Failed? {
      return;
    }
    var r := Handed(viaRoles(key));
    for i := 0 to |r|
      invariant |privileges| == |d| + i
      invariant forall k :: 0 <= k < |d| ==> RecordsDirect(privileges[k], d[k])
      invariant forall k :: |d| <= k < |privileges| ==> RecordsRole(privileges[k], key, r[k - |d|])
    {
      privileges := privileges + [RolePrivilege(key, r[i])];
    }
  }

  // ---------------------------------------------------------------------------
  // User DDL
  // ---------------------------------------------------------------------------

  /** The clause for the temporary tablespace createUser always writes: the argument, or TEMP. */
  function TemporaryOrTemp(temporaryTablespace: Nullable): string {
    if Filled(temporaryTablespace) then temporaryTablespace.value else "TEMP"
  }

  /** The CREATE USER statement createUser builds. */
  function CreateUserStatement(username: string, password: string, defaultTablespace: Nullable,
                               temporaryTablespace: Nullable, quota: Nullable): (st: Statement)
    ensures st.CreateUser? && st.user == Upper(username) && st.password == password
  {
    Statement.CreateUser(Upper(username), password, CreateUserClauses(defaultTablespace, temporaryTablespace, quota))
  }

  function CreateUserClauses(defaultTablespace: Nullable, temporaryTablespace: Nullable, quota: Nullable): seq<UserClause> {
    var withDefault := AppendIf([], Filled(defaultTablespace), DefaultTablespace(Show(defaultTablespace)));
    var withTemporary := AppendIf(withDefault, true, TemporaryTablespace(TemporaryOrTemp(temporaryTablespace)));
    AppendIf(withTemporary, Filled(quota), Quota(Show(quota), Show(defaultTablespace)))
  }

  /**
   * CREATE USER carries DEFAULT TABLESPACE only for a given default tablespace, always a
   * TEMPORARY TABLESPACE (TEMP when none is given), and QUOTA only for a given quota, placed on
   * the default-tablespace argument; in that order.
   */
  lemma CreateUserClausesSpec(username: string, password: string, defaultTablespace: Nullable,
                              temporaryTablespace: Nullable, quota: Nullable)
    ensures var cs := CreateUserStatement(username, password, defaultTablespace, temporaryTablespace, quota).clauses;
            Ordered(cs)
            && forall c :: c in cs <==>
                 (Filled(defaultTablespace) && c == DefaultTablespace(defaultTablespace.value))
                 || c == TemporaryTablespace(TemporaryOrTemp(temporaryTablespace))
                 || (Filled(quota) && c == Quota(quota.value, Show(defaultTablespace)))
  {
    var withDefault := AppendIf([], Filled(defaultTablespace), DefaultTablespace(Show(defaultTablespace)));
    AppendIfOrdered([], Filled(defaultTablespace), DefaultTablespace(Show(defaultTablespace)));
    var withTemporary := AppendIf(withDefault, true, TemporaryTablespace(TemporaryOrTemp(temporaryTablespace)));
    AppendIfOrdered(withDefault, true, TemporaryTablespace(TemporaryOrTemp(temporaryTablespace)));
    AppendIfOrdered(withTemporary, Filled(quota), Quota(Show(quota), Show(defaultTablespace)));
  }

  /** The ALTER USER statement alterUser builds. */
  function AlterUserStatement(username: string, password: Nullable, defaultTablespace: Nullable,
                              temporaryTablespace: Nullable, quota: Nullable, profile: Nullable): (st: Statement)
    ensures st.AlterUser? && st.user == Upper(username)
  {
    Statement.AlterUser(Upper(username), AlterUserClauses(password, defaultTablespace, temporaryTablespace, quota, profile))
  }

  function AlterUserClauses(password: Nullable, defaultTablespace: Nullable, temporaryTablespace: Nullable,
                            quota: Nullable, profile: Nullable): seq<UserClause> {
    var withTemporary := AlterUserAccountClauses(password, defaultTablespace, temporaryTablespace);
    var withQuota := AppendIf(withTemporary, Filled(quota), Quota(Show(quota), Show(defaultTablespace)));
    AppendIf(withQuota, Filled(profile), ProfileClause(Show(profile)))
  }

  /** The first three ALTER USER clauses: password, default and temporary tablespace. */
  function AlterUserAccountClauses(password: Nullable, defaultTablespace: Nullable, temporaryTablespace: Nullable)
    : seq<UserClause> {
    var withPassword := AppendIf([], Filled(password), IdentifiedBy(Show(password)));
    var withDefault := AppendIf(withPassword, Filled(defaultTablespace), DefaultTablespace(Show(defaultTablespace)));
    AppendIf(withDefault, Filled(temporaryTablespace), TemporaryTablespace(Show(temporaryTablespace)))
  }

  /** The clauses of ALTER USER follow the fixed order IDENTIFIED BY, DEFAULT, TEMPORARY, QUOTA, PROFILE. */
  lemma AlterUserClausesOrdered(username: string, password: Nullable, defaultTablespace: Nullable,
                                temporaryTablespace: Nullable, quota: Nullable, profile: Nullable)
    ensures Ordered(AlterUserStatement(username, password, defaultTablespace, temporaryTablespace, quota, profile).clauses)
  {
    var withTemporary := AlterUserAccountClauses(password, defaultTablespace, temporaryTablespace);
    AccountClausesOrdered(password, defaultTablespace, temporaryTablespace);
    var withQuota := AppendIf(withTemporary, Filled(quota), Quota(Show(quota), Show(defaultTablespace)));
    assert Ordered(withQuota) && RanksBelow(withQuota, 4) by {
      AppendIfOrdered(withTemporary, Filled(quota), Quota(Show(quota), Show(defaultTablespace)));
    }
    AppendIfOrdered(withQuota, Filled(profile), ProfileClause(Show(profile)));
  }

  lemma AccountClausesOrdered(password: Nullable, defaultTablespace: Nullable, temporaryTablespace: Nullable)
    ensures var cs := AlterUserAccountClauses(password, defaultTablespace, temporaryTablespace);
            Ordered(cs) && RanksBelow(cs, 3)
  {
    var withPassword := AppendIf([], Filled(password), IdentifiedBy(Show(password)));
    var withDefault := AppendIf(withPassword, Filled(defaultTablespace), DefaultTablespace(Show(defaultTablespace)));
    assert Ordered(withDefault) && RanksBelow(withDefault, 2) by {
      AppendIfOrdered([], Filled(password), IdentifiedBy(Show(password)));
      AppendIfOrdered(withPassword, Filled(defaultTablespace), DefaultTablespace(Show(defaultTablespace)));
    }
    AppendIfOrdered(withDefault, Filled(temporaryTablespace), TemporaryTablespace(Show(temporaryTablespace)));
  }

  /**
   * ALTER USER carries each of IDENTIFIED BY, DEFAULT TABLESPACE, TEMPORARY TABLESPACE, QUOTA
   * (on the default-tablespace argument) and PROFILE exactly when its argument is given.
   */
  lemma AlterUserClausesPresent(username: string, password: Nullable, defaultTablespace: Nullable,
                                temporaryTablespace: Nullable, quota: Nullable, profile: Nullable)
    ensures var cs := AlterUserStatement(username, password, defaultTablespace, temporaryTablespace, quota, profile).clauses;
            forall c :: c in cs <==>
              (Filled(password) && c == IdentifiedBy(password.value))
              || (Filled(defaultTablespace) && c == DefaultTablespace(defaultTablespace.value))
              || (Filled(temporaryTablespace) && c == TemporaryTablespace(temporaryTablespace.value))
              || (Filled(quota) && c == Quota(quota.value, Show(defaultTablespace)))
              || (Filled(profile) && c == ProfileClause(profile.value))
  {
    var withPassword := AppendIf([], Filled(password), IdentifiedBy(Show(password)));
    var withDefault := AppendIf(withPassword, Filled(defaultTablespace), DefaultTablespace(Show(defaultTablespace)));
    var withTemporary := AppendIf(withDefault, Filled(temporaryTablespace), TemporaryTablespace(Show(temporaryTablespace)));
    var withQuota := AppendIf(withTemporary, Filled(quota), Quota(Show(quota), Show(defaultTablespace)));
    var cs := AppendIf(withQuota, Filled(profile), ProfileClause(Show(profile)));
    AppendIfMembers(withQuota, Filled(profile), ProfileClause(Show(profile)));
    AppendIfMembers(withTemporary, Filled(quota), Quota(Show(quota), Show(defaultTablespace)));
    AppendIfMembers(withDefault, Filled(temporaryTablespace), TemporaryTablespace(Show(temporaryTablespace)));
    AppendIfMembers(withPassword, Filled(defaultTablespace), DefaultTablespace(Show(defaultTablespace)));
    AppendIfMembers([], Filled(password), IdentifiedBy(Show(password)));
  }

  /** The StringBuilder part of createUser. */
  method BuildCreateUser(username: string, password: string, defaultTablespace: Nullable,
                         temporaryTablespace: Nullable, quota: Nullable) returns (sql: string)
    ensures sql == Sql(CreateUserStatement(username, password, defaultTablespace, temporaryTablespace, quota))
  {
    var head := "CREATE USER " + Upper(username) + " IDENTIFIED BY " + password;
    sql := head;
    ghost var clauses: seq<UserClause> := [];
    sql, clauses := AppendClause(sql, head, clauses, Filled(defaultTablespace), DefaultTablespace(Show(defaultTablespace)));
    sql, clauses := AppendClause(sql, head, clauses, true, TemporaryTablespace(TemporaryOrTemp(temporaryTablespace)));
    sql, clauses := AppendClause(sql, head, clauses, Filled(quota), Quota(Show(quota), Show(defaultTablespace)));
  }

  /** createUser: CREATE USER, then GRANT CREATE SESSION unless the CREATE failed. */
  method CreateUser(db: AdminConnection, username: string, password: string, defaultTablespace: Nullable,
                    temporaryTablespace: Nullable, quota: Nullable) returns (outcome: Outcome)
    modifies db
    ensures var create := Sql(CreateUserStatement(username, password, defaultTablespace, temporaryTablespace, quota));
            var grant := Sql(Grant("CREATE SESSION", Upper(username), false));
            if db.verdict(old(db.log), create).Threw?
            then db.log == old(db.log) + [create] && outcome == db.verdict(old(db.log), create)
            else db.log == old(db.log) + [create] + [grant] && outcome == db.verdict(old(db.log) + [create], grant)
  {
    var sql := BuildCreateUser(username, password, defaultTablespace, temporaryTablespace, quota);
    var grant := Sql(Grant("CREATE SESSION", Upper(username), false));
    var created := db.Execute(sql);
    if created.Threw? {
      return created;
    }
    outcome := db.Execute(grant);
  }

  /** The StringBuilder part of alterUser. */
  method BuildAlterUser(username: string, password: Nullable, defaultTablespace: Nullable,
                        temporaryTablespace: Nullable, quota: Nullable, profile: Nullable) returns (sql: string)
    ensures sql == Sql(AlterUserStatement(username, password, defaultTablespace, temporaryTablespace, quota, profile))
  {
    var head := "ALTER USER " + Upper(username);
    ghost var clauses;
    sql, clauses := AppendAccountClauses(head, password, defaultTablespace, temporaryTablespace);
    sql, clauses := AppendClause(sql, head, clauses, Filled(quota), Quota(Show(quota), Show(defaultTablespace)));
    sql, clauses := AppendClause(sql, head, clauses, Filled(profile), ProfileClause(Show(profile)));
  }

  method AppendAccountClauses(head: string, password: Nullable, defaultTablespace: Nullable, temporaryTablespace: Nullable)
    returns (sql: string, ghost clauses: seq<UserClause>)
    ensures clauses == AlterUserAccountClauses(password, defaultTablespace, temporaryTablespace)
    ensures sql == head + ClausesSql(clauses)
  {
    sql := head;
    clauses := [];
    sql, clauses := AppendClause(sql, head, clauses, Filled(password), IdentifiedBy(Show(password)));
    sql, clauses := AppendClause(sql, head, clauses, Filled(defaultTablespace), DefaultTablespace(Show(defaultTablespace)));
    sql, clauses := AppendClause(sql, head, clauses, Filled(temporaryTablespace), TemporaryTablespace(Show(temporaryTablespace)));
  }

  /** alterUser: one ALTER USER statement with the clauses whose arguments are given. */
  method AlterUser(db: AdminConnection, username: string, password: Nullable, defaultTablespace: Nullable,
                   temporaryTablespace: Nullable, quota: Nullable, profile: Nullable) returns (outcome: Outcome)
    modifies db
    ensures var alter := Sql(AlterUserStatement(username, password, defaultTablespace, temporaryTablespace, quota, profile));
            db.log == old(db.log) + [alter] && outcome == db.verdict(old(db.log), alter)
  {
    var sql := BuildAlterUser(username, password, defaultTablespace, temporaryTablespace, quota, profile);
    outcome := db.Execute(sql);
  }

  method LockUser(db: AdminConnection, username: string) returns (outcome: Outcome)
    modifies db
    ensures db.log == old(db.log) + [Sql(Statement.LockUser(Upper(username)))]
    ensures outcome == db.verdict(old(db.log), Sql(Statement.LockUser(Upper(username))))
  {
    outcome := db.Execute("ALTER USER " + Upper(username) + " ACCOUNT LOCK");
  }

  method UnlockUser(db: AdminConnection, username: string) returns (outcome: Outcome)
    modifies db
    ensures db.log == old(db.log) + [Sql(Statement.UnlockUser(Upper(username)))]
    ensures outcome == db.verdict(old(db.log), Sql(Statement.UnlockUser(Upper(username))))
  {
    outcome := db.Execute("ALTER USER " + Upper(username) + " ACCOUNT UNLOCK");
  }

  method DropUser(db: AdminConnection, username: string) returns (outcome: Outcome)
    modifies db
    ensures db.log == old(db.log) + [Sql(Statement.DropUser(Upper(username)))]
    ensures outcome == db.verdict(old(db.log), Sql(Statement.DropUser(Upper(username))))
  {
    outcome := db.Execute("DROP USER " + Upper(username) + " CASCADE");
  }

  // ---------------------------------------------------------------------------
  // Facts about the reads and the statements
  // ---------------------------------------------------------------------------

  /** getUserInfo does not depend on the case of the requested name. */
  lemma GetUserInfoIgnoresCase(a: string, b: string, usersNamed: string -> Reply<UserRow>, sessionUser: Reply<string>)
    requires Upper(a) == Upper(b)
    ensures GetUserInfo(a, usersNamed, sessionUser) == GetUserInfo(b, usersNamed, sessionUser)
  {
    if FirstRow(sessionUser).Some? {
      var current := FirstRow(sessionUser).value;
      EqualsIgnoreCaseIffSameUpper(current, a);
      EqualsIgnoreCaseIffSameUpper(current, b);
    }
  }

  /**
   * Whatever getUserInfo returns is the requested user: a catalog row found for its
   * upper-cased name, or the session user, whose name matches ignoring case and whose status is OPEN.
   */
  lemma GetUserInfoIsRequested(username: string, usersNamed: string -> Reply<UserRow>, sessionUser: Reply<string>)
    ensures var u := GetUserInfo(username, usersNamed, sessionUser);
            var found := FirstRow(usersNamed(Upper(username)));
            u.Some? ==>
              (found.Some? && u.value == MapUser(found.value))
              || (found.None? && u.value.username.Some? && EqualsIgnoreCase(u.value.username.value, username)
                  && u.value.accountStatus == Some("OPEN"))
  {
  }

  /** getUserInfo returns null exactly when no row is found and the session user is not the requested one. */
  lemma GetUserInfoNull(username: string, usersNamed: string -> Reply<UserRow>, sessionUser: Reply<string>)
    ensures GetUserInfo(username, usersNamed, sessionUser).None? <==>
              FirstRow(usersNamed(Upper(username))).None?
              && !(sessionUser.Rows? && |sessionUser.rows| > 0 && EqualsIgnoreCase(sessionUser.rows[0], username))
  {
  }

  /** The quota is the one Oracle reports when it reports any, and "0M" otherwise. */
  lemma GetUserQuotaDefault(username: string, tablespace: string, quotaOf: (string, string) -> Reply<string>)
    ensures var reply := quotaOf(Upper(username), tablespace);
            GetUserQuota(username, tablespace, quotaOf) == (if reply.Rows? && |reply.rows| > 0 then reply.rows[0] else "0M")
  {
  }

  /**
   * The QUOTA clause names the default-tablespace argument even when the DEFAULT TABLESPACE
   * clause was left out: with no default tablespace, the quota lands "ON null".
   */
  lemma QuotaWithoutDefaultTablespace(username: string, password: string, temporaryTablespace: Nullable, quota: string)
    requires quota != ""
    ensures var st := CreateUserStatement(username, password, None, temporaryTablespace, Some(quota));
            Quota(quota, "null") in st.clauses
            && forall c :: c in st.clauses ==> !c.DefaultTablespace?
  {
    CreateUserClausesSpec(username, password, None, temporaryTablespace, Some(quota));
  }

  /** With no optional argument, CREATE USER carries only the TEMP temporary tablespace. */
  lemma CreateUserMinimal(username: string, password: string)
    ensures Sql(CreateUserStatement(username, password, None, None, None))
         == "CREATE USER " + Upper(username) + " IDENTIFIED BY " + password + " TEMPORARY TABLESPACE TEMP"
  {
    var cs := CreateUserStatement(username, password, None, None, None).clauses;
    assert cs == [TemporaryTablespace("TEMP")];
    assert ClausesSql(cs) == ClausesSql([]) + ClauseSql(TemporaryTablespace("TEMP"));
  }

  /** With no optional argument, ALTER USER is the bare prefix. */
  lemma AlterUserMinimal(username: string)
    ensures Sql(AlterUserStatement(username, None, None, None, None, None)) == "ALTER USER " + Upper(username)
  {
    assert AlterUserStatement(username, None, None, None, None, None).clauses == [];
  }

  /** The listing is determined by the replies: two lists that both fit them are the same list. */
  lemma ListsPrivilegesUnique(p: seq<PrivilegeInfo>, q: seq<PrivilegeInfo>, grantee: string,
                              direct: Reply<SysPrivRow>, viaRoles: Reply<RolePrivRow>)
    requires ListsPrivileges(p, grantee, direct, viaRoles) && ListsPrivileges(q, grantee, direct, viaRoles)
    ensures p == q
  {
    var d := Handed(direct);
    forall i | 0 <= i < |p| ensures p[i] == q[i] {
      if i < |d| {
        assert RecordsDirect(p[i], d[i]) && RecordsDirect(q[i], d[i]);
      }
    }
  }
}
