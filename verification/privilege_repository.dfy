/**
 * PrivilegeRepository: the privilege listing (DBA_SYS_PRIVS, DBA_TAB_PRIVS), the privilege
 * check every controller gate relies on, and the GRANT and REVOKE statements. Grantees are
 * upper-cased; privileges, tables and columns are written as given, and roles are upper-cased
 * only by grantRole and revokeRole.
 */
module PrivilegeRepository {
  import opened Wrappers
  import opened Text
  import opened Database
  import opened Ddl
  import opened Model
  import opened UserRepository

  /** A DBA_TAB_PRIVS row: PRIVILEGE, GRANTEE, GRANTOR, TABLE_NAME, GRANTABLE. */
  datatype ObjPrivRow = ObjPrivRow(privilege: Nullable, grantee: Nullable, grantor: Nullable, objectName: Nullable, grantable: Nullable)

  /** What the object-grant row mapper records: type OBJECT, the grantor and the object, GRANTABLE as the option. */
  predicate RecordsObject(p: PrivilegeInfo, row: ObjPrivRow) {
    p.kind == OnObject && p.privilege == row.privilege && p.grantee == row.grantee && p.grantor == row.grantor
    && (p.adminOption <==> row.grantable == Some("YES")) && p.roleName.None? && p.objectName == row.objectName
  }

  function ObjectPrivilege(row: ObjPrivRow): PrivilegeInfo {
    PrivilegeInfo(row.privilege, row.grantee, row.grantor, IsYes(row.grantable), OnObject, None, row.objectName)
  }

  /**
   * getAllPrivileges: every system grant (type DIRECT, no grantor), then every object grant
   * (type OBJECT). A failing query is caught: the list keeps what was added before it, which is
   * nothing when the first query fails and the system grants when the second one does.
   */
  method GetAllPrivileges(sysGrants: Reply<SysPrivRow>, objGrants: Reply<ObjPrivRow>) returns (privileges: seq<PrivilegeInfo>)
    ensures sysGrants.Failed? ==> privileges == []
    ensures sysGrants.Rows? ==>
              var s := sysGrants.rows;
              var o := if objGrants.Rows? then objGrants.rows else [];
              |privileges| == |s| + |o|
              && (forall i :: 0 <= i < |s| ==> RecordsDirect(privileges[i], s[i]))
              && (forall i :: |s| <= i < |privileges| ==> RecordsObject(privileges[i], o[i - |s|]))
  {
    privileges := [];
    if sysGrants.Failed? {
      return;
    }
    var s := sysGrants.rows;
    for i := 0 to |s|
      invariant |privileges| == i
      invariant forall k :: 0 <= k < i ==> RecordsDirect(privileges[k], s[k])
    {
      privileges := privileges + [DirectPrivilege(s[i])];
    }
    if objGrants.Failed? {
      return;
    }
    var o := objGrants.rows;
    for i := 0 to |o|
      invariant |privileges| == |s| + i
      invariant forall k :: 0 <= k < |s| ==> RecordsDirect(privileges[k], s[k])
      invariant forall k :: |s| <= k < |privileges| ==> RecordsObject(privileges[k], o[k - |s|])
    {
      privileges := privileges + [ObjectPrivilege(o[i])];
    }
  }

  // ---------------------------------------------------------------------------
  // hasPrivilege
  // ---------------------------------------------------------------------------

  /** The two COUNT(*) queries of hasPrivilege, with their bind values. */
  datatype CountQuery =
    | DirectCount(grantee: string, privilege: string)   // the privilege granted to the user
    | RoleCount(grantee: string, privilege: string)     // the privilege granted to a role the user holds

  /** A count query answered with a first value above zero. */
  predicate Positive(reply: Reply<int>) {
    reply.Rows? && |reply.rows| > 0 && reply.rows[0] > 0
  }

  /**
   * hasPrivilege: the direct count first, then the role count; any failure is caught and
   * answers false. Only the user's name is upper-cased.
   */
  function HasPrivilege(username: string, privilege: string, count: CountQuery -> Reply<int>): (has: bool)
    ensures count(DirectCount(Upper(username), privilege)).Failed? ==> !has
    ensures count(RoleCount(Upper(username), privilege)).Failed? ==> (has <==> Positive(count(DirectCount(Upper(username), privilege))))
    ensures Positive(count(DirectCount(Upper(username), privilege))) ==> has
  {
    var direct := FirstRow(count(DirectCount(Upper(username), privilege)));
    if direct.Some? && direct.value > 0 then true
    else if count(DirectCount(Upper(username), privilege)).Failed? then false
    else
      var viaRole := FirstRow(count(RoleCount(Upper(username), privilege)));
      viaRole.Some? && viaRole.value > 0
  }

  /**
   * The grants Oracle holds, as far as hasPrivilege looks at them: system privileges by grantee
   * (user or role), and roles by grantee.
   */
  datatype Catalog = Catalog(sysGrants: set<(string, string)>, roleGrants: set<(string, string)>)

  /** The count queries report the catalog: a positive count exactly when a matching grant exists. */
  ghost predicate Reports(count: CountQuery -> Reply<int>, cat: Catalog) {
    (forall g, p :: count(DirectCount(g, p)).Rows? && (Positive(count(DirectCount(g, p))) <==> (g, p) in cat.sysGrants))
    && (forall g, p :: count(RoleCount(g, p)).Rows? &&
          (Positive(count(RoleCount(g, p))) <==> exists r :: (g, r) in cat.roleGrants && (r, p) in cat.sysGrants))
  }

  /** Against a catalog it reports, hasPrivilege holds exactly for a direct grant or a grant to a directly held role. */
  lemma HasPrivilegeFromCatalog(username: string, privilege: string, count: CountQuery -> Reply<int>, cat: Catalog)
    requires Reports(count, cat)
    ensures HasPrivilege(username, privilege, count) <==>
              (Upper(username), privilege) in cat.sysGrants
              || exists r :: (Upper(username), r) in cat.roleGrants && (r, privilege) in cat.sysGrants
  {
  }

  /**
   * Roles granted to roles are not followed: a user holding R1, where R1 holds R2 and only R2
   * has the privilege, does not have it.
   */
  lemma NestedRolesNotFollowed(count: CountQuery -> Reply<int>)
    requires Reports(count, Catalog({("R2", "CREATE USER")}, {("U", "R1"), ("R1", "R2")}))
    ensures !HasPrivilege("U", "CREATE USER", count)
  {
    var cat := Catalog({("R2", "CREATE USER")}, {("U", "R1"), ("R1", "R2")});
    assert Upper("U") == "U" by {
      assert UpperChar('U') == 'U';
    }
    HasPrivilegeFromCatalog("U", "CREATE USER", count, cat);
    if r :| ("U", r) in cat.roleGrants && (r, "CREATE USER") in cat.sysGrants {
      assert false;
    }
  }

  // ---------------------------------------------------------------------------
  // GRANT and REVOKE
  // ---------------------------------------------------------------------------

  /** grantSystemPrivilege: the privilege as given, the grantee upper-cased, ADMIN OPTION on request. */
  method GrantSystemPrivilege(db: AdminConnection, privilege: string, grantee: string, withAdminOption: bool)
    returns (outcome: Outcome)
    modifies db
    ensures db.log == old(db.log) + [Sql(Grant(privilege, Upper(grantee), withAdminOption))]
    ensures outcome == db.verdict(old(db.log), Sql(Grant(privilege, Upper(grantee), withAdminOption)))
  {
    var sql := "GRANT " + privilege + " TO " + Upper(grantee);
    GrantOptionText(privilege, Upper(grantee));
    if withAdminOption {
      sql := sql + " WITH ADMIN OPTION";
    }
    outcome := db.Execute(sql);
  }

  method RevokeSystemPrivilege(db: AdminConnection, privilege: string, grantee: string) returns (outcome: Outcome)
    modifies db
    ensures db.log == old(db.log) + [Sql(Revoke(privilege, Upper(grantee)))]
    ensures outcome == db.verdict(old(db.log), Sql(Revoke(privilege, Upper(grantee))))
  {
    outcome := db.Execute("REVOKE " + privilege + " FROM " + Upper(grantee));
  }

  /** grantRole: both the role and the grantee upper-cased, ADMIN OPTION on request. */
  method GrantRole(db: AdminConnection, role: string, grantee: string, withAdminOption: bool) returns (outcome: Outcome)
    modifies db
    ensures db.log == old(db.log) + [Sql(Grant(Upper(role), Upper(grantee), withAdminOption))]
    ensures outcome == db.verdict(old(db.log), Sql(Grant(Upper(role), Upper(grantee), withAdminOption)))
  {
    var sql := "GRANT " + Upper(role) + " TO " + Upper(grantee);
    GrantOptionText(Upper(role), Upper(grantee));
    if withAdminOption {
      sql := sql + " WITH ADMIN OPTION";
    }
    outcome := db.Execute(sql);
  }

  method RevokeRole(db: AdminConnection, role: string, grantee: string) returns (outcome: Outcome)
    modifies db
    ensures db.log == old(db.log) + [Sql(Revoke(Upper(role), Upper(grantee)))]
    ensures outcome == db.verdict(old(db.log), Sql(Revoke(Upper(role), Upper(grantee))))
  {
    outcome := db.Execute("REVOKE " + Upper(role) + " FROM " + Upper(grantee));
  }

  /** grantObjectPrivilege: privilege and table as given, the grantee upper-cased, GRANT OPTION on request. */
  method GrantObjectPrivilege(db: AdminConnection, privilege: string, table: string, grantee: string, withGrantOption: bool)
    returns (outcome: Outcome)
    modifies db
    ensures db.log == old(db.log) + [Sql(GrantOnObject(privilege, table, Upper(grantee), withGrantOption))]
    ensures outcome == db.verdict(old(db.log), Sql(GrantOnObject(privilege, table, Upper(grantee), withGrantOption)))
  {
    var sql := "GRANT " + privilege + " ON " + table + " TO " + Upper(grantee);
    GrantOnObjectOptionText(privilege, table, Upper(grantee));
    if withGrantOption {
      sql := sql + " WITH GRANT OPTION";
    }
    outcome := db.Execute(sql);
  }

  method RevokeObjectPrivilege(db: AdminConnection, privilege: string, table: string, grantee: string) returns (outcome: Outcome)
    modifies db
    ensures db.log == old(db.log) + [Sql(RevokeOnObject(privilege, table, Upper(grantee)))]
    ensures outcome == db.verdict(old(db.log), Sql(RevokeOnObject(privilege, table, Upper(grantee))))
  {
    outcome := db.Execute("REVOKE " + privilege + " ON " + table + " FROM " + Upper(grantee));
  }

  /** grantColumnPrivilege: the column in parentheses before ON, and never an option clause. */
  method GrantColumnPrivilege(db: AdminConnection, privilege: string, table: string, column: string, grantee: string)
    returns (outcome: Outcome)
    modifies db
    ensures db.log == old(db.log) + [Sql(GrantOnColumn(privilege, column, table, Upper(grantee)))]
    ensures outcome == db.verdict(old(db.log), Sql(GrantOnColumn(privilege, column, table, Upper(grantee))))
  {
    outcome := db.Execute("GRANT " + privilege + " (" + column + ") ON " + table + " TO " + Upper(grantee));
  }
}
