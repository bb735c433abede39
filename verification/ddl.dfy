/**
 * The DDL, GRANT and REVOKE statements the repositories send to Oracle, as a small syntax
 * tree, and the text each one is sent as. Every name, password and value is spliced into the
 * text as it is: nothing is quoted or escaped.
 */
module Ddl {
  import opened Wrappers

  /** The optional clauses of CREATE USER and ALTER USER, each carrying its text as given. */
  datatype UserClause =
    | IdentifiedBy(password: string)
    | DefaultTablespace(tablespace: string)
    | TemporaryTablespace(tablespace: string)
    | Quota(size: string, tablespace: string)
    | ProfileClause(profile: string)

  /** The fixed position of each kind of clause: IDENTIFIED BY, DEFAULT, TEMPORARY, QUOTA, PROFILE. */
  function Rank(c: UserClause): nat {
    match c
    case IdentifiedBy(_) => 0
    case DefaultTablespace(_) => 1
    case TemporaryTablespace(_) => 2
    case Quota(_, _) => 3
    case ProfileClause(_) => 4
  }

  /** The clauses follow the fixed order, each kind at most once. */
  predicate Ordered(cs: seq<UserClause>) {
    forall i, j :: 0 <= i < j < |cs| ==> Rank(cs[i]) < Rank(cs[j])
  }

  function ClauseSql(c: UserClause): string {
    match c
    case IdentifiedBy(p) => " IDENTIFIED BY " + p
    case DefaultTablespace(t) => " DEFAULT TABLESPACE " + t
    case TemporaryTablespace(t) => " TEMPORARY TABLESPACE " + t
    case Quota(q, t) => " QUOTA " + q + " ON " + t
    case ProfileClause(p) => " PROFILE " + p
  }

  function ClausesSql(cs: seq<UserClause>): string {
    if cs == [] then "" else ClausesSql(cs[..|cs| - 1]) + ClauseSql(cs[|cs| - 1])
  }

  /** Every clause of `cs` comes before position `n`. */
  predicate RanksBelow(cs: seq<UserClause>, n: nat) {
    forall i :: 0 <= i < |cs| ==> Rank(cs[i]) < n
  }

  /** The clauses `cs`, followed by `c` when `present`: how each optional clause is added. */
  function AppendIf(cs: seq<UserClause>, present: bool, c: UserClause): seq<UserClause> {
    if present then cs + [c] else cs
  }

  /** Adding a clause adds that clause and no other. */
  lemma AppendIfMembers(cs: seq<UserClause>, present: bool, c: UserClause)
    ensures forall d :: d in AppendIf(cs, present, c) <==> d in cs || (present && d == c)
  {
  }

  /** Adding a clause after every clause that comes before it keeps the order. */
  lemma AppendIfOrdered(cs: seq<UserClause>, present: bool, c: UserClause)
    requires Ordered(cs) && RanksBelow(cs, Rank(c))
    ensures forall d :: d in AppendIf(cs, present, c) <==> d in cs || (present && d == c)
    ensures Ordered(AppendIf(cs, present, c)) && RanksBelow(AppendIf(cs, present, c), Rank(c) + 1)
  {
  }

  /** The text of an optionally added clause follows the text of the clauses before it. */
  lemma AppendIfSql(head: string, cs: seq<UserClause>, present: bool, c: UserClause)
    ensures head + ClausesSql(AppendIf(cs, present, c)) == head + ClausesSql(cs) + (if present then ClauseSql(c) else "")
  {
    if present {
      assert (cs + [c])[..|cs|] == cs;
    }
  }

  /**
   * One guarded step of a StringBuilder: append the clause's keyword and value when `present`.
   * `clauses` is the statement built so far, `head` the text it started from.
   */
  method AppendClause(sql: string, ghost head: string, ghost clauses: seq<UserClause>, present: bool, c: UserClause)
    returns (sql': string, ghost clauses': seq<UserClause>)
    requires sql == head + ClausesSql(clauses)
    ensures clauses' == AppendIf(clauses, present, c) && sql' == head + ClausesSql(clauses')
  {
    sql' := if present then sql + ClauseSql(c) else sql;
    AppendIfSql(head, clauses, present, c);
    clauses' := AppendIf(clauses, present, c);
  }

  /** The resource limits a profile statement can set. */
  datatype Limit =
    | SessionsPerUser(value: string)
    | ConnectTime(value: string)
    | IdleTime(value: string)

  /** The fixed position of each limit: SESSIONS_PER_USER, CONNECT_TIME, IDLE_TIME. */
  function LimitRank(l: Limit): nat {
    match l
    case SessionsPerUser(_) => 0
    case ConnectTime(_) => 1
    case IdleTime(_) => 2
  }

  predicate LimitsOrdered(ls: seq<Limit>) {
    forall i, j :: 0 <= i < j < |ls| ==> LimitRank(ls[i]) < LimitRank(ls[j])
  }

  /** Each limit is written as keyword, value and a trailing space. */
  function LimitSql(l: Limit): string {
    match l
    case SessionsPerUser(v) => "SESSIONS_PER_USER " + v + " "
    case ConnectTime(v) => "CONNECT_TIME " + v + " "
    case IdleTime(v) => "IDLE_TIME " + v + " "
  }

  function LimitsSql(ls: seq<Limit>): string {
    if ls == [] then "" else LimitsSql(ls[..|ls| - 1]) + LimitSql(ls[|ls| - 1])
  }

  predicate LimitRanksBelow(ls: seq<Limit>, n: nat) {
    forall i :: 0 <= i < |ls| ==> LimitRank(ls[i]) < n
  }

  /** The limits `ls`, followed by `l` when `present`. */
  function AppendLimitIf(ls: seq<Limit>, present: bool, l: Limit): seq<Limit> {
    if present then ls + [l] else ls
  }

  lemma AppendLimitIfOrdered(ls: seq<Limit>, present: bool, l: Limit)
    requires LimitsOrdered(ls) && LimitRanksBelow(ls, LimitRank(l))
    ensures forall m :: m in AppendLimitIf(ls, present, l) <==> m in ls || (present && m == l)
    ensures LimitsOrdered(AppendLimitIf(ls, present, l)) && LimitRanksBelow(AppendLimitIf(ls, present, l), LimitRank(l) + 1)
  {
  }

  lemma AppendLimitIfSql(head: string, ls: seq<Limit>, present: bool, l: Limit)
    ensures head + LimitsSql(AppendLimitIf(ls, present, l)) == head + LimitsSql(ls) + (if present then LimitSql(l) else "")
  {
    if present {
      assert (ls + [l])[..|ls|] == ls;
    }
  }

  /** One guarded StringBuilder step of a profile statement: append the limit when `present`. */
  method AppendLimit(sql: string, ghost head: string, ghost limits: seq<Limit>, present: bool, l: Limit)
    returns (sql': string, ghost limits': seq<Limit>)
    requires sql == head + LimitsSql(limits)
    ensures limits' == AppendLimitIf(limits, present, l) && sql' == head + LimitsSql(limits')
  {
    sql' := if present then sql + LimitSql(l) else sql;
    AppendLimitIfSql(head, limits, present, l);
    limits' := AppendLimitIf(limits, present, l);
  }

  datatype Statement =
    | CreateUser(user: string, password: string, clauses: seq<UserClause>)
    | AlterUser(user: string, clauses: seq<UserClause>)
    | LockUser(user: string)
    | UnlockUser(user: string)
    | DropUser(user: string)
    | CreateProfile(profile: string, limits: seq<Limit>)
    | AlterProfile(profile: string, limits: seq<Limit>)
    | DropProfile(profile: string)
    | CreateRole(role: string, rolePassword: Option<string>)
    | AlterRolePassword(role: string, password: string)
    | DropRole(role: string)
    | Grant(granted: string, grantee: string, adminOption: bool)
    | Revoke(granted: string, grantee: string)
    | GrantOnObject(privilege: string, table: string, grantee: string, grantOption: bool)
    | RevokeOnObject(privilege: string, table: string, grantee: string)
    | GrantOnColumn(privilege: string, column: string, table: string, grantee: string)

  /** The text sent to Oracle for a statement. */
  function Sql(st: Statement): string {
    match st
    case CreateUser(u, p, cs) => "CREATE USER " + u + " IDENTIFIED BY " + p + ClausesSql(cs)
    case AlterUser(u, cs) => "ALTER USER " + u + ClausesSql(cs)
    case LockUser(u) => "ALTER USER " + u + " ACCOUNT LOCK"
    case UnlockUser(u) => "ALTER USER " + u + " ACCOUNT UNLOCK"
    case DropUser(u) => "DROP USER " + u + " CASCADE"
    case CreateProfile(n, ls) => "CREATE PROFILE " + n + " LIMIT " + LimitsSql(ls)
    case AlterProfile(n, ls) => "ALTER PROFILE " + n + " LIMIT " + LimitsSql(ls)
    case DropProfile(n) => "DROP PROFILE " + n + " CASCADE"
    case CreateRole(r, p) =>
      "CREATE ROLE " + r + (if p.Some? then " IDENTIFIED BY " + p.value else "")
    case AlterRolePassword(r, p) => "ALTER ROLE " + r + " IDENTIFIED BY " + p
    case DropRole(r) => "DROP ROLE " + r
    case Grant(g, e, a) => "GRANT " + g + " TO " + e + (if a then " WITH ADMIN OPTION" else "")
    case Revoke(g, e) => "REVOKE " + g + " FROM " + e
    case GrantOnObject(p, t, e, o) =>
      "GRANT " + p + " ON " + t + " TO " + e + (if o then " WITH GRANT OPTION" else "")
    case RevokeOnObject(p, t, e) => "REVOKE " + p + " ON " + t + " FROM " + e
    case GrantOnColumn(p, c, t, e) => "GRANT " + p + " (" + c + ") ON " + t + " TO " + e
  }

  /** The admin option only appends its clause to the grant without it. */
  lemma GrantOptionText(granted: string, grantee: string)
    ensures Sql(Grant(granted, grantee, false)) == "GRANT " + granted + " TO " + grantee
    ensures Sql(Grant(granted, grantee, true)) == Sql(Grant(granted, grantee, false)) + " WITH ADMIN OPTION"
  {
  }

  /** The grant option only appends its clause to the object grant without it. */
  lemma GrantOnObjectOptionText(privilege: string, table: string, grantee: string)
    ensures Sql(GrantOnObject(privilege, table, grantee, false)) == "GRANT " + privilege + " ON " + table + " TO " + grantee
    ensures Sql(GrantOnObject(privilege, table, grantee, true)) == Sql(GrantOnObject(privilege, table, grantee, false)) + " WITH GRANT OPTION"
  {
  }

  /**
   * Because values are not quoted, the grantee text can carry clauses of its own: a grant
   * without the admin option to the "user" `BOB WITH ADMIN OPTION` is sent as exactly the
   * same text as a grant with the admin option to BOB.
   */
  lemma GranteeTextInjectsOption()
    ensures var plain := Grant("DBA", "BOB WITH ADMIN OPTION", false);
            var admin := Grant("DBA", "BOB", true);
            plain != admin && Sql(plain) == Sql(admin)
  {
    assert "GRANT " + "DBA" + " TO " + "BOB WITH ADMIN OPTION" + ""
        == "GRANT " + "DBA" + " TO " + "BOB" + " WITH ADMIN OPTION";
  }
}
