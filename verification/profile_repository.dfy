/**
 * ProfileRepository: reads of DBA_PROFILES and DBA_USERS for the three resource limits the
 * console manages (SESSIONS_PER_USER, CONNECT_TIME, IDLE_TIME), and the profile DDL it issues.
 * Profile names are used exactly as given: nothing here upper-cases them. None of these reads
 * catches a failure, so a failing query ends the call with an exception (`Raised`).
 */
module ProfileRepository {
  import opened Wrappers
  import opened Text
  import opened Database
  import opened Ddl
  import opened Model

  /** A DBA_PROFILES row: RESOURCE_NAME (one of the three the query selects) and LIMIT. */
  datatype LimitRow = LimitRow(resourceName: string, limit: Nullable)

  /** The LIMIT of the last row for `resource`: each row overwrites the field it names. */
  function LastLimit(rows: seq<LimitRow>, resource: string): (limit: Nullable)
    ensures (forall i :: 0 <= i < |rows| ==> rows[i].resourceName != resource) ==> limit.None?
    ensures limit.Some? ==> exists i :: 0 <= i < |rows| && rows[i].resourceName == resource && rows[i].limit == limit
  {
    if rows == [] then None
    else if rows[|rows| - 1].resourceName == resource then rows[|rows| - 1].limit
    else LastLimit(rows[..|rows| - 1], resource)
  }

  /** The profile getProfile assembles from its name, its limit rows and its users. */
  function ProfileOf(profileName: string, rows: seq<LimitRow>, users: seq<string>): Profile {
    Profile(Some(profileName), LastLimit(rows, "SESSIONS_PER_USER"), LastLimit(rows, "CONNECT_TIME"),
            LastLimit(rows, "IDLE_TIME"), Some(users))
  }

  /** What getProfile returns: the assembled profile, or the exception of either failing query. */
  function ProfileCall(profileName: string, limitsOf: string -> Reply<LimitRow>, usersWithProfile: string -> Reply<string>): Call<Profile> {
    if usersWithProfile(profileName).Failed? || limitsOf(profileName).Failed? then Raised
    else Returned(ProfileOf(profileName, limitsOf(profileName).rows, usersWithProfile(profileName).rows))
  }

  /**
   * getProfile: the name from the argument and the users from getUsersWithProfile, then one
   * row callback per limit row that sets the field its resource name selects.
   */
  method GetProfile(profileName: string, limitsOf: string -> Reply<LimitRow>, usersWithProfile: string -> Reply<string>)
    returns (result: Call<Profile>)
    ensures result == ProfileCall(profileName, limitsOf, usersWithProfile)
  {
    var users := usersWithProfile(profileName);
    if users.Failed? {
      return Raised;
    }
    var profile := NoProfile.(profileName := Some(profileName), assignedUsers := Some(users.rows));
    var reply := limitsOf(profileName);
    var rows := Handed(reply);
    for i := 0 to |rows|
      invariant profile == ProfileOf(profileName, rows[..i], users.rows)
    {
      var row := rows[i];
      if row.resourceName == "SESSIONS_PER_USER" {
        profile := profile.(sessionsPerUser := row.limit);
      } else if row.resourceName == "CONNECT_TIME" {
        profile := profile.(connectTime := row.limit);
      } else if row.resourceName == "IDLE_TIME" {
        profile := profile.(idleTime := row.limit);
      }
      assert rows[..i + 1][..i] == rows[..i];
    }
    assert rows[..|rows|] == rows;
    if reply.Failed? {
      return Raised;
    }
    result := Returned(profile);
  }

  /** Every name the name query returned yields a profile. */
  predicate AllProfilesReturned(names: seq<string>, limitsOf: string -> Reply<LimitRow>, usersWithProfile: string -> Reply<string>) {
    forall i :: 0 <= i < |names| ==> ProfileCall(names[i], limitsOf, usersWithProfile).Returned?
  }

  /**
   * getAllProfiles: one profile per name the name query returns, in that order; any failing
   * query ends the listing with an exception.
   */
  method GetAllProfiles(profileNames: Reply<string>, limitsOf: string -> Reply<LimitRow>, usersWithProfile: string -> Reply<string>)
    returns (result: Call<seq<Profile>>)
    ensures result.Returned? <==> profileNames.Rows? && AllProfilesReturned(profileNames.rows, limitsOf, usersWithProfile)
    ensures result.Returned? ==>
              |result.value| == |profileNames.rows|
              && forall i :: 0 <= i < |result.value| ==>
                   ProfileCall(profileNames.rows[i], limitsOf, usersWithProfile) == Returned(result.value[i])
  {
    if profileNames.Failed? {
      return Raised;
    }
    var names := profileNames.rows;
    var profiles: seq<Profile> := [];
    for i := 0 to |names|
      invariant |profiles| == i
      invariant forall k :: 0 <= k < i ==> ProfileCall(names[k], limitsOf, usersWithProfile) == Returned(profiles[k])
    {
      var profile := GetProfile(names[i], limitsOf, usersWithProfile);
      if profile.Raised? {
        return Raised;
      }
      profiles := profiles + [profile.value];
    }
    result := Returned(profiles);
  }

  /** A limit row names the field it sets, the later row winning. */
  lemma {:induction false} LastLimitIsLast(rows: seq<LimitRow>, resource: string, i: nat)
    requires i < |rows| && rows[i].resourceName == resource
    requires forall j :: i < j < |rows| ==> rows[j].resourceName != resource
    ensures LastLimit(rows, resource) == rows[i].limit
  {
    if i < |rows| - 1 {
      LastLimitIsLast(rows[..|rows| - 1], resource, i);
    }
  }

  /** A row for another resource leaves the field of `resource` as it was, wherever it comes. */
  lemma {:induction false} LastLimitSkips(before: seq<LimitRow>, row: LimitRow, after: seq<LimitRow>, resource: string)
    requires row.resourceName != resource
    ensures LastLimit(before + [row] + after, resource) == LastLimit(before + after, resource)
  {
    if after == [] {
      assert before + [row] + after == before + [row];
      assert (before + [row])[..|before|] == before;
      assert before + after == before;
    } else {
      var front := after[..|after| - 1];
      LastLimitSkips(before, row, front, resource);
      assert (before + [row] + after)[..|before + [row] + after| - 1] == before + [row] + front;
      assert (before + after)[..|before + after| - 1] == before + front;
    }
  }

  /** Rows for resources other than the three the console manages change nothing. */
  lemma UnknownLimitRowIgnored(profileName: string, before: seq<LimitRow>, row: LimitRow, after: seq<LimitRow>, users: seq<string>)
    requires row.resourceName != "SESSIONS_PER_USER" && row.resourceName != "CONNECT_TIME" && row.resourceName != "IDLE_TIME"
    ensures ProfileOf(profileName, before + [row] + after, users) == ProfileOf(profileName, before + after, users)
  {
    LastLimitSkips(before, row, after, "SESSIONS_PER_USER");
    LastLimitSkips(before, row, after, "CONNECT_TIME");
    LastLimitSkips(before, row, after, "IDLE_TIME");
  }

  /**
   * A profile that getProfile returns carries the requested name, the users getUsersWithProfile
   * lists, and a limit only where a row for that resource exists.
   */
  lemma GetProfileFields(profileName: string, limitsOf: string -> Reply<LimitRow>, usersWithProfile: string -> Reply<string>)
    ensures var call := ProfileCall(profileName, limitsOf, usersWithProfile);
            call.Returned? <==> usersWithProfile(profileName).Rows? && limitsOf(profileName).Rows?
    ensures var call := ProfileCall(profileName, limitsOf, usersWithProfile);
            call.Returned? ==>
              var rows := limitsOf(profileName).rows;
              call.value.profileName == Some(profileName)
              && call.value.assignedUsers == Some(usersWithProfile(profileName).rows)
              && ((forall i :: 0 <= i < |rows| ==> rows[i].resourceName != "SESSIONS_PER_USER") ==> call.value.sessionsPerUser.None?)
              && ((forall i :: 0 <= i < |rows| ==> rows[i].resourceName != "CONNECT_TIME") ==> call.value.connectTime.None?)
              && ((forall i :: 0 <= i < |rows| ==> rows[i].resourceName != "IDLE_TIME") ==> call.value.idleTime.None?)
  {
  }

  // ---------------------------------------------------------------------------
  // Profile DDL
  // ---------------------------------------------------------------------------

  /** The LIMIT clauses createProfile and alterProfile write: each given limit, in the fixed order. */
  function ProfileLimits(sessionsPerUser: Nullable, connectTime: Nullable, idleTime: Nullable): seq<Limit> {
    var withSessions := AppendLimitIf([], Filled(sessionsPerUser), SessionsPerUser(Show(sessionsPerUser)));
    var withConnect := AppendLimitIf(withSessions, Filled(connectTime), ConnectTime(Show(connectTime)));
    AppendLimitIf(withConnect, Filled(idleTime), IdleTime(Show(idleTime)))
  }

  /**
   * A profile statement carries SESSIONS_PER_USER, CONNECT_TIME and IDLE_TIME in that order,
   * each exactly when its value is given.
   */
  lemma ProfileLimitsSpec(sessionsPerUser: Nullable, connectTime: Nullable, idleTime: Nullable)
    ensures var ls := ProfileLimits(sessionsPerUser, connectTime, idleTime);
            LimitsOrdered(ls)
            && forall l :: l in ls <==>
                 (Filled(sessionsPerUser) && l == SessionsPerUser(sessionsPerUser.value))
                 || (Filled(connectTime) && l == ConnectTime(connectTime.value))
                 || (Filled(idleTime) && l == IdleTime(idleTime.value))
  {
    var withSessions := AppendLimitIf([], Filled(sessionsPerUser), SessionsPerUser(Show(sessionsPerUser)));
    AppendLimitIfOrdered([], Filled(sessionsPerUser), SessionsPerUser(Show(sessionsPerUser)));
    var withConnect := AppendLimitIf(withSessions, Filled(connectTime), ConnectTime(Show(connectTime)));
    AppendLimitIfOrdered(withSessions, Filled(connectTime), ConnectTime(Show(connectTime)));
    AppendLimitIfOrdered(withConnect, Filled(idleTime), IdleTime(Show(idleTime)));
  }

  /** With no limit given, the statement ends right after "LIMIT ". */
  lemma NoLimitsGiven(profileName: string, sessionsPerUser: Nullable, connectTime: Nullable, idleTime: Nullable)
    requires !Filled(sessionsPerUser) && !Filled(connectTime) && !Filled(idleTime)
    ensures Sql(Statement.CreateProfile(profileName, ProfileLimits(sessionsPerUser, connectTime, idleTime))) == "CREATE PROFILE " + profileName + " LIMIT "
    ensures Sql(Statement.AlterProfile(profileName, ProfileLimits(sessionsPerUser, connectTime, idleTime))) == "ALTER PROFILE " + profileName + " LIMIT "
  {
    assert ProfileLimits(sessionsPerUser, connectTime, idleTime) == [];
  }

  /** The StringBuilder steps shared by createProfile and alterProfile, after the prefix `head`. */
  method AppendProfileLimits(head: string, sessionsPerUser: Nullable, connectTime: Nullable, idleTime: Nullable)
    returns (sql: string)
    ensures sql == head + LimitsSql(ProfileLimits(sessionsPerUser, connectTime, idleTime))
  {
    sql := head;
    ghost var limits: seq<Limit> := [];
    sql, limits := AppendLimit(sql, head, limits, Filled(sessionsPerUser), SessionsPerUser(Show(sessionsPerUser)));
    sql, limits := AppendLimit(sql, head, limits, Filled(connectTime), ConnectTime(Show(connectTime)));
    sql, limits := AppendLimit(sql, head, limits, Filled(idleTime), IdleTime(Show(idleTime)));
  }

  /** createProfile: one CREATE PROFILE statement, the name as given. */
  method CreateProfile(db: AdminConnection, profileName: string, sessionsPerUser: Nullable, connectTime: Nullable, idleTime: Nullable)
    returns (outcome: Outcome)
    modifies db
    ensures var create := Sql(Statement.CreateProfile(profileName, ProfileLimits(sessionsPerUser, connectTime, idleTime)));
            db.log == old(db.log) + [create] && outcome == db.verdict(old(db.log), create)
  {
    var sql := AppendProfileLimits("CREATE PROFILE " + profileName + " LIMIT ", sessionsPerUser, connectTime, idleTime);
    outcome := db.Execute(sql);
  }

  /** alterProfile: one ALTER PROFILE statement, the name as given. */
  method AlterProfile(db: AdminConnection, profileName: string, sessionsPerUser: Nullable, connectTime: Nullable, idleTime: Nullable)
    returns (outcome: Outcome)
    modifies db
    ensures var alter := Sql(Statement.AlterProfile(profileName, ProfileLimits(sessionsPerUser, connectTime, idleTime)));
            db.log == old(db.log) + [alter] && outcome == db.verdict(old(db.log), alter)
  {
    var sql := AppendProfileLimits("ALTER PROFILE " + profileName + " LIMIT ", sessionsPerUser, connectTime, idleTime);
    outcome := db.Execute(sql);
  }

  /** dropProfile: DROP PROFILE with CASCADE, the name as given. */
  method DropProfile(db: AdminConnection, profileName: string) returns (outcome: Outcome)
    modifies db
    ensures db.log == old(db.log) + [Sql(Statement.DropProfile(profileName))]
    ensures outcome == db.verdict(old(db.log), Sql(Statement.DropProfile(profileName)))
  {
    outcome := db.Execute("DROP PROFILE " + profileName + " CASCADE");
  }
}
