/**
 * UserService: the user list and detail pages' reads, with their defaults on failure, and the
 * create and delete sequences that keep the credential table and the Oracle catalog in step.
 */
module UserService {
  import opened Wrappers
  import opened Text
  import opened PasswordHash
  import opened Database
  import opened Ddl
  import opened Model
  import opened AppLoginUsers
  import opened UserRepository

  /** The replies of the catalog and profile queries the service's reads issue. */
  datatype Reads = Reads(
    usersNamed: string -> Reply<UserRow>,
    sessionUser: Reply<string>,
    quotaOf: (string, string) -> Reply<string>,
    rolesOf: string -> Reply<string>,
    direct: string -> Reply<SysPrivRow>,
    viaRoles: string -> Reply<RolePrivRow>,
    profilesOf: string -> Reply<UserProfile>)

  // ---------------------------------------------------------------------------
  // populateUserDetails, getUser, getUserRoles
  // ---------------------------------------------------------------------------

  /**
   * What populateUserDetails leaves in a user. Nothing it calls escapes: the quota is read only
   * for a user with a default tablespace ("0M" when the read fails, or for a user without a
   * name), a failed role read leaves no roles, the privileges are getUserPrivileges' listing
   * (none for a user without a name), and the contact fields are copied only from a profile row.
   * Every other field is kept.
   */
  predicate Populates(after: User, before: User, replies: Reads) {
    var name := before.username;
    after.username == name && after.password == before.password
    && after.defaultTablespace == before.defaultTablespace && after.temporaryTablespace == before.temporaryTablespace
    && after.accountStatus == before.accountStatus && after.lockDate == before.lockDate
    && after.createdDate == before.createdDate && after.profile == before.profile
    && after.quota == (if before.defaultTablespace.None? then before.quota
                       else if name.None? then Some("0M")
                       else Some(GetUserQuota(name.value, before.defaultTablespace.value, replies.quotaOf)))
    && after.roles == Some(if name.None? then [] else UserRoles(name.value, replies.rolesOf))
    && after.privileges.Some?
    && (name.None? ==> after.privileges.value == [])
    && (name.Some? ==> ListsPrivileges(after.privileges.value, Upper(name.value),
                                       replies.direct(Upper(name.value)), replies.viaRoles(Upper(name.value))))
    && var contact := if name.None? then None else GetUserProfile(name.value, replies.profilesOf);
       if contact.Some?
       then after.fullName == contact.value.fullName && after.email == contact.value.email
            && after.phone == contact.value.phone && after.address == contact.value.address
       else after.fullName == before.fullName && after.email == before.email
            && after.phone == before.phone && after.address == before.address
  }

  /** getUserRoles (service): the repository's roles, or none when its query fails. */
  function UserRoles(username: string, rolesOf: string -> Reply<string>): (roles: seq<string>)
    ensures GetUserRoles(username, rolesOf).Failed? ==> roles == []
    ensures GetUserRoles(username, rolesOf).Rows? ==> roles == rolesOf(Upper(username)).rows
  {
    match GetUserRoles(username, rolesOf)
    case Rows(rows) => rows
    case Failed(_) => []
  }

  /** populateUserDetails: fill in quota, roles, privileges and contact fields, one read at a time. */
  method PopulateUserDetails(user: User, replies: Reads) returns (populated: User)
    ensures Populates(populated, user, replies)
  {
    populated := user;
    if user.defaultTablespace.Some? {
      // getUserQuota catches its own failures, and a null name fails inside it; "N/A" is never written
      var quota := if user.username.Some? then GetUserQuota(user.username.value, user.defaultTablespace.value, replies.quotaOf)
                   else "0M";
      populated := populated.(quota := Some(quota));
    }
    var roles: seq<string> := [];
    if user.username.Some? {
      roles := UserRoles(user.username.value, replies.rolesOf);
    }
    populated := populated.(roles := Some(roles));
    var privileges: seq<PrivilegeInfo> := [];
    if user.username.Some? {
      privileges := GetUserPrivileges(user.username.value, replies.direct, replies.viaRoles);
    }
    populated := populated.(privileges := Some(privileges));
    if user.username.Some? {
      var profile := GetUserProfile(user.username.value, replies.profilesOf);
      if profile.Some? {
        populated := populated.(fullName := profile.value.fullName, email := profile.value.email,
                                phone := profile.value.phone, address := profile.value.address);
      }
    }
  }

  /** What getUser returns: the populated user, or the "User not found" exception. */
  datatype Fetched = Fetched(user: User) | NotFound(message: string)

  /** getUser: the catalog record with its details, or "User not found: <name>" when there is none. */
  method GetUser(username: string, replies: Reads) returns (result: Fetched)
    ensures var info := GetUserInfo(username, replies.usersNamed, replies.sessionUser);
            (result.NotFound? <==> info.None?)
            && (result.NotFound? ==> result.message == "User not found: " + username)
            && (result.Fetched? ==> Populates(result.user, info.value, replies))
  {
    var user := GetUserInfo(username, replies.usersNamed, replies.sessionUser);
    if user.None? {
      return NotFound("User not found: " + username);
    }
    var populated := PopulateUserDetails(user.value, replies);
    result := Fetched(populated);
  }

  /**
   * A user with a default tablespace always gets a quota, and a failed quota read gives "0M":
   * the "N/A" fallback of populateUserDetails is never reached.
   */
  lemma QuotaFailureGivesZero(after: User, before: User, replies: Reads)
    requires Populates(after, before, replies) && before.defaultTablespace.Some?
    ensures after.quota.Some?
    ensures before.username.Some? && replies.quotaOf(Upper(before.username.value), before.defaultTablespace.value).Failed?
            ==> after.quota == Some("0M")
  {
    if before.username.Some? {
      GetUserQuotaDefault(before.username.value, before.defaultTablespace.value, replies.quotaOf);
    }
  }

  /** Populating a user is a function of the user and the replies: its result is unique. */
  lemma PopulatesUnique(a: User, b: User, before: User, replies: Reads)
    requires Populates(a, before, replies) && Populates(b, before, replies)
    ensures a == b
  {
    if before.username.Some? {
      var key := Upper(before.username.value);
      ListsPrivilegesUnique(a.privileges.value, b.privileges.value, key, replies.direct(key), replies.viaRoles(key));
    }
  }

  // ---------------------------------------------------------------------------
  // getAllUsers
  // ---------------------------------------------------------------------------

  /**
   * getAllUsers as written: the repository's list, each user then populated in place. The
   * repository catches its own failure and answers with no users, so the fallback to the
   * caller's own record is never taken.
   */
  method GetAllUsers(currentUser: string, users: Reply<UserRow>, replies: Reads) returns (all: seq<User>)
    ensures var listed := UserRepository.GetAllUsers(users);
            |all| == |listed| && forall i :: 0 <= i < |all| ==> Populates(all[i], listed[i], replies)
  {
    all := UserRepository.GetAllUsers(users);
    ghost var listed := all;
    for i := 0 to |all|
      invariant |all| == |listed|
      invariant forall k :: 0 <= k < i ==> Populates(all[k], listed[k], replies)
      invariant forall k :: i <= k < |all| ==> all[k] == listed[k]
    {
      var populated := PopulateUserDetails(all[i], replies);
      all := all[i := populated];
    }
  }

  /**
   * The fallback is dead: when the catalog query fails, the list is empty even for a caller the
   * catalog knows by name.
   */
  lemma OwnRecordLost(currentUser: string, users: Reply<UserRow>, replies: Reads)
    requires users.Failed?
    requires GetUserInfo(currentUser, replies.usersNamed, replies.sessionUser).Some?
    ensures UserRepository.GetAllUsers(users) == []
    ensures Listed(currentUser, users, replies) == [GetUserInfo(currentUser, replies.usersNamed, replies.sessionUser).value]
  {
  }

  /** getAllUsers with a repository read that lets its failure through, as the fallback expects. */
  function AllUsersCall(users: Reply<UserRow>): (call: Call<seq<User>>)
    ensures call.Returned? <==> users.Rows?
    ensures call.Returned? ==> call.value == UserRepository.GetAllUsers(users)
  {
    if users.Rows? then Returned(UserRepository.GetAllUsers(users)) else Raised
  }

  /** The users the corrected getAllUsers populates: all of them, or at most the caller's own record. */
  function Listed(currentUser: string, users: Reply<UserRow>, replies: Reads): seq<User> {
    match AllUsersCall(users)
    case Returned(all) => all
    case Raised =>
      match GetUserInfo(currentUser, replies.usersNamed, replies.sessionUser)
      case Some(own) => [own]
      case None => []
  }

  /**
   * getAllUsers with the fallback in effect: when the catalog query fails, the caller's own
   * record, if the catalog resolves it, is listed and populated.
   */
  method GetAllUsersWithFallback(currentUser: string, users: Reply<UserRow>, replies: Reads) returns (all: seq<User>)
    ensures var listed := Listed(currentUser, users, replies);
            |all| == |listed| && forall i :: 0 <= i < |all| ==> Populates(all[i], listed[i], replies)
  {
    var call := AllUsersCall(users);
    if call.Returned? {
      all := call.value;
    } else {
      all := [];
      var own := GetUserInfo(currentUser, replies.usersNamed, replies.sessionUser);
      if own.Some? {
        all := all + [own.value];
      }
    }
    ghost var listed := all;
    for i := 0 to |all|
      invariant |all| == |listed|
      invariant forall k :: 0 <= k < i ==> Populates(all[k], listed[k], replies)
      invariant forall k :: i <= k < |all| ==> all[k] == listed[k]
    {
      var populated := PopulateUserDetails(all[i], replies);
      all := all[i := populated];
    }
  }

  /** With the fallback, a failed catalog query lists exactly the caller's own record, when it resolves. */
  lemma FallbackKeepsOwnRecord(currentUser: string, users: Reply<UserRow>, replies: Reads)
    requires users.Failed?
    ensures var own := GetUserInfo(currentUser, replies.usersNamed, replies.sessionUser);
            Listed(currentUser, users, replies) == (if own.Some? then [own.value] else [])
  {
  }

  // ---------------------------------------------------------------------------
  // createUser and deleteUser
  // ---------------------------------------------------------------------------

  /** The credential table after createUser's credential step, and the exception that step throws. */
  datatype Enrolment = Enrolment(rows: seq<AppLoginUser>, error: Option<string>)

  /**
   * createUser's credential step for the upper-cased name: insert a record when the lookup finds
   * none, else set the hash of the record keyed by the name; either write may throw.
   */
  function Credential(rows: seq<AppLoginUser>, upper: string, hash: Hash, fault: LookupFault,
                      saveFailure: Option<string>, updateFailure: Option<string>): (e: Enrolment)
    ensures e.error.Some? ==> e.rows == rows
    ensures Keyed(rows) ==> Keyed(e.rows)
  {
    if Lookup(rows, Some(upper), fault).None? then
      var error := SaveError(rows, AppLoginUser(upper, hash), saveFailure);
      if error.Some? then Enrolment(rows, error) else Enrolment(rows + [Stored(AppLoginUser(upper, hash))], None)
    else if updateFailure.Some? then Enrolment(rows, updateFailure)
    else
      RehashedKeepsKeyedIfKeyed(rows, Upper(upper), hash);
      Enrolment(Rehashed(rows, Upper(upper), hash), None)
  }

  lemma RehashedKeepsKeyedIfKeyed(rows: seq<AppLoginUser>, key: string, hash: Hash)
    ensures Keyed(rows) ==> Keyed(Rehashed(rows, key, hash))
  {
    if Keyed(rows) {
      RehashedKeepsKeyed(rows, key, hash);
    }
  }

  /** The log the repository's createUser leaves and what it returns. */
  datatype Issued = Issued(log: seq<string>, outcome: Outcome)

  /** UserRepository.createUser run on `log`: CREATE USER, then GRANT CREATE SESSION unless the CREATE threw. */
  function Created(verdict: (seq<string>, string) -> Outcome, log: seq<string>, username: string, password: string,
                   defaultTablespace: Nullable, temporaryTablespace: Nullable, quota: Nullable): Issued
  {
    var create := Sql(CreateUserStatement(username, password, defaultTablespace, temporaryTablespace, quota));
    var grant := Sql(Grant("CREATE SESSION", Upper(username), false));
    if verdict(log, create).Threw? then Issued(log + [create], verdict(log, create))
    else Issued(log + [create] + [grant], verdict(log + [create], grant))
  }

  /** createUser's credential step, with the exception it throws, if any. */
  method WriteCredential(store: AppLoginUserRepository, upper: string, hash: Hash, fault: LookupFault,
                         saveFailure: Option<string>, updateFailure: Option<string>)
    returns (error: Option<string>)
    requires store.Valid()
    modifies store
    ensures store.Valid()
    ensures Enrolment(store.rows, error) == Credential(old(store.rows), upper, hash, fault, saveFailure, updateFailure)
  {
    var existingApp := store.FindByUsername(Some(upper), fault);
    var written;
    if existingApp.None? {
      written := store.Save(AppLoginUser(upper, hash), saveFailure);
    } else {
      written := store.UpdatePassword(upper, hash, updateFailure);
    }
    error := if written.Threw? then Some(written.message) else None;
  }

  /** What the JVM throws at `username.toUpperCase()` for a null name. */
  const NullNameError := "Cannot invoke \"String.toUpperCase()\" because \"username\" is null"
  /** What the password encoder throws for a null password. */
  const NullPasswordError := "rawPassword cannot be null"

  /**
   * createUser: a null name throws at once; refuse a name the catalog already resolves
   * (ORA-01920, nothing written); a null password then throws in the encoder; else write the
   * credential record first and issue the Oracle statements after it, so a failing CREATE
   * leaves the record in place. An exception of the credential step ends the call before any
   * statement.
   */
  method CreateUser(store: AppLoginUserRepository, db: AdminConnection, username: Nullable, password: Nullable,
                    defaultTablespace: Nullable, temporaryTablespace: Nullable, quota: Nullable, replies: Reads,
                    salt: nat, fault: LookupFault, saveFailure: Option<string>, updateFailure: Option<string>)
    returns (outcome: Outcome)
    requires store.Valid()
    modifies store, db
    ensures store.Valid()
    ensures username.None? ==> outcome.Threw? && store.rows == old(store.rows) && db.log == old(db.log)
    ensures username.Some? ==>
              var upper := Upper(username.value);
              if GetUserInfo(upper, replies.usersNamed, replies.sessionUser).Some? then
                outcome == Threw("ORA-01920: user '" + upper + "' already exists in Oracle")
                && store.rows == old(store.rows) && db.log == old(db.log)
              else if password.None? then
                outcome.Threw? && store.rows == old(store.rows) && db.log == old(db.log)
              else
                var enrolment := Credential(old(store.rows), upper, Encode(password.value, salt), fault, saveFailure, updateFailure);
                if enrolment.error.Some? then
                  outcome == Threw(enrolment.error.value) && store.rows == enrolment.rows && db.log == old(db.log)
                else
                  store.rows == enrolment.rows
                  && Issued(db.log, outcome) == Created(db.verdict, old(db.log), username.value, password.value,
                                                        defaultTablespace, temporaryTablespace, quota)
  {
    if username.None? {
      return Threw(NullNameError);
    }
    var upper := Upper(username.value);
    var existing := GetUserInfo(upper, replies.usersNamed, replies.sessionUser);
    if existing.Some? {
      return Threw("ORA-01920: user '" + upper + "' already exists in Oracle");
    }
    if password.None? {
      return Threw(NullPasswordError);
    }
    var hash := Encode(password.value, salt);
    var error := WriteCredential(store, upper, hash, fault, saveFailure, updateFailure);
    if error.Some? {
      return Threw(error.value);
    }
    outcome := UserRepository.CreateUser(db, username.value, password.value, defaultTablespace, temporaryTablespace, quota);
  }

  /**
   * When the name is already in lookup form and no other spelling of it is stored, a credential
   * step that throws nothing leaves exactly one record under the name, carrying the new hash.
   */
  lemma CredentialIsCurrent(rows: seq<AppLoginUser>, upper: string, hash: Hash, fault: LookupFault,
                            saveFailure: Option<string>, updateFailure: Option<string>)
    requires Keyed(rows) && upper != "" && Key(upper) == upper
    requires forall u :: u in rows && EqualsIgnoreCase(u.username, upper) ==> u.username == upper
    requires Credential(rows, upper, hash, fault, saveFailure, updateFailure).error.None?
    ensures var after := Credential(rows, upper, hash, fault, saveFailure, updateFailure).rows;
            Keyed(after) && RecordOf(after, upper) == Some(AppLoginUser(upper, hash))
  {
    assert Upper(upper) == upper by {
      UpperTrimCommute(Upper(upper));
      UpperIdempotent(upper);
    }
    var e := Credential(rows, upper, hash, fault, saveFailure, updateFailure);
    var found := Lookup(rows, Some(upper), fault);
    if found.None? {
      assert e.rows == rows + [AppLoginUser(upper, hash)] && InsertError(rows, Key(upper)).None?;
      CredentialInserted(rows, upper, hash);
    } else {
      assert e.rows == Rehashed(rows, upper, hash);
      assert found.value in rows && found.value.username == upper by {
        LookupSound(rows, Some(upper), fault);
      }
      RecordOfRehashedKey(rows, upper, hash, found.value);
    }
  }

  /** Inserting a record under a free name in lookup form leaves it as that name's only record. */
  lemma CredentialInserted(rows: seq<AppLoginUser>, upper: string, hash: Hash)
    requires Keyed(rows) && upper != "" && Key(upper) == upper
    requires InsertError(rows, Key(upper)).None?
    ensures Keyed(rows + [AppLoginUser(upper, hash)])
    ensures RecordOf(rows + [AppLoginUser(upper, hash)], upper) == Some(AppLoginUser(upper, hash))
  {
    SavedRecordIsFound(rows, upper, hash, NoFault);
    RecordOfUnique(rows + [AppLoginUser(upper, hash)], AppLoginUser(upper, hash));
  }

  /** Rehashing the key's record leaves that record, with the new hash, under the key. */
  lemma RecordOfRehashedKey(rows: seq<AppLoginUser>, key: string, hash: Hash, u: AppLoginUser)
    requires Keyed(rows) && u in rows && u.username == key
    ensures Keyed(Rehashed(rows, key, hash))
    ensures RecordOf(Rehashed(rows, key, hash), key) == Some(AppLoginUser(key, hash))
  {
    var i :| 0 <= i < |rows| && rows[i] == u;
    var r := Rehashed(rows, key, hash);
    RehashedKeepsKeyed(rows, key, hash);
    assert r[i] == AppLoginUser(key, hash);
    RecordOfUnique(r, r[i]);
  }

  /**
   * The credential step as written misses a record the lookup found under another spelling:
   * findByUsername matches the key trimmed and ignoring case, but updatePassword rewrites only
   * the record stored under exactly the upper-cased name. When no record carries that name, the
   * step completes without an error and the table, with the old hash, is left as it was.
   */
  lemma StaleCredentialKept(rows: seq<AppLoginUser>, upper: string, hash: Hash, fault: LookupFault,
                            saveFailure: Option<string>, found: AppLoginUser)
    requires Lookup(rows, Some(upper), fault) == Some(found)
    requires RecordOf(rows, Upper(upper)).None?
    ensures found in rows && found.username != Upper(upper)
    ensures Credential(rows, upper, hash, fault, saveFailure, None) == Enrolment(rows, None)
  {
    LookupSound(rows, Some(upper), fault);
    var after := Rehashed(rows, Upper(upper), hash);
    assert after == rows by {
      forall i | 0 <= i < |rows| ensures after[i] == rows[i] {
        assert rows[i].username != Upper(upper);
      }
    }
  }

  /**
   * The stale update for a name typed with a leading blank, on a record the application itself
   * stored under the name's key: " bob" reaches the step upper-cased as " BOB", over "BOB".
   */
  lemma StaleCredentialForBlank(key: string, previous: Hash, hash: Hash)
    requires key != "" && Key(key) == key
    ensures Credential([AppLoginUser(key, previous)], " " + key, hash, NoFault, None, None)
            == Enrolment([AppLoginUser(key, previous)], None)
  {
    var spelled := " " + key;
    var rows := [AppLoginUser(key, previous)];
    BlankSpelling(key);
    assert RecordOf(rows, key) == Some(rows[0]);
    assert Lookup(rows, Some(spelled), NoFault) == Some(rows[0]);
    assert |rows[0].username| != |spelled|;
    StaleCredentialKept(rows, spelled, hash, NoFault, None, rows[0]);
  }

  /** A key is its own upper case. */
  lemma KeyIsUpper(key: string)
    requires Key(key) == key
    ensures Upper(key) == key
  {
    UpperIdempotent(key);
    UpperTrimCommute(Upper(key));
  }

  /** A key spelled with one leading blank is left as it is by upper-casing and has the same key. */
  lemma BlankSpelling(key: string)
    requires key != "" && Key(key) == key
    ensures Upper(" " + key) == " " + key && Key(" " + key) == key
  {
    KeyIsUpper(key);
    UpperOfBlankSpelling(key);
    TrimOfBlankSpelling(key);
  }

  lemma UpperOfBlankSpelling(key: string)
    requires Upper(key) == key
    ensures Upper(" " + key) == " " + key
  {
    var spelled := " " + key;
    forall i | 0 <= i < |spelled| ensures Upper(spelled)[i] == spelled[i] {
      if i > 0 {
        assert spelled[i] == key[i - 1] && Upper(key)[i - 1] == UpperChar(key[i - 1]);
      }
    }
  }

  lemma TrimOfBlankSpelling(key: string)
    requires key != "" && Trim(key) == key
    ensures Trim(" " + key) == key
  {
    var spelled := " " + key;
    assert !IsBlank(key[0]) && !IsBlank(key[|key| - 1]);
    assert spelled[1..] == key;
    TrimStartOfUnblank(key);
    TrimEndOfUnblank(key);
    assert TrimStart(spelled) == key;
  }

  /**
   * The stale update for a record stored in another case than the key the name reaches the step
   * with: "bob" stored, and "bob" or "BOB" typed, which reaches the step as "BOB".
   */
  lemma StaleCredentialForOtherCase(stored: string, key: string, previous: Hash, hash: Hash)
    requires key != "" && Key(key) == key && Upper(stored) == key && stored != key
    ensures Credential([AppLoginUser(stored, previous)], key, hash, NoFault, None, None)
            == Enrolment([AppLoginUser(stored, previous)], None)
  {
    var rows := [AppLoginUser(stored, previous)];
    KeyIsUpper(key);
    OtherCaseFoundByScan(stored, key, previous);
    StaleCredentialKept(rows, key, hash, NoFault, None, rows[0]);
  }

  /** The lookup of a key finds, by its scan, the one record stored in another case. */
  lemma OtherCaseFoundByScan(stored: string, key: string, previous: Hash)
    requires key != "" && Key(key) == key && Upper(stored) == key && Upper(key) == key && stored != key
    ensures Lookup([AppLoginUser(stored, previous)], Some(key), NoFault) == Some(AppLoginUser(stored, previous))
    ensures RecordOf([AppLoginUser(stored, previous)], key).None?
  {
    var rows := [AppLoginUser(stored, previous)];
    assert RecordOf(rows, key).None?;
    assert Names(rows) == [stored];
    ScanFindsOtherCase(stored, key);
    assert RecordOf(rows, stored) == Some(rows[0]);
  }

  lemma ScanFindsOtherCase(stored: string, key: string)
    requires Upper(stored) == Upper(key)
    ensures FirstIgnoringCase([stored], key) == Some(stored)
  {
    EqualsIgnoreCaseIffSameUpper(stored, key);
    assert [stored][0] == stored;
  }

  /**
   * The credential step as intended: insert a record under the normalised key when the lookup
   * finds none, else set the hash of the very record the lookup found.
   */
  function CurrentCredential(rows: seq<AppLoginUser>, username: string, hash: Hash, fault: LookupFault,
                             saveFailure: Option<string>, updateFailure: Option<string>): (e: Enrolment)
    ensures e.error.Some? ==> e.rows == rows
  {
    match Lookup(rows, Some(username), fault)
    case None =>
      var error := if saveFailure.Some? then saveFailure else InsertError(rows, Key(username));
      if error.Some? then Enrolment(rows, error) else Enrolment(rows + [AppLoginUser(Key(username), hash)], None)
    case Some(found) =>
      if updateFailure.Some? then Enrolment(rows, updateFailure)
      else Enrolment(Rehashed(rows, found.username, hash), None)
  }

  /**
   * With the intended step, a credential write that throws nothing leaves the table keyed, and
   * the lookup of the name, by any spelling with its key, finds a record with the new hash.
   */
  lemma CurrentCredentialIsCurrent(rows: seq<AppLoginUser>, username: string, hash: Hash, fault: LookupFault,
                                   saveFailure: Option<string>, updateFailure: Option<string>, spelling: string)
    requires Keyed(rows)
    requires CurrentCredential(rows, username, hash, fault, saveFailure, updateFailure).error.None?
    requires spelling != "" && Key(spelling) == Key(username)
    ensures var after := CurrentCredential(rows, username, hash, fault, saveFailure, updateFailure).rows;
            Keyed(after)
            && Lookup(after, Some(spelling), NoFault).Some?
            && Lookup(after, Some(spelling), NoFault).value.passwordHash == hash
  {
    var after := CurrentCredential(rows, username, hash, fault, saveFailure, updateFailure).rows;
    var key := Key(username);
    match Lookup(rows, Some(username), fault)
    case None =>
      SavedRecordIsFound(rows, username, hash, NoFault);
      LookupByKey(after, spelling, username, NoFault);
    case Some(found) =>
      LookupSound(rows, Some(username), fault);
      RehashedKeepsKeyed(rows, found.username, hash);
      RecordOfRehashedKey(rows, found.username, hash, found);
      if RecordOf(rows, key).Some? {
        assert found.username == key;
      } else {
        FoundByScanIsCurrent(rows, key, hash, found);
      }
      LookupByKey(after, spelling, username, NoFault);
  }

  /** A record the scan found keeps being the scan's answer once its hash is changed. */
  lemma FoundByScanIsCurrent(rows: seq<AppLoginUser>, key: string, hash: Hash, found: AppLoginUser)
    requires Keyed(rows) && found in rows && RecordOf(rows, key).None?
    requires FirstIgnoringCase(Names(rows), key) == Some(found.username)
    ensures RecordOf(Rehashed(rows, found.username, hash), key).None?
    ensures FirstIgnoringCase(Names(Rehashed(rows, found.username, hash)), key) == Some(found.username)
  {
    var after := Rehashed(rows, found.username, hash);
    assert found.username != key;
    RecordOfRehashed(rows, found.username, hash, key);
    assert Names(after) == Names(rows);
  }

  /**
   * deleteUser: remove the credential record first, ignoring a failure to do so, then always
   * issue DROP USER ... CASCADE, whose exception is the call's.
   */
  method DeleteUser(store: AppLoginUserRepository, db: AdminConnection, username: string, deleteFailure: Option<string>)
    returns (outcome: Outcome)
    requires store.Valid()
    modifies store, db
    ensures store.Valid()
    ensures store.rows == if deleteFailure.Some? then old(store.rows) else Without(old(store.rows), Upper(username))
    ensures db.log == old(db.log) + [Sql(Statement.DropUser(Upper(username)))]
    ensures outcome == db.verdict(old(db.log), Sql(Statement.DropUser(Upper(username))))
  {
    var _ := store.Delete(username, deleteFailure);
    outcome := UserRepository.DropUser(db, username);
  }
}
