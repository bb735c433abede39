/**
 * AuthenticationService: the login against the application's credential table, with its
 * auto-sync step that enrols a catalog user on first login, the HTTP session's "username"
 * attribute, and the admin-capability check shown in the page header.
 */
module AuthenticationService {
  import opened Wrappers
  import opened Text
  import opened PasswordHash
  import opened Database
  import opened AppLoginUsers
  import opened UserRepository
  import opened PrivilegeRepository

  /** The HTTP session, reduced to the one attribute the console keeps in it: "username". */
  class Session {
    var username: Nullable

    constructor ()
      ensures username.None?
    {
      username := None;
    }
  }

  /** isLoggedIn: the "username" attribute is set. */
  predicate IsLoggedIn(session: Session): (loggedIn: bool)
    reads session
    ensures loggedIn <==> CurrentUser(session).Some?
  {
    session.username.Some?
  }

  /** getCurrentUser: the "username" attribute, null when nobody is logged in. */
  function CurrentUser(session: Session): (user: Nullable)
    reads session
    ensures user.Some? <==> session.username.Some?
    ensures user.Some? ==> user.value == session.username.value
  {
    session.username
  }

  /** logout: the session is invalidated, so no attribute survives. */
  method Logout(session: Session)
    modifies session
    ensures !IsLoggedIn(session) && CurrentUser(session).None?
  {
    session.username := None;
  }

  /** What a login leaves behind: the credential table, and the name put in the session on success. */
  datatype LoginResult = LoginResult(rows: seq<AppLoginUser>, signedIn: Option<string>)

  /** The record login checks the password against, with the credential table after finding it. */
  datatype Resolved = Resolved(rows: seq<AppLoginUser>, record: Option<AppLoginUser>)

  /**
   * login's lookup with its auto-sync: the record found under the trimmed name; else, when the
   * catalog knows the user, a record enrolled under the upper-cased name with a hash of the
   * given password; else none. A failed lookup or save leaves the table as it was.
   */
  function Resolve(rows: seq<AppLoginUser>, name: string, password: string, fault: LookupFault,
                   usersNamed: string -> Reply<UserRow>, sessionUser: Reply<string>,
                   salt: nat, saveFailure: Option<string>): (r: Resolved)
    ensures r.rows == rows
            || (r.record == Some(AppLoginUser(Upper(name), Encode(password, salt))) && r.rows == rows + [Stored(r.record.value)])
  {
    match Lookup(rows, Some(name), fault)
    case Some(record) => Resolved(rows, Some(record))
    case None =>
      if GetUserInfo(name, usersNamed, sessionUser).None? then Resolved(rows, None)
      else
        var enrolled := AppLoginUser(Upper(name), Encode(password, salt));
        if SaveError(rows, enrolled, saveFailure).Some? then Resolved(rows, None)
        else Resolved(rows + [Stored(enrolled)], Some(enrolled))
  }

  /**
   * login. Null or empty input fails at once. The trimmed name is resolved to a record as above,
   * and any failure there fails the login. The password is then checked against the record's
   * hash, and on success the session receives the name trimmed and upper-cased.
   */
  function LoginSpec(rows: seq<AppLoginUser>, username: Nullable, password: Nullable, fault: LookupFault,
                     usersNamed: string -> Reply<UserRow>, sessionUser: Reply<string>,
                     salt: nat, saveFailure: Option<string>): LoginResult
  {
    if !Filled(username) || !Filled(password) then LoginResult(rows, None)
    else
      var name := Trim(username.value);
      var resolved := Resolve(rows, name, password.value, fault, usersNamed, sessionUser, salt, saveFailure);
      var signedIn := Some(Upper(Trim(name)));
      LoginResult(resolved.rows, if resolved.record.Some? && Matches(password.value, resolved.record.value.passwordHash)
                                 then signedIn else None)
  }

  /** The lookup and auto-sync part of login, step by step over the credential store. */
  method FindOrEnrol(store: AppLoginUserRepository, name: string, password: string, fault: LookupFault,
                     usersNamed: string -> Reply<UserRow>, sessionUser: Reply<string>,
                     salt: nat, saveFailure: Option<string>) returns (appUser: Option<AppLoginUser>)
    requires store.Valid()
    modifies store
    ensures store.Valid()
    ensures var r := Resolve(old(store.rows), name, password, fault, usersNamed, sessionUser, salt, saveFailure);
            appUser == r.record && store.rows == r.rows
  {
    appUser := store.FindByUsername(Some(name), fault);
    if appUser.None? {
      var oracleUser := GetUserInfo(name, usersNamed, sessionUser);
      if oracleUser.None? {
        return None;
      }
      var enrolled := AppLoginUser(Upper(name), Encode(password, salt));
      var saved := store.Save(enrolled, saveFailure);
      if saved.Threw? {
        return None;
      }
      appUser := Some(enrolled);
    }
  }

  /** login, step by step over the credential store and the session. */
  method Login(store: AppLoginUserRepository, session: Session, username: Nullable, password: Nullable,
               fault: LookupFault, usersNamed: string -> Reply<UserRow>, sessionUser: Reply<string>,
               salt: nat, saveFailure: Option<string>) returns (success: bool)
    requires store.Valid()
    modifies store, session
    ensures store.Valid()
    ensures var r := LoginSpec(old(store.rows), username, password, fault, usersNamed, sessionUser, salt, saveFailure);
            success == r.signedIn.Some? && store.rows == r.rows
            && session.username == (if success then r.signedIn else old(session.username))
  {
    if username.None? || password.None? || username.value == "" || password.value == "" {
      return false;
    }
    var name := Trim(username.value);
    var appUser := FindOrEnrol(store, name, password.value, fault, usersNamed, sessionUser, salt, saveFailure);
    if appUser.None? || !Matches(password.value, appUser.value.passwordHash) {
      return false;
    }
    session.username := Some(Upper(Trim(name)));
    success := true;
  }

  // ---------------------------------------------------------------------------
  // Facts about login
  // ---------------------------------------------------------------------------

  /** A null or empty name or password fails without touching the table. */
  lemma LoginRejectsMissingInput(rows: seq<AppLoginUser>, username: Nullable, password: Nullable, fault: LookupFault,
                                 usersNamed: string -> Reply<UserRow>, sessionUser: Reply<string>,
                                 salt: nat, saveFailure: Option<string>)
    requires !Filled(username) || !Filled(password)
    ensures LoginSpec(rows, username, password, fault, usersNamed, sessionUser, salt, saveFailure) == LoginResult(rows, None)
  {
  }

  /** The session receives the given name trimmed and upper-cased. */
  lemma LoginSessionName(rows: seq<AppLoginUser>, username: Nullable, password: Nullable, fault: LookupFault,
                         usersNamed: string -> Reply<UserRow>, sessionUser: Reply<string>,
                         salt: nat, saveFailure: Option<string>)
    ensures var r := LoginSpec(rows, username, password, fault, usersNamed, sessionUser, salt, saveFailure);
            r.signedIn.Some? ==> username.Some? && r.signedIn.value == Upper(Trim(username.value))
  {
    if Filled(username) && Filled(password) {
      var name := Trim(username.value);
      TrimIdempotent(username.value);
      var r := LoginSpec(rows, username, password, fault, usersNamed, sessionUser, salt, saveFailure);
      if Lookup(rows, Some(name), fault).Some? {
        assert r.signedIn.Some? ==> r.signedIn == Some(Upper(Trim(name)));
      } else {
        assert r.signedIn.Some? ==> r.signedIn == Some(Upper(Trim(name)));
      }
    }
  }

  /** A stored record whose hash does not verify the password fails the login and changes nothing. */
  lemma LoginWrongPassword(rows: seq<AppLoginUser>, username: string, password: string, fault: LookupFault,
                           usersNamed: string -> Reply<UserRow>, sessionUser: Reply<string>,
                           salt: nat, saveFailure: Option<string>)
    requires username != "" && password != ""
    requires var found := Lookup(rows, Some(Trim(username)), fault);
             found.Some? && !Matches(password, found.value.passwordHash)
    ensures LoginSpec(rows, Some(username), Some(password), fault, usersNamed, sessionUser, salt, saveFailure) == LoginResult(rows, None)
  {
  }

  /** A stored record whose hash verifies the password lets the login through without changing the table. */
  lemma LoginWithRecord(rows: seq<AppLoginUser>, username: string, password: string, fault: LookupFault,
                        usersNamed: string -> Reply<UserRow>, sessionUser: Reply<string>,
                        salt: nat, saveFailure: Option<string>)
    requires username != "" && password != ""
    requires var found := Lookup(rows, Some(Trim(username)), fault);
             found.Some? && Matches(password, found.value.passwordHash)
    ensures LoginSpec(rows, Some(username), Some(password), fault, usersNamed, sessionUser, salt, saveFailure)
         == LoginResult(rows, Some(Upper(Trim(Trim(username)))))
  {
    var found := Lookup(rows, Some(Trim(username)), fault);
    assert Filled(Some(username)) && Filled(Some(password));
    assert found == Some(found.value);
  }

  /**
   * Auto-sync: with no credential record, a user the catalog knows is enrolled under the
   * trimmed, upper-cased name with a hash of the given password, and that same login succeeds.
   */
  lemma LoginAutoSync(rows: seq<AppLoginUser>, username: string, password: string, fault: LookupFault,
                      usersNamed: string -> Reply<UserRow>, sessionUser: Reply<string>,
                      salt: nat, saveFailure: Option<string>)
    requires username != "" && password != ""
    requires Lookup(rows, Some(Trim(username)), fault).None?
    requires GetUserInfo(Trim(username), usersNamed, sessionUser).Some?
    requires SaveError(rows, AppLoginUser(Upper(Trim(username)), Encode(password, salt)), saveFailure).None?
    ensures LoginSpec(rows, Some(username), Some(password), fault, usersNamed, sessionUser, salt, saveFailure)
         == LoginResult(rows + [AppLoginUser(Upper(Trim(username)), Encode(password, salt))], Some(Upper(Trim(username))))
  {
    UpperIdempotent(Trim(username));
    TrimIdempotent(username);
    EncodeThenMatches(password, password, salt);
  }

  /** With no credential record, a user unknown to the catalog, or a failing enrolment, fails and changes nothing. */
  lemma LoginWithoutRecordFails(rows: seq<AppLoginUser>, username: string, password: string, fault: LookupFault,
                                usersNamed: string -> Reply<UserRow>, sessionUser: Reply<string>,
                                salt: nat, saveFailure: Option<string>)
    requires username != "" && password != ""
    requires Lookup(rows, Some(Trim(username)), fault).None?
    requires GetUserInfo(Trim(username), usersNamed, sessionUser).None?
             || SaveError(rows, AppLoginUser(Upper(Trim(username)), Encode(password, salt)), saveFailure).Some?
    ensures LoginSpec(rows, Some(username), Some(password), fault, usersNamed, sessionUser, salt, saveFailure) == LoginResult(rows, None)
  {
  }

  /**
   * A login succeeds only through a stored record whose name matches the trimmed name ignoring
   * case and whose hash verifies the password; at most that one record is added.
   */
  lemma LoginSound(rows: seq<AppLoginUser>, username: Nullable, password: Nullable, fault: LookupFault,
                   usersNamed: string -> Reply<UserRow>, sessionUser: Reply<string>,
                   salt: nat, saveFailure: Option<string>)
    ensures var r := LoginSpec(rows, username, password, fault, usersNamed, sessionUser, salt, saveFailure);
            r.signedIn.Some? ==>
              Filled(username) && Filled(password)
              && exists record :: record in r.rows && Matches(password.value, record.passwordHash)
                                  && EqualsIgnoreCase(record.username, Key(Trim(username.value)))
    ensures var r := LoginSpec(rows, username, password, fault, usersNamed, sessionUser, salt, saveFailure);
            r.rows == rows || (Filled(username) && Filled(password) &&
                               r.rows == rows + [AppLoginUser(Upper(Trim(username.value)), Encode(password.value, salt))])
  {
    if Filled(username) && Filled(password) {
      var name := Trim(username.value);
      TrimIdempotent(username.value);
      UpperIdempotent(name);
      ResolveSound(rows, name, password.value, fault, usersNamed, sessionUser, salt, saveFailure);
    }
  }

  /**
   * The record login resolves a trimmed name to is in the table afterwards, and its name matches
   * the name's lookup key ignoring case.
   */
  lemma ResolveSound(rows: seq<AppLoginUser>, name: string, password: string, fault: LookupFault,
                     usersNamed: string -> Reply<UserRow>, sessionUser: Reply<string>,
                     salt: nat, saveFailure: Option<string>)
    requires Trim(name) == name
    ensures var r := Resolve(rows, name, password, fault, usersNamed, sessionUser, salt, saveFailure);
            r.record.Some? ==> r.record.value in r.rows && EqualsIgnoreCase(r.record.value.username, Key(name))
  {
    var r := Resolve(rows, name, password, fault, usersNamed, sessionUser, salt, saveFailure);
    match Lookup(rows, Some(name), fault)
    case Some(_) =>
      LookupSound(rows, Some(name), fault);
    case None =>
      if r.record.Some? {
        var enrolled := AppLoginUser(Upper(name), Encode(password, salt));
        assert r == Resolved(rows + [Stored(enrolled)], Some(enrolled));
        EnrolledUnderKey(name, enrolled.passwordHash);
      }
  }

  /** A record enrolled under a trimmed name, upper-cased, is stored as it is and matches the name's key. */
  lemma EnrolledUnderKey(name: string, hash: Hash)
    requires Trim(name) == name
    ensures Stored(AppLoginUser(Upper(name), hash)) == AppLoginUser(Upper(name), hash)
    ensures EqualsIgnoreCase(Upper(name), Key(name))
  {
    UpperIdempotent(name);
    UpperTrimCommute(name);
    EqualsIgnoreCaseUpper(Upper(name));
  }

  /**
   * After a login that enrolled the user, the next login with the same name and password finds
   * the new record by its exact key and succeeds without consulting the catalog again.
   */
  lemma AutoSyncedUserLogsInAgain(rows: seq<AppLoginUser>, username: string, password: string, salt: nat,
                                  fault: LookupFault, usersNamed: string -> Reply<UserRow>, sessionUser: Reply<string>,
                                  salt': nat, saveFailure: Option<string>)
    requires Keyed(rows) && username != "" && password != "" && fault != ExactQueryFails
    requires SaveError(rows, AppLoginUser(Upper(Trim(username)), Encode(password, salt)), None).None?
    ensures var enrolled := rows + [AppLoginUser(Upper(Trim(username)), Encode(password, salt))];
            LoginSpec(enrolled, Some(username), Some(password), fault, usersNamed, sessionUser, salt', saveFailure)
              == LoginResult(enrolled, Some(Upper(Trim(username))))
  {
    var name := Trim(username);
    var hash := Encode(password, salt);
    var enrolled := rows + [AppLoginUser(Upper(name), hash)];
    assert Lookup(enrolled, Some(name), fault) == Some(AppLoginUser(Upper(name), hash)) by {
      UpperIdempotent(name);
      UpperTrimCommute(name);
      TrimIdempotent(username);
      assert Key(name) == Upper(name);
      SavedRecordIsFound(rows, name, hash, fault);
    }
    EncodeThenMatches(password, password, salt);
    TrimIdempotent(username);
    LoginWithRecord(enrolled, username, password, fault, usersNamed, sessionUser, salt', saveFailure);
  }

  // ---------------------------------------------------------------------------
  // hasAdminCapabilities
  // ---------------------------------------------------------------------------

  /** The system privileges that make a user an administrator of the console. */
  const AdminPrivileges: set<string> := {"CREATE USER", "ALTER USER", "CREATE ROLE", "CREATE PROFILE"}

  /** hasAdminCapabilities: false for null; else whether the trimmed user holds any administrative privilege. */
  function HasAdminCapabilities(username: Nullable, count: CountQuery -> Reply<int>): (admin: bool)
    ensures username.None? ==> !admin
    ensures admin ==> exists privilege :: privilege in AdminPrivileges && HasPrivilege(Trim(username.value), privilege, count)
  {
    if username.None? then false
    else
      var name := Trim(username.value);
      HasPrivilege(name, "CREATE USER", count) || HasPrivilege(name, "ALTER USER", count)
      || HasPrivilege(name, "CREATE ROLE", count) || HasPrivilege(name, "CREATE PROFILE", count)
  }

  /** The catalog grants `privilege` to `user`, directly or through a role granted to `user`. */
  ghost predicate Holds(cat: Catalog, user: string, privilege: string) {
    (user, privilege) in cat.sysGrants || exists r :: (user, r) in cat.roleGrants && (r, privilege) in cat.sysGrants
  }

  /** Against a catalog the count queries report, the capability is a grant of one of the four privileges. */
  lemma HasAdminCapabilitiesFromCatalog(username: string, count: CountQuery -> Reply<int>, cat: Catalog)
    requires Reports(count, cat)
    ensures var user := Upper(Trim(username));
            HasAdminCapabilities(Some(username), count) <==>
              Holds(cat, user, "CREATE USER") || Holds(cat, user, "ALTER USER")
              || Holds(cat, user, "CREATE ROLE") || Holds(cat, user, "CREATE PROFILE")
  {
    var name := Trim(username);
    assert HasPrivilege(name, "CREATE USER", count) <==> Holds(cat, Upper(name), "CREATE USER") by {
      HasPrivilegeFromCatalog(name, "CREATE USER", count, cat);
    }
    assert HasPrivilege(name, "ALTER USER", count) <==> Holds(cat, Upper(name), "ALTER USER") by {
      HasPrivilegeFromCatalog(name, "ALTER USER", count, cat);
    }
    assert HasPrivilege(name, "CREATE ROLE", count) <==> Holds(cat, Upper(name), "CREATE ROLE") by {
      HasPrivilegeFromCatalog(name, "CREATE ROLE", count, cat);
    }
    assert HasPrivilege(name, "CREATE PROFILE", count) <==> Holds(cat, Upper(name), "CREATE PROFILE") by {
      HasPrivilegeFromCatalog(name, "CREATE PROFILE", count, cat);
    }
  }
}
