/**
 * UserController (/users): every handler first sends a visitor without a session to the login
 * page, then checks CREATE USER for the logged-in user (delete also checks DROP USER), calls
 * the service, records the outcome as a flash and redirects back to the list.
 */
module UserController {
  import opened Wrappers
  import opened Text
  import opened PasswordHash
  import opened Database
  import opened AppLoginUsers
  import opened PrivilegeRepository
  import opened UserService
  import opened Web

  /** The state-changing calls the handlers issue, with the arguments they pass. */
  datatype UserRequest =
    | CreateOracleUser(formUsername: Nullable, password: Nullable, defaultTablespace: Nullable,
                       temporaryTablespace: Nullable, quota: Nullable)        // userService.createUser
    | UpdateOracleUser(username: string, password: Nullable, defaultTablespace: Nullable,
                       temporaryTablespace: Nullable, quota: Nullable, profile: Nullable)  // userService.updateUser
    | LockOracleUser(username: string)                                       // userService.lockUser
    | UnlockOracleUser(username: string)                                     // userService.unlockUser
    | DeleteOracleUser(username: string)                                     // userService.deleteUser
    | SaveCredential(record: AppLoginUser)                                   // appLoginUserRepository.save

  const AccessDenied := "redirect:/users?error=access_denied"
  const NoPrivilege := "redirect:/users?error=no_privilege"
  const BackToList := "redirect:/users"

  /** The gate of every handler but the list and the detail page: logged in, and holding CREATE USER. */
  predicate MayManage(current: Nullable, count: CountQuery -> Reply<int>) {
    current.Some? && HasPrivilege(current.value, "CREATE USER", count)
  }

  /** GET /users: the list page, for any logged-in user. */
  function ListUsers(current: Nullable): (r: Response<UserRequest>)
    ensures current.None? ==> r == ToLogin()
    ensures current.Some? ==> r == Response("users/list", NoFlash, None)
  {
    if current.None? then ToLogin() else Response("users/list", NoFlash, None)
  }

  /** GET /users/{username}: the detail page; "User not found" is not caught here. */
  function ViewUser(current: Nullable, fetched: Fetched): (r: Response<UserRequest>)
    ensures current.None? ==> r == ToLogin()
    ensures current.Some? && fetched.NotFound? ==> r == Unhandled(fetched.message)
    ensures current.Some? && fetched.Fetched? ==> r == Response("users/view", NoFlash, None)
  {
    if current.None? then ToLogin()
    else match fetched
      case Fetched(_) => Response("users/view", NoFlash, None)
      case NotFound(message) => Unhandled(message)
  }

  /**
   * GET /users/create: CREATE USER is checked twice, the second time with a different error code.
   * Each check runs the count queries again, so `recount` answers the second one.
   */
  function CreateUserForm(current: Nullable, count: CountQuery -> Reply<int>,
                          recount: CountQuery -> Reply<int>): (r: Response<UserRequest>)
    ensures current.None? ==> r == ToLogin()
    ensures current.Some? && !MayManage(current, count) ==> r == Denied(AccessDenied)
    ensures r == Denied(NoPrivilege) <==> MayManage(current, count) && !MayManage(current, recount)
    ensures r == Response("users/create", NoFlash, None) <==> MayManage(current, count) && MayManage(current, recount)
  {
    if current.None? then ToLogin()
    else if !HasPrivilege(current.value, "CREATE USER", count) then Denied(AccessDenied)
    else if !HasPrivilege(current.value, "CREATE USER", recount) then Denied(NoPrivilege)
    else Response("users/create", NoFlash, None)
  }

  /** The friendly text of a create failure: the first marker found decides, else the message stays. */
  function CreateErrorText(message: string, username: Nullable): (text: string)
    ensures text != message ==>
              Contains(message, "ORA-01920") || Contains(message, "ORA-00001") || Contains(message, "unique constraint")
              || Contains(message, "ORA-01031") || Contains(message, "ORA-00959")
  {
    if Contains(message, "ORA-01920") then "User '" + Show(username) + "' already exists in Oracle"
    else if Contains(message, "ORA-00001") || Contains(message, "unique constraint") then
      "User '" + Show(username) + "' already exists in application database"
    else if Contains(message, "ORA-01031") then "Insufficient privileges to create user"
    else if Contains(message, "ORA-00959") then "Tablespace does not exist"
    else message
  }

  /** POST /users/create: forward the form to the service and report the classified outcome. */
  function CreateUser(current: Nullable, count: CountQuery -> Reply<int>, username: Nullable, password: Nullable,
                      defaultTablespace: Nullable, temporaryTablespace: Nullable, quota: Nullable,
                      outcome: Outcome): (r: Response<UserRequest>)
    ensures current.None? ==> r == ToLogin()
    ensures current.Some? && !MayManage(current, count) ==> r == Denied(AccessDenied)
    ensures MayManage(current, count) ==>
              r.Response? && r.target == BackToList
              && r.call == Some(CreateOracleUser(username, password, defaultTablespace, temporaryTablespace, quota))
    ensures MayManage(current, count) && outcome.Threw? ==>
              r.flash == Failure("Failed to create user: " + CreateErrorText(outcome.message, username))
    ensures MayManage(current, count) && outcome.Completed? ==> r.flash == Success("User " + Show(username) + " created successfully")
  {
    if current.None? then ToLogin()
    else if !HasPrivilege(current.value, "CREATE USER", count) then Denied(AccessDenied)
    else
      var flash := match outcome
        case Completed => Success("User " + Show(username) + " created successfully")
        case Threw(message) => Failure("Failed to create user: " + CreateErrorText(message, username));
      Response(BackToList, flash, Some(CreateOracleUser(username, password, defaultTablespace, temporaryTablespace, quota)))
  }

  /** The message of the first read that threw, in the order the edit form makes them. */
  function FirstFailure(fetched: Fetched, profiles: Outcome, roles: Outcome): Option<string> {
    if fetched.NotFound? then Some(fetched.message)
    else if profiles.Threw? then Some(profiles.message)
    else if roles.Threw? then Some(roles.message)
    else None
  }

  /**
   * GET /users/{username}/edit: the edit page, after getUser, then the profile list and the role
   * list for the dropdowns (`profiles` and `roles` say how getAllProfiles and getAllRoles ended);
   * the first exception becomes the redirect's error code.
   */
  function EditUserForm(current: Nullable, count: CountQuery -> Reply<int>, fetched: Fetched, profiles: Outcome,
                        roles: Outcome): (r: Response<UserRequest>)
    ensures current.None? ==> r == ToLogin()
    ensures current.Some? && !MayManage(current, count) ==> r == Denied(AccessDenied)
    ensures MayManage(current, count) && fetched.NotFound? ==> r == Response("redirect:/users?error=" + fetched.message, NoFlash, None)
    ensures MayManage(current, count) && fetched.Fetched? && profiles.Threw? ==>
              r == Response("redirect:/users?error=" + profiles.message, NoFlash, None)
    ensures MayManage(current, count) && fetched.Fetched? && profiles.Completed? && roles.Threw? ==>
              r == Response("redirect:/users?error=" + roles.message, NoFlash, None)
    ensures r == Response("users/edit", NoFlash, None) <==>
              MayManage(current, count) && fetched.Fetched? && profiles.Completed? && roles.Completed?
  {
    if current.None? then ToLogin()
    else if !HasPrivilege(current.value, "CREATE USER", count) then Denied(AccessDenied)
    else match FirstFailure(fetched, profiles, roles)
      case None => Response("users/edit", NoFlash, None)
      case Some(message) => Response("redirect:/users?error=" + message, NoFlash, None)
  }

  /** POST /users/{username}/edit: the user named in the path, the other fields from the form. */
  function UpdateUser(current: Nullable, count: CountQuery -> Reply<int>, username: string, password: Nullable,
                      defaultTablespace: Nullable, temporaryTablespace: Nullable, quota: Nullable, profile: Nullable,
                      outcome: Outcome): (r: Response<UserRequest>)
    ensures current.None? ==> r == ToLogin()
    ensures current.Some? && !MayManage(current, count) ==> r == Denied(AccessDenied)
    ensures MayManage(current, count) ==>
              r.Response? && r.target == BackToList
              && r.call == Some(UpdateOracleUser(username, password, defaultTablespace, temporaryTablespace, quota, profile))
    ensures MayManage(current, count) && outcome.Threw? ==> r.flash == Failure("Failed to update user: " + outcome.message)
  {
    if current.None? then ToLogin()
    else if !HasPrivilege(current.value, "CREATE USER", count) then Denied(AccessDenied)
    else Response(BackToList, Reported(outcome, "User updated successfully", "Failed to update user: "),
                  Some(UpdateOracleUser(username, password, defaultTablespace, temporaryTablespace, quota, profile)))
  }

  /** POST /users/{username}/lock. */
  function LockUser(current: Nullable, count: CountQuery -> Reply<int>, username: string, outcome: Outcome): (r: Response<UserRequest>)
    ensures current.None? ==> r == ToLogin()
    ensures current.Some? && !MayManage(current, count) ==> r == Denied(AccessDenied)
    ensures MayManage(current, count) ==> r.Response? && r.target == BackToList && r.call == Some(LockOracleUser(username))
    ensures MayManage(current, count) && outcome.Threw? ==> r.flash == Failure("Failed to lock user: " + outcome.message)
  {
    if current.None? then ToLogin()
    else if !HasPrivilege(current.value, "CREATE USER", count) then Denied(AccessDenied)
    else Response(BackToList, Reported(outcome, "User locked successfully", "Failed to lock user: "), Some(LockOracleUser(username)))
  }

  /** POST /users/{username}/unlock. */
  function UnlockUser(current: Nullable, count: CountQuery -> Reply<int>, username: string, outcome: Outcome): (r: Response<UserRequest>)
    ensures current.None? ==> r == ToLogin()
    ensures current.Some? && !MayManage(current, count) ==> r == Denied(AccessDenied)
    ensures MayManage(current, count) ==> r.Response? && r.target == BackToList && r.call == Some(UnlockOracleUser(username))
    ensures MayManage(current, count) && outcome.Threw? ==> r.flash == Failure("Failed to unlock user: " + outcome.message)
  {
    if current.None? then ToLogin()
    else if !HasPrivilege(current.value, "CREATE USER", count) then Denied(AccessDenied)
    else Response(BackToList, Reported(outcome, "User unlocked successfully", "Failed to unlock user: "), Some(UnlockOracleUser(username)))
  }

  /** POST /users/{username}/delete: CREATE USER, then DROP USER. */
  function DeleteUser(current: Nullable, count: CountQuery -> Reply<int>, username: string, outcome: Outcome): (r: Response<UserRequest>)
    ensures current.None? ==> r == ToLogin()
    ensures current.Some? && !MayManage(current, count) ==> r == Denied(AccessDenied)
    ensures MayManage(current, count) && !HasPrivilege(current.value, "DROP USER", count) ==> r == Denied(NoPrivilege)
    ensures r.Response? && r.call.Some? <==> MayManage(current, count) && HasPrivilege(current.value, "DROP USER", count)
    ensures r.Response? && r.call.Some? ==> r.target == BackToList && r.call == Some(DeleteOracleUser(username))
    ensures r.Response? && r.call.Some? && outcome.Threw? ==> r.flash == Failure("Failed to delete user: " + outcome.message)
  {
    if current.None? then ToLogin()
    else if !HasPrivilege(current.value, "CREATE USER", count) then Denied(AccessDenied)
    else if !HasPrivilege(current.value, "DROP USER", count) then Denied(NoPrivilege)
    else Response(BackToList, Reported(outcome, "User deleted successfully", "Failed to delete user: "), Some(DeleteOracleUser(username)))
  }

  /** The notice shown after a user is added to the credential table, around the password it echoes. */
  const AddedNotice := " đã được thêm vào APP_LOGIN_USER. Bạn có thể login với password: "

  /**
   * POST /users/{username}/add-to-app-login: save a credential record under the upper-cased
   * name with a hash of the given password, then return to the user's page as named in the path.
   * The success notice repeats the password in plain text.
   */
  function AddToAppLogin(current: Nullable, count: CountQuery -> Reply<int>, username: string, password: string,
                         salt: nat, outcome: Outcome): (r: Response<UserRequest>)
    ensures current.None? ==> r == ToLogin()
    ensures current.Some? && !MayManage(current, count) ==> r == Denied(AccessDenied)
    ensures MayManage(current, count) ==>
              r.Response? && r.target == "redirect:/users/" + username
              && r.call == Some(SaveCredential(AppLoginUser(Upper(username), Encode(password, salt))))
    ensures MayManage(current, count) ==>
              if outcome.Threw? then r.flash == Failure("Failed to add user to APP_LOGIN_USER: " + outcome.message)
              else r.flash == Success("User " + username + AddedNotice + password)
  {
    if current.None? then ToLogin()
    else if !HasPrivilege(current.value, "CREATE USER", count) then Denied(AccessDenied)
    else Response("redirect:/users/" + username,
                  Reported(outcome, "User " + username + AddedNotice + password, "Failed to add user to APP_LOGIN_USER: "),
                  Some(SaveCredential(AppLoginUser(Upper(username), Encode(password, salt)))))
  }

  // ---------------------------------------------------------------------------
  // Facts about the handlers
  // ---------------------------------------------------------------------------

  /**
   * When the second run of the count queries answers as the first did, the create form's second
   * CREATE USER check cannot fail and the form opens exactly for a holder of CREATE USER.
   */
  lemma CreateFormSecondCheckAgrees(current: Nullable, count: CountQuery -> Reply<int>)
    ensures CreateUserForm(current, count, count) != Denied(NoPrivilege)
    ensures current.Some? ==> (CreateUserForm(current, count, count) == Response("users/create", NoFlash, None) <==> MayManage(current, count))
  {
  }

  /**
   * When the second run of the direct count fails (the check's catch answers false), a user the
   * first check admitted is sent away with no_privilege.
   */
  lemma CreateFormSecondCheckFails(current: Nullable, count: CountQuery -> Reply<int>, recount: CountQuery -> Reply<int>)
    requires MayManage(current, count)
    requires recount(DirectCount(Upper(current.value), "CREATE USER")).Failed?
    ensures CreateUserForm(current, count, recount) == Denied(NoPrivilege)
  {
  }

  /** The classifier's markers are tried in order: "already exists in Oracle" wins over every other marker. */
  lemma OracleDuplicateWins(message: string, username: Nullable)
    requires Contains(message, "ORA-01920")
    ensures CreateErrorText(message, username) == "User '" + Show(username) + "' already exists in Oracle"
  {
  }

  /** An application duplicate is reported as such even when the message also reports missing privileges. */
  lemma ApplicationDuplicateBeforePrivileges(message: string, username: Nullable)
    requires !Contains(message, "ORA-01920")
    requires Contains(message, "ORA-00001") || Contains(message, "unique constraint")
    ensures CreateErrorText(message, username) == "User '" + Show(username) + "' already exists in application database"
  {
  }

  /** Missing privileges are reported before a missing tablespace. */
  lemma PrivilegesBeforeTablespace(message: string, username: Nullable)
    requires !Contains(message, "ORA-01920") && !Contains(message, "ORA-00001") && !Contains(message, "unique constraint")
    requires Contains(message, "ORA-01031")
    ensures CreateErrorText(message, username) == "Insufficient privileges to create user"
  {
  }

  /** A missing tablespace is reported when it is the only marker. */
  lemma TablespaceReported(message: string, username: Nullable)
    requires !Contains(message, "ORA-01920") && !Contains(message, "ORA-00001") && !Contains(message, "unique constraint")
    requires !Contains(message, "ORA-01031") && Contains(message, "ORA-00959")
    ensures CreateErrorText(message, username) == "Tablespace does not exist"
  {
  }

  /** A message carrying none of the four markers is shown as it is. */
  lemma UnknownErrorKept(message: string, username: Nullable)
    requires !Contains(message, "ORA-01920") && !Contains(message, "ORA-00001") && !Contains(message, "unique constraint")
    requires !Contains(message, "ORA-01031") && !Contains(message, "ORA-00959")
    ensures CreateErrorText(message, username) == message
  {
  }

  /**
   * The service's refusal of a name Oracle already knows reaches the user as "already exists in
   * Oracle", with the name as typed in the form.
   */
  lemma ServiceRefusalShown(current: string, count: CountQuery -> Reply<int>, username: string, password: Nullable,
                            defaultTablespace: Nullable, temporaryTablespace: Nullable, quota: Nullable)
    requires HasPrivilege(current, "CREATE USER", count)
    ensures var refusal := Threw("ORA-01920: user '" + Upper(username) + "' already exists in Oracle");
            CreateUser(Some(current), count, Some(username), password, defaultTablespace, temporaryTablespace, quota, refusal).flash
            == Failure("Failed to create user: " + ("User '" + username + "' already exists in Oracle"))
  {
    var head := "ORA-01920: user '";
    var message := head + Upper(username) + "' already exists in Oracle";
    assert head[..9] == "ORA-01920";
    assert message[..9] == head[..9];
    assert OccursAt(message, "ORA-01920", 0);
    assert CreateErrorText(message, Some(username)) == "User '" + username + "' already exists in Oracle";
  }
}
