/**
 * ProfileController (/profiles): creating needs CREATE PROFILE, editing ALTER PROFILE and
 * deleting DROP PROFILE; the handlers forward the form's limits to the service and every POST
 * returns to the profile list.
 */
module ProfileController {
  import opened Wrappers
  import opened Text
  import opened Database
  import opened PrivilegeRepository
  import opened Web

  /** The service calls the handlers issue, with the arguments they pass. */
  datatype ProfileRequest =
    | CreateProfileCall(formName: Nullable, sessionsPerUser: Nullable, connectTime: Nullable, idleTime: Nullable)
    | UpdateProfileCall(name: string, sessionsPerUser: Nullable, connectTime: Nullable, idleTime: Nullable)
    | DeleteProfileCall(name: string)

  const NoPrivilege := "redirect:/profiles?error=no_privilege"
  const BackToList := "redirect:/profiles"

  /** Logged in and holding `privilege`. */
  predicate May(current: Nullable, privilege: string, count: CountQuery -> Reply<int>) {
    current.Some? && HasPrivilege(current.value, privilege, count)
  }

  /** GET /profiles/create. */
  function CreateProfileForm(current: Nullable, count: CountQuery -> Reply<int>): (r: Response<ProfileRequest>)
    ensures current.None? ==> r == ToLogin()
    ensures current.Some? ==> (r == Denied(NoPrivilege) <==> !May(current, "CREATE PROFILE", count))
    ensures r == Response("profiles/create", NoFlash, None) <==> May(current, "CREATE PROFILE", count)
  {
    if current.None? then ToLogin()
    else if !HasPrivilege(current.value, "CREATE PROFILE", count) then Denied(NoPrivilege)
    else Response("profiles/create", NoFlash, None)
  }

  /** POST /profiles/create: the form's name and three limits go to the service. */
  function CreateProfile(current: Nullable, count: CountQuery -> Reply<int>, profileName: Nullable, sessionsPerUser: Nullable,
                         connectTime: Nullable, idleTime: Nullable, outcome: Outcome): (r: Response<ProfileRequest>)
    ensures current.None? ==> r == ToLogin()
    ensures current.Some? && !May(current, "CREATE PROFILE", count) ==> r == Denied(NoPrivilege)
    ensures May(current, "CREATE PROFILE", count) ==>
              r.Response? && r.target == BackToList
              && r.call == Some(CreateProfileCall(profileName, sessionsPerUser, connectTime, idleTime))
    ensures May(current, "CREATE PROFILE", count) ==>
              if outcome.Threw? then r.flash == Failure("Failed to create profile: " + outcome.message)
              else r.flash == Success("Profile created successfully")
  {
    if current.None? then ToLogin()
    else if !HasPrivilege(current.value, "CREATE PROFILE", count) then Denied(NoPrivilege)
    else Response(BackToList, Reported(outcome, "Profile created successfully", "Failed to create profile: "),
                  Some(CreateProfileCall(profileName, sessionsPerUser, connectTime, idleTime)))
  }

  /**
   * GET /profiles/{profileName}/edit. `read` is how profileService.getProfile ended (it throws
   * when ProfileRepository.ProfileCall raises); nothing here catches its exception.
   */
  function EditProfileForm(current: Nullable, count: CountQuery -> Reply<int>, read: Outcome): (r: Response<ProfileRequest>)
    ensures current.None? ==> r == ToLogin()
    ensures current.Some? ==> (r == Denied(NoPrivilege) <==> !May(current, "ALTER PROFILE", count))
    ensures May(current, "ALTER PROFILE", count) && read.Threw? ==> r == Unhandled(read.message)
    ensures r == Response("profiles/edit", NoFlash, None) <==> May(current, "ALTER PROFILE", count) && read.Completed?
  {
    if current.None? then ToLogin()
    else if !HasPrivilege(current.value, "ALTER PROFILE", count) then Denied(NoPrivilege)
    else match read
      case Completed => Response("profiles/edit", NoFlash, None)
      case Threw(message) => Unhandled(message)
  }

  /**
   * POST /profiles/{profileName}/edit: the name comes from the path; the form's own profile name
   * (`formName`) is bound but never read.
   */
  function UpdateProfile(current: Nullable, count: CountQuery -> Reply<int>, profileName: string, formName: Nullable,
                         sessionsPerUser: Nullable, connectTime: Nullable, idleTime: Nullable, outcome: Outcome)
    : (r: Response<ProfileRequest>)
    ensures current.None? ==> r == ToLogin()
    ensures current.Some? && !May(current, "ALTER PROFILE", count) ==> r == Denied(NoPrivilege)
    ensures May(current, "ALTER PROFILE", count) ==>
              r.Response? && r.target == BackToList
              && r.call == Some(UpdateProfileCall(profileName, sessionsPerUser, connectTime, idleTime))
    ensures May(current, "ALTER PROFILE", count) ==>
              if outcome.Threw? then r.flash == Failure("Failed to update profile: " + outcome.message)
              else r.flash == Success("Profile updated successfully")
  {
    if current.None? then ToLogin()
    else if !HasPrivilege(current.value, "ALTER PROFILE", count) then Denied(NoPrivilege)
    else Response(BackToList, Reported(outcome, "Profile updated successfully", "Failed to update profile: "),
                  Some(UpdateProfileCall(profileName, sessionsPerUser, connectTime, idleTime)))
  }

  /** POST /profiles/{profileName}/delete. */
  function DeleteProfile(current: Nullable, count: CountQuery -> Reply<int>, profileName: string, outcome: Outcome)
    : (r: Response<ProfileRequest>)
    ensures current.None? ==> r == ToLogin()
    ensures current.Some? && !May(current, "DROP PROFILE", count) ==> r == Denied(NoPrivilege)
    ensures May(current, "DROP PROFILE", count) ==>
              r.Response? && r.target == BackToList && r.call == Some(DeleteProfileCall(profileName))
    ensures May(current, "DROP PROFILE", count) && outcome.Threw? ==> r.flash == Failure("Failed to delete profile: " + outcome.message)
  {
    if current.None? then ToLogin()
    else if !HasPrivilege(current.value, "DROP PROFILE", count) then Denied(NoPrivilege)
    else Response(BackToList, Reported(outcome, "Profile deleted successfully", "Failed to delete profile: "),
                  Some(DeleteProfileCall(profileName)))
  }

  /** The update's result does not depend on the profile name typed in the form. */
  lemma UpdateIgnoresFormName(current: Nullable, count: CountQuery -> Reply<int>, profileName: string, formName: Nullable,
                              otherName: Nullable, sessionsPerUser: Nullable, connectTime: Nullable, idleTime: Nullable,
                              outcome: Outcome)
    ensures UpdateProfile(current, count, profileName, formName, sessionsPerUser, connectTime, idleTime, outcome)
            == UpdateProfile(current, count, profileName, otherName, sessionsPerUser, connectTime, idleTime, outcome)
  {
  }

  /** A failed service call becomes an error flash with the exception's message, and the list page. */
  lemma FailureReported(current: string, count: CountQuery -> Reply<int>, profileName: string, message: string)
    requires HasPrivilege(current, "DROP PROFILE", count)
    ensures DeleteProfile(Some(current), count, profileName, Threw(message))
            == Response(BackToList, Failure("Failed to delete profile: " + message), Some(DeleteProfileCall(profileName)))
  {
  }
}
