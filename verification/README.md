# Oracle security admin console — a Dafny model

This project models the core of a Spring web console for Oracle security administration. The console
keeps its own login table, APP_LOGIN_USER (a user name and a BCrypt hash). It enrols an Oracle
account in that table on first login ("auto-sync") and seeds the SEC_ADMIN account at start-up. Page
access depends on Oracle system privileges, which it reads from DBA_SYS_PRIVS and DBA_ROLE_PRIVS. It
then issues CREATE/ALTER/DROP USER, ROLE and PROFILE statements, and GRANT/REVOKE statements,
through a privileged JDBC connection.

How it is modelled:

- Every query is an input. It answers with its rows, or with a failure that carries the rows a row
  callback had already received (`Database.Reply`). Whether Oracle accepts a statement is also an
  input: `AdminConnection.verdict` is a function of the statements sent before it and of its text.
- The privileged connection (`Database.AdminConnection`) and the credential table
  (`AppLoginUsers.AppLoginUserRepository`) are classes whose methods change their fields. The
  connection keeps a log of the statement texts it sent. The HTTP session
  (`AuthenticationService.Session`) is a class holding the session's "username" attribute.
- Statements form a small syntax tree (`Ddl.Statement`), and `Ddl.Sql` gives the text each one is sent
  as. The StringBuilder code is modelled by methods that append one guarded clause at a time, and each
  is proved to produce the text of the statement.
- Controller handlers are functions. Their inputs are the session user, the privilege-count query,
  the form fields and the outcome of the service call. Each returns the redirect or view, the flash
  message, and the service call it issued (`Web.Response`).
- Strings are sequences of characters. `toUpperCase`, `trim` and `equalsIgnoreCase` are modelled on
  ASCII (`Text`).

## Model

| member | source | states |
|---|---|---|
| AppLoginUsers.AppLoginUserRepository.FindByUsername | src/main/java/com/example/demo/repository/AppLoginUserRepository.java:21-67 | the scan loop returns exactly `Lookup`: nothing for a null or empty name or a failing exact query; else the record stored under the upper-cased, trimmed key; else the record of the first stored name equal to the key ignoring case; else nothing |
| AppLoginUsers.AppLoginUserRepository.Save | src/main/java/com/example/demo/repository/AppLoginUserRepository.java:69-84 | on success exactly one record is appended, under the upper-cased (not trimmed) name; on a connection failure or a key clash the table is unchanged and the exception is rethrown; the primary-key invariant is kept |
| AppLoginUsers.AppLoginUserRepository.UpdatePassword | src/main/java/com/example/demo/repository/AppLoginUserRepository.java:86-94 | only the hash of the record keyed by the upper-cased name changes; a failure leaves the table unchanged |
| AppLoginUsers.AppLoginUserRepository.Delete | src/main/java/com/example/demo/repository/AppLoginUserRepository.java:96-103 | the record keyed by the upper-cased name is removed and nothing else; a failure leaves the table unchanged |
| AppLoginUsers.RecordOf | src/main/java/com/example/demo/repository/AppLoginUserRepository.java:35-39 | the exact-key query finds a stored record with exactly that name, and finds nothing only when no record has it |
| AppLoginUsers.FirstIgnoringCase | src/main/java/com/example/demo/repository/AppLoginUserRepository.java:41-56 | the scan returns a stored name equal to the key ignoring case, and returns none only when no stored name is |
| AppLoginUsers.FirstIgnoringCaseIsFirst | src/main/java/com/example/demo/repository/AppLoginUserRepository.java:41-56 | the name the scan returns is the first in scan order that equals the key ignoring case: no earlier name does |
| AppLoginUsers.InsertError | src/main/java/com/example/demo/repository/AppLoginUserRepository.java:69-84 | Oracle accepts the insert exactly when the key is non-empty and not yet stored |
| AppLoginUsers.Rehashed | src/main/java/com/example/demo/repository/AppLoginUserRepository.java:86-94 | the UPDATE keeps every name and changes only the hash of the rows keyed by the name |
| AppLoginUsers.Without | src/main/java/com/example/demo/repository/AppLoginUserRepository.java:96-103 | the DELETE keeps exactly the records under other names |
| AppLoginUsers.LookupWithoutName | src/main/java/com/example/demo/repository/AppLoginUserRepository.java:21-24 | a null or empty name, or a failing first query, finds nothing |
| AppLoginUsers.LookupFindsExact | src/main/java/com/example/demo/repository/AppLoginUserRepository.java:27-39 | a record stored exactly under the key is the one returned |
| AppLoginUsers.LookupSound | src/main/java/com/example/demo/repository/AppLoginUserRepository.java:21-67 | whatever the lookup returns is a stored record whose name equals the key ignoring case |
| AppLoginUsers.LookupComplete | src/main/java/com/example/demo/repository/AppLoginUserRepository.java:41-60 | without a failing query, any stored name equal to the key ignoring case is found |
| AppLoginUsers.LookupByKey | src/main/java/com/example/demo/repository/AppLoginUserRepository.java:27 | two names with the same key (same letters up to case and surrounding blanks) find the same record |
| AppLoginUsers.SavedRecordIsFound | src/main/java/com/example/demo/repository/AppLoginUserRepository.java:21-84 | a record saved under a normalised name is found afterwards by every spelling with that key (save/find round trip) |
| AppLoginUsers.RehashedKeepsKeyed | src/main/java/com/example/demo/repository/AppLoginUserRepository.java:86-94 | updating a hash keeps the table keyed and leaves every other name's record as it was |
| AppLoginUsers.WithoutRemovesOnlyKey | src/main/java/com/example/demo/repository/AppLoginUserRepository.java:96-103 | after a delete the key finds nothing and every other name finds what it found before |
| AppLoginUsers.WithoutKeepsKeyed | src/main/java/com/example/demo/repository/AppLoginUserRepository.java:96-103 | deleting keeps the table's primary-key constraints |
| AppLoginUsers.RecordOfUnique | src/main/java/com/example/demo/repository/AppLoginUserRepository.java:35-39 | in a keyed table a stored record is the exact-key query's answer for its own name |
| AuthInterceptor.PreHandle | src/main/java/com/example/demo/config/AuthInterceptor.java:18-40 | a request proceeds exactly when its path is on the allow-list or the session is logged in; otherwise it is redirected to /login |
| AuthInterceptor.LoginPrefixPasses | src/main/java/com/example/demo/config/AuthInterceptor.java:24 | the allow-list matches by prefix: every path starting with "/login" passes, "/loginX" included |
| AuthInterceptor.StaticResourcesPass | src/main/java/com/example/demo/config/AuthInterceptor.java:25-27 | files under /css/, /js/ and /images/ pass without a session |
| AuthInterceptor.FolderWithoutSlashIsGated | src/main/java/com/example/demo/config/AuthInterceptor.java:24-29 | "/css" without its trailing slash is not public and is redirected when logged out |
| AuthInterceptor.LoggedOutIsRedirected | src/main/java/com/example/demo/config/AuthInterceptor.java:33-36 | after logout every path outside the allow-list is redirected |
| AuthInterceptor.SessionOnlyMattersOffTheList | src/main/java/com/example/demo/config/AuthInterceptor.java:24-39 | a logged-in session passes everywhere, and on a public path the session makes no difference |
| AuthenticationService.Logout | src/main/java/com/example/demo/service/AuthenticationService.java:85-87 | after logout the session is not logged in and has no current user |
| AuthenticationService.CurrentUser | src/main/java/com/example/demo/service/AuthenticationService.java:89-91 | the current user is the session's "username" attribute, null when it is unset |
| AuthenticationService.IsLoggedIn | src/main/java/com/example/demo/service/AuthenticationService.java:97-99 | a session is logged in exactly when it has a current user |
| AuthenticationService.Resolve | src/main/java/com/example/demo/service/AuthenticationService.java:42-69 | the lookup with its auto-sync either leaves the table as it was or appends exactly the enrolled record (upper-cased name, hash of the given password), which is then the record returned |
| AuthenticationService.FindOrEnrol | src/main/java/com/example/demo/service/AuthenticationService.java:42-69 | the lookup and auto-sync steps on the store return exactly `Resolve`'s record and leave exactly its table, keeping the primary-key invariant |
| AuthenticationService.Login | src/main/java/com/example/demo/service/AuthenticationService.java:33-83 | the login method's effect on the credential table and the session is exactly `LoginSpec`; the session is set only on success |
| AuthenticationService.ResolveSound | src/main/java/com/example/demo/service/AuthenticationService.java:42-69 | the record login checks the password against, found or enrolled, is in the table afterwards and its name equals the trimmed name's key ignoring case |
| AuthenticationService.EnrolledUnderKey | src/main/java/com/example/demo/service/AuthenticationService.java:56-57 | a record enrolled under the trimmed name upper-cased is stored unchanged by save and matches the name's lookup key |
| AuthenticationService.LoginRejectsMissingInput | src/main/java/com/example/demo/service/AuthenticationService.java:34-36 | a null or empty name or password fails and changes nothing |
| AuthenticationService.LoginSessionName | src/main/java/com/example/demo/service/AuthenticationService.java:39-80 | on success the session holds the given name trimmed and upper-cased |
| AuthenticationService.LoginWrongPassword | src/main/java/com/example/demo/service/AuthenticationService.java:72-75 | a found record whose hash does not verify the password fails the login and changes nothing |
| AuthenticationService.LoginWithRecord | src/main/java/com/example/demo/service/AuthenticationService.java:39-82 | a found record whose hash verifies the password logs in without changing the table |
| AuthenticationService.LoginAutoSync | src/main/java/com/example/demo/service/AuthenticationService.java:45-68 | with no record, a user the catalog knows is enrolled under the trimmed, upper-cased name with a hash of the given password, and the same login succeeds |
| AuthenticationService.LoginWithoutRecordFails | src/main/java/com/example/demo/service/AuthenticationService.java:45-70 | with no record, an unknown user or a failing enrolment fails and changes nothing |
| AuthenticationService.LoginSound | src/main/java/com/example/demo/service/AuthenticationService.java:33-83 | a login succeeds only through a stored record matching the name ignoring case whose hash verifies the password; the table either stays as it was or gains exactly the enrolled record |
| AuthenticationService.AutoSyncedUserLogsInAgain | src/main/java/com/example/demo/service/AuthenticationService.java:39-75 | after an auto-sync enrolment the next login with the same name and password finds the new record and succeeds without changing the table |
| AuthenticationService.HasAdminCapabilitiesFromCatalog | src/main/java/com/example/demo/service/AuthenticationService.java:114-126 | against a catalog the count queries report, the header's admin flag holds exactly when the trimmed user holds CREATE USER, ALTER USER, CREATE ROLE or CREATE PROFILE, directly or through a role |
| AuthenticationService.HasAdminCapabilities | src/main/java/com/example/demo/service/AuthenticationService.java:114-126 | false for a null user; true only when the trimmed user holds one of CREATE USER, ALTER USER, CREATE ROLE and CREATE PROFILE |
| PasswordHash.EncodeThenMatches | src/main/java/com/example/demo/service/AuthenticationService.java:105-107 | a fresh hash verifies the password it was made from, and no other |
| InitializationService.Run | src/main/java/com/example/demo/service/InitializationService.java:28-68 | start-up changes the credential table exactly as `Seeded` says, swallowing every failure and keeping the table's invariant |
| InitializationService.SecAdminIsNormalised | src/main/java/com/example/demo/service/InitializationService.java:31-42 | "SEC_ADMIN" is already in the form the lookup and save normalise to |
| InitializationService.SeedAddsAtMostOne | src/main/java/com/example/demo/service/InitializationService.java:31-43 | the seed adds at most one record, SEC_ADMIN's, and only when none is stored under that name |
| InitializationService.SeedKeepsExisting | src/main/java/com/example/demo/service/InitializationService.java:31-58 | an existing SEC_ADMIN record is never overwritten, even when the lookup fails |
| InitializationService.SeedTwice | src/main/java/com/example/demo/service/InitializationService.java:28-68 | a seed on a working connection is idempotent: running it again changes nothing |
| InitializationService.SeedLeavesRecord | src/main/java/com/example/demo/service/InitializationService.java:31-46 | when the lookup finds nothing, SEC_ADMIN has a record after a seed on a working connection |
| InitializationService.RejectedSeedHasRecord | src/main/java/com/example/demo/service/InitializationService.java:42-43 | Oracle rejects the seed's insert only when SEC_ADMIN's record is already there |
| InitializationService.AcceptedSeedHasRecord | src/main/java/com/example/demo/service/InitializationService.java:31-46 | an accepted seed appends exactly SEC_ADMIN's record, which the exact-key query then finds |
| InitializationService.NoAdminSpelling | src/main/java/com/example/demo/service/InitializationService.java:31-33 | with no credential spelled SEC_ADMIN in any case, the lookup finds nothing |
| InitializationService.SeededAdminIsFound | src/main/java/com/example/demo/service/InitializationService.java:31-55 | on a table without SEC_ADMIN the seed adds its record, every spelling that normalises to SEC_ADMIN finds it, and "admin123" verifies against it |
| PrivilegeRepository.GetAllPrivileges | src/main/java/com/example/demo/repository/PrivilegeRepository.java:19-85 | one DIRECT entry per system grant, in order, then one OBJECT entry per object grant; a failing first query gives nothing and a failing second query keeps the system grants |
| PrivilegeRepository.HasPrivilege | src/main/java/com/example/demo/repository/PrivilegeRepository.java:87-137 | a failing direct count denies; a positive direct count grants; when the role count fails only the direct count decides |
| PrivilegeRepository.HasPrivilegeFromCatalog | src/main/java/com/example/demo/repository/PrivilegeRepository.java:87-137 | against a catalog the count queries report, the check holds exactly for a direct grant to the upper-cased user, or a grant to a role the user holds directly |
| PrivilegeRepository.NestedRolesNotFollowed | src/main/java/com/example/demo/repository/PrivilegeRepository.java:110-128 | roles granted to roles are not followed: a privilege reachable only through a nested role is reported missing |
| PrivilegeRepository.GrantSystemPrivilege | src/main/java/com/example/demo/repository/PrivilegeRepository.java:139-145 | sends one GRANT of the privilege as given to the upper-cased grantee, with WITH ADMIN OPTION exactly on request |
| PrivilegeRepository.RevokeSystemPrivilege | src/main/java/com/example/demo/repository/PrivilegeRepository.java:147-149 | sends one REVOKE ... FROM the upper-cased grantee |
| PrivilegeRepository.GrantRole | src/main/java/com/example/demo/repository/PrivilegeRepository.java:151-157 | sends one GRANT of the upper-cased role to the upper-cased grantee, with the admin option on request |
| PrivilegeRepository.RevokeRole | src/main/java/com/example/demo/repository/PrivilegeRepository.java:159-161 | sends one REVOKE of the upper-cased role FROM the upper-cased grantee |
| PrivilegeRepository.GrantObjectPrivilege | src/main/java/com/example/demo/repository/PrivilegeRepository.java:163-169 | sends one GRANT ... ON the table as given TO the upper-cased grantee, with WITH GRANT OPTION on request |
| PrivilegeRepository.RevokeObjectPrivilege | src/main/java/com/example/demo/repository/PrivilegeRepository.java:171-173 | sends one REVOKE ... ON the table FROM the upper-cased grantee |
| PrivilegeRepository.GrantColumnPrivilege | src/main/java/com/example/demo/repository/PrivilegeRepository.java:175-177 | sends one column GRANT, the column in parentheses before ON, never with an option clause |
| Ddl.GrantOptionText | src/main/java/com/example/demo/repository/PrivilegeRepository.java:139-157 | the admin option only appends " WITH ADMIN OPTION" to the plain grant text |
| Ddl.GrantOnObjectOptionText | src/main/java/com/example/demo/repository/PrivilegeRepository.java:163-169 | the grant option only appends " WITH GRANT OPTION" to the plain object grant text |
| Ddl.GranteeTextInjectsOption | src/main/java/com/example/demo/repository/PrivilegeRepository.java:139-145 | values are spliced in unquoted: two different grants (without the admin option to "BOB WITH ADMIN OPTION", and with it to BOB) are sent as the same text |
| Ddl.AppendClause | src/main/java/com/example/demo/repository/UserRepository.java:282-294 | one guarded StringBuilder step appends the clause's text exactly when it is present |
| Ddl.AppendIfOrdered | src/main/java/com/example/demo/repository/UserRepository.java:302-322 | appending a clause after the clauses that rank before it keeps the fixed clause order and adds only that clause |
| Ddl.AppendLimit | src/main/java/com/example/demo/repository/ProfileRepository.java:79-87 | one guarded step of a profile statement appends the limit's text exactly when it is present |
| ProfileRepository.LastLimit | src/main/java/com/example/demo/repository/ProfileRepository.java:50-59 | a limit is taken only from a row naming that resource, and is null when no row names it |
| ProfileRepository.GetProfile | src/main/java/com/example/demo/repository/ProfileRepository.java:38-62 | the row-callback loop builds exactly `ProfileCall`: the assembled profile, or an exception when either query fails |
| ProfileRepository.GetAllProfiles | src/main/java/com/example/demo/repository/ProfileRepository.java:19-36 | one profile per returned name, in order, each the one getProfile gives; any failing query ends the listing with an exception |
| ProfileRepository.LastLimitIsLast | src/main/java/com/example/demo/repository/ProfileRepository.java:50-59 | when rows repeat a resource, the last one wins |
| ProfileRepository.LastLimitSkips | src/main/java/com/example/demo/repository/ProfileRepository.java:50-59 | a row for another resource leaves a limit unchanged, wherever it comes |
| ProfileRepository.UnknownLimitRowIgnored | src/main/java/com/example/demo/repository/ProfileRepository.java:50-59 | rows for resources other than the three managed ones change nothing |
| ProfileRepository.GetProfileFields | src/main/java/com/example/demo/repository/ProfileRepository.java:38-73 | getProfile returns exactly when both queries succeed; the profile carries the requested name, the users query's list, and a limit only where a row names it |
| ProfileRepository.ProfileLimitsSpec | src/main/java/com/example/demo/repository/ProfileRepository.java:75-107 | profile statements carry SESSIONS_PER_USER, CONNECT_TIME and IDLE_TIME in that order, each exactly when its value is given |
| ProfileRepository.NoLimitsGiven | src/main/java/com/example/demo/repository/ProfileRepository.java:75-107 | with no limit given, the statement ends right after "LIMIT " |
| ProfileRepository.AppendProfileLimits | src/main/java/com/example/demo/repository/ProfileRepository.java:77-104 | the shared StringBuilder steps produce the text of the ordered limit list |
| ProfileRepository.CreateProfile | src/main/java/com/example/demo/repository/ProfileRepository.java:75-90 | sends exactly one CREATE PROFILE statement, the name as given |
| ProfileRepository.AlterProfile | src/main/java/com/example/demo/repository/ProfileRepository.java:92-107 | sends exactly one ALTER PROFILE statement, the name as given |
| ProfileRepository.DropProfile | src/main/java/com/example/demo/repository/ProfileRepository.java:109-111 | sends exactly one DROP PROFILE ... CASCADE |
| RoleRepository.HasPassword | src/main/java/com/example/demo/repository/RoleRepository.java:45-53 | the password flag is set exactly when the first value returned is "YES"; a failure answers false |
| RoleRepository.RoleCall | src/main/java/com/example/demo/repository/RoleRepository.java:37-84 | getRole returns exactly when both list queries succeed, with the name as given, the password flag, the role's privileges and grantees, and no password |
| RoleRepository.GetAllRoles | src/main/java/com/example/demo/repository/RoleRepository.java:19-35 | one role per returned name, in order, each the one getRole gives; a failing query ends the listing with an exception |
| RoleRepository.NoPasswordWithoutAnswer | src/main/java/com/example/demo/repository/RoleRepository.java:45-53 | a failed or empty PASSWORD_REQUIRED query gives no password flag |
| RoleRepository.GivenPassword | src/main/java/com/example/demo/repository/RoleRepository.java:86-92 | a password is written exactly when it is non-null and non-empty |
| RoleRepository.CreateRole | src/main/java/com/example/demo/repository/RoleRepository.java:86-92 | sends one CREATE ROLE, with IDENTIFIED BY only for a given password |
| RoleRepository.AlterRolePassword | src/main/java/com/example/demo/repository/RoleRepository.java:94-96 | sends one ALTER ROLE ... IDENTIFIED BY, a null password written as "null" |
| RoleRepository.DropRole | src/main/java/com/example/demo/repository/RoleRepository.java:98-100 | sends one DROP ROLE, the name as given |
| RoleRepository.CreateRoleText | src/main/java/com/example/demo/repository/RoleRepository.java:86-92 | the CREATE ROLE text names the role as given and carries the password exactly when one is given |
| UserRepository.MapUser | src/main/java/com/example/demo/repository/UserRepository.java:352-378 | the row mapper copies the seven catalog columns and leaves every other field null |
| UserRepository.GetUserInfo | src/main/java/com/example/demo/repository/UserRepository.java:30-89 | a catalog row for the upper-cased name is the answer; without one, an answer is the session user matching the name ignoring case, with status OPEN |
| UserRepository.GetUserQuota | src/main/java/com/example/demo/repository/UserRepository.java:150-172 | the first quota Oracle reports for the upper-cased name, "0M" when it reports none or the query fails |
| UserRepository.GetUserRoles | src/main/java/com/example/demo/repository/UserRepository.java:174-183 | the roles granted to the upper-cased name, with a failure of the query passed to the caller |
| UserRepository.GetUserProfile | src/main/java/com/example/demo/repository/UserRepository.java:242-270 | the first profile row for the upper-cased name, null when there is none or the query fails |
| UserRepository.GetAllUsers | src/main/java/com/example/demo/repository/UserRepository.java:91-147 | one mapped user per catalog row, in order; a failing query gives the empty list |
| UserRepository.GetUserPrivileges | src/main/java/com/example/demo/repository/UserRepository.java:185-239 | the two row-callback loops build the listing for the upper-cased user: direct grants first, then grants through roles; a failure keeps what was already added |
| UserRepository.ListsPrivilegesUnique | src/main/java/com/example/demo/repository/UserRepository.java:185-239 | the listing is determined by the replies |
| UserRepository.GetUserInfoIgnoresCase | src/main/java/com/example/demo/repository/UserRepository.java:30-88 | getUserInfo depends on the requested name only up to case |
| UserRepository.GetUserInfoIsRequested | src/main/java/com/example/demo/repository/UserRepository.java:30-88 | the user returned is the first catalog row for the upper-cased name or, failing that, the session user, which matches the name ignoring case and has status OPEN |
| UserRepository.GetUserInfoNull | src/main/java/com/example/demo/repository/UserRepository.java:30-88 | getUserInfo returns null exactly when no row is found and the session user is not the requested one |
| UserRepository.GetUserQuotaDefault | src/main/java/com/example/demo/repository/UserRepository.java:150-171 | the quota is Oracle's first answer when it gives one, and "0M" otherwise, failures included |
| UserRepository.CreateUserStatement | src/main/java/com/example/demo/repository/UserRepository.java:276-294 | CREATE USER names the upper-cased user with the password as given |
| UserRepository.CreateUserClausesSpec | src/main/java/com/example/demo/repository/UserRepository.java:282-294 | CREATE USER carries DEFAULT TABLESPACE only when given, always TEMPORARY TABLESPACE (TEMP by default), and QUOTA only when given, on the default-tablespace argument, in that order |
| UserRepository.QuotaWithoutDefaultTablespace | src/main/java/com/example/demo/repository/UserRepository.java:282-294 | a quota without a default tablespace is placed "ON null", with no DEFAULT TABLESPACE clause |
| UserRepository.CreateUserMinimal | src/main/java/com/example/demo/repository/UserRepository.java:276-296 | with no optional argument, CREATE USER carries only TEMPORARY TABLESPACE TEMP |
| UserRepository.BuildCreateUser | src/main/java/com/example/demo/repository/UserRepository.java:276-296 | the StringBuilder produces exactly the CREATE USER text |
| UserRepository.CreateUser | src/main/java/com/example/demo/repository/UserRepository.java:276-300 | sends CREATE USER, then GRANT CREATE SESSION to the upper-cased user only when CREATE did not throw |
| UserRepository.AlterUserStatement | src/main/java/com/example/demo/repository/UserRepository.java:302-322 | ALTER USER names the upper-cased user |
| UserRepository.AlterUserClausesOrdered | src/main/java/com/example/demo/repository/UserRepository.java:302-322 | ALTER USER's clauses follow the order IDENTIFIED BY, DEFAULT, TEMPORARY, QUOTA, PROFILE |
| UserRepository.AccountClausesOrdered | src/main/java/com/example/demo/repository/UserRepository.java:304-314 | the password and tablespace clauses are in order and rank before QUOTA |
| UserRepository.AlterUserClausesPresent | src/main/java/com/example/demo/repository/UserRepository.java:302-322 | ALTER USER carries each of its five clauses exactly when the argument is given, QUOTA on the default-tablespace argument |
| UserRepository.AlterUserMinimal | src/main/java/com/example/demo/repository/UserRepository.java:302-322 | with no optional argument, ALTER USER is the bare prefix |
| UserRepository.BuildAlterUser | src/main/java/com/example/demo/repository/UserRepository.java:302-320 | the StringBuilder produces exactly the ALTER USER text |
| UserRepository.AppendAccountClauses | src/main/java/com/example/demo/repository/UserRepository.java:304-314 | the first three StringBuilder steps produce the text of the account clauses |
| UserRepository.AlterUser | src/main/java/com/example/demo/repository/UserRepository.java:302-322 | sends exactly one ALTER USER statement |
| UserRepository.LockUser | src/main/java/com/example/demo/repository/UserRepository.java:329-336 | sends ALTER USER ... ACCOUNT LOCK for the upper-cased user |
| UserRepository.UnlockUser | src/main/java/com/example/demo/repository/UserRepository.java:338-344 | sends ALTER USER ... ACCOUNT UNLOCK for the upper-cased user |
| UserRepository.DropUser | src/main/java/com/example/demo/repository/UserRepository.java:346-348 | sends DROP USER ... CASCADE for the upper-cased user |
| UserService.UserRoles | src/main/java/com/example/demo/service/UserService.java:211-218 | the roles the repository reads, or none when its query fails |
| UserService.PopulateUserDetails | src/main/java/com/example/demo/service/UserService.java:89-133 | each read fills its own field with its default on failure, and every other field is kept (`Populates`) |
| UserService.PopulatesUnique | src/main/java/com/example/demo/service/UserService.java:89-133 | the populated user is determined by the user and the replies |
| UserService.QuotaFailureGivesZero | src/main/java/com/example/demo/service/UserService.java:92-99 | a user with a default tablespace always gets a quota, "0M" when the read fails: the "N/A" default is unreachable |
| UserService.GetUser | src/main/java/com/example/demo/service/UserService.java:77-87 | "User not found: <name>" exactly when getUserInfo finds nothing, else the populated user |
| UserService.GetAllUsers | src/main/java/com/example/demo/service/UserService.java:39-71 | as written: every user of the repository's list, populated in order; a failed catalog query gives the empty list |
| UserService.OwnRecordLost | src/main/java/com/example/demo/service/UserService.java:44-57 | for any failing catalog query and a caller getUserInfo resolves, the repository hands back no user, while the listing with the fallback would hold the caller's own record |
| UserService.AllUsersCall | src/main/java/com/example/demo/repository/UserRepository.java:91-142 | the catalog read without its catch: it returns exactly when the query succeeds, with the mapped users |
| UserService.GetAllUsersWithFallback | src/main/java/com/example/demo/service/UserService.java:39-71 | corrected: every listed user, populated in order, the caller's own record standing in when the catalog query fails |
| UserService.FallbackKeepsOwnRecord | src/main/java/com/example/demo/service/UserService.java:46-57 | with the fallback, a failed catalog query lists exactly the caller's own record when getUserInfo resolves it |
| UserService.WriteCredential | src/main/java/com/example/demo/service/UserService.java:164-175 | the credential step inserts a record when the lookup finds none and otherwise rehashes the keyed record, as `Credential` says |
| UserService.CreateUser | src/main/java/com/example/demo/service/UserService.java:144-180 | a null name throws and nothing is written; a name the catalog resolves is refused with ORA-01920 and nothing is written; a null password then throws and nothing is written; else the credential is written first and the Oracle statements follow, so a failing CREATE leaves the credential in place |
| UserService.CredentialIsCurrent | src/main/java/com/example/demo/service/UserService.java:160-175 | only for a name already trimmed and upper-cased, with no other spelling of it stored: a credential step that throws nothing leaves exactly one record under the name, carrying the new hash (for other names see the Findings row) |
| UserService.CredentialInserted | src/main/java/com/example/demo/service/UserService.java:166-170 | inserting under a free normalised name leaves that record as the name's only one |
| UserService.RecordOfRehashedKey | src/main/java/com/example/demo/service/UserService.java:171-175 | rehashing an existing record leaves it under the key with the new hash |
| UserService.Credential | src/main/java/com/example/demo/service/UserService.java:160-175 | createUser's credential step as written: an exception leaves the table as it was, and the table stays keyed |
| UserService.StaleCredentialKept | src/main/java/com/example/demo/service/UserService.java:160-175 | when the lookup finds a record under another spelling and no record carries exactly the upper-cased name, the step completes with no exception and leaves the table, old hash included, unchanged |
| UserService.StaleCredentialForBlank | src/main/java/com/example/demo/service/UserService.java:160-175 | for every non-empty key stored by the application (e.g. "BOB"), the step for the key with a leading blank (" bob" upper-cased to " BOB") completes and keeps the old hash |
| UserService.StaleCredentialForOtherCase | src/main/java/com/example/demo/service/UserService.java:160-175 | for every record stored in another case than its key (e.g. "bob"), the step for the key ("bob" or "BOB" upper-cased to "BOB") completes and keeps the old hash |
| UserService.CurrentCredential | src/main/java/com/example/demo/service/UserService.java:160-175 | corrected credential step: insert under the normalised key, or set the hash of the very record the lookup found; an exception leaves the table as it was |
| UserService.CurrentCredentialIsCurrent | src/main/java/com/example/demo/service/UserService.java:160-175 | corrected: for every name, a step that throws nothing keeps the table keyed, and every spelling with the name's key then finds a record with the new hash |
| UserService.DeleteUser | src/main/java/com/example/demo/service/UserService.java:199-209 | the credential is removed first, a failure of that ignored; DROP USER ... CASCADE is always sent and its exception is the call's |
| UserController.ListUsers | src/main/java/com/example/demo/controller/UserController.java:43-66 | logged out goes to /login; any logged-in user gets the list page |
| UserController.ViewUser | src/main/java/com/example/demo/controller/UserController.java:68-84 | logged out goes to /login; a found user gets the detail page, and "User not found" escapes the handler, which catches only SecurityException |
| UserController.CreateUserForm | src/main/java/com/example/demo/controller/UserController.java:86-106 | logged out goes to /login; failing the first CREATE USER check gives access_denied; no_privilege comes back exactly when the first check passes and the second, re-run, fails; the form opens exactly when both pass |
| UserController.CreateFormSecondCheckAgrees | src/main/java/com/example/demo/controller/UserController.java:94-101 | when the re-run count queries answer as the first run did, the second check cannot fail and the form opens exactly for a holder of CREATE USER |
| UserController.CreateFormSecondCheckFails | src/main/java/com/example/demo/controller/UserController.java:94-101 | when the re-run direct count fails (hasPrivilege's catch answers false), a user the first check admitted gets no_privilege |
| UserController.CreateUser | src/main/java/com/example/demo/controller/UserController.java:108-150 | without CREATE USER the result is access_denied; with it, the form is forwarded to the service and the user returns to the list, with the success text, or "Failed to create user: " followed by the classified message |
| UserController.CreateErrorText | src/main/java/com/example/demo/controller/UserController.java:132-145 | the message is replaced only when it carries one of the five markers |
| UserController.OracleDuplicateWins | src/main/java/com/example/demo/controller/UserController.java:132-145 | a message with ORA-01920 is shown as "already exists in Oracle", whatever else it contains |
| UserController.ApplicationDuplicateBeforePrivileges | src/main/java/com/example/demo/controller/UserController.java:132-145 | without ORA-01920, ORA-00001 or "unique constraint" gives "already exists in application database", even alongside ORA-01031 or ORA-00959 |
| UserController.PrivilegesBeforeTablespace | src/main/java/com/example/demo/controller/UserController.java:132-145 | without the duplicate markers, ORA-01031 gives the privileges text, even alongside ORA-00959 |
| UserController.TablespaceReported | src/main/java/com/example/demo/controller/UserController.java:132-145 | ORA-00959 as the only marker gives "Tablespace does not exist" |
| UserController.UnknownErrorKept | src/main/java/com/example/demo/controller/UserController.java:132-145 | a message with none of the markers is shown as it is |
| UserController.ServiceRefusalShown | src/main/java/com/example/demo/controller/UserController.java:132-145 | the service's ORA-01920 refusal reaches the user as "already exists in Oracle", with the name as typed |
| UserController.EditUserForm | src/main/java/com/example/demo/controller/UserController.java:152-175 | without CREATE USER the result is access_denied; otherwise the first exception of getUser, getAllProfiles and getAllRoles, in that order, becomes the redirect's error code, and the edit page opens exactly when none throws |
| UserController.UpdateUser | src/main/java/com/example/demo/controller/UserController.java:177-205 | without CREATE USER the result is access_denied; otherwise the path's user and the form's fields go to the service, and a failure is reported as "Failed to update user: " with its message |
| UserController.LockUser | src/main/java/com/example/demo/controller/UserController.java:207-228 | without CREATE USER the result is access_denied; otherwise the path's user is locked, and a failure is reported as "Failed to lock user: " with its message |
| UserController.UnlockUser | src/main/java/com/example/demo/controller/UserController.java:230-251 | without CREATE USER the result is access_denied; otherwise the path's user is unlocked, and a failure is reported as "Failed to unlock user: " with its message |
| UserController.DeleteUser | src/main/java/com/example/demo/controller/UserController.java:253-279 | the delete is issued exactly for a holder of both CREATE USER and DROP USER; missing DROP USER gives no_privilege; a failure is reported as "Failed to delete user: " with its message |
| UserController.AddToAppLogin | src/main/java/com/example/demo/controller/UserController.java:285-316 | for a holder of CREATE USER, a record under the upper-cased name with a hash of the password is saved, and the user returns to the path's user page; the success flash echoes the password in plain text, and a failure flashes "Failed to add user to APP_LOGIN_USER: " and the message |
| PrivilegeController.GrantPrivilegeForm | src/main/java/com/example/demo/controller/PrivilegeController.java:41-66 | logged out goes to /login; a logged-in user without GRANT ANY PRIVILEGE and GRANT ANY ROLE gets no_privilege; the form opens exactly for a holder of either |
| PrivilegeController.GrantRequest | src/main/java/com/example/demo/controller/PrivilegeController.java:90-115 | a grant exists exactly for SYSTEM, ROLE, OBJECT with a table, or COLUMN with a table and a column, and it names the form's grantee |
| PrivilegeController.RevokeRequest | src/main/java/com/example/demo/controller/PrivilegeController.java:135-160 | a revoke exists exactly for SYSTEM, ROLE, or OBJECT with a table, and it names the form's grantee |
| PrivilegeController.GrantPrivilege | src/main/java/com/example/demo/controller/PrivilegeController.java:69-122 | a grant is issued exactly for a permitted user and a known type with its required fields, and it is the grant the type selects; an issued grant returns to /privileges with a success flash, or "Failed to grant privilege: " with the message when it throws |
| PrivilegeController.RevokePrivilege | src/main/java/com/example/demo/controller/PrivilegeController.java:124-167 | a revoke is issued exactly for a permitted user and SYSTEM, ROLE, or OBJECT with a table; an issued revoke returns to /privileges with a success flash, or "Failed to revoke privilege: " with the message when it throws |
| PrivilegeController.MissingNamesStayOnForm | src/main/java/com/example/demo/controller/PrivilegeController.java:100-112 | a missing table or column issues nothing, with the required-field message |
| PrivilegeController.OptionForwarding | src/main/java/com/example/demo/controller/PrivilegeController.java:91-115 | the option reaches SYSTEM, ROLE and OBJECT grants and is dropped for COLUMN grants |
| PrivilegeController.UnknownTypeDoesNothing | src/main/java/com/example/demo/controller/PrivilegeController.java:90-121 | an unknown type, and COLUMN on revoke, issue nothing and set no flash |
| PrivilegeController.GrantFailureReported | src/main/java/com/example/demo/controller/PrivilegeController.java:92-121 | a failed grant of any type becomes "Failed to grant privilege: " with the exception's message, the list page and the issued grant |
| PrivilegeController.RevokeFailureReported | src/main/java/com/example/demo/controller/PrivilegeController.java:135-166 | a failed revoke of any type becomes "Failed to revoke privilege: " with the exception's message, the list page and the issued revoke |
| RoleController.CreateRoleForm | src/main/java/com/example/demo/controller/RoleController.java:45-59 | logged out goes to /login; a logged-in user without CREATE ROLE gets no_privilege; the form opens exactly for a holder |
| RoleController.CreateRole | src/main/java/com/example/demo/controller/RoleController.java:61-82 | without CREATE ROLE no_privilege; otherwise the form's name and password go to the service, and a failure is reported as "Failed to create role: " with its message |
| RoleController.EditRoleForm | src/main/java/com/example/demo/controller/RoleController.java:84-99 | the form is denied exactly without ALTER ANY ROLE; with it, an exception of getRole escapes the handler, and the edit page opens exactly when getRole returns |
| RoleController.UpdateRolePassword | src/main/java/com/example/demo/controller/RoleController.java:101-124 | the service is called exactly for a holder of ALTER ANY ROLE with a non-empty password; an empty one just returns to the list; a failure is reported as "Failed to update role: " with its message |
| RoleController.DeleteRole | src/main/java/com/example/demo/controller/RoleController.java:126-147 | without DROP ANY ROLE no_privilege; otherwise the role is deleted, and a failure is reported as "Failed to delete role: " with its message |
| RoleController.GatesAreSeparate | src/main/java/com/example/demo/controller/RoleController.java:101-147 | each operation checks its own privilege: lacking ALTER ANY ROLE and DROP ANY ROLE denies update and delete |
| ProfileController.CreateProfileForm | src/main/java/com/example/demo/controller/ProfileController.java:45-59 | logged out goes to /login; a logged-in user without CREATE PROFILE gets no_privilege; the form opens exactly for a holder |
| ProfileController.CreateProfile | src/main/java/com/example/demo/controller/ProfileController.java:61-87 | without CREATE PROFILE no_privilege; otherwise the form's name and limits go to the service, and the flash is the success text or "Failed to create profile: " with the message |
| ProfileController.EditProfileForm | src/main/java/com/example/demo/controller/ProfileController.java:89-104 | the form is denied exactly without ALTER PROFILE; with it, an exception of getProfile escapes the handler, and the edit page opens exactly when getProfile returns |
| ProfileController.UpdateProfile | src/main/java/com/example/demo/controller/ProfileController.java:106-132 | without ALTER PROFILE no_privilege; otherwise the path's name and the form's limits go to the service, and the flash is the success text or "Failed to update profile: " with the message |
| ProfileController.UpdateIgnoresFormName | src/main/java/com/example/demo/controller/ProfileController.java:106-132 | the profile name typed in the edit form has no effect |
| ProfileController.DeleteProfile | src/main/java/com/example/demo/controller/ProfileController.java:134-155 | without DROP PROFILE no_privilege; otherwise the profile is deleted, and a failure is reported as "Failed to delete profile: " with its message |
| ProfileController.FailureReported | src/main/java/com/example/demo/controller/ProfileController.java:134-155 | a failed delete becomes "Failed to delete profile: " with the exception's message |
| Text.EqualsIgnoreCaseIffSameUpper | src/main/java/com/example/demo/repository/AppLoginUserRepository.java:41-56 | equalsIgnoreCase holds exactly when both sides upper-case to the same text |
| Text.UpperTrimCommute | src/main/java/com/example/demo/repository/AppLoginUserRepository.java:27 | upper-casing and trimming commute, so the lookup's `toUpperCase().trim()` and the login's `trim()` then `toUpperCase()` agree |
| Text.TrimIdempotent | src/main/java/com/example/demo/service/AuthenticationService.java:39 | trimming twice is trimming once |

## Left out

- I/O and logging: console output, debug queries and stack traces are left out; a value they print is not modelled.
- Unicode: `toUpperCase`, `trim` and `equalsIgnoreCase` are modelled on ASCII letters only.
- UserService.CreateUser: for a null name or password the contract promises only that an exception is thrown before any write, not its text; the text comes from the JVM and from BCryptPasswordEncoder, and the model uses a fixed one.
- BCrypt is reduced to a salt and a collision-free digest. `encodePassword` (AuthenticationService.java:105-107) is `PasswordHash.Encode`, with the random salt as a parameter.
- The credential table is a sequence, with row order as the order of the unordered scan; Oracle's real order is not modelled.
- The HTTP session is reduced to its "username" attribute; invalidation clears it.
- Controllers return the service call they issue instead of making it. Whether that call completes is an input (`Outcome`). View model attributes (lists, "isAdmin", "username") and the read-only list and edit pages' data are not modelled.
- The user list's try/catch around getAllUsers (UserController.java:53-60) changes only the page's model attributes; the page is "users/list" either way, as `UserController.ListUsers` states. The edit forms' getAvailableTablespaces read is not modelled, so its exception is not among the edit form's failures.
- UserService.updateUser, lockUser and unlockUser are direct delegations to the repository methods modelled above.
- AuthenticationService.HasAdminCapabilities: the null check of the privilege-service argument is left out, because that service is always injected.
- User objects are mutated in place by populateUserDetails; the model returns the updated value instead.
- PrivilegeRepository.getAvailableTablespaces, DataSourceConfig, the dashboard, features and login-page controllers, the delegation services and main.js are not part of this model.

## Findings

| source | as written | input that shows it | evidently intended | confidence | as-written member | corrected member |
|---|---|---|---|---|---|---|
| src/main/java/com/example/demo/service/UserService.java:44-57 | the fallback to the caller's own record runs only when `userRepository.getAllUsers()` throws, but that method catches every failure and returns an empty list (UserRepository.java:143-147) | the listing query on DBA_USERS fails (any failure: it runs on the admin connection) while getUserInfo still resolves the caller: the repository answers with no user, so the fallback never runs and the list shows no user | when the catalog listing fails, list the caller's own record | not executed; high | UserService.GetAllUsers, UserService.OwnRecordLost | UserService.GetAllUsersWithFallback, UserService.FallbackKeepsOwnRecord |
| src/main/java/com/example/demo/service/UserService.java:160-175 | createUser looks the credential up with findByUsername, which matches the trimmed key and then any spelling ignoring case (AppLoginUserRepository.java:21-67), but updatePassword rewrites only the record stored under exactly the upper-cased raw name (AppLoginUserRepository.java:86-94) | creating " bob" when the application already stored "BOB", or "BOB" when "bob" is stored: the lookup finds the record, the update matches no row, the step completes, and the old password still logs in | set the new hash on the record the lookup found, and insert under the normalised key | not executed; high | UserService.Credential, UserService.StaleCredentialKept | UserService.CurrentCredential, UserService.CurrentCredentialIsCurrent |
