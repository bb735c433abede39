/**
 * The console's data holders (User, PrivilegeInfo, Profile, Role, UserProfile). They have no
 * behaviour of their own; every field is a nullable reference, so each is an Option here.
 */
module Model {
  import opened Wrappers
  import opened Text

  /** A LocalDateTime, reduced to an instant. */
  type Timestamp = int

  /** PrivilegeInfo.type: "DIRECT", "ROLE" or "OBJECT". */
  datatype PrivilegeKind = Direct | ViaRole | OnObject {
    function Tag(): string {
      match this
      case Direct => "DIRECT"
      case ViaRole => "ROLE"
      case OnObject => "OBJECT"
    }
  }

  datatype PrivilegeInfo = PrivilegeInfo(
    privilege: Nullable,
    grantee: Nullable,
    grantor: Nullable,
    adminOption: bool,
    kind: PrivilegeKind,
    roleName: Nullable,
    objectName: Nullable)

  datatype User = User(
    username: Nullable,
    password: Nullable,
    defaultTablespace: Nullable,
    temporaryTablespace: Nullable,
    quota: Nullable,
    accountStatus: Nullable,
    lockDate: Option<Timestamp>,
    createdDate: Option<Timestamp>,
    profile: Nullable,
    roles: Option<seq<string>>,
    privileges: Option<seq<PrivilegeInfo>>,
    fullName: Nullable,
    email: Nullable,
    phone: Nullable,
    address: Nullable)

  /** `new User()`: every field null. */
  const NoUser := User(None, None, None, None, None, None, None, None, None, None, None, None, None, None, None)

  /** A row of the application's APP_USER_PROFILE table. */
  datatype UserProfile = UserProfile(
    username: Nullable,
    fullName: Nullable,
    email: Nullable,
    phone: Nullable,
    address: Nullable)

  datatype Profile = Profile(
    profileName: Nullable,
    sessionsPerUser: Nullable,
    connectTime: Nullable,
    idleTime: Nullable,
    assignedUsers: Option<seq<string>>)

  /** `new Profile()`: every field null. */
  const NoProfile := Profile(None, None, None, None, None)

  datatype Role = Role(
    roleName: Nullable,
    hasPassword: bool,
    password: Nullable,
    privileges: Option<seq<string>>,
    assignedUsers: Option<seq<string>>)

  /** `"YES".equals(flag)`: how every Oracle YES/NO column becomes a boolean. */
  predicate IsYes(flag: Nullable) {
    flag == Some("YES")
  }
}
