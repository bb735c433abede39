/**
 * The application's credential table APP_LOGIN_USER (USERNAME primary key, PASSWORD_HASH),
 * as the repository reads and changes it. Row order is the order in which an unordered
 * SELECT returns the rows.
 */
module AppLoginUsers {
  import opened Wrappers
  import opened Text
  import opened PasswordHash
  import opened Database

  datatype AppLoginUser = AppLoginUser(username: string, passwordHash: Hash)

  /** Which of the lookup's queries fails, if any. */
  datatype LookupFault = NoFault | ExactQueryFails | ScanFails

  /** The table's constraints: the primary key is unique and never NULL (Oracle stores '' as NULL). */
  predicate Keyed(rows: seq<AppLoginUser>) {
    (forall i, j :: 0 <= i < j < |rows| ==> rows[i].username != rows[j].username)
    && (forall i :: 0 <= i < |rows| ==> rows[i].username != "")
  }

  /** `SELECT ... WHERE USERNAME = ?`, first row: the record stored under exactly `name`. */
  function RecordOf(rows: seq<AppLoginUser>, name: string): (r: Option<AppLoginUser>)
    ensures r.Some? ==> r.value in rows && r.value.username == name
    ensures r.None? <==> forall i :: 0 <= i < |rows| ==> rows[i].username != name
  {
    if rows == [] then None
    else if rows[0].username == name then Some(rows[0])
    else RecordOf(rows[1..], name)
  }

  /** The first of `names` equal to `key` ignoring case. */
  function FirstIgnoringCase(names: seq<string>, key: string): (r: Option<string>)
    ensures r.Some? ==> r.value in names && EqualsIgnoreCase(r.value, key)
    ensures r.None? <==> forall i :: 0 <= i < |names| ==> !EqualsIgnoreCase(names[i], key)
  {
    if names == [] then None
    else if EqualsIgnoreCase(names[0], key) then Some(names[0])
    else FirstIgnoringCase(names[1..], key)
  }

  /** The scan's answer is the first stored name that equals the key ignoring case. */
  lemma {:induction false} FirstIgnoringCaseIsFirst(names: seq<string>, key: string)
    ensures var r := FirstIgnoringCase(names, key);
            r.Some? ==> exists i :: 0 <= i < |names| && names[i] == r.value
                                  && forall j :: 0 <= j < i ==> !EqualsIgnoreCase(names[j], key)
  {
    if names != [] && !EqualsIgnoreCase(names[0], key) {
      var rest := FirstIgnoringCase(names[1..], key);
      FirstIgnoringCaseIsFirst(names[1..], key);
      if rest.Some? {
        var i :| 0 <= i < |names[1..]| && names[1..][i] == rest.value
                 && forall j :: 0 <= j < i ==> !EqualsIgnoreCase(names[1..][j], key);
        assert names[i + 1] == rest.value;
        forall j | 0 <= j < i + 1 ensures !EqualsIgnoreCase(names[j], key) {
          if j > 0 {
            assert names[j] == names[1..][j - 1];
          }
        }
      }
    }
  }

  function Names(rows: seq<AppLoginUser>): (names: seq<string>)
    ensures |names| == |rows| && forall i :: 0 <= i < |rows| ==> names[i] == rows[i].username
  {
    seq(|rows|, i requires 0 <= i < |rows| => rows[i].username)
  }

  /** The key findByUsername looks up: the name upper-cased, then trimmed. */
  function Key(username: string): string {
    Trim(Upper(username))
  }

  /**
   * findByUsername: nothing for a null or empty name; otherwise the record stored under the
   * key, else the record of the first stored name equal to the key ignoring case, else
   * nothing. A failing query ends the lookup with nothing.
   */
  function Lookup(rows: seq<AppLoginUser>, username: Nullable, fault: LookupFault): Option<AppLoginUser> {
    if !Filled(username) || fault == ExactQueryFails then None
    else
      var key := Key(username.value);
      match RecordOf(rows, key)
      case Some(u) => Some(u)
      case None =>
        if fault == ScanFails then None
        else
          match FirstIgnoringCase(Names(rows), key)
          case None => None
          case Some(name) => RecordOf(rows, name)
  }

  /** Why Oracle rejects inserting a record under `name`, if it does. */
  function InsertError(rows: seq<AppLoginUser>, name: string): (error: Option<string>)
    ensures error.None? <==> name != "" && RecordOf(rows, name).None?
  {
    if name == "" then Some("ORA-01400: cannot insert NULL into (\"APP_OWNER\".\"APP_LOGIN_USER\".\"USERNAME\")")
    else if RecordOf(rows, name).Some? then Some("ORA-00001: unique constraint violated")
    else None
  }

  /** The record save writes for `user`: its name upper-cased but not trimmed. */
  function Stored(user: AppLoginUser): AppLoginUser {
    AppLoginUser(Upper(user.username), user.passwordHash)
  }

  /** Why save fails: a failure of the connection if there is one, else Oracle's rejection of the insert. */
  function SaveError(rows: seq<AppLoginUser>, user: AppLoginUser, failure: Option<string>): Option<string> {
    if failure.Some? then failure else InsertError(rows, Stored(user).username)
  }

  /** UPDATE ... SET PASSWORD_HASH = hash WHERE USERNAME = key. */
  function Rehashed(rows: seq<AppLoginUser>, key: string, hash: Hash): (r: seq<AppLoginUser>)
    ensures |r| == |rows|
    ensures forall i :: 0 <= i < |rows| ==>
              r[i].username == rows[i].username
              && r[i].passwordHash == (if rows[i].username == key then hash else rows[i].passwordHash)
  {
    seq(|rows|, i requires 0 <= i < |rows| =>
      if rows[i].username == key then rows[i].(passwordHash := hash) else rows[i])
  }

  /** DELETE ... WHERE USERNAME = key. */
  function Without(rows: seq<AppLoginUser>, key: string): (r: seq<AppLoginUser>)
    ensures forall u :: u in r <==> u in rows && u.username != key
    ensures |r| <= |rows|
  {
    if rows == [] then []
    else if rows[0].username == key then Without(rows[1..], key)
    else [rows[0]] + Without(rows[1..], key)
  }

  class AppLoginUserRepository {
    var rows: seq<AppLoginUser>

    predicate Valid()
      reads this
    {
      Keyed(rows)
    }

    constructor (rows: seq<AppLoginUser>)
      requires Keyed(rows)
      ensures Valid() && this.rows == rows
    {
      this.rows := rows;
    }

    /** findByUsername, with its scan over the stored names. */
    method FindByUsername(username: Nullable, fault: LookupFault) returns (found: Option<AppLoginUser>)
      ensures found == Lookup(rows, username, fault)
    {
      if username.None? || username.value == "" || fault == ExactQueryFails {
        return None;
      }
      var key := Trim(Upper(username.value));
      var exact := RecordOf(rows, key);
      if exact.Some? {
        return exact;
      }
      if fault == ScanFails {
        return None;
      }
      var names := Names(rows);
      var i := 0;
      while i < |names|
        invariant 0 <= i <= |names|
        invariant FirstIgnoringCase(names, key) == FirstIgnoringCase(names[i..], key)
      {
        if EqualsIgnoreCase(names[i], key) {
          return RecordOf(rows, names[i]);
        }
        assert names[i..][1..] == names[i + 1..];
        i := i + 1;
      }
      return None;
    }

    /** save: insert the record under the upper-cased (not trimmed) name; a failure is rethrown. */
    method Save(user: AppLoginUser, failure: Option<string>) returns (outcome: Outcome)
      requires Valid()
      modifies this
      ensures Valid()
      ensures var error := SaveError(old(rows), user, failure);
              if error.Some? then outcome == Threw(error.value) && rows == old(rows)
              else outcome == Completed && rows == old(rows) + [Stored(user)]
    {
      var name := Upper(user.username);
      var error := if failure.Some? then failure else InsertError(rows, name);
      if error.Some? {
        return Threw(error.value);
      }
      rows := rows + [AppLoginUser(name, user.passwordHash)];
      outcome := Completed;
    }

    /** updatePassword: set the hash of the record keyed by the upper-cased name. */
    method UpdatePassword(username: string, hash: Hash, failure: Option<string>) returns (outcome: Outcome)
      requires Valid()
      modifies this
      ensures Valid()
      ensures failure.Some? ==> outcome == Threw(failure.value) && rows == old(rows)
      ensures failure.None? ==> outcome == Completed && rows == Rehashed(old(rows), Upper(username), hash)
    {
      if failure.Some? {
        return Threw(failure.value);
      }
      rows := Rehashed(rows, Upper(username), hash);
      outcome := Completed;
    }

    /** delete: remove the record keyed by the upper-cased name. */
    method Delete(username: string, failure: Option<string>) returns (outcome: Outcome)
      requires Valid()
      modifies this
      ensures Valid()
      ensures failure.Some? ==> outcome == Threw(failure.value) && rows == old(rows)
      ensures failure.None? ==> outcome == Completed && rows == Without(old(rows), Upper(username))
    {
      if failure.Some? {
        return Threw(failure.value);
      }
      WithoutKeepsKeyed(rows, Upper(username));
      rows := Without(rows, Upper(username));
      outcome := Completed;
    }
  }

  // ---------------------------------------------------------------------------
  // Facts about the credential table
  // ---------------------------------------------------------------------------

  /** In a keyed table, no later record shares the first record's name. */
  lemma HeadNameUnique(rows: seq<AppLoginUser>)
    requires Keyed(rows) && rows != []
    ensures Keyed(rows[1..])
    ensures forall u :: u in rows[1..] ==> u.username != rows[0].username
  {
    forall u | u in rows[1..] ensures u.username != rows[0].username {
      var j :| 0 <= j < |rows[1..]| && rows[1..][j] == u;
      assert rows[j + 1] == u;
    }
  }

  /** A named record in front of a keyed table whose names differ from its own keeps it keyed. */
  lemma ConsKeyed(first: AppLoginUser, rest: seq<AppLoginUser>)
    requires Keyed(rest) && first.username != ""
    requires forall u :: u in rest ==> u.username != first.username
    ensures Keyed([first] + rest)
  {
    var r := [first] + rest;
    forall i, j | 0 <= i < j < |r| ensures r[i].username != r[j].username {
      assert r[j] == rest[j - 1];
      if i > 0 {
        assert r[i] == rest[i - 1];
      } else {
        assert r[j] in rest;
      }
    }
    forall i | 0 <= i < |r| ensures r[i].username != "" {
      if i > 0 {
        assert r[i] == rest[i - 1];
      }
    }
  }

  /** Removing records keeps the table's constraints. */
  lemma {:induction false} WithoutKeepsKeyed(rows: seq<AppLoginUser>, key: string)
    requires Keyed(rows)
    ensures Keyed(Without(rows, key))
  {
    if rows != [] {
      HeadNameUnique(rows);
      WithoutKeepsKeyed(rows[1..], key);
      if rows[0].username != key {
        ConsKeyed(rows[0], Without(rows[1..], key));
      }
    }
  }

  /** A record stored under a name is the only record with that name. */
  lemma RecordOfUnique(rows: seq<AppLoginUser>, u: AppLoginUser)
    requires Keyed(rows) && u in rows
    ensures RecordOf(rows, u.username) == Some(u)
  {
    var i :| 0 <= i < |rows| && rows[i] == u;
    var r := RecordOf(rows, u.username);
    assert r.Some?;
    var j :| 0 <= j < |rows| && rows[j] == r.value;
  }

  /** The lookup never consults the table for a null or empty name, and a failing first query gives nothing. */
  lemma LookupWithoutName(rows: seq<AppLoginUser>, username: Nullable, fault: LookupFault)
    requires !Filled(username) || fault == ExactQueryFails
    ensures Lookup(rows, username, fault) == None
  {
  }

  /** A record stored exactly under the key is the one returned. */
  lemma LookupFindsExact(rows: seq<AppLoginUser>, username: string, fault: LookupFault, u: AppLoginUser)
    requires Keyed(rows) && u in rows && u.username == Key(username)
    requires username != "" && fault != ExactQueryFails
    ensures Lookup(rows, Some(username), fault) == Some(u)
  {
    RecordOfUnique(rows, u);
  }

  /** Whatever the lookup returns is a stored record whose name matches the key ignoring case. */
  lemma LookupSound(rows: seq<AppLoginUser>, username: Nullable, fault: LookupFault)
    ensures var r := Lookup(rows, username, fault);
            r.Some? ==> r.value in rows && Filled(username) && EqualsIgnoreCase(r.value.username, Key(username.value))
  {
    var r := Lookup(rows, username, fault);
    if r.Some? {
      var key := Key(username.value);
      if RecordOf(rows, key).None? {
        var name := FirstIgnoringCase(Names(rows), key).value;
        assert r.value.username == name;
      } else {
        EqualsIgnoreCaseIffSameUpper(key, key);
      }
    }
  }

  /** Without a failure, any stored name equal to the key ignoring case is found. */
  lemma LookupComplete(rows: seq<AppLoginUser>, username: string, u: AppLoginUser)
    requires u in rows && username != "" && EqualsIgnoreCase(u.username, Key(username))
    ensures Lookup(rows, Some(username), NoFault).Some?
  {
    var i :| 0 <= i < |rows| && rows[i] == u;
    assert Names(rows)[i] == u.username;
    var name := FirstIgnoringCase(Names(rows), Key(username));
    if name.Some? {
      var j :| 0 <= j < |Names(rows)| && Names(rows)[j] == name.value;
      assert rows[j].username == name.value;
    }
  }

  /** The lookup depends on the name only through its key: case and surrounding blanks do not matter. */
  lemma LookupByKey(rows: seq<AppLoginUser>, a: string, b: string, fault: LookupFault)
    requires a != "" && b != "" && Key(a) == Key(b)
    ensures Lookup(rows, Some(a), fault) == Lookup(rows, Some(b), fault)
  {
  }

  /** A record saved under a normalised name is found by any spelling with that key. */
  lemma SavedRecordIsFound(rows: seq<AppLoginUser>, username: string, hash: Hash, fault: LookupFault)
    requires Keyed(rows) && username != "" && fault != ExactQueryFails
    requires InsertError(rows, Key(username)).None?
    ensures Keyed(rows + [AppLoginUser(Key(username), hash)])
    ensures Lookup(rows + [AppLoginUser(Key(username), hash)], Some(username), fault)
         == Some(AppLoginUser(Key(username), hash))
  {
    var u := AppLoginUser(Key(username), hash);
    var rows' := rows + [u];
    forall i, j | 0 <= i < j < |rows'| ensures rows'[i].username != rows'[j].username {
      if j == |rows| {
        assert rows'[i] == rows[i];
      }
    }
    RecordOfUnique(rows', u);
  }

  /** updatePassword changes the hash of the keyed record and nothing else; the constraints hold. */
  lemma RehashedKeepsKeyed(rows: seq<AppLoginUser>, key: string, hash: Hash)
    requires Keyed(rows)
    ensures Keyed(Rehashed(rows, key, hash))
    ensures forall name :: name != key ==> RecordOf(Rehashed(rows, key, hash), name) == RecordOf(rows, name)
  {
    var r := Rehashed(rows, key, hash);
    forall name | name != key ensures RecordOf(r, name) == RecordOf(rows, name) {
      RecordOfRehashed(rows, key, hash, name);
    }
  }

  lemma {:induction false} RecordOfRehashed(rows: seq<AppLoginUser>, key: string, hash: Hash, name: string)
    requires name != key
    ensures RecordOf(Rehashed(rows, key, hash), name) == RecordOf(rows, name)
  {
    if rows != [] {
      assert Rehashed(rows, key, hash)[1..] == Rehashed(rows[1..], key, hash);
      RecordOfRehashed(rows[1..], key, hash, name);
    }
  }

  /** After delete the keyed record is gone and every other record is still found. */
  lemma WithoutRemovesOnlyKey(rows: seq<AppLoginUser>, key: string, name: string)
    requires Keyed(rows)
    ensures RecordOf(Without(rows, key), key) == None
    ensures name != key ==> RecordOf(Without(rows, key), name) == RecordOf(rows, name)
  {
    var r := Without(rows, key);
    WithoutKeepsKeyed(rows, key);
    if name != key {
      if RecordOf(rows, name).Some? {
        RecordOfUnique(r, RecordOf(rows, name).value);
      }
    }
  }
}
