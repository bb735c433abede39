/**
 * InitializationService: at start-up, enrol the pre-created Oracle account SEC_ADMIN in the
 * credential table with the password "admin123", unless a record for it is already there.
 * Every failure is caught, so start-up never stops here.
 */
module InitializationService {
  import opened Wrappers
  import opened Text
  import opened PasswordHash
  import opened Database
  import opened AppLoginUsers

  const SecAdmin := "SEC_ADMIN"
  const SecAdminPassword := "admin123"

  /** The record the seed writes, with the hash drawn from `salt`. */
  function SeedRecord(salt: nat): AppLoginUser {
    AppLoginUser(SecAdmin, Encode(SecAdminPassword, salt))
  }

  /** The table after run: unchanged when SEC_ADMIN is found or the insert fails, else with its record added. */
  function Seeded(rows: seq<AppLoginUser>, fault: LookupFault, salt: nat, saveFailure: Option<string>): seq<AppLoginUser> {
    if Lookup(rows, Some(SecAdmin), fault).Some? then rows
    else if SaveError(rows, SeedRecord(salt), saveFailure).Some? then rows
    else rows + [Stored(SeedRecord(salt))]
  }

  /** run: look SEC_ADMIN up and save its record when it is missing; the save's exception is swallowed. */
  method Run(store: AppLoginUserRepository, fault: LookupFault, salt: nat, saveFailure: Option<string>)
    requires store.Valid()
    modifies store
    ensures store.Valid()
    ensures store.rows == Seeded(old(store.rows), fault, salt, saveFailure)
  {
    var existing := store.FindByUsername(Some(SecAdmin), fault);
    if existing.None? {
      var secAdmin := AppLoginUser(SecAdmin, Encode(SecAdminPassword, salt));
      var _ := store.Save(secAdmin, saveFailure);
    }
  }

  /** The seed's name is already in the form the credential lookup normalises to. */
  lemma SecAdminIsNormalised()
    ensures Upper(SecAdmin) == SecAdmin && Trim(SecAdmin) == SecAdmin && Key(SecAdmin) == SecAdmin
  {
    assert Upper(SecAdmin) == SecAdmin by {
      var u := Upper(SecAdmin);
      assert u[0] == 'S' && u[1] == 'E' && u[2] == 'C' && u[3] == '_' && u[4] == 'A';
      assert u[5] == 'D' && u[6] == 'M' && u[7] == 'I' && u[8] == 'N';
    }
    TrimStartOfUnblank(SecAdmin);
    TrimEndOfUnblank(SecAdmin);
  }

  /** The seed adds at most one record, SEC_ADMIN's, and only when no record for it is found. */
  lemma SeedAddsAtMostOne(rows: seq<AppLoginUser>, fault: LookupFault, salt: nat, saveFailure: Option<string>)
    ensures var after := Seeded(rows, fault, salt, saveFailure);
            after == rows || (after == rows + [SeedRecord(salt)] && RecordOf(rows, SecAdmin).None?)
  {
    SecAdminIsNormalised();
  }

  /** An existing SEC_ADMIN record is never overwritten, even when the lookup itself fails. */
  lemma SeedKeepsExisting(rows: seq<AppLoginUser>, fault: LookupFault, salt: nat, saveFailure: Option<string>)
    requires RecordOf(rows, SecAdmin).Some?
    ensures Seeded(rows, fault, salt, saveFailure) == rows
  {
    SecAdminIsNormalised();
  }

  /**
   * A seed whose insert did not fail on the connection is not repeated: a second run with the
   * same lookup behaviour changes nothing, whatever its own salt and connection do.
   */
  lemma SeedTwice(rows: seq<AppLoginUser>, fault: LookupFault, salt: nat, salt': nat, saveFailure': Option<string>)
    ensures var once := Seeded(rows, fault, salt, None);
            Seeded(once, fault, salt', saveFailure') == once
  {
    var once := Seeded(rows, fault, salt, None);
    if Lookup(rows, Some(SecAdmin), fault).Some? {
      assert once == rows;
    } else {
      SeedLeavesRecord(rows, fault, salt);
      SeedKeepsExisting(once, fault, salt', saveFailure');
    }
  }

  /** When the lookup finds nothing, SEC_ADMIN has a record after a seed on a working connection. */
  lemma SeedLeavesRecord(rows: seq<AppLoginUser>, fault: LookupFault, salt: nat)
    requires Lookup(rows, Some(SecAdmin), fault).None?
    ensures RecordOf(Seeded(rows, fault, salt, None), SecAdmin).Some?
  {
    if SaveError(rows, SeedRecord(salt), None).Some? {
      RejectedSeedHasRecord(rows, salt);
    } else {
      AcceptedSeedHasRecord(rows, fault, salt);
    }
  }

  /** Oracle rejects the seed's insert only because SEC_ADMIN's record is already there. */
  lemma RejectedSeedHasRecord(rows: seq<AppLoginUser>, salt: nat)
    requires SaveError(rows, SeedRecord(salt), None).Some?
    ensures RecordOf(rows, SecAdmin).Some?
  {
    SecAdminIsNormalised();
    assert InsertError(rows, SecAdmin).Some?;
  }

  lemma AcceptedSeedHasRecord(rows: seq<AppLoginUser>, fault: LookupFault, salt: nat)
    requires Lookup(rows, Some(SecAdmin), fault).None? && SaveError(rows, SeedRecord(salt), None).None?
    ensures Seeded(rows, fault, salt, None) == rows + [SeedRecord(salt)]
    ensures RecordOf(rows + [SeedRecord(salt)], SecAdmin).Some?
  {
    SecAdminIsNormalised();
    var once := rows + [SeedRecord(salt)];
    assert once[|rows|].username == SecAdmin;
  }

  /** With no credential spelled SEC_ADMIN in any case, the lookup finds nothing and the insert is accepted. */
  lemma NoAdminSpelling(rows: seq<AppLoginUser>, fault: LookupFault)
    requires forall u :: u in rows ==> !EqualsIgnoreCase(u.username, SecAdmin)
    ensures RecordOf(rows, SecAdmin).None? && Lookup(rows, Some(SecAdmin), fault).None?
  {
    SecAdminIsNormalised();
    assert RecordOf(rows, SecAdmin).None?;
    assert FirstIgnoringCase(Names(rows), SecAdmin).None?;
  }

  /**
   * With no credential spelled SEC_ADMIN in any case and a working connection, the seed adds
   * SEC_ADMIN's record, and SEC_ADMIN then logs in with "admin123" under any spelling the lookup
   * normalises to SEC_ADMIN.
   */
  lemma SeededAdminIsFound(rows: seq<AppLoginUser>, fault: LookupFault, salt: nat, username: string, fault': LookupFault)
    requires Keyed(rows) && forall u :: u in rows ==> !EqualsIgnoreCase(u.username, SecAdmin)
    requires username != "" && Key(username) == SecAdmin && fault' != ExactQueryFails
    ensures Seeded(rows, fault, salt, None) == rows + [SeedRecord(salt)]
    ensures Lookup(rows + [SeedRecord(salt)], Some(username), fault') == Some(SeedRecord(salt))
    ensures Matches(SecAdminPassword, SeedRecord(salt).passwordHash)
  {
    NoAdminSpelling(rows, fault);
    SecAdminIsNormalised();
    assert InsertError(rows, Key(username)).None?;
    SavedRecordIsFound(rows, username, Encode(SecAdminPassword, salt), fault');
    EncodeThenMatches(SecAdminPassword, SecAdminPassword, salt);
  }
}
