/**
 The second factor: setting up an authenticator with its backup codes, and checking either in a login. Which
 credentials an authenticator code is valid for, and whether the first code was right, are inputs.
 */
module Mfa {
  import opened Common
  import opened Timestamps
  import opened Database
  import BackupCodes

  type Byte = BackupCodes.Byte

  datatype Reply =
    | Passed
    | VerificationFailed
    | NotSetup
    | InvalidCode
    | UserMissing
    | StoreFailed
    | Issued(plain: seq<string>)
    | Removed

  // ---- One call ----------------------------------------------------------------------------------------------------

  function TotpCredential(): Credential -> bool {
    (c: Credential) => c.kind == "totp"
  }

  function ValidatedBy(validFor: set<string>): Credential -> bool {
    (c: Credential) => c.id in validFor
  }

  function TotpChecked(t: Tables, userId: string, validFor: set<string>): Reply {
    var totp := Filter(CredentialsOf(t, userId), TotpCredential());
    if totp == [] then NotSetup
    else if First(totp, ValidatedBy(validFor)).None? then InvalidCode
    else if UserById(t, userId).None? then UserMissing
    else Passed
  }

  /** A code that is accepted is spent before anything else happens with it. */
  function BackupCodeChecked(t: Tables, userId: string, input: string, now: Instant): (Tables, Reply) {
    match UserById(t, userId)
    case None => (t, UserMissing)
    case Some(u) =>
      if u.codes.None? then (t, NotSetup)
      else
        match BackupCodes.Used(u.codes.value, input, Rfc3339(now))
        case None => (t, InvalidCode)
        case Some(codes) => (t.(users := WithCodes(t.users, userId, codes)), Passed)
  }

  /** A code that is not accepted changes nothing. */
  lemma RejectionChangesNothing(t: Tables, userId: string, input: string, now: Instant)
    requires !BackupCodeChecked(t, userId, input, now).1.Passed?
    ensures BackupCodeChecked(t, userId, input, now).0 == t
  {
  }

  predicate CanAdd(t: Tables, userId: string, credentialId: string) {
    HasUser(t, userId) && forall i :: 0 <= i < |t.credentials| ==> t.credentials[i].id != credentialId
  }

  function TotpConfirmed(t: Tables, userId: string, verified: bool, credentialId: string,
                         codes: seq<BackupCodes.BackupCode>): (Tables, Reply) {
    if !verified then (t, VerificationFailed)
    else if !CanAdd(t, userId, credentialId) then (t, StoreFailed)
    else
      (t.(credentials := t.credentials + [Credential(credentialId, userId, "totp", true)],
          users := WithCodes(t.users, userId, codes)),
       Issued(BackupCodes.Plain(codes)))
  }

  // ---- The service -------------------------------------------------------------------------------------------------

  class Service {
    const db: DB

    constructor (db: DB)
      ensures this.db == db
    {
      this.db := db;
    }

    method ConfirmTotpSetup(userId: string, verified: bool, credentialId: string, random: seq<seq<Byte>>)
      returns (reply: Reply, ghost issued: seq<BackupCodes.BackupCode>)
      requires |random| == BackupCodes.BACKUP_CODE_COUNT
      requires forall i :: 0 <= i < |random| ==> |random[i]| == BackupCodes.BACKUP_CODE_LEN
      modifies db
      ensures (db.tables, reply) == TotpConfirmed(old(db.tables), userId, verified, credentialId, issued)
      ensures verified ==> BackupCodes.FreshCodes(issued, random)
    {
      if !verified {
        return VerificationFailed, [];
      }
      var codes := BackupCodes.GenerateBackupCodes(random);
      issued := codes;
      if !CanAdd(db.tables, userId, credentialId) {
        return StoreFailed, issued;
      }
      db.tables := db.tables.(credentials := db.tables.credentials + [Credential(credentialId, userId, "totp", true)]);
      db.tables := db.tables.(users := WithCodes(db.tables.users, userId, codes));
      var plain := [];
      for i := 0 to |codes|
        invariant |plain| == i && forall j :: 0 <= j < i ==> plain[j] == codes[j].code
      {
        plain := plain + [codes[i].code];
      }
      assert plain == BackupCodes.Plain(codes);
      return Issued(plain), issued;
    }

    method TotpCredentials(credentials: seq<Credential>) returns (totp: seq<Credential>)
      ensures totp == Filter(credentials, TotpCredential())
    {
      totp := [];
      for i := 0 to |credentials|
        invariant totp == Filter(credentials[..i], TotpCredential())
      {
        assert credentials[..i + 1] == credentials[..i] + [credentials[i]];
        FilterSnoc(credentials[..i], credentials[i], TotpCredential());
        if credentials[i].kind == "totp" {
          totp := totp + [credentials[i]];
        }
      }
      assert credentials[..|credentials|] == credentials;
    }

    method VerifyTotpForLogin(userId: string, validFor: set<string>) returns (reply: Reply)
      ensures reply == TotpChecked(db.tables, userId, validFor)
    {
      var totp := TotpCredentials(CredentialsOf(db.tables, userId));
      if |totp| == 0 {
        return NotSetup;
      }
      for i := 0 to |totp|
        invariant forall j :: 0 <= j < i ==> !ValidatedBy(validFor)(totp[j])
      {
        if totp[i].id !in validFor {
          continue;
        }
        FirstSome(totp, ValidatedBy(validFor), i);
        if UserById(db.tables, userId).None? {
          return UserMissing;
        }
        return Passed;
      }
      FirstNone(totp, ValidatedBy(validFor));
      return InvalidCode;
    }

    method UseBackupCodeForLogin(userId: string, input: string, now: Instant) returns (reply: Reply)
      modifies db
      ensures (db.tables, reply) == BackupCodeChecked(old(db.tables), userId, input, now)
    {
      var user := UserById(db.tables, userId);
      if user.None? {
        return UserMissing;
      }
      if user.value.codes.None? {
        return NotSetup;
      }
      var stored := user.value.codes.value;
      var codes := new BackupCodes.BackupCode[|stored|](i requires 0 <= i < |stored| => stored[i]);
      assert codes[..] == stored;
      var accepted := BackupCodes.UseBackupCode(codes, input, Rfc3339(now));
      if !accepted {
        return InvalidCode;
      }
      db.tables := db.tables.(users := WithCodes(db.tables.users, userId, codes[..]));
      return Passed;
    }

    method RemoveCredential(credentialId: string, userId: string)
      modifies db
      ensures db.tables
        == old(db.tables).(credentials := CredentialRemoved(old(db.tables).credentials, credentialId, userId))
    {
      db.tables := db.tables.(credentials := CredentialRemoved(db.tables.credentials, credentialId, userId));
    }
  }
}
