/** The account record and the invitation ledger (`src/db/models/user.rs`),
    with the store connection that groups the tables they touch. */
module Users {
  import opened Wrappers
  import opened Text
  import opened Table
  import opened Collaborators
  import opened TwoFactors

  /** `NaiveDateTime`; the clock is read by the caller and passed in. */
  type Timestamp = int

  type Bytes = seq<bv8>

  /** `User::CLIENT_KDF_TYPE_DEFAULT` (PBKDF2). */
  const ClientKdfTypeDefault: int := 0
  /** `User::CLIENT_KDF_ITER_DEFAULT`. */
  const ClientKdfIterDefault: int := 100000

  /** `password_iterations as u32`: an `i32` reinterpreted as unsigned. */
  function AsU32(i: int): (r: nat)
    ensures r < 0x1_0000_0000
    ensures 0 <= i < 0x1_0000_0000 ==> r == i
    ensures -0x8000_0000 <= i < 0 ==> r == i + 0x1_0000_0000
  {
    i % 0x1_0000_0000
  }

  /** `UserStatus`; only Enabled and Invited are ever derived. */
  datatype UserStatus = Enabled | Invited | Disabled
  {
    function Code(): int
    {
      match this
      case Enabled => 0
      case Invited => 1
      case Disabled => 2
    }
  }

  /** A row of the `users` table: the stored copy of a `User`. */
  datatype UserRecord = UserRecord(
    uuid: string,
    createdAt: Timestamp,
    updatedAt: Timestamp,
    email: string,
    name: string,
    passwordHash: Bytes,
    salt: Bytes,
    passwordIterations: int,
    passwordHint: Option<string>,
    akey: string,
    privateKey: Option<string>,
    publicKey: Option<string>,
    totpSecret: Option<string>,
    totpRecover: Option<string>,
    securityStamp: string,
    equivalentDomains: string,
    excludedGlobals: string,
    clientKdfType: int,
    clientKdfIter: int)

  function RecordUuid(u: UserRecord): string { u.uuid }

  /** The profile shape `User::to_json` produces, field for field. It has
      no field for the password hash, the salt, the TOTP secret or the
      recovery code. `Organizations` holds the memberships whose own
      projections the server lists there. */
  datatype ProfileJson = ProfileJson(
    _Status: int,
    Id: string,
    Name: string,
    Email: string,
    EmailVerified: bool,
    Premium: bool,
    MasterPasswordHint: Option<string>,
    Culture: string,
    TwoFactorEnabled: bool,
    Key: string,
    PrivateKey: Option<string>,
    SecurityStamp: string,
    Organizations: seq<Membership>,
    Object: string)

  /** The `users` table, keyed by `uuid`. */
  class UserTable {
    var rows: seq<UserRecord>

    ghost predicate Valid()
      reads this
    {
      UniqueBy(rows, RecordUuid)
    }

    constructor ()
      ensures Valid() && rows == []
    {
      rows := [];
    }

    /** `User::find_by_mail`: the first account whose stored email equals
        the lower-cased argument. */
    function FindByMail(mail: string): (r: Option<UserRecord>)
      reads this
      ensures r.Some? ==> r.value in rows && r.value.email == Lower(mail)
      ensures r.None? <==> forall u :: u in rows ==> u.email != Lower(mail)
    {
      First(rows, (u: UserRecord) => u.email == Lower(mail))
    }

    /** The lookup does not see the case of its argument. */
    lemma FindByMailIgnoresCase(a: string, b: string)
      requires EqualIgnoringCase(a, b)
      ensures FindByMail(a) == FindByMail(b)
    {
    }

    /** An account stored with the lower-cased form of an address is found
        by every spelling of that address that differs only in case. */
    lemma StoredAccountIsFound(u: UserRecord, address: string, mail: string)
      requires u in rows && u.email == Lower(address)
      requires EqualIgnoringCase(mail, address)
      ensures FindByMail(mail).Some? && FindByMail(mail).value.email == u.email
    {
    }

    /** `User::find_by_uuid`. */
    function FindByUuid(uuid: string): (r: Option<UserRecord>)
      reads this
      ensures r.Some? ==> r.value in rows && r.value.uuid == uuid
      ensures r.None? <==> forall u :: u in rows ==> u.uuid != uuid
    {
      First(rows, (u: UserRecord) => u.uuid == uuid)
    }

    /** With unique keys, the row `find_by_uuid` returns is the only one
        carrying that key. */
    lemma FindByUuidIsTheRow(u: UserRecord)
      requires Valid() && u in rows
      ensures FindByUuid(u.uuid) == Some(u)
    {
    }

    /** The update `_update_revision` issues (also the whole of
        `update_uuid_revision`): the account's rows get `updated_at = date`. */
    method UpdateUuidRevision(uuid: string, date: Timestamp)
      requires Valid()
      modifies this
      ensures Valid()
      ensures |rows| == |old(rows)|
      ensures forall i :: 0 <= i < |rows| ==>
        rows[i] == if old(rows)[i].uuid == uuid then old(rows)[i].(updatedAt := date) else old(rows)[i]
    {
      var before := rows;
      rows := seq(|before|, i requires 0 <= i < |before| =>
        if before[i].uuid == uuid then before[i].(updatedAt := date) else before[i]);
      assert forall i :: 0 <= i < |rows| ==> RecordUuid(rows[i]) == RecordUuid(before[i]);
    }

    /** `User::update_all_revisions`: every row gets `updated_at = date`. */
    method UpdateAllRevisions(date: Timestamp)
      requires Valid()
      modifies this
      ensures Valid()
      ensures |rows| == |old(rows)|
      ensures forall i :: 0 <= i < |rows| ==> rows[i] == old(rows)[i].(updatedAt := date)
    {
      var before := rows;
      rows := seq(|before|, i requires 0 <= i < |before| => before[i].(updatedAt := date));
      assert forall i :: 0 <= i < |rows| ==> RecordUuid(rows[i]) == RecordUuid(before[i]);
    }
  }

  /** A row of the `invitations` table, keyed by `email`. */
  datatype Invitation = Invitation(email: string)

  function InvitationEmail(i: Invitation): string { i.email }

  /** The `invitations` table. */
  class InvitationTable {
    var rows: seq<Invitation>

    ghost predicate Valid()
      reads this
    {
      UniqueBy(rows, InvitationEmail)
    }

    constructor ()
      ensures Valid() && rows == []
    {
      rows := [];
    }

    /** `Invitation::find_by_mail`. */
    function FindByMail(mail: string): (r: Option<Invitation>)
      reads this
      ensures r.Some? ==> r.value in rows && r.value.email == Lower(mail)
      ensures r.None? <==> forall i :: i in rows ==> i.email != Lower(mail)
    {
      First(rows, (i: Invitation) => i.email == Lower(mail))
    }

    /** `Invitation::save`: an email that trims to nothing is refused before
        the store is touched; any other is upserted as given. */
    method Save(inv: Invitation) returns (r: Outcome)
      requires Valid()
      modifies this
      ensures Valid()
      ensures r.Fail? <==> AllWhitespace(inv.email)
      ensures r.Fail? ==> rows == old(rows) && r.error == "Invitation email can't be empty"
      ensures r.Pass? ==> inv in rows
      ensures r.Pass? ==> forall i: Invitation :: i.email != inv.email ==> (i in rows <==> i in old(rows))
    {
      TrimEmptyIffAllWhitespace(inv.email);
      if Trim(inv.email) == [] {
        return Fail("Invitation email can't be empty");
      }
      UpsertKeepsUnique(rows, InvitationEmail, inv);
      rows := Upsert(rows, InvitationEmail, inv);
      r := Pass;
    }

    /** `Invitation::delete`. */
    method Delete(inv: Invitation)
      requires Valid()
      modifies this
      ensures Valid()
      ensures forall i :: i in rows <==> i in old(rows) && i.email != inv.email
    {
      SelectKeepsUnique(rows, InvitationEmail, (i: Invitation) => i.email != inv.email);
      rows := Select(rows, (i: Invitation) => i.email != inv.email);
    }

    /** `Invitation::take`: with invitations allowed, consumes the invitation
        for the lower-cased address and reports whether there was one; with
        invitations disallowed, reports false and touches nothing. */
    method Take(mail: string, invitationsAllowed: bool) returns (taken: bool)
      requires Valid()
      modifies this
      ensures Valid()
      ensures taken <==> invitationsAllowed && exists i :: i in old(rows) && i.email == Lower(mail)
      ensures !invitationsAllowed ==> rows == old(rows)
      ensures invitationsAllowed ==> forall i :: i in rows <==> i in old(rows) && i.email != Lower(mail)
    {
      if !invitationsAllowed {
        return false;
      }
      match FindByMail(mail)
      case Some(inv) =>
        Delete(inv);
        taken := true;
      case None =>
        taken := false;
    }
  }

  /** One statement of the deletion cascade that can fail in the store. */
  datatype Step = Memberships | Ciphers | Folders | Devices | TwoFactorRecords | UserRow
  {
    /** The position of the statement in the cascade. */
    function Index(): (i: nat)
      ensures i < StepCount
    {
      match this
      case Memberships => 0
      case Ciphers => 1
      case Folders => 2
      case Devices => 3
      case TwoFactorRecords => 4
      case UserRow => 5
    }
  }

  const StepCount: nat := 6

  /** Whether step `s` of `User::delete` took effect, given whether the
      last-owner guard refused the deletion and which statement, if any,
      the store failed. Each statement is atomic; the cascade is not. */
  predicate Done(blocked: bool, failing: Option<Step>, s: Step)
  {
    !blocked && (failing.None? || s.Index() < failing.value.Index())
  }

  /** `DbConn`: the tables of one store. */
  class Conn {
    const users: UserTable
    const invitations: InvitationTable
    const twofactor: TwoFactorTable
    const memberships: MembershipTable
    const ciphers: OwnedTable
    const folders: OwnedTable
    const devices: OwnedTable

    ghost predicate Valid()
      reads users, invitations, twofactor, memberships, ciphers, folders, devices
    {
      && ciphers != folders && folders != devices && ciphers != devices
      && users.Valid() && invitations.Valid() && twofactor.Valid() && memberships.Valid()
      && ciphers.Valid() && folders.Valid() && devices.Valid()
    }

    constructor ()
      ensures Valid()
      ensures fresh(users) && fresh(invitations) && fresh(twofactor) && fresh(memberships)
      ensures fresh(ciphers) && fresh(folders) && fresh(devices)
      ensures users.rows == [] && invitations.rows == [] && twofactor.rows == []
      ensures memberships.rows == [] && ciphers.rows == [] && folders.rows == [] && devices.rows == []
    {
      users := new UserTable();
      invitations := new InvitationTable();
      twofactor := new TwoFactorTable();
      memberships := new MembershipTable();
      ciphers := new OwnedTable();
      folders := new OwnedTable();
      devices := new OwnedTable();
    }
  }

  /** An account (`User`). Its methods update its fields in place; the
      store holds copies of it (`Record`) that only `Save` refreshes. */
  class User {
    var uuid: string
    var createdAt: Timestamp
    var updatedAt: Timestamp
    var email: string
    var name: string
    var passwordHash: Bytes
    var salt: Bytes
    var passwordIterations: int
    var passwordHint: Option<string>
    var akey: string
    var privateKey: Option<string>
    var publicKey: Option<string>
    var totpSecret: Option<string>
    var totpRecover: Option<string>
    var securityStamp: string
    var equivalentDomains: string
    var excludedGlobals: string
    var clientKdfType: int
    var clientKdfIter: int

    /** The row the store keeps for this account. */
    function Record(): UserRecord
      reads this
    {
      UserRecord(uuid, createdAt, updatedAt, email, name, passwordHash, salt, passwordIterations,
        passwordHint, akey, privateKey, publicKey, totpSecret, totpRecover, securityStamp,
        equivalentDomains, excludedGlobals, clientKdfType, clientKdfIter)
    }

    /** `User::new`. The fresh identifier and security stamp (`get_uuid`),
        the random salt (`get_random_64`), the configured iteration count
        and the current time are supplied by the caller. */
    constructor New(mail: string, newUuid: string, newStamp: string, newSalt: Bytes,
                    iterations: int, now: Timestamp)
      ensures email == Lower(mail) && name == email
      ensures passwordHash == [] && Status() == Invited
      ensures uuid == newUuid && securityStamp == newStamp
      ensures salt == newSalt && passwordIterations == iterations
      ensures createdAt == now && updatedAt == now
      ensures akey == "" && passwordHint.None? && privateKey.None? && publicKey.None?
      ensures totpSecret.None? && totpRecover.None?
      ensures equivalentDomains == "[]" && excludedGlobals == "[]"
      ensures clientKdfType == ClientKdfTypeDefault && clientKdfIter == ClientKdfIterDefault
    {
      uuid := newUuid;
      createdAt := now;
      updatedAt := now;
      email := Lower(mail);
      name := Lower(mail);
      akey := "";
      passwordHash := [];
      salt := newSalt;
      passwordIterations := iterations;
      securityStamp := newStamp;
      passwordHint := None;
      privateKey := None;
      publicKey := None;
      totpSecret := None;
      totpRecover := None;
      equivalentDomains := "[]";
      excludedGlobals := "[]";
      clientKdfType := ClientKdfTypeDefault;
      clientKdfIter := ClientKdfIterDefault;
    }

    /** `check_valid_recovery_code`: the candidate must equal the lower-cased
        stored code. The candidate itself is not lower-cased, so one that
        contains an upper-case letter never matches. */
    function CheckValidRecoveryCode(code: string): (ok: bool)
      reads this
      ensures totpRecover.None? ==> !ok
      ensures totpRecover.Some? ==> (ok <==> code == Lower(totpRecover.value))
      ensures ok ==> IsLowerCase(code) && EqualIgnoringCase(code, totpRecover.value)
    {
      match totpRecover
      case Some(stored) => code == Lower(stored)
      case None => false
    }

    /** The derived account status: Invited exactly while no password is set. */
    function Status(): (s: UserStatus)
      reads this
      ensures s == Invited <==> passwordHash == []
      ensures s == Enabled <==> passwordHash != []
    {
      if passwordHash == [] then Invited else Enabled
    }

    /** `User::to_json`. */
    function ToJson(twofactor: TwoFactorTable, memberships: MembershipTable): (j: ProfileJson)
      reads this, twofactor, memberships
      ensures j._Status == 1 <==> passwordHash == []
      ensures j._Status == 0 <==> passwordHash != []
      ensures j.TwoFactorEnabled <==>
        exists t :: t in twofactor.rows && t.userUuid == uuid && IsUserFacing(t)
      ensures forall m :: m in j.Organizations <==> m in memberships.rows && m.userUuid == uuid
      ensures j.Id == uuid && j.Email == email && j.SecurityStamp == securityStamp
      ensures j.Object == "profile"
    {
      var listed := twofactor.FindByUser(uuid);
      assert listed != [] ==> listed[0] in listed;
      ProfileJson(
        Status().Code(), uuid, name, email, true, true, passwordHint, "en-US",
        listed != [], akey, privateKey, securityStamp, memberships.FindByUser(uuid), "profile")
    }

    /** `set_password`: the hash is recomputed from the stored salt and
        iteration count; nothing else changes (in particular not the
        security stamp). `hashPassword` stands for `crypto::hash_password`. */
    method SetPassword(password: Bytes, hashPassword: (Bytes, Bytes, nat) -> Bytes)
      modifies this
      ensures passwordHash == hashPassword(password, old(salt), AsU32(old(passwordIterations)))
      ensures Record() == old(Record()).(passwordHash := passwordHash)
    {
      passwordHash := hashPassword(password, salt, AsU32(passwordIterations));
    }

    /** `reset_security_stamp`: the stamp is replaced by `newStamp`, the
        fresh identifier `get_uuid` supplies; nothing else changes. */
    method ResetSecurityStamp(newStamp: string)
      modifies this
      ensures Record() == old(Record()).(securityStamp := newStamp)
    {
      securityStamp := newStamp;
    }

    /** `User::save`: a blank email is refused before anything changes;
        otherwise `updated_at` is refreshed and the record is upserted. */
    method Save(users: UserTable, now: Timestamp) returns (r: Outcome)
      requires users.Valid()
      modifies this, users
      ensures users.Valid()
      ensures r.Fail? <==> AllWhitespace(email)
      ensures r.Fail? ==> Record() == old(Record()) && users.rows == old(users.rows)
      ensures r.Fail? ==> r.error == "User email can't be empty"
      ensures r.Pass? ==> Record() == old(Record()).(updatedAt := now)
      ensures r.Pass? ==> Record() in users.rows
      ensures r.Pass? ==> forall u :: u in users.rows && u.uuid == uuid ==> u == Record()
      ensures r.Pass? ==> forall u: UserRecord :: u.uuid != uuid ==> (u in users.rows <==> u in old(users.rows))
    {
      TrimEmptyIffAllWhitespace(email);
      if Trim(email) == [] {
        return Fail("User email can't be empty");
      }
      updatedAt := now;
      UpsertKeepsUnique(users.rows, RecordUuid, Record());
      users.rows := Upsert(users.rows, RecordUuid, Record());
      r := Pass;
    }

    /** `update_revision`: refreshes `updated_at` here and in the store. */
    method UpdateRevision(users: UserTable, now: Timestamp)
      requires users.Valid()
      modifies this, users
      ensures users.Valid()
      ensures Record() == old(Record()).(updatedAt := now)
      ensures |users.rows| == |old(users.rows)|
      ensures forall i :: 0 <= i < |users.rows| ==>
        users.rows[i] == if old(users.rows)[i].uuid == uuid then old(users.rows)[i].(updatedAt := now)
                         else old(users.rows)[i]
    {
      updatedAt := now;
      users.UpdateUuidRevision(uuid, now);
    }

    /** The guard of `User::delete`: walks the account's memberships and
        stops at the first Owner membership whose organisation counts at
        most one Owner. */
    method CheckNotLastOwner(memberships: MembershipTable) returns (r: Outcome)
      ensures r.Fail? <==> memberships.LastOwnerOfSomeOrg(uuid)
      ensures r.Fail? ==> r.error == "Can't delete last owner"
    {
      var mine := memberships.FindByUser(uuid);
      var i := 0;
      while i < |mine|
        invariant 0 <= i <= |mine|
        invariant forall j :: 0 <= j < i ==> !memberships.IsLastOwner(mine[j])
      {
        var m := mine[i];
        if m.atype == OwnerType && |memberships.FindByOrgAndType(m.orgUuid, OwnerType)| <= 1 {
          assert m in mine && memberships.IsLastOwner(m);
          return Fail("Can't delete last owner");
        }
        i := i + 1;
      }
      forall m | m in memberships.rows && m.userUuid == uuid
        ensures !memberships.IsLastOwner(m)
      {
        var j :| 0 <= j < |mine| && mine[j] == m;
      }
      r := Pass;
    }

    /** `User::delete`. The guard runs over every membership before any
        removal; a refusal leaves every table as it was. Otherwise the
        memberships, ciphers, folders, devices and two-factor records of
        the account are removed, its invitation is taken, and the account
        row is removed last. A store failure (`failing`) stops the cascade
        at that statement: the steps before it stay done. A failure inside
        `Invitation::take` only makes it report false and is ignored. */
    method Delete(conn: Conn, invitationsAllowed: bool, failing: Option<Step>) returns (r: Outcome)
      requires conn.Valid()
      modifies conn.users, conn.invitations, conn.twofactor, conn.memberships
      modifies conn.ciphers, conn.folders, conn.devices
      ensures conn.Valid()
      ensures old(conn.memberships.LastOwnerOfSomeOrg(uuid)) ==> r == Fail("Can't delete last owner")
      ensures r.Pass? <==> !old(conn.memberships.LastOwnerOfSomeOrg(uuid)) && failing.None?
      ensures var done := Done(old(conn.memberships.LastOwnerOfSomeOrg(uuid)), failing, Memberships);
        (done ==> forall m :: m in conn.memberships.rows <==> m in old(conn.memberships.rows) && m.userUuid != uuid)
        && (!done ==> conn.memberships.rows == old(conn.memberships.rows))
      ensures var done := Done(old(conn.memberships.LastOwnerOfSomeOrg(uuid)), failing, Ciphers);
        (done ==> forall c :: c in conn.ciphers.rows <==> c in old(conn.ciphers.rows) && c.userUuid != uuid)
        && (!done ==> conn.ciphers.rows == old(conn.ciphers.rows))
      ensures var done := Done(old(conn.memberships.LastOwnerOfSomeOrg(uuid)), failing, Folders);
        (done ==> forall f :: f in conn.folders.rows <==> f in old(conn.folders.rows) && f.userUuid != uuid)
        && (!done ==> conn.folders.rows == old(conn.folders.rows))
      ensures var done := Done(old(conn.memberships.LastOwnerOfSomeOrg(uuid)), failing, Devices);
        (done ==> forall d :: d in conn.devices.rows <==> d in old(conn.devices.rows) && d.userUuid != uuid)
        && (!done ==> conn.devices.rows == old(conn.devices.rows))
      ensures var done := Done(old(conn.memberships.LastOwnerOfSomeOrg(uuid)), failing, TwoFactorRecords);
        (done ==> forall t :: t in conn.twofactor.rows <==> t in old(conn.twofactor.rows) && t.userUuid != uuid)
        && (!done ==> conn.twofactor.rows == old(conn.twofactor.rows))
      ensures var taken := Done(old(conn.memberships.LastOwnerOfSomeOrg(uuid)), failing, TwoFactorRecords)
                           && invitationsAllowed;
        (taken ==> forall i :: i in conn.invitations.rows <==> i in old(conn.invitations.rows) && i.email != Lower(email))
        && (!taken ==> conn.invitations.rows == old(conn.invitations.rows))
      ensures var done := Done(old(conn.memberships.LastOwnerOfSomeOrg(uuid)), failing, UserRow);
        (done ==> forall u :: u in conn.users.rows <==> u in old(conn.users.rows) && u.uuid != uuid)
        && (!done ==> conn.users.rows == old(conn.users.rows))
    {
      r := CheckNotLastOwner(conn.memberships);
      if r.Fail? {
        return;
      }
      var stop := if failing.Some? then failing.value.Index() else StepCount;
      if stop == Memberships.Index() {
        return Fail("Error deleting organization memberships");
      }
      conn.memberships.DeleteAllByUser(uuid);
      if stop == Ciphers.Index() {
        return Fail("Error deleting ciphers");
      }
      conn.ciphers.DeleteAllByUser(uuid);
      if stop == Folders.Index() {
        return Fail("Error deleting folders");
      }
      conn.folders.DeleteAllByUser(uuid);
      if stop == Devices.Index() {
        return Fail("Error deleting devices");
      }
      conn.devices.DeleteAllByUser(uuid);
      if stop == TwoFactorRecords.Index() {
        return Fail("Error deleting twofactors");
      }
      conn.twofactor.DeleteAllByUser(uuid);
      var _ := conn.invitations.Take(email, invitationsAllowed);
      if stop == UserRow.Index() {
        return Fail("Error deleting user");
      }
      var id := uuid;
      SelectKeepsUnique(conn.users.rows, RecordUuid, (u: UserRecord) => u.uuid != id);
      conn.users.rows := Select(conn.users.rows, (u: UserRecord) => u.uuid != id);
      r := Pass;
    }
  }
}
