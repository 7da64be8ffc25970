/** Client code that uses only the contracts of the account and two-factor
    models, the way the server's request handlers use them. */
module Scenarios {
  import opened Wrappers
  import opened Text
  import opened Collaborators
  import opened TwoFactors
  import opened Users

  /** An account created as "Alice@Example.com" is stored lower-cased and
      shows as Invited until a password is set, then as Enabled. */
  method NewAccountIsInvitedUntilPasswordSet(hashPassword: (Bytes, Bytes, nat) -> Bytes)
    requires forall p, s, n :: hashPassword(p, s, n) != []
  {
    var conn := new Conn();
    var alice := new User.New("Alice@Example.com", "u1", "stamp-1", [7], 100000, 10);
    assert alice.email == "alice@example.com";
    var profile := alice.ToJson(conn.twofactor, conn.memberships);
    assert profile._Status == 1 && !profile.TwoFactorEnabled;

    alice.SetPassword([1, 2, 3], hashPassword);
    profile := alice.ToJson(conn.twofactor, conn.memberships);
    assert profile._Status == 0;
  }

  /** A saved account is found under any casing of its address. */
  method SavedAccountIsFoundByAnyCase(alice: User, users: UserTable, now: Timestamp)
    requires users.Valid()
    requires alice.email == Lower("Ab@c.io")
    modifies alice, users
  {
    var saved := alice.Save(users, now);
    assert !AllWhitespace(alice.email) by { assert !IsWhitespace(alice.email[0]); }
    assert saved.Pass?;
    users.StoredAccountIsFound(alice.Record(), "Ab@c.io", "aB@C.IO");
    assert users.FindByMail("aB@C.IO").Some?;
  }

  /** A challenge record is reachable by its exact type but never listed,
      and never makes the profile report two-factor as enabled. */
  method ChallengeStaysInternal()
  {
    var conn := new Conn();
    var challenge := New("t1", "u1", U2fLoginChallenge, "challenge-state");
    conn.twofactor.Save(challenge);
    assert conn.twofactor.rows == [challenge];
    assert conn.twofactor.FindByUserAndType("u1", 1001).Some?;
    assert conn.twofactor.FindByUser("u1") == [];
    assert ToJson(challenge).Key == "";
  }

  /** The only Owner of an organisation cannot be deleted, and nothing is
      removed. */
  method SoleOwnerIsNotDeleted(user: User, conn: Conn)
    requires conn.Valid()
    requires conn.memberships.rows == [Membership("m1", user.uuid, "org", OwnerType)]
    modifies conn.users, conn.invitations, conn.twofactor, conn.memberships
    modifies conn.ciphers, conn.folders, conn.devices
  {
    var mine := conn.memberships.rows[0];
    assert conn.memberships.FindByOrgAndType("org", OwnerType) == [mine];
    var r := user.Delete(conn, true, None);
    assert r == Fail("Can't delete last owner");
    assert conn.memberships.rows == [mine];
  }

  /** A co-owner can be deleted and leaves no membership behind. */
  method CoOwnerIsDeleted(user: User, conn: Conn, other: string)
    requires conn.Valid() && user.uuid != other
    requires conn.memberships.rows ==
      [Membership("m1", user.uuid, "org", OwnerType), Membership("m2", other, "org", OwnerType)]
    modifies conn.users, conn.invitations, conn.twofactor, conn.memberships
    modifies conn.ciphers, conn.folders, conn.devices
  {
    var mine, theirs := conn.memberships.rows[0], conn.memberships.rows[1];
    assert !conn.memberships.IsLastOwner(mine) by {
      assert mine in conn.memberships.FindByOrgAndType("org", OwnerType);
      assert theirs in conn.memberships.FindByOrgAndType("org", OwnerType);
    }
    var r := user.Delete(conn, true, None);
    assert r == Pass;
    assert forall m :: m in conn.memberships.rows ==> m.userUuid != user.uuid;
  }
}
