/** The tables an account deletion cascades into: organisation memberships,
    and the ciphers, folders and devices owned by an account. Their own
    models (organization.rs, cipher.rs, folder.rs, device.rs) are not part
    of this model; each table here exposes only what the account rules use:
    the per-user listing and owner count of memberships, and
    `delete_all_by_user` on every table. */
module Collaborators {
  import opened Table

  /** `UserOrgType::Owner as i32`. */
  const OwnerType: int := 0

  /** A row of `users_organizations`: one account's role in one organisation. */
  datatype Membership = Membership(uuid: string, userUuid: string, orgUuid: string, atype: int)

  function MembershipUuid(m: Membership): string { m.uuid }

  class MembershipTable {
    var rows: seq<Membership>

    ghost predicate Valid()
      reads this
    {
      UniqueBy(rows, MembershipUuid)
    }

    constructor ()
      ensures Valid() && rows == []
    {
      rows := [];
    }

    /** `UserOrganization::find_by_user`: the memberships of one account. */
    function FindByUser(userUuid: string): (r: seq<Membership>)
      reads this
      ensures forall m :: m in r <==> m in rows && m.userUuid == userUuid
    {
      Select(rows, (m: Membership) => m.userUuid == userUuid)
    }

    /** `UserOrganization::find_by_org_and_type`: the memberships of one
        organisation that hold the given role. */
    function FindByOrgAndType(orgUuid: string, atype: int): (r: seq<Membership>)
      reads this
      ensures forall m :: m in r <==> m in rows && m.orgUuid == orgUuid && m.atype == atype
    {
      Select(rows, (m: Membership) => m.orgUuid == orgUuid && m.atype == atype)
    }

    /** The test the deletion guard applies to one membership: it is an
        Owner membership and its organisation counts at most one Owner. */
    predicate IsLastOwner(m: Membership)
      reads this
    {
      m.atype == OwnerType && |FindByOrgAndType(m.orgUuid, OwnerType)| <= 1
    }

    /** The account is the last Owner of some organisation it belongs to. */
    predicate LastOwnerOfSomeOrg(userUuid: string)
      reads this
    {
      exists m :: m in rows && m.userUuid == userUuid && IsLastOwner(m)
    }

    /** For an Owner membership, "at most one Owner" means that no other
        membership of the organisation is an Owner. */
    lemma SoleOwnerIff(m: Membership)
      requires Valid()
      requires m in rows && m.atype == OwnerType
      ensures IsLastOwner(m) <==>
              forall n :: n in rows && n.orgUuid == m.orgUuid && n.atype == OwnerType ==> n == m
    {
      var owners := FindByOrgAndType(m.orgUuid, OwnerType);
      assert m in owners;
      SelectKeepsUnique(rows, MembershipUuid, (n: Membership) => n.orgUuid == m.orgUuid && n.atype == OwnerType);
      if forall n :: n in rows && n.orgUuid == m.orgUuid && n.atype == OwnerType ==> n == m {
        assert owners[0] in owners && owners[|owners| - 1] in owners;
      }
    }

    /** `UserOrganization::delete_all_by_user`. */
    method DeleteAllByUser(userUuid: string)
      requires Valid()
      modifies this
      ensures Valid()
      ensures forall m :: m in rows <==> m in old(rows) && m.userUuid != userUuid
    {
      SelectKeepsUnique(rows, MembershipUuid, (m: Membership) => m.userUuid != userUuid);
      rows := Select(rows, (m: Membership) => m.userUuid != userUuid);
    }
  }

  /** A row of a table whose rows belong to one account (ciphers, folders,
      devices), reduced to its key and its owner. */
  datatype OwnedRow = OwnedRow(uuid: string, userUuid: string)

  function OwnedRowUuid(r: OwnedRow): string { r.uuid }

  class OwnedTable {
    var rows: seq<OwnedRow>

    ghost predicate Valid()
      reads this
    {
      UniqueBy(rows, OwnedRowUuid)
    }

    constructor ()
      ensures Valid() && rows == []
    {
      rows := [];
    }

    /** `Cipher::delete_all_by_user`, `Folder::delete_all_by_user`,
        `Device::delete_all_by_user`. */
    method DeleteAllByUser(userUuid: string)
      requires Valid()
      modifies this
      ensures Valid()
      ensures forall r :: r in rows <==> r in old(rows) && r.userUuid != userUuid
    {
      SelectKeepsUnique(rows, OwnedRowUuid, (r: OwnedRow) => r.userUuid != userUuid);
      rows := Select(rows, (r: OwnedRow) => r.userUuid != userUuid);
    }
  }
}
