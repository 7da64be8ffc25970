/** The two-factor registry (`src/db/models/two_factor.rs`): the records an
    account holds for its second-factor providers, together with the
    server's own in-flight challenge records, which share the table but
    carry type codes from 1000 up. */
module TwoFactors {
  import opened Wrappers
  import opened Table

  /** Type codes from this value up are the implementation's own challenge
      records and are never listed to the user. */
  const InternalThreshold: int := 1000

  datatype TwoFactorType =
    | Authenticator | Email | Duo | YubiKey | U2f | Remember | OrganizationDuo
    | U2fRegisterChallenge | U2fLoginChallenge | EmailVerificationChallenge
  {
    /** The code stored in the `atype` column (`atype as i32`). */
    function Code(): int
    {
      match this
      case Authenticator => 0
      case Email => 1
      case Duo => 2
      case YubiKey => 3
      case U2f => 4
      case Remember => 5
      case OrganizationDuo => 6
      case U2fRegisterChallenge => 1000
      case U2fLoginChallenge => 1001
      case EmailVerificationChallenge => 1002
    }

    /** A challenge marker rather than a provider the user enrolled. */
    predicate IsInternal()
    {
      this == U2fRegisterChallenge || this == U2fLoginChallenge || this == EmailVerificationChallenge
    }
  }

  /** The enumeration's codes split at the threshold: exactly the three
      challenge markers sit at or above it. */
  lemma InternalIffCodeAtThreshold(t: TwoFactorType)
    ensures t.IsInternal() <==> t.Code() >= InternalThreshold
    ensures 0 <= t.Code()
  {
  }

  /** The decoding `#[derive(FromPrimitive)]` gives the enumeration. */
  function FromCode(code: int): (r: Option<TwoFactorType>)
    ensures r.Some? ==> r.value.Code() == code
    ensures r.None? ==> forall t: TwoFactorType :: t.Code() != code
  {
    match code
    case 0 => Some(Authenticator)
    case 1 => Some(Email)
    case 2 => Some(Duo)
    case 3 => Some(YubiKey)
    case 4 => Some(U2f)
    case 5 => Some(Remember)
    case 6 => Some(OrganizationDuo)
    case 1000 => Some(U2fRegisterChallenge)
    case 1001 => Some(U2fLoginChallenge)
    case 1002 => Some(EmailVerificationChallenge)
    case _ => None
  }

  /** Decoding inverts the code: distinct types have distinct codes. */
  lemma FromCodeInvertsCode(t: TwoFactorType)
    ensures FromCode(t.Code()) == Some(t)
  {
  }

  /** A row of the `twofactor` table. `atype` is the raw column value and
      need not be one of the enumeration's codes. */
  datatype TwoFactor = TwoFactor(uuid: string, userUuid: string, atype: int, enabled: bool, data: string)

  function TwoFactorUuid(t: TwoFactor): string { t.uuid }

  /** `TwoFactor::new`; `uuid` is the fresh identifier `get_uuid` supplies. */
  function New(uuid: string, userUuid: string, atype: TwoFactorType, data: string): (t: TwoFactor)
    ensures t.enabled
    ensures t.atype == atype.Code() && FromCode(t.atype) == Some(atype)
    ensures t.userUuid == userUuid && t.data == data && t.uuid == uuid
    ensures IsUserFacing(t) <==> !atype.IsInternal()
  {
    TwoFactor(uuid, userUuid, atype.Code(), true, data)
  }

  predicate IsUserFacing(t: TwoFactor)
  {
    t.atype < InternalThreshold
  }

  /** The provider detail shape (`to_json`): fields `Enabled`, `Key`, `Object`. */
  datatype TwoFactorJson = TwoFactorJson(Enabled: bool, Key: string, Object: string)

  /** The list-entry shape (`to_json_list`): fields `Enabled`, `Type`, `Object`. */
  datatype TwoFactorListJson = TwoFactorListJson(Enabled: bool, Type: int, Object: string)

  function ToJson(t: TwoFactor): (j: TwoFactorJson)
    ensures j.Enabled == t.enabled
    ensures j.Key == ""
    ensures j.Object == "twoFactorAuthenticator"
  {
    TwoFactorJson(t.enabled, "", "twoFactorAuthenticator")
  }

  function ToJsonList(t: TwoFactor): (j: TwoFactorListJson)
    ensures j.Enabled == t.enabled
    ensures j.Type == t.atype
    ensures j.Object == "twoFactorProvider"
  {
    TwoFactorListJson(t.enabled, t.atype, "twoFactorProvider")
  }

  /** Neither projection depends on the stored payload: two records that
      differ only in `data` project identically, so the payload is never
      exposed. */
  lemma ProjectionsIgnoreData(t: TwoFactor, data: string)
    ensures ToJson(t.(data := data)) == ToJson(t)
    ensures ToJsonList(t.(data := data)) == ToJsonList(t)
  {
  }

  /** The `twofactor` table, keyed by `uuid`. */
  class TwoFactorTable {
    var rows: seq<TwoFactor>

    ghost predicate Valid()
      reads this
    {
      UniqueBy(rows, TwoFactorUuid)
    }

    constructor ()
      ensures Valid() && rows == []
    {
      rows := [];
    }

    /** `TwoFactor::find_by_user`: the account's records, internal
        challenge records filtered out. */
    function FindByUser(userUuid: string): (r: seq<TwoFactor>)
      reads this
      ensures forall t :: t in r <==> t in rows && t.userUuid == userUuid && t.atype < InternalThreshold
      ensures forall t :: t in r ==> IsUserFacing(t)
    {
      Select(rows, (t: TwoFactor) => t.userUuid == userUuid && t.atype < InternalThreshold)
    }

    /** `TwoFactor::find_by_user_and_type`: a record of the account with
        exactly this code, internal codes included. */
    function FindByUserAndType(userUuid: string, atype: int): (r: Option<TwoFactor>)
      reads this
      ensures r.Some? ==> r.value in rows && r.value.userUuid == userUuid && r.value.atype == atype
      ensures r.None? <==> forall t :: t in rows ==> !(t.userUuid == userUuid && t.atype == atype)
    {
      First(rows, (t: TwoFactor) => t.userUuid == userUuid && t.atype == atype)
    }

    /** The two queries split the table: a stored challenge record is
        reachable through the exact lookup and absent from the listing. */
    lemma ChallengeFoundButNotListed(t: TwoFactor)
      requires t in rows && !IsUserFacing(t)
      ensures FindByUserAndType(t.userUuid, t.atype).Some?
      ensures t !in FindByUser(t.userUuid)
    {
    }

    /** `TwoFactor::save`: insert-or-overwrite on `uuid`. */
    method Save(t: TwoFactor)
      requires Valid()
      modifies this
      ensures Valid()
      ensures t in rows
      ensures forall u :: u in rows && u.uuid == t.uuid ==> u == t
      ensures forall u: TwoFactor :: u.uuid != t.uuid ==> (u in rows <==> u in old(rows))
      ensures rows == Upsert(old(rows), TwoFactorUuid, t)
    {
      UpsertKeepsUnique(rows, TwoFactorUuid, t);
      rows := Upsert(rows, TwoFactorUuid, t);
    }

    /** `TwoFactor::delete`: removes the record with this `uuid`. */
    method Delete(t: TwoFactor)
      requires Valid()
      modifies this
      ensures Valid()
      ensures forall u :: u in rows <==> u in old(rows) && u.uuid != t.uuid
    {
      SelectKeepsUnique(rows, TwoFactorUuid, (u: TwoFactor) => u.uuid != t.uuid);
      rows := Select(rows, (u: TwoFactor) => u.uuid != t.uuid);
    }

    /** `TwoFactor::delete_all_by_user`: every record of the account goes,
        internal challenge records included. */
    method DeleteAllByUser(userUuid: string)
      requires Valid()
      modifies this
      ensures Valid()
      ensures forall u :: u in rows <==> u in old(rows) && u.userUuid != userUuid
    {
      SelectKeepsUnique(rows, TwoFactorUuid, (u: TwoFactor) => u.userUuid != userUuid);
      rows := Select(rows, (u: TwoFactor) => u.userUuid != userUuid);
    }
  }

  /** Saving a record a second time changes nothing. */
  lemma SaveTwiceIsSaveOnce(rows: seq<TwoFactor>, t: TwoFactor)
    ensures Upsert(Upsert(rows, TwoFactorUuid, t), TwoFactorUuid, t) == Upsert(rows, TwoFactorUuid, t)
  {
    UpsertIdempotent(rows, TwoFactorUuid, t);
  }
}
