# Accounts and two-factor records of a password-manager server, in Dafny

This project models the account and two-factor persistence rules of a
Bitwarden-compatible server (`bitwarden_rs`): the account record `User` and
the invitation ledger `Invitation` (`src/db/models/user.rs`), and the
two-factor registry `TwoFactor` (`src/db/models/two_factor.rs`). The SQL
store is replaced by in-memory tables, each a class whose `rows` field is
the sequence of its rows in storage order:

- `users`, keyed by `uuid` (`Users.UserTable`);
- `invitations`, keyed by `email` (`Users.InvitationTable`);
- `twofactor`, keyed by `uuid` (`TwoFactors.TwoFactorTable`);
- the collaborator tables the account deletion cascades into: organisation
  memberships (`Collaborators.MembershipTable`) and the cipher, folder and
  device tables (`Collaborators.OwnedTable`), reduced to their keys, owners
  and, for memberships, organisation and role.

`Users.Conn` stands for `DbConn` and groups the tables. The three statements
the models issue are defined once in module `Table`: a filtered load
(`Select`), a first match (`First`), and a primary-key upsert (`Upsert`),
which is SQLite's REPLACE: every row with the key is dropped and the new row
is appended. Each table class keeps its primary key unique (`Valid`).

`User` is a class because `set_password`, `reset_security_stamp`, `save` and
`update_revision` update the record in place. The store keeps copies of it
(`Record()`), which only `Save` refreshes. Queries are functions over a
table. Operations that write a table are methods whose postconditions give
the whole new contents of every table they may modify.

Foreign calls and ambient state become parameters:

- `crypto::hash_password` becomes the function argument `hashPassword`;
- `get_uuid`, `get_random_64` and `Utc::now` become the values they would
  have produced;
- `CONFIG.invitations_allowed()` and `CONFIG.password_iterations()` become
  explicit arguments.

Where the code and the design description of the server disagree, the model
follows the code:

- The design calls the recovery-code check case-insensitive. The code
  lower-cases only the stored code, so a candidate with an upper-case letter
  never matches (`Users.User.CheckValidRecoveryCode`).
- The design derives `TwoFactorEnabled` from enabled user-facing records. The
  code counts every record with a type code below 1000 and does not consult
  `enabled` (`Users.User.ToJson`).
- The design asks for an all-or-nothing deletion cascade. The code runs the
  removals as separate statements joined by `?`. A store failure part-way
  therefore leaves the earlier removals done. `Users.User.Delete` takes the
  failing statement as a parameter and states exactly this.
- The design keys invitations by a trimmed email. The code stores the email
  exactly as given, with no trimming and no lower-casing, while `find_by_mail`
  and `take` look up the lower-cased address
  (`Users.InvitationTable.Save`, `Users.InvitationTable.Take`).

## Model

| member | source | states |
|---|---|---|
| `Users.User.New` | src/db/models/user.rs:51-82 | a new account stores the lower-cased email, uses it as its name, has an empty password hash (so it is Invited), `"[]"` domain lists, KDF type 0 and 100000 iterations, and equal creation and update times |
| `Users.User.CheckValidRecoveryCode` | src/db/models/user.rs:93-99 | false when no recovery code is stored; otherwise true exactly when the candidate equals the lower-cased stored code; an accepted candidate has no upper-case letter |
| `Users.AsU32` | src/db/models/user.rs:102 | the `i32`-to-`u32` cast of the iteration count keeps non-negative values and wraps negative ones by 2^32 |
| `Users.User.SetPassword` | src/db/models/user.rs:101-103 | the hash becomes the hash of the password under the stored salt and iteration count; every other field, the security stamp included, is unchanged |
| `Users.User.ResetSecurityStamp` | src/db/models/user.rs:105-107 | the security stamp becomes the fresh value; every other field is unchanged |
| `Users.User.Status` | src/db/models/user.rs:126-131 | the status is Invited exactly when the password hash is empty and Enabled otherwise; Disabled is never derived |
| `Users.User.ToJson` | src/db/models/user.rs:121-149 | `_Status` is 1 exactly when the hash is empty and 0 otherwise; `TwoFactorEnabled` holds exactly when the account has a two-factor record with a code below 1000, whatever its `enabled` flag; `Organizations` lists exactly the account's memberships; no field carries the hash, salt, TOTP secret or recovery code |
| `Users.User.Save` | src/db/models/user.rs:151-162 | an all-whitespace email is refused with nothing changed; otherwise only `updated_at` changes, the table then holds exactly one row with the uuid, equal to the refreshed record, and every other row is kept |
| `Users.User.CheckNotLastOwner` | src/db/models/user.rs:165-172 | the walk over the account's memberships refuses exactly when the account is an Owner of some organisation that counts at most one Owner |
| `Users.User.Delete` | src/db/models/user.rs:164-184 | a refusal by the owner guard changes no table; otherwise the memberships, ciphers, folders, devices and all two-factor records of the account (internal ones included) are removed, the invitation for the lower-cased email is removed when invitations are allowed, and the account row goes last; a store failure stops the cascade at that statement with the earlier removals kept |
| `Users.User.UpdateRevision` | src/db/models/user.rs:206-210 | only `updated_at` changes on the record, and the stored rows with its uuid get the same time, other rows untouched |
| `Users.UserTable.UpdateUuidRevision` | src/db/models/user.rs:212-222 | rows with the uuid get the new `updated_at`; all other rows and fields are unchanged |
| `Users.UserTable.UpdateAllRevisions` | src/db/models/user.rs:192-204 | every row gets the new `updated_at` and nothing else changes |
| `Users.UserTable.FindByMail` | src/db/models/user.rs:224-230 | returns a row whose email equals the lower-cased argument, and none exactly when no row has that email |
| `Users.UserTable.FindByMailIgnoresCase` | src/db/models/user.rs:225 | two addresses that differ only in case find the same account |
| `Users.UserTable.StoredAccountIsFound` | src/db/models/user.rs:224-230 | an account stored under the lower-cased form of an address is found by every case variant of it |
| `Users.UserTable.FindByUuid` | src/db/models/user.rs:232-234 | returns a row with the uuid, and none exactly when no row has it |
| `Users.UserTable.FindByUuidIsTheRow` | src/db/models/user.rs:232-234 | with unique keys, the lookup returns the one stored row with that uuid |
| `Users.InvitationTable.Save` | src/db/models/user.rs:253-262 | an all-whitespace email is refused with the ledger unchanged; otherwise the invitation is present afterwards and invitations for other emails are kept |
| `Users.InvitationTable.Delete` | src/db/models/user.rs:264-268 | removes exactly the invitations with that email |
| `Users.InvitationTable.FindByMail` | src/db/models/user.rs:270-276 | returns an invitation whose email equals the lower-cased argument, and none exactly when there is none |
| `Users.InvitationTable.Take` | src/db/models/user.rs:278-284 | with invitations disallowed it returns false and the ledger is unchanged; otherwise it returns true exactly when an invitation for the lower-cased email existed, and that invitation is gone afterwards |
| `Text.Lower` | src/db/models/user.rs:53 | the lower-cased form has no upper-case letter and differs from its argument only in case |
| `Text.LowerIdempotent` | src/db/models/user.rs:225 | lower-casing twice is lower-casing once, so a stored lower-case email is its own lookup key |
| `Text.LowerOfLowerCase` | src/db/models/user.rs:225 | a string without upper-case letters is its own lower-case form |
| `Text.LowerEqualIff` | src/db/models/user.rs:225 | two strings have the same lower-case form exactly when they differ only in case |
| `Text.TrimStart` | src/db/models/user.rs:152 | the result is the suffix of the string from its first non-whitespace character |
| `Text.TrimEnd` | src/db/models/user.rs:152 | the result is the prefix of the string up to its last non-whitespace character |
| `Text.TrimEmptyIffAllWhitespace` | src/db/models/user.rs:152 | `trim()` yields the empty string exactly when every character is whitespace |
| `Table.Select` | src/db/models/two_factor.rs:85-91 | a filtered load returns exactly the rows that satisfy the filter and is no longer than the table |
| `Table.First` | src/db/models/user.rs:226-229 | `first()` returns a row that satisfies the filter, and none exactly when no row does |
| `Table.Upsert` | src/db/models/two_factor.rs:72-77 | after `replace_into` the row is present, it is the only row with its key, and rows with other keys are exactly those before |
| `Table.UpsertKeepsUnique` | src/db/models/user.rs:158-161 | an upsert keeps the primary key unique |
| `Table.UpsertIdempotent` | src/db/models/two_factor.rs:72-77 | upserting the same row twice gives the same table as once |
| `Table.SelectKeepsUnique` | src/db/models/two_factor.rs:101-105 | deleting by a filter keeps the primary key unique |
| `Table.SelectAppend` | src/db/models/two_factor.rs:85-91 | a filter distributes over concatenation of tables |
| `Table.SelectAll` | src/db/models/two_factor.rs:85-91 | a filter that every row passes returns the table unchanged |
| `Collaborators.MembershipTable.FindByUser` | src/db/models/user.rs:165 | returns exactly the memberships of the account |
| `Collaborators.MembershipTable.FindByOrgAndType` | src/db/models/user.rs:168 | returns exactly the memberships of the organisation with the given role |
| `Collaborators.MembershipTable.SoleOwnerIff` | src/db/models/user.rs:166-170 | for an Owner membership, "at most one Owner" holds exactly when no other membership of the organisation is an Owner |
| `Collaborators.MembershipTable.DeleteAllByUser` | src/db/models/user.rs:174 | removes exactly the account's memberships and keeps the key unique |
| `Collaborators.OwnedTable.DeleteAllByUser` | src/db/models/user.rs:175-177 | removes exactly the account's ciphers, folders or devices and keeps the key unique |
| `TwoFactors.InternalIffCodeAtThreshold` | src/db/models/two_factor.rs:26-39 | exactly the three challenge markers have codes of 1000 or more; all codes are non-negative |
| `TwoFactors.FromCode` | src/db/models/two_factor.rs:25-39 | decoding a code yields the type with that code, and nothing when no type has it |
| `TwoFactors.FromCodeInvertsCode` | src/db/models/two_factor.rs:25-39 | decoding the code of a type gives back that type |
| `TwoFactors.New` | src/db/models/two_factor.rs:43-51 | a new record is enabled, stores the type's code, and keeps the given owner and payload; it is user-facing exactly when its type is not a challenge marker |
| `TwoFactors.ToJson` | src/db/models/two_factor.rs:53-59 | the detail shape mirrors `enabled`, always has an empty `Key` and the `twoFactorAuthenticator` tag |
| `TwoFactors.ToJsonList` | src/db/models/two_factor.rs:61-67 | the list entry mirrors `enabled`, reports the raw type code and the `twoFactorProvider` tag |
| `TwoFactors.ProjectionsIgnoreData` | src/db/models/two_factor.rs:53-67 | records that differ only in their payload project identically, so neither shape exposes `data` |
| `TwoFactors.TwoFactorTable.FindByUser` | src/db/models/two_factor.rs:85-91 | returns exactly the account's records with a code below 1000, so never a challenge record |
| `TwoFactors.TwoFactorTable.FindByUserAndType` | src/db/models/two_factor.rs:93-99 | returns a record of the account with exactly that code, internal codes included, and none exactly when there is none |
| `TwoFactors.TwoFactorTable.ChallengeFoundButNotListed` | src/db/models/two_factor.rs:85-99 | a stored challenge record is found by the exact lookup and absent from the listing |
| `TwoFactors.TwoFactorTable.Save` | src/db/models/two_factor.rs:72-77 | afterwards the record is present, is the only one with its uuid, and records with other uuids are exactly those before |
| `TwoFactors.SaveTwiceIsSaveOnce` | src/db/models/two_factor.rs:72-77 | saving a record twice leaves the table as saving it once |
| `TwoFactors.TwoFactorTable.Delete` | src/db/models/two_factor.rs:79-83 | removes exactly the record with that uuid; every other record is kept |
| `TwoFactors.TwoFactorTable.DeleteAllByUser` | src/db/models/two_factor.rs:101-105 | leaves no record of the account, internal ones included, and keeps every record of other accounts |

## Left out

- `check_valid_password` (src/db/models/user.rs:84-91) only forwards to the password-hash verifier, which is not part of this model.
- `crypto::hash_password`, `util::get_uuid`, `crypto::get_random_64`, `Utc::now` and the configuration are parameters. Constant-time comparison (`ct_eq`) cannot be expressed and is plain equality.
- Text.Lower: lower-cases ASCII letters only, where `to_lowercase` folds all of Unicode.
- Users.User.ResetSecurityStamp: does not promise that the new stamp differs from the old one; that depends on `get_uuid`, which is outside the model.
- Users.User.SetPassword: does not promise a non-empty hash (and so the Enabled status afterwards); that depends on `hash_password`.
- Users.UserTable.UpdateUuidRevision: the bounded retry of `crate::util::retry` (10 attempts) is not modelled, nor the logging of a failure in `update_uuid_revision`. The statement always succeeds, which leaves out the difference between the swallowed single-account error and the propagated bulk error.
- Store failures are modelled only inside `User::delete`. Every other single statement is taken to succeed, so methods whose source returns `EmptyResult` only for store errors (`TwoFactor::save`, `delete`, `delete_all_by_user`, `Invitation::delete`) return nothing.
- `get_all` and the `.expect` panics on a failed load are not modelled.
- The schema is not part of this model: tables are keyed by their primary key only. A unique index on `users.email`, under which SQLite's REPLACE would also drop another row with the same email, is not represented.
- `UserOrganization`, `Cipher`, `Folder` and `Device` are not part of this model beyond their per-user deletion and the membership queries the owner guard uses. `UserOrganization::find_by_user` is taken to return every membership of the account. The projections listed under `Organizations` are represented by the memberships themselves.
- JSON serialisation: each projection is a record with the wire field names.
- Concurrency and transactions: every operation runs alone on the tables.
- Integer widths: `password_iterations`, `atype` and the KDF fields are unbounded integers. Only the `as u32` cast of the iteration count is modelled.
