# Verification of Trominal's key, session and SSH core

A Dafny model of the parts of Trominal whose correctness is easy to get subtly
wrong: the transactions that move a user's or a team's ciphertexts to a new
key, refresh-token families and single-use codes, the encoders that write SSH
keys and the code that reads them, and the SFTP client's hand-written parsers.
`dafny verify dfyconfig.toml` checks the whole project.

## What is modelled

**Vault key rotation.** `VaultRotation` is the master-password transaction as a
class over its four tables, with its loops, early failures and rollback.
`VaultProtocol` puts it among sign-ins, refreshes, revocations and vault writes
that are begun with one key and committed later by the `SerializeVaultWrites`
middleware. The server only stores ciphertext, so every text carries a tag that
names the key it was made with and that no operation reads. `VaultVersions` is
about the optimistic version check over whole runs, `VaultEffects` about what
each operation changes and leaves alone, column by column. `LostUpdates` asks
whether a rotation can overwrite a change its client never saw, and `VaultRuns`
holds three concrete runs from an empty server.

**Teams.** `TeamService` is the service as a class; `TeamRuns` proves what every
run of its operations keeps. `TeamRecords` adds ordinary writes to team records
and shows what removing a member is for: a key the removed member still holds
opens no live record. `TeamWraps` is the other side, that every member can open
them; `TeamRights` says who can change what, and `TeamLife` is a concrete run.

**Sessions.** `RefreshTokens` splits a refresh into reading its row and, later,
the conditional claim with the issue, and lets other requests run in between.
`RefreshReplay` is about replayed tokens and ended sessions, `RefreshOutcomes`
about what a presented token comes to and about suspension. `TwoFactor` lets
requests act on a row they loaded earlier. Hashes and code generation are
uninterpreted.

**Keys on the wire.** `Bytes`, `Base64`, `SshWire`, `Der`, `Pem`, `JwkBytes` and
`OpenSshKey` are the TypeScript exporters together with strict readers for RFC
4251 section 5, RFC 4648 section 4, ITU-T X.690 sections 8.1.3 and 8.3, RFC 8017
appendix A.1.2 and OpenSSH's PROTOCOL.key. `KeyInspection` is the Rust side,
which decodes only the first 88 base64 characters of what TypeScript writes, and
`KeyMarkers` says what it answers for any other text.
`TeamKey` has the associated-data strings, the wrapped-key payload, and wrapping
over an ideal cipher and sealed box: a log of everything honestly wrapped.

**SFTP.** `TransferProcess`, `Capture`, `CivilDate`, `Listing`, `BatchArgs` and
`HostKeys` follow the Rust client; `Text` and `Decimals` hold the few
standard-library operations they use.

## Where the code falls short of the property

Each of these but the last two comes with a concrete failing input or run and an
exact condition.

- A rotation keeps every record and token under the current key exactly when the
  rotating client presents its own session's refresh token and has no ciphertext
  in flight on the access token that survives (`VaultProtocol.RotationKeepsInvIff`).
  Two runs from an empty server break the two halves:
  `VaultRuns.BorrowedTokenSurvives` and `VaultRuns.WriteInFlightKeepsTheOldKey`.
- "Unchanged since it was read" is judged by `updated_at`, to the second. When a
  rotation is accepted the row has stayed unchanged since it was read exactly
  when no change in between ended on the timestamp that was read
  (`LostUpdates.NoUpdateLostIff`), for instance when every changing save is later
  than the row it changes (`LostUpdates.LaterSavesLoseNothing`); in
  `VaultRuns.SameSecondLosesAnUpdate` a change is lost.
- Replaying a refresh token ends the family's access tokens exactly when each
  records a device and the replayed row, as it was read, records a device that
  still exists, or there are none to end (`RefreshReplay.ReplayEndsAccessIff`).
  Access survives after a device row is deleted
  (`RefreshReplay.ReplayAfterDeviceDeletionLeavesAccess`, a run from an empty
  store), and for tokens issued before access tokens recorded a device
  (`RefreshReplay.ReplayLeavesOldAccess`).
- A time step can be accepted twice for one secret. In every state of every run a
  given request can, from a given time on, have a spent step accepted again
  exactly under the conditions of `TwoFactor.RequestCanRepeatIff` and
  `TwoFactor.ConfirmationCanRepeatIff`, and never more than two steps of time
  away from the first acceptance (`TwoFactor.RepeatsAreNear`). A request that has
  just loaded the row can exactly when the stored step is behind one that is
  still in the window, and the stored step falls behind exactly at a confirmation
  of a secret that is no longer pending (`TwoFactor.FreshRequestCanRepeatIff`,
  `TwoFactor.FallsBehindIff`). `TwoFactor.FreshSignInReusesAStep` is such a run,
  from a user without a factor.
- An empty RSA parameter becomes a DER integer without contents
  (`Der.RsaRoundTripIff`, `Der.EmptyParameterIsRefused`), and a zero given as bytes
  becomes an mpint of one zero byte (`SshWire.ReadSshMpintIff`,
  `SshWire.ZeroMpintIsRefused`); both standards forbid these.
- After the monitor loses sight of a child and its `wait` fails, a cancel request
  is told "cancelled" although the child was never reaped
  (`TransferProcess.CancelledMeansReapedIff`, `TransferProcess.CancelledButNotReaped`).
  The documentation of `CancelResult::Cancelled` promises more.
- Two team-key contexts share their associated data exactly when versions and
  joined ids agree, which colons in team ids make possible
  (`TeamKey.TeamKeyAdsAgreeIff`, `TeamKey.ColonsInTeamIdsCollide`).
- A symbolic link's name is cut wrongly exactly when " -> " already starts in it
  (`Listing.PrintedLinkReadsBackIff`, `Listing.ArrowInNameIsCut`).
- The check for a ninth field in a listing row can never fire
  (`Listing.AlwaysEightFields`).
- `packages/crypto/src/encoding.ts:3` calls its base64 URL-safe and unpadded; the
  code uses the original padded alphabet, and so does the model.

## Model

| member | source | states |
|---|---|---|
| VaultRotation.BaseOf | apps/backend/app/Services/VaultRotationService.php:235-236 | a column is a base's ciphertext column exactly for the base found by cutting the suffix |
| VaultRotation.Database.CipherBases | apps/backend/app/Services/VaultRotationService.php:230-241 | lists exactly the encrypted fields: both halves of the pair are registered |
| VaultRotation.Database.ValidatedCipherFields | apps/backend/app/Services/VaultRotationService.php:251-290 | succeeds exactly when every submitted column is a non-empty text of an encrypted field, pairs are complete and no populated ciphertext is skipped; returns the submission |
| VaultRotation.Database.CollectItems | apps/backend/app/Services/VaultRotationService.php:171-185 | succeeds exactly when no record appears twice; the table then holds each item |
| VaultRotation.SubmittedHoldsTheItems | apps/backend/app/Services/VaultRotationService.php:171-185 | the collected table and the item list hold the same items under the same keys |
| VaultRotation.Database.ReplaceType | apps/backend/app/Services/VaultRotationService.php:189-221 | for one type: succeeds exactly when submitted ids equal the live personal ids and each record is unchanged and completely replaced; then overlays exactly those |
| VaultRotation.TableFitsIffTypeFits | apps/backend/app/Services/VaultRotationService.php:199-219 | comparing id sets and walking the records accepts the same submissions as the item-by-item requirement |
| VaultRotation.OtherKindsDoNotMatter | apps/backend/app/Services/VaultRotationService.php:189-221 | having already replaced earlier types changes neither a later type's records nor its verdict |
| VaultRotation.Database.ReplacePersonalRecords | apps/backend/app/Services/VaultRotationService.php:169-224 | the nested loops succeed exactly when the items are the user's personal records, each once, unchanged and completely re-encrypted; counts them |
| VaultRotation.RecordsAfterRotation | apps/backend/app/Services/VaultRotationService.php:169-224 | afterwards each item's record is the old one overlaid with its fields, every personal record was an item's, and nothing else changed |
| LostUpdates.NoUpdateLostIff | apps/backend/app/Services/VaultRotationService.php:211-219 | over any run: an item accepted with the timestamp its record had earlier finds the record unchanged since exactly when no change in between ended on that timestamp |
| LostUpdates.LaterSavesLoseNothing | apps/backend/app/Services/VaultRotationService.php:211-219 | it does if every changing save in between is later than the row it changes |
| VaultRuns.SameSecondLosesAnUpdate | apps/backend/app/Services/VaultRotationService.php:211-219 | a run from an empty server in which two writes within one second lose the second to an accepted rotation |
| VaultRotation.Database.LockCurrentRefreshToken | apps/backend/app/Services/VaultRotationService.php:147-163 | the session fits exactly when the user has a usable token of that hash |
| VaultRotation.Database.RotateMasterPassword | apps/backend/app/Services/VaultRotationService.php:48-95 | accepted exactly when version, session and items fit; then user, records and tokens are the rotated ones; any failure, however late in the loops, leaves every table as it was; each error comes with its reason: a missing user, another version, an unusable session, a repeated item, a stale type or an incomplete record |
| VaultRotation.Database.RebindPrivateKey | apps/backend/app/Services/VaultRotationService.php:101-133 | accepted exactly for the expected version of a legacy envelope; bumps the version; otherwise changes nothing |
| VaultVersions.VersionMovesAtChanges | apps/backend/app/Services/VaultRotationService.php:60-67 | a user's version grows by one at their accepted rotation or rebind and moves at no other step |
| VaultVersions.VersionCountsChanges | apps/backend/app/Services/VaultRotationService.php:60-67 | between any two moments of any run the version grows by the number of accepted changes, so it never falls |
| VaultVersions.OneChangePerVersion | apps/backend/app/Services/VaultRotationService.php:135-145 | over any run, of all rotations and rebinds that name one version of a user's vault at most one is accepted |
| VaultVersions.SpentTokenAuthorisesNothing | apps/backend/app/Services/VaultRotationService.php:147-163 | over any run, a refresh token once exchanged or revoked, one that has expired and one of another user authorise no rotation: nothing changes |
| VaultEffects.RotationStoresTheNewKey | apps/backend/app/Services/VaultRotationService.php:59-66 | salt, parameters, private key, nonce and binding are the submitted ones, the version is the next, and no other user changes |
| VaultEffects.RebindStoresTheEnvelope | apps/backend/app/Services/VaultRotationService.php:106-117 | only envelope, binding and version change, and no second rebind is possible |
| VaultEffects.RotationEndsOtherSessions | apps/backend/app/Services/VaultRotationService.php:68-79 | the presented refresh token and the current access token stay, the user's others end, nobody else's is touched |
| VaultEffects.RotationCoversExactly | apps/backend/app/Services/VaultRotationService.php:191-213 | an item for every live record of the user that no team owns, with the timestamp it still has; every other record is untouched |
| VaultEffects.RotationReplacesPairs | apps/backend/app/Services/VaultRotationService.php:251-290 | every populated ciphertext is replaced with its nonce by one item's texts of 1 to 1,048,576 characters |
| VaultEffects.RotationTouchesOnlyPairs | apps/backend/app/Services/VaultRotationService.php:216-219 | a column that changes is half of a registered pair that one item replaced; owner, team and trash mark stay and the timestamp moves exactly with the columns |
| VaultEffects.StaleIff | apps/backend/app/Services/VaultRotationService.php:199-213 | the conflict reason holds exactly when some own record was not sent, something else was, or a record has another timestamp by now |
| VaultEffects.IncompleteIff | apps/backend/app/Services/VaultRotationService.php:251-290 | the other reason holds exactly when a record that is as the client read it has a column that is no full text of a registered pair, half a pair, or a ciphertext left out |
| VaultProtocol.RotationMovesEveryRecord | apps/backend/app/Services/VaultRotationService.php:57-66 | after an accepted rotation with texts of a new key every live personal record's ciphertexts are under its owner's key |
| VaultProtocol.RotationKeepsInvIff | apps/backend/app/Services/VaultRotationService.php:48-95 | an accepted rotation leaves records, tokens and in-flight writes consistent exactly when the presented refresh token is the session's own and no ciphertext is in flight on the surviving access token |
| VaultRuns.BorrowedTokenSurvives | apps/backend/app/Services/VaultRotationService.php:147-163 | a run from an empty server: presenting another session's refresh token is accepted and leaves a usable token whose session lacks the new key |
| VaultRuns.WriteInFlightKeepsTheOldKey | apps/backend/app/Http/Middleware/SerializeVaultWrites.php:36-57 | a run from an empty server: a write begun before the client's own rotation commits after it on the surviving access token, and a live record holds a text of the old key |
| VaultProtocol.SurvivingTokens | apps/backend/app/Services/VaultRotationService.php:68-79 | every surviving token's session holds the new key exactly when the presented refresh token is the rotating session's |
| VaultProtocol.SurvivingWrites | apps/backend/app/Http/Middleware/SerializeVaultWrites.php:39-47 | in-flight writes that can still commit are under the new key exactly when none with a ciphertext is on the surviving access token |
| VaultProtocol.CommitKeepsRecords | apps/backend/app/Http/Middleware/SerializeVaultWrites.php:36-57 | a commit whose access token is still there keeps every record under its owner's key |
| VaultProtocol.StepKeepsInv | apps/backend/app/Http/Middleware/SerializeVaultWrites.php:15-22 | sign-in, refresh, revocation, begin, commit, deletion, rotation and rebind each keep the invariant |
| VaultProtocol.RecordsAreAlwaysUnderTheCurrentKey | apps/backend/app/Http/Middleware/SerializeVaultWrites.php:15-65 | at every moment of every interleaving from an empty server, live personal ciphertexts are under the current key and every working session holds it |
| VaultProtocol.StaleWriteNeverLands | apps/backend/app/Http/Middleware/SerializeVaultWrites.php:19-22 | a write in flight on another token when the key is rotated never changes a table, however much later it commits |
| VaultProtocol.HandleWrite | apps/backend/app/Http/Middleware/SerializeVaultWrites.php:28-65 | a write whose token is gone gets 401; a creation succeeds only for a new id, an update only on the writer's own live row; any error status rolls every row back; success writes or clears exactly the columns sent |
| VaultEffects.CommitWritesItsRow | apps/backend/app/Http/Middleware/SerializeVaultWrites.php:36-57 | a commit changes at most its own row, which is new or the writer's own, live and no team's, and there exactly the columns sent |
| VaultEffects.ExchangeSpendsTheToken | apps/backend/app/Services/AuthService.php:302-330 | an exchange spends the presented token and adds one open token of the same user and session |
| VaultEffects.RevocationIsExact | apps/backend/app/Services/AuthService.php:399-414 | a revocation marks and deletes exactly the named tokens |
| TeamService.TeamDatabase.RequireTeamAction | apps/backend/app/Services/TeamService.php:261-271 | gives a membership exactly when the actor's role in the team allows the action |
| TeamService.TeamDatabase.AssertNotLastOwner | apps/backend/app/Services/TeamService.php:476-488 | passes exactly when another owner exists |
| TeamService.TeamDatabase.Create | apps/backend/app/Services/TeamService.php:46-75 | the creator becomes owner at version 1, or nothing changes |
| TeamService.TeamDatabase.Update | apps/backend/app/Services/TeamService.php:80-94 | renames exactly for an allowed actor with the current key version, or changes nothing |
| TeamService.TeamDatabase.Delete | apps/backend/app/Services/TeamService.php:96-103 | an owner trashes the team, or nothing changes |
| TeamService.TeamDatabase.AddMember | apps/backend/app/Services/TeamService.php:115-162 | accepted exactly under its seven conditions; the new membership is at the team's key version |
| TeamService.TeamDatabase.UpdateMember | apps/backend/app/Services/TeamService.php:167-192 | accepted exactly when the actor may manage, only owners make owners and an owner stays |
| TeamService.DistinctIffCounted | apps/backend/app/Services/TeamService.php:510 | comparing the count with the count of unique ids finds repetition |
| TeamService.TeamDatabase.ValidateRotationPayload | apps/backend/app/Services/TeamService.php:495-525 | succeeds exactly when the rewraps name the remaining members, each once |
| TeamService.TeamDatabase.CollectTeamScopedResources | apps/backend/app/Services/TeamService.php:456-474 | the live records of team-scoped types that the team owns |
| TeamService.TeamDatabase.ApplyEntry | apps/backend/app/Services/TeamService.php:403-437 | one record is overlaid exactly when only encrypted columns are sent, the client saw the current values and every populated one is replaced |
| TeamService.TeamDatabase.ApplyResourceReencryption | apps/backend/app/Services/TeamService.php:375-448 | the loop succeeds exactly when the entries are the team's live records, each once and each fitting; then each is overlaid |
| TeamService.TeamDatabase.RemoveMember | apps/backend/app/Services/TeamService.php:205-259 | accepted exactly under all conditions together; a failure at any later record leaves nothing of the earlier loops |
| TeamRuns.RemovalReplacesEveryField | apps/backend/app/Services/TeamService.php:430-437 | every encrypted field a live team record had holds a submitted non-empty text afterwards; other columns keep their values |
| TeamRuns.RemovalTouchesOnlyTeamRecords | apps/backend/app/Services/TeamService.php:375-448 | no other record changes, and a team record changes in its columns only |
| TeamRuns.RemovalRewrapsTheOthers | apps/backend/app/Services/TeamService.php:222-250 | exactly the other members remain, all at the old version plus one with the wrap submitted for them, roles kept |
| TeamRuns.RemovedUserIsOut | apps/backend/app/Services/TeamService.php:245 | the removed user has no membership left in the team |
| TeamRuns.StepKeepsInv | apps/backend/app/Services/TeamService.php:46-259 | every operation keeps an owner in each live team, one membership per user, and memberships at the team's key version |
| TeamRuns.InvAlwaysHolds | apps/backend/app/Services/TeamService.php:46-259 | the same at every moment of every run |
| TeamRuns.OnlyOwnersMakeOwners | apps/backend/app/Services/TeamService.php:122-177 | a step makes a user an owner only by their creating the team or by an act of a current owner |
| TeamRuns.OwnershipHasAnOrigin | apps/backend/app/Services/TeamService.php:122-177 | over a run every owner was one at the start or was made one at an earlier such step |
| TeamRuns.KeyVersionCountsRemovals | apps/backend/app/Services/TeamService.php:223-250 | over a run the key version is the starting one plus the number of accepted removals |
| TeamRights.RightsIff | apps/backend/app/Enums/TeamRole.php:8-72 | which roles carry which right |
| TeamRights.UpdateIff | apps/backend/app/Services/TeamService.php:80-103 | renaming and deleting are accepted exactly from a manager naming the current version, or from an owner, of a live team |
| TeamRights.AddIff | apps/backend/app/Services/TeamService.php:115-143 | an addition is accepted exactly from a manager naming the current key version, for an active account not in the team, and as owner only from an owner |
| TeamRights.RoleChangeIff | apps/backend/app/Services/TeamService.php:167-192 | a role change exactly from a manager, to owner only from an owner, and never away from the last owner |
| TeamRights.RemovalNeeds | apps/backend/app/Services/TeamService.php:205-228 | a removal exactly from a manager, of a member who is not the last owner, with the current version and name, one wrap for each other member and fitting entries |
| TeamRights.EncryptedIff | apps/backend/app/Services/TeamService.php:415-437 | an encrypted column is a registered one that ends in one of the two suffixes |
| TeamRights.OnlyManagersChangeTheTeam | apps/backend/app/Services/TeamService.php:80-259 | only an owner or admin changes a team's row or memberships, only an owner deletes it |
| TeamRights.OnlyWritersChangeRecords | apps/backend/app/Http/Controllers/Api/V1/VaultResourceController.php:62-172 | only an owner, admin or member changes a team's records; viewers and outsiders change nothing |
| TeamRights.RoleIsAsAssigned | apps/backend/app/Services/TeamService.php:122-192 | after an addition or a role change the user has exactly the role that was assigned, and nobody else's changes |
| TeamRights.NewMembersAreActive | apps/backend/app/Services/TeamService.php:127-133 | a membership that appears is the creator's or an existing, unsuspended account's |
| TeamRights.RemovalSawTheCurrentState | apps/backend/app/Services/TeamService.php:217-232 | a removal is accepted only from a client that has seen the team's name and every encrypted column as they are |
| TeamRights.RemovalLeavesNoGap | apps/backend/app/Services/TeamService.php:430-437 | every encrypted column a live team record had holds a non-empty text afterwards; accounts stay |
| TeamRights.EveryTeamHasAnOwner | apps/backend/app/Services/TeamService.php:476-488 | at every moment of every run each live team has a membership of its own with the owner's role |
| TeamRights.TeamRowAfter | apps/backend/app/Services/TeamService.php:46-103 | what creation, renaming and deletion leave in the team's row, other teams unchanged |
| TeamRights.DeletedForGood | apps/backend/app/Services/TeamService.php:96-103 | over any run a deleted team's row, memberships and records stay as they are |
| TeamRecords.RemovalMovesRow | apps/backend/app/Services/TeamService.php:234-243 | after a removal no text of a live team record is under the old key |
| TeamRecords.StepKeepsKeys | apps/backend/app/Http/Controllers/Api/V1/VaultResourceController.php:62-172 | team operations and record writes keep every live team ciphertext under its team's current key |
| TeamRecords.AlwaysUnderTheTeamKey | apps/backend/app/Http/Controllers/Api/V1/VaultResourceController.php:213-220 | the same over every run, with writes of any age in between |
| TeamRecords.RemovedMembersKeyOpensNothing | apps/backend/app/Services/TeamService.php:234-239 | at every later moment each live text of the team was made with a key newer than any the removed member held |
| TeamWraps.StepKeepsWraps | apps/backend/app/Services/TeamService.php:46-259 | creation, addition and removal by honest clients keep a wrap of the team's current key in every membership |
| TeamWraps.MembersHoldTheTeamKey | apps/backend/app/Services/TeamService.php:115-162 | the same at every moment of every run |
| TeamWraps.MembersCanRead | apps/backend/app/Services/TeamService.php:222-243 | so each member's wrap holds the key that every live ciphertext of the team was made with |
| TeamLife.ATeamsLife | apps/backend/app/Services/TeamService.php:46-259 | a run from empty tables in which creation, addition, a record write and a removal are all accepted and end under the next key |
| TeamRights.RecordAfterWrite | apps/backend/app/Http/Controllers/Api/V1/VaultResourceController.php:62-172 | what a stored, changed or trashed record holds afterwards, column by column, other records unchanged |
| TeamRecords.StoreTeamRecord | apps/backend/app/Http/Controllers/Api/V1/VaultResourceController.php:62-96 | stores exactly for a permitted writer with the current key version; a stale version and only that is a conflict |
| TeamRecords.UpdateTeamRecord | apps/backend/app/Http/Controllers/Api/V1/VaultResourceController.php:117-151 | the same for an update of a live row |
| TeamRecords.TrashTeamRecord | apps/backend/app/Http/Controllers/Api/V1/VaultResourceController.php:153-172 | a permitted writer trashes a live row, or nothing changes |
| RefreshTokens.TokenDatabase.RevokeFamily | apps/backend/app/Services/AuthService.php:368-397 | revokes exactly the family's rows and deletes the access tokens of the row's device, if it has one |
| RefreshTokens.TokenDatabase.IssueTokenPair | apps/backend/app/Services/AuthService.php:674-723 | one refresh and one access token on one device of the user; without a family the token is its own root |
| RefreshTokens.TokenDatabase.FinishRefresh | apps/backend/app/Services/AuthService.php:282-330 | whatever happened since the row was read: issues exactly when the row was usable as read and is still open now |
| RefreshTokens.TokenDatabase.Refresh | apps/backend/app/Services/AuthService.php:264-339 | with the row lock held: issues exactly for a usable token of an active user below the limit |
| RefreshTokens.TokenDatabase.Logout | apps/backend/app/Services/AuthService.php:399-414 | revokes all the user's refresh tokens and deletes one access token |
| RefreshTokens.TokenDatabase.RevokeOtherSessions | apps/backend/app/Services/AuthService.php:596-620 | deletes the user's other access tokens and revokes the refresh tokens of other or no devices |
| RefreshTokens.MarksKeepInv | apps/backend/app/Services/AuthService.php:368-397 | adding rotation and revocation marks keeps families, devices and uniqueness in order |
| RefreshTokens.IssueKeepsInv | apps/backend/app/Services/AuthService.php:308-329 | claiming an open token and issuing its successor keeps them in order |
| RefreshTokens.StepKeepsInv | apps/backend/app/Services/AuthService.php:264-339 | every step of interleaved requests does, and what each request in flight read stays true up to marks and a deleted device |
| RefreshOutcomes.IssuesIff | apps/backend/app/Services/AuthService.php:282-330 | a refresh ends with a new token exactly when the row it read was live, the account is active, the limit is not reached and the row is still neither exchanged nor revoked |
| RefreshOutcomes.ExchangeGivesAPair | apps/backend/app/Services/AuthService.php:302-330 | the new pair: same user and family, on the recorded device if it is still the user's, open until the new expiry; the old token is spent and no other changes |
| RefreshOutcomes.DeadTokenChangesNothing | apps/backend/app/Services/AuthService.php:291-302 | a revoked, expired or throttled token changes nothing |
| RefreshOutcomes.InactiveTokenIsRevoked | apps/backend/app/Services/AuthService.php:296-302 | a live token of a suspended or missing account is revoked, and that is all |
| RefreshOutcomes.SuspensionEndsIssuing | apps/backend/app/Services/AuthService.php:296-302 | over any stretch of a run in which the account is suspended or missing the user gets no token but by signing in, whatever was in flight |
| RefreshOutcomes.PresentedWhileSuspended | apps/backend/app/Services/AuthService.php:296-302 | a token presented meanwhile stays revoked, also after reinstatement |
| RefreshReplay.OneOpenTokenPerFamily | apps/backend/app/Services/AuthService.php:306-312 | in every interleaving a family has at most one token that is neither rotated nor revoked |
| RefreshReplay.ReplayKillsTheFamily | apps/backend/app/Services/AuthService.php:282-318 | presenting a rotated token, or losing the claim, revokes the whole family and its device's access tokens |
| RefreshReplay.ReplayIsFinal | apps/backend/app/Services/AuthService.php:282-318 | after a replay or a lost claim, in every later state the family has no live refresh token and no new access, its device no access token, and no access at all if the clean-up reached it |
| RefreshReplay.ReplayEndsAccessIff | apps/backend/app/Services/AuthService.php:380-386 | the clean-up ends all the family's access exactly when each of its access tokens records a device and the row as read records one that still exists, or there was none |
| RefreshOutcomes.ReplaySparesOtherFamilies | apps/backend/app/Services/AuthService.php:368-397 | a detected replay changes no refresh or access token of another family |
| RefreshReplay.ReplayAfterDeviceDeletionLeavesAccess | apps/backend/app/Services/AuthService.php:380-386 | a run from an empty store: after a device row is deleted, a replay leaves the new session's access token |
| RefreshReplay.ReplayLeavesOldAccess | apps/backend/database/migrations/2026_11_02_100002_add_refresh_token_families.php:24-29 | an access token issued before access tokens recorded a device survives a replay whose row knows its device |
| RefreshTokens.DeviceDeletionKeepsInv | apps/backend/database/migrations/2026_11_02_100002_add_refresh_token_families.php:26-29 | deleting a device, with its access tokens, keeps families, devices and uniqueness in order |
| RefreshReplay.OnlyTheCurrentSessionRemains | apps/backend/app/Services/AuthService.php:590-620 | afterwards the user has at most the current access token and one exchangeable refresh token, on the current device |
| RefreshReplay.LoggingOutIsASweep | apps/backend/app/Services/AuthService.php:399-414 | signing out is one of the revocation steps the run results allow |
| RefreshReplay.EndingSessionsIsASweep | apps/backend/app/Services/AuthService.php:596-620 | so is ending other sessions |
| RefreshOutcomes.LogoutEndsThisAccess | apps/backend/app/Services/AuthService.php:399-414 | signing out ends the request's access token and no other, and no other user's refresh tokens |
| RefreshOutcomes.CurrentSessionStays | apps/backend/app/Services/AuthService.php:596-620 | ending other sessions keeps the current access token, the current device's refresh tokens and everything of other users |
| RefreshReplay.SignedOutStaysOut | apps/backend/app/Services/AuthService.php:408-411 | no refresh token of a signed-out user becomes live before the next sign-in, even from a refresh already in flight |
| RefreshReplay.LogoutLasts | apps/backend/app/Services/AuthService.php:399-414 | signing out leaves the user in that state until the next sign-in |
| TwoFactor.Match | apps/backend/app/Services/TwoFactorCodeVerifier.php:39-58 | a matched step is within one of now, strictly after the given one, and its code is the submitted one |
| TwoFactor.MatchIff | apps/backend/app/Services/TwoFactorCodeVerifier.php:28-58 | a code is matched exactly when it is six digits and a step within one of now and after the given one has it, and then with the first |
| TwoFactor.UserTable.VerifyAndConsume | apps/backend/app/Services/TwoFactorCodeVerifier.php:65-88 | with its only caller's test that the factor is on: accepts exactly when the loaded row matches and the stored last-used step is older; then stores the step |
| TwoFactor.UserTable.Enable | apps/backend/app/Services/AuthService.php:428-452 | staging replaces the pending secret and leaves the active factor and its last-used step alone; the staging action of the runs does the same |
| TwoFactor.UserTable.Confirm | apps/backend/app/Services/AuthService.php:458-504 | promotes the loaded pending secret exactly when the code matches it, writing the columns that differ from what was loaded |
| TwoFactor.UserTable.Disable | apps/backend/app/Services/AuthService.php:506-517 | clears the secrets the request had loaded and turns the factor off |
| TwoFactor.TurningOff | apps/backend/app/Services/AuthService.php:506-517 | the factor is off and what the request had loaded of it is gone; the spent step stays |
| TwoFactor.OffUntilConfirmed | apps/backend/app/Services/AuthService.php:506-517 | over any run it stays off until a confirmation is accepted, and a request that loads the row meanwhile has no code accepted |
| TwoFactor.TurningOn | apps/backend/app/Services/AuthService.php:481-492 | a prompt confirmation makes the pending secret the active one |
| TwoFactor.StepKeepsInv | apps/backend/app/Services/TwoFactorCodeVerifier.php:60-88 | every prompt step keeps accepted steps of one secret strictly increasing |
| TwoFactor.PromptRunsNeverReuseAStep | apps/backend/app/Services/TwoFactorCodeVerifier.php:17-18 | in every run of prompt acceptances no secret and step is accepted twice, also when two requests read the same last-used step |
| TwoFactor.StepKeeps | apps/backend/app/Services/AuthService.php:428-517 | what every run keeps however late its requests act: a secret is pending before it is ever accepted, and not again |
| TwoFactor.FallsBehindIff | apps/backend/app/Services/AuthService.php:481-492 | from any such state the stored step falls below one spent with the active secret exactly at a confirmation of a secret that is no longer pending and that stores a step below its own or an earlier one |
| TwoFactor.SecondConfirmationSetsBackIff | apps/backend/app/Services/AuthService.php:485-492 | confirming the active secret once more does so exactly if it writes a lower step, or writes none although its own is higher |
| TwoFactor.BehindHasACause | apps/backend/app/Services/AuthService.php:481-492 | over a run a stored step that is behind was set back by such a confirmation |
| TwoFactor.RequestCanRepeatIff | apps/backend/app/Services/TwoFactorCodeVerifier.php:65-88 | in every state of every run a request can spend a step again, by some code from a given time on, exactly when its factor was on and the highest step its secret was used with is still in the window and above the loaded and the stored one |
| TwoFactor.FreshRequestCanRepeatIff | apps/backend/app/Services/TwoFactorCodeVerifier.php:65-88 | a request that has just loaded the row can exactly when the stored step is behind one still in the window |
| TwoFactor.ConfirmationCanRepeatIff | apps/backend/app/Services/AuthService.php:458-492 | a confirmation can exactly when its secret has been accepted before with a step still in the window; the secret is then no longer pending |
| TwoFactor.RepeatsFollowLateness | apps/backend/app/Services/TwoFactorCodeVerifier.php:60-88 | over a run a step is accepted twice only at or after an acceptance for a secret that is no longer the row's |
| TwoFactor.RepeatsAreNear | apps/backend/app/Services/TwoFactorCodeVerifier.php:39-58 | over a run that starts with nothing accepted, whatever is accepted twice was accepted before at most two steps of time away |
| TwoFactor.FreshSignInReusesAStep | apps/backend/app/Services/AuthService.php:481-492 | a run from a user without a factor, all within one step of the clock, in which a second confirmation sets the stored step back and a freshly loaded request spends a step twice |
| TwoFactor.LateSignInReusesAStep | apps/backend/app/Services/TwoFactorCodeVerifier.php:65-88 | a concrete run in which a late sign-in spends a step twice |
| TwoFactor.LateConfirmationReusesAStep | apps/backend/app/Services/AuthService.php:458-492 | a concrete run in which two confirmations spend one step |
| Bytes.Concat | packages/crypto/src/openssh.ts:155-164 | the buffer is the parts, one after the other |
| Bytes.TrimLeadingZeros | packages/crypto/src/openssh.ts:129-135 | the loop computes the trimmed bytes |
| Bytes.TrimmedKeepsValue | packages/crypto/src/openssh.ts:129-135 | trimming keeps the number and leaves no leading zero but a last byte |
| Bytes.UnsignedKeepsValue | packages/crypto/src/openssh.ts:121-126 | read as two's complement, the normalised bytes are the unsigned number |
| Bytes.UnsignedHasNoRedundantByte | packages/crypto/src/openssh.ts:179-187 | no first byte only repeats the sign; the result is empty, or a lone zero, exactly for empty, or zero, input |
| Bytes.ValueOfUInt32 | packages/crypto/src/openssh.ts:148-153 | four bytes, big-endian, modulo 2^32 |
| Base64.DecodeOfEncode | packages/crypto/src/encoding.ts:4-13 | the strict decoder undoes the encoder |
| Base64.EncodeOfDecode | crates/trominal-core/src/host_keys.rs:118-120 | the strict decoder accepts one text per byte string |
| Base64.EncodePrefix | crates/trominal-core/src/ssh_identity.rs:282-291 | cutting an encoding after whole blocks cuts the bytes it encodes |
| Base64.SymbolCodes | packages/crypto/src/encoding.ts:3 | the alphabet, code by code |
| Base64.TestVectors | packages/crypto/src/encoding.ts:3 | four test vectors of RFC 4648 |
| SshWire.ReadSshString | packages/crypto/src/openssh.ts:115-118 | a length-prefixed string is read back with what follows it |
| SshWire.ReadSshMpintIff | packages/crypto/src/openssh.ts:120-127 | a strict reader of RFC 4251 section 5 gets the number exactly when the bytes are not a spelled-out zero |
| SshWire.ZeroMpintIsRefused | packages/crypto/src/openssh.ts:120-127 | the byte zero is written as one byte, which a strict reader refuses |
| Der.DerLength | packages/crypto/src/openssh.ts:193-210 | the unshift loop computes the definite length encoding |
| Der.ReadLengthBytes | packages/crypto/src/openssh.ts:193-210 | a reader that insists on the shortest form reads the length back |
| Der.SmallestIntegers | packages/crypto/src/openssh.ts:175-191 | tags and lengths byte by byte for small values |
| Der.ReadValueIsCanonical | packages/crypto/src/openssh.ts:189-191 | the strict reader accepts nothing but what the writer writes |
| Der.ReadDerIntegers | packages/crypto/src/openssh.ts:175-187 | a row of integers is read back as their values exactly when none is empty |
| Der.RsaRoundTripIff | packages/crypto/src/openssh.ts:96-106 | the sequence decodes to zero and the eight numbers exactly when no parameter is empty |
| Der.EmptyParameterIsRefused | packages/crypto/src/openssh.ts:179-187 | eight parameters, the last one empty, are written and not read |
| Pem.StripOfWrapLines | packages/crypto/src/openssh.ts:212-214 | removing white space undoes the line wrapping |
| Pem.WrapLinesAt | packages/crypto/src/openssh.ts:212-214 | every line but the last has exactly the asked-for length |
| Pem.AsciiSpaceCodes | crates/trominal-core/src/ssh_identity.rs:284-292 | the white space that is dropped: codes 9, 10, 12, 13 and 32 |
| Pem.UnarmorOfArmor | packages/crypto/src/openssh.ts:108-112 | unwrapping and decoding the PEM gives the bytes back |
| JwkBytes.DecodeParameter | packages/crypto/src/openssh.ts:137-146 | the fill loop yields the decoded parameter, or fails where atob does |
| JwkBytes.ParameterRoundTrip | packages/crypto/src/openssh.ts:137-146 | an unpadded base64url parameter is read as the bytes it encodes |
| OpenSshKey.PadToBlockSize | packages/crypto/src/openssh.ts:166-173 | appends 1, 2, 3 and so on up to the block size |
| OpenSshKey.NamesAreSpelled | packages/crypto/src/openssh.ts:11-13 | the magic and the key types, letter by letter |
| OpenSshKey.PrivateBlockLayout | packages/crypto/src/openssh.ts:26-36 | the private block is whole blocks: the contents, then the bytes 1, 2, 3, fewer than a block |
| OpenSshKey.ReadWrittenPrivateBlock | packages/crypto/src/openssh.ts:26-36 | the two check words agree and key pair and comment are read back |
| OpenSshKey.ReadWrittenEnvelope | packages/crypto/src/openssh.ts:38-46 | the container is read back as one unencrypted key whose two public parts agree |
| OpenSshKey.Ed25519RoundTrip | packages/crypto/src/openssh.ts:16-56 | export fails exactly for wrong key lengths; parsing the exported text gives the same key pair and comment |
| OpenSshKey.RsaPemRoundTripIff | packages/crypto/src/openssh.ts:77-113 | export fails exactly for incomplete, multi-prime or undecodable JWKs; the PEM decodes to zero and the eight numbers exactly when no parameter is empty |
| OpenSshKey.RsaExportsIff | packages/crypto/src/openssh.ts:59-106 | a key is exported exactly if its type says so, its parameters are there and decode, and there is no further prime |
| OpenSshKey.RsaJwkRoundTrip | packages/crypto/src/openssh.ts:77-146 | from eight byte strings in a JWK to the nine integers in the PEM, in RFC 8017 order |
| OpenSshKey.RsaPublicRoundTrip | packages/crypto/src/openssh.ts:59-74 | the public blob is read back as exponent and modulus |
| OpenSshKey.RsaPublicJwkRoundTrip | packages/crypto/src/openssh.ts:59-74 | the same from a JWK |
| KeyInspection.NoPkcs8Marker | crates/trominal-core/src/ssh_identity.rs:273-277 | no line wrapping or trailing white space makes an OpenSSH key look like an encrypted PKCS#8 one |
| KeyInspection.HeaderDecodes | crates/trominal-core/src/ssh_identity.rs:284-294 | the first 88 characters decode to the first 66 bytes, or to all, whatever the white space |
| KeyInspection.HeaderTellsTheCipher | crates/trominal-core/src/ssh_identity.rs:295-307 | those bytes decide whether the cipher is "none", for a cipher name of any length |
| KeyInspection.EncryptedIffCipherIsNotNone | crates/trominal-core/src/ssh_identity.rs:272-308 | for every openssh-key-v1 body and white space the answer is whether the cipher differs from "none" |
| KeyMarkers.OtherMarkersMeanEncrypted | crates/trominal-core/src/ssh_identity.rs:273-277 | a text with the PKCS#8 or the legacy marker anywhere needs a passphrase |
| KeyMarkers.NoMarkerMeansNotEncrypted | crates/trominal-core/src/ssh_identity.rs:278-281 | a text with none of the three markers needs none |
| KeyMarkers.EncryptedIffHeaderSaysSo | crates/trominal-core/src/ssh_identity.rs:278-308 | with anything before and after, an OpenSSH key of any bytes needs one exactly when the bytes are an openssh-key-v1 header whose cipher is not "none" |
| KeyMarkers.UnreadableIsNotEncrypted | crates/trominal-core/src/ssh_identity.rs:292-294 | a header that is not base64 needs none |
| KeyInspection.ExportedKeysAreNotEncrypted | packages/crypto/src/openssh.ts:38-53 | no key the TypeScript exporter writes is taken for encrypted by the Rust side |
| Text.Find | crates/trominal-core/src/ssh_identity.rs:317-321 | the first window equal to the needle |
| Text.TrimBlank | crates/trominal-core/src/host_keys.rs:109-111 | a text trims to nothing exactly if it is white space, code by code |
| Text.LessIff | crates/trominal-core/src/host_keys.rs:44 | texts are ordered by their first different character, a prefix first |
| TeamKey.AdBindsKindAndId | packages/crypto/src/envelope.ts:19-24 | colon-free kinds: equal associated data means equal kind and id |
| TeamKey.AdErrors | packages/crypto/src/team-key.ts:123-133 | which of a blank team, a blank member and a bad version is reported, and the exact text otherwise |
| TeamKey.TeamKeyAdsAgreeIff | packages/crypto/src/team-key.ts:34-38 | two contexts share their data exactly when versions and the joined ids agree |
| TeamKey.TeamKeyAdIsInjective | packages/crypto/src/team-key.ts:34-38 | with colon-free team ids, exactly when the contexts are equal |
| TeamKey.ColonsInTeamIdsCollide | packages/crypto/src/team-key.ts:34-38 | two different contexts with the same data |
| TeamKey.JoinPayload | packages/crypto/src/team-key.ts:141-150 | the buffer is the prefix, the box and the sealed key |
| TeamKey.SplitPayload | packages/crypto/src/team-key.ts:152-173 | the prefix loop computes the split, with its two errors |
| TeamKey.SplitUndoesJoinIff | packages/crypto/src/team-key.ts:141-173 | splitting accepts exactly the joins of an 80-byte box and a non-empty body |
| TeamKey.WrapTeamKey | packages/crypto/src/team-key.ts:46-75 | fails exactly for wrong lengths or contexts; the wrap key is wiped on every way out |
| TeamKey.UnwrapTeamKey | packages/crypto/src/team-key.ts:82-121 | computes the unwrapping with its errors in order; the opened wrap key is wiped |
| TeamKey.UnwrapErrors | packages/crypto/src/team-key.ts:82-121 | which error a text gives, from key lengths to the prefix |
| TeamKey.WrapShape | packages/crypto/src/team-key.ts:46-75 | a stored wrap is TRTK1, an 80-byte box and 48 bytes, with a 24-byte nonce |
| TeamKey.UnwrapsIffWrapped | packages/crypto/src/team-key.ts:82-121 | a key comes out exactly when the text was wrapped for that key pair under the same data, and it is that key |
| TeamKey.WrapThenUnwrap | packages/crypto/src/team-key.ts:46-121 | a fresh wrap opens for its recipient and context |
| TeamKey.WrapIsBoundToItsContext | packages/crypto/src/team-key.ts:15-38 | it opens for its own context and for no other |
| TransferProcess.Transfer.PollOnce | apps/client/src-tauri/src/sftp_process.rs:101-128 | one locked turn of the monitor |
| TransferProcess.Transfer.CancelNow | apps/client/src-tauri/src/sftp_process.rs:134-151 | one locked cancel request, with its failure |
| TransferProcess.Transfer.WaitForExit | apps/client/src-tauri/src/sftp_process.rs:99-130 | the polling loop returns at the first poll with an outcome, whatever cancels arrive while it sleeps |
| TransferProcess.DecidedForGood | apps/client/src-tauri/src/sftp_process.rs:104-142 | once the phase is not Running no later call changes it |
| TransferProcess.TheFirstToSettleDecides | apps/client/src-tauri/src/sftp_process.rs:101-149 | for every schedule: still running exactly while no poll found the child gone or unobservable and no cancel found it gone or waited successfully; the first such call makes it exited with the status seen, or cancelled |
| TransferProcess.AnswersFollowTheFirst | apps/client/src-tauri/src/sftp_process.rs:101-151 | from then on every call is told exactly that |
| TransferProcess.AnswersBeforeTheFirst | apps/client/src-tauri/src/sftp_process.rs:117-148 | until then every poll goes on and every cancel fails |
| TransferProcess.UndisturbedWait | apps/client/src-tauri/src/sftp_process.rs:99-130 | without cancels or observation errors the wait returns the status of the first exit it sees, and goes on while there is none |
| TransferProcess.EveryVerdictStands | apps/client/src-tauri/src/sftp_process.rs:56-59 | in every schedule each answer agrees with the phase the process ends in |
| TransferProcess.NeverCancelledAndCompleted | apps/client/src-tauri/src/sftp_process.rs:56-59 | no schedule reports one transfer both cancelled and completed, nor two exit statuses |
| TransferProcess.VerdictReachesEveryone | apps/client/src-tauri/src/sftp_process.rs:104-142 | after a verdict every later poll and cancel gives the same one |
| TransferProcess.CancelledMeansReapedIff | apps/client/src-tauri/src/sftp_process.rs:35-42 | a successful cancel has the child reaped exactly when no earlier poll lost it unconfirmed |
| TransferProcess.CancelledButNotReaped | apps/client/src-tauri/src/sftp_process.rs:118-125 | a concrete schedule where it was not |
| Capture.Buffer.Absorb | apps/client/src-tauri/src/sftp_process.rs:198-205 | append, and beyond 128 KiB keep the last 64 KiB |
| Capture.Buffer.Drain | apps/client/src-tauri/src/sftp_process.rs:195-208 | the reader absorbs exactly the chunks up to the end of file or first error |
| Capture.Buffer.Snapshot | apps/client/src-tauri/src/sftp_process.rs:216-220 | a snapshot is the last 64 KiB of the whole stream |
| Capture.SnapshotIsTheLastBytes | apps/client/src-tauri/src/sftp_process.rs:188-220 | the same however the stream is cut into chunks; the buffer never exceeds 128 KiB |
| CivilDate.FormatUnixTimestamp | apps/client/src-tauri/src/sftp.rs:577-611 | the year and month loops end in a valid date and time whose closed-form minute number is the second's minute |
| CivilDate.FieldOrderIsTimeOrder | apps/client/src-tauri/src/sftp.rs:577-632 | field order is time order, and one minute has one date |
| CivilDate.ShownAlikeIffSameMinute | apps/client/src-tauri/src/sftp.rs:607-610 | two times are shown alike exactly when they are in the same minute |
| Decimals.DecimalOfAYear | apps/client/src-tauri/src/sftp.rs:607-610 | digits are printed most significant first |
| CivilDate.NextYear | apps/client/src-tauri/src/sftp.rs:613-615 | the closed-form day count grows by the loop's year length |
| Listing.FindName | apps/client/src-tauri/src/sftp.rs:658-688 | the scan finds exactly what follows the eighth field and its white space |
| Listing.KindIsTheFirstLetter | apps/client/src-tauri/src/sftp.rs:700-705 | directory, file or link exactly by the first letter |
| Listing.NoticeIff | apps/client/src-tauri/src/sftp.rs:654-656 | a line is passed over as a notice exactly if it starts with sftp> or, in either case, with total and a space |
| Listing.ParseListingLine | apps/client/src-tauri/src/sftp.rs:649-727 | the method computes the line's entry, with every way of having none |
| Listing.ParseListing | apps/client/src-tauri/src/sftp.rs:639-647 | the entries of the lines that give one, in order |
| Listing.PrintedRowReadsBack | apps/client/src-tauri/src/sftp.rs:649-727 | a row printed with any white space gives exactly its fields and its name with inner spaces |
| Listing.ParsedLineIsRow | apps/client/src-tauri/src/sftp.rs:649-727 | conversely every line that gives an entry is such a row |
| Listing.AlwaysEightFields | apps/client/src-tauri/src/sftp.rs:691-703 | the text before the name always has eight fields |
| Listing.ParseU64OfDecimal | apps/client/src-tauri/src/sftp.rs:706 | a printed size is read back exactly when it fits 64 bits |
| Listing.ParseU64Iff | apps/client/src-tauri/src/sftp.rs:706 | a size is read exactly from digits, with or without a plus sign, whose value is below 2^64 |
| Listing.LinkNameReadsBackIff | apps/client/src-tauri/src/sftp.rs:709-714 | a link's name is recovered exactly when its own text starts no arrow |
| Listing.PrintedLinkReadsBackIff | apps/client/src-tauri/src/sftp.rs:649-727 | a printed link row gives the link's own name exactly under that condition, and then the whole entry |
| Listing.ArrowInNameIsCut | apps/client/src-tauri/src/sftp.rs:709-714 | a link named "a -> b" is read as "a" |
| Listing.ListingReadsBack | apps/client/src-tauri/src/sftp.rs:639-647 | a whole listing gives its rows in order and nothing for blank lines, echoes and totals |
| BatchArgs.BatchArg | apps/client/src-tauri/src/sftp.rs:445-467 | the push loop computes the quoted argument, or the first control character |
| BatchArgs.FirstControlIsFirst | apps/client/src-tauri/src/sftp.rs:445-467 | the reported character is the first with a code of 0 to 31 or 127 to 159 |
| BatchArgs.ReadEscaped | apps/client/src-tauri/src/sftp.rs:434-444 | inside quotes the grammar reads an escaped text as itself, up to the closing quote |
| BatchArgs.MkdirAndRemoveReadBack | apps/client/src-tauri/src/sftp.rs:386-395 | refused exactly for blank paths and control characters; otherwise one line, read as the command and the path |
| BatchArgs.RenameAndTransfersReadBack | apps/client/src-tauri/src/sftp.rs:397-425 | one line, read as the command and both paths in order |
| BatchArgs.OnePathReadsBack | apps/client/src-tauri/src/sftp.rs:427-432 | which error is given |
| BatchArgs.TwoPathsReadBack | apps/client/src-tauri/src/sftp.rs:427-432 | which error is given for two paths |
| BatchArgs.ListReadsBack | apps/client/src-tauri/src/sftp.rs:381-384 | two lines: change to the trimmed path or the current one, then list |
| HostKeys.AcceptedIff | crates/trominal-core/src/host_keys.rs:108-134 | a key is accepted exactly when its text encodes a blob that starts with the type it claims; the result is the trimmed type and text with the blob's fingerprint |
| HostKeys.ParseErrors | crates/trominal-core/src/host_keys.rs:108-134 | which error a key gives, with the allowed characters of a type code by code |
| HostKeys.CollectIsTheSortedSet | crates/trominal-core/src/host_keys.rs:137-143 | collecting gives the strictly sorted set of the keys |
| HostKeys.SortedIsCanonical | crates/trominal-core/src/host_keys.rs:44 | sorted lists with the same keys are equal |
| HostKeys.EachIsParsed | crates/trominal-core/src/host_keys.rs:136-143 | parsing succeeds exactly when every pin is valid, and then the keys are those of the pins |
| HostKeys.PinsAreASet | crates/trominal-core/src/host_keys.rs:137-143 | the parsed pins depend only on the set of pins |
| HostKeys.PinsAreIdempotent | crates/trominal-core/src/host_keys.rs:137-143 | parsing parsed pins changes nothing |
| HostKeys.ScanIsTheSetOfItsKeys | crates/trominal-core/src/host_keys.rs:145-161 | scanning gives the sorted set of the keys its lines hold, each valid; comments and unreadable lines add nothing |
| HostKeys.ScannedLineIsValid | crates/trominal-core/src/host_keys.rs:151-158 | a line that gives a key is no comment, and its key is valid as it stands |
| HostKeys.KnownHostsReadBack | crates/trominal-core/src/host_keys.rs:147-168 | the key-scan reader gets exactly the validated pins back from the generated known_hosts text |
| HostKeys.KnownHostsText | crates/trominal-core/src/host_keys.rs:163-168 | one line per key: the alias, the type and the key |

## Left out

- Transactions and row locks: each transaction is one atomic step with rollback; so is each sign-in, which takes no user lock in the code.
- Step-up password and code checks before a rotation, audit rows, and requests without a personal access token, which skip the middleware's re-check.
- Soft-deleted records: no operation re-encrypts them, so every claim about records is about live ones. Nothing restores them in the model.
- Cascading deletion of users and teams. Device rows can be deleted, as the schema allows; no service does it.
- The registry's seven types: the registry is a parameter, with one entry per type. Of the role matrix the four record actions for creating, updating and deleting are one permission, since every role treats them alike.
- Sorted id lists are compared as sets: both sides hold each id once.
- Validation of requests by routes and form requests, and relationship and scope-change checks in the controller.
- Clients are taken to encrypt with the key they name (`VaultProtocol`'s `Begin` and `Rotate`, `TeamRecords.IsHonest`); the server cannot check it.
- RefreshOutcomes.SuspensionEndsIssuing: signing in checks suspension before it issues tokens and holds no lock in between, so the model lets any account sign in at any time.
- Rate limits: a refresh may be throttled at any time; lock-outs and failure counters are not modelled.
- TwoFactor.Match: the search inside the TOTP library is taken to be the first matching step of the window.
- Cryptographic primitives are uninterpreted functions, or in TeamKey an ideal log; a client that seals its own wrap key is not an honest wrap.
- TeamKey.TeamKeyAdIsInjective: associated data is text, before its UTF-8 encoding; key versions are exact integers, which JavaScript numbers are up to 2^53 - 1.
- OpenSshKey.Ed25519RoundTrip: lengths stay below 2^32, where the source's length field wraps; the comment is its UTF-8 bytes, and the trimming of the authorized_keys line is not modelled.
- Der.RsaRoundTripIff: the buffers fit a typed array.
- KeyInspection.EncryptedIffCipherIsNotNone: the text starts with the opening marker and ends with white space after the closing one; cipher names are shorter than 2^32 bytes.
- Spawning processes, pipes, sleeping, deadlines, and the lossy UTF-8 decoding of captured output; a child's exit is what `try_wait` happens to see.
- BatchArgs.ReadWord: single quotes, which the quoting never writes outside double quotes, are ordinary characters.
- HostKeys.AcceptedIff: the type text is shorter than 2^32 characters. Which error a set of pins gives depends on their order; only success and its value do not.
- The fingerprint hash, scanning for host keys, ssh options, agents, directories and Windows access lists.
- Local file listings other than the date, and the parser of the `pwd` answer.
