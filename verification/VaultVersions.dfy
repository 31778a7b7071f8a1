/** The vault version of a user, over whole runs: what the optimistic check of a
    rotation and of a rebind rests on. */
module VaultVersions {
  import opened Wrappers
  import opened VaultRotation
  import opened VaultProtocol

  /** The step is an accepted rotation or rebind of this user. */
  ghost predicate Changes(registry: seq<Resource>, s: System, a: Action, user: Id) {
    || (a.Rotate? && a.userId == user && RotationAccepted(registry, s.db, user, a.payload, a.now))
    || (a.Rebind? && a.userId == user && RebindAccepted(s.db, user, a.version))
  }

  /** The version the client of a rotation or rebind has seen. */
  function NamedVersion(a: Action): nat
    requires a.Rotate? || a.Rebind?
  {
    if a.Rotate? then a.payload.vaultVersion else a.version
  }

  /** A user's version goes up by one at an accepted rotation or rebind, and
      moves at no other step. */
  lemma VersionMovesAtChanges(registry: seq<Resource>, s: System, a: Action, user: Id)
    requires Enabled(s, a) && user in s.db.users
    ensures var after := Next(registry, s, a).db.users;
      user in after
      && after[user].vaultVersion == s.db.users[user].vaultVersion + if Changes(registry, s, a, user) then 1 else 0
  {
    hide RotationAccepted, MadeWith, IsNewEpoch, AllUnder, MayWrite, ReplacedRecords, Edited;
  }

  ghost function ChangesOf(registry: seq<Resource>, states: seq<System>, actions: seq<Action>, user: Id, i: nat, j: nat): nat
    requires i <= j <= |actions| && |states| == |actions| + 1
    decreases j
  {
    if i == j then 0
    else ChangesOf(registry, states, actions, user, i, j - 1) + if Changes(registry, states[j - 1], actions[j - 1], user) then 1 else 0
  }

  /** Between any two moments the version grows by the number of accepted
      changes; so it never falls. */
  lemma {:induction false} VersionCountsChanges(
    registry: seq<Resource>, states: seq<System>, actions: seq<Action>, user: Id, i: nat, j: nat)
    requires IsHistory(registry, states, actions) && i <= j <= |actions| && user in states[i].db.users
    ensures user in states[j].db.users
    ensures states[j].db.users[user].vaultVersion ==
      states[i].db.users[user].vaultVersion + ChangesOf(registry, states, actions, user, i, j)
    decreases j
  {
    hide Changes, Enabled, Next;
    if i < j {
      VersionCountsChanges(registry, states, actions, user, i, j - 1);
      VersionMovesAtChanges(registry, states[j - 1], actions[j - 1], user);
    }
  }

  lemma {:induction false} ChangesAddUp(
    registry: seq<Resource>, states: seq<System>, actions: seq<Action>, user: Id, i: nat, j: nat)
    requires i < j <= |actions| && |states| == |actions| + 1
    ensures ChangesOf(registry, states, actions, user, i, j) >= ChangesOf(registry, states, actions, user, i, i + 1)
    decreases j
  {
    hide Changes;
    if i + 1 < j {
      ChangesAddUp(registry, states, actions, user, i, j - 1);
    }
  }

  /** Of all rotations and rebinds that name the same version of one user's
      vault, at most one is ever accepted: a device that has not seen a change
      is refused. */
  lemma OneChangePerVersion(
    registry: seq<Resource>, states: seq<System>, actions: seq<Action>, user: Id, i: nat, j: nat)
    requires IsHistory(registry, states, actions) && i < j < |actions|
    requires Changes(registry, states[i], actions[i], user) && Changes(registry, states[j], actions[j], user)
    ensures NamedVersion(actions[i]) < NamedVersion(actions[j])
  {
    NamesTheCurrentVersion(registry, states[i], actions[i], user);
    NamesTheCurrentVersion(registry, states[j], actions[j], user);
    VersionCountsChanges(registry, states, actions, user, i, j);
    ChangesAddUp(registry, states, actions, user, i, j);
    hide Changes, IsHistory, NamedVersion;
    assert ChangesOf(registry, states, actions, user, i, i + 1) == ChangesOf(registry, states, actions, user, i, i) + 1;
  }

  lemma NamesTheCurrentVersion(registry: seq<Resource>, s: System, a: Action, user: Id)
    requires Changes(registry, s, a, user)
    ensures user in s.db.users && NamedVersion(a) == s.db.users[user].vaultVersion
  {
    hide ItemsFit;
  }

  // ---------- Tokens that authorise nothing ----------

  predicate IsSpent(t: RefreshToken) {
    t.revoked || t.rotated
  }

  lemma TokenRowStays(registry: seq<Resource>, s: System, a: Action, hash: string)
    requires Enabled(s, a) && hash in s.db.refreshTokens
    ensures var after := Next(registry, s, a).db.refreshTokens;
      && hash in after && after[hash].userId == s.db.refreshTokens[hash].userId
      && after[hash].expiresAt == s.db.refreshTokens[hash].expiresAt
      && (IsSpent(s.db.refreshTokens[hash]) ==> IsSpent(after[hash]))
  {
    hide RotationAccepted, MadeWith, IsNewEpoch, AllUnder, MayWrite, ReplacedRecords, Edited;
  }

  lemma {:induction false} TokenRowStaysSince(
    registry: seq<Resource>, states: seq<System>, actions: seq<Action>, hash: string, i: nat, j: nat)
    requires IsHistory(registry, states, actions) && i <= j < |states| && hash in states[i].db.refreshTokens
    ensures hash in states[j].db.refreshTokens
    ensures var t, t' := states[i].db.refreshTokens[hash], states[j].db.refreshTokens[hash];
      t'.userId == t.userId && t'.expiresAt == t.expiresAt && (IsSpent(t) ==> IsSpent(t'))
    decreases j
  {
    hide Enabled, Next, IsSpent;
    if i < j {
      TokenRowStaysSince(registry, states, actions, hash, i, j - 1);
      TokenRowStays(registry, states[j - 1], actions[j - 1], hash);
    }
  }

  /** A refresh token that has been exchanged or revoked, that expires no later
      than the clock shows, or that is somebody else's never authorises a
      rotation again: nothing changes. */
  lemma SpentTokenAuthorisesNothing(
    registry: seq<Resource>, states: seq<System>, actions: seq<Action>, hash: string, i: nat, j: nat)
    requires IsHistory(registry, states, actions) && i <= j < |actions| && hash in states[i].db.refreshTokens
    requires actions[j].Rotate? && actions[j].payload.refreshTokenHash == hash
    requires var t := states[i].db.refreshTokens[hash];
      || t.revoked || t.rotated || t.userId != actions[j].userId
      || t.expiresAt.None? || t.expiresAt.value <= actions[j].now
    ensures states[j + 1] == states[j]
  {
    TokenRowStaysSince(registry, states, actions, hash, i, j);
    hide ItemsFit, MadeWith, IsNewEpoch;
  }
}
