/** What replaying a refresh token does to its family, in every run. */
module RefreshReplay {
  import opened Wrappers
  import opened RefreshTokens

  // ---------- Runs ----------

  ghost predicate IsRun(states: seq<System>, actions: seq<Action>) {
    && |states| == |actions| + 1
    && forall i :: 0 <= i < |actions| ==> IsStep(states[i], actions[i], states[i + 1])
  }

  ghost predicate IsStep(s: System, a: Action, s': System) {
    Enabled(s, a) && s' == Next(s, a)
  }

  lemma {:induction false} InvAlwaysHolds(states: seq<System>, actions: seq<Action>, i: nat)
    requires IsRun(states, actions) && Inv(states[0]) && i < |states|
    ensures Inv(states[i])
  {
    hide Inv, Enabled, Next;
    if i > 0 {
      InvAlwaysHolds(states, actions, i - 1);
      assert IsStep(states[i - 1], actions[i - 1], states[i]);
      StepKeepsInv(states[i - 1], actions[i - 1]);
    }
  }

  /** However refreshes interleave between read and claim, a family never has
      two tokens that could still be exchanged. */
  lemma OneOpenTokenPerFamily(states: seq<System>, actions: seq<Action>, i: nat, t: Id, u: Id)
    requires IsRun(states, actions) && Inv(states[0]) && i < |states|
    requires SameFamily(states[i].store, t, u)
    requires IsOpen(states[i].store.refresh[t]) && IsOpen(states[i].store.refresh[u])
    ensures t == u
  {
    InvAlwaysHolds(states, actions, i);
  }

  // ---------- A dead family ----------

  /** Every token of the family is revoked; the device, if one is given, is no
      other family's and has no access token. */
  ghost predicate Dead(s: Store, family: Id, device: Option<Id>) {
    && family in s.refresh
    && (forall t :: t in s.refresh && FamilyOf(t, s.refresh[t]) == family ==> s.refresh[t].revoked)
    && (device.Some? ==> forall t :: t in s.refresh && s.refresh[t].deviceId == device ==> FamilyOf(t, s.refresh[t]) == family)
    && (device.Some? ==> forall a :: a in s.access ==> s.access[a].deviceId != device)
  }

  /** Whatever access the family has later it had before. */
  ghost predicate NoNewAccess(s: Store, s': Store, family: Id) {
    forall a :: a in s'.access && s'.access[a].family == family ==> a in s.access && s.access[a] == s'.access[a]
  }

  lemma RevokedFamilyIsDead(s: Store, r: Read)
    requires StoreInv(s) && ReadHolds(s, r)
    ensures Dead(FamilyRevoked(s, r.id, r.row), FamilyOf(r.id, r.row), r.row.deviceId)
  {
    hide AtMostOneOpen, DevicelessTogether, AccessPaired;
    var family := FamilyOf(r.id, r.row);
    assert IsRoot(s, family, r.row.userId) by {
      assert s.refresh[r.id].familyId == r.row.familyId;
    }
    forall t | t in s.refresh && FamilyOf(t, s.refresh[t]) == family
      ensures InFamilyQuery(t, s.refresh[t], r.row.userId, family)
    {
      assert IsRoot(s, family, s.refresh[t].userId);
    }
    forall t | t in s.refresh && r.row.deviceId.Some? && s.refresh[t].deviceId == r.row.deviceId
      ensures FamilyOf(t, s.refresh[t]) == family
    {
      assert SameDevice(s, t, r.id);
      assert SameFamily(s, t, r.id);
    }
  }

  /** The request finds out that its token was already exchanged: as read, or
      in the claim. */
  predicate Detects(s: System, a: Action) {
    && a.Finish? && a.request in s.inFlight && s.inFlight[a.request].id in s.store.refresh
    && var r := s.inFlight[a.request];
       || r.row.rotated
       || (Usable(r.row, a.now) && MayRefresh(s.store, r.row.userId) && !a.throttled && !IsOpen(s.store.refresh[r.id]))
  }

  /** Presenting a token that was already exchanged, or losing the race for
      one, kills its family. */
  lemma ReplayKillsTheFamily(s: System, a: Action)
    requires Inv(s) && Enabled(s, a) && Detects(s, a)
    ensures var r := s.inFlight[a.request];
      && Next(s, a).store == FamilyRevoked(s.store, r.id, r.row)
      && Dead(Next(s, a).store, FamilyOf(r.id, r.row), r.row.deviceId)
  {
    hide StoreInv;
    RevokedFamilyIsDead(s.store, s.inFlight[a.request]);
  }

  lemma MarksKeepDead(s: Store, s': Store, family: Id, device: Option<Id>)
    requires Dead(s, family, device) && OnlyMarks(s, s')
    ensures Dead(s', family, device) && NoNewAccess(s, s', family)
  {
    forall t | t in s'.refresh
      ensures FamilyOf(t, s'.refresh[t]) == FamilyOf(t, s.refresh[t])
    {
      assert Marked(s.refresh[t], s'.refresh[t]);
    }
  }

  lemma IssueKeepsDead(s: Store, user: Id, parent: Option<Id>, expiresAt: int, ids: Ids, family: Id, device: Option<Id>)
    requires Dead(s, family, device) && MayIssue(s, user, parent, ids) && device != Some(ids.device)
    ensures Dead(Child(s, user, parent, expiresAt, ids), family, device)
    ensures NoNewAccess(s, Child(s, user, parent, expiresAt, ids), family)
  {
    hide StoreInv;
  }

  lemma DeviceDeletionKeepsDead(s: Store, deleted: Id, family: Id, device: Option<Id>)
    requires Dead(s, family, device)
    ensures Dead(DeviceDeleted(s, deleted), family, device) && NoNewAccess(s, DeviceDeleted(s, deleted), family)
  {
  }

  lemma StepKeepsDead(s: System, a: Action, family: Id, device: Option<Id>)
    requires Inv(s) && Enabled(s, a) && Dead(s.store, family, device)
    requires device.Some? ==> device.value in s.deviceIds
    ensures Dead(Next(s, a).store, family, device) && NoNewAccess(s.store, Next(s, a).store, family)
  {
    hide StoreInv, Dead;
    var s' := Next(s, a);
    match a
    case SignIn(user, expiresAt, ids) =>
      IssueKeepsDead(s.store, user, None, expiresAt, ids, family, device);
    case ReadRow(n, id) =>
    case Finish(n, now, throttled, expiresAt, ids) =>
      var r := s.inFlight[n];
      if Claims(s, a) {
        ClaimIssuesChild(s, a);
        IssueKeepsDead(s.store, r.row.userId, Some(r.id), expiresAt, ids, family, device);
      } else {
        UnissuedOnlyMarks(s.store, r.id, r.row, now, throttled, expiresAt, ids);
        MarksKeepDead(s.store, s'.store, family, device);
      }
    case Sweep(revoked, deleted) =>
      MarksKeepDead(s.store, s'.store, family, device);
    case SetAccount(user, account) =>
      MarksKeepDead(s.store, s'.store, family, device);
    case DeleteDevice(deleted) =>
      DeviceDeletionKeepsDead(s.store, deleted, family, device);
  }

  lemma {:induction false} DeadForever(states: seq<System>, actions: seq<Action>, i: nat, j: nat)
    requires IsRun(states, actions) && Inv(states[0]) && i < j < |states| && Detects(states[i], actions[i])
    ensures var r := states[i].inFlight[actions[i].request];
      && Dead(states[j].store, FamilyOf(r.id, r.row), r.row.deviceId)
      && NoNewAccess(states[i + 1].store, states[j].store, FamilyOf(r.id, r.row))
      && (r.row.deviceId.Some? ==> r.row.deviceId.value in states[j].deviceIds)
    decreases j
  {
    hide Dead, StoreInv, FamilyRevoked;
    var r := states[i].inFlight[actions[i].request];
    InvAlwaysHolds(states, actions, j - 1);
    assert IsStep(states[j - 1], actions[j - 1], states[j]);
    if j - 1 == i {
      ReplayKillsTheFamily(states[i], actions[i]);
    } else {
      DeadForever(states, actions, i, j - 1);
      StepKeepsDead(states[j - 1], actions[j - 1], FamilyOf(r.id, r.row), r.row.deviceId);
    }
  }

  // ---------- Whether access ends ----------

  ghost predicate NoFamilyAccess(s: Store, family: Id) {
    forall a :: a in s.access ==> s.access[a].family != family
  }

  /** No access token of the family was issued before access tokens recorded
      their device. */
  ghost predicate AllOnDevices(s: Store, family: Id) {
    forall a :: a in s.access && s.access[a].family == family ==> s.access[a].deviceId.Some?
  }

  predicate KnowsDevice(s: Store, r: Read) {
    r.row.deviceId.Some? && r.row.deviceId.value in s.devices
  }

  ghost predicate ReachesAccess(s: Store, r: Read) {
    AllOnDevices(s, FamilyOf(r.id, r.row)) && (KnowsDevice(s, r) || NoFamilyAccess(s, FamilyOf(r.id, r.row)))
  }

  /** A detected replay ends every access token of the family exactly when each
      records a device and the row, as read, records a device that still
      exists, or there is no access to end: the clean-up looks at the device of
      the replayed row only. */
  lemma ReplayEndsAccessIff(s: Store, r: Read)
    requires StoreInv(s) && ReadHolds(s, r)
    ensures NoFamilyAccess(FamilyRevoked(s, r.id, r.row), FamilyOf(r.id, r.row)) <==> ReachesAccess(s, r)
  {
    hide Rooted, FamiliesMatchDevices, AtMostOneOpen, DevicelessTogether;
    var family, s' := FamilyOf(r.id, r.row), FamilyRevoked(s, r.id, r.row);
    forall a | a in s.access && s.access[a].family == family
      ensures a !in s'.access <==> s.access[a].deviceId.Some? && KnowsDevice(s, r)
    {
      FamilyAccessEndsIff(s, r, a);
    }
  }

  lemma FamilyAccessEndsIff(s: Store, r: Read, a: Id)
    requires StoreInv(s) && ReadHolds(s, r) && a in s.access && s.access[a].family == FamilyOf(r.id, r.row)
    ensures a !in FamilyRevoked(s, r.id, r.row).access <==> s.access[a].deviceId.Some? && KnowsDevice(s, r)
  {
    hide FamiliesMatchDevices, AtMostOneOpen, DevicelessTogether;
    assert IsRoot(s, FamilyOf(r.id, s.refresh[r.id]), s.refresh[r.id].userId);
    assert IsRoot(s, s.access[a].family, s.access[a].userId);
    assert InFamilyOf(s, a, r.id);
    assert s.access[a].deviceId.Some? && s.refresh[r.id].deviceId.Some? ==> OnDeviceOf(s, a, r.id);
  }

  /** Once an exchanged token has been presented again, or lost the race to be
      exchanged, in every later state its family has no live token and no
      access it did not have at that moment, and its device has no access
      token; if the clean-up reached all of the family's access there is none,
      whatever requests were in flight. */
  lemma ReplayIsFinal(states: seq<System>, actions: seq<Action>, i: nat, j: nat)
    requires IsRun(states, actions) && Inv(states[0]) && i < j < |states| && Detects(states[i], actions[i])
    ensures var r := states[i].inFlight[actions[i].request];
      && (forall t :: t in states[j].store.refresh && FamilyOf(t, states[j].store.refresh[t]) == FamilyOf(r.id, r.row) ==>
            states[j].store.refresh[t].revoked)
      && NoNewAccess(states[i + 1].store, states[j].store, FamilyOf(r.id, r.row))
      && (r.row.deviceId.Some? ==> forall a :: a in states[j].store.access ==> states[j].store.access[a].deviceId != r.row.deviceId)
      && (ReachesAccess(states[i].store, r) ==> NoFamilyAccess(states[j].store, FamilyOf(r.id, r.row)))
  {
    var r := states[i].inFlight[actions[i].request];
    DeadForever(states, actions, i, j);
    InvAlwaysHolds(states, actions, i);
    assert IsStep(states[i], actions[i], states[i + 1]);
    ReplayKillsTheFamily(states[i], actions[i]);
    hide StoreInv, ReachesAccess, FamilyRevoked, IsRun;
    ReplayEndsAccessIff(states[i].store, r);
  }

  function Empty(): System {
    System(Store(map[], map[], map[], map[]), map[], {})
  }

  lemma EmptyIsInv()
    ensures Inv(Empty())
  {
  }

  const ACCOUNTS := map["u" := Account(false)]

  const FIRST := RefreshToken("u", None, Some("a"), Some(9), false, false)

  const SPENT := RefreshToken("u", None, Some("a"), Some(9), true, false)

  const SECOND := RefreshToken("u", Some("e"), Some("a"), Some(9), false, false)

  function Exchanged(): Store {
    Store(ACCOUNTS, map["e" := "u"], map["a" := SPENT, "b" := SECOND], map["y" := AccessToken("u", Some("e"), "a")])
  }

  function LostDeviceActions(): (actions: seq<Action>)
    ensures |actions| == 7
  {
    [SetAccount("u", Account(false)),
     SignIn("u", 9, Ids("a", "x", "d")),
     DeleteDevice("d"),
     ReadRow(0, "a"),
     Finish(0, 0, false, 9, Ids("b", "y", "e")),
     ReadRow(1, "a"),
     Finish(1, 0, false, 9, Ids("c", "z", "g"))]
  }

  function LostDeviceStates(): (states: seq<System>)
    ensures |states| == 8
  {
    [Empty(),
     System(Store(ACCOUNTS, map[], map[], map[]), map[], {}),
     System(Store(ACCOUNTS, map["d" := "u"], map["a" := FIRST.(deviceId := Some("d"))],
                  map["x" := AccessToken("u", Some("d"), "a")]), map[], {"d"}),
     System(Store(ACCOUNTS, map[], map["a" := FIRST], map[]), map[], {"d"}),
     System(Store(ACCOUNTS, map[], map["a" := FIRST], map[]), map[0 := Read("a", FIRST)], {"d"}),
     System(Exchanged(), map[], {"d", "e"}),
     System(Exchanged(), map[1 := Read("a", SPENT)], {"d", "e"}),
     System(FamilyRevoked(Exchanged(), "a", SPENT), map[], {"d", "e", "g"})]
  }

  lemma FirstSteps()
    ensures var states, actions := LostDeviceStates(), LostDeviceActions();
      IsStep(states[0], actions[0], states[1]) && IsStep(states[2], actions[2], states[3])
  {
  }

  lemma SignInStep()
    ensures var states, actions := LostDeviceStates(), LostDeviceActions();
      IsStep(states[1], actions[1], states[2])
  {
  }

  lemma NextSteps()
    ensures var states, actions := LostDeviceStates(), LostDeviceActions();
      IsStep(states[3], actions[3], states[4]) && IsStep(states[4], actions[4], states[5])
  {
  }

  lemma LastSteps()
    ensures var states, actions := LostDeviceStates(), LostDeviceActions();
      IsStep(states[5], actions[5], states[6]) && IsStep(states[6], actions[6], states[7]) && Detects(states[6], actions[6])
  {
  }

  /** From an empty store: a sign-in whose device row is deleted, one exchange,
      and the first token presented again. The new session keeps its access. */
  lemma ReplayAfterDeviceDeletionLeavesAccess()
    ensures var states, actions := LostDeviceStates(), LostDeviceActions();
      && states[0] == Empty() && Inv(states[0]) && IsRun(states, actions) && Detects(states[6], actions[6])
      && states[6].inFlight[1].row.rotated
      && "b" in states[7].store.refresh && states[7].store.refresh["b"].revoked
      && "y" in states[7].store.access && states[7].store.access["y"].family == FamilyOf("a", states[6].inFlight[1].row)
  {
    FirstSteps();
    SignInStep();
    NextSteps();
    LastSteps();
    EmptyIsInv();
    var states, actions := LostDeviceStates(), LostDeviceActions();
    assert states[0] == Empty() && states[6] == System(Exchanged(), map[1 := Read("a", SPENT)], {"d", "e"});
    assert states[7] == System(FamilyRevoked(Exchanged(), "a", SPENT), map[], {"d", "e", "g"});
    hide IsStep, LostDeviceStates, LostDeviceActions, Detects, Inv;
  }

  const REPLAYED := RefreshToken("u", Some("d"), Some("a"), Some(0), true, false)

  const SUCCESSOR := REPLAYED.(rotated := false)

  function Migrated(): Store {
    Store(map[], map["d" := "u"], map["a" := REPLAYED, "b" := SUCCESSOR], map["x" := AccessToken("u", None, "a")])
  }

  lemma MigratedTokens()
    ensures FamiliesMatchDevices(Migrated()) && AtMostOneOpen(Migrated())
  {
  }

  lemma MigratedRoots()
    ensures DevicesOwned(Migrated()) && Rooted(Migrated())
  {
    assert IsRoot(Migrated(), "a", "u");
  }

  lemma MigratedAccess()
    ensures DevicelessTogether(Migrated()) && AccessPaired(Migrated())
  {
    assert IsRoot(Migrated(), "a", "u");
  }

  /** A store from before access tokens recorded their device: the replayed row
      knows its device, and an access token of the family survives. */
  lemma ReplayLeavesOldAccess() returns (s: Store, r: Read)
    ensures StoreInv(s) && ReadHolds(s, r) && r.row.rotated && KnowsDevice(s, r)
    ensures "x" in FamilyRevoked(s, r.id, r.row).access && s.access["x"].family == FamilyOf(r.id, r.row)
  {
    s, r := Migrated(), Read("a", REPLAYED);
    MigratedTokens();
    MigratedRoots();
    MigratedAccess();
    hide DevicesOwned, Rooted, FamiliesMatchDevices, AtMostOneOpen, DevicelessTogether, AccessPaired;
  }

  // ---------- Ending sessions ----------

  ghost predicate IsSweep(s: Store, s': Store) {
    exists revoked, deleted :: s' == Swept(s, revoked, deleted)
  }

  /** Signing out and ending other sessions are sweeps, so every result about
      runs covers them. */
  lemma LoggingOutIsASweep(s: Store, user: Id, current: Option<Id>)
    ensures IsSweep(s, LoggedOut(s, user, current))
  {
    var mine := set t | t in s.refresh && s.refresh[t].userId == user;
    var token: set<Id> := if current.Some? then {current.value} else {};
    var s' := Swept(s, mine, token);
    assert LoggedOut(s, user, current).refresh == s'.refresh && LoggedOut(s, user, current).access == s'.access;
  }

  lemma MarkingIsSweeping(s: Store, user: Id, device: Option<Id>, deleted: set<Id>) returns (others: set<Id>)
    ensures OthersMarked(s.refresh, user, device) == Swept(s, others, deleted).refresh
  {
    hide IsOther;
    others := set t | t in s.refresh && IsOther(s.refresh[t], user, device);
  }

  lemma DroppingIsSweeping(s: Store, user: Id, current: Option<Id>, revoked: set<Id>) returns (tokens: set<Id>)
    ensures OthersDropped(s.access, user, current) == Swept(s, revoked, tokens).access
  {
    tokens := set a | a in s.access && s.access[a].userId == user && current != Some(a);
  }

  lemma EndingSessionsIsASweep(s: Store, user: Id, current: Option<Id>, device: Option<Id>)
    ensures IsSweep(s, OthersRevoked(s, user, current, device))
  {
    var others := MarkingIsSweeping(s, user, device, {});
    var tokens := DroppingIsSweeping(s, user, current, others);
    assert Swept(s, others, tokens).refresh == Swept(s, others, {}).refresh;
    hide OthersMarked, OthersDropped;
    assert OthersRevoked(s, user, current, device) == Swept(s, others, tokens);
  }

  predicate Exchangeable(s: Store, user: Id, t: Id) {
    t in s.refresh && s.refresh[t].userId == user && IsOpen(s.refresh[t])
  }

  /** Afterwards the user has at most the current access token and at most one
      token that could be exchanged, on the current device. */
  lemma OnlyTheCurrentSessionRemains(s: Store, user: Id, current: Option<Id>, device: Option<Id>)
    requires StoreInv(s)
    ensures var s' := OthersRevoked(s, user, current, device);
      && (forall a :: a in s'.access && s'.access[a].userId == user ==> current == Some(a))
      && (forall t :: Exchangeable(s', user, t) ==> device.Some? && s'.refresh[t].deviceId == device)
      && (forall t, u :: Exchangeable(s', user, t) && Exchangeable(s', user, u) ==> t == u)
  {
    var s' := OthersRevoked(s, user, current, device);
    forall t, u | Exchangeable(s', user, t) && Exchangeable(s', user, u)
      ensures t == u
    {
      assert SameDevice(s, t, u);
      assert SameFamily(s, t, u);
    }
  }

  ghost predicate SignedOut(s: Store, user: Id) {
    forall t :: t in s.refresh && s.refresh[t].userId == user ==> s.refresh[t].revoked
  }

  lemma MarksKeepSignedOut(s: Store, s': Store, user: Id)
    requires SignedOut(s, user) && OnlyMarks(s, s')
    ensures SignedOut(s', user)
  {
    forall t | t in s'.refresh
      ensures s'.refresh[t].userId == s.refresh[t].userId && (s.refresh[t].revoked ==> s'.refresh[t].revoked)
    {
      assert Marked(s.refresh[t], s'.refresh[t]);
    }
  }

  lemma StepKeepsSignedOut(s: System, a: Action, user: Id)
    requires Inv(s) && Enabled(s, a) && SignedOut(s.store, user)
    requires !(a.SignIn? && a.userId == user)
    ensures SignedOut(Next(s, a).store, user)
  {
    hide StoreInv;
    var s' := Next(s, a);
    match a
    case SignIn(u, expiresAt, ids) =>
    case ReadRow(n, id) =>
    case Finish(n, now, throttled, expiresAt, ids) =>
      var r := s.inFlight[n];
      if Claims(s, a) {
        ClaimIssuesChild(s, a);
      } else {
        UnissuedOnlyMarks(s.store, r.id, r.row, now, throttled, expiresAt, ids);
        MarksKeepSignedOut(s.store, s'.store, user);
      }
    case Sweep(revoked, deleted) =>
      MarksKeepSignedOut(s.store, s'.store, user);
    case SetAccount(u, account) =>
      MarksKeepSignedOut(s.store, s'.store, user);
    case DeleteDevice(device) =>
  }

  /** A signed-out user gets no new token until they sign in again, even from a
      refresh that had already read its row when they signed out. */
  lemma {:induction false} SignedOutStaysOut(states: seq<System>, actions: seq<Action>, i: nat, j: nat, user: Id)
    requires IsRun(states, actions) && Inv(states[0]) && i <= j < |states|
    requires SignedOut(states[i].store, user)
    requires forall k :: i <= k < j ==> !(actions[k].SignIn? && actions[k].userId == user)
    ensures SignedOut(states[j].store, user)
    decreases j
  {
    hide Inv, SignedOut;
    if i < j {
      InvAlwaysHolds(states, actions, j - 1);
      assert IsStep(states[j - 1], actions[j - 1], states[j]);
      SignedOutStaysOut(states, actions, i, j - 1, user);
      StepKeepsSignedOut(states[j - 1], actions[j - 1], user);
    }
  }

  /** Signing out revokes every refresh token of the user, for good until the
      next sign-in. */
  lemma LogoutLasts(states: seq<System>, actions: seq<Action>, i: nat, j: nat, user: Id, current: Option<Id>)
    requires IsRun(states, actions) && Inv(states[0]) && i < j < |states|
    requires states[i + 1].store == LoggedOut(states[i].store, user, current)
    requires forall k :: i < k < j ==> !(actions[k].SignIn? && actions[k].userId == user)
    ensures SignedOut(states[j].store, user)
  {
    hide IsRun, Inv;
    SignedOutStaysOut(states, actions, i + 1, j, user);
  }
}
