/** What presenting a refresh token comes to, read off the token tables and the
    account, and what suspending an account means over whole runs. */
module RefreshOutcomes {
  import opened Wrappers
  import opened RefreshTokens
  import opened RefreshReplay

  /** The row can be exchanged: never exchanged, never revoked, and not yet
      expired. */
  predicate IsLive(t: RefreshToken, now: int) {
    !t.rotated && !t.revoked && t.expiresAt.Some? && now < t.expiresAt.value
  }

  predicate IsActive(s: Store, user: Id) {
    user in s.accounts && !s.accounts[user].suspended
  }

  /** A refresh ends with a new refresh token exactly when the row it read was
      live, the account is active, the limit is not reached and the row is still
      neither exchanged nor revoked. */
  lemma IssuesIff(s: System, a: Action)
    requires Inv(s) && Enabled(s, a) && a.Finish?
    ensures var r, s' := s.inFlight[a.request], Next(s, a).store;
      (a.ids.refresh in s'.refresh <==>
        && IsLive(r.row, a.now) && IsActive(s.store, r.row.userId) && !a.throttled
        && !s.store.refresh[r.id].rotated && !s.store.refresh[r.id].revoked)
  {
    hide StoreInv;
    assert ReadHolds(s.store, s.inFlight[a.request]);
  }

  /** The device of an exchange: the one the row recorded if it is still the
      user's, else a new one. */
  predicate IsDeviceFor(s: Store, row: RefreshToken, device: Id, newId: Id) {
    if row.deviceId.Some? && row.deviceId.value in s.devices && s.devices[row.deviceId.value] == row.userId
    then device == row.deviceId.value
    else device == newId
  }

  ghost predicate OthersStay(s: Store, s': Store, refresh: set<Id>, access: set<Id>) {
    && (forall t :: t !in refresh ==> (t in s'.refresh <==> t in s.refresh))
    && (forall t :: t in s.refresh && t !in refresh ==> s'.refresh[t] == s.refresh[t])
    && (forall x :: x !in access ==> (x in s'.access <==> x in s.access))
    && (forall x :: x in s.access && x !in access ==> s'.access[x] == s.access[x])
  }

  /** What a live token of an active account is exchanged for: a token of the
      same user and family that can be exchanged until the new expiry, and one
      access token, both on one device of the user; the presented token is
      spent and no other token changes. */
  lemma ExchangeGivesAPair(s: System, a: Action)
    requires Inv(s) && Enabled(s, a) && a.Finish? && a.ids.refresh in Next(s, a).store.refresh
    ensures var r, s', n, x := s.inFlight[a.request], Next(s, a).store, a.ids.refresh, a.ids.access;
      && s'.refresh[n].userId == r.row.userId && s'.refresh[n].familyId == Some(FamilyOf(r.id, r.row))
      && s'.refresh[n].expiresAt == Some(a.expiresAt) && !s'.refresh[n].rotated && !s'.refresh[n].revoked
      && x in s'.access && s'.access[x].userId == r.row.userId && s'.access[x].deviceId == s'.refresh[n].deviceId
      && s'.refresh[n].deviceId.Some? && IsDeviceFor(s.store, r.row, s'.refresh[n].deviceId.value, a.ids.device)
      && r.id in s'.refresh && r.id in s.store.refresh && s'.refresh[r.id] == s.store.refresh[r.id].(rotated := true)
      && OthersStay(s.store, s', {n, r.id}, {x})
  {
    IssuesIff(s, a);
    hide StoreInv;
    assert ReadHolds(s.store, s.inFlight[a.request]);
  }

  /** A token that was revoked or had expired when it was read, or that arrives
      beyond the limit, changes nothing. */
  lemma DeadTokenChangesNothing(s: System, a: Action)
    requires Inv(s) && Enabled(s, a) && a.Finish?
    requires var row := s.inFlight[a.request].row;
      !row.rotated && (!IsLive(row, a.now) || (IsActive(s.store, row.userId) && a.throttled))
    ensures Next(s, a).store == s.store
  {
  }

  /** A live token of a suspended or missing account is revoked, and that is
      all. */
  lemma InactiveTokenIsRevoked(s: System, a: Action)
    requires Inv(s) && Enabled(s, a) && a.Finish?
    requires IsLive(s.inFlight[a.request].row, a.now) && !IsActive(s.store, s.inFlight[a.request].row.userId)
    ensures var id, s' := s.inFlight[a.request].id, Next(s, a).store;
      && id in s.store.refresh && id in s'.refresh && s'.refresh[id] == s.store.refresh[id].(revoked := true)
      && OthersStay(s.store, s', {id}, {}) && s'.devices == s.store.devices
  {
    hide StoreInv;
    assert ReadHolds(s.store, s.inFlight[a.request]);
  }

  /** A detected replay touches no token of another family. */
  lemma ReplaySparesOtherFamilies(s: System, a: Action)
    requires Inv(s) && Enabled(s, a) && Detects(s, a)
    ensures var r, s' := s.inFlight[a.request], Next(s, a).store;
      && s'.refresh.Keys == s.store.refresh.Keys
      && (forall t :: t in s.store.refresh && FamilyOf(t, s.store.refresh[t]) != FamilyOf(r.id, r.row) ==>
            s'.refresh[t] == s.store.refresh[t])
      && (forall x :: x in s.store.access && s.store.access[x].family != FamilyOf(r.id, r.row) ==>
            x in s'.access && s'.access[x] == s.store.access[x])
  {
    ReplayKillsTheFamily(s, a);
    hide Next, Detects, Dead;
    RevocationStaysInFamily(s.store, s.inFlight[a.request]);
  }

  lemma RevocationStaysInFamily(s: Store, r: Read)
    requires StoreInv(s) && ReadHolds(s, r)
    ensures var s' := FamilyRevoked(s, r.id, r.row);
      && (forall t :: t in s.refresh && FamilyOf(t, s.refresh[t]) != FamilyOf(r.id, r.row) ==> s'.refresh[t] == s.refresh[t])
      && (forall x :: x in s.access && s.access[x].family != FamilyOf(r.id, r.row) ==> x in s'.access && s'.access[x] == s.access[x])
  {
    hide FamiliesMatchDevices, AtMostOneOpen, DevicelessTogether, DevicesOwned;
    forall t | t in s.refresh && InFamilyQuery(t, s.refresh[t], r.row.userId, FamilyOf(r.id, r.row))
      ensures FamilyOf(t, s.refresh[t]) == FamilyOf(r.id, r.row)
    {
      assert IsRoot(s, FamilyOf(r.id, s.refresh[r.id]), s.refresh[r.id].userId);
    }
    forall x | x in s.access && r.row.deviceId.Some? && s.access[x].deviceId == r.row.deviceId && s.access[x].userId == r.row.userId
      ensures s.access[x].family == FamilyOf(r.id, r.row)
    {
      AccessOnDeviceOf(s, r, x);
    }
  }

  lemma AccessOnDeviceOf(s: Store, r: Read, x: Id)
    requires StoreInv(s) && ReadHolds(s, r)
    requires x in s.access && r.row.deviceId.Some? && s.access[x].deviceId == r.row.deviceId
    ensures s.access[x].family == FamilyOf(r.id, r.row)
  {
    hide Rooted, FamiliesMatchDevices, AtMostOneOpen, DevicelessTogether;
    assert s.access[x].deviceId.value in s.devices;
    assert OnDeviceOf(s, x, r.id);
    assert InFamilyOf(s, x, r.id);
  }

  // ---------- Suspension over runs ----------

  predicate SignsIn(a: Action, user: Id) {
    a.SignIn? && a.userId == user
  }

  /** Whatever token the user has later they had before. */
  ghost predicate NothingNew(s: Store, s': Store, user: Id) {
    && (forall t :: t in s'.refresh && s'.refresh[t].userId == user ==> t in s.refresh && s.refresh[t].userId == user)
    && (forall x :: x in s'.access && s'.access[x].userId == user ==> x in s.access && s.access[x] == s'.access[x])
  }

  /** While an account is suspended or missing no step but a sign-in of the user
      gives them a token, whatever refreshes were in flight. */
  lemma InactiveGetsNothing(s: System, a: Action, user: Id)
    requires Inv(s) && Enabled(s, a) && !IsActive(s.store, user) && !SignsIn(a, user)
    ensures NothingNew(s.store, Next(s, a).store, user)
  {
    hide StoreInv;
    if a.Finish? {
      assert ReadHolds(s.store, s.inFlight[a.request]);
      IssuesIff(s, a);
      var r := s.inFlight[a.request];
      if a.ids.refresh in Next(s, a).store.refresh {
        ExchangeGivesAPair(s, a);
        OnlyThisUser(s.store, Next(s, a).store, r, a.ids, user);
      } else {
        UnissuedOnlyMarks(s.store, r.id, r.row, a.now, a.throttled, a.expiresAt, a.ids);
        MarksAddNothing(s.store, Next(s, a).store, user);
      }
    }
  }

  lemma OnlyThisUser(s: Store, s': Store, r: Read, ids: Ids, user: Id)
    requires OthersStay(s, s', {ids.refresh, r.id}, {ids.access}) && r.id in s.refresh && r.row.userId != user
    requires s.refresh[r.id].userId == r.row.userId
    requires r.id in s'.refresh && s'.refresh[r.id].userId == r.row.userId
    requires ids.refresh in s'.refresh && s'.refresh[ids.refresh].userId == r.row.userId
    requires ids.access in s'.access && s'.access[ids.access].userId == r.row.userId
    ensures NothingNew(s, s', user)
  {
  }

  lemma MarksAddNothing(s: Store, s': Store, user: Id)
    requires OnlyMarks(s, s')
    ensures NothingNew(s, s', user)
  {
    forall t | t in s'.refresh
      ensures t in s.refresh && s.refresh[t].userId == s'.refresh[t].userId
    {
      assert Marked(s.refresh[t], s'.refresh[t]);
    }
  }

  /** The same over any stretch of a run during which the account is suspended
      or missing. */
  lemma {:induction false} SuspensionEndsIssuing(states: seq<System>, actions: seq<Action>, i: nat, j: nat, user: Id)
    requires IsRun(states, actions) && Inv(states[0]) && i <= j < |states|
    requires forall k :: i <= k < j ==> !IsActive(states[k].store, user) && !SignsIn(actions[k], user)
    ensures NothingNew(states[i].store, states[j].store, user)
    decreases j
  {
    hide Inv, Enabled, Next, IsActive, SignsIn;
    if i < j {
      InvAlwaysHolds(states, actions, j - 1);
      assert IsStep(states[j - 1], actions[j - 1], states[j]);
      SuspensionEndsIssuing(states, actions, i, j - 1, user);
      InactiveGetsNothing(states[j - 1], actions[j - 1], user);
    }
  }

  lemma StepKeepsRevoked(s: System, a: Action, t: Id)
    requires Inv(s) && Enabled(s, a) && t in s.store.refresh && s.store.refresh[t].revoked
    ensures t in Next(s, a).store.refresh && Next(s, a).store.refresh[t].revoked
  {
    var added: set<Id> := if a.SignIn? || a.Finish? then {a.ids.device} else {};
    StepFollows(s, a, added);
    hide Inv, Enabled, Next;
    assert RowFollows(s.store, Next(s, a).store, t);
  }

  lemma {:induction false} RevokedForGood(states: seq<System>, actions: seq<Action>, i: nat, j: nat, t: Id)
    requires IsRun(states, actions) && Inv(states[0]) && i <= j < |states|
    requires t in states[i].store.refresh && states[i].store.refresh[t].revoked
    ensures t in states[j].store.refresh && states[j].store.refresh[t].revoked
    decreases j
  {
    hide Inv, Enabled, Next;
    if i < j {
      InvAlwaysHolds(states, actions, j - 1);
      assert IsStep(states[j - 1], actions[j - 1], states[j]);
      RevokedForGood(states, actions, i, j - 1, t);
      StepKeepsRevoked(states[j - 1], actions[j - 1], t);
    }
  }

  /** A token presented while its account is suspended stays revoked, also when
      the account is reinstated. */
  lemma PresentedWhileSuspended(states: seq<System>, actions: seq<Action>, i: nat, j: nat)
    requires IsRun(states, actions) && Inv(states[0]) && i < j < |states|
    requires actions[i].Finish? && actions[i].request in states[i].inFlight
    requires var row := states[i].inFlight[actions[i].request].row;
      IsLive(row, actions[i].now) && !IsActive(states[i].store, row.userId)
    ensures var t := states[i].inFlight[actions[i].request].id;
      t in states[j].store.refresh && states[j].store.refresh[t].revoked
  {
    InvAlwaysHolds(states, actions, i);
    assert IsStep(states[i], actions[i], states[i + 1]);
    InactiveTokenIsRevoked(states[i], actions[i]);
    RevokedForGood(states, actions, i + 1, j, states[i].inFlight[actions[i].request].id);
  }

  // ---------- Ending sessions ----------

  /** Signing out ends the access token of the request and no other, and touches
      no other user's refresh tokens. */
  lemma LogoutEndsThisAccess(s: Store, user: Id, current: Option<Id>)
    ensures var s' := LoggedOut(s, user, current);
      && (forall x :: x in s'.access <==> x in s.access && current != Some(x))
      && (forall x :: x in s'.access ==> s'.access[x] == s.access[x])
      && s'.refresh.Keys == s.refresh.Keys
      && (forall t :: t in s.refresh ==>
            if s.refresh[t].userId == user then s'.refresh[t].revoked else s'.refresh[t] == s.refresh[t])
  {
  }

  /** Ending the other sessions keeps the current access token, the refresh
      tokens of the current device, and everything of other users. */
  lemma CurrentSessionStays(s: Store, user: Id, current: Option<Id>, device: Option<Id>)
    ensures var s' := OthersRevoked(s, user, current, device);
      && (forall x :: x in s.access && (s.access[x].userId != user || current == Some(x)) ==>
            x in s'.access && s'.access[x] == s.access[x])
      && s'.refresh.Keys == s.refresh.Keys
      && (forall t :: t in s.refresh && (s.refresh[t].userId != user || (device.Some? && s.refresh[t].deviceId == device)) ==>
            s'.refresh[t] == s.refresh[t])
  {
  }
}
