/** Refresh-token rotation with reuse detection. */
module RefreshTokens {
  import opened Wrappers

  type Id = string

  datatype RefreshToken = RefreshToken(
    userId: Id,
    deviceId: Option<Id>,
    familyId: Option<Id>,
    expiresAt: Option<int>,
    rotated: bool,
    revoked: bool)

  /** `family` names the sign-in the token goes back to; no operation reads it.
      Tokens that were issued before access tokens recorded a device have none. */
  datatype AccessToken = AccessToken(userId: Id, deviceId: Option<Id>, family: Id)

  datatype Account = Account(suspended: bool)

  /** `devices` maps a device to its owner. */
  datatype Store = Store(
    accounts: map<Id, Account>,
    devices: map<Id, Id>,
    refresh: map<Id, RefreshToken>,
    access: map<Id, AccessToken>)

  /** Identifiers for the rows one issue may create. */
  datatype Ids = Ids(refresh: Id, access: Id, device: Id)

  predicate Usable(t: RefreshToken, now: int) {
    !t.revoked && !t.rotated && t.expiresAt.Some? && t.expiresAt.value > now
  }

  predicate IsOpen(t: RefreshToken) {
    !t.rotated && !t.revoked
  }

  /** A token without a recorded family is the root of its own. */
  function FamilyOf(id: Id, t: RefreshToken): Id {
    if t.familyId.Some? then t.familyId.value else id
  }

  predicate InFamilyQuery(id: Id, t: RefreshToken, user: Id, family: Id) {
    t.userId == user && (t.familyId == Some(family) || id == family)
  }

  function FamilyRevoked(s: Store, id: Id, row: RefreshToken): Store {
    var family := FamilyOf(id, row);
    s.(refresh := map t | t in s.refresh ::
         if InFamilyQuery(t, s.refresh[t], row.userId, family) then s.refresh[t].(revoked := true) else s.refresh[t],
       access := if row.deviceId.None? then s.access
                 else map a | a in s.access && !(s.access[a].userId == row.userId && s.access[a].deviceId == row.deviceId) :: s.access[a])
  }

  /** The device an issue uses: the recorded one if the row is still the
      user's, else a new one. */
  function DeviceFor(s: Store, user: Id, device: Option<Id>, ids: Ids): Id {
    if device.Some? && device.value in s.devices && s.devices[device.value] == user then device.value else ids.device
  }

  function PairIssued(s: Store, user: Id, device: Option<Id>, family: Option<Id>, expiresAt: int, ids: Ids): Store {
    var d := DeviceFor(s, user, device, ids);
    var root := if family.Some? then family.value else ids.refresh;
    s.(devices := s.devices[d := user],
       refresh := s.refresh[ids.refresh := RefreshToken(user, Some(d), Some(root), Some(expiresAt), false, false)],
       access := s.access[ids.access := AccessToken(user, Some(d), root)])
  }

  /** Deleting a device row deletes its access tokens and leaves its refresh
      tokens without a device. */
  function DeviceDeleted(s: Store, device: Id): Store {
    s.(devices := s.devices - {device},
       refresh := map t | t in s.refresh ::
         if s.refresh[t].deviceId == Some(device) then s.refresh[t].(deviceId := None) else s.refresh[t],
       access := map a | a in s.access && s.access[a].deviceId != Some(device) :: s.access[a])
  }

  /** Signing out deletes one access token and revokes every refresh token. */
  function LoggedOut(s: Store, user: Id, current: Option<Id>): Store {
    s.(access := if current.Some? then s.access - {current.value} else s.access,
       refresh := map t | t in s.refresh ::
         if s.refresh[t].userId == user then s.refresh[t].(revoked := true) else s.refresh[t])
  }

  predicate IsOther(t: RefreshToken, user: Id, device: Option<Id>) {
    t.userId == user && (device.None? || t.deviceId != device)
  }

  function OthersMarked(refresh: map<Id, RefreshToken>, user: Id, device: Option<Id>): map<Id, RefreshToken> {
    map t | t in refresh :: if IsOther(refresh[t], user, device) then refresh[t].(revoked := true) else refresh[t]
  }

  function OthersDropped(access: map<Id, AccessToken>, user: Id, current: Option<Id>): map<Id, AccessToken> {
    map a | a in access && (access[a].userId != user || current == Some(a)) :: access[a]
  }

  /** End every session of the user but the one of the current request, whose
      access token is `current` and which runs on `device`. */
  function OthersRevoked(s: Store, user: Id, current: Option<Id>, device: Option<Id>): Store {
    s.(access := OthersDropped(s.access, user, current), refresh := OthersMarked(s.refresh, user, device))
  }

  predicate MayRefresh(s: Store, user: Id) {
    user in s.accounts && !s.accounts[user].suspended
  }

  /** The rest of a refresh after its row was read as `row`. */
  function RefreshFinished(s: Store, id: Id, row: RefreshToken, now: int, throttled: bool, expiresAt: int, ids: Ids): Store {
    if row.rotated then FamilyRevoked(s, id, row)
    else if !Usable(row, now) then s
    else if !MayRefresh(s, row.userId) then
      if id in s.refresh then s.(refresh := s.refresh[id := s.refresh[id].(revoked := true)]) else s
    else if throttled then s
    else if id in s.refresh && IsOpen(s.refresh[id]) then
      PairIssued(s.(refresh := s.refresh[id := s.refresh[id].(rotated := true)]),
                 row.userId, row.deviceId, Some(FamilyOf(id, row)), expiresAt, ids)
    else FamilyRevoked(s, id, row)
  }

  // ---------- The service ----------

  class TokenDatabase {
    var accounts: map<Id, Account>
    var devices: map<Id, Id>
    var refresh: map<Id, RefreshToken>
    var access: map<Id, AccessToken>

    constructor (s: Store)
      ensures Tables() == s
    {
      accounts, devices, refresh, access := s.accounts, s.devices, s.refresh, s.access;
    }

    function Tables(): Store
      reads this
    {
      Store(accounts, devices, refresh, access)
    }

    method RevokeFamily(id: Id, row: RefreshToken)
      modifies this`refresh, this`access
      ensures Tables() == FamilyRevoked(old(Tables()), id, row)
    {
      var family := if row.familyId.Some? then row.familyId.value else id;
      refresh := map t | t in refresh ::
        if InFamilyQuery(t, refresh[t], row.userId, family) && !refresh[t].revoked then refresh[t].(revoked := true) else refresh[t];
      assert refresh == FamilyRevoked(old(Tables()), id, row).refresh;
      if row.deviceId.Some? {
        access := map a | a in access && !(access[a].userId == row.userId && access[a].deviceId == row.deviceId) :: access[a];
      }
    }

    method IssueTokenPair(user: Id, device: Option<Id>, family: Option<Id>, expiresAt: int, ids: Ids)
      modifies this`devices, this`refresh, this`access
      ensures Tables() == PairIssued(old(Tables()), user, device, family, expiresAt, ids)
    {
      var d;
      if device.Some? && device.value in devices && devices[device.value] == user {
        d := device.value;
      } else {
        d := ids.device;
      }
      devices := devices[d := user];
      refresh := refresh[ids.refresh := RefreshToken(user, Some(d), family, Some(expiresAt), false, false)];
      if family.None? {
        refresh := refresh[ids.refresh := refresh[ids.refresh].(familyId := Some(ids.refresh))];
      }
      access := access[ids.access := AccessToken(user, Some(d), refresh[ids.refresh].familyId.value)];
    }

    /** The part of a refresh that follows reading its row. Between the two,
        other requests may have run. */
    method FinishRefresh(id: Id, row: RefreshToken, now: int, throttled: bool, expiresAt: int, ids: Ids) returns (issued: bool)
      modifies this
      ensures Tables() == RefreshFinished(old(Tables()), id, row, now, throttled, expiresAt, ids)
      ensures issued <==>
        && Usable(row, now) && MayRefresh(old(Tables()), row.userId) && !throttled
        && id in old(refresh) && IsOpen(old(refresh)[id])
    {
      if row.rotated {
        RevokeFamily(id, row);
        return false;
      }
      if !Usable(row, now) {
        return false;
      }
      if row.userId !in accounts || accounts[row.userId].suspended {
        if id in refresh {
          refresh := refresh[id := refresh[id].(revoked := true)];
        }
        return false;
      }
      if throttled {
        return false;
      }
      var claimed := 0;
      if id in refresh && !refresh[id].rotated && !refresh[id].revoked {
        refresh := refresh[id := refresh[id].(rotated := true)];
        claimed := 1;
      }
      if claimed != 1 {
        RevokeFamily(id, row);
        return false;
      }
      IssueTokenPair(row.userId, row.deviceId, Some(FamilyOf(id, row)), expiresAt, ids);
      return true;
    }

    /** A refresh whose row lock holds: nothing runs between read and claim. */
    method Refresh(id: Id, now: int, throttled: bool, expiresAt: int, ids: Ids) returns (issued: bool)
      modifies this
      ensures id !in old(refresh) ==> !issued && Tables() == old(Tables())
      ensures id in old(refresh) ==>
        Tables() == RefreshFinished(old(Tables()), id, old(refresh)[id], now, throttled, expiresAt, ids)
      ensures issued <==> id in old(refresh) && Usable(old(refresh)[id], now) && MayRefresh(old(Tables()), old(refresh)[id].userId) && !throttled
    {
      if id !in refresh {
        return false;
      }
      issued := FinishRefresh(id, refresh[id], now, throttled, expiresAt, ids);
    }

    method Logout(user: Id, current: Option<Id>)
      modifies this`refresh, this`access
      ensures Tables() == LoggedOut(old(Tables()), user, current)
    {
      if current.Some? {
        access := access - {current.value};
      }
      refresh := map t | t in refresh ::
        if refresh[t].userId == user && !refresh[t].revoked then refresh[t].(revoked := true) else refresh[t];
      assert refresh == LoggedOut(old(Tables()), user, current).refresh;
    }

    method RevokeOtherSessions(user: Id, current: Option<Id>, device: Option<Id>)
      modifies this`refresh, this`access
      ensures Tables() == OthersRevoked(old(Tables()), user, current, device)
    {
      access := map a | a in access && !(access[a].userId == user && (current.None? || a != current.value)) :: access[a];
      assert access == OthersDropped(old(access), user, current);
      refresh := map t | t in refresh ::
        if refresh[t].userId == user && !refresh[t].revoked && OtherDevice(refresh[t].deviceId, device)
        then refresh[t].(revoked := true) else refresh[t];
      assert refresh == OthersMarked(old(refresh), user, device);
    }
  }

  /** The condition added to the query when the current device is known. */
  predicate OtherDevice(device: Option<Id>, current: Option<Id>) {
    current.None? || device.None? || device.value != current.value
  }

  // ---------- Interleaved requests ----------

  datatype Read = Read(id: Id, row: RefreshToken)

  /** `inFlight` holds the requests that have read their row and not finished,
      `deviceIds` every device id ever given out; ids are not used twice. */
  datatype System = System(store: Store, inFlight: map<nat, Read>, deviceIds: set<Id>)

  datatype Action =
    | SignIn(userId: Id, expiresAt: int, ids: Ids)
    | ReadRow(request: nat, id: Id)
    | Finish(request: nat, now: int, throttled: bool, expiresAt: int, ids: Ids)
    | Sweep(revoked: set<Id>, deleted: set<Id>)
    | SetAccount(userId: Id, account: Account)
    | DeleteDevice(device: Id)

  /** New rows get identifiers no row has or refers to. */
  ghost predicate FreshIds(s: Store, ids: Ids) {
    && ids.refresh !in s.refresh
    && ids.access !in s.access
    && ids.device !in s.devices
    && forall t :: t in s.refresh ==> s.refresh[t].familyId != Some(ids.refresh)
  }

  ghost predicate Enabled(s: System, a: Action) {
    match a
    case SignIn(_, _, ids) => FreshIds(s.store, ids) && ids.device !in s.deviceIds
    case ReadRow(n, id) => n !in s.inFlight && id in s.store.refresh
    case Finish(n, _, _, _, ids) => n in s.inFlight && FreshIds(s.store, ids) && ids.device !in s.deviceIds
    case Sweep(_, _) => true
    case SetAccount(_, _) => true
    case DeleteDevice(_) => true
  }

  /** `Sweep` stands for every revocation elsewhere: sign-out, suspension,
      password reset, replacing a second factor, a master-password change. */
  function Next(s: System, a: Action): System
    requires a.ReadRow? ==> a.id in s.store.refresh
    requires a.Finish? ==> a.request in s.inFlight
  {
    match a
    case SignIn(user, expiresAt, ids) =>
      s.(store := PairIssued(s.store, user, None, None, expiresAt, ids), deviceIds := s.deviceIds + {ids.device})
    case ReadRow(n, id) => s.(inFlight := s.inFlight[n := Read(id, s.store.refresh[id])])
    case Finish(n, now, throttled, expiresAt, ids) =>
      System(RefreshFinished(s.store, s.inFlight[n].id, s.inFlight[n].row, now, throttled, expiresAt, ids),
             s.inFlight - {n},
             s.deviceIds + {ids.device})
    case Sweep(revoked, deleted) => s.(store := Swept(s.store, revoked, deleted))
    case SetAccount(user, account) => s.(store := s.store.(accounts := s.store.accounts[user := account]))
    case DeleteDevice(device) => s.(store := DeviceDeleted(s.store, device))
  }

  function Swept(s: Store, revoked: set<Id>, deleted: set<Id>): Store {
    s.(refresh := map t | t in s.refresh :: if t in revoked then s.refresh[t].(revoked := true) else s.refresh[t],
       access := s.access - deleted)
  }

  // ---------- The invariant ----------

  ghost predicate DevicesOwned(s: Store) {
    && (forall t :: t in s.refresh && s.refresh[t].deviceId.Some? ==>
          s.refresh[t].deviceId.value in s.devices && s.devices[s.refresh[t].deviceId.value] == s.refresh[t].userId)
    && (forall a :: a in s.access && s.access[a].deviceId.Some? ==>
          s.access[a].deviceId.value in s.devices && s.devices[s.access[a].deviceId.value] == s.access[a].userId)
  }

  /** A family is named after its root, which stays in the table. */
  ghost predicate Rooted(s: Store) {
    forall t :: t in s.refresh ==> IsRoot(s, FamilyOf(t, s.refresh[t]), s.refresh[t].userId)
  }

  predicate IsRoot(s: Store, family: Id, user: Id) {
    family in s.refresh && FamilyOf(family, s.refresh[family]) == family && s.refresh[family].userId == user
  }

  predicate SameFamily(s: Store, t: Id, u: Id) {
    t in s.refresh && u in s.refresh && FamilyOf(t, s.refresh[t]) == FamilyOf(u, s.refresh[u])
  }

  predicate SameDevice(s: Store, t: Id, u: Id) {
    && t in s.refresh && u in s.refresh
    && s.refresh[t].deviceId.Some? && s.refresh[t].deviceId == s.refresh[u].deviceId
  }

  /** Families and devices pair off. */
  ghost predicate FamiliesMatchDevices(s: Store) {
    && (forall t, u :: SameFamily(s, t, u) && s.refresh[t].deviceId.Some? && s.refresh[u].deviceId.Some? ==> SameDevice(s, t, u))
    && (forall t, u :: SameDevice(s, t, u) ==> SameFamily(s, t, u))
  }

  /** At most one token of a family is neither rotated nor revoked. */
  ghost predicate AtMostOneOpen(s: Store) {
    forall t, u :: SameFamily(s, t, u) && IsOpen(s.refresh[t]) && IsOpen(s.refresh[u]) ==> t == u
  }

  predicate OnDeviceOf(s: Store, a: Id, t: Id) {
    && a in s.access && t in s.refresh
    && s.access[a].deviceId.Some? && s.access[a].deviceId == s.refresh[t].deviceId
  }

  predicate InFamilyOf(s: Store, a: Id, t: Id) {
    a in s.access && t in s.refresh && s.access[a].family == FamilyOf(t, s.refresh[t])
  }

  predicate OnDevices(s: Store, a: Id, b: Id) {
    a in s.access && b in s.access && s.access[a].deviceId.Some? && s.access[b].deviceId.Some?
  }

  /** If an open token has no device, nothing of its family has one. */
  ghost predicate DevicelessTogether(s: Store) {
    && (forall t, u :: SameFamily(s, t, u) && IsOpen(s.refresh[t]) && s.refresh[t].deviceId.None? ==> s.refresh[u].deviceId.None?)
    && (forall a, t :: InFamilyOf(s, a, t) && IsOpen(s.refresh[t]) && s.refresh[t].deviceId.None? ==> s.access[a].deviceId.None?)
  }

  /** Access tokens go back to a family of their user, and as far as they have
      a device it is the family's. */
  ghost predicate AccessPaired(s: Store) {
    && (forall a :: a in s.access ==> IsRoot(s, s.access[a].family, s.access[a].userId))
    && (forall a, t :: OnDeviceOf(s, a, t) ==> InFamilyOf(s, a, t))
    && (forall a, t :: InFamilyOf(s, a, t) && s.access[a].deviceId.Some? && s.refresh[t].deviceId.Some? ==> OnDeviceOf(s, a, t))
    && (forall a, b :: OnDevices(s, a, b) ==> (s.access[a].deviceId == s.access[b].deviceId <==> s.access[a].family == s.access[b].family))
  }

  ghost predicate StoreInv(s: Store) {
    && DevicesOwned(s) && Rooted(s) && FamiliesMatchDevices(s) && AtMostOneOpen(s)
    && DevicelessTogether(s) && AccessPaired(s)
  }

  /** What a request read is still true of the row, except that marks may have
      been added and its device deleted. */
  predicate ReadHolds(s: Store, r: Read) {
    && r.id in s.refresh
    && Marked(r.row.(deviceId := s.refresh[r.id].deviceId), s.refresh[r.id])
    && (r.row.deviceId == s.refresh[r.id].deviceId || DeviceLost(s, r))
  }

  predicate DeviceLost(s: Store, r: Read) {
    r.id in s.refresh && s.refresh[r.id].deviceId.None? && r.row.deviceId.Some? && r.row.deviceId.value !in s.devices
  }

  /** `later` is `earlier` with, perhaps, more marks. */
  predicate Marked(earlier: RefreshToken, later: RefreshToken) {
    && later == earlier.(rotated := later.rotated, revoked := later.revoked)
    && (earlier.rotated ==> later.rotated)
    && (earlier.revoked ==> later.revoked)
  }

  ghost predicate Inv(s: System) {
    && StoreInv(s.store)
    && s.store.devices.Keys <= s.deviceIds
    && (forall n :: n in s.inFlight ==> ReadHolds(s.store, s.inFlight[n]))
    && (forall n :: n in s.inFlight && s.inFlight[n].row.deviceId.Some? ==> s.inFlight[n].row.deviceId.value in s.deviceIds)
  }

  /** No row is new, marks are only added and access tokens only deleted. */
  ghost predicate OnlyMarks(s: Store, s': Store) {
    && s'.devices == s.devices
    && s'.refresh.Keys == s.refresh.Keys
    && (forall t :: t in s.refresh ==> Marked(s.refresh[t], s'.refresh[t]))
    && (forall a :: a in s'.access ==> a in s.access && s'.access[a] == s.access[a])
  }

  lemma MarksKeepInv(s: Store, s': Store)
    requires StoreInv(s) && OnlyMarks(s, s')
    ensures StoreInv(s')
  {
    MarksKeepRoots(s, s');
    MarksKeepPairs(s, s');
    MarksKeepDevices(s, s');
    MarksKeepAccess(s, s');
    hide Rooted, SameFamily, SameDevice, DevicesOwned, OnlyMarks, FamiliesMatchDevices, AtMostOneOpen, DevicelessTogether, AccessPaired;
    MarksKeepPairing(s, s');
    MarksKeepUniqueness(s, s');
  }

  lemma MarksKeepAccess(s: Store, s': Store)
    requires AccessPaired(s) && OnlyMarks(s, s')
    ensures AccessPaired(s')
    ensures forall a, t :: InFamilyOf(s', a, t) ==> InFamilyOf(s, a, t) && s'.access[a] == s.access[a]
  {
    forall a, t
      ensures InFamilyOf(s', a, t) <==> a in s'.access && InFamilyOf(s, a, t)
      ensures OnDeviceOf(s', a, t) <==> a in s'.access && OnDeviceOf(s, a, t)
    {
      assert t in s.refresh ==> Marked(s.refresh[t], s'.refresh[t]);
    }
    forall a | a in s'.access
      ensures IsRoot(s', s'.access[a].family, s'.access[a].userId)
    {
      assert IsRoot(s, s.access[a].family, s.access[a].userId);
    }
    assert forall a, b :: OnDevices(s', a, b) ==> OnDevices(s, a, b);
  }

  lemma MarksKeepPairing(s: Store, s': Store)
    requires FamiliesMatchDevices(s) && OnlyMarks(s, s')
    requires forall t, u :: SameFamily(s', t, u) <==> SameFamily(s, t, u)
    requires forall t, u :: SameDevice(s', t, u) <==> SameDevice(s, t, u)
    requires forall t, u :: SameFamily(s, t, u) ==> t in s.refresh && u in s.refresh
    ensures FamiliesMatchDevices(s')
  {
    hide SameFamily, SameDevice, IsOpen;
    forall t, u | SameFamily(s', t, u) && s'.refresh[t].deviceId.Some? && s'.refresh[u].deviceId.Some?
      ensures SameDevice(s', t, u)
    {
      assert Marked(s.refresh[t], s'.refresh[t]) && Marked(s.refresh[u], s'.refresh[u]);
    }
  }

  lemma MarksKeepUniqueness(s: Store, s': Store)
    requires AtMostOneOpen(s) && DevicelessTogether(s) && OnlyMarks(s, s')
    requires forall t, u :: SameFamily(s', t, u) <==> SameFamily(s, t, u)
    requires forall t, u :: SameFamily(s, t, u) ==> t in s.refresh && u in s.refresh
    requires forall a, t :: InFamilyOf(s', a, t) ==> InFamilyOf(s, a, t) && s'.access[a] == s.access[a]
    ensures AtMostOneOpen(s') && DevicelessTogether(s')
  {
    hide SameFamily, SameDevice;
    forall t | t in s'.refresh
      ensures s'.refresh[t].deviceId == s.refresh[t].deviceId
    {
      assert Marked(s.refresh[t], s'.refresh[t]);
    }
    forall t | t in s'.refresh && IsOpen(s'.refresh[t])
      ensures s'.refresh[t] == s.refresh[t]
    {
      assert Marked(s.refresh[t], s'.refresh[t]);
    }
  }

  lemma MarksKeepDevices(s: Store, s': Store)
    requires DevicesOwned(s) && OnlyMarks(s, s')
    ensures DevicesOwned(s')
  {
  }

  lemma MarksKeepRoots(s: Store, s': Store)
    requires Rooted(s) && OnlyMarks(s, s')
    ensures Rooted(s')
  {
    forall t | t in s'.refresh
      ensures IsRoot(s', FamilyOf(t, s'.refresh[t]), s'.refresh[t].userId)
    {
      assert IsRoot(s, FamilyOf(t, s.refresh[t]), s.refresh[t].userId);
    }
  }

  lemma MarksKeepPairs(s: Store, s': Store)
    requires OnlyMarks(s, s')
    ensures forall t, u :: SameFamily(s', t, u) <==> SameFamily(s, t, u)
    ensures forall t, u :: SameDevice(s', t, u) <==> SameDevice(s, t, u)
    ensures forall t, u :: SameFamily(s, t, u) ==> t in s.refresh && u in s.refresh
  {
  }

  /** The steps of a refresh that issue nothing only add marks. */
  lemma UnissuedOnlyMarks(s: Store, id: Id, row: RefreshToken, now: int, throttled: bool, expiresAt: int, ids: Ids)
    requires !(id in s.refresh && IsOpen(s.refresh[id]) && Usable(row, now) && MayRefresh(s, row.userId) && !throttled)
    ensures OnlyMarks(s, RefreshFinished(s, id, row, now, throttled, expiresAt, ids))
  {
  }

  ghost predicate MayIssue(s: Store, user: Id, parent: Option<Id>, ids: Ids) {
    && StoreInv(s) && FreshIds(s, ids)
    && (parent.Some? ==> parent.value in s.refresh && IsOpen(s.refresh[parent.value]) && s.refresh[parent.value].userId == user)
  }

  /** Issuing to a new family, or to one whose only open token has just been
      rotated. */
  lemma IssueKeepsInv(s: Store, user: Id, parent: Option<Id>, expiresAt: int, ids: Ids)
    requires MayIssue(s, user, parent, ids)
    ensures StoreInv(Child(s, user, parent, expiresAt, ids))
  {
    IssueKeepsRoots(s, user, parent, expiresAt, ids);
    IssuedPairs(s, user, parent, expiresAt, ids);
    IssueKeepsDevices(s, user, parent, expiresAt, ids);
    var s' := Child(s, user, parent, expiresAt, ids);
    IssuedRows(s, user, parent, expiresAt, ids);
    IssueKeepsAccess(s, user, parent, expiresAt, ids);
    hide Rooted, SameFamily, SameDevice, Child, FreshIds, DevicesOwned, IssuedRelations, FamiliesMatchDevices, AtMostOneOpen, DevicelessTogether, AccessPaired;
    IssueKeepsUniqueness(s, s', parent, ids.refresh);
    IssueKeepsPairing(s, s', parent, ids.refresh);
  }

  lemma IssuedRows(s: Store, user: Id, parent: Option<Id>, expiresAt: int, ids: Ids)
    requires FreshIds(s, ids) && (parent.Some? ==> parent.value in s.refresh)
    ensures var s', n := Child(s, user, parent, expiresAt, ids), ids.refresh;
      && n in s'.refresh && s'.refresh[n].deviceId.Some? && SameFamily(s', n, n) && SameDevice(s', n, n)
      && (forall t :: t in s'.refresh && t != n ==> t in s.refresh && s'.refresh[t].deviceId == s.refresh[t].deviceId)
      && (forall t :: t in s'.refresh && t != n && IsOpen(s'.refresh[t]) ==>
            parent != Some(t) && t in s.refresh && s'.refresh[t] == s.refresh[t])
      && (forall t, u :: SameFamily(s', t, u) ==> t in s'.refresh && u in s'.refresh)
      && (forall t, u :: SameFamily(s, t, u) ==> t in s.refresh && u in s.refresh && SameFamily(s, u, t))
  {
  }

  ghost predicate IssuedRelations(s: Store, s': Store, parent: Option<Id>, n: Id) {
    && (forall t, u :: t != n && u != n ==> (SameFamily(s', t, u) <==> SameFamily(s, t, u)))
    && (forall t, u :: t != n && u != n ==> (SameDevice(s', t, u) <==> SameDevice(s, t, u)))
    && (forall t :: t != n && SameFamily(s', t, n) ==> parent.Some? && SameFamily(s, t, parent.value))
    && (forall t :: t != n && SameFamily(s', n, t) ==> parent.Some? && SameFamily(s, t, parent.value))
    && (forall t :: t != n && (SameDevice(s', t, n) || SameDevice(s', n, t)) ==>
          parent.Some? && SameDevice(s, t, parent.value) && SameFamily(s', t, n) && SameFamily(s', n, t))
    && (forall t :: t != n && parent.Some? && SameDevice(s, t, parent.value) ==> SameDevice(s', t, n) && SameDevice(s', n, t))
  }

  lemma IssuedPairs(s: Store, user: Id, parent: Option<Id>, expiresAt: int, ids: Ids)
    requires MayIssue(s, user, parent, ids)
    ensures IssuedRelations(s, Child(s, user, parent, expiresAt, ids), parent, ids.refresh)
  {
    IssuedOldPairs(s, user, parent, expiresAt, ids);
    hide AtMostOneOpen, DevicelessTogether, FamiliesMatchDevices, DevicesOwned, Rooted, SameFamily, SameDevice, Child;
    var s', n := Child(s, user, parent, expiresAt, ids), ids.refresh;
    forall t | t != n
      ensures SameFamily(s', t, n) <==> parent.Some? && SameFamily(s, t, parent.value)
      ensures SameFamily(s', n, t) <==> parent.Some? && SameFamily(s, t, parent.value)
    {
      IssuedFamily(s, user, parent, expiresAt, ids, t);
    }
    forall t | t != n
      ensures SameDevice(s', t, n) <==> parent.Some? && SameDevice(s, t, parent.value)
      ensures SameDevice(s', n, t) <==> parent.Some? && SameDevice(s, t, parent.value)
      ensures parent.Some? && SameDevice(s, t, parent.value) ==> SameFamily(s, t, parent.value)
    {
      IssuedDevice(s, user, parent, expiresAt, ids, t);
    }
  }

  lemma IssuedFamily(s: Store, user: Id, parent: Option<Id>, expiresAt: int, ids: Ids, t: Id)
    requires MayIssue(s, user, parent, ids) && t != ids.refresh
    ensures var s', n := Child(s, user, parent, expiresAt, ids), ids.refresh;
      && (SameFamily(s', t, n) <==> parent.Some? && SameFamily(s, t, parent.value))
      && (SameFamily(s', n, t) <==> parent.Some? && SameFamily(s, t, parent.value))
  {
    hide AtMostOneOpen, DevicelessTogether, FamiliesMatchDevices, DevicesOwned;
    if t in s.refresh {
      assert IsRoot(s, FamilyOf(t, s.refresh[t]), s.refresh[t].userId);
    }
  }

  lemma IssuedDevice(s: Store, user: Id, parent: Option<Id>, expiresAt: int, ids: Ids, t: Id)
    requires MayIssue(s, user, parent, ids) && t != ids.refresh
    ensures var s', n := Child(s, user, parent, expiresAt, ids), ids.refresh;
      && (SameDevice(s', t, n) <==> parent.Some? && SameDevice(s, t, parent.value))
      && (SameDevice(s', n, t) <==> parent.Some? && SameDevice(s, t, parent.value))
    ensures parent.Some? && SameDevice(s, t, parent.value) ==> SameFamily(s, t, parent.value)
  {
    hide AtMostOneOpen, DevicelessTogether, Rooted;
  }

  lemma IssuedOldPairs(s: Store, user: Id, parent: Option<Id>, expiresAt: int, ids: Ids)
    requires FreshIds(s, ids) && (parent.Some? ==> parent.value in s.refresh)
    ensures var s', n := Child(s, user, parent, expiresAt, ids), ids.refresh;
      && (forall t, u :: t != n && u != n ==> (SameFamily(s', t, u) <==> SameFamily(s, t, u)))
      && (forall t, u :: t != n && u != n ==> (SameDevice(s', t, u) <==> SameDevice(s, t, u)))
  {
  }

  lemma IssueKeepsUniqueness(s: Store, s': Store, parent: Option<Id>, n: Id)
    requires AtMostOneOpen(s) && DevicelessTogether(s) && IssuedRelations(s, s', parent, n)
    requires n in s'.refresh && s'.refresh[n].deviceId.Some?
    requires parent.Some? ==> parent.value in s.refresh && IsOpen(s.refresh[parent.value])
    requires forall t, u :: SameFamily(s', t, u) ==> t in s'.refresh && u in s'.refresh
    requires forall t :: t in s'.refresh && t != n && IsOpen(s'.refresh[t]) ==>
      parent != Some(t) && t in s.refresh && s'.refresh[t] == s.refresh[t]
    requires forall t :: t in s'.refresh && t != n ==> t in s.refresh && s'.refresh[t].deviceId == s.refresh[t].deviceId
    requires forall a, t :: InFamilyOf(s', a, t) ==> a in s'.access && t in s'.refresh
    requires forall a, t :: InFamilyOf(s', a, t) && t != n ==>
      SameFamily(s', t, n) || (a in s.access && s'.access[a] == s.access[a] && InFamilyOf(s, a, t))
    ensures AtMostOneOpen(s') && DevicelessTogether(s')
  {
    hide SameFamily, SameDevice, InFamilyOf;
    forall t | t in s'.refresh && t != n && IsOpen(s'.refresh[t])
      ensures !SameFamily(s', t, n) && !SameFamily(s', n, t)
    {
    }
    forall t, u | SameFamily(s', t, u) && IsOpen(s'.refresh[t]) && s'.refresh[t].deviceId.None?
      ensures s'.refresh[u].deviceId.None?
    {
      assert t != n && u != n && SameFamily(s, t, u);
    }
    forall a, t | InFamilyOf(s', a, t) && IsOpen(s'.refresh[t]) && s'.refresh[t].deviceId.None?
      ensures s'.access[a].deviceId.None?
    {
      assert t != n && InFamilyOf(s, a, t);
    }
  }

  lemma IssueKeepsPairing(s: Store, s': Store, parent: Option<Id>, n: Id)
    requires FamiliesMatchDevices(s) && DevicelessTogether(s) && IssuedRelations(s, s', parent, n)
    requires n in s'.refresh && SameFamily(s', n, n) && SameDevice(s', n, n)
    requires parent.Some? ==> parent.value in s.refresh && IsOpen(s.refresh[parent.value])
    requires forall t, u :: SameFamily(s', t, u) ==> t in s'.refresh && u in s'.refresh
    requires forall t, u :: SameFamily(s, t, u) ==> t in s.refresh && u in s.refresh && SameFamily(s, u, t)
    requires forall t :: t in s'.refresh && t != n ==> t in s.refresh && s'.refresh[t].deviceId == s.refresh[t].deviceId
    ensures FamiliesMatchDevices(s')
  {
    hide SameFamily, SameDevice;
    forall t, u | SameFamily(s', t, u) && s'.refresh[t].deviceId.Some? && s'.refresh[u].deviceId.Some?
      ensures SameDevice(s', t, u)
    {
      if (t == n) != (u == n) {
        var v := if t == n then u else t;
        assert SameFamily(s, v, parent.value) && SameFamily(s, parent.value, v);
      }
    }
  }

  predicate SameOwner(s: Store, s': Store, t: Id)
    requires t in s.refresh
  {
    && t in s'.refresh && FamilyOf(t, s'.refresh[t]) == FamilyOf(t, s.refresh[t])
    && s'.refresh[t].deviceId == s.refresh[t].deviceId && s'.refresh[t].userId == s.refresh[t].userId
  }

  /** The new access token stands beside the new refresh token in every way. */
  lemma IssuedAccess(s: Store, user: Id, parent: Option<Id>, expiresAt: int, ids: Ids)
    requires FreshIds(s, ids) && (parent.Some? ==> parent.value in s.refresh)
    ensures var s', n, x := Child(s, user, parent, expiresAt, ids), ids.refresh, ids.access;
      && s'.access == s.access[x := AccessToken(user, s'.refresh[n].deviceId, FamilyOf(n, s'.refresh[n]))]
      && x !in s.access && n in s'.refresh && s'.refresh[n].deviceId.Some? && s'.refresh[n].userId == user
      && (forall t :: t in s.refresh ==> SameOwner(s, s', t))
      && (forall t :: t in s'.refresh ==> t in s.refresh || t == n)
  {
  }

  /** An old access token is on the new device only as the parent's was, and
      in the new token's family only as it was in the parent's. */
  lemma OldAccessBesideNew(s: Store, user: Id, parent: Option<Id>, expiresAt: int, ids: Ids, a: Id)
    requires MayIssue(s, user, parent, ids) && a in s.access && s.access[a].deviceId.Some?
    ensures var n := Child(s, user, parent, expiresAt, ids).refresh[ids.refresh];
      s.access[a].deviceId == n.deviceId <==> s.access[a].family == FamilyOf(ids.refresh, n)
  {
    hide Rooted, FamiliesMatchDevices, AtMostOneOpen;
    assert IsRoot(s, s.access[a].family, s.access[a].userId);
    if parent.Some? {
      var t := parent.value;
      assert OnDeviceOf(s, a, t) <==> s.access[a].deviceId == s.refresh[t].deviceId;
      assert InFamilyOf(s, a, t) <==> s.access[a].family == FamilyOf(t, s.refresh[t]);
    }
  }

  /** An old refresh token, likewise. */
  lemma OldTokenBesideNew(s: Store, user: Id, parent: Option<Id>, expiresAt: int, ids: Ids, t: Id)
    requires MayIssue(s, user, parent, ids) && t in s.refresh && s.refresh[t].deviceId.Some?
    ensures var n := Child(s, user, parent, expiresAt, ids).refresh[ids.refresh];
      s.refresh[t].deviceId == n.deviceId <==> FamilyOf(t, s.refresh[t]) == FamilyOf(ids.refresh, n)
  {
    hide AtMostOneOpen, AccessPaired;
    assert IsRoot(s, FamilyOf(t, s.refresh[t]), s.refresh[t].userId);
    if parent.Some? {
      assert SameDevice(s, parent.value, t) <==> s.refresh[parent.value].deviceId == s.refresh[t].deviceId && s.refresh[parent.value].deviceId.Some?;
      assert SameFamily(s, parent.value, t) <==> FamilyOf(parent.value, s.refresh[parent.value]) == FamilyOf(t, s.refresh[t]);
    }
  }

  /** What an issue adds to the access tokens. */
  lemma IssuedNewPair(s: Store, user: Id, parent: Option<Id>, expiresAt: int, ids: Ids)
    requires MayIssue(s, user, parent, ids)
    ensures NewPair(s, Child(s, user, parent, expiresAt, ids), ids.refresh, ids.access)
  {
    IssuedAccess(s, user, parent, expiresAt, ids);
    var s', n := Child(s, user, parent, expiresAt, ids), ids.refresh;
    hide Child, StoreInv, FamilyOf;
    forall a | a in s.access && s.access[a].deviceId.Some?
      ensures s.access[a].deviceId == s'.refresh[n].deviceId <==> s.access[a].family == FamilyOf(n, s'.refresh[n])
    {
      OldAccessBesideNew(s, user, parent, expiresAt, ids, a);
    }
    forall t | t in s.refresh && s.refresh[t].deviceId.Some?
      ensures s.refresh[t].deviceId == s'.refresh[n].deviceId <==> FamilyOf(t, s.refresh[t]) == FamilyOf(n, s'.refresh[n])
    {
      OldTokenBesideNew(s, user, parent, expiresAt, ids, t);
    }
  }

  lemma IssueKeepsAccess(s: Store, user: Id, parent: Option<Id>, expiresAt: int, ids: Ids)
    requires MayIssue(s, user, parent, ids)
    ensures AccessPaired(Child(s, user, parent, expiresAt, ids))
    ensures var s', n := Child(s, user, parent, expiresAt, ids), ids.refresh;
      forall a, t :: InFamilyOf(s', a, t) ==> a in s'.access && t in s'.refresh
    ensures var s', n := Child(s, user, parent, expiresAt, ids), ids.refresh;
      forall a, t :: InFamilyOf(s', a, t) && t != n ==>
        SameFamily(s', t, n) || (a in s.access && s'.access[a] == s.access[a] && InFamilyOf(s, a, t))
  {
    IssueKeepsRoots(s, user, parent, expiresAt, ids);
    IssuedNewPair(s, user, parent, expiresAt, ids);
    hide Child, FamilyOf, SameOwner, AccessPaired, DevicesOwned, Rooted, FamiliesMatchDevices, AtMostOneOpen, DevicelessTogether;
    PairedWithNew(s, Child(s, user, parent, expiresAt, ids), ids.refresh, ids.access);
    FamilyOfNew(s, Child(s, user, parent, expiresAt, ids), ids.refresh, ids.access);
  }

  lemma RootsOfAccess(s: Store, s': Store, n: Id, x: Id)
    requires AccessPaired(s) && Rooted(s') && n in s'.refresh && x !in s.access
    requires s'.access == s.access[x := AccessToken(s'.refresh[n].userId, s'.refresh[n].deviceId, FamilyOf(n, s'.refresh[n]))]
    requires forall t :: t in s.refresh ==> SameOwner(s, s', t)
    ensures forall a :: a in s'.access ==> IsRoot(s', s'.access[a].family, s'.access[a].userId)
  {
    forall a | a in s'.access
      ensures IsRoot(s', s'.access[a].family, s'.access[a].userId)
    {
      if a != x {
        assert IsRoot(s, s.access[a].family, s.access[a].userId);
      }
    }
  }

  /** The new pair, one of its two rows at least being old. */
  ghost predicate NewPair(s: Store, s': Store, n: Id, x: Id) {
    && n in s'.refresh && s'.refresh[n].deviceId.Some? && x !in s.access
    && s'.access == s.access[x := AccessToken(s'.refresh[n].userId, s'.refresh[n].deviceId, FamilyOf(n, s'.refresh[n]))]
    && (forall t :: t in s.refresh ==> SameOwner(s, s', t))
    && (forall t :: t in s'.refresh ==> t in s.refresh || t == n)
    && (forall a :: a in s.access && s.access[a].deviceId.Some? ==>
          (s.access[a].deviceId == s'.refresh[n].deviceId <==> s.access[a].family == FamilyOf(n, s'.refresh[n])))
    && (forall t :: t in s.refresh && s.refresh[t].deviceId.Some? ==>
          (s.refresh[t].deviceId == s'.refresh[n].deviceId <==> FamilyOf(t, s.refresh[t]) == FamilyOf(n, s'.refresh[n])))
  }

  lemma TokenWithNew(s: Store, s': Store, n: Id, x: Id, a: Id, t: Id)
    requires AccessPaired(s) && NewPair(s, s', n, x)
    ensures OnDeviceOf(s', a, t) ==> InFamilyOf(s', a, t)
    ensures InFamilyOf(s', a, t) && s'.access[a].deviceId.Some? && s'.refresh[t].deviceId.Some? ==> OnDeviceOf(s', a, t)
  {
    assert a != x && t in s.refresh ==> (OnDeviceOf(s', a, t) <==> OnDeviceOf(s, a, t));
    assert a != x && t in s.refresh ==> (InFamilyOf(s', a, t) <==> InFamilyOf(s, a, t));
    hide FamilyOf, IsRoot;
  }

  lemma AccessWithNew(s: Store, s': Store, n: Id, x: Id, a: Id, b: Id)
    requires AccessPaired(s) && NewPair(s, s', n, x) && OnDevices(s', a, b)
    ensures s'.access[a].deviceId == s'.access[b].deviceId <==> s'.access[a].family == s'.access[b].family
  {
    hide FamilyOf, IsRoot, OnDeviceOf, InFamilyOf;
    assert a != x && b != x ==> OnDevices(s, a, b);
  }

  lemma PairedWithNew(s: Store, s': Store, n: Id, x: Id)
    requires AccessPaired(s) && Rooted(s') && NewPair(s, s', n, x)
    ensures AccessPaired(s')
  {
    RootsOfAccess(s, s', n, x);
    hide IsRoot, Rooted, NewPair, OnDeviceOf, InFamilyOf, OnDevices;
    forall a, t
      ensures OnDeviceOf(s', a, t) ==> InFamilyOf(s', a, t)
    {
      TokenWithNew(s, s', n, x, a, t);
    }
    forall a, t | InFamilyOf(s', a, t) && a in s'.access && t in s'.refresh && s'.access[a].deviceId.Some? && s'.refresh[t].deviceId.Some?
      ensures OnDeviceOf(s', a, t)
    {
      TokenWithNew(s, s', n, x, a, t);
    }
    forall a, b | OnDevices(s', a, b) && a in s'.access && b in s'.access
      ensures s'.access[a].deviceId == s'.access[b].deviceId <==> s'.access[a].family == s'.access[b].family
    {
      AccessWithNew(s, s', n, x, a, b);
    }
    hide AccessPaired;
    PairedFromParts(s');
  }

  lemma PairedFromParts(s: Store)
    requires forall a :: a in s.access ==> IsRoot(s, s.access[a].family, s.access[a].userId)
    requires forall a, t :: OnDeviceOf(s, a, t) ==> InFamilyOf(s, a, t)
    requires forall a, t :: InFamilyOf(s, a, t) && a in s.access && t in s.refresh && s.access[a].deviceId.Some? && s.refresh[t].deviceId.Some? ==>
      OnDeviceOf(s, a, t)
    requires forall a, b :: OnDevices(s, a, b) && a in s.access && b in s.access ==>
      (s.access[a].deviceId == s.access[b].deviceId <==> s.access[a].family == s.access[b].family)
    ensures AccessPaired(s)
  {
    hide IsRoot, FamilyOf;
  }

  lemma FamilyOfNew(s: Store, s': Store, n: Id, x: Id)
    requires n in s'.refresh
    requires s'.access == s.access[x := AccessToken(s'.refresh[n].userId, s'.refresh[n].deviceId, FamilyOf(n, s'.refresh[n]))]
    requires forall t :: t in s.refresh ==> SameOwner(s, s', t)
    requires forall t :: t in s'.refresh ==> t in s.refresh || t == n
    ensures forall a, t :: InFamilyOf(s', a, t) ==> a in s'.access && t in s'.refresh
    ensures forall a, t :: InFamilyOf(s', a, t) && t != n ==>
      SameFamily(s', t, n) || (a in s.access && s'.access[a] == s.access[a] && InFamilyOf(s, a, t))
  {
  }

  lemma IssueKeepsRoots(s: Store, user: Id, parent: Option<Id>, expiresAt: int, ids: Ids)
    requires MayIssue(s, user, parent, ids)
    ensures Rooted(Child(s, user, parent, expiresAt, ids))
  {
    hide FamiliesMatchDevices, AtMostOneOpen, DevicelessTogether, DevicesOwned;
    var s' := Child(s, user, parent, expiresAt, ids);
    forall t | t in s'.refresh
      ensures IsRoot(s', FamilyOf(t, s'.refresh[t]), s'.refresh[t].userId)
    {
      if t in s.refresh {
        assert IsRoot(s, FamilyOf(t, s.refresh[t]), s.refresh[t].userId);
      } else if parent.Some? {
        assert IsRoot(s, FamilyOf(parent.value, s.refresh[parent.value]), user);
      }
    }
  }

  lemma IssueKeepsDevices(s: Store, user: Id, parent: Option<Id>, expiresAt: int, ids: Ids)
    requires MayIssue(s, user, parent, ids)
    ensures DevicesOwned(Child(s, user, parent, expiresAt, ids))
  {
    hide FamiliesMatchDevices, AtMostOneOpen, DevicelessTogether, Rooted;
  }

  /** The store after an issue; with a parent, after its claim as well. */
  function Child(s: Store, user: Id, parent: Option<Id>, expiresAt: int, ids: Ids): Store
    requires parent.Some? ==> parent.value in s.refresh
  {
    if parent.None? then PairIssued(s, user, None, None, expiresAt, ids)
    else
      var p := s.refresh[parent.value];
      PairIssued(s.(refresh := s.refresh[parent.value := p.(rotated := true)]),
                 user, p.deviceId, Some(FamilyOf(parent.value, p)), expiresAt, ids)
  }

  // ---------- Every step keeps it ----------

  lemma DeviceDeletionKeepsInv(s: Store, device: Id)
    requires StoreInv(s)
    ensures StoreInv(DeviceDeleted(s, device))
  {
    DeviceDeletionKeepsTokens(s, device);
    DeviceDeletionKeepsAccess(s, device);
    DeviceDeletionKeepsDeviceless(s, device);
    hide DeviceDeleted, DevicesOwned, Rooted, FamiliesMatchDevices, AtMostOneOpen, DevicelessTogether, AccessPaired;
  }

  lemma DeviceDeletionKeepsDeviceless(s: Store, device: Id)
    requires FamiliesMatchDevices(s) && DevicelessTogether(s) && AccessPaired(s)
    ensures DevicelessTogether(DeviceDeleted(s, device))
  {
    var s' := DeviceDeleted(s, device);
    forall t, u | SameFamily(s', t, u) && IsOpen(s'.refresh[t]) && s'.refresh[t].deviceId.None?
      ensures s'.refresh[u].deviceId.None?
    {
      assert SameFamily(s, t, u);
      assert s.refresh[t].deviceId.Some? && s.refresh[u].deviceId.Some? ==> SameDevice(s, t, u);
    }
    forall a, t | InFamilyOf(s', a, t) && IsOpen(s'.refresh[t]) && s'.refresh[t].deviceId.None?
      ensures s'.access[a].deviceId.None?
    {
      assert InFamilyOf(s, a, t);
      assert s.refresh[t].deviceId.Some? && s.access[a].deviceId.Some? ==> OnDeviceOf(s, a, t);
    }
  }

  lemma DeviceDeletionKeepsTokens(s: Store, device: Id)
    requires StoreInv(s)
    ensures var s' := DeviceDeleted(s, device);
      DevicesOwned(s') && Rooted(s') && FamiliesMatchDevices(s') && AtMostOneOpen(s')
  {
    hide AccessPaired, DevicelessTogether, FamiliesMatchDevices, AtMostOneOpen;
    var s' := DeviceDeleted(s, device);
    forall t | t in s'.refresh
      ensures IsRoot(s', FamilyOf(t, s'.refresh[t]), s'.refresh[t].userId)
    {
      assert IsRoot(s, FamilyOf(t, s.refresh[t]), s.refresh[t].userId);
    }
    hide Rooted, DevicesOwned;
    DeviceDeletionKeepsPairs(s, device);
  }

  lemma DeviceDeletionKeepsPairs(s: Store, device: Id)
    requires FamiliesMatchDevices(s) && AtMostOneOpen(s)
    ensures FamiliesMatchDevices(DeviceDeleted(s, device)) && AtMostOneOpen(DeviceDeleted(s, device))
  {
    var s' := DeviceDeleted(s, device);
    forall t, u
      ensures SameFamily(s', t, u) <==> SameFamily(s, t, u)
      ensures SameDevice(s', t, u) <==> SameDevice(s, t, u) && s.refresh[t].deviceId != Some(device)
    {
    }
  }

  lemma DeviceDeletionKeepsAccess(s: Store, device: Id)
    requires AccessPaired(s)
    ensures AccessPaired(DeviceDeleted(s, device))
  {
    var s' := DeviceDeleted(s, device);
    forall a | a in s'.access
      ensures IsRoot(s', s'.access[a].family, s'.access[a].userId)
    {
      assert IsRoot(s, s.access[a].family, s.access[a].userId);
    }
    forall a, t
      ensures InFamilyOf(s', a, t) <==> a in s'.access && InFamilyOf(s, a, t)
      ensures OnDeviceOf(s', a, t) <==> a in s'.access && OnDeviceOf(s, a, t)
    {
    }
    assert forall a, b :: OnDevices(s', a, b) ==> OnDevices(s, a, b);
  }

  predicate Claims(s: System, a: Action)
    requires a.Finish? && a.request in s.inFlight
  {
    var r := s.inFlight[a.request];
    && r.id in s.store.refresh && IsOpen(s.store.refresh[r.id])
    && Usable(r.row, a.now) && MayRefresh(s.store, r.row.userId) && !a.throttled
  }

  /** A claim issues the child of the row as it is now: a device that was
      deleted since the row was read is treated as none. */
  lemma ClaimIssuesChild(s: System, a: Action)
    requires Inv(s) && a.Finish? && Enabled(s, a) && Claims(s, a)
    ensures var r := s.inFlight[a.request];
      && MayIssue(s.store, r.row.userId, Some(r.id), a.ids)
      && Next(s, a).store == Child(s.store, r.row.userId, Some(r.id), a.expiresAt, a.ids)
  {
    hide StoreInv;
    assert ReadHolds(s.store, s.inFlight[a.request]);
  }

  lemma StepKeepsStore(s: System, a: Action)
    requires Inv(s) && Enabled(s, a)
    ensures StoreInv(Next(s, a).store)
  {
    hide StoreInv;
    match a
    case SignIn(user, expiresAt, ids) =>
      IssueKeepsInv(s.store, user, None, expiresAt, ids);
    case ReadRow(n, id) =>
    case Finish(n, now, throttled, expiresAt, ids) =>
      var r := s.inFlight[n];
      if Claims(s, a) {
        ClaimIssuesChild(s, a);
        IssueKeepsInv(s.store, r.row.userId, Some(r.id), expiresAt, ids);
      } else {
        UnissuedOnlyMarks(s.store, r.id, r.row, now, throttled, expiresAt, ids);
        MarksKeepInv(s.store, Next(s, a).store);
      }
    case Sweep(revoked, deleted) =>
      MarksKeepInv(s.store, Next(s, a).store);
    case SetAccount(user, account) =>
      MarksKeepInv(s.store, Next(s, a).store);
    case DeleteDevice(device) =>
      DeviceDeletionKeepsInv(s.store, device);
  }

  /** Every row stays, with more marks or without its device at most. */
  ghost predicate RowsFollow(s: Store, s': Store, added: set<Id>) {
    && s'.devices.Keys <= s.devices.Keys + added
    && (forall t :: t in s.refresh ==> t in s'.refresh && RowFollows(s, s', t))
  }

  predicate RowFollows(s: Store, s': Store, t: Id)
    requires t in s.refresh && t in s'.refresh
  {
    && Marked(s.refresh[t].(deviceId := s'.refresh[t].deviceId), s'.refresh[t])
    && (s'.refresh[t].deviceId == s.refresh[t].deviceId || (s'.refresh[t].deviceId.None? && s.refresh[t].deviceId.value !in s'.devices))
  }

  lemma StepFollows(s: System, a: Action, added: set<Id>)
    requires Inv(s) && Enabled(s, a)
    requires added == if a.SignIn? || a.Finish? then {a.ids.device} else {}
    ensures RowsFollow(s.store, Next(s, a).store, added)
  {
    hide StoreInv;
    if a.Finish? {
      var r := s.inFlight[a.request];
      if Claims(s, a) {
        ClaimIssuesChild(s, a);
      } else {
        UnissuedOnlyMarks(s.store, r.id, r.row, a.now, a.throttled, a.expiresAt, a.ids);
        MarksFollow(s.store, Next(s, a).store, added);
      }
    } else if a.Sweep? || a.SetAccount? {
      MarksFollow(s.store, Next(s, a).store, added);
    }
  }

  lemma MarksFollow(s: Store, s': Store, added: set<Id>)
    requires OnlyMarks(s, s')
    ensures RowsFollow(s, s', added)
  {
  }

  lemma FollowedReadHolds(s: Store, s': Store, r: Read, added: set<Id>)
    requires ReadHolds(s, r) && RowsFollow(s, s', added)
    requires r.row.deviceId.Some? ==> r.row.deviceId.value !in added
    ensures ReadHolds(s', r)
  {
    assert RowFollows(s, s', r.id);
  }

  lemma FreshReadHolds(s: Store, r: Read)
    requires r.id in s.refresh && r.row == s.refresh[r.id]
    ensures ReadHolds(s, r)
  {
  }

  lemma StepKeepsDeviceIds(s: System, a: Action)
    requires Inv(s) && Enabled(s, a)
    ensures var s' := Next(s, a);
      && s'.store.devices.Keys <= s'.deviceIds
      && (forall n :: n in s'.inFlight && s'.inFlight[n].row.deviceId.Some? ==> s'.inFlight[n].row.deviceId.value in s'.deviceIds)
  {
    hide Rooted, FamiliesMatchDevices, AtMostOneOpen, DevicelessTogether, AccessPaired;
  }

  lemma StepKeepsReads(s: System, a: Action)
    requires Inv(s) && Enabled(s, a)
    ensures forall n :: n in Next(s, a).inFlight ==> ReadHolds(Next(s, a).store, Next(s, a).inFlight[n])
  {
    hide StoreInv;
    var s' := Next(s, a);
    var added: set<Id> := if a.SignIn? || a.Finish? then {a.ids.device} else {};
    StepFollows(s, a, added);
    hide RowsFollow, ReadHolds, RefreshFinished, PairIssued, Swept, DeviceDeleted, FreshIds;
    forall n | n in s'.inFlight
      ensures ReadHolds(s'.store, s'.inFlight[n])
    {
      if n in s.inFlight && s'.inFlight[n] == s.inFlight[n] {
        FollowedReadHolds(s.store, s'.store, s.inFlight[n], added);
      } else {
        FreshReadHolds(s'.store, s'.inFlight[n]);
      }
    }
  }

  /** Every step of interleaved requests keeps the store in order, and what
      each request in flight has read. */
  lemma StepKeepsInv(s: System, a: Action)
    requires Inv(s) && Enabled(s, a)
    ensures Inv(Next(s, a))
  {
    StepKeepsStore(s, a);
    StepKeepsDeviceIds(s, a);
    StepKeepsReads(s, a);
    hide StoreInv, ReadHolds, Next, Enabled;
  }
}
