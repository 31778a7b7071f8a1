/** Devices writing to a vault while its key is being rotated.

    A client holds the vault key of the epoch it learnt when it signed in or
    when it rotated the key itself. A write is begun, which fixes the texts it
    will store, and commits later under the user lock if its access token is
    still there. Every other request is one atomic step. */
module VaultProtocol {
  import opened Wrappers
  import opened VaultRotation

  datatype Session = Session(userId: Id, epoch: nat)

  /** `put` sets columns, of whatever type, and `cleared` sets columns to NULL. */
  datatype Write = Write(access: Id, userId: Id, key: Key, creates: bool, put: map<string, Value>, cleared: set<string>)

  datatype System = System(db: Db, sessions: map<Id, Session>, pending: map<nat, Write>)

  datatype Action =
    | Register(userId: Id, user: User)
    | SignIn(userId: Id, session: Id, access: Id, hash: string, expiresAt: int)
    | Refresh(presented: string, access: Id, hash: string, now: int, expiresAt: int)
    | Revoke(hashes: set<string>, accesses: set<Id>)
    | Begin(request: nat, write: Write)
    | Commit(request: nat, stamp: string)
    | Abandon(request: nat)
    | Trash(key: Key, stamp: string)
    | Rotate(userId: Id, session: Id, current: Option<Id>, payload: Payload, now: int, stamp: string)
    | Rebind(userId: Id, version: nat, privateKey: Value, nonce: string)

  /** The key epoch of a user is the one their stored private key is under. */
  function KeyEpoch(db: Db, user: Id): nat
    requires user in db.users && db.users[user].privateKey.Text?
  {
    db.users[user].privateKey.epoch
  }

  // ---------- Steps ----------

  /** A write creates a new row, or lands on its owner's own, live and not a
      team's. */
  predicate MayWrite(db: Db, w: Write) {
    if w.creates then w.key !in db.records
    else
      && w.key in db.records
      && db.records[w.key].userId == w.userId
      && !db.records[w.key].trashed
      && db.records[w.key].teamId.None?
  }

  /** The row with the columns written over it; it is touched if any changed. */
  function Edited(record: Record, w: Write, stamp: string): Record {
    var columns := record.columns - w.cleared + w.put;
    if columns == record.columns then record else record.(columns := columns, updatedAt := Some(stamp))
  }

  function Written(db: Db, w: Write, stamp: string): Db {
    if !MayWrite(db, w) then db
    else if w.creates then db.(records := db.records[w.key := Record(w.userId, None, false, Some(stamp), w.put)])
    else db.(records := db.records[w.key := Edited(db.records[w.key], w, stamp)])
  }

  /** A ciphertext column that is given content. Other columns hold ids, flags,
      numbers and nonces, which are under no key. */
  predicate HoldsCiphertext(put: map<string, Value>, c: string) {
    c in put && BaseOf(c).Some? && !(put[c].Text? && put[c].text == "")
  }

  ghost predicate AllUnder(put: map<string, Value>, epoch: nat) {
    forall c :: HoldsCiphertext(put, c) ==> put[c].Text? && put[c].epoch == epoch
  }

  ghost predicate NoCiphertext(put: map<string, Value>) {
    forall c :: c in put ==> !HoldsCiphertext(put, c)
  }

  /** Every ciphertext of the submission, the new private key included, is under
      `epoch`. */
  ghost predicate MadeWith(p: Payload, epoch: nat) {
    && p.privateKey.Text? && p.privateKey.epoch == epoch
    && forall i :: 0 <= i < |p.items| ==> AllUnder(p.items[i].fields, epoch)
  }

  /** A new key: one no session holds and no user is on. */
  ghost predicate IsNewEpoch(s: System, epoch: nat) {
    && (forall n :: n in s.sessions ==> s.sessions[n].epoch != epoch)
    && (forall u :: u in s.db.users && s.db.users[u].privateKey.Text? ==> s.db.users[u].privateKey.epoch != epoch)
  }

  /** Token ids are never issued twice, so an in-flight write of a deleted
      token cannot find its id in use again. */
  ghost predicate IsFreshAccess(s: System, access: Id) {
    access !in s.db.accessTokens && forall n :: n in s.pending ==> s.pending[n].access != access
  }

  ghost predicate Enabled(s: System, a: Action) {
    match a
    case Register(u, user) => u !in s.db.users && user.privateKey.Text?
    case SignIn(u, session, access, hash, _) =>
      u in s.db.users && s.db.users[u].privateKey.Text?
      && session !in s.sessions && IsFreshAccess(s, access) && hash !in s.db.refreshTokens
    case Refresh(presented, access, hash, now, _) =>
      presented in s.db.refreshTokens && Usable(s.db.refreshTokens[presented], now)
      && IsFreshAccess(s, access) && hash !in s.db.refreshTokens
    case Revoke(_, _) => true
    case Begin(n, w) =>
      n !in s.pending
      && w.access in s.db.accessTokens
      && s.db.accessTokens[w.access].userId == w.userId
      && s.db.accessTokens[w.access].session in s.sessions
      && AllUnder(w.put, s.sessions[s.db.accessTokens[w.access].session].epoch)
    case Commit(n, _) => n in s.pending
    case Abandon(n) => n in s.pending
    case Trash(k, _) => k in s.db.records && !s.db.records[k].trashed
    case Rotate(u, session, access, p, _, _) =>
      session in s.sessions && s.sessions[session].userId == u
      && (access.Some? ==> access.value in s.db.accessTokens && s.db.accessTokens[access.value] == AccessToken(u, session))
      && p.privateKey.Text? && MadeWith(p, p.privateKey.epoch) && IsNewEpoch(s, p.privateKey.epoch)
    case Rebind(u, _, privateKey, _) =>
      u in s.db.users && s.db.users[u].privateKey.Text?
      && privateKey.Text? && privateKey.epoch == s.db.users[u].privateKey.epoch
  }

  ghost function Next(registry: seq<Resource>, s: System, a: Action): System
    requires Enabled(s, a)
  {
    var db := s.db;
    match a
    case Register(u, user) => s.(db := db.(users := db.users[u := user]))
    case SignIn(u, session, access, hash, expiresAt) =>
      s.(db := db.(accessTokens := db.accessTokens[access := AccessToken(u, session)],
                   refreshTokens := db.refreshTokens[hash := RefreshToken(u, session, Some(expiresAt), false, false)]),
         sessions := s.sessions[session := Session(u, KeyEpoch(db, u))])
    case Refresh(presented, access, hash, _, expiresAt) =>
      var t := db.refreshTokens[presented];
      s.(db := db.(accessTokens := db.accessTokens[access := AccessToken(t.userId, t.session)],
                   refreshTokens := db.refreshTokens[presented := t.(rotated := true)]
                                                    [hash := RefreshToken(t.userId, t.session, Some(expiresAt), false, false)]))
    case Revoke(hashes, accesses) =>
      s.(db := db.(accessTokens := db.accessTokens - accesses,
                   refreshTokens := map h | h in db.refreshTokens ::
                     if h in hashes then db.refreshTokens[h].(revoked := true) else db.refreshTokens[h]))
    case Begin(n, w) => s.(pending := s.pending[n := w])
    case Commit(n, stamp) =>
      var w := s.pending[n];
      System(if w.access in db.accessTokens then Written(db, w, stamp) else db, s.sessions, s.pending - {n})
    case Abandon(n) => s.(pending := s.pending - {n})
    case Trash(k, stamp) => s.(db := db.(records := db.records[k := db.records[k].(trashed := true, updatedAt := Some(stamp))]))
    case Rotate(u, session, access, p, now, stamp) =>
      if RotationAccepted(registry, db, u, p, now)
      then System(Rotated(registry, db, u, access, p, stamp),
                  s.sessions[session := Session(u, p.privateKey.epoch)],
                  s.pending)
      else s
    case Rebind(u, version, privateKey, nonce) =>
      if RebindAccepted(db, u, version) then s.(db := Rebound(db, u, privateKey, nonce)) else s
  }

  // ---------- The invariant ----------

  ghost predicate UsersHaveKeys(db: Db) {
    forall u :: u in db.users ==> db.users[u].privateKey.Text?
  }

  /** The populated ciphertexts of a personal record are under its owner's key. */
  ghost predicate UnderOwnersKey(db: Db, record: Record, resource: Resource) {
    && record.userId in db.users && db.users[record.userId].privateKey.Text?
    && forall base :: IsCipherBase(resource.fields, base) && Populated(record, CiphertextColumn(base)) ==>
         && record.columns[CiphertextColumn(base)].Text?
         && record.columns[CiphertextColumn(base)].epoch == KeyEpoch(db, record.userId)
  }

  ghost predicate RecordsUnderKey(registry: seq<Resource>, db: Db) {
    forall r, k :: r in registry && k in db.records && k.kind == r.kind && IsPersonal(db.records[k], r, db.records[k].userId) ==>
      UnderOwnersKey(db, db.records[k], r)
  }

  predicate Current(s: System, user: Id, session: Id) {
    && user in s.db.users && s.db.users[user].privateKey.Text?
    && session in s.sessions
    && s.sessions[session] == Session(user, s.db.users[user].privateKey.epoch)
  }

  /** Whoever holds a token also holds the current key. */
  ghost predicate TokensCurrent(s: System) {
    && (forall a :: a in s.db.accessTokens ==> Current(s, s.db.accessTokens[a].userId, s.db.accessTokens[a].session))
    && (forall h :: h in s.db.refreshTokens && !s.db.refreshTokens[h].revoked ==>
          Current(s, s.db.refreshTokens[h].userId, s.db.refreshTokens[h].session))
  }

  ghost predicate WriteCurrent(s: System, w: Write)
  {
    w.access in s.db.accessTokens ==>
      && s.db.accessTokens[w.access].userId == w.userId
      && w.userId in s.db.users && s.db.users[w.userId].privateKey.Text?
      && AllUnder(w.put, s.db.users[w.userId].privateKey.epoch)
  }

  ghost predicate WritesCurrent(s: System) {
    forall n :: n in s.pending ==> WriteCurrent(s, s.pending[n])
  }

  ghost predicate Inv(registry: seq<Resource>, s: System) {
    && UsersHaveKeys(s.db)
    && RecordsUnderKey(registry, s.db)
    && TokensCurrent(s)
    && WritesCurrent(s)
  }

  /** The rotating client presents its own session's refresh token and has no
      write with a ciphertext in flight on the access token that survives. */
  ghost predicate RotatesAlone(s: System, session: Id, access: Option<Id>, p: Payload) {
    && p.refreshTokenHash in s.db.refreshTokens
    && s.db.refreshTokens[p.refreshTokenHash].session == session
    && forall n :: n in s.pending && access == Some(s.pending[n].access) ==> NoCiphertext(s.pending[n].put)
  }

  // ---------- Rotation ----------

  lemma RotationMovesEveryRecord(
    registry: seq<Resource>, db: Db, user: Id, access: Option<Id>, p: Payload, now: int, stamp: string)
    requires DistinctKinds(registry) && UsersHaveKeys(db) && RecordsUnderKey(registry, db)
    requires RotationAccepted(registry, db, user, p, now)
    requires p.privateKey.Text? && MadeWith(p, p.privateKey.epoch)
    ensures UsersHaveKeys(Rotated(registry, db, user, access, p, stamp))
    ensures RecordsUnderKey(registry, Rotated(registry, db, user, access, p, stamp))
  {
    hide CiphertextColumn, NonceColumn;
    var after := Rotated(registry, db, user, access, p, stamp);
    forall r, k | r in registry && k in after.records && k.kind == r.kind && IsPersonal(after.records[k], r, after.records[k].userId)
      ensures UnderOwnersKey(after, after.records[k], r)
    {
      assert UnderOwnersKey(db, db.records[k], r);
      if db.records[k].userId == user {
        RotationMovesOneRecord(registry, db, user, access, p, stamp, r, k);
      } else {
        OtherRecordsStay(registry, db, user, p, stamp, r, k);
      }
    }
  }

  lemma RotationMovesOneRecord(
    registry: seq<Resource>, db: Db, user: Id, access: Option<Id>, p: Payload, stamp: string, r: Resource, k: Key)
    requires user in db.users && ItemsFit(registry, db.records, p.items, user)
    requires r in registry && k in PersonalKeys(db.records, r, user)
    requires p.privateKey.Text? && MadeWith(p, p.privateKey.epoch)
    ensures UnderOwnersKey(Rotated(registry, db, user, access, p, stamp), ReplacedRecords(registry, db.records, p.items, stamp)[k], r)
  {
    hide CiphertextColumn, NonceColumn;
    SubmittedHoldsTheItems(p.items);
    assert TypeFits(db.records, p.items, r, user);
    assert k in Submitted(p.items);
    var i :| 0 <= i < |p.items| && p.items[i] == Submitted(p.items)[k];
    assert ItemFits(db.records, p.items[i], r, user);
    var record, fields := db.records[k], p.items[i].fields;
    assert ReplacedRecords(registry, db.records, p.items, stamp)[k] == Saved(record, fields, stamp);
    forall base | IsCipherBase(r.fields, base) && Populated(Saved(record, fields, stamp), CiphertextColumn(base))
      ensures var v := Saved(record, fields, stamp).columns[CiphertextColumn(base)]; v.Text? && v.epoch == p.privateKey.epoch
    {
      assert PairFits(record, fields, base);
    }
  }

  lemma OtherRecordsStay(registry: seq<Resource>, db: Db, user: Id, p: Payload, stamp: string, r: Resource, k: Key)
    requires ItemsFit(registry, db.records, p.items, user)
    requires r in registry && k in db.records && k.kind == r.kind && db.records[k].userId != user
    ensures ReplacedRecords(registry, db.records, p.items, stamp)[k] == db.records[k]
  {
    hide CiphertextColumn, NonceColumn, CompleteReplacement;
    RecordsAfterRotation(registry, db.records, p.items, user, stamp);
  }

  /** After an accepted rotation to a new key, everything is under the current
      key and only sessions holding it survive exactly when the client rotated
      alone. */
  lemma RotationKeepsInvIff(registry: seq<Resource>, s: System, a: Action)
    requires DistinctKinds(registry) && Inv(registry, s) && a.Rotate? && Enabled(s, a)
    requires RotationAccepted(registry, s.db, a.userId, a.payload, a.now)
    ensures Inv(registry, Next(registry, s, a)) <==> RotatesAlone(s, a.session, a.current, a.payload)
  {
    hide CompleteReplacement, TypesFit, IsCipherBase;
    var s' := Next(registry, s, a);
    var u, p := a.userId, a.payload;
    RotationMovesEveryRecord(registry, s.db, u, a.current, p, a.now, a.stamp);
    var t := s.db.refreshTokens[p.refreshTokenHash];
    assert s'.db.refreshTokens[p.refreshTokenHash] == t && !t.revoked && t.userId == u;
    assert s'.db.users[u].privateKey.epoch == p.privateKey.epoch;
    SurvivingTokens(registry, s, a);
    SurvivingWrites(registry, s, a);
  }

  lemma SurvivingTokens(registry: seq<Resource>, s: System, a: Action)
    requires Inv(registry, s) && a.Rotate? && Enabled(s, a)
    requires RotationAccepted(registry, s.db, a.userId, a.payload, a.now)
    ensures TokensCurrent(Next(registry, s, a)) <==> s.db.refreshTokens[a.payload.refreshTokenHash].session == a.session
  {
    hide CompleteReplacement, TypesFit, IsCipherBase;
    var s' := Next(registry, s, a);
    var u, p := a.userId, a.payload;
    var t := s.db.refreshTokens[p.refreshTokenHash];
    assert s'.db.refreshTokens[p.refreshTokenHash] == t;
    if t.session == a.session {
      forall h | h in s'.db.refreshTokens && !s'.db.refreshTokens[h].revoked
        ensures Current(s', s'.db.refreshTokens[h].userId, s'.db.refreshTokens[h].session)
      {
        if h != p.refreshTokenHash {
          assert Current(s, s.db.refreshTokens[h].userId, s.db.refreshTokens[h].session);
        }
      }
      forall x | x in s'.db.accessTokens
        ensures Current(s', s'.db.accessTokens[x].userId, s'.db.accessTokens[x].session)
      {
        assert Current(s, s.db.accessTokens[x].userId, s.db.accessTokens[x].session);
      }
    } else {
      assert t.session in s.sessions && s'.sessions[t.session] == s.sessions[t.session];
      assert !Current(s', u, t.session);
    }
  }

  lemma SurvivingWrites(registry: seq<Resource>, s: System, a: Action)
    requires Inv(registry, s) && a.Rotate? && Enabled(s, a)
    requires RotationAccepted(registry, s.db, a.userId, a.payload, a.now)
    ensures WritesCurrent(Next(registry, s, a)) <==>
      forall n :: n in s.pending && a.current == Some(s.pending[n].access) ==> NoCiphertext(s.pending[n].put)
  {
    hide CompleteReplacement, TypesFit, IsCipherBase;
    var s' := Next(registry, s, a);
    forall n | n in s.pending
      ensures WriteCurrent(s', s.pending[n]) <==> (a.current == Some(s.pending[n].access) ==> NoCiphertext(s.pending[n].put))
    {
      var w := s.pending[n];
      assert WriteCurrent(s, w);
      if a.current == Some(w.access) && !NoCiphertext(w.put) {
        var c :| c in w.put && HoldsCiphertext(w.put, c);
        assert w.put[c].epoch == s.db.users[a.userId].privateKey.epoch;
      }
    }
  }

  // ---------- The other steps ----------

  lemma CommitKeepsRecords(registry: seq<Resource>, s: System, n: nat, stamp: string)
    requires Inv(registry, s) && n in s.pending && s.pending[n].access in s.db.accessTokens
    ensures RecordsUnderKey(registry, Written(s.db, s.pending[n], stamp))
  {
    hide CiphertextColumn, NonceColumn;
    var w := s.pending[n];
    assert WriteCurrent(s, w);
    var after := Written(s.db, w, stamp);
    forall r, k | r in registry && k in after.records && k.kind == r.kind && IsPersonal(after.records[k], r, after.records[k].userId)
      ensures UnderOwnersKey(after, after.records[k], r)
    {
      if k in s.db.records {
        assert IsPersonal(s.db.records[k], r, s.db.records[k].userId);
        assert UnderOwnersKey(s.db, s.db.records[k], r);
      }
    }
  }

  /** Records stay under their key while no user's key epoch changes and no
      record changes except by being trashed. */
  lemma RecordsKept(registry: seq<Resource>, db: Db, after: Db)
    requires RecordsUnderKey(registry, db)
    requires forall k :: k in after.records ==> k in db.records && (after.records[k] == db.records[k] || after.records[k].trashed)
    requires forall u :: u in db.users ==>
      u in after.users && (db.users[u].privateKey.Text? ==> after.users[u].privateKey.Text? && KeyEpoch(after, u) == KeyEpoch(db, u))
    ensures RecordsUnderKey(registry, after)
  {
    hide CiphertextColumn, NonceColumn;
    forall r, k | r in registry && k in after.records && k.kind == r.kind && IsPersonal(after.records[k], r, after.records[k].userId)
      ensures UnderOwnersKey(after, after.records[k], r)
    {
      assert UnderOwnersKey(db, db.records[k], r);
    }
  }

  lemma StepKeepsTokens(registry: seq<Resource>, s: System, a: Action)
    requires Inv(registry, s) && Enabled(s, a) && !a.Rotate?
    ensures TokensCurrent(Next(registry, s, a))
  {
    hide RecordsUnderKey, WritesCurrent, Written, MayWrite;
    if a.Commit? && s.pending[a.request].access in s.db.accessTokens {
      CommitKeepsTables(s.db, s.pending[a.request], a.stamp);
    }
  }

  lemma CommitKeepsTables(db: Db, w: Write, stamp: string)
    ensures Written(db, w, stamp) == db.(records := Written(db, w, stamp).records)
  {
  }

  lemma StepKeepsWrites(registry: seq<Resource>, s: System, a: Action)
    requires Inv(registry, s) && Enabled(s, a) && !a.Rotate?
    ensures WritesCurrent(Next(registry, s, a))
  {
    hide RecordsUnderKey, Written, MayWrite;
    if a.Commit? && s.pending[a.request].access in s.db.accessTokens {
      CommitKeepsTables(s.db, s.pending[a.request], a.stamp);
    }
    var s' := Next(registry, s, a);
    forall n | n in s'.pending
      ensures WriteCurrent(s', s'.pending[n])
    {
      if n in s.pending {
        assert WriteCurrent(s, s.pending[n]);
      }
    }
  }

  /** Every step keeps the invariant, a rotation only if its client rotates
      alone. */
  lemma StepKeepsInv(registry: seq<Resource>, s: System, a: Action)
    requires DistinctKinds(registry) && Inv(registry, s) && Enabled(s, a)
    requires a.Rotate? && RotationAccepted(registry, s.db, a.userId, a.payload, a.now) ==>
               RotatesAlone(s, a.session, a.current, a.payload)
    ensures Inv(registry, Next(registry, s, a))
  {
    hide RotatesAlone, RotationAccepted, TokensCurrent, WritesCurrent, UnderOwnersKey, IsPersonal;
    if a.Rotate? {
      if RotationAccepted(registry, s.db, a.userId, a.payload, a.now) {
        RotationKeepsInvIff(registry, s, a);
      }
    } else {
      StepKeepsTokens(registry, s, a);
      StepKeepsWrites(registry, s, a);
      if a.Commit? && s.pending[a.request].access in s.db.accessTokens {
        CommitKeepsRecords(registry, s, a.request, a.stamp);
        CommitKeepsTables(s.db, s.pending[a.request], a.stamp);
      } else {
        RecordsKept(registry, s.db, Next(registry, s, a).db);
      }
    }
  }

  // ---------- Runs ----------

  /** Any run, whether or not clients rotate alone. */
  ghost predicate IsHistory(registry: seq<Resource>, states: seq<System>, actions: seq<Action>) {
    && |states| == |actions| + 1
    && forall i :: 0 <= i < |actions| ==> Enabled(states[i], actions[i]) && states[i + 1] == Next(registry, states[i], actions[i])
  }

  /** A run from any state to which every step was enabled and in which every
      client that rotated its key did so alone. */
  ghost predicate IsRun(registry: seq<Resource>, states: seq<System>, actions: seq<Action>) {
    && |states| == |actions| + 1
    && forall i :: 0 <= i < |actions| ==> IsStep(registry, states[i], actions[i], states[i + 1])
  }

  ghost predicate IsStep(registry: seq<Resource>, s: System, a: Action, s': System) {
    && Enabled(s, a)
    && s' == Next(registry, s, a)
    && (a.Rotate? && RotationAccepted(registry, s.db, a.userId, a.payload, a.now) ==>
          RotatesAlone(s, a.session, a.current, a.payload))
  }

  lemma {:induction false} InvAlwaysHolds(registry: seq<Resource>, states: seq<System>, actions: seq<Action>, i: nat)
    requires DistinctKinds(registry) && IsRun(registry, states, actions) && i < |states|
    requires Inv(registry, states[0])
    ensures Inv(registry, states[i])
  {
    if i > 0 {
      InvAlwaysHolds(registry, states, actions, i - 1);
      assert IsStep(registry, states[i - 1], actions[i - 1], states[i]);
      StepKeepsInv(registry, states[i - 1], actions[i - 1]);
    }
  }

  /** At every moment of every run from an empty server, a personal record's
      ciphertexts are under its owner's current key, and every session with a
      working token holds that key. */
  lemma RecordsAreAlwaysUnderTheCurrentKey(registry: seq<Resource>, states: seq<System>, actions: seq<Action>, i: nat)
    requires DistinctKinds(registry) && IsRun(registry, states, actions) && i < |states|
    requires states[0] == System(Db(map[], map[], map[], map[]), map[], map[])
    ensures RecordsUnderKey(registry, states[i].db) && TokensCurrent(states[i])
  {
    InvAlwaysHolds(registry, states, actions, i);
  }

  predicate UsesOwnToken(s: System, w: Write) {
    w.access in s.db.accessTokens ==> s.db.accessTokens[w.access].userId == w.userId
  }

  /** A write in flight on another token when the key is rotated never lands. */
  lemma {:induction false} StaleWriteNeverLands(
    registry: seq<Resource>, states: seq<System>, actions: seq<Action>, i: nat, j: nat, n: nat, stamp: string)
    requires IsHistory(registry, states, actions) && i < j < |states|
    requires actions[i].Rotate? && RotationAccepted(registry, states[i].db, actions[i].userId, actions[i].payload, actions[i].now)
    requires n in states[i].pending && UsesOwnToken(states[i], states[i].pending[n])
    requires states[i].pending[n].userId == actions[i].userId && actions[i].current != Some(states[i].pending[n].access)
    requires forall k :: i < k <= j ==> n in states[k].pending
    ensures states[j].pending[n] == states[i].pending[n]
    ensures states[j].pending[n].access !in states[j].db.accessTokens
    ensures Next(registry, states[j], Commit(n, stamp)).db == states[j].db
    decreases j
  {
    hide RotationAccepted, MadeWith, IsNewEpoch, AllUnder, MayWrite, Enabled, Next;
    var m := j - 1;
    assert Enabled(states[m], actions[m]) && states[m + 1] == Next(registry, states[m], actions[m]);
    if m > i {
      StaleWriteNeverLands(registry, states, actions, i, m, n, stamp);
      TokenStaysGone(registry, states[m], actions[m], n);
    } else {
      RotationDropsToken(registry, states[i], actions[i], n);
    }
    DeadWriteDoesNothing(registry, states[j], n, stamp);
  }

  lemma RotationDropsToken(registry: seq<Resource>, s: System, a: Action, n: nat)
    requires Enabled(s, a) && a.Rotate? && RotationAccepted(registry, s.db, a.userId, a.payload, a.now)
    requires n in s.pending && UsesOwnToken(s, s.pending[n])
    requires s.pending[n].userId == a.userId && a.current != Some(s.pending[n].access)
    ensures var s' := Next(registry, s, a);
      n in s'.pending && s'.pending[n] == s.pending[n] && s.pending[n].access !in s'.db.accessTokens
  {
    hide RotationAccepted, MadeWith, IsNewEpoch, ReplacedRecords;
  }

  lemma TokenStaysGone(registry: seq<Resource>, s: System, a: Action, n: nat)
    requires Enabled(s, a) && n in s.pending && s.pending[n].access !in s.db.accessTokens
    requires n in Next(registry, s, a).pending
    ensures Next(registry, s, a).pending[n] == s.pending[n]
    ensures s.pending[n].access !in Next(registry, s, a).db.accessTokens
  {
    hide RotationAccepted, MadeWith, IsNewEpoch, AllUnder, MayWrite;
  }

  lemma DeadWriteDoesNothing(registry: seq<Resource>, s: System, n: nat, stamp: string)
    requires n in s.pending && s.pending[n].access !in s.db.accessTokens
    ensures Next(registry, s, Commit(n, stamp)).db == s.db
  {
  }

  // ---------- The middleware around a vault write ----------

  /** What the controller does inside the transaction. A status of 400 or more
      reports a failure, after which the rows may already be changed. */
  method PerformWrite(db: Database, w: Write, stamp: string, failsLate: bool) returns (status: nat)
    modifies db
    ensures status < 400 <==> MayWrite(old(db.State()), w) && !failsLate
    ensures status < 400 ==> db.State() == Written(old(db.State()), w, stamp)
  {
    if w.creates {
      if w.key in db.records {
        return 500;
      }
      db.records := db.records[w.key := Record(w.userId, None, false, Some(stamp), w.put)];
    } else {
      if !MayWrite(db.State(), w) {
        return 404;
      }
      db.records := db.records[w.key := Edited(db.records[w.key], w, stamp)];
    }
    return if failsLate then 500 else 200;
  }

  /** One vault write, from the opening of its transaction. `access` is the
      personal access token the request came with, if it came with one. */
  method HandleWrite(db: Database, access: Option<Id>, w: Write, stamp: string, failsLate: bool) returns (status: nat)
    modifies db
    ensures access.Some? && access.value !in old(db.accessTokens) ==> status == 401
    ensures status < 400 <==>
      (access.Some? ==> access.value in old(db.accessTokens)) && MayWrite(old(db.State()), w) && !failsLate
    ensures db.State() == if status < 400 then Written(old(db.State()), w, stamp) else old(db.State())
  {
    var saved := db.State();
    if access.Some? && access.value !in db.accessTokens {
      return 401;
    }
    status := PerformWrite(db, w, stamp, failsLate);
    if status >= 400 {
      db.Restore(saved);
    }
  }
}
