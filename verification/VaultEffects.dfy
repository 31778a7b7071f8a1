/** What an accepted rotation, a rebind and a committed write do to the tables,
    column by column, and what they leave alone. */
module VaultEffects {
  import opened Wrappers
  import opened VaultRotation
  import opened VaultProtocol

  // ---------- The user and the tokens ----------

  /** The user's key material is the submitted one, under the next version, and
      bound to the account id; no other user changes. */
  lemma RotationStoresTheNewKey(
    registry: seq<Resource>, db: Db, user: Id, access: Option<Id>, p: Payload, now: int, stamp: string)
    requires RotationAccepted(registry, db, user, p, now)
    ensures var after := Rotated(registry, db, user, access, p, stamp).users;
      && after.Keys == db.users.Keys
      && after[user].kdfSalt == p.kdfSalt && after[user].kdfParams == p.kdfParams
      && after[user].privateKey == p.privateKey && after[user].privateKeyNonce == p.privateKeyNonce
      && after[user].boundToUserId && after[user].vaultVersion == p.vaultVersion + 1
      && forall v :: v in db.users && v != user ==> after[v] == db.users[v]
  {
    hide ItemsFit, ReplacedRecords;
  }

  /** A rebind replaces the envelope only, once. */
  lemma RebindStoresTheEnvelope(db: Db, user: Id, version: nat, privateKey: Value, nonce: string)
    requires RebindAccepted(db, user, version)
    ensures var after := Rebound(db, user, privateKey, nonce);
      && after.users.Keys == db.users.Keys
      && after.users[user].kdfSalt == db.users[user].kdfSalt && after.users[user].kdfParams == db.users[user].kdfParams
      && after.users[user].privateKey == privateKey && after.users[user].privateKeyNonce == nonce
      && after.users[user].boundToUserId && after.users[user].vaultVersion == version + 1
      && (forall v :: v in db.users && v != user ==> after.users[v] == db.users[v])
      && after.records == db.records && after.refreshTokens == db.refreshTokens && after.accessTokens == db.accessTokens
      && forall again :: !RebindAccepted(after, user, again)
  {
  }

  /** The presented refresh token and the request's access token survive, the
      user's others do not, and nobody else's is touched. */
  lemma RotationEndsOtherSessions(
    registry: seq<Resource>, db: Db, user: Id, access: Option<Id>, p: Payload, now: int, stamp: string)
    requires RotationAccepted(registry, db, user, p, now)
    ensures var after := Rotated(registry, db, user, access, p, stamp);
      && after.refreshTokens.Keys == db.refreshTokens.Keys
      && (forall h :: h in db.refreshTokens ==>
            if db.refreshTokens[h].userId == user && h != p.refreshTokenHash then after.refreshTokens[h].revoked
            else after.refreshTokens[h] == db.refreshTokens[h])
      && (forall a :: a in after.accessTokens <==> a in db.accessTokens && (db.accessTokens[a].userId != user || access == Some(a)))
      && (forall a :: a in after.accessTokens ==> after.accessTokens[a] == db.accessTokens[a])
  {
    hide ItemsFit, ReplacedRecords;
  }

  // ---------- The records ----------

  /** A record of the user that is live and, if its type can be shared, is not
      a team's. */
  predicate IsOwnPersonal(record: Record, resource: Resource, user: Id) {
    && record.userId == user && !record.trashed
    && !(resource.teamScoped && record.teamId.Some?)
  }

  /** An accepted rotation brings an item for every such record of a registered
      type, with the timestamp the record still has, and changes no other. */
  lemma RotationCoversExactly(
    registry: seq<Resource>, db: Db, user: Id, access: Option<Id>, p: Payload, now: int, stamp: string, r: Resource, k: Key)
    requires DistinctKinds(registry) && RotationAccepted(registry, db, user, p, now)
    requires r in registry && k in db.records && k.kind == r.kind
    ensures k in Rotated(registry, db, user, access, p, stamp).records
    ensures IsOwnPersonal(db.records[k], r, user) ==>
      exists i :: 0 <= i < |p.items| && p.items[i].RecordKey() == k && p.items[i].updatedAt == db.records[k].updatedAt
    ensures !IsOwnPersonal(db.records[k], r, user) ==>
      Rotated(registry, db, user, access, p, stamp).records[k] == db.records[k]
  {
    hide CompleteReplacement, SessionFits;
    SubmittedHoldsTheItems(p.items);
    assert TypeFits(db.records, p.items, r, user);
    if k in KeysOf(p.items) {
      var i :| 0 <= i < |p.items| && p.items[i].RecordKey() == k;
      assert ItemFits(db.records, p.items[i], r, user);
    } else {
      assert k !in PersonalKeys(db.records, r, user);
    }
  }

  lemma ItemOf(registry: seq<Resource>, db: Db, user: Id, p: Payload, stamp: string, r: Resource, k: Key) returns (item: Item)
    requires ItemsFit(registry, db.records, p.items, user) && r in registry && k in PersonalKeys(db.records, r, user)
    ensures item in p.items && item.RecordKey() == k && CompleteReplacement(db.records[k], item.fields, r)
    ensures ReplacedRecords(registry, db.records, p.items, stamp)[k] == Saved(db.records[k], item.fields, stamp)
  {
    hide CompleteReplacement, Saved;
    SubmittedHoldsTheItems(p.items);
    assert TypeFits(db.records, p.items, r, user);
    var i :| 0 <= i < |p.items| && p.items[i].RecordKey() == k;
    item := p.items[i];
    assert ItemFits(db.records, p.items[i], r, user);
  }

  predicate IsFullText(v: Value) {
    v.Text? && 1 <= |v.text| <= 1_048_576
  }

  /** The item replaced both halves of a pair. */
  predicate ReplacesPair(item: Item, after: Record, base: string) {
    && base + "_ciphertext" in item.fields && base + "_nonce" in item.fields
    && IsFullText(item.fields[base + "_ciphertext"]) && IsFullText(item.fields[base + "_nonce"])
    && base + "_ciphertext" in after.columns && after.columns[base + "_ciphertext"] == item.fields[base + "_ciphertext"]
    && base + "_nonce" in after.columns && after.columns[base + "_nonce"] == item.fields[base + "_nonce"]
  }

  /** Every populated ciphertext is replaced together with its nonce by what one
      item brought, each a text of one to 1,048,576 characters. */
  lemma RotationReplacesPairs(
    registry: seq<Resource>, db: Db, user: Id, access: Option<Id>, p: Payload, now: int, stamp: string,
    r: Resource, k: Key, base: string) returns (item: Item)
    requires RotationAccepted(registry, db, user, p, now)
    requires r in registry && k in db.records && k.kind == r.kind && IsOwnPersonal(db.records[k], r, user)
    requires base + "_ciphertext" in r.fields && base + "_nonce" in r.fields
    requires base + "_ciphertext" in db.records[k].columns
    requires db.records[k].columns[base + "_ciphertext"].Text? ==> db.records[k].columns[base + "_ciphertext"].text != ""
    ensures item in p.items && item.RecordKey() == k
    ensures ReplacesPair(item, Rotated(registry, db, user, access, p, stamp).records[k], base)
  {
    hide SessionFits;
    item := ItemOf(registry, db, user, p, stamp, r, k);
    assert CiphertextColumn(base) == base + "_ciphertext" && NonceColumn(base) == base + "_nonce";
    assert IsCipherBase(r.fields, base) && PairFits(db.records[k], item.fields, base);
    hide ItemsFit, ReplacedRecords;
    assert ReplacesPair(item, Saved(db.records[k], item.fields, stamp), base);
  }

  predicate SameColumn(a: Record, b: Record, column: string) {
    (column in a.columns <==> column in b.columns) && (column in a.columns ==> a.columns[column] == b.columns[column])
  }

  /** A column that a rotation changes is half of a registered pair, both halves
      of which one item replaced; owner, team and trash mark stay, and the
      timestamp moves exactly with the columns. */
  lemma RotationTouchesOnlyPairs(
    registry: seq<Resource>, db: Db, user: Id, access: Option<Id>, p: Payload, now: int, stamp: string,
    r: Resource, k: Key, column: string)
    requires DistinctKinds(registry) && RotationAccepted(registry, db, user, p, now)
    requires r in registry && k in db.records && k.kind == r.kind
    ensures var after := Rotated(registry, db, user, access, p, stamp).records[k];
      && after.userId == db.records[k].userId && after.teamId == db.records[k].teamId && after.trashed == db.records[k].trashed
      && after.updatedAt == (if after.columns == db.records[k].columns then db.records[k].updatedAt else Some(stamp))
      && (SameColumn(after, db.records[k], column) || exists base, item :: IsHalfReplaced(r, p, after, k, column, base, item))
  {
    hide SessionFits;
    RotationCoversExactly(registry, db, user, access, p, now, stamp, r, k);
    if IsOwnPersonal(db.records[k], r, user) {
      var item := ItemOf(registry, db, user, p, stamp, r, k);
      hide ItemsFit, ReplacedRecords, CompleteReplacement, SameColumn, IsHalfReplaced;
      if !SameColumn(Saved(db.records[k], item.fields, stamp), db.records[k], column) {
        var base := HalfReplaced(r, p, db.records[k], item, stamp, column);
      }
    }
  }

  lemma HalfReplaced(r: Resource, p: Payload, record: Record, item: Item, stamp: string, column: string) returns (base: string)
    requires item in p.items && CompleteReplacement(record, item.fields, r)
    requires !SameColumn(Saved(record, item.fields, stamp), record, column)
    ensures IsHalfReplaced(r, p, Saved(record, item.fields, stamp), item.RecordKey(), column, base, item)
  {
    assert column in item.fields && IsCipherColumn(r.fields, column);
    base :| IsCipherBase(r.fields, base) && (column == CiphertextColumn(base) || column == NonceColumn(base));
    assert CiphertextColumn(base) == base + "_ciphertext" && NonceColumn(base) == base + "_nonce";
    assert PairFits(record, item.fields, base);
  }

  predicate IsHalfReplaced(r: Resource, p: Payload, after: Record, k: Key, column: string, base: string, item: Item) {
    && (column == base + "_ciphertext" || column == base + "_nonce")
    && base + "_ciphertext" in r.fields && base + "_nonce" in r.fields
    && item in p.items && item.RecordKey() == k && ReplacesPair(item, after, base)
  }

  lemma ReplacementValueIff(v: Value)
    ensures IsReplacementValue(v) <==> IsFullText(v)
  {
  }

  // ---------- Why items are refused ----------

  predicate Sends(items: seq<Item>, k: Key) {
    exists i :: 0 <= i < |items| && items[i].RecordKey() == k
  }

  predicate IsOwnRow(records: map<Key, Record>, r: Resource, user: Id, k: Key) {
    k in records && k.kind == r.kind && IsOwnPersonal(records[k], r, user)
  }

  /** A record that is the user's was not sent, or one that was sent is not the
      user's, or has another timestamp by now. */
  predicate IsMismatch(records: map<Key, Record>, items: seq<Item>, r: Resource, user: Id, k: Key) {
    && k.kind == r.kind
    && (|| Sends(items, k) != IsOwnRow(records, r, user, k)
        || exists i :: 0 <= i < |items| && items[i].RecordKey() == k && IsOwnRow(records, r, user, k) && items[i].updatedAt != records[k].updatedAt)
  }

  lemma SendsIff(items: seq<Item>, k: Key)
    requires DistinctKeys(items)
    ensures Sends(items, k) <==> k in Submitted(items)
    ensures forall i :: 0 <= i < |items| && items[i].RecordKey() == k ==> k in Submitted(items) && Submitted(items)[k] == items[i]
  {
    SubmittedHoldsTheItems(items);
    if k in Submitted(items) {
      var i :| 0 <= i < |items| && items[i] == Submitted(items)[k];
    }
  }

  lemma OwnRowIff(records: map<Key, Record>, r: Resource, user: Id, k: Key)
    ensures IsOwnRow(records, r, user, k) <==> k in PersonalKeys(records, r, user)
  {
  }

  /** The submission is reported stale only if it is: for some type some record
      does not match. */
  lemma StaleIff(registry: seq<Resource>, records: map<Key, Record>, items: seq<Item>, user: Id)
    requires DistinctKeys(items)
    ensures StaleSomewhere(registry, records, items, user) <==> exists r, k :: r in registry && IsMismatch(records, items, r, user, k)
  {
    hide IsMismatch, StaleType;
    forall r | r in registry
      ensures StaleType(records, Submitted(items), r, user) <==> exists k :: IsMismatch(records, items, r, user, k)
    {
      StaleTypeIff(records, items, r, user);
    }
  }

  lemma StaleTypeIff(records: map<Key, Record>, items: seq<Item>, r: Resource, user: Id)
    requires DistinctKeys(items)
    ensures StaleType(records, Submitted(items), r, user) <==> exists k :: IsMismatch(records, items, r, user, k)
  {
    var table := Submitted(items);
    var sent, own := (set k | k in table && k.kind == r.kind), PersonalKeys(records, r, user);
    forall k
      ensures IsMismatch(records, items, r, user, k) <==>
        k.kind == r.kind && ((k in sent) != (k in own) || (k in own && k in table && IsStale(records[k], table[k])))
    {
      MismatchIff(records, items, r, user, k);
    }
    hide IsMismatch, Submitted, PersonalKeys, IsStale;
    assert forall k :: k in own ==> k.kind == r.kind by {
      forall k | k in own
        ensures k.kind == r.kind
      {
        OwnRowIff(records, r, user, k);
      }
    }
    if sent != own {
      var k :| (k in sent) != (k in own);
      assert IsMismatch(records, items, r, user, k);
    }
  }

  lemma MismatchIff(records: map<Key, Record>, items: seq<Item>, r: Resource, user: Id, k: Key)
    requires DistinctKeys(items)
    ensures var table, own := Submitted(items), PersonalKeys(records, r, user);
      IsMismatch(records, items, r, user, k) <==>
        k.kind == r.kind && ((k in table) != (k in own) || (k in own && k in table && IsStale(records[k], table[k])))
  {
    SendsIff(items, k);
    OwnRowIff(records, r, user, k);
    hide Submitted, IsOwnRow, PersonalKeys;
    if k in Submitted(items) {
      var i :| 0 <= i < |items| && items[i].RecordKey() == k;
      assert Submitted(items)[k] == items[i];
    }
  }

  predicate IsPair(r: Resource, base: string) {
    base + "_ciphertext" in r.fields && base + "_nonce" in r.fields
  }

  /** A column that is no half of a registered pair, or without a full text. */
  ghost predicate IsBadField(r: Resource, fields: map<string, Value>, f: string) {
    f in fields && !(IsFullText(fields[f]) && exists base :: IsPair(r, base) && (f == base + "_ciphertext" || f == base + "_nonce"))
  }

  /** A pair sent by halves, or not sent although the record has a ciphertext. */
  predicate IsBadPair(record: Record, r: Resource, fields: map<string, Value>, base: string) {
    && IsPair(r, base)
    && (|| (base + "_ciphertext" in fields) != (base + "_nonce" in fields)
        || (base + "_ciphertext" !in fields && base + "_ciphertext" in record.columns
            && (record.columns[base + "_ciphertext"].Text? ==> record.columns[base + "_ciphertext"].text != "")))
  }

  ghost predicate IsBadItem(records: map<Key, Record>, r: Resource, user: Id, item: Item) {
    && IsOwnRow(records, r, user, item.RecordKey())
    && item.updatedAt == records[item.RecordKey()].updatedAt
    && ((exists f :: IsBadField(r, item.fields, f)) || exists base :: IsBadPair(records[item.RecordKey()], r, item.fields, base))
  }

  lemma CompleteUnlessBad(record: Record, fields: map<string, Value>, r: Resource)
    ensures !CompleteReplacement(record, fields, r) <==> (exists f :: IsBadField(r, fields, f)) || exists base :: IsBadPair(record, r, fields, base)
  {
    forall base: string
      ensures IsCipherBase(r.fields, base) <==> IsPair(r, base)
      ensures IsPair(r, base) ==> (PairFits(record, fields, base) <==> !IsBadPair(record, r, fields, base))
    {
      assert CiphertextColumn(base) == base + "_ciphertext" && NonceColumn(base) == base + "_nonce";
    }
    forall f | f in fields
      ensures IsBadField(r, fields, f) <==> !(IsReplacementValue(fields[f]) && IsCipherColumn(r.fields, f))
    {
      ReplacementValueIff(fields[f]);
      assert forall base :: CiphertextColumn(base) == base + "_ciphertext" && NonceColumn(base) == base + "_nonce";
    }
    hide CiphertextColumn, NonceColumn, IsCipherColumn, IsBadField, IsBadPair, IsPair, IsCipherBase, PairFits, IsReplacementValue;
  }

  /** The submission is reported incomplete only if it is: some record that is as
      the client read it has a bad column or a bad pair. */
  lemma IncompleteIff(registry: seq<Resource>, records: map<Key, Record>, items: seq<Item>, user: Id)
    requires DistinctKeys(items)
    ensures IncompleteSomewhere(registry, records, items, user) <==>
      exists r, i :: r in registry && 0 <= i < |items| && IsBadItem(records, r, user, items[i])
  {
    hide IsBadItem, IncompleteType;
    forall r | r in registry
      ensures IncompleteType(records, Submitted(items), r, user) <==> exists i :: 0 <= i < |items| && IsBadItem(records, r, user, items[i])
    {
      IncompleteTypeIff(records, items, r, user);
    }
  }

  lemma IncompleteTypeIff(records: map<Key, Record>, items: seq<Item>, r: Resource, user: Id)
    requires DistinctKeys(items)
    ensures IncompleteType(records, Submitted(items), r, user) <==> exists i :: 0 <= i < |items| && IsBadItem(records, r, user, items[i])
  {
    var table, own := Submitted(items), PersonalKeys(records, r, user);
    SubmittedHoldsTheItems(items);
    forall i | 0 <= i < |items|
      ensures IsBadItem(records, r, user, items[i]) <==>
        items[i].RecordKey() in own && IsIncomplete(records[items[i].RecordKey()], items[i], r)
    {
      OwnRowIff(records, r, user, items[i].RecordKey());
      if items[i].RecordKey() in records {
        CompleteUnlessBad(records[items[i].RecordKey()], items[i].fields, r);
      }
      hide CompleteReplacement, IsBadField, IsBadPair, IsOwnRow, PersonalKeys;
    }
    hide IsBadItem, IsIncomplete, Submitted, PersonalKeys;
    if IncompleteType(records, table, r, user) {
      var k :| k in own && k in table && IsIncomplete(records[k], table[k], r);
      var i :| 0 <= i < |items| && items[i] == table[k];
      assert IsBadItem(records, r, user, items[i]);
    }
  }

  // ---------- Writes ----------

  /** The row a write changes is new, or its writer's own, live and no team's. */
  predicate IsWritable(db: Db, w: Write) {
    if w.creates then w.key !in db.records
    else if w.key !in db.records then false
    else
      var record := db.records[w.key];
      record.userId == w.userId && !record.trashed && record.teamId == None
  }

  /** A commit changes nothing but that one row, and only with a living token;
      there each column that was sent has the sent value, each cleared one is
      empty and the others are as they were. */
  lemma CommitWritesItsRow(registry: seq<Resource>, s: System, n: nat, stamp: string)
    requires n in s.pending
    ensures var w, db, after := s.pending[n], s.db, Next(registry, s, Commit(n, stamp)).db;
      && after.users == db.users && after.refreshTokens == db.refreshTokens && after.accessTokens == db.accessTokens
      && (forall k :: k != w.key ==> (k in after.records <==> k in db.records))
      && (forall k :: k in db.records && k != w.key ==> after.records[k] == db.records[k])
      && (if w.access in db.accessTokens && IsWritable(db, w) then HasTheWrite(db, w, after, stamp) else after.records == db.records)
  {
    if IsWritable(s.db, s.pending[n]) {
      WrittenHasTheWrite(s.db, s.pending[n], stamp);
    }
    hide HasTheWrite;
  }

  lemma WrittenHasTheWrite(db: Db, w: Write, stamp: string)
    requires IsWritable(db, w)
    ensures HasTheWrite(db, w, Written(db, w, stamp), stamp)
  {
  }

  predicate HasTheWrite(db: Db, w: Write, after: Db, stamp: string) {
    && w.key in after.records && after.records[w.key].userId == w.userId
    && after.records[w.key].teamId == None && !after.records[w.key].trashed
    && (forall c :: c in w.put ==> c in after.records[w.key].columns && after.records[w.key].columns[c] == w.put[c])
    && (forall c :: c in after.records[w.key].columns && c !in w.put ==>
          && !w.creates && w.key in db.records && c !in w.cleared
          && c in db.records[w.key].columns && after.records[w.key].columns[c] == db.records[w.key].columns[c])
    && (!w.creates && w.key in db.records ==>
          && (forall c :: c in db.records[w.key].columns && c !in w.cleared ==> c in after.records[w.key].columns)
          && (if after.records[w.key].columns == db.records[w.key].columns then after.records[w.key] == db.records[w.key]
              else after.records[w.key].updatedAt == Some(stamp)))
  }

  // ---------- Refreshes and revocations ----------

  /** An exchange spends the presented token and adds one that is open until the
      new expiry, for the same user and session, with one access token. */
  lemma ExchangeSpendsTheToken(registry: seq<Resource>, s: System, a: Action)
    requires a.Refresh? && Enabled(s, a)
    ensures var t, after := s.db.refreshTokens[a.presented], Next(registry, s, a).db;
      && after.refreshTokens.Keys == s.db.refreshTokens.Keys + {a.hash}
      && after.refreshTokens[a.presented].rotated && !after.refreshTokens[a.hash].rotated && !after.refreshTokens[a.hash].revoked
      && after.refreshTokens[a.hash].expiresAt == Some(a.expiresAt)
      && after.refreshTokens[a.hash].userId == t.userId && after.refreshTokens[a.hash].session == t.session
      && (forall h :: h in s.db.refreshTokens && h != a.presented ==> after.refreshTokens[h] == s.db.refreshTokens[h])
      && after.accessTokens == s.db.accessTokens[a.access := AccessToken(t.userId, t.session)]
  {
  }

  /** A revocation marks exactly the named refresh tokens and deletes exactly the
      named access tokens. */
  lemma RevocationIsExact(registry: seq<Resource>, s: System, a: Action)
    requires a.Revoke?
    ensures var after := Next(registry, s, a).db;
      && after.refreshTokens.Keys == s.db.refreshTokens.Keys
      && (forall h :: h in s.db.refreshTokens ==>
            after.refreshTokens[h].revoked == (s.db.refreshTokens[h].revoked || h in a.hashes))
      && (forall x :: x in after.accessTokens <==> x in s.db.accessTokens && x !in a.accesses)
  {
  }
}
