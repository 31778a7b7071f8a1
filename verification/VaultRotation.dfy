/** The transaction behind a master-password change.

    The four tables the transaction touches are the fields of `Database`. The
    server never decrypts anything, so a stored text carries a tag, `epoch`,
    naming the key it was made with. No operation in this module looks at a
    tag; they exist so that `VaultProtocol` can say which key a record is
    under. */
module VaultRotation {
  import opened Wrappers

  type Id = string

  /** A column value: a text made under the key numbered `epoch`, or a value
      of another type. A column that is absent from a row is SQL NULL. */
  datatype Value = Text(text: string, epoch: nat) | NotText

  datatype Key = Key(kind: string, id: Id)

  datatype Record = Record(
    userId: Id,
    teamId: Option<Id>,
    trashed: bool,
    updatedAt: Option<string>,
    columns: map<string, Value>)

  /** One entry of the resource registry. */
  datatype Resource = Resource(kind: string, fields: seq<string>, teamScoped: bool)

  datatype User = User(
    vaultVersion: nat,
    kdfSalt: string,
    kdfParams: string,
    privateKey: Value,
    privateKeyNonce: string,
    boundToUserId: bool)

  /** `session` names the client the token was issued to; like `epoch` it is
      never read by an operation. Refresh tokens are stored under the hash of
      the plain token, which is a unique column. */
  datatype RefreshToken = RefreshToken(userId: Id, session: Id, expiresAt: Option<int>, rotated: bool, revoked: bool)

  datatype AccessToken = AccessToken(userId: Id, session: Id)

  datatype Item = Item(kind: string, id: Id, updatedAt: Option<string>, fields: map<string, Value>)
  {
    function RecordKey(): Key {
      Key(kind, id)
    }
  }

  datatype Payload = Payload(
    vaultVersion: nat,
    refreshTokenHash: string,
    kdfSalt: string,
    kdfParams: string,
    privateKey: Value,
    privateKeyNonce: string,
    items: seq<Item>)

  datatype Error = NotFound | Conflict | InvalidSession | InvalidItems

  datatype Db = Db(
    users: map<Id, User>,
    records: map<Key, Record>,
    refreshTokens: map<string, RefreshToken>,
    accessTokens: map<Id, AccessToken>)

  const MAX_FIELD_LENGTH := 1_048_576

  // ---------- What the transaction accepts, stated without loops ----------

  function CiphertextColumn(base: string): string {
    base + "_ciphertext"
  }

  function NonceColumn(base: string): string {
    base + "_nonce"
  }

  /** Strip the "_ciphertext" suffix. */
  function BaseOf(column: string): (base: Option<string>)
    ensures forall b :: column == CiphertextColumn(b) <==> base == Some(b)
  {
    var n := |column| - |"_ciphertext"|;
    if n >= 0 && column[n..] == "_ciphertext" then
      assert column == CiphertextColumn(column[..n]);
      assert forall b :: column == CiphertextColumn(b) ==> b == column[..n];
      Some(column[..n])
    else
      assert forall b :: |column| == |CiphertextColumn(b)| ==> |b| == n && CiphertextColumn(b)[n..] == "_ciphertext";
      None
  }

  /** `base` names an encrypted field of the resource: both halves of the
      pair are registered. */
  predicate IsCipherBase(fields: seq<string>, base: string) {
    CiphertextColumn(base) in fields && NonceColumn(base) in fields
  }

  predicate Populated(record: Record, column: string) {
    column in record.columns && !(record.columns[column].Text? && record.columns[column].text == "")
  }

  /** The live records of `user` that are not shared with a team. */
  predicate IsPersonal(record: Record, resource: Resource, user: Id) {
    && record.userId == user
    && !record.trashed
    && (resource.teamScoped ==> record.teamId.None?)
  }

  function PersonalKeys(records: map<Key, Record>, resource: Resource, user: Id): (keys: set<Key>)
  {
    set k | k in records && k.kind == resource.kind && IsPersonal(records[k], resource, user)
  }

  predicate IsReplacementValue(value: Value) {
    value.Text? && 0 < |value.text| <= MAX_FIELD_LENGTH
  }

  /** Every submitted column is half of an encrypted field and holds a
      non-empty text; pairs come together; no stored ciphertext is skipped. */
  ghost predicate CompleteReplacement(record: Record, fields: map<string, Value>, resource: Resource) {
    && (forall f :: f in fields ==> IsReplacementValue(fields[f]) && IsCipherColumn(resource.fields, f))
    && (forall base :: IsCipherBase(resource.fields, base) ==> PairFits(record, fields, base))
  }

  ghost predicate IsCipherColumn(registered: seq<string>, column: string) {
    exists base :: IsCipherBase(registered, base) && (column == CiphertextColumn(base) || column == NonceColumn(base))
  }

  predicate PairFits(record: Record, fields: map<string, Value>, base: string) {
    && (CiphertextColumn(base) in fields <==> NonceColumn(base) in fields)
    && (Populated(record, CiphertextColumn(base)) ==> CiphertextColumn(base) in fields)
  }

  /** The record is as the client read it, and fully re-encrypted. */
  ghost predicate RecordFits(record: Record, item: Item, resource: Resource) {
    record.updatedAt == item.updatedAt && CompleteReplacement(record, item.fields, resource)
  }

  ghost predicate ItemFits(records: map<Key, Record>, item: Item, resource: Resource, user: Id) {
    && item.RecordKey() in PersonalKeys(records, resource, user)
    && RecordFits(records[item.RecordKey()], item, resource)
  }

  ghost predicate DistinctKeys(items: seq<Item>) {
    forall i, j :: 0 <= i < j < |items| ==> items[i].RecordKey() != items[j].RecordKey()
  }

  ghost predicate TypeFits(records: map<Key, Record>, items: seq<Item>, resource: Resource, user: Id) {
    && (forall i :: 0 <= i < |items| && items[i].kind == resource.kind ==> ItemFits(records, items[i], resource, user))
    && (forall k :: k in PersonalKeys(records, resource, user) ==> k in KeysOf(items))
  }

  function KeysOf(items: seq<Item>): set<Key> {
    set i | 0 <= i < |items| :: items[i].RecordKey()
  }

  /** The items are exactly the user's personal records, each once, each
      unchanged and each completely re-encrypted. */
  ghost predicate ItemsFit(registry: seq<Resource>, records: map<Key, Record>, items: seq<Item>, user: Id) {
    DistinctKeys(items) && TypesFit(registry, records, items, user)
  }

  ghost predicate TypesFit(registry: seq<Resource>, records: map<Key, Record>, items: seq<Item>, user: Id) {
    forall r :: r in registry ==> TypeFits(records, items, r, user)
  }

  predicate Usable(token: RefreshToken, now: int) {
    && !token.revoked
    && !token.rotated
    && token.expiresAt.Some?
    && token.expiresAt.value > now
  }

  predicate SessionFits(db: Db, user: Id, hash: string, now: int) {
    && hash in db.refreshTokens
    && db.refreshTokens[hash].userId == user
    && Usable(db.refreshTokens[hash], now)
  }

  /** Version and session fit; only the items are left to be judged. */
  predicate IsOpenTo(db: Db, user: Id, p: Payload, now: int) {
    user in db.users && db.users[user].vaultVersion == p.vaultVersion && SessionFits(db, user, p.refreshTokenHash, now)
  }

  ghost predicate RotationAccepted(registry: seq<Resource>, db: Db, user: Id, p: Payload, now: int) {
    && user in db.users
    && db.users[user].vaultVersion == p.vaultVersion
    && SessionFits(db, user, p.refreshTokenHash, now)
    && ItemsFit(registry, db.records, p.items, user)
  }

  predicate RebindAccepted(db: Db, user: Id, version: nat) {
    user in db.users && db.users[user].vaultVersion == version && !db.users[user].boundToUserId
  }

  // ---------- What the transaction leaves behind ----------

  /** Saving a filled model overlays the columns and, when anything changed,
      touches the timestamp. */
  function Saved(record: Record, fields: map<string, Value>, stamp: string): Record {
    if record.columns + fields == record.columns then record
    else record.(columns := record.columns + fields, updatedAt := Some(stamp))
  }

  function Submitted(items: seq<Item>): map<Key, Item> {
    if items == [] then map[]
    else Submitted(items[..|items| - 1])[items[|items| - 1].RecordKey() := items[|items| - 1]]
  }

  predicate IsRegistered(registry: seq<Resource>, kind: string) {
    exists r :: r in registry && r.kind == kind
  }

  function ReplacedRecords(registry: seq<Resource>, records: map<Key, Record>, items: seq<Item>, stamp: string): map<Key, Record> {
    map k | k in records ::
      if k in Submitted(items) && IsRegistered(registry, k.kind) then Saved(records[k], Submitted(items)[k].fields, stamp)
      else records[k]
  }

  function RotatedUser(u: User, p: Payload): User {
    User(u.vaultVersion + 1, p.kdfSalt, p.kdfParams, p.privateKey, p.privateKeyNonce, true)
  }

  function RevokeOthers(tokens: map<string, RefreshToken>, user: Id, keep: string): map<string, RefreshToken> {
    map h | h in tokens ::
      if tokens[h].userId == user && h != keep then tokens[h].(revoked := true) else tokens[h]
  }

  function DropOthers(tokens: map<Id, AccessToken>, user: Id, keep: Option<Id>): map<Id, AccessToken> {
    map a | a in tokens && (tokens[a].userId != user || keep == Some(a)) :: tokens[a]
  }

  function Rotated(registry: seq<Resource>, db: Db, user: Id, access: Option<Id>, p: Payload, stamp: string): Db
    requires user in db.users
  {
    Db(db.users[user := RotatedUser(db.users[user], p)],
       ReplacedRecords(registry, db.records, p.items, stamp),
       RevokeOthers(db.refreshTokens, user, p.refreshTokenHash),
       DropOthers(db.accessTokens, user, access))
  }

  function Rebound(db: Db, user: Id, privateKey: Value, nonce: string): Db
    requires user in db.users
  {
    var u := db.users[user];
    db.(users := db.users[user := u.(privateKey := privateKey, privateKeyNonce := nonce, boundToUserId := true, vaultVersion := u.vaultVersion + 1)])
  }

  /** Each type is registered once. */
  ghost predicate DistinctKinds(registry: seq<Resource>) {
    forall i, j :: 0 <= i < j < |registry| ==> registry[i].kind != registry[j].kind
  }

  function AllPersonalKeys(registry: seq<Resource>, records: map<Key, Record>, user: Id): set<Key> {
    set r, k | r in registry && k in PersonalKeys(records, r, user) :: k
  }

  // ---------- Facts about the submitted items ----------

  lemma KeysOfOneMoreItem(items: seq<Item>)
    requires items != []
    ensures KeysOf(items) == KeysOf(items[..|items| - 1]) + {items[|items| - 1].RecordKey()}
  {
    var n := |items| - 1;
    forall k
      ensures k in KeysOf(items) <==> k in KeysOf(items[..n]) + {items[n].RecordKey()}
    {
      if k in KeysOf(items[..n]) {
        var i :| 0 <= i < n && items[..n][i].RecordKey() == k;
        assert items[i].RecordKey() == k;
      }
      if k in KeysOf(items) {
        var i :| 0 <= i < |items| && items[i].RecordKey() == k;
        assert i < n ==> items[..n][i] == items[i];
      }
    }
  }

  lemma OneMoreDistinctKey(items: seq<Item>, n: nat)
    requires n < |items|
    ensures DistinctKeys(items[..n + 1]) <==> DistinctKeys(items[..n]) && items[n].RecordKey() !in KeysOf(items[..n])
    ensures DistinctKeys(items) ==> DistinctKeys(items[..n + 1])
    ensures Submitted(items[..n + 1]) == Submitted(items[..n])[items[n].RecordKey() := items[n]]
  {
    var more := items[..n + 1];
    assert more[..n] == items[..n];
    if items[n].RecordKey() in KeysOf(items[..n]) {
      var j :| 0 <= j < n && items[..n][j].RecordKey() == items[n].RecordKey();
      assert more[j].RecordKey() == more[n].RecordKey();
    }
    if DistinctKeys(items[..n]) && items[n].RecordKey() !in KeysOf(items[..n]) {
      forall i, j | 0 <= i < j <= n
        ensures more[i].RecordKey() != more[j].RecordKey()
      {
        assert items[..n][i].RecordKey() in KeysOf(items[..n]);
      }
    }
  }

  lemma {:induction false} SubmittedKeys(items: seq<Item>)
    ensures Submitted(items).Keys == KeysOf(items)
    ensures forall k :: k in Submitted(items) ==> Submitted(items)[k].RecordKey() == k
  {
    if items == [] {
    } else {
      SubmittedKeys(items[..|items| - 1]);
      KeysOfOneMoreItem(items);
    }
  }

  lemma {:induction false} SubmittedValue(items: seq<Item>, i: nat)
    requires DistinctKeys(items) && i < |items|
    ensures items[i].RecordKey() in Submitted(items) && Submitted(items)[items[i].RecordKey()] == items[i]
  {
    var n := |items| - 1;
    if i < n {
      assert items[..n][i] == items[i];
      SubmittedValue(items[..n], i);
    }
  }

  lemma SubmittedHoldsTheItems(items: seq<Item>)
    requires DistinctKeys(items)
    ensures Submitted(items).Keys == KeysOf(items)
    ensures forall i :: 0 <= i < |items| ==> Submitted(items)[items[i].RecordKey()] == items[i]
    ensures forall k :: k in Submitted(items) ==> Submitted(items)[k] in items && Submitted(items)[k].RecordKey() == k
  {
    SubmittedKeys(items);
    forall i | 0 <= i < |items|
      ensures Submitted(items)[items[i].RecordKey()] == items[i]
    {
      SubmittedValue(items, i);
    }
  }

  /** `TypeFits` read off the table of submitted items. */
  ghost predicate TableFits(records: map<Key, Record>, table: map<Key, Item>, resource: Resource, user: Id) {
    && (set k | k in table && k.kind == resource.kind) == PersonalKeys(records, resource, user)
    && AllFit(records, table, PersonalKeys(records, resource, user), resource)
  }

  ghost predicate AllFit(records: map<Key, Record>, table: map<Key, Item>, keys: set<Key>, resource: Resource) {
    forall k :: k in keys ==> k in records && k in table && RecordFits(records[k], table[k], resource)
  }

  lemma TableFitsIffTypeFits(records: map<Key, Record>, items: seq<Item>, resource: Resource, user: Id)
    requires DistinctKeys(items)
    ensures TableFits(records, Submitted(items), resource, user) <==> TypeFits(records, items, resource, user)
  {
    SubmittedHoldsTheItems(items);
    var table := Submitted(items);
    if TypeFits(records, items, resource, user) {
      forall k | k in table && k.kind == resource.kind
        ensures ItemFits(records, table[k], resource, user) && table[k].RecordKey() == k
      {
      }
    }
    if TableFits(records, table, resource, user) {
      forall i | 0 <= i < |items| && items[i].kind == resource.kind
        ensures ItemFits(records, items[i], resource, user)
      {
        assert items[i].RecordKey() in (set k | k in table && k.kind == resource.kind);
      }
    }
  }

  /** The records after the types in `kinds` have been replaced. */
  function ReplacedKinds(records: map<Key, Record>, table: map<Key, Item>, kinds: set<string>, stamp: string): map<Key, Record> {
    map k | k in records ::
      if k in table && k.kind in kinds then Saved(records[k], table[k].fields, stamp) else records[k]
  }

  /** Replacing other types leaves a type's own check as it was. */
  lemma OtherKindsDoNotMatter(
    records: map<Key, Record>, table: map<Key, Item>, kinds: set<string>, stamp: string, resource: Resource, user: Id)
    requires resource.kind !in kinds
    ensures var now := ReplacedKinds(records, table, kinds, stamp);
            && PersonalKeys(now, resource, user) == PersonalKeys(records, resource, user)
            && (TableFits(now, table, resource, user) <==> TableFits(records, table, resource, user))
  {
    var now := ReplacedKinds(records, table, kinds, stamp);
    assert forall k :: k in records && k.kind == resource.kind ==> now[k] == records[k];
    assert PersonalKeys(now, resource, user) == PersonalKeys(records, resource, user);
  }

  function ReplacedKeys(records: map<Key, Record>, table: map<Key, Item>, keys: set<Key>, stamp: string): map<Key, Record> {
    map k | k in records :: if k in table && k in keys then Saved(records[k], table[k].fields, stamp) else records[k]
  }

  lemma ReplaceNothing(records: map<Key, Record>, table: map<Key, Item>, stamp: string)
    ensures ReplacedKeys(records, table, {}, stamp) == records
  {
  }

  lemma ReplaceOneMoreKey(records: map<Key, Record>, table: map<Key, Item>, keys: set<Key>, k: Key, stamp: string)
    requires k in records && k in table && k !in keys
    ensures ReplacedKeys(records, table, keys, stamp)[k] == records[k]
    ensures ReplacedKeys(records, table, keys + {k}, stamp)
         == ReplacedKeys(records, table, keys, stamp)[k := Saved(records[k], table[k].fields, stamp)]
  {
  }

  /** Halfway through one type: `done` is replaced, `todo` is to come. */
  ghost predicate Replacing(
    before: map<Key, Record>, now: map<Key, Record>, table: map<Key, Item>, resource: Resource, stamp: string,
    current: set<Key>, done: set<Key>, todo: set<Key>)
  {
    && done !! todo
    && done + todo == current
    && now == ReplacedKeys(before, table, done, stamp)
    && AllFit(before, table, done, resource)
    && forall k :: k in current ==> k in before && k in table
  }

  lemma ReplaceStep(
    before: map<Key, Record>, now: map<Key, Record>, table: map<Key, Item>, resource: Resource, stamp: string,
    current: set<Key>, done: set<Key>, todo: set<Key>, k: Key)
    requires Replacing(before, now, table, resource, stamp, current, done, todo) && k in todo
    ensures k in now && now[k] == before[k] && k in table
    ensures RecordFits(now[k], table[k], resource) ==>
      Replacing(before, now[k := Saved(now[k], table[k].fields, stamp)], table, resource, stamp, current, done + {k}, todo - {k})
    ensures !RecordFits(now[k], table[k], resource) ==> !AllFit(before, table, current, resource)
  {
    hide RecordFits, Saved;
    ReplaceOneMoreKey(before, table, done, k, stamp);
    hide ReplacedKeys;
  }

  lemma ReplaceWholeKind(records: map<Key, Record>, table: map<Key, Item>, keys: set<Key>, kind: string, stamp: string)
    requires keys == set k | k in table && k.kind == kind
    ensures ReplacedKeys(records, table, keys, stamp) == ReplacedKinds(records, table, {kind}, stamp)
  {
  }

  lemma StartReplacing(before: map<Key, Record>, table: map<Key, Item>, resource: Resource, stamp: string, current: set<Key>)
    requires forall k :: k in current ==> k in before && k in table
    ensures Replacing(before, before, table, resource, stamp, current, {}, current)
  {
    ReplaceNothing(before, table, stamp);
  }

  lemma FinishReplacing(
    before: map<Key, Record>, now: map<Key, Record>, table: map<Key, Item>, resource: Resource, stamp: string, current: set<Key>)
    requires Replacing(before, now, table, resource, stamp, current, current, {})
    requires current == set k | k in table && k.kind == resource.kind
    ensures AllFit(before, table, current, resource)
    ensures now == ReplacedKinds(before, table, {resource.kind}, stamp)
  {
    ReplaceWholeKind(before, table, current, resource.kind, stamp);
  }

  lemma ReplaceOneMoreKind(records: map<Key, Record>, table: map<Key, Item>, kinds: set<string>, kind: string, stamp: string)
    requires kind !in kinds
    ensures ReplacedKinds(ReplacedKinds(records, table, kinds, stamp), table, {kind}, stamp)
         == ReplacedKinds(records, table, kinds + {kind}, stamp)
  {
  }

  lemma OneMoreType(registry: seq<Resource>, t: nat, records: map<Key, Record>, user: Id)
    requires t < |registry| && DistinctKinds(registry)
    ensures !IsRegistered(registry[..t], registry[t].kind)
    ensures forall r :: r in registry[..t + 1] <==> r in registry[..t] || r == registry[t]
    ensures forall kind :: IsRegistered(registry[..t + 1], kind) <==> IsRegistered(registry[..t], kind) || kind == registry[t].kind
    ensures |AllPersonalKeys(registry[..t + 1], records, user)|
         == |AllPersonalKeys(registry[..t], records, user)| + |PersonalKeys(records, registry[t], user)|
  {
    var seen, extra := AllPersonalKeys(registry[..t], records, user), PersonalKeys(records, registry[t], user);
    assert registry[..t + 1] == registry[..t] + [registry[t]];
    assert AllPersonalKeys(registry[..t + 1], records, user) == seen + extra;
    assert seen !! extra;
  }

  lemma OneMoreTypeFits(registry: seq<Resource>, t: nat, records: map<Key, Record>, items: seq<Item>, user: Id)
    requires t < |registry|
    ensures TypesFit(registry[..t + 1], records, items, user)
       <==> TypesFit(registry[..t], records, items, user) && TypeFits(records, items, registry[t], user)
    ensures TypesFit(registry, records, items, user) ==> TypeFits(records, items, registry[t], user)
  {
    assert registry[..t + 1] == registry[..t] + [registry[t]];
  }

  // ---------- What an accepted rotation did to each record ----------

  /** After an accepted rotation every item's record is the old one overlaid
      with the submitted fields, and no other record has changed. */
  lemma RecordsAfterRotation(registry: seq<Resource>, records: map<Key, Record>, items: seq<Item>, user: Id, stamp: string)
    requires ItemsFit(registry, records, items, user)
    ensures var now := ReplacedRecords(registry, records, items, stamp);
      && now.Keys == records.Keys
      && (forall k :: k in records && k !in AllPersonalKeys(registry, records, user) ==> now[k] == records[k])
      && (forall i :: 0 <= i < |items| && IsRegistered(registry, items[i].kind) ==>
           && items[i].RecordKey() in AllPersonalKeys(registry, records, user)
           && now[items[i].RecordKey()] == Saved(records[items[i].RecordKey()], items[i].fields, stamp))
      && (forall k :: k in AllPersonalKeys(registry, records, user) ==>
           exists i :: 0 <= i < |items| && items[i].RecordKey() == k && IsRegistered(registry, items[i].kind))
  {
    hide CompleteReplacement;
    SubmittedHoldsTheItems(items);
    forall i | 0 <= i < |items| && IsRegistered(registry, items[i].kind)
      ensures items[i].RecordKey() in AllPersonalKeys(registry, records, user)
    {
      var r :| r in registry && r.kind == items[i].kind;
      assert TypeFits(records, items, r, user);
    }
    forall k | k in AllPersonalKeys(registry, records, user)
      ensures exists i :: 0 <= i < |items| && items[i].RecordKey() == k && IsRegistered(registry, items[i].kind)
    {
      var r :| r in registry && k in PersonalKeys(records, r, user);
      assert TypeFits(records, items, r, user);
    }
    var now := ReplacedRecords(registry, records, items, stamp);
    forall k | k in records && k !in AllPersonalKeys(registry, records, user)
      ensures now[k] == records[k]
    {
    }
  }

  // ---------- Why a submission is refused ----------

  /** The ids differ, or some record is not as the client read it. */
  ghost predicate StaleType(records: map<Key, Record>, table: map<Key, Item>, resource: Resource, user: Id) {
    || (set k | k in table && k.kind == resource.kind) != PersonalKeys(records, resource, user)
    || exists k :: k in PersonalKeys(records, resource, user) && k in table && IsStale(records[k], table[k])
  }

  predicate IsStale(record: Record, item: Item) {
    record.updatedAt != item.updatedAt
  }

  /** Some record that is as the client read it is not properly replaced. */
  ghost predicate IncompleteType(records: map<Key, Record>, table: map<Key, Item>, resource: Resource, user: Id) {
    exists k :: k in PersonalKeys(records, resource, user) && k in table && IsIncomplete(records[k], table[k], resource)
  }

  ghost predicate IsIncomplete(record: Record, item: Item, resource: Resource) {
    !IsStale(record, item) && !CompleteReplacement(record, item.fields, resource)
  }

  ghost predicate StaleSomewhere(registry: seq<Resource>, records: map<Key, Record>, items: seq<Item>, user: Id) {
    exists r :: r in registry && StaleType(records, Submitted(items), r, user)
  }

  ghost predicate IncompleteSomewhere(registry: seq<Resource>, records: map<Key, Record>, items: seq<Item>, user: Id) {
    exists r :: r in registry && IncompleteType(records, Submitted(items), r, user)
  }

  lemma StaleRecord(records: map<Key, Record>, table: map<Key, Item>, resource: Resource, user: Id, k: Key)
    requires k in PersonalKeys(records, resource, user) && k in table && IsStale(records[k], table[k])
    ensures StaleType(records, table, resource, user)
  {
  }

  lemma IncompleteRecord(records: map<Key, Record>, table: map<Key, Item>, resource: Resource, user: Id, k: Key)
    requires k in PersonalKeys(records, resource, user) && k in table && IsIncomplete(records[k], table[k], resource)
    ensures IncompleteType(records, table, resource, user)
  {
  }

  /** Replacing other types changes no reason either. */
  lemma OtherKindsGiveNoReason(
    records: map<Key, Record>, table: map<Key, Item>, kinds: set<string>, stamp: string, resource: Resource, user: Id)
    requires resource.kind !in kinds
    ensures var now := ReplacedKinds(records, table, kinds, stamp);
            && (StaleType(now, table, resource, user) <==> StaleType(records, table, resource, user))
            && (IncompleteType(now, table, resource, user) <==> IncompleteType(records, table, resource, user))
  {
    var now := ReplacedKinds(records, table, kinds, stamp);
    assert forall k :: k in records && k.kind == resource.kind ==> now[k] == records[k];
    assert PersonalKeys(now, resource, user) == PersonalKeys(records, resource, user);
    hide ReplacedKinds, IsStale, IsIncomplete;
  }

  // ---------- Steps of the smaller loops ----------

  /** One of the first `n` columns is the base's ciphertext column. */
  predicate IsFoundBy(fields: seq<string>, n: nat, base: string)
    requires n <= |fields|
  {
    CiphertextColumn(base) in fields[..n] && NonceColumn(base) in fields
  }

  lemma NoneFound(fields: seq<string>)
    ensures forall base :: !IsFoundBy(fields, 0, base)
  {
    hide CiphertextColumn, NonceColumn;
  }

  lemma OneMoreField(fields: seq<string>, n: nat)
    requires n < |fields|
    ensures forall base :: IsFoundBy(fields, n + 1, base) <==>
      IsFoundBy(fields, n, base) || (BaseOf(fields[n]) == Some(base) && NonceColumn(base) in fields)
  {
    hide CiphertextColumn, NonceColumn, BaseOf;
    assert fields[..n + 1] == fields[..n] + [fields[n]];
  }

  lemma AllFound(fields: seq<string>)
    ensures forall base :: IsFoundBy(fields, |fields|, base) <==> IsCipherBase(fields, base)
  {
    hide CiphertextColumn, NonceColumn;
    assert fields[..|fields|] == fields;
  }

  function PairColumns(bases: seq<string>): set<string> {
    (set base | base in bases :: CiphertextColumn(base)) + (set base | base in bases :: NonceColumn(base))
  }

  lemma PairColumnsAreCipherColumns(fields: seq<string>, bases: seq<string>)
    requires forall base :: base in bases <==> IsCipherBase(fields, base)
    ensures forall f :: f in PairColumns(bases) <==> IsCipherColumn(fields, f)
  {
    hide CiphertextColumn, NonceColumn, IsCipherBase;
  }

  /** The column checks and the pair checks together are the requirement. */
  lemma CompleteIff(record: Record, fields: map<string, Value>, resource: Resource, bases: seq<string>)
    requires forall base :: base in bases <==> IsCipherBase(resource.fields, base)
    ensures CompleteReplacement(record, fields, resource) <==>
      && (forall f :: f in fields ==> f in PairColumns(bases) && IsReplacementValue(fields[f]))
      && (forall i :: 0 <= i < |bases| ==> PairFits(record, fields, bases[i]))
  {
    PairColumnsAreCipherColumns(resource.fields, bases);
    hide CiphertextColumn, NonceColumn, IsCipherBase, PairFits, PairColumns, IsCipherColumn, IsReplacementValue;
    assert forall i :: 0 <= i < |bases| ==> bases[i] in bases;
  }

  lemma RevokeOnlyLive(tokens: map<string, RefreshToken>, user: Id, keep: string)
    ensures (map h | h in tokens ::
               if tokens[h].userId == user && h != keep && !tokens[h].revoked then tokens[h].(revoked := true) else tokens[h])
         == RevokeOthers(tokens, user, keep)
  {
  }

  lemma DropAllBut(tokens: map<Id, AccessToken>, user: Id, access: Option<Id>)
    ensures (map a | a in tokens && !(tokens[a].userId == user && (access.None? || a != access.value)) :: tokens[a])
         == DropOthers(tokens, user, access)
  {
  }

  // ---------- The service ----------

  class Database {
    const registry: seq<Resource>
    var users: map<Id, User>
    var records: map<Key, Record>
    var refreshTokens: map<string, RefreshToken>
    var accessTokens: map<Id, AccessToken>

    constructor (registry: seq<Resource>, db: Db)
      ensures this.registry == registry && State() == db
    {
      this.registry := registry;
      users, records, refreshTokens, accessTokens := db.users, db.records, db.refreshTokens, db.accessTokens;
    }

    function State(): Db
      reads this
    {
      Db(users, records, refreshTokens, accessTokens)
    }

    /** Roll the transaction back. */
    method Restore(db: Db)
      modifies this
      ensures State() == db
    {
      users, records, refreshTokens, accessTokens := db.users, db.records, db.refreshTokens, db.accessTokens;
    }

    method CipherBases(fields: seq<string>) returns (bases: seq<string>)
      ensures forall base :: base in bases <==> IsCipherBase(fields, base)
    {
      hide CiphertextColumn, NonceColumn, IsFoundBy;
      bases := [];
      var i := 0;
      NoneFound(fields);
      while i < |fields|
        invariant 0 <= i <= |fields|
        invariant forall base :: base in bases <==> IsFoundBy(fields, i, base)
      {
        var base := BaseOf(fields[i]);
        OneMoreField(fields, i);
        if base.Some? && NonceColumn(base.value) in fields {
          bases := bases + [base.value];
        }
        i := i + 1;
      }
      AllFound(fields);
    }

    /** Copy the submitted fields, refusing any that is not a proper value of
        an allowed column. */
    method AllowedFields(fields: map<string, Value>, allowed: set<string>) returns (taken: Option<map<string, Value>>)
      ensures taken.Some? <==> forall f :: f in fields ==> f in allowed && IsReplacementValue(fields[f])
      ensures taken.Some? ==> taken.value == fields
    {
      var replacements: map<string, Value> := map[];
      var todo := fields.Keys;
      while todo != {}
        invariant todo <= fields.Keys
        invariant replacements == map f | f in fields && f !in todo :: fields[f]
        invariant forall f :: f in replacements ==> f in allowed && IsReplacementValue(fields[f])
        decreases |todo|
      {
        var field :| field in todo;
        if field !in allowed || !IsReplacementValue(fields[field]) {
          return None;
        }
        replacements := replacements[field := fields[field]];
        todo := todo - {field};
      }
      assert replacements == fields;
      return Some(replacements);
    }

    method ValidatedCipherFields(record: Record, fields: map<string, Value>, resource: Resource)
      returns (replacements: Option<map<string, Value>>)
      ensures replacements.Some? <==> CompleteReplacement(record, fields, resource)
      ensures replacements.Some? ==> replacements.value == fields
    {
      var bases := CipherBases(resource.fields);
      CompleteIff(record, fields, resource, bases);
      hide CiphertextColumn, NonceColumn, CompleteReplacement, IsCipherBase, PairColumns;
      var allowed := PairColumns(bases);
      replacements := AllowedFields(fields, allowed);
      if replacements.None? {
        return;
      }
      var i := 0;
      while i < |bases|
        invariant 0 <= i <= |bases|
        invariant forall k :: 0 <= k < i ==> PairFits(record, fields, bases[k])
      {
        var hasCiphertext := CiphertextColumn(bases[i]) in fields;
        var hasNonce := NonceColumn(bases[i]) in fields;
        if hasCiphertext != hasNonce {
          return None;
        }
        if Populated(record, CiphertextColumn(bases[i])) && !hasCiphertext {
          return None;
        }
        i := i + 1;
      }
    }

    /** Index the items by record, refusing a record that appears twice. */
    method CollectItems(items: seq<Item>) returns (table: Option<map<Key, Item>>)
      ensures table.Some? <==> DistinctKeys(items)
      ensures table.Some? ==> table.value == Submitted(items)
    {
      var found: map<Key, Item> := map[];
      var i := 0;
      while i < |items|
        invariant 0 <= i <= |items|
        invariant found == Submitted(items[..i])
        invariant DistinctKeys(items[..i])
      {
        SubmittedKeys(items[..i]);
        OneMoreDistinctKey(items, i);
        if items[i].RecordKey() in found {
          return None;
        }
        found := found[items[i].RecordKey() := items[i]];
        i := i + 1;
      }
      assert items[..i] == items;
      return Some(found);
    }

    method ReplaceRecord(k: Key, item: Item, resource: Resource, stamp: string) returns (error: Option<Error>)
      requires k in records
      modifies this`records
      ensures error.None? <==> RecordFits(old(records)[k], item, resource)
      ensures error.None? ==> records == old(records)[k := Saved(old(records)[k], item.fields, stamp)]
      ensures error == Some(Conflict) <==> IsStale(old(records)[k], item)
      ensures error == Some(InvalidItems) <==> IsIncomplete(old(records)[k], item, resource)
      ensures error.Some? ==> error.value == Conflict || error.value == InvalidItems
    {
      if records[k].updatedAt != item.updatedAt {
        return Some(Conflict);
      }
      var replacements := ValidatedCipherFields(records[k], item.fields, resource);
      if replacements.None? {
        return Some(InvalidItems);
      }
      records := records[k := Saved(records[k], replacements.value, stamp)];
      return None;
    }

    /** Check and replace the records of one type. A failure may leave some
        of them already written. */
    method ReplaceType(resource: Resource, table: map<Key, Item>, user: Id, stamp: string)
      returns (r: Result<nat, Error>)
      modifies this`records
      ensures r.Success? <==> TableFits(old(records), table, resource, user)
      ensures r.Success? ==> records == ReplacedKinds(old(records), table, {resource.kind}, stamp)
      ensures r.Success? ==> r.value == |PersonalKeys(old(records), resource, user)|
      ensures r.Failure? ==> r.error == Conflict || r.error == InvalidItems
      ensures r == Failure(Conflict) ==> StaleType(old(records), table, resource, user)
      ensures r == Failure(InvalidItems) ==> IncompleteType(old(records), table, resource, user)
    {
      hide RecordFits, Saved, Replacing, ReplacedKinds, IncompleteType, IsStale, IsIncomplete;
      var current := PersonalKeys(records, resource, user);
      var submitted := set k | k in table && k.kind == resource.kind;
      if current != submitted {
        return Failure(Conflict);
      }
      ghost var before, done := records, {};
      var updated := 0;
      var todo := current;
      StartReplacing(before, table, resource, stamp, current);
      hide PersonalKeys, AllFit, StaleType;
      while todo != {}
        invariant done + todo == current && done !! todo
        invariant updated == |done|
        invariant Replacing(before, records, table, resource, stamp, current, done, todo)
        decreases |todo|
      {
        var k :| k in todo;
        ReplaceStep(before, records, table, resource, stamp, current, done, todo, k);
        var error := ReplaceRecord(k, table[k], resource, stamp);
        if error.Some? {
          if error.value == Conflict {
            StaleRecord(before, table, resource, user, k);
          } else {
            IncompleteRecord(before, table, resource, user, k);
          }
          return Failure(error.value);
        }
        done := done + {k};
        updated := updated + 1;
        todo := todo - {k};
      }
      assert done == current;
      FinishReplacing(before, records, table, resource, stamp, current);
      return Success(updated);
    }

    method ReplacePersonalRecords(user: Id, items: seq<Item>, stamp: string) returns (r: Result<nat, Error>)
      requires DistinctKinds(registry)
      modifies this`records
      ensures r.Success? <==> ItemsFit(registry, old(records), items, user)
      ensures r.Success? ==> records == ReplacedRecords(registry, old(records), items, stamp)
      ensures r.Success? ==> r.value == |AllPersonalKeys(registry, old(records), user)|
      ensures r.Failure? ==> r.error == Conflict || r.error == InvalidItems
      ensures r == Failure(Conflict) ==> DistinctKeys(items) && StaleSomewhere(registry, old(records), items, user)
      ensures r == Failure(InvalidItems) ==> !DistinctKeys(items) || IncompleteSomewhere(registry, old(records), items, user)
      ensures !DistinctKeys(items) ==> r == Failure(InvalidItems)
    {
      hide StaleType, IncompleteType;
      var table := CollectItems(items);
      if table.None? {
        return Failure(InvalidItems);
      }
      ghost var before := records;
      ghost var kinds: set<string> := {};
      var updated := 0;
      var t := 0;
      while t < |registry|
        invariant 0 <= t <= |registry|
        invariant forall kind :: kind in kinds <==> IsRegistered(registry[..t], kind)
        invariant records == ReplacedKinds(before, table.value, kinds, stamp)
        invariant updated == |AllPersonalKeys(registry[..t], before, user)|
        invariant TypesFit(registry[..t], before, items, user)
      {
        var resource := registry[t];
        OneMoreType(registry, t, before, user);
        OneMoreTypeFits(registry, t, before, items, user);
        OtherKindsDoNotMatter(before, table.value, kinds, stamp, resource, user);
        OtherKindsGiveNoReason(before, table.value, kinds, stamp, resource, user);
        TableFitsIffTypeFits(before, items, resource, user);
        var count := ReplaceType(resource, table.value, user, stamp);
        if count.Failure? {
          return count;
        }
        ReplaceOneMoreKind(before, table.value, kinds, resource.kind, stamp);
        kinds := kinds + {resource.kind};
        updated := updated + count.value;
        t := t + 1;
      }
      assert registry[..t] == registry;
      return Success(updated);
    }

    method LockUser(user: Id, expectedVersion: nat) returns (r: Result<User, Error>)
      ensures r == if user !in users then Failure(NotFound)
                   else if users[user].vaultVersion != expectedVersion then Failure(Conflict)
                   else Success(users[user])
    {
      if user !in users {
        return Failure(NotFound);
      }
      if users[user].vaultVersion != expectedVersion {
        return Failure(Conflict);
      }
      return Success(users[user]);
    }

    method LockCurrentRefreshToken(user: Id, hash: string, now: int) returns (fits: bool)
      ensures fits <==> SessionFits(State(), user, hash, now)
    {
      if hash !in refreshTokens || refreshTokens[hash].userId != user {
        return false;
      }
      return Usable(refreshTokens[hash], now);
    }

    /** The master-password change, from the opening of its transaction.
        `access` is the access token of the current request, `now` the clock
        and `stamp` the same instant as a saved row shows it. */
    method RotateMasterPassword(user: Id, access: Option<Id>, p: Payload, now: int, stamp: string)
      returns (r: Result<User, Error>)
      requires DistinctKinds(registry)
      modifies this
      ensures r.Success? <==> RotationAccepted(registry, old(State()), user, p, now)
      ensures r.Success? ==> State() == Rotated(registry, old(State()), user, access, p, stamp) && r.value == users[user]
      ensures r.Failure? ==> State() == old(State())
      ensures r == Failure(NotFound) <==> user !in old(users)
      ensures r == Failure(InvalidSession) <==>
        && user in old(users)
        && old(users)[user].vaultVersion == p.vaultVersion
        && !SessionFits(old(State()), user, p.refreshTokenHash, now)
      ensures user in old(users) && old(users)[user].vaultVersion != p.vaultVersion ==> r == Failure(Conflict)
      ensures r == Failure(Conflict) && old(users)[user].vaultVersion == p.vaultVersion ==>
        DistinctKeys(p.items) && StaleSomewhere(registry, old(records), p.items, user)
      ensures r == Failure(InvalidItems) ==>
        !DistinctKeys(p.items) || IncompleteSomewhere(registry, old(records), p.items, user)
      ensures !DistinctKeys(p.items) && IsOpenTo(old(State()), user, p, now) ==> r == Failure(InvalidItems)
    {
      hide StaleSomewhere, IncompleteSomewhere;
      var saved := State();
      var locked := LockUser(user, p.vaultVersion);
      if locked.Failure? {
        return locked;
      }
      var fits := LockCurrentRefreshToken(user, p.refreshTokenHash, now);
      if !fits {
        return Failure(InvalidSession);
      }
      var updated := ReplacePersonalRecords(user, p.items, stamp);
      if updated.Failure? {
        Restore(saved);
        return Failure(updated.error);
      }
      users := users[user := RotatedUser(locked.value, p)];
      refreshTokens := map h | h in refreshTokens ::
        if refreshTokens[h].userId == user && h != p.refreshTokenHash && !refreshTokens[h].revoked
        then refreshTokens[h].(revoked := true) else refreshTokens[h];
      RevokeOnlyLive(saved.refreshTokens, user, p.refreshTokenHash);
      accessTokens := map a | a in accessTokens && !(accessTokens[a].userId == user && (access.None? || a != access.value)) ::
        accessTokens[a];
      DropAllBut(saved.accessTokens, user, access);
      return Success(users[user]);
    }

    /** Move a legacy private-key envelope to the user-bound associated data. */
    method RebindPrivateKey(user: Id, version: nat, privateKey: Value, nonce: string) returns (r: Result<User, Error>)
      modifies this`users
      ensures r.Success? <==> RebindAccepted(old(State()), user, version)
      ensures r.Success? ==> users == Rebound(old(State()), user, privateKey, nonce).users && r.value == users[user]
      ensures r.Failure? ==> users == old(users)
    {
      var locked := LockUser(user, version);
      if locked.Failure? {
        return locked;
      }
      if locked.value.boundToUserId {
        return Failure(Conflict);
      }
      users := users[user := locked.value.(
        privateKey := privateKey,
        privateKeyNonce := nonce,
        boundToUserId := true,
        vaultVersion := locked.value.vaultVersion + 1)];
      return Success(users[user]);
    }
  }
}
