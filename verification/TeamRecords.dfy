/** Team records and the key they are under.

    A removal exists so that a key the removed member still holds opens no live
    record. Here ordinary record writes are steps beside the team operations.
    The server sees ciphertexts only, so `madeWith` names, for every text, the
    version of its team's key that made it and, for a wrap, the version of the
    key inside it; no operation looks at it. */
module TeamRecords {
  import opened Wrappers
  import opened TeamService
  import opened TeamRuns

  type Tags = string -> nat

  datatype Event =
    | Operate(action: Action)
    | Store(actor: Id, key: Key, team: Id, version: Option<int>, put: map<string, Value>)
    | Change(actor: Id, key: Key, version: Option<int>, put: map<string, Value>)
    | Trash(actor: Id, key: Key)

  predicate IsTeamKind(registry: seq<Resource>, kind: string) {
    exists r :: r in registry && r.kind == kind && r.teamScoped
  }

  /** A live row that a live team owns. */
  predicate IsTeamRow(registry: seq<Resource>, s: State, key: Key) {
    && key in s.records && !s.records[key].trashed
    && s.records[key].teamId.Some? && IsTeamKind(registry, key.kind)
    && IsLive(s, s.records[key].teamId.value)
  }

  /** Writers name the key version they encrypted for. */
  predicate MayWrite(s: State, actor: Id, team: Id, version: Option<int>) {
    && IsLive(s, team)
    && May(s, actor, team, WriteRecords)
    && version == Some(s.teams[team].keyVersion)
  }

  ghost predicate Allowed(registry: seq<Resource>, s: State, e: Event) {
    match e
    case Operate(a) => Accepted(registry, s, a)
    case Store(actor, key, team, version, _) =>
      IsTeamKind(registry, key.kind) && MayWrite(s, actor, team, version) && key !in s.records
    case Change(actor, key, version, _) =>
      IsTeamRow(registry, s, key) && MayWrite(s, actor, s.records[key].teamId.value, version)
    case Trash(actor, key) =>
      IsTeamRow(registry, s, key) && May(s, actor, s.records[key].teamId.value, WriteRecords)
  }

  ghost predicate Outcome(registry: seq<Resource>, s: State, e: Event, s': State) {
    if !Allowed(registry, s, e) then s' == s
    else
      match e
      case Operate(a) => Effect(s, a, s')
      case Store(_, key, team, _, put) =>
        s' == s.(records := s.records[key := Overlaid(Record(Some(team), false, map[]), put)])
      case Change(_, key, _, put) => s' == s.(records := s.records[key := Overlaid(s.records[key], put)])
      case Trash(_, key) => s' == s.(records := s.records[key := s.records[key].(trashed := true)])
  }

  // ---------- Which key a text is under ----------

  predicate IsCiphertext(resource: Resource, column: string) {
    column in resource.fields && EndsWith(column, "_ciphertext")
  }

  predicate HoldsText(columns: map<string, Value>, c: string) {
    c in columns && columns[c].Text? && columns[c].text != ""
  }

  ghost predicate Under(madeWith: Tags, columns: map<string, Value>, resource: Resource, version: int) {
    forall c :: HoldsText(columns, c) && IsCiphertext(resource, c) ==> madeWith(columns[c].text) == version
  }

  ghost predicate RowUnderTeamKey(madeWith: Tags, s: State, record: Record, resource: Resource) {
    record.teamId.Some? ==>
      && record.teamId.value in s.teams
      && (!record.trashed ==> Under(madeWith, record.columns, resource, s.teams[record.teamId.value].keyVersion))
  }

  /** Every ciphertext of every live team record is under its team's current
      key, and so is every team's name. */
  ghost predicate UnderTeamKeys(registry: seq<Resource>, madeWith: Tags, s: State) {
    && (forall r, k :: r in registry && r.teamScoped && k in s.records && k.kind == r.kind ==>
          RowUnderTeamKey(madeWith, s, s.records[k], r))
    && (forall t :: t in s.teams ==> madeWith(s.teams[t].name.ciphertext) == s.teams[t].keyVersion)
  }

  /** Clients encrypt with, and wrap, the key version they name: in a removal the
      next one, else the expected one. */
  ghost predicate IsHonest(registry: seq<Resource>, madeWith: Tags, e: Event) {
    match e
    case Operate(a) =>
      (match a
       case Create(_, _, _, name, wrap) => madeWith(name.ciphertext) == 1 && madeWith(wrap.ciphertext) == 1
       case Update(_, _, expected, name) => madeWith(name.ciphertext) == expected
       case Add(_, _, _, _, _, expected, wrap) => madeWith(wrap.ciphertext) == expected
       case Remove(_, _, _, p) =>
         && madeWith(p.name.ciphertext) == p.expectedKeyVersion + 1
         && (forall i :: 0 <= i < |p.remaining| ==> madeWith(p.remaining[i].wrap.ciphertext) == p.expectedKeyVersion + 1)
         && forall r, i :: r in registry && 0 <= i < |p.resources| ==> Under(madeWith, p.resources[i].fields, r, p.expectedKeyVersion + 1)
       case _ => true)
    case Store(_, _, _, version, put) => version.Some? ==> forall r :: r in registry ==> Under(madeWith, put, r, version.value)
    case Change(_, _, version, put) => version.Some? ==> forall r :: r in registry ==> Under(madeWith, put, r, version.value)
    case Trash(_, _) => true
  }

  // ---------- Every step keeps it ----------

  lemma OverlayKeepsKey(madeWith: Tags, record: Record, put: map<string, Value>, resource: Resource, version: int)
    requires Under(madeWith, record.columns, resource, version) && Under(madeWith, put, resource, version)
    ensures Under(madeWith, Overlaid(record, put).columns, resource, version)
  {
    hide IsCiphertext;
    var now := Overlaid(record, put).columns;
    forall c | HoldsText(now, c) && IsCiphertext(resource, c)
      ensures madeWith(now[c].text) == version
    {
      assert if c in put then HoldsText(put, c) && now[c] == put[c] else HoldsText(record.columns, c) && now[c] == record.columns[c];
    }
  }

  lemma EntryFor(registry: seq<Resource>, s: State, a: Action, s': State, r: Resource, k: Key) returns (entry: Entry)
    requires a.Remove? && Accepted(registry, s, a) && Effect(s, a, s')
    requires r in registry && r.teamScoped && k in s.records && k.kind == r.kind && IsTeamRecord(s.records[k], a.team)
    ensures entry in a.removal.resources && EntryFits(s.records[k], entry, r)
    ensures k in s'.records && s'.records[k] == Overlaid(s.records[k], entry.fields)
  {
    hide EntryFits, May, HasOtherOwner, Rewrapped, RewrapsFit, Overlaid;
    var entries := a.removal.resources;
    assert k in TeamKeys(registry, s.records, a.team);
    hide TeamKeys;
    var i :| 0 <= i < |entries| && entries[i].RecordKey() == k;
    assert EntryAccepted(registry, s.records, a.team, entries[i]);
    entry := entries[i];
  }

  /** In a removal the old texts go away altogether. */
  lemma RemovalMovesRow(
    registry: seq<Resource>, madeWith: Tags, s: State, a: Action, s': State, r: Resource, k: Key)
    requires a.Remove? && Accepted(registry, s, a) && Effect(s, a, s') && IsHonest(registry, madeWith, Operate(a))
    requires r in registry && r.teamScoped && k in s.records && k.kind == r.kind && IsTeamRecord(s.records[k], a.team)
    ensures k in s'.records && Under(madeWith, s'.records[k].columns, r, a.removal.expectedKeyVersion + 1)
  {
    hide Accepted, Effect, EntryFits, Under, Overlaid;
    var entry := EntryFor(registry, s, a, s', r, k);
    EntryMovesRow(madeWith, s.records[k], entry, r, a.removal.expectedKeyVersion + 1);
  }

  lemma EntryMovesRow(madeWith: Tags, record: Record, entry: Entry, r: Resource, version: int)
    requires EntryFits(record, entry, r) && Under(madeWith, entry.fields, r, version)
    ensures Under(madeWith, Overlaid(record, entry.fields).columns, r, version)
  {
    var now := Overlaid(record, entry.fields).columns;
    forall c | HoldsText(now, c) && IsCiphertext(r, c)
      ensures madeWith(now[c].text) == version
    {
      assert IsEncrypted(r, c);
      assert c in record.columns ==> c in EncryptedColumns(record, r) && HasText(entry.fields, c);
      assert HoldsText(entry.fields, c) && now[c] == entry.fields[c];
    }
  }

  lemma RemovalKeepsKeys(registry: seq<Resource>, madeWith: Tags, s: State, a: Action, s': State)
    requires UnderTeamKeys(registry, madeWith, s) && IsHonest(registry, madeWith, Operate(a))
    requires a.Remove? && Accepted(registry, s, a) && Effect(s, a, s')
    ensures UnderTeamKeys(registry, madeWith, s')
  {
    hide Under, May, HasOtherOwner, RewrapsFit, Rewrapped, EntriesFit, RowUnderTeamKey;
    assert s'.records.Keys == s.records.Keys;
    hide Reencrypted;
    forall r, k | r in registry && r.teamScoped && k in s'.records && k.kind == r.kind
      ensures RowUnderTeamKey(madeWith, s', s'.records[k], r)
    {
      RemovalTouchesOnlyTeamRecords(registry, s, a, s', k);
      RemovalKeepsRow(registry, madeWith, s, a, s', r, k);
    }
  }

  lemma RemovalKeepsRow(registry: seq<Resource>, madeWith: Tags, s: State, a: Action, s': State, r: Resource, k: Key)
    requires IsHonest(registry, madeWith, Operate(a)) && a.Remove? && Accepted(registry, s, a) && Effect(s, a, s')
    requires r in registry && r.teamScoped && k in s.records && k in s'.records && k.kind == r.kind
    requires RowUnderTeamKey(madeWith, s, s.records[k], r)
    ensures RowUnderTeamKey(madeWith, s', s'.records[k], r)
  {
    RemovalTouchesOnlyTeamRecords(registry, s, a, s', k);
    hide Under, May, HasOtherOwner, RewrapsFit, Rewrapped, EntriesFit, Reencrypted;
    if IsTeamRecord(s.records[k], a.team) {
      RemovalMovesRow(registry, madeWith, s, a, s', r, k);
    } else {
      OtherRowsStay(registry, s, a, s', k);
    }
  }

  lemma OtherRowsStay(registry: seq<Resource>, s: State, a: Action, s': State, k: Key)
    requires a.Remove? && Accepted(registry, s, a) && Effect(s, a, s') && k in s.records
    requires !IsTeamRecord(s.records[k], a.team)
    ensures k in s'.records && s'.records[k] == s.records[k]
  {
    RemovalTouchesOnlyTeamRecords(registry, s, a, s', k);
    assert k !in TeamKeys(registry, s.records, a.team);
  }

  lemma OtherOperationsKeepKeys(registry: seq<Resource>, madeWith: Tags, s: State, a: Action, s': State)
    requires UnderTeamKeys(registry, madeWith, s) && IsHonest(registry, madeWith, Operate(a))
    requires !a.Remove? && Accepted(registry, s, a) && Effect(s, a, s')
    ensures UnderTeamKeys(registry, madeWith, s')
  {
    hide Under, May, HasOtherOwner;
    forall r, k | r in registry && r.teamScoped && k in s'.records && k.kind == r.kind
      ensures RowUnderTeamKey(madeWith, s', s'.records[k], r)
    {
      assert RowUnderTeamKey(madeWith, s, s.records[k], r);
    }
  }

  lemma WritesKeepKeys(registry: seq<Resource>, madeWith: Tags, s: State, e: Event, s': State)
    requires UnderTeamKeys(registry, madeWith, s) && IsHonest(registry, madeWith, e)
    requires !e.Operate? && Allowed(registry, s, e) && Outcome(registry, s, e, s')
    ensures UnderTeamKeys(registry, madeWith, s')
  {
    hide Under, May, Overlaid;
    forall r, k | r in registry && r.teamScoped && k in s'.records && k.kind == r.kind
      ensures RowUnderTeamKey(madeWith, s', s'.records[k], r)
    {
      if k in s.records {
        assert RowUnderTeamKey(madeWith, s, s.records[k], r);
      }
      if k == e.key {
        WrittenRow(registry, madeWith, s, e, s', r);
      }
    }
  }

  lemma WrittenRow(registry: seq<Resource>, madeWith: Tags, s: State, e: Event, s': State, r: Resource)
    requires UnderTeamKeys(registry, madeWith, s) && IsHonest(registry, madeWith, e)
    requires !e.Operate? && Allowed(registry, s, e) && Outcome(registry, s, e, s')
    requires r in registry && r.teamScoped && e.key.kind == r.kind
    ensures e.key in s'.records && RowUnderTeamKey(madeWith, s', s'.records[e.key], r)
  {
    hide May;
    if e.Store? {
      OverlayKeepsKey(madeWith, Record(Some(e.team), false, map[]), e.put, r, e.version.value);
    } else {
      assert RowUnderTeamKey(madeWith, s, s.records[e.key], r);
      if e.Change? {
        OverlayKeepsKey(madeWith, s.records[e.key], e.put, r, e.version.value);
      }
    }
  }

  lemma StepKeepsKeys(registry: seq<Resource>, madeWith: Tags, s: State, e: Event, s': State)
    requires UnderTeamKeys(registry, madeWith, s) && IsHonest(registry, madeWith, e) && Outcome(registry, s, e, s')
    ensures UnderTeamKeys(registry, madeWith, s')
  {
    hide UnderTeamKeys, IsHonest, Accepted, Effect;
    if Allowed(registry, s, e) {
      if !e.Operate? {
        WritesKeepKeys(registry, madeWith, s, e, s');
      } else if e.action.Remove? {
        RemovalKeepsKeys(registry, madeWith, s, e.action, s');
      } else {
        OtherOperationsKeepKeys(registry, madeWith, s, e.action, s');
      }
    }
  }

  // ---------- Runs ----------

  ghost predicate IsHistory(registry: seq<Resource>, madeWith: Tags, states: seq<State>, events: seq<Event>) {
    && |states| == |events| + 1
    && forall i :: 0 <= i < |events| ==> IsHonest(registry, madeWith, events[i]) && Outcome(registry, states[i], events[i], states[i + 1])
  }

  lemma {:induction false} AlwaysUnderTheTeamKey(
    registry: seq<Resource>, madeWith: Tags, states: seq<State>, events: seq<Event>, i: nat)
    requires IsHistory(registry, madeWith, states, events) && i < |states|
    requires UnderTeamKeys(registry, madeWith, states[0])
    ensures UnderTeamKeys(registry, madeWith, states[i])
  {
    if i > 0 {
      AlwaysUnderTheTeamKey(registry, madeWith, states, events, i - 1);
      StepKeepsKeys(registry, madeWith, states[i - 1], events[i - 1], states[i]);
    }
  }

  lemma {:induction false} KeyVersionNeverFalls(
    registry: seq<Resource>, madeWith: Tags, states: seq<State>, events: seq<Event>, team: Id, i: nat, j: nat)
    requires IsHistory(registry, madeWith, states, events) && i <= j < |states| && team in states[i].teams
    ensures team in states[j].teams && states[i].teams[team].keyVersion <= states[j].teams[team].keyVersion
    decreases j
  {
    hide EntriesFit, Reencrypted, RewrapsFit, Rewrapped, May, HasOtherOwner, Overlaid, IsHonest;
    if i < j {
      KeyVersionNeverFalls(registry, madeWith, states, events, team, i, j - 1);
      assert Outcome(registry, states[j - 1], events[j - 1], states[j]);
    }
  }

  /** At every later moment no live record of the team, and not its name, holds
      a text made with a key the removed member had. */
  lemma RemovedMembersKeyOpensNothing(
    registry: seq<Resource>, madeWith: Tags, states: seq<State>, events: seq<Event>, i: nat, j: nat,
    r: Resource, k: Key, column: string)
    requires IsHistory(registry, madeWith, states, events) && i < j < |states|
    requires UnderTeamKeys(registry, madeWith, states[0])
    requires events[i].Operate? && events[i].action.Remove? && Accepted(registry, states[i], events[i].action)
    requires r in registry && r.teamScoped && k in states[j].records && k.kind == r.kind
    requires IsTeamRecord(states[j].records[k], events[i].action.team)
    requires HoldsText(states[j].records[k].columns, column) && IsCiphertext(r, column)
    ensures madeWith(states[j].records[k].columns[column].text) > states[i].teams[events[i].action.team].keyVersion
    ensures events[i].action.team in states[j].teams
    ensures madeWith(states[j].teams[events[i].action.team].name.ciphertext) > states[i].teams[events[i].action.team].keyVersion
  {
    var team := events[i].action.team;
    AlwaysUnderTheTeamKey(registry, madeWith, states, events, j);
    assert RowUnderTeamKey(madeWith, states[j], states[j].records[k], r);
    assert Outcome(registry, states[i], events[i], states[i + 1]);
    hide EntriesFit, Reencrypted, RewrapsFit, Rewrapped, May, HasOtherOwner, IsHonest;
    assert states[i + 1].teams[team].keyVersion == states[i].teams[team].keyVersion + 1;
    hide IsHistory, Accepted, Effect, Outcome, UnderTeamKeys;
    KeyVersionNeverFalls(registry, madeWith, states, events, team, i + 1, j);
  }

  // ---------- The controller ----------

  method CheckTeamKeyVersion(db: TeamDatabase, team: Id, version: Option<int>) returns (error: Option<Error>)
    requires team in db.teams
    ensures error == if version.None? then Some(Invalid)
                     else if db.teams[team].keyVersion != version.value then Some(Conflict)
                     else None
  {
    if version.None? {
      return Some(Invalid);
    }
    if db.teams[team].keyVersion != version.value {
      return Some(Conflict);
    }
    return None;
  }

  /** The writer may write for the team and named another key version. */
  predicate IsStale(s: State, actor: Id, team: Id, version: Option<int>) {
    IsLive(s, team) && May(s, actor, team, WriteRecords) && version.Some? && s.teams[team].keyVersion != version.value
  }

  method StoreTeamRecord(db: TeamDatabase, actor: Id, key: Key, team: Id, version: Option<int>, put: map<string, Value>)
    returns (error: Option<Error>)
    requires Schema(db.Tables())
    modifies db
    ensures error.None? <==> Allowed(db.registry, old(db.Tables()), Store(actor, key, team, version, put))
    ensures Outcome(db.registry, old(db.Tables()), Store(actor, key, team, version, put), db.Tables())
    ensures IsTeamKind(db.registry, key.kind) ==> (error == Some(Conflict) <==> IsStale(old(db.Tables()), actor, team, version))
  {
    hide Schema;
    if !IsTeamKind(db.registry, key.kind) {
      return Some(Invalid);
    }
    if team !in db.teams || db.teams[team].trashed {
      return Some(NotFound);
    }
    if !HasMember(db.Tables(), team, actor) {
      NoRightWithoutMembership(db.Tables(), actor, team, WriteRecords);
      return Some(Invalid);
    }
    var membership := db.RequireTeamAction(actor, team, WriteRecords);
    if membership.None? {
      return Some(Forbidden);
    }
    error := CheckTeamKeyVersion(db, team, version);
    if error.Some? {
      return;
    }
    if key in db.records {
      return Some(DuplicateId);
    }
    db.records := db.records[key := Overlaid(Record(Some(team), false, map[]), put)];
  }

  lemma NoRightWithoutMembership(s: State, user: Id, team: Id, p: Permission)
    requires !HasMember(s, team, user)
    ensures !May(s, user, team, p)
  {
    forall m | m in s.members
      ensures !HasRight(s.members[m], team, user, p)
    {
      assert !IsMemberOf(s.members[m], team, user);
    }
  }

  method UpdateTeamRecord(db: TeamDatabase, actor: Id, key: Key, version: Option<int>, put: map<string, Value>)
    returns (error: Option<Error>)
    requires Schema(db.Tables())
    requires key in db.records ==> db.records[key].teamId.Some? && IsTeamKind(db.registry, key.kind)
    modifies db
    ensures error.None? <==> Allowed(db.registry, old(db.Tables()), Change(actor, key, version, put))
    ensures Outcome(db.registry, old(db.Tables()), Change(actor, key, version, put), db.Tables())
    ensures IsTeamRow(db.registry, old(db.Tables()), key) ==>
      (error == Some(Conflict) <==> IsStale(old(db.Tables()), actor, old(db.records)[key].teamId.value, version))
  {
    hide Schema;
    if key !in db.records || db.records[key].trashed {
      return Some(NotFound);
    }
    var team := db.records[key].teamId.value;
    if team !in db.teams || db.teams[team].trashed {
      return Some(NotFound);
    }
    var membership := db.RequireTeamAction(actor, team, WriteRecords);
    if membership.None? {
      return Some(Forbidden);
    }
    error := CheckTeamKeyVersion(db, team, version);
    if error.Some? {
      return;
    }
    db.records := db.records[key := Overlaid(db.records[key], put)];
  }

  method TrashTeamRecord(db: TeamDatabase, actor: Id, key: Key) returns (error: Option<Error>)
    requires Schema(db.Tables())
    requires key in db.records ==> db.records[key].teamId.Some? && IsTeamKind(db.registry, key.kind)
    modifies db
    ensures error.None? <==> Allowed(db.registry, old(db.Tables()), Trash(actor, key))
    ensures Outcome(db.registry, old(db.Tables()), Trash(actor, key), db.Tables())
  {
    hide Schema;
    if key !in db.records || db.records[key].trashed {
      return Some(NotFound);
    }
    var team := db.records[key].teamId.value;
    if team !in db.teams || db.teams[team].trashed {
      return Some(NotFound);
    }
    var membership := db.RequireTeamAction(actor, team, WriteRecords);
    if membership.None? {
      return Some(Forbidden);
    }
    db.records := db.records[key := db.records[key].(trashed := true)];
    return None;
  }
}
