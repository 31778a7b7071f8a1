/** Teams, memberships and the team-key rotation that removing a member is. */
module TeamService {
  import opened Wrappers

  type Id = string

  datatype Role = Owner | Admin | Member | Viewer

  datatype Permission = ReadRecords | WriteRecords | ConnectHosts | UpdateTeam | ManageMembers | AssignOwner | DeleteTeam

  predicate Allows(role: Role, p: Permission) {
    match role
    case Owner => true
    case Admin => p != AssignOwner && p != DeleteTeam
    case Member => p == ReadRecords || p == WriteRecords || p == ConnectHosts
    case Viewer => p == ReadRecords
  }

  datatype Value = Text(text: string) | Null | Other(tag: int)

  datatype Key = Key(kind: string, id: Id)

  /** A column that is absent from `columns` is SQL NULL. */
  datatype Record = Record(teamId: Option<Id>, trashed: bool, columns: map<string, Value>)

  datatype Resource = Resource(kind: string, fields: seq<string>, teamScoped: bool)

  datatype Cipher = Cipher(ciphertext: string, nonce: string)

  datatype Team = Team(name: Cipher, keyVersion: nat, trashed: bool)

  datatype Membership = Membership(teamId: Id, userId: Id, role: Role, wrap: Cipher, keyVersion: nat)

  datatype Account = Account(suspended: bool)

  datatype State = State(
    users: map<Id, Account>,
    teams: map<Id, Team>,
    members: map<Id, Membership>,
    records: map<Key, Record>)

  datatype Rewrap = Rewrap(memberId: Id, wrap: Cipher)

  datatype Entry = Entry(kind: string, id: Id, original: map<string, Value>, fields: map<string, Value>)
  {
    function RecordKey(): Key {
      Key(kind, id)
    }
  }

  datatype Removal = Removal(
    expectedKeyVersion: int,
    expectedName: Cipher,
    name: Cipher,
    remaining: seq<Rewrap>,
    resources: seq<Entry>)

  datatype Error = NotFound | Forbidden | Conflict | Invalid | DuplicateId

  // ---------- Reading the tables ----------

  /** What the schema guarantees: a membership belongs to a team row, and a
      user has at most one membership in a team. */
  ghost predicate Schema(s: State) {
    && (forall m :: m in s.members ==> s.members[m].teamId in s.teams)
    && (forall m, n :: m in s.members && n in s.members && m != n ==>
          !(s.members[m].teamId == s.members[n].teamId && s.members[m].userId == s.members[n].userId))
  }

  predicate IsLive(s: State, team: Id) {
    team in s.teams && !s.teams[team].trashed
  }

  predicate HasRight(m: Membership, team: Id, user: Id, p: Permission) {
    m.teamId == team && m.userId == user && Allows(m.role, p)
  }

  predicate May(s: State, user: Id, team: Id, p: Permission) {
    exists m :: m in s.members && HasRight(s.members[m], team, user, p)
  }

  predicate IsMemberOf(m: Membership, team: Id, user: Id) {
    m.teamId == team && m.userId == user
  }

  predicate IsOwnerOf(m: Membership, team: Id) {
    m.teamId == team && m.role == Owner
  }

  predicate HasMember(s: State, team: Id, user: Id) {
    exists m :: m in s.members && IsMemberOf(s.members[m], team, user)
  }

  predicate HasOtherOwner(s: State, team: Id, but: Id) {
    exists m :: m in s.members && m != but && IsOwnerOf(s.members[m], team)
  }

  function Remaining(s: State, team: Id, but: Id): set<Id> {
    set m | m in s.members && m != but && s.members[m].teamId == team
  }

  predicate EndsWith(text: string, suffix: string) {
    |text| >= |suffix| && text[|text| - |suffix|..] == suffix
  }

  predicate IsEncrypted(resource: Resource, column: string) {
    column in resource.fields && (EndsWith(column, "_ciphertext") || EndsWith(column, "_nonce"))
  }

  /** The live records the team's key protects. */
  function TeamKeys(registry: seq<Resource>, records: map<Key, Record>, team: Id): set<Key> {
    set k, r | r in registry && k in records && r.teamScoped && r.kind == k.kind && IsTeamRecord(records[k], team) :: k
  }

  predicate IsTeamRecord(record: Record, team: Id) {
    record.teamId == Some(team) && !record.trashed
  }

  function EncryptedColumns(record: Record, resource: Resource): map<string, Value> {
    map c | c in record.columns && IsEncrypted(resource, c) :: record.columns[c]
  }

  // ---------- What a removal must bring, stated without loops ----------

  ghost predicate DistinctMembers(rewraps: seq<Rewrap>) {
    forall i, j :: 0 <= i < j < |rewraps| ==> rewraps[i].memberId != rewraps[j].memberId
  }

  function MemberIds(rewraps: seq<Rewrap>): set<Id> {
    set i | 0 <= i < |rewraps| :: rewraps[i].memberId
  }

  ghost predicate RewrapsFit(s: State, team: Id, but: Id, rewraps: seq<Rewrap>) {
    DistinctMembers(rewraps) && MemberIds(rewraps) == Remaining(s, team, but)
  }

  ghost predicate DistinctKeys(entries: seq<Entry>) {
    forall i, j :: 0 <= i < j < |entries| ==> entries[i].RecordKey() != entries[j].RecordKey()
  }

  function KeysOf(entries: seq<Entry>): set<Key> {
    set i | 0 <= i < |entries| :: entries[i].RecordKey()
  }

  predicate HasText(fields: map<string, Value>, f: string) {
    f in fields && fields[f].Text? && fields[f].text != ""
  }

  /** Only encrypted columns are touched, the client saw the current values,
      and every populated one is replaced by a non-empty text. */
  predicate EntryFits(record: Record, entry: Entry, resource: Resource) {
    && (forall f :: f in entry.fields ==> IsEncrypted(resource, f))
    && entry.original == EncryptedColumns(record, resource)
    && (forall f :: f in EncryptedColumns(record, resource) ==> HasText(entry.fields, f))
  }

  ghost predicate EntryAccepted(registry: seq<Resource>, records: map<Key, Record>, team: Id, entry: Entry) {
    && entry.RecordKey() in TeamKeys(registry, records, team)
    && forall r :: r in registry && r.kind == entry.kind ==> EntryFits(records[entry.RecordKey()], entry, r)
  }

  ghost predicate AllAccepted(registry: seq<Resource>, records: map<Key, Record>, team: Id, entries: seq<Entry>) {
    forall i :: 0 <= i < |entries| ==> EntryAccepted(registry, records, team, entries[i])
  }

  ghost predicate EntriesFit(registry: seq<Resource>, records: map<Key, Record>, team: Id, entries: seq<Entry>) {
    && DistinctKeys(entries)
    && AllAccepted(registry, records, team, entries)
    && TeamKeys(registry, records, team) <= KeysOf(entries)
  }

  function Overlaid(record: Record, fields: map<string, Value>): Record {
    record.(columns := (record.columns - fields.Keys) + map f | f in fields && !fields[f].Null? :: fields[f])
  }

  /** Each entry's record is overlaid with its fields and no other differs. */
  ghost predicate Reencrypted(before: map<Key, Record>, after: map<Key, Record>, entries: seq<Entry>) {
    && after.Keys == before.Keys
    && (forall k :: k in before && k !in KeysOf(entries) ==> after[k] == before[k])
    && (forall i :: 0 <= i < |entries| ==>
         && entries[i].RecordKey() in before
         && after[entries[i].RecordKey()] == Overlaid(before[entries[i].RecordKey()], entries[i].fields))
  }

  /** Each rewrapped membership carries its submitted wrap at `version`, and
      no other differs. */
  ghost predicate Rewrapped(before: map<Id, Membership>, after: map<Id, Membership>, rewraps: seq<Rewrap>, version: nat) {
    && after.Keys == before.Keys
    && (forall m :: m in before && m !in MemberIds(rewraps) ==> after[m] == before[m])
    && (forall i :: 0 <= i < |rewraps| ==>
         && rewraps[i].memberId in before
         && after[rewraps[i].memberId] == before[rewraps[i].memberId].(wrap := rewraps[i].wrap, keyVersion := version))
  }

  // ---------- The operations as relations between states ----------

  datatype Action =
    | Create(actor: Id, team: Id, member: Id, name: Cipher, wrap: Cipher)
    | Update(actor: Id, team: Id, expectedKeyVersion: int, name: Cipher)
    | Delete(actor: Id, team: Id)
    | Add(actor: Id, team: Id, member: Id, user: Id, role: Role, expectedKeyVersion: int, wrap: Cipher)
    | ChangeRole(actor: Id, team: Id, member: Id, role: Role)
    | Remove(actor: Id, team: Id, member: Id, removal: Removal)

  ghost predicate Accepted(registry: seq<Resource>, s: State, a: Action) {
    match a
    case Create(_, team, member, _, _) => team !in s.teams && member !in s.members
    case Update(actor, team, expected, _) =>
      IsLive(s, team) && May(s, actor, team, UpdateTeam) && s.teams[team].keyVersion == expected
    case Delete(actor, team) => IsLive(s, team) && May(s, actor, team, DeleteTeam)
    case Add(actor, team, member, user, role, expected, _) =>
      && IsLive(s, team)
      && May(s, actor, team, ManageMembers)
      && s.teams[team].keyVersion == expected
      && (role == Owner ==> May(s, actor, team, AssignOwner))
      && user in s.users && !s.users[user].suspended
      && !HasMember(s, team, user)
      && member !in s.members
    case ChangeRole(actor, team, member, role) =>
      && IsLive(s, team)
      && May(s, actor, team, ManageMembers)
      && member in s.members && s.members[member].teamId == team
      && (role == Owner ==> May(s, actor, team, AssignOwner))
      && (s.members[member].role == Owner && role != Owner ==> HasOtherOwner(s, team, member))
    case Remove(actor, team, member, p) =>
      && IsLive(s, team)
      && May(s, actor, team, ManageMembers)
      && member in s.members && s.members[member].teamId == team
      && (s.members[member].role == Owner ==> HasOtherOwner(s, team, member))
      && s.teams[team].keyVersion == p.expectedKeyVersion
      && s.teams[team].name == p.expectedName
      && RewrapsFit(s, team, member, p.remaining)
      && EntriesFit(registry, s.records, team, p.resources)
  }

  ghost predicate Effect(s: State, a: Action, s': State)
    requires a.Update? || a.Delete? || a.Add? || a.Remove? ==> a.team in s.teams
    requires a.ChangeRole? || a.Remove? ==> a.member in s.members
  {
    match a
    case Create(actor, team, member, name, wrap) =>
      s' == s.(teams := s.teams[team := Team(name, 1, false)],
               members := s.members[member := Membership(team, actor, Owner, wrap, 1)])
    case Update(_, team, _, name) => s' == s.(teams := s.teams[team := s.teams[team].(name := name)])
    case Delete(_, team) => s' == s.(teams := s.teams[team := s.teams[team].(trashed := true)])
    case Add(_, team, member, user, role, _, wrap) =>
      s' == s.(members := s.members[member := Membership(team, user, role, wrap, s.teams[team].keyVersion)])
    case ChangeRole(_, _, member, role) => s' == s.(members := s.members[member := s.members[member].(role := role)])
    case Remove(_, team, member, p) =>
      var version := s.teams[team].keyVersion + 1;
      && s'.users == s.users
      && s'.teams == s.teams[team := s.teams[team].(keyVersion := version, name := p.name)]
      && Rewrapped(s.members - {member}, s'.members, p.remaining, version)
      && Reencrypted(s.records, s'.records, p.resources)
  }

  /** An operation either takes effect or leaves the tables as they were. */
  ghost predicate Step(registry: seq<Resource>, s: State, a: Action, s': State) {
    if Accepted(registry, s, a) then Effect(s, a, s') else s' == s
  }

  // ---------- Steps of the loops ----------

  lemma OneMoreEntry(registry: seq<Resource>, records: map<Key, Record>, team: Id, entries: seq<Entry>, n: nat)
    requires n < |entries|
    ensures KeysOf(entries[..n + 1]) == KeysOf(entries[..n]) + {entries[n].RecordKey()}
    ensures DistinctKeys(entries[..n + 1]) <==> DistinctKeys(entries[..n]) && entries[n].RecordKey() !in KeysOf(entries[..n])
    ensures AllAccepted(registry, records, team, entries[..n + 1])
       <==> AllAccepted(registry, records, team, entries[..n]) && EntryAccepted(registry, records, team, entries[n])
    ensures EntriesFit(registry, records, team, entries) ==>
      DistinctKeys(entries[..n + 1]) && EntryAccepted(registry, records, team, entries[n])
  {
    hide TeamKeys, EntryAccepted;
    var less, more := entries[..n], entries[..n + 1];
    assert more == less + [entries[n]];
    KeysOfAppended(less, entries[n]);
    DistinctAppended(less, entries[n]);
  }

  lemma KeysOfAppended(entries: seq<Entry>, entry: Entry)
    ensures KeysOf(entries + [entry]) == KeysOf(entries) + {entry.RecordKey()}
  {
    forall k
      ensures k in KeysOf(entries + [entry]) <==> k in KeysOf(entries) + {entry.RecordKey()}
    {
      if k in KeysOf(entries) {
        var i :| 0 <= i < |entries| && entries[i].RecordKey() == k;
        assert (entries + [entry])[i].RecordKey() == k;
      }
      if k == entry.RecordKey() {
        assert (entries + [entry])[|entries|].RecordKey() == k;
      }
    }
  }

  lemma DistinctAppended(entries: seq<Entry>, entry: Entry)
    ensures DistinctKeys(entries + [entry]) <==> DistinctKeys(entries) && entry.RecordKey() !in KeysOf(entries)
  {
    var more := entries + [entry];
    if entry.RecordKey() in KeysOf(entries) {
      var j :| 0 <= j < |entries| && entries[j].RecordKey() == entry.RecordKey();
      assert more[j].RecordKey() == more[|entries|].RecordKey();
    }
    if DistinctKeys(entries) && entry.RecordKey() !in KeysOf(entries) {
      forall i, j | 0 <= i < j < |more|
        ensures more[i].RecordKey() != more[j].RecordKey()
      {
        assert entries[i].RecordKey() in KeysOf(entries);
      }
    }
    if DistinctKeys(more) {
      forall i, j | 0 <= i < j < |entries|
        ensures entries[i].RecordKey() != entries[j].RecordKey()
      {
        assert more[i].RecordKey() != more[j].RecordKey();
      }
    }
  }

  lemma ReencryptOneMore(before: map<Key, Record>, mid: map<Key, Record>, entries: seq<Entry>, n: nat)
    requires n < |entries| && Reencrypted(before, mid, entries[..n])
    requires entries[n].RecordKey() in before && entries[n].RecordKey() !in KeysOf(entries[..n])
    ensures mid[entries[n].RecordKey()] == before[entries[n].RecordKey()]
    ensures Reencrypted(before, mid[entries[n].RecordKey() := Overlaid(mid[entries[n].RecordKey()], entries[n].fields)], entries[..n + 1])
  {
    hide Overlaid;
    var k := entries[n].RecordKey();
    var more := entries[..n + 1];
    assert more == entries[..n] + [entries[n]];
    KeysOfAppended(entries[..n], entries[n]);
    forall i | 0 <= i < |more|
      ensures more[i].RecordKey() in before
      ensures mid[k := Overlaid(mid[k], entries[n].fields)][more[i].RecordKey()] == Overlaid(before[more[i].RecordKey()], more[i].fields)
    {
      if i < n {
        assert entries[..n][i] == more[i];
        assert entries[..n][i].RecordKey() in KeysOf(entries[..n]);
      }
    }
  }

  lemma {:induction false} DistinctIffCounted(rewraps: seq<Rewrap>)
    ensures |MemberIds(rewraps)| <= |rewraps|
    ensures DistinctMembers(rewraps) <==> |MemberIds(rewraps)| == |rewraps|
  {
    if rewraps == [] {
    } else {
      var n := |rewraps| - 1;
      var less := rewraps[..n];
      DistinctIffCounted(less);
      MemberIdsAppended(less, rewraps[n]);
      assert rewraps == less + [rewraps[n]];
      if rewraps[n].memberId in MemberIds(less) {
        var j :| 0 <= j < n && less[j].memberId == rewraps[n].memberId;
        assert rewraps[j].memberId == rewraps[n].memberId;
        assert MemberIds(rewraps) == MemberIds(less);
      } else {
        assert forall i :: 0 <= i < n ==> rewraps[i] == less[i] && less[i].memberId in MemberIds(less);
      }
    }
  }

  lemma MemberIdsAppended(rewraps: seq<Rewrap>, rewrap: Rewrap)
    ensures MemberIds(rewraps + [rewrap]) == MemberIds(rewraps) + {rewrap.memberId}
  {
    forall m
      ensures m in MemberIds(rewraps + [rewrap]) <==> m in MemberIds(rewraps) + {rewrap.memberId}
    {
      if m in MemberIds(rewraps) {
        var i :| 0 <= i < |rewraps| && rewraps[i].memberId == m;
        assert (rewraps + [rewrap])[i].memberId == m;
      }
      if m == rewrap.memberId {
        assert (rewraps + [rewrap])[|rewraps|].memberId == m;
      }
    }
  }

  /** Each type is registered once. */
  ghost predicate DistinctKinds(registry: seq<Resource>) {
    forall i, j :: 0 <= i < j < |registry| ==> registry[i].kind != registry[j].kind
  }

  function RewrappedBy(members: map<Id, Membership>, ids: set<Id>, table: map<Id, Cipher>, version: nat): map<Id, Membership> {
    map m | m in members ::
      if m in ids && m in table then members[m].(wrap := table[m], keyVersion := version) else members[m]
  }

  lemma RewrappedByTable(members: map<Id, Membership>, but: Id, rewraps: seq<Rewrap>, table: map<Id, Cipher>, version: nat)
    requires table.Keys == MemberIds(rewraps) && table.Keys <= members.Keys && but !in table
    requires forall i :: 0 <= i < |rewraps| ==> rewraps[i].memberId in table && table[rewraps[i].memberId] == rewraps[i].wrap
    ensures Rewrapped(members - {but}, RewrappedBy(members, table.Keys, table, version) - {but}, rewraps, version)
  {
  }

  lemma OneResource(registry: seq<Resource>, resource: Resource)
    requires DistinctKinds(registry) && resource in registry
    ensures forall r :: r in registry && r.kind == resource.kind ==> r == resource
  {
  }

  lemma TeamKeysOfOneMoreType(registry: seq<Resource>, i: nat, records: map<Key, Record>, team: Id)
    requires i < |registry|
    ensures TeamKeys(registry[..i + 1], records, team) == TeamKeys(registry[..i], records, team) +
      if registry[i].teamScoped then set k | k in records && k.kind == registry[i].kind && IsTeamRecord(records[k], team) else {}
  {
    assert registry[..i + 1] == registry[..i] + [registry[i]];
  }

  lemma RightsComeWithMembership(s: State, user: Id, team: Id, p: Permission)
    ensures May(s, user, team, p) ==> HasMember(s, team, user)
  {
    if May(s, user, team, p) {
      var m :| m in s.members && HasRight(s.members[m], team, user, p);
      assert IsMemberOf(s.members[m], team, user);
    }
  }

  /** A user's one membership decides all of the user's rights in a team. */
  lemma OneMembership(s: State, user: Id, team: Id, m: Id, p: Permission)
    requires Schema(s) && m in s.members && IsMemberOf(s.members[m], team, user)
    ensures May(s, user, team, p) <==> Allows(s.members[m].role, p)
  {
    if Allows(s.members[m].role, p) {
      assert HasRight(s.members[m], team, user, p);
    }
  }

  // ---------- The service ----------

  class TeamDatabase {
    const registry: seq<Resource>
    var users: map<Id, Account>
    var teams: map<Id, Team>
    var members: map<Id, Membership>
    var records: map<Key, Record>

    constructor (registry: seq<Resource>, s: State)
      ensures this.registry == registry && Tables() == s
    {
      this.registry := registry;
      users, teams, members, records := s.users, s.teams, s.members, s.records;
    }

    function Tables(): State
      reads this
    {
      State(users, teams, members, records)
    }

    /** Roll the transaction back. */
    method Restore(s: State)
      modifies this
      ensures Tables() == s
    {
      users, teams, members, records := s.users, s.teams, s.members, s.records;
    }

    method RequireTeamAction(actor: Id, team: Id, p: Permission) returns (membership: Option<Id>)
      requires Schema(Tables())
      ensures membership.Some? <==> May(Tables(), actor, team, p)
      ensures membership.Some? ==> membership.value in members && HasRight(members[membership.value], team, actor, p)
    {
      RightsComeWithMembership(Tables(), actor, team, p);
      if !exists m :: m in members && IsMemberOf(members[m], team, actor) {
        return None;
      }
      var m :| m in members && IsMemberOf(members[m], team, actor);
      OneMembership(Tables(), actor, team, m, p);
      return if Allows(members[m].role, p) then Some(m) else None;
    }

    method AssertNotLastOwner(team: Id, member: Id) returns (ok: bool)
      ensures ok <==> HasOtherOwner(Tables(), team, member)
    {
      var owners := set m | m in members && m != member && IsOwnerOf(members[m], team);
      assert HasOtherOwner(Tables(), team, member) <==> owners != {} by {
        if owners != {} {
          var m :| m in owners;
          assert IsOwnerOf(members[m], team);
        }
        if HasOtherOwner(Tables(), team, member) {
          var m :| m in members && m != member && IsOwnerOf(members[m], team);
          assert m in owners;
        }
      }
      return |owners| >= 1;
    }

    method Create(actor: Id, team: Id, member: Id, name: Cipher, wrap: Cipher) returns (error: Option<Error>)
      requires Schema(Tables())
      modifies this
      ensures error.None? <==> Accepted(registry, old(Tables()), Action.Create(actor, team, member, name, wrap))
      ensures Step(registry, old(Tables()), Action.Create(actor, team, member, name, wrap), Tables())
    {
      var saved := Tables();
      if team in teams {
        return Some(DuplicateId);
      }
      teams := teams[team := Team(name, 1, false)];
      if member in members {
        Restore(saved);
        return Some(DuplicateId);
      }
      members := members[member := Membership(team, actor, Owner, wrap, 1)];
      return None;
    }

    method Update(actor: Id, team: Id, expectedKeyVersion: int, name: Cipher) returns (error: Option<Error>)
      requires Schema(Tables())
      modifies this`teams
      ensures error.None? <==> Accepted(registry, old(Tables()), Action.Update(actor, team, expectedKeyVersion, name))
      ensures Step(registry, old(Tables()), Action.Update(actor, team, expectedKeyVersion, name), Tables())
    {
      if team !in teams || teams[team].trashed {
        return Some(NotFound);
      }
      var membership := RequireTeamAction(actor, team, UpdateTeam);
      if membership.None? {
        return Some(Forbidden);
      }
      if teams[team].keyVersion != expectedKeyVersion {
        return Some(Conflict);
      }
      teams := teams[team := teams[team].(name := name)];
      return None;
    }

    /** The route only finds live teams; there is no transaction. */
    method Delete(actor: Id, team: Id) returns (error: Option<Error>)
      requires Schema(Tables())
      modifies this`teams
      ensures error.None? <==> Accepted(registry, old(Tables()), Action.Delete(actor, team))
      ensures Step(registry, old(Tables()), Action.Delete(actor, team), Tables())
    {
      if team !in teams || teams[team].trashed {
        return Some(NotFound);
      }
      var membership := RequireTeamAction(actor, team, DeleteTeam);
      if membership.None? {
        return Some(Forbidden);
      }
      teams := teams[team := teams[team].(trashed := true)];
      return None;
    }

    method AddMember(actor: Id, team: Id, member: Id, user: Id, role: Role, expectedKeyVersion: int, wrap: Cipher)
      returns (error: Option<Error>)
      requires Schema(Tables())
      modifies this`members
      ensures error.None? <==> Accepted(registry, old(Tables()), Action.Add(actor, team, member, user, role, expectedKeyVersion, wrap))
      ensures Step(registry, old(Tables()), Action.Add(actor, team, member, user, role, expectedKeyVersion, wrap), Tables())
    {
      if team !in teams || teams[team].trashed {
        return Some(NotFound);
      }
      var membership := RequireTeamAction(actor, team, ManageMembers);
      if membership.None? {
        return Some(Forbidden);
      }
      if teams[team].keyVersion != expectedKeyVersion {
        return Some(Conflict);
      }
      OneMembership(Tables(), actor, team, membership.value, AssignOwner);
      if role == Owner && !Allows(members[membership.value].role, AssignOwner) {
        return Some(Forbidden);
      }
      if user !in users {
        return Some(NotFound);
      }
      if users[user].suspended {
        return Some(Invalid);
      }
      if exists m :: m in members && IsMemberOf(members[m], team, user) {
        return Some(Invalid);
      }
      if member in members {
        return Some(DuplicateId);
      }
      members := members[member := Membership(team, user, role, wrap, teams[team].keyVersion)];
      return None;
    }

    method UpdateMember(actor: Id, team: Id, member: Id, role: Role) returns (error: Option<Error>)
      requires Schema(Tables())
      modifies this`members
      ensures error.None? <==> Accepted(registry, old(Tables()), ChangeRole(actor, team, member, role))
      ensures Step(registry, old(Tables()), ChangeRole(actor, team, member, role), Tables())
    {
      if team !in teams || teams[team].trashed {
        return Some(NotFound);
      }
      var membership := RequireTeamAction(actor, team, ManageMembers);
      if membership.None? {
        return Some(Forbidden);
      }
      if member !in members || members[member].teamId != team {
        return Some(Invalid);
      }
      OneMembership(Tables(), actor, team, membership.value, AssignOwner);
      if role == Owner && !Allows(members[membership.value].role, AssignOwner) {
        return Some(Forbidden);
      }
      if members[member].role == Owner && role != Owner {
        var ok := AssertNotLastOwner(team, member);
        if !ok {
          return Some(Invalid);
        }
      }
      members := members[member := members[member].(role := role)];
      return None;
    }

    /** Index the submitted wraps, which must name every expected member once. */
    method ValidateRotationPayload(expected: set<Id>, rewraps: seq<Rewrap>) returns (table: Option<map<Id, Cipher>>)
      ensures table.Some? <==> DistinctMembers(rewraps) && MemberIds(rewraps) == expected
      ensures table.Some? ==> table.value.Keys == expected
      ensures table.Some? ==> forall i :: 0 <= i < |rewraps| ==> table.value[rewraps[i].memberId] == rewraps[i].wrap
    {
      var provided := MemberIds(rewraps);
      DistinctIffCounted(rewraps);
      if expected != provided || |provided| != |rewraps| {
        return None;
      }
      var byMember: map<Id, Cipher> := map[];
      var i := 0;
      while i < |rewraps|
        invariant 0 <= i <= |rewraps|
        invariant byMember.Keys == MemberIds(rewraps[..i])
        invariant forall j :: 0 <= j < i ==> rewraps[j].memberId in byMember && byMember[rewraps[j].memberId] == rewraps[j].wrap
      {
        MemberIdsAppended(rewraps[..i], rewraps[i]);
        assert rewraps[..i + 1] == rewraps[..i] + [rewraps[i]];
        byMember := byMember[rewraps[i].memberId := rewraps[i].wrap];
        i := i + 1;
      }
      assert rewraps[..i] == rewraps;
      return Some(byMember);
    }

    method RewrapMembers(remaining: set<Id>, table: map<Id, Cipher>, version: nat)
      requires remaining <= members.Keys && remaining == table.Keys
      modifies this`members
      ensures members == RewrappedBy(old(members), remaining, table, version)
    {
      var todo := remaining;
      while todo != {}
        invariant todo <= remaining
        invariant members == RewrappedBy(old(members), remaining - todo, table, version)
        decreases |todo|
      {
        var m :| m in todo;
        members := members[m := members[m].(wrap := table[m], keyVersion := version)];
        todo := todo - {m};
      }
    }

    /** The team's live records, type by type. */
    method CollectTeamScopedResources(team: Id) returns (expected: set<Key>)
      ensures expected == TeamKeys(registry, records, team)
    {
      expected := {};
      var i := 0;
      while i < |registry|
        invariant 0 <= i <= |registry|
        invariant expected == TeamKeys(registry[..i], records, team)
      {
        TeamKeysOfOneMoreType(registry, i, records, team);
        if registry[i].teamScoped {
          expected := expected + set k | k in records && k.kind == registry[i].kind && IsTeamRecord(records[k], team);
        }
        i := i + 1;
      }
      assert registry[..i] == registry;
    }

    /** Replay one entry. A refusal leaves the record alone. */
    method ApplyEntry(entry: Entry, resource: Resource) returns (error: Option<Error>)
      requires entry.RecordKey() in records
      modifies this`records
      ensures error.None? <==> EntryFits(old(records)[entry.RecordKey()], entry, resource)
      ensures error.None? ==>
        records == old(records)[entry.RecordKey() := Overlaid(old(records)[entry.RecordKey()], entry.fields)]
      ensures error.Some? ==> records == old(records)
    {
      hide IsEncrypted, EncryptedColumns, Overlaid, HasText;
      var record := records[entry.RecordKey()];
      var invalid := set f | f in entry.fields && !IsEncrypted(resource, f);
      assert invalid == {} <==> forall f :: f in entry.fields ==> IsEncrypted(resource, f) by {
        assert forall f :: f in entry.fields && !IsEncrypted(resource, f) ==> f in invalid;
      }
      if invalid != {} {
        return Some(Invalid);
      }
      var current := EncryptedColumns(record, resource);
      if current != entry.original {
        return Some(Conflict);
      }
      var todo := current.Keys;
      while todo != {}
        invariant todo <= current.Keys
        invariant forall f :: f in current && f !in todo ==> HasText(entry.fields, f)
        decreases |todo|
      {
        var f :| f in todo;
        if !HasText(entry.fields, f) {
          return Some(Invalid);
        }
        todo := todo - {f};
      }
      records := records[entry.RecordKey() := Overlaid(record, entry.fields)];
      return None;
    }

    /** Replay every entry. A failure may leave earlier records rewritten. */
    method ApplyResourceReencryption(team: Id, entries: seq<Entry>) returns (r: Result<nat, Error>)
      requires DistinctKinds(registry)
      modifies this`records
      ensures r.Success? <==> EntriesFit(registry, old(records), team, entries)
      ensures r.Success? ==> Reencrypted(old(records), records, entries)
      ensures r.Success? ==> r.value == |TeamKeys(registry, old(records), team)|
    {
      hide EntryFits, Overlaid;
      var expected := CollectTeamScopedResources(team);
      var provided: set<Key> := {};
      ghost var before := records;
      var i := 0;
      while i < |entries|
        invariant 0 <= i <= |entries|
        invariant provided == KeysOf(entries[..i])
        invariant DistinctKeys(entries[..i]) && AllAccepted(registry, before, team, entries[..i])
        invariant Reencrypted(before, records, entries[..i])
      {
        var entry := entries[i];
        OneMoreEntry(registry, before, team, entries, i);
        if entry.RecordKey() !in expected {
          return Failure(Invalid);
        }
        if entry.RecordKey() in provided {
          return Failure(Invalid);
        }
        provided := provided + {entry.RecordKey()};
        assert exists x :: x in registry && x.kind == entry.kind;
        var resource :| resource in registry && resource.kind == entry.kind;
        OneResource(registry, resource);
        ReencryptOneMore(before, records, entries, i);
        var error := ApplyEntry(entry, resource);
        if error.Some? {
          return Failure(error.value);
        }
        i := i + 1;
      }
      assert entries[..i] == entries;
      if !(expected <= provided) {
        return Failure(Invalid);
      }
      return Success(|expected|);
    }

    method RemoveMember(actor: Id, team: Id, member: Id, p: Removal) returns (error: Option<Error>)
      requires DistinctKinds(registry) && Schema(Tables())
      modifies this
      ensures error.None? <==> Accepted(registry, old(Tables()), Remove(actor, team, member, p))
      ensures Step(registry, old(Tables()), Remove(actor, team, member, p), Tables())
    {
      hide EntriesFit, Reencrypted, Rewrapped, May, HasOtherOwner, RewrappedBy, Schema;
      var saved := Tables();
      if team !in teams || teams[team].trashed {
        return Some(NotFound);
      }
      var membership := RequireTeamAction(actor, team, ManageMembers);
      if membership.None? {
        return Some(Forbidden);
      }
      if member !in members || members[member].teamId != team {
        return Some(Invalid);
      }
      if members[member].role == Owner {
        var ok := AssertNotLastOwner(team, member);
        if !ok {
          return Some(Invalid);
        }
      }
      if teams[team].keyVersion != p.expectedKeyVersion || teams[team].name != p.expectedName {
        return Some(Conflict);
      }
      var remaining := Remaining(Tables(), team, member);
      var table := ValidateRotationPayload(remaining, p.remaining);
      if table.None? {
        return Some(Invalid);
      }
      var version := teams[team].keyVersion + 1;
      RewrappedByTable(members, member, p.remaining, table.value, version);
      RewrapMembers(remaining, table.value, version);
      var rotated := ApplyResourceReencryption(team, p.resources);
      if rotated.Failure? {
        Restore(saved);
        return Some(rotated.error);
      }
      members := members - {member};
      teams := teams[team := teams[team].(keyVersion := version, name := p.name)];
      return None;
    }
  }
}
