/** Who can change what in a team, read off the roles in the membership table. */
module TeamRights {
  import opened Wrappers
  import opened TeamService
  import opened TeamRuns
  import opened TeamRecords

  /** The user is in the team with one of these roles. */
  predicate HasRole(s: State, team: Id, user: Id, roles: set<Role>) {
    exists m :: m in s.members && IsMemberOf(s.members[m], team, user) && s.members[m].role in roles
  }

  const MANAGERS := {Owner, Admin}

  const WRITERS := {Owner, Admin, Member}

  /** Which roles carry which right. */
  function RolesWith(p: Permission): set<Role> {
    match p
    case AssignOwner => {Owner}
    case DeleteTeam => {Owner}
    case UpdateTeam => MANAGERS
    case ManageMembers => MANAGERS
    case WriteRecords => WRITERS
    case ConnectHosts => WRITERS
    case ReadRecords => {Owner, Admin, Member, Viewer}
  }

  lemma RightsIff(s: State, user: Id, team: Id, p: Permission)
    ensures May(s, user, team, p) <==> HasRole(s, team, user, RolesWith(p))
  {
    forall m | m in s.members
      ensures HasRight(s.members[m], team, user, p) <==>
        IsMemberOf(s.members[m], team, user) && s.members[m].role in RolesWith(p)
    {
      RolesAllow(s.members[m].role, p);
    }
  }

  lemma RolesAllow(role: Role, p: Permission)
    ensures Allows(role, p) <==> role in RolesWith(p)
  {
  }

  function Actor(e: Event): Id {
    if e.Operate? then e.action.actor else e.actor
  }

  ghost predicate SameTeamRows(s: State, s': State, team: Id) {
    && team in s.teams && team in s'.teams && s'.teams[team] == s.teams[team]
    && (forall m :: (m in s'.members && s'.members[m].teamId == team) <==> (m in s.members && s.members[m].teamId == team))
    && (forall m :: m in s.members && s.members[m].teamId == team ==> m in s'.members && s'.members[m] == s.members[m])
  }

  ghost predicate SameTeamRecords(s: State, s': State, team: Id) {
    && (forall k :: (k in s'.records && s'.records[k].teamId == Some(team)) <==> (k in s.records && s.records[k].teamId == Some(team)))
    && (forall k :: k in s.records && s.records[k].teamId == Some(team) ==> k in s'.records && s'.records[k] == s.records[k])
  }

  lemma RemovalElsewhere(registry: seq<Resource>, s: State, a: Action, s': State, team: Id)
    requires Schema(s) && a.Remove? && Accepted(registry, s, a) && Effect(s, a, s') && a.team != team && team in s.teams
    ensures SameTeamRows(s, s', team) && SameTeamRecords(s, s', team)
  {
    MembersElsewhere(registry, s, a, s', team);
    RecordsElsewhere(registry, s, a, s', team);
    hide Accepted, Effect;
  }

  lemma MembersElsewhere(registry: seq<Resource>, s: State, a: Action, s': State, team: Id)
    requires Schema(s) && a.Remove? && Accepted(registry, s, a) && Effect(s, a, s') && a.team != team && team in s.teams
    ensures SameTeamRows(s, s', team)
  {
    RemovalRewrapsTheOthers(registry, s, a, s');
    hide May, HasOtherOwner, Rewrapped, RewrapsFit, EntriesFit, Reencrypted, Schema;
    assert s'.teams[team] == s.teams[team] && s.members[a.member].teamId == a.team;
    hide Accepted, Effect;
    forall m | m in s'.members
      ensures m in s.members && s'.members[m].teamId == s.members[m].teamId
    {
      SameTeam(registry, s, a, s', m);
    }
  }

  lemma RecordsElsewhere(registry: seq<Resource>, s: State, a: Action, s': State, team: Id)
    requires a.Remove? && Accepted(registry, s, a) && Effect(s, a, s') && a.team != team
    ensures SameTeamRecords(s, s', team)
  {
    assert s'.records.Keys == s.records.Keys;
    hide Accepted, Effect;
    forall k | k in s.records
      ensures k in s'.records && s'.records[k].teamId == s.records[k].teamId
      ensures s.records[k].teamId == Some(team) ==> s'.records[k] == s.records[k]
    {
      RemovalTouchesOnlyTeamRecords(registry, s, a, s', k);
      if s.records[k].teamId == Some(team) {
        OtherRowsStay(registry, s, a, s', k);
      }
    }
  }

  /** Only an owner or admin of a team changes its row or its memberships, and
      only an owner deletes it. */
  lemma OnlyManagersChangeTheTeam(registry: seq<Resource>, s: State, e: Event, s': State, team: Id)
    requires Schema(s) && Outcome(registry, s, e, s') && team in s.teams
    ensures HasRole(s, team, Actor(e), MANAGERS) || SameTeamRows(s, s', team)
    ensures HasRole(s, team, Actor(e), {Owner}) || (team in s'.teams && s'.teams[team].trashed == s.teams[team].trashed)
  {
    hide EntriesFit, Reencrypted, RewrapsFit, Rewrapped, May, HasOtherOwner, HasMember, HasRole;
    RightsIff(s, Actor(e), team, ManageMembers);
    RightsIff(s, Actor(e), team, UpdateTeam);
    RightsIff(s, Actor(e), team, DeleteTeam);
    if e.Operate? && e.action.Remove? && e.action.team != team && Accepted(registry, s, e.action) {
      RemovalElsewhere(registry, s, e.action, s', team);
    } else if e.Operate? && Accepted(registry, s, e.action) && !HasRole(s, team, Actor(e), MANAGERS) {
      OwnersAreManagers(s, team, Actor(e));
      OperationElsewhere(registry, s, e.action, s', team);
    }
  }

  lemma OwnersAreManagers(s: State, team: Id, user: Id)
    ensures HasRole(s, team, user, {Owner}) ==> HasRole(s, team, user, MANAGERS)
    ensures HasRole(s, team, user, MANAGERS) ==> HasRole(s, team, user, WRITERS)
  {
    if HasRole(s, team, user, {Owner}) {
      var m :| m in s.members && IsMemberOf(s.members[m], team, user) && s.members[m].role in {Owner};
      assert s.members[m].role in MANAGERS;
    }
    if HasRole(s, team, user, MANAGERS) {
      var m :| m in s.members && IsMemberOf(s.members[m], team, user) && s.members[m].role in MANAGERS;
      assert s.members[m].role in WRITERS;
    }
  }

  lemma OperationElsewhere(registry: seq<Resource>, s: State, a: Action, s': State, team: Id)
    requires Schema(s) && !a.Remove? && Accepted(registry, s, a) && Effect(s, a, s') && team in s.teams
    requires a.team != team
    ensures SameTeamRows(s, s', team) && s'.records == s.records
  {
    hide May, HasOtherOwner, HasMember, SameTeamRows;
    if a.Update? || a.Delete? {
      SameMembers(s, s', team);
    } else {
      SameRowsBut(s, s', team, a.member);
    }
  }

  lemma SameMembers(s: State, s': State, team: Id)
    requires team in s.teams && team in s'.teams && s'.teams[team] == s.teams[team] && s'.members == s.members
    ensures SameTeamRows(s, s', team)
  {
  }

  lemma SameRowsBut(s: State, s': State, team: Id, member: Id)
    requires team in s.teams && team in s'.teams && s'.teams[team] == s.teams[team]
    requires member in s'.members && s'.members == s.members[member := s'.members[member]] && s'.members[member].teamId != team
    requires member in s.members ==> s.members[member].teamId != team
    ensures SameTeamRows(s, s', team)
  {
  }

  /** Only an owner, admin or member of a team changes its records; viewers and
      outsiders change nothing. */
  lemma OnlyWritersChangeRecords(registry: seq<Resource>, s: State, e: Event, s': State, team: Id)
    requires Schema(s) && Outcome(registry, s, e, s') && team in s.teams
    ensures HasRole(s, team, Actor(e), WRITERS) || SameTeamRecords(s, s', team)
  {
    hide EntriesFit, Reencrypted, RewrapsFit, Rewrapped, May, HasOtherOwner, HasMember, HasRole, Overlaid;
    RightsIff(s, Actor(e), team, ManageMembers);
    RightsIff(s, Actor(e), team, WriteRecords);
    OwnersAreManagers(s, team, Actor(e));
    if e.Operate? && e.action.Remove? && e.action.team != team && Accepted(registry, s, e.action) {
      RemovalElsewhere(registry, s, e.action, s', team);
    } else if !e.Operate? && Allowed(registry, s, e) && !HasRole(s, team, Actor(e), WRITERS) {
      WriteElsewhere(registry, s, e, s', team);
    }
  }

  lemma WriteElsewhere(registry: seq<Resource>, s: State, e: Event, s': State, team: Id)
    requires !e.Operate? && Allowed(registry, s, e) && Outcome(registry, s, e, s')
    requires if e.Store? then e.team != team else s.records[e.key].teamId != Some(team)
    ensures SameTeamRecords(s, s', team) && s'.teams == s.teams && s'.members == s.members
  {
    hide May;
  }

  // ---------- When the operations are accepted ----------

  predicate IsLiveTeam(s: State, team: Id) {
    team in s.teams && !s.teams[team].trashed
  }

  /** Nobody else owns the team. */
  predicate IsLastOwner(s: State, team: Id, member: Id) {
    && member in s.members && s.members[member].role == Owner
    && forall m :: m in s.members && m != member && s.members[m].teamId == team ==> s.members[m].role != Owner
  }

  lemma UpdateIff(registry: seq<Resource>, s: State, a: Action)
    requires a.Update? || a.Delete?
    ensures Accepted(registry, s, a) <==>
      && IsLiveTeam(s, a.team)
      && HasRole(s, a.team, a.actor, if a.Update? then MANAGERS else {Owner})
      && (a.Update? ==> s.teams[a.team].keyVersion == a.expectedKeyVersion)
  {
    RightsIff(s, a.actor, a.team, UpdateTeam);
    RightsIff(s, a.actor, a.team, DeleteTeam);
    hide May, HasRole;
  }

  /** A manager adds an active account that is not in the team yet, naming the
      current key version, and only an owner adds an owner. */
  lemma AddIff(registry: seq<Resource>, s: State, a: Action)
    requires a.Add?
    ensures Accepted(registry, s, a) <==>
      && IsLiveTeam(s, a.team) && s.teams[a.team].keyVersion == a.expectedKeyVersion
      && HasRole(s, a.team, a.actor, MANAGERS) && (a.role == Owner ==> HasRole(s, a.team, a.actor, {Owner}))
      && a.user in s.users && !s.users[a.user].suspended
      && a.member !in s.members
      && forall m :: m in s.members ==> !(s.members[m].teamId == a.team && s.members[m].userId == a.user)
  {
    RightsIff(s, a.actor, a.team, ManageMembers);
    RightsIff(s, a.actor, a.team, AssignOwner);
    hide May, HasRole;
    forall m | m in s.members
      ensures IsMemberOf(s.members[m], a.team, a.user) <==> s.members[m].teamId == a.team && s.members[m].userId == a.user
    {
    }
  }

  /** A manager changes any role in the team, only an owner makes an owner, and
      the last owner stays one. */
  lemma RoleChangeIff(registry: seq<Resource>, s: State, a: Action)
    requires a.ChangeRole?
    ensures Accepted(registry, s, a) <==>
      && IsLiveTeam(s, a.team) && a.member in s.members && s.members[a.member].teamId == a.team
      && HasRole(s, a.team, a.actor, MANAGERS) && (a.role == Owner ==> HasRole(s, a.team, a.actor, {Owner}))
      && !(IsLastOwner(s, a.team, a.member) && a.role != Owner)
  {
    RightsIff(s, a.actor, a.team, ManageMembers);
    RightsIff(s, a.actor, a.team, AssignOwner);
    OtherOwnerIff(s, a.team, a.member);
    hide May, HasRole, HasOtherOwner, IsLastOwner;
  }

  lemma OtherOwnerIff(s: State, team: Id, member: Id)
    ensures member in s.members && s.members[member].role == Owner ==> (HasOtherOwner(s, team, member) <==> !IsLastOwner(s, team, member))
  {
    forall m | m in s.members
      ensures IsOwnerOf(s.members[m], team) <==> s.members[m].teamId == team && s.members[m].role == Owner
    {
    }
  }

  /** What a removal needs apart from its re-encrypted records: a manager, a
      member who is not the last owner, the current key version and name, and one
      wrap for each other member. */
  lemma RemovalNeeds(registry: seq<Resource>, s: State, a: Action)
    requires a.Remove?
    ensures Accepted(registry, s, a) <==>
      && IsLiveTeam(s, a.team) && a.member in s.members && s.members[a.member].teamId == a.team
      && HasRole(s, a.team, a.actor, MANAGERS) && !IsLastOwner(s, a.team, a.member)
      && s.teams[a.team].keyVersion == a.removal.expectedKeyVersion && s.teams[a.team].name == a.removal.expectedName
      && OneWrapForEach(s, a) && EntriesFit(registry, s.records, a.team, a.removal.resources)
  {
    RightsIff(s, a.actor, a.team, ManageMembers);
    OtherOwnerIff(s, a.team, a.member);
    WrapsFitIff(s, a);
    hide May, HasRole, HasOtherOwner, RewrapsFit, EntriesFit, OneWrapForEach;
  }

  ghost predicate OneWrapForEach(s: State, a: Action)
    requires a.Remove?
  {
    var wraps := a.removal.remaining;
    && (forall i, j :: 0 <= i < |wraps| && 0 <= j < |wraps| && wraps[i].memberId == wraps[j].memberId ==> i == j)
    && (forall i :: 0 <= i < |wraps| ==>
          wraps[i].memberId != a.member && wraps[i].memberId in s.members && s.members[wraps[i].memberId].teamId == a.team)
    && (forall m :: m in s.members && m != a.member && s.members[m].teamId == a.team ==>
          exists i :: 0 <= i < |wraps| && wraps[i].memberId == m)
  }

  lemma WrapsFitIff(s: State, a: Action)
    requires a.Remove?
    ensures RewrapsFit(s, a.team, a.member, a.removal.remaining) <==> OneWrapForEach(s, a)
  {
    var wraps, ids, others := a.removal.remaining, MemberIds(a.removal.remaining), Remaining(s, a.team, a.member);
    if OneWrapForEach(s, a) {
      forall m
        ensures m in ids <==> m in others
      {
        if m in ids {
          var i :| 0 <= i < |wraps| && wraps[i].memberId == m;
        }
      }
    }
    if RewrapsFit(s, a.team, a.member, wraps) {
      assert forall i :: 0 <= i < |wraps| ==> wraps[i].memberId in ids;
      forall m | m in s.members && m != a.member && s.members[m].teamId == a.team
        ensures exists i :: 0 <= i < |wraps| && wraps[i].memberId == m
      {
        assert m in others;
      }
    }
  }

  lemma EncryptedIff(resource: Resource, column: string)
    ensures IsEncrypted(resource, column) <==>
      column in resource.fields && exists base :: column == base + "_ciphertext" || column == base + "_nonce"
  {
    if EndsWith(column, "_ciphertext") {
      assert column == column[..|column| - |"_ciphertext"|] + "_ciphertext";
    }
    if EndsWith(column, "_nonce") {
      assert column == column[..|column| - |"_nonce"|] + "_nonce";
    }
    forall base | column == base + "_ciphertext" || column == base + "_nonce"
      ensures EndsWith(column, "_ciphertext") || EndsWith(column, "_nonce")
    {
      assert column == base + "_ciphertext" ==> column[|column| - |"_ciphertext"|..] == "_ciphertext";
      assert column == base + "_nonce" ==> column[|column| - |"_nonce"|..] == "_nonce";
    }
  }

  /** At every moment of a run each live team has an owner of its own. */
  lemma EveryTeamHasAnOwner(
    registry: seq<Resource>, madeWith: Tags, states: seq<State>, events: seq<Event>, i: nat, team: Id) returns (m: Id)
    requires IsHistory(registry, madeWith, states, events) && Inv(states[0]) && i < |states|
    requires IsLiveTeam(states[i], team)
    ensures m in states[i].members && states[i].members[m].teamId == team && states[i].members[m].role == Owner
  {
    EveryStateKeepsInv(registry, madeWith, states, events, i);
    m := AnOwner(states[i], team);
  }

  // ---------- What the operations do ----------

  /** The role a user was given is the role they have, and nobody else's
      changes. */
  lemma RoleIsAsAssigned(registry: seq<Resource>, s: State, a: Action, s': State, roles: set<Role>)
    requires Inv(s) && (a.Add? || a.ChangeRole?) && Accepted(registry, s, a) && Effect(s, a, s')
    ensures a.member in s'.members
    ensures HasRole(s', a.team, s'.members[a.member].userId, roles) <==> a.role in roles
    ensures a.Add? ==> s'.members[a.member].userId == a.user
    ensures a.ChangeRole? ==> a.member in s.members && s'.members[a.member].userId == s.members[a.member].userId
    ensures s'.members.Keys == s.members.Keys + {a.member}
    ensures forall m :: m in s.members && m != a.member ==> s'.members[m] == s.members[m]
  {
    StepKeepsInv(registry, s, a, s');
    hide May, HasOtherOwner, HasMember;
    if a.role in roles {
      assert IsMemberOf(s'.members[a.member], a.team, s'.members[a.member].userId);
    }
  }

  /** A membership that appears belongs to the team's creator or to an existing
      account that is not suspended. */
  lemma NewMembersAreActive(registry: seq<Resource>, s: State, e: Event, s': State, m: Id)
    requires Outcome(registry, s, e, s') && m in s'.members && m !in s.members
    ensures var user := s'.members[m].userId;
      || (s'.members[m].teamId !in s.teams && user == Actor(e))
      || (user in s.users && !s.users[user].suspended)
  {
    hide EntriesFit, Reencrypted, RewrapsFit, May, HasOtherOwner, HasMember, Overlaid;
  }

  /** A removal is accepted only from a client that has seen the team as it is:
      its name and every encrypted column of every live record. */
  lemma RemovalSawTheCurrentState(registry: seq<Resource>, s: State, a: Action, r: Resource, k: Key, column: string)
    returns (entry: Entry)
    requires a.Remove? && Accepted(registry, s, a)
    requires r in registry && r.teamScoped && k in s.records && k.kind == r.kind && IsTeamRecord(s.records[k], a.team)
    ensures s.teams[a.team].name == a.removal.expectedName
    ensures entry in a.removal.resources && entry.RecordKey() == k
    ensures IsEncrypted(r, column) ==>
      && (column in s.records[k].columns <==> column in entry.original)
      && (column in s.records[k].columns ==> entry.original[column] == s.records[k].columns[column])
  {
    hide May, HasOtherOwner, RewrapsFit, IsEncrypted, HasText;
    assert k in TeamKeys(registry, s.records, a.team);
    hide TeamKeys;
    var i :| 0 <= i < |a.removal.resources| && a.removal.resources[i].RecordKey() == k;
    entry := a.removal.resources[i];
    assert EntryAccepted(registry, s.records, a.team, entry);
    assert column in EncryptedColumns(s.records[k], r) <==> column in s.records[k].columns && IsEncrypted(r, column);
  }

  /** Every encrypted column that a live record of the team had holds a non-empty
      text afterwards, and accounts stay as they were. */
  lemma RemovalLeavesNoGap(registry: seq<Resource>, s: State, a: Action, s': State, r: Resource, k: Key, column: string)
    requires a.Remove? && Accepted(registry, s, a) && Effect(s, a, s')
    requires r in registry && r.teamScoped && k in s.records && k.kind == r.kind && IsTeamRecord(s.records[k], a.team)
    requires column in s.records[k].columns && IsEncrypted(r, column)
    ensures s'.users == s.users
    ensures k in s'.records && column in s'.records[k].columns
    ensures s'.records[k].columns[column].Text? && |s'.records[k].columns[column].text| > 0
  {
    RemovalReplacesEveryField(registry, s, a, s', r, k, column);
    hide Accepted, EntriesFit, Reencrypted, RewrapsFit, Rewrapped, IsEncrypted;
  }

  /** What an update, a creation and a deletion leave in the team's row. */
  lemma TeamRowAfter(registry: seq<Resource>, s: State, a: Action, s': State)
    requires (a.Create? || a.Update? || a.Delete?) && Accepted(registry, s, a) && Effect(s, a, s')
    ensures a.team in s'.teams
    ensures a.Create? ==> s'.teams[a.team].name == a.name && s'.teams[a.team].keyVersion == 1 && IsLive(s', a.team)
    ensures a.Create? ==> HasRole(s', a.team, a.actor, {Owner})
    ensures a.Update? ==> s'.teams[a.team].name == a.name && s'.teams[a.team].keyVersion == a.expectedKeyVersion && IsLive(s', a.team)
    ensures a.Delete? ==> !IsLive(s', a.team) && s'.teams[a.team].name == s.teams[a.team].name
    ensures forall t :: t in s.teams && t != a.team ==> t in s'.teams && s'.teams[t] == s.teams[t]
  {
    hide May;
    if a.Create? {
      assert IsMemberOf(s'.members[a.member], a.team, a.actor);
    }
  }

  /** An accepted record write leaves in the row each column that was sent with
      content, drops each that was sent empty and keeps the others; the row is
      its team's and live, or in the trash with its columns. */
  lemma RecordAfterWrite(registry: seq<Resource>, s: State, e: Event, s': State, column: string)
    requires !e.Operate? && Allowed(registry, s, e) && Outcome(registry, s, e, s')
    ensures s'.users == s.users && s'.teams == s.teams && s'.members == s.members
    ensures exists r :: r in registry && r.kind == e.key.kind && r.teamScoped
    ensures e.key in s'.records && s'.records[e.key].trashed == e.Trash?
    ensures e.Store? ==> e.key !in s.records && s'.records[e.key].teamId == Some(e.team)
    ensures !e.Store? ==> e.key in s.records && !s.records[e.key].trashed && s'.records[e.key].teamId == s.records[e.key].teamId
    ensures e.Trash? ==> s'.records[e.key].columns == s.records[e.key].columns
    ensures !e.Trash? ==> HasColumnAfter(s, e, s'.records[e.key].columns, column)
    ensures s'.records.Keys == s.records.Keys + {e.key}
    ensures forall k :: k in s.records && k != e.key ==> s'.records[k] == s.records[k]
  {
    hide May;
  }

  predicate HasColumnAfter(s: State, e: Event, after: map<string, Value>, column: string)
    requires e.Store? || e.Change?
  {
    if column in e.put && e.put[column] == Null then column !in after
    else if column in e.put then column in after && after[column] == e.put[column]
    else if e.Change? && e.key in s.records && column in s.records[e.key].columns then
      column in after && after[column] == s.records[e.key].columns[column]
    else column !in after
  }

  // ---------- Deleted teams ----------

  lemma StepLeavesDeletedTeam(registry: seq<Resource>, s: State, e: Event, s': State, team: Id)
    requires Schema(s) && Outcome(registry, s, e, s') && team in s.teams && s.teams[team].trashed
    ensures SameTeamRows(s, s', team) && SameTeamRecords(s, s', team)
  {
    if Allowed(registry, s, e) {
      NotActedOn(registry, s, e, team);
    }
    hide Accepted, Effect, Overlaid, May, IsTeamRow, SameTeamRows, SameTeamRecords, Schema;
    if !Allowed(registry, s, e) {
      SameAsItself(s, team);
    } else if e.Operate? {
      if e.action.Remove? {
        RemovalElsewhere(registry, s, e.action, s', team);
      } else {
        OperationElsewhere(registry, s, e.action, s', team);
      }
    } else {
      WriteElsewhere(registry, s, e, s', team);
    }
  }

  lemma NotActedOn(registry: seq<Resource>, s: State, e: Event, team: Id)
    requires Allowed(registry, s, e) && team in s.teams && s.teams[team].trashed
    ensures e.Operate? ==> e.action.team != team
    ensures !e.Operate? ==> if e.Store? then e.team != team else e.key in s.records && s.records[e.key].teamId != Some(team)
  {
    hide May, HasOtherOwner, HasMember, EntriesFit, RewrapsFit;
  }

  lemma EventKeepsSchema(registry: seq<Resource>, s: State, e: Event, s': State)
    requires Inv(s) && Outcome(registry, s, e, s')
    ensures Inv(s')
  {
    hide Accepted, Effect, HasOwner;
    if e.Operate? {
      StepKeepsInv(registry, s, e.action, s');
    } else {
      hide Allowed, Overlaid;
      assert s'.teams == s.teams && s'.members == s.members;
      forall t | IsLive(s', t)
        ensures HasOwner(s', t)
      {
        var m := AnOwner(s, t);
        AnOwnerIsEnough(s', t, m);
      }
    }
  }

  /** Once a team is deleted its row, its memberships and its records stay as
      they are for the rest of the run. */
  lemma {:induction false} DeletedForGood(
    registry: seq<Resource>, madeWith: Tags, states: seq<State>, events: seq<Event>, team: Id, i: nat, j: nat)
    requires IsHistory(registry, madeWith, states, events) && Inv(states[0]) && i <= j < |states|
    requires team in states[i].teams && states[i].teams[team].trashed
    ensures SameTeamRows(states[i], states[j], team) && SameTeamRecords(states[i], states[j], team)
    ensures Inv(states[j])
    decreases j
  {
    hide Inv, IsHonest, Outcome, SameTeamRecords;
    if i < j {
      DeletedForGood(registry, madeWith, states, events, team, i, j - 1);
      assert Schema(states[j - 1]) by {
        SchemaOf(states[j - 1]);
      }
      StepLeavesDeletedTeam(registry, states[j - 1], events[j - 1], states[j], team);
      EventKeepsSchema(registry, states[j - 1], events[j - 1], states[j]);
      SameRowsChain(states[i], states[j - 1], states[j], team);
    } else {
      SameAsItself(states[i], team);
      EveryStateKeepsInv(registry, madeWith, states, events, i);
    }
  }

  lemma SchemaOf(s: State)
    requires Inv(s)
    ensures Schema(s)
  {
  }

  lemma SameAsItself(s: State, team: Id)
    requires team in s.teams
    ensures SameTeamRows(s, s, team) && SameTeamRecords(s, s, team)
  {
  }

  lemma SameRowsChain(a: State, b: State, c: State, team: Id)
    requires SameTeamRows(a, b, team) && SameTeamRows(b, c, team) && SameTeamRecords(a, b, team) && SameTeamRecords(b, c, team)
    ensures SameTeamRows(a, c, team) && SameTeamRecords(a, c, team)
  {
  }

  lemma {:induction false} EveryStateKeepsInv(
    registry: seq<Resource>, madeWith: Tags, states: seq<State>, events: seq<Event>, i: nat)
    requires IsHistory(registry, madeWith, states, events) && Inv(states[0]) && i < |states|
    ensures Inv(states[i])
  {
    hide Inv, IsHonest, Outcome;
    if i > 0 {
      EveryStateKeepsInv(registry, madeWith, states, events, i - 1);
      EventKeepsSchema(registry, states[i - 1], events[i - 1], states[i]);
    }
  }
}
