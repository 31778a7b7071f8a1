/** What every run of team operations keeps. */
module TeamRuns {
  import opened TeamService

  // ---------- After one removal ----------

  /** The new text of every populated encrypted field of a team record is the
      submitted, non-empty one; a column that is not encrypted keeps its value. */
  lemma RemovalReplacesEveryField(
    registry: seq<Resource>, s: State, a: Action, s': State, r: Resource, k: Key, column: string)
    requires a.Remove? && Accepted(registry, s, a) && Effect(s, a, s')
    requires r in registry && r.teamScoped && k in s.records && k.kind == r.kind && IsTeamRecord(s.records[k], a.team)
    requires column in s.records[k].columns
    ensures k in s'.records && column in s'.records[k].columns
    ensures !IsEncrypted(r, column) ==> s'.records[k].columns[column] == s.records[k].columns[column]
    ensures IsEncrypted(r, column) ==>
      exists i :: 0 <= i < |a.removal.resources| && a.removal.resources[i].RecordKey() == k
        && HasText(a.removal.resources[i].fields, column)
        && s'.records[k].columns[column] == a.removal.resources[i].fields[column]
  {
    hide IsEncrypted, May, HasOtherOwner, Rewrapped, RewrapsFit;
    var entries := a.removal.resources;
    assert k in TeamKeys(registry, s.records, a.team);
    var i :| 0 <= i < |entries| && entries[i].RecordKey() == k;
    assert EntryAccepted(registry, s.records, a.team, entries[i]);
    if IsEncrypted(r, column) {
      assert column in EncryptedColumns(s.records[k], r);
      assert HasText(entries[i].fields, column);
    }
  }

  /** Nobody else's record changes, and a team record changes in its columns
      only. */
  lemma RemovalTouchesOnlyTeamRecords(registry: seq<Resource>, s: State, a: Action, s': State, k: Key)
    requires a.Remove? && Accepted(registry, s, a) && Effect(s, a, s') && k in s.records
    ensures k in s'.records && s'.records[k] == s.records[k].(columns := s'.records[k].columns)
    ensures k !in TeamKeys(registry, s.records, a.team) ==> s'.records[k] == s.records[k]
  {
    hide May, HasOtherOwner, Rewrapped, RewrapsFit, EntryFits, TeamKeys;
    var entries := a.removal.resources;
    if k in KeysOf(entries) {
      var i :| 0 <= i < |entries| && entries[i].RecordKey() == k;
      assert EntryAccepted(registry, s.records, a.team, entries[i]);
    }
  }

  /** A removal leaves exactly the other members, each at the next key version
      with the wrap submitted for it. */
  lemma RemovalRewrapsTheOthers(registry: seq<Resource>, s: State, a: Action, s': State)
    requires a.Remove? && Accepted(registry, s, a) && Effect(s, a, s')
    ensures s'.teams[a.team].keyVersion == s.teams[a.team].keyVersion + 1
    ensures s'.members.Keys == s.members.Keys - {a.member}
    ensures forall m :: m in s'.members && s'.members[m].teamId != a.team ==> s'.members[m] == s.members[m]
    ensures forall m :: m in s'.members && s'.members[m].teamId == a.team ==>
      && s'.members[m].userId == s.members[m].userId && s'.members[m].role == s.members[m].role
      && s'.members[m].keyVersion == s'.teams[a.team].keyVersion
      && exists i :: 0 <= i < |a.removal.remaining| && a.removal.remaining[i] == Rewrap(m, s'.members[m].wrap)
  {
    hide May, HasOtherOwner, Reencrypted, EntriesFit;
    var rewraps := a.removal.remaining;
    forall m | m in s'.members
      ensures s.members[m].teamId == a.team ==>
        exists i :: 0 <= i < |rewraps| && rewraps[i].memberId == m
          && s'.members[m] == s.members[m].(wrap := rewraps[i].wrap, keyVersion := s.teams[a.team].keyVersion + 1)
      ensures s.members[m].teamId != a.team ==> s'.members[m] == s.members[m]
    {
      assert m in s.members - {a.member};
      if s.members[m].teamId == a.team {
        assert m in MemberIds(rewraps);
        var i :| 0 <= i < |rewraps| && rewraps[i].memberId == m;
        assert s'.members[m] == (s.members - {a.member})[m].(wrap := rewraps[i].wrap, keyVersion := s.teams[a.team].keyVersion + 1);
      }
    }
  }

  lemma RemovedUserIsOut(registry: seq<Resource>, s: State, a: Action, s': State)
    requires Schema(s) && a.Remove? && Accepted(registry, s, a) && Effect(s, a, s')
    ensures !HasMember(s', a.team, s.members[a.member].userId)
  {
    RemovalRewrapsTheOthers(registry, s, a, s');
  }

  // ---------- The invariant ----------

  ghost predicate HasOwner(s: State, team: Id) {
    exists m :: m in s.members && IsOwnerOf(s.members[m], team)
  }

  ghost predicate Inv(s: State) {
    && Schema(s)
    && (forall t :: IsLive(s, t) ==> HasOwner(s, t))
    && (forall m :: m in s.members ==> s.members[m].keyVersion == s.teams[s.members[m].teamId].keyVersion)
  }

  lemma AnOwner(s: State, team: Id) returns (m: Id)
    requires Inv(s) && IsLive(s, team)
    ensures m in s.members && IsOwnerOf(s.members[m], team)
  {
    assert HasOwner(s, team);
    m :| m in s.members && IsOwnerOf(s.members[m], team);
  }

  /** Owners survive a step that keeps every owner row of a live team but
      `gone`, if another owner of that row's team stays. */
  lemma OwnersKept(s: State, s': State, gone: Id)
    requires Inv(s)
    requires forall t :: IsLive(s', t) ==> IsLive(s, t)
    requires forall m :: m in s.members && m != gone && s.members[m].role == Owner ==>
      m in s'.members && s'.members[m].role == Owner && s'.members[m].teamId == s.members[m].teamId
    requires gone in s.members && s.members[gone].role == Owner ==> HasOtherOwner(s, s.members[gone].teamId, gone)
    ensures forall t :: IsLive(s', t) ==> HasOwner(s', t)
  {
    forall t | IsLive(s', t)
      ensures HasOwner(s', t)
    {
      var m := AnOwner(s, t);
      if m == gone {
        m :| m in s.members && m != gone && IsOwnerOf(s.members[m], t);
      }
      assert IsOwnerOf(s'.members[m], t);
    }
  }

  lemma CreateKeepsInv(registry: seq<Resource>, s: State, a: Action, s': State)
    requires Inv(s) && a.Create? && Accepted(registry, s, a) && Effect(s, a, s')
    ensures Inv(s')
  {
    forall t | IsLive(s', t)
      ensures HasOwner(s', t)
    {
      if t in s.teams {
        var m := AnOwner(s, t);
        assert IsOwnerOf(s'.members[m], t);
      } else {
        assert IsOwnerOf(s'.members[a.member], t);
      }
    }
  }

  lemma TeamRowKeepsInv(registry: seq<Resource>, s: State, a: Action, s': State)
    requires Inv(s) && (a.Update? || a.Delete?) && Accepted(registry, s, a) && Effect(s, a, s')
    ensures Inv(s')
  {
    hide May, HasOwner;
    forall t | IsLive(s', t)
      ensures HasOwner(s', t)
    {
      assert IsLive(s, t);
      var m := AnOwner(s, t);
      AnOwnerIsEnough(s', t, m);
    }
  }

  lemma AnOwnerIsEnough(s: State, team: Id, m: Id)
    requires m in s.members && IsOwnerOf(s.members[m], team)
    ensures HasOwner(s, team)
  {
  }

  lemma AddKeepsInv(registry: seq<Resource>, s: State, a: Action, s': State)
    requires Inv(s) && a.Add? && Accepted(registry, s, a) && Effect(s, a, s')
    ensures Inv(s')
  {
    hide May, HasOwner;
    forall t | IsLive(s', t)
      ensures HasOwner(s', t)
    {
      assert IsLive(s, t);
      var m := AnOwner(s, t);
      AnOwnerIsEnough(s', t, m);
    }
    forall m | m in s.members
      ensures !(s.members[m].teamId == a.team && s.members[m].userId == a.user)
    {
      assert !IsMemberOf(s.members[m], a.team, a.user);
    }
  }

  lemma ChangeRoleKeepsInv(registry: seq<Resource>, s: State, a: Action, s': State)
    requires Inv(s) && a.ChangeRole? && Accepted(registry, s, a) && Effect(s, a, s')
    ensures Inv(s')
  {
    hide May, HasOwner, HasOtherOwner;
    assert forall t :: IsLive(s', t) ==> IsLive(s, t);
    if a.role == Owner {
      forall t | IsLive(s', t)
        ensures HasOwner(s', t)
      {
        var m := AnOwner(s, t);
        AnOwnerIsEnough(s', t, m);
      }
    } else {
      OwnersKept(s, s', a.member);
    }
  }

  /** Deleting memberships and rewriting wraps cannot break the schema. */
  lemma SchemaKept(s: State, s': State)
    requires Schema(s) && s.teams.Keys <= s'.teams.Keys
    requires forall m :: m in s'.members ==>
      m in s.members && s'.members[m].teamId == s.members[m].teamId && s'.members[m].userId == s.members[m].userId
    ensures Schema(s')
  {
  }

  lemma RemoveKeepsInv(registry: seq<Resource>, s: State, a: Action, s': State)
    requires Inv(s) && a.Remove? && Accepted(registry, s, a) && Effect(s, a, s')
    ensures Inv(s')
  {
    RemovalRewrapsTheOthers(registry, s, a, s');
    hide May, HasOwner, HasOtherOwner, Rewrapped, RewrapsFit, Reencrypted, EntriesFit;
    forall m | m in s'.members
      ensures m in s.members && s'.members[m].teamId == s.members[m].teamId
    {
      SameTeam(registry, s, a, s', m);
    }
    SchemaKept(s, s');
    assert forall t :: IsLive(s', t) ==> IsLive(s, t);
    OwnersKept(s, s', a.member);
  }

  lemma SameTeam(registry: seq<Resource>, s: State, a: Action, s': State, m: Id)
    requires a.Remove? && Accepted(registry, s, a) && Effect(s, a, s') && m in s'.members
    ensures m in s.members && s'.members[m].teamId == s.members[m].teamId
  {
    hide May, HasOtherOwner, Reencrypted, EntriesFit;
    var rewraps := a.removal.remaining;
    assert m in s.members - {a.member};
    if m in MemberIds(rewraps) {
      var i :| 0 <= i < |rewraps| && rewraps[i].memberId == m;
      assert s'.members[m].teamId == (s.members - {a.member})[m].teamId;
    }
  }

  lemma StepKeepsInv(registry: seq<Resource>, s: State, a: Action, s': State)
    requires Inv(s) && Step(registry, s, a, s')
    ensures Inv(s')
  {
    hide Effect, Accepted, Inv;
    if !Accepted(registry, s, a) {
    } else if a.Create? {
      CreateKeepsInv(registry, s, a, s');
    } else if a.Update? || a.Delete? {
      TeamRowKeepsInv(registry, s, a, s');
    } else if a.Add? {
      AddKeepsInv(registry, s, a, s');
    } else if a.ChangeRole? {
      ChangeRoleKeepsInv(registry, s, a, s');
    } else {
      RemoveKeepsInv(registry, s, a, s');
    }
  }

  // ---------- Who becomes an owner, and when the key version moves ----------

  predicate IsOwner(s: State, team: Id, user: Id) {
    exists m :: m in s.members && IsMemberOf(s.members[m], team, user) && s.members[m].role == Owner
  }

  /** A user becomes an owner only by creating the team or by an act of a
      current owner. */
  ghost predicate MakesOwner(s: State, a: Action, team: Id, user: Id) {
    || (a.Create? && a.team == team && a.actor == user && team !in s.teams)
    || ((a.Add? || a.ChangeRole?) && a.team == team && IsOwner(s, team, a.actor))
  }

  lemma OnlyOwnersMakeOwners(registry: seq<Resource>, s: State, a: Action, s': State, team: Id, user: Id)
    requires Schema(s) && Step(registry, s, a, s')
    requires IsOwner(s', team, user) && !IsOwner(s, team, user)
    ensures Accepted(registry, s, a) && MakesOwner(s, a, team, user)
  {
    hide EntriesFit, Reencrypted, RewrapsFit;
    if a.Remove? && Accepted(registry, s, a) {
      RemovalMakesNoOwner(registry, s, a, s', team, user);
    } else if a.Add? || a.ChangeRole? {
      var m :| m in s'.members && IsMemberOf(s'.members[m], team, user) && s'.members[m].role == Owner;
      assert m == a.member;
      var n :| n in s.members && HasRight(s.members[n], team, a.actor, AssignOwner);
      assert IsMemberOf(s.members[n], team, a.actor) && s.members[n].role == Owner;
    }
  }

  lemma RemovalMakesNoOwner(registry: seq<Resource>, s: State, a: Action, s': State, team: Id, user: Id)
    requires a.Remove? && Accepted(registry, s, a) && Effect(s, a, s')
    ensures IsOwner(s', team, user) ==> IsOwner(s, team, user)
  {
    RemovalRewrapsTheOthers(registry, s, a, s');
    hide Effect, Accepted;
    if IsOwner(s', team, user) {
      var m :| m in s'.members && IsMemberOf(s'.members[m], team, user) && s'.members[m].role == Owner;
      SameTeam(registry, s, a, s', m);
      assert IsMemberOf(s.members[m], team, user);
    }
  }

  /** A team's key version moves by one at an accepted removal from it and at
      no other step. */
  lemma KeyVersionMovesAtRemovals(registry: seq<Resource>, s: State, a: Action, s': State, team: Id)
    requires Step(registry, s, a, s') && team in s.teams
    ensures team in s'.teams
    ensures s'.teams[team].keyVersion == s.teams[team].keyVersion + if IsRemovalFrom(registry, s, a, team) then 1 else 0
  {
    hide EntriesFit, Reencrypted, RewrapsFit, Rewrapped, May, HasOtherOwner;
  }

  ghost predicate IsRemovalFrom(registry: seq<Resource>, s: State, a: Action, team: Id) {
    a.Remove? && a.team == team && Accepted(registry, s, a)
  }

  // ---------- Runs ----------

  ghost predicate IsRun(registry: seq<Resource>, states: seq<State>, actions: seq<Action>) {
    && |states| == |actions| + 1
    && forall i :: 0 <= i < |actions| ==> Step(registry, states[i], actions[i], states[i + 1])
  }

  lemma {:induction false} InvAlwaysHolds(registry: seq<Resource>, states: seq<State>, actions: seq<Action>, i: nat)
    requires IsRun(registry, states, actions) && Inv(states[0]) && i < |states|
    ensures Inv(states[i])
  {
    if i > 0 {
      InvAlwaysHolds(registry, states, actions, i - 1);
      StepKeepsInv(registry, states[i - 1], actions[i - 1], states[i]);
    }
  }

  ghost function RemovalsFrom(registry: seq<Resource>, states: seq<State>, actions: seq<Action>, team: Id, i: nat): nat
    requires |states| == |actions| + 1 && i <= |actions|
  {
    if i == 0 then 0
    else RemovalsFrom(registry, states, actions, team, i - 1)
         + if IsRemovalFrom(registry, states[i - 1], actions[i - 1], team) then 1 else 0
  }

  /** Over a whole run the key version counts the removals. */
  lemma {:induction false} KeyVersionCountsRemovals(
    registry: seq<Resource>, states: seq<State>, actions: seq<Action>, team: Id, i: nat)
    requires IsRun(registry, states, actions) && i <= |actions| && team in states[0].teams
    ensures team in states[i].teams
    ensures states[i].teams[team].keyVersion == states[0].teams[team].keyVersion + RemovalsFrom(registry, states, actions, team, i)
  {
    if i > 0 {
      KeyVersionCountsRemovals(registry, states, actions, team, i - 1);
      KeyVersionMovesAtRemovals(registry, states[i - 1], actions[i - 1], states[i], team);
    }
  }

  /** Whoever owns a team at some moment of a run was an owner at its start or
      was made one at an earlier step, by creating the team or by an owner. */
  lemma {:induction false} OwnershipHasAnOrigin(
    registry: seq<Resource>, states: seq<State>, actions: seq<Action>, team: Id, user: Id, i: nat)
    requires IsRun(registry, states, actions) && Inv(states[0]) && i <= |actions|
    requires IsOwner(states[i], team, user)
    ensures IsOwner(states[0], team, user)
         || exists j :: 0 <= j < i && Accepted(registry, states[j], actions[j]) && MakesOwner(states[j], actions[j], team, user)
  {
    if i > 0 {
      if IsOwner(states[i - 1], team, user) {
        OwnershipHasAnOrigin(registry, states, actions, team, user, i - 1);
      } else {
        InvAlwaysHolds(registry, states, actions, i - 1);
        OnlyOwnersMakeOwners(registry, states[i - 1], actions[i - 1], states[i], team, user);
      }
    }
  }
}
