/** Which team key a membership's wrap holds, over whole runs. */
module TeamWraps {
  import opened TeamService
  import opened TeamRuns
  import opened TeamRecords

  /** Every membership holds a wrap of its team's current key, and says so. */
  ghost predicate WrapsHold(madeWith: Tags, s: State) {
    forall m :: m in s.members ==>
      && s.members[m].teamId in s.teams
      && s.members[m].keyVersion == s.teams[s.members[m].teamId].keyVersion
      && madeWith(s.members[m].wrap.ciphertext) == s.teams[s.members[m].teamId].keyVersion
  }

  lemma RemovalKeepsWraps(registry: seq<Resource>, madeWith: Tags, s: State, a: Action, s': State)
    requires WrapsHold(madeWith, s) && IsHonest(registry, madeWith, Operate(a))
    requires a.Remove? && Accepted(registry, s, a) && Effect(s, a, s')
    ensures WrapsHold(madeWith, s')
  {
    RemovalRewrapsTheOthers(registry, s, a, s');
    hide May, HasOtherOwner, Rewrapped, RewrapsFit, Reencrypted, EntriesFit, Under;
    forall m | m in s'.members
      ensures s'.members[m].teamId in s'.teams
      ensures madeWith(s'.members[m].wrap.ciphertext) == s'.teams[s'.members[m].teamId].keyVersion
      ensures s'.members[m].keyVersion == s'.teams[s'.members[m].teamId].keyVersion
    {
      SameTeam(registry, s, a, s', m);
      if s'.members[m].teamId == a.team {
        var i :| 0 <= i < |a.removal.remaining| && a.removal.remaining[i] == Rewrap(m, s'.members[m].wrap);
        assert madeWith(a.removal.remaining[i].wrap.ciphertext) == a.removal.expectedKeyVersion + 1;
      }
    }
  }

  lemma StepKeepsWraps(registry: seq<Resource>, madeWith: Tags, s: State, e: Event, s': State)
    requires WrapsHold(madeWith, s) && IsHonest(registry, madeWith, e) && Outcome(registry, s, e, s')
    ensures WrapsHold(madeWith, s')
  {
    hide EntriesFit, Reencrypted, RewrapsFit, Rewrapped, May, HasOtherOwner, HasMember, Under, Overlaid;
    if e.Operate? && e.action.Remove? && Accepted(registry, s, e.action) {
      RemovalKeepsWraps(registry, madeWith, s, e.action, s');
    }
  }

  /** In every run of honest clients, whoever is a member of a team holds a wrap
      of the key that the team's records are under at that moment: through
      creation, invitation with the current version, and removals. */
  lemma {:induction false} MembersHoldTheTeamKey(
    registry: seq<Resource>, madeWith: Tags, states: seq<State>, events: seq<Event>, i: nat)
    requires IsHistory(registry, madeWith, states, events) && i < |states|
    requires WrapsHold(madeWith, states[0])
    ensures WrapsHold(madeWith, states[i])
  {
    hide WrapsHold, IsHonest, Outcome;
    if i > 0 {
      MembersHoldTheTeamKey(registry, madeWith, states, events, i - 1);
      StepKeepsWraps(registry, madeWith, states[i - 1], events[i - 1], states[i]);
    }
  }

  /** So a member can open every live record of the team: the version in the
      wrap is the version the text was made with. */
  lemma MembersCanRead(
    registry: seq<Resource>, madeWith: Tags, states: seq<State>, events: seq<Event>, i: nat,
    m: Id, r: Resource, k: Key, column: string)
    requires IsHistory(registry, madeWith, states, events) && i < |states|
    requires WrapsHold(madeWith, states[0]) && UnderTeamKeys(registry, madeWith, states[0])
    requires m in states[i].members && r in registry && r.teamScoped && k in states[i].records && k.kind == r.kind
    requires IsTeamRecord(states[i].records[k], states[i].members[m].teamId)
    requires HoldsText(states[i].records[k].columns, column) && IsCiphertext(r, column)
    ensures madeWith(states[i].members[m].wrap.ciphertext) == madeWith(states[i].records[k].columns[column].text)
  {
    MembersHoldTheTeamKey(registry, madeWith, states, events, i);
    AlwaysUnderTheTeamKey(registry, madeWith, states, events, i);
    assert RowUnderTeamKey(madeWith, states[i], states[i].records[k], r);
    hide IsHistory;
  }
}
