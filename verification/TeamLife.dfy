/** A concrete life of a team: created, joined, written to, and left by a removal
    that moves everything to the next key. */
module TeamLife {
  import opened Wrappers
  import opened TeamService
  import opened TeamRuns
  import opened TeamRecords
  import opened TeamWraps

  const NOTES := Resource("notes", ["a_ciphertext", "a_nonce"], true)

  const KEYS := Resource("keys", ["b_ciphertext", "b_nonce"], false)

  const REGISTRY := [NOTES, KEYS]

  /** Texts that end in 1 are under the first key. */
  function EndsInOne(text: string): nat {
    if text != "" && text[|text| - 1] == '1' then 1 else 2
  }

  const USERS := map["u" := Account(false), "v" := Account(false)]

  const EMPTY := State(USERS, map[], map[], map[])

  const NAME := Cipher("name1", "n")

  const NEXT_NAME := Cipher("name2", "n")

  const OWNER := Membership("t", "u", Owner, Cipher("wu1", "n"), 1)

  const JOINED := Membership("t", "v", Member, Cipher("wv1", "n"), 1)

  const REWRAPPED := Membership("t", "u", Owner, Cipher("wu2", "n"), 2)

  const ROW := Key("notes", "r")

  function Columns(text: string): map<string, Value> {
    map["a_ciphertext" := Text(text), "a_nonce" := Text("n")]
  }

  function Row(text: string): Record {
    Record(Some("t"), false, Columns(text))
  }

  const REMOVAL := Removal(1, NAME, NEXT_NAME, [Rewrap("mu", Cipher("wu2", "n"))], [Entry("notes", "r", Columns("x1"), Columns("x2"))])

  function Events(): (events: seq<Event>)
    ensures |events| == 4
  {
    [Operate(Create("u", "t", "mu", NAME, OWNER.wrap)),
     Operate(Add("u", "t", "mv", "v", Member, 1, JOINED.wrap)),
     Store("v", ROW, "t", Some(1), Columns("x1")),
     Operate(Remove("u", "t", "mv", REMOVAL))]
  }

  function States(): (states: seq<State>)
    ensures |states| == 5
  {
    var team := map["t" := Team(NAME, 1, false)];
    var both := map["mu" := OWNER, "mv" := JOINED];
    [EMPTY,
     State(USERS, team, map["mu" := OWNER], map[]),
     State(USERS, team, both, map[]),
     State(USERS, team, both, map[ROW := Row("x1")]),
     State(USERS, map["t" := Team(NEXT_NAME, 2, false)], map["mu" := REWRAPPED], map[ROW := Row("x2")])]
  }

  lemma OwnerMay(s: State, p: Permission)
    requires "mu" in s.members && s.members["mu"] == OWNER
    ensures May(s, "u", "t", p)
  {
    assert HasRight(s.members["mu"], "t", "u", p);
  }

  lemma Joining()
    ensures var s, e := States(), Events();
      Allowed(REGISTRY, s[0], e[0]) && Outcome(REGISTRY, s[0], e[0], s[1])
      && Allowed(REGISTRY, s[1], e[1]) && Outcome(REGISTRY, s[1], e[1], s[2])
  {
    OwnerMay(States()[1], ManageMembers);
    hide May;
    assert !HasMember(States()[1], "t", "v");
  }

  lemma Writing()
    ensures var s, e := States(), Events();
      Allowed(REGISTRY, s[2], e[2]) && Outcome(REGISTRY, s[2], e[2], s[3])
  {
    assert HasRight(States()[2].members["mv"], "t", "v", WriteRecords);
    hide HasRight;
    assert NOTES in REGISTRY && IsTeamKind(REGISTRY, "notes");
    hide IsTeamKind;
    assert Overlaid(Record(Some("t"), false, map[]), Columns("x1")) == Row("x1");
  }

  lemma ColumnsAreEncrypted(column: string)
    ensures IsEncrypted(NOTES, column) <==> column == "a_ciphertext" || column == "a_nonce"
  {
  }

  lemma EntryIsAccepted()
    ensures EntryFits(Row("x1"), REMOVAL.resources[0], NOTES)
    ensures Overlaid(Row("x1"), Columns("x2")) == Row("x2")
  {
    ColumnsAreEncrypted("a_ciphertext");
    ColumnsAreEncrypted("a_nonce");
    hide IsEncrypted;
    assert EncryptedColumns(Row("x1"), NOTES) == Columns("x1");
    assert Overlaid(Row("x1"), Columns("x2")).columns == Columns("x2");
  }

  lemma EntriesAreAccepted()
    ensures EntriesFit(REGISTRY, map[ROW := Row("x1")], "t", REMOVAL.resources)
    ensures Reencrypted(map[ROW := Row("x1")], map[ROW := Row("x2")], REMOVAL.resources)
  {
    EntryIsAccepted();
    hide EntryFits, Overlaid, Columns;
    assert NOTES in REGISTRY && REMOVAL.resources[0].RecordKey() == ROW;
    assert TeamKeys(REGISTRY, map[ROW := Row("x1")], "t") == {ROW};
    assert KeysOf(REMOVAL.resources) == {ROW};
  }

  lemma MembersAreRewrapped()
    ensures RewrapsFit(States()[3], "t", "mv", REMOVAL.remaining)
    ensures Rewrapped(States()[3].members - {"mv"}, States()[4].members, REMOVAL.remaining, 2)
  {
    assert MemberIds(REMOVAL.remaining) == {"mu"} by {
      assert REMOVAL.remaining[0].memberId == "mu";
    }
    assert Remaining(States()[3], "t", "mv") == {"mu"};
  }

  lemma RemovalIsAccepted()
    ensures Accepted(REGISTRY, States()[3], Events()[3].action)
  {
    OwnerMay(States()[3], ManageMembers);
    MembersAreRewrapped();
    EntriesAreAccepted();
    hide May, RewrapsFit, Rewrapped, EntriesFit, Reencrypted, Columns, Row, HasOtherOwner;
  }

  lemma RemovalTakesEffect()
    ensures Effect(States()[3], Events()[3].action, States()[4])
  {
    MembersAreRewrapped();
    EntriesAreAccepted();
    hide RewrapsFit, Rewrapped, EntriesFit, Reencrypted, Columns, Row;
  }

  lemma Removing()
    ensures var s, e := States(), Events();
      Allowed(REGISTRY, s[3], e[3]) && Outcome(REGISTRY, s[3], e[3], s[4])
  {
    RemovalIsAccepted();
    RemovalTakesEffect();
    hide Accepted, Effect;
  }

  lemma TextIsUnder(text: string, version: nat)
    requires EndsInOne(text) == version
    ensures Under(EndsInOne, Columns(text), NOTES, version)
  {
    forall c | IsCiphertext(NOTES, c)
      ensures c == "a_ciphertext"
    {
      assert "a_nonce"[|"a_nonce"| - 1] == 'e' && "_ciphertext"[|"_ciphertext"| - 1] == 't';
    }
  }

  lemma ClientsAreHonest()
    ensures forall i :: 0 <= i < 4 ==> IsHonest(REGISTRY, EndsInOne, Events()[i])
  {
    TextIsUnder("x1", 1);
    TextIsUnder("x2", 2);
    hide Under, Columns;
    var rewrap := REMOVAL.remaining[0];
    assert EndsInOne(rewrap.wrap.ciphertext) == 2;
    assert EndsInOne(NAME.ciphertext) == 1 && EndsInOne(NEXT_NAME.ciphertext) == 2;
    assert EndsInOne(OWNER.wrap.ciphertext) == 1 && EndsInOne(JOINED.wrap.ciphertext) == 1;
  }

  lemma LifeIsAHistory()
    ensures IsHistory(REGISTRY, EndsInOne, States(), Events())
    ensures forall i :: 0 <= i < 4 ==> Allowed(REGISTRY, States()[i], Events()[i])
  {
    Joining();
    Writing();
    Removing();
    ClientsAreHonest();
    hide Allowed, Outcome, IsHonest, States, Events;
  }

  lemma EmptyIsInOrder()
    ensures Inv(EMPTY) && UnderTeamKeys(REGISTRY, EndsInOne, EMPTY) && WrapsHold(EndsInOne, EMPTY)
  {
  }

  /** Everything the operations are for happens in this run: the owner invites a
      member, the member stores a record, and the removal of the member is
      accepted and leaves the record, the name and the owner's wrap under the
      next key. */
  lemma ATeamsLife()
    ensures var s, e := States(), Events();
      && s[0] == EMPTY && Inv(EMPTY) && UnderTeamKeys(REGISTRY, EndsInOne, EMPTY) && WrapsHold(EndsInOne, EMPTY)
      && IsHistory(REGISTRY, EndsInOne, s, e) && (forall i :: 0 <= i < 4 ==> Allowed(REGISTRY, s[i], e[i]))
      && s[4] == State(USERS, map["t" := Team(NEXT_NAME, 2, false)], map["mu" := REWRAPPED], map[ROW := Row("x2")])
  {
    LifeIsAHistory();
    EmptyIsInOrder();
    hide Allowed, IsHistory, Inv, UnderTeamKeys, WrapsHold, Row, Columns;
  }
}
