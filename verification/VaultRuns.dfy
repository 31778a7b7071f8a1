/** Three concrete runs of the vault protocol, from an empty server. */
module VaultRuns {
  import opened Wrappers
  import opened VaultRotation
  import opened VaultProtocol
  import opened LostUpdates

  const NOBODY := System(Db(map[], map[], map[], map[]), map[], map[])

  const USER := User(0, "salt", "params", Text("p", 0), "n", true)

  function RefreshOf(session: Id): RefreshToken {
    RefreshToken("u", session, Some(100), false, false)
  }

  const TWO_SESSIONS := map["A" := Session("u", 0), "B" := Session("u", 0)]

  const TWO_ACCESS := map["aa" := AccessToken("u", "A"), "ab" := AccessToken("u", "B")]

  function Registered(): System {
    System(Db(map["u" := USER], map[], map[], map[]), map[], map[])
  }

  function OneSession(): System {
    System(Db(map["u" := USER], map[], map["ha" := RefreshOf("A")], map["aa" := AccessToken("u", "A")]),
           map["A" := Session("u", 0)], map[])
  }

  function TwoSessions(records: map<Key, Record>, pending: map<nat, Write>): System {
    System(Db(map["u" := USER], records, map["ha" := RefreshOf("A"), "hb" := RefreshOf("B")], TWO_ACCESS),
           TWO_SESSIONS, pending)
  }

  const SIGN_IN_A := SignIn("u", "A", "aa", "ha", 100)

  const SIGN_IN_B := SignIn("u", "B", "ab", "hb", 100)

  lemma SigningIn(registry: seq<Resource>)
    ensures Enabled(NOBODY, Register("u", USER)) && Next(registry, NOBODY, Register("u", USER)) == Registered()
    ensures Enabled(Registered(), SIGN_IN_A) && Next(registry, Registered(), SIGN_IN_A) == OneSession()
    ensures Enabled(OneSession(), SIGN_IN_B) && Next(registry, OneSession(), SIGN_IN_B) == TwoSessions(map[], map[])
  {
  }

  // ---------- Another session's refresh token ----------

  const BORROWED := Payload(0, "hb", "salt2", "params2", Text("q", 1), "n2", [])

  const BORROWING := Rotate("u", "A", Some("aa"), BORROWED, 0, "t")

  lemma BorrowedIsAccepted(registry: seq<Resource>)
    ensures Enabled(TwoSessions(map[], map[]), BORROWING)
    ensures RotationAccepted(registry, TwoSessions(map[], map[]).db, "u", BORROWED, 0)
    ensures !RotatesAlone(TwoSessions(map[], map[]), "A", Some("aa"), BORROWED)
  {
    hide CompleteReplacement;
    var db := TwoSessions(map[], map[]).db;
    forall r | r in registry
      ensures TypeFits(db.records, [], r, "u")
    {
    }
  }

  ghost function BorrowingStates(registry: seq<Resource>): (states: seq<System>)
    requires Enabled(TwoSessions(map[], map[]), BORROWING)
    ensures |states| == 5
  {
    [NOBODY, Registered(), OneSession(), TwoSessions(map[], map[]), Next(registry, TwoSessions(map[], map[]), BORROWING)]
  }

  const BORROWING_ACTIONS := [Register("u", USER), SIGN_IN_A, SIGN_IN_B, BORROWING]

  lemma BorrowingIsAHistory(registry: seq<Resource>)
    ensures Enabled(TwoSessions(map[], map[]), BORROWING)
    ensures IsHistory(registry, BorrowingStates(registry), BORROWING_ACTIONS)
  {
    SigningIn(registry);
    BorrowedIsAccepted(registry);
    hide RotationAccepted, RotatesAlone, Enabled, Next, TwoSessions;
  }

  lemma AfterBorrowing(registry: seq<Resource>)
    ensures Enabled(TwoSessions(map[], map[]), BORROWING)
    ensures var s := Next(registry, TwoSessions(map[], map[]), BORROWING);
      && "hb" in s.db.refreshTokens && s.db.refreshTokens["hb"] == RefreshOf("B")
      && "B" in s.sessions && s.sessions["B"] == Session("u", 0)
      && "u" in s.db.users && s.db.users["u"].privateKey == Text("q", 1)
  {
    BorrowedIsAccepted(registry);
    hide RotationAccepted, RotatesAlone, Enabled, ReplacedRecords;
  }

  /** A client of two sessions rotates in one of them and presents the other's
      refresh token: it is accepted, and the token that survives belongs to a
      session that does not hold the new key. */
  lemma BorrowedTokenSurvives(registry: seq<Resource>)
    ensures Enabled(TwoSessions(map[], map[]), BORROWING)
    ensures var states := BorrowingStates(registry);
      && IsHistory(registry, states, BORROWING_ACTIONS)
      && RotationAccepted(registry, states[3].db, "u", BORROWED, 0) && !RotatesAlone(states[3], "A", Some("aa"), BORROWED)
      && "hb" in states[4].db.refreshTokens && Usable(states[4].db.refreshTokens["hb"], 0)
      && !Current(states[4], "u", states[4].db.refreshTokens["hb"].session)
  {
    BorrowingIsAHistory(registry);
    BorrowedIsAccepted(registry);
    AfterBorrowing(registry);
    hide RotationAccepted, RotatesAlone, Enabled, Next, IsHistory, TwoSessions;
  }

  // ---------- Two writes within one second ----------

  const NAMES := Resource("names", ["a_ciphertext", "a_nonce"], false)

  const ROW := Key("names", "r")

  function Columns(text: string, epoch: nat): map<string, Value> {
    map["a_ciphertext" := Text(text, epoch), "a_nonce" := Text("n", epoch)]
  }

  function Row(text: string, epoch: nat, stamp: string): Record {
    Record("u", None, false, Some(stamp), Columns(text, epoch))
  }

  const CREATE := Write("aa", "u", ROW, true, Columns("one", 0), {})

  const CHANGE := Write("ab", "u", ROW, false, Columns("two", 0), {})

  const STALE := Item("names", "r", Some("10:00:00"), Columns("one again", 1))

  const REPLACING := Payload(0, "ha", "salt2", "params2", Text("q", 1), "n2", [STALE])

  const REPLACE := Rotate("u", "A", Some("aa"), REPLACING, 0, "10:00:05")

  lemma BasesOfNames(base: string)
    ensures IsCipherBase(NAMES.fields, base) <==> base == "a"
  {
    assert CiphertextColumn("a") == "a_ciphertext" && NonceColumn("a") == "a_nonce";
    assert BaseOf("a_ciphertext") == Some("a");
    assert "a_nonce"[|"a_nonce"| - 1] == 'e';
    assert CiphertextColumn(base)[|CiphertextColumn(base)| - 1] == 't';
  }

  lemma CiphertextsOf(text: string, epoch: nat)
    ensures AllUnder(Columns(text, epoch), epoch)
  {
  }

  lemma StaleFits()
    ensures CompleteReplacement(Row("two", 0, "10:00:00"), STALE.fields, NAMES)
  {
    BasesOfNames("a");
    assert CiphertextColumn("a") == "a_ciphertext" && NonceColumn("a") == "a_nonce";
    forall base | IsCipherBase(NAMES.fields, base)
      ensures PairFits(Row("two", 0, "10:00:00"), STALE.fields, base)
    {
      BasesOfNames(base);
    }
  }

  function Stored(text: string): map<Key, Record> {
    map[ROW := Row(text, 0, "10:00:00")]
  }

  lemma StaleIsMadeWithNewKey()
    ensures MadeWith(REPLACING, 1)
  {
    CiphertextsOf("one again", 1);
    hide AllUnder, Columns;
  }

  lemma StaleIsEnabled()
    ensures Enabled(TwoSessions(Stored("two"), map[]), REPLACE)
    ensures RotatesAlone(TwoSessions(Stored("two"), map[]), "A", Some("aa"), REPLACING)
  {
    StaleIsMadeWithNewKey();
    hide MadeWith, Stored;
  }

  lemma StaleItemsFit()
    ensures ItemsFit([NAMES], Stored("two"), [STALE], "u")
  {
    StaleFits();
    hide CompleteReplacement, Columns;
    assert STALE.RecordKey() == ROW;
    assert KeysOf([STALE]) == {ROW} by {
      assert [STALE][0].RecordKey() == ROW;
    }
    assert PersonalKeys(Stored("two"), NAMES, "u") == {ROW};
  }

  lemma StaleIsAccepted()
    ensures RotationAccepted([NAMES], TwoSessions(Stored("two"), map[]).db, "u", REPLACING, 0)
  {
    StaleItemsFit();
    hide ItemsFit, Stored;
  }

  function SameSecondActions(): (actions: seq<Action>)
    ensures |actions| == 8
  {
    [Register("u", USER), SIGN_IN_A, SIGN_IN_B, Begin(0, CREATE), Commit(0, "10:00:00"), Begin(1, CHANGE), Commit(1, "10:00:00"), REPLACE]
  }

  ghost function SameSecondStates(): (states: seq<System>)
    requires Enabled(TwoSessions(Stored("two"), map[]), REPLACE)
    ensures |states| == 9
  {
    [NOBODY, Registered(), OneSession(), TwoSessions(map[], map[]), TwoSessions(map[], map[0 := CREATE]), TwoSessions(Stored("one"), map[]),
     TwoSessions(Stored("one"), map[1 := CHANGE]), TwoSessions(Stored("two"), map[]),
     Next([NAMES], TwoSessions(Stored("two"), map[]), REPLACE)]
  }

  lemma Creating()
    ensures Enabled(TwoSessions(map[], map[]), Begin(0, CREATE))
    ensures Next([NAMES], TwoSessions(map[], map[]), Begin(0, CREATE)) == TwoSessions(map[], map[0 := CREATE])
    ensures Enabled(TwoSessions(map[], map[0 := CREATE]), Commit(0, "10:00:00"))
    ensures Next([NAMES], TwoSessions(map[], map[0 := CREATE]), Commit(0, "10:00:00")) == TwoSessions(Stored("one"), map[])
  {
    CiphertextsOf("one", 0);
    hide AllUnder, Columns;
  }

  lemma ChangeBegins()
    ensures Enabled(TwoSessions(Stored("one"), map[]), Begin(1, CHANGE))
    ensures Next([NAMES], TwoSessions(Stored("one"), map[]), Begin(1, CHANGE)) == TwoSessions(Stored("one"), map[1 := CHANGE])
  {
    CiphertextsOf("two", 0);
    hide AllUnder, Columns, Stored;
  }

  lemma ChangeEdits()
    ensures Edited(Row("one", 0, "10:00:00"), CHANGE, "10:00:00") == Row("two", 0, "10:00:00")
  {
    assert Columns("one", 0) - {} + Columns("two", 0) == Columns("two", 0);
    assert Columns("one", 0)["a_ciphertext"] != Columns("two", 0)["a_ciphertext"];
  }

  lemma ChangeCommits()
    ensures Enabled(TwoSessions(Stored("one"), map[1 := CHANGE]), Commit(1, "10:00:00"))
    ensures Next([NAMES], TwoSessions(Stored("one"), map[1 := CHANGE]), Commit(1, "10:00:00")) == TwoSessions(Stored("two"), map[])
  {
    ChangeEdits();
    hide AllUnder, Columns, Edited;
  }

  lemma Changing()
    ensures Enabled(TwoSessions(Stored("one"), map[]), Begin(1, CHANGE))
    ensures Next([NAMES], TwoSessions(Stored("one"), map[]), Begin(1, CHANGE)) == TwoSessions(Stored("one"), map[1 := CHANGE])
    ensures Enabled(TwoSessions(Stored("one"), map[1 := CHANGE]), Commit(1, "10:00:00"))
    ensures Next([NAMES], TwoSessions(Stored("one"), map[1 := CHANGE]), Commit(1, "10:00:00")) == TwoSessions(Stored("two"), map[])
  {
    hide Enabled, Next;
    ChangeBegins();
    ChangeCommits();
  }

  /** One session creates a record and is about to rotate what it read; the
      other changes the record within the same second; the rotation is accepted
      and the change is gone. */
  lemma SameSecondLosesAnUpdate()
    ensures Enabled(TwoSessions(Stored("two"), map[]), REPLACE)
    ensures var states, actions := SameSecondStates(), SameSecondActions();
      && IsHistory([NAMES], states, actions)
      && AcceptsReadAt([NAMES], states, actions, 5, 7, STALE)
      && states[5].db.records[ROW].columns["a_ciphertext"] == Text("one", 0)
      && states[7].db.records[ROW].columns["a_ciphertext"] == Text("two", 0)
      && ROW in states[8].db.records && states[8].db.records[ROW].columns == STALE.fields
      && !Unchanged(states, ROW, 5, 7)
  {
    StaleIsEnabled();
    StaleIsAccepted();
    StaleReplaces();
    StatesAreAHistory();
    RowsInBetween();
    assert STALE.RecordKey() == ROW && STALE in SameSecondActions()[7].payload.items && NAMES in [NAMES];
    assert SameSecondActions()[7] == REPLACE && SameSecondStates()[7] == TwoSessions(Stored("two"), map[]);
    hide RotationAccepted, Enabled, Next, IsHistory;
  }

  lemma RowsInBetween()
    ensures Enabled(TwoSessions(Stored("two"), map[]), REPLACE)
    ensures var states := SameSecondStates();
      && RowAt(states, ROW, 5) == Some(Row("one", 0, "10:00:00")) && RowAt(states, ROW, 7) == Some(Row("two", 0, "10:00:00"))
      && states[5].db.records[ROW].columns["a_ciphertext"] == Text("one", 0)
      && states[7].db.records[ROW].columns["a_ciphertext"] == Text("two", 0)
  {
    StaleIsEnabled();
    hide Enabled, Next;
  }

  lemma RowReplaced(stamp: string)
    ensures var after := ReplacedRecords([NAMES], Stored("two"), [STALE], stamp);
      ROW in after && after[ROW].columns == STALE.fields
  {
    assert NAMES in [NAMES] && IsRegistered([NAMES], "names");
    assert [STALE][..0] == [] && Submitted([STALE]) == map[ROW := STALE];
    assert Columns("two", 0) + STALE.fields == STALE.fields;
    hide Submitted, Columns;
  }

  lemma StaleReplaces()
    ensures Enabled(TwoSessions(Stored("two"), map[]), REPLACE)
    ensures var after := Next([NAMES], TwoSessions(Stored("two"), map[]), REPLACE).db.records;
      ROW in after && after[ROW].columns == STALE.fields
  {
    StaleIsEnabled();
    StaleIsAccepted();
    RowReplaced("10:00:05");
    hide RotationAccepted, Enabled, ReplacedRecords, Stored, RotatedUser, RevokeOthers, DropOthers;
  }

  lemma StatesAreAHistory()
    ensures Enabled(TwoSessions(Stored("two"), map[]), REPLACE)
    ensures IsHistory([NAMES], SameSecondStates(), SameSecondActions())
  {
    SigningIn([NAMES]);
    Creating();
    Changing();
    StaleIsEnabled();
    hide RotationAccepted, RotatesAlone, Enabled, Next, TwoSessions, Stored;
  }

  // ---------- A write in flight on the surviving token ----------

  function InFlight(): System {
    OneSession().(pending := map[0 := CREATE])
  }

  const OWN := Payload(0, "ha", "salt2", "params2", Text("q", 1), "n2", [])

  const ROTATE := Rotate("u", "A", Some("aa"), OWN, 0, "10:00:05")

  lemma WriteBegins()
    ensures Enabled(OneSession(), Begin(0, CREATE)) && Next([NAMES], OneSession(), Begin(0, CREATE)) == InFlight()
  {
    CiphertextsOf("one", 0);
    hide AllUnder, Columns;
  }

  lemma OwnIsAccepted()
    ensures Enabled(InFlight(), ROTATE)
    ensures RotationAccepted([NAMES], InFlight().db, "u", OWN, 0)
  {
    hide CompleteReplacement, Columns;
  }

  lemma WriteIsOnTheSurvivingToken()
    ensures OWN.refreshTokenHash in InFlight().db.refreshTokens && InFlight().db.refreshTokens[OWN.refreshTokenHash].session == "A"
    ensures !RotatesAlone(InFlight(), "A", Some("aa"), OWN)
  {
    assert InFlight().pending[0].put == Columns("one", 0) && BaseOf("a_ciphertext") == Some("a");
    assert HoldsCiphertext(Columns("one", 0), "a_ciphertext");
  }

  ghost function InFlightStates(): (states: seq<System>)
    requires Enabled(InFlight(), ROTATE)
    ensures |states| == 6
  {
    var rotated := Next([NAMES], InFlight(), ROTATE);
    [NOBODY, Registered(), OneSession(), InFlight(), rotated, rotated.(db := Written(rotated.db, CREATE, "10:00:06"), pending := map[])]
  }

  const IN_FLIGHT_ACTIONS := [Register("u", USER), SIGN_IN_A, Begin(0, CREATE), ROTATE, Commit(0, "10:00:06")]

  lemma AfterItsRotation()
    ensures Enabled(InFlight(), ROTATE)
    ensures var s := Next([NAMES], InFlight(), ROTATE);
      && s.pending == map[0 := CREATE] && "aa" in s.db.accessTokens && s.db.records == map[]
      && "u" in s.db.users && s.db.users["u"].privateKey == Text("q", 1)
  {
    OwnIsAccepted();
    hide RotationAccepted, Enabled, RevokeOthers;
    assert Submitted([]) == map[];
    hide Submitted, CREATE;
  }

  lemma LateCommit()
    ensures Enabled(InFlight(), ROTATE)
    ensures var states := InFlightStates();
      && Enabled(states[4], IN_FLIGHT_ACTIONS[4]) && Next([NAMES], states[4], IN_FLIGHT_ACTIONS[4]) == states[5]
      && ROW in states[5].db.records && states[5].db.records[ROW] == Record("u", None, false, Some("10:00:06"), Columns("one", 0))
      && "u" in states[5].db.users && states[5].db.users["u"].privateKey == Text("q", 1)
  {
    AfterItsRotation();
    hide RotationAccepted, Rotated, InFlight, Columns;
  }

  lemma InFlightStatesAreAHistory()
    ensures Enabled(InFlight(), ROTATE)
    ensures IsHistory([NAMES], InFlightStates(), IN_FLIGHT_ACTIONS)
  {
    SigningIn([NAMES]);
    WriteBegins();
    OwnIsAccepted();
    LateCommit();
    hide RotationAccepted, Enabled, Next, InFlight, Written;
  }

  /** The user's live record has a text of the first key, though theirs is now
      the second. */
  predicate HoldsOldText(s: System) {
    && ROW in s.db.records && IsPersonal(s.db.records[ROW], NAMES, "u")
    && "a_ciphertext" in s.db.records[ROW].columns && s.db.records[ROW].columns["a_ciphertext"] == Text("one", 0)
    && "u" in s.db.users && s.db.users["u"].privateKey == Text("q", 1)
  }

  lemma OldTextIsNotUnderTheKey(s: System)
    requires HoldsOldText(s)
    ensures !RecordsUnderKey([NAMES], s.db)
  {
    BasesOfNames("a");
    assert NAMES in [NAMES] && CiphertextColumn("a") == "a_ciphertext";
    assert IsCipherBase(NAMES.fields, "a") && Populated(s.db.records[ROW], CiphertextColumn("a"));
    hide IsCipherBase;
  }

  /** A client begins a write, rotates in the same session with its own refresh
      token and only then commits the write: it lands, under the old key. */
  lemma WriteInFlightKeepsTheOldKey()
    ensures Enabled(InFlight(), ROTATE)
    ensures var states := InFlightStates();
      && IsHistory([NAMES], states, IN_FLIGHT_ACTIONS)
      && RotationAccepted([NAMES], states[3].db, "u", OWN, 0) && !RotatesAlone(states[3], "A", Some("aa"), OWN)
      && OWN.refreshTokenHash in states[3].db.refreshTokens && states[3].db.refreshTokens[OWN.refreshTokenHash].session == "A"
      && HoldsOldText(states[5]) && !RecordsUnderKey([NAMES], states[5].db) && DistinctKinds([NAMES])
  {
    InFlightStatesAreAHistory();
    OwnIsAccepted();
    WriteIsOnTheSurvivingToken();
    LateCommit();
    assert Columns("one", 0)["a_ciphertext"] == Text("one", 0);
    assert InFlightStates()[3] == InFlight();
    hide IsHistory, RotationAccepted, RotatesAlone, Enabled, Next, InFlight, Columns;
    OldTextIsNotUnderTheKey(InFlightStates()[5]);
  }
}
