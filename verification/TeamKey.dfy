/** Wrapping a team key for one member: the associated data that binds the
    wrap to its place, the payload layout, and what unwrapping accepts. */
module TeamKey {
  import opened Wrappers
  import opened Bytes
  import opened Decimals
  import Base64

  datatype Error =
    | EmptyPart
    | MissingTeam
    | MissingMember
    | BadVersion
    | WrongLength
    | TooShort
    | UnsupportedPayload
    | BadEncoding
    | CannotOpen
    | CannotDecrypt

  // ---------- Associated data ----------

  function MakeAd(kind: string, id: string): Result<string, Error> {
    if kind == "" || id == "" then Failure(EmptyPart) else Success("trominal:v1:" + kind + ":" + id)
  }

  /** A JavaScript number, as far as `Number.isInteger` tells. */
  datatype Number = Whole(value: int) | NotAnInteger

  datatype Context = Context(team: string, member: string, version: Number)

  /** What `String.prototype.trim` removes. */
  predicate IsJsSpace(c: char) {
    || '\t' <= c <= '\r' || c == ' ' || c == '\U{a0}' || c == '\U{1680}' || '\U{2000}' <= c <= '\U{200a}'
    || c == '\U{2028}' || c == '\U{2029}' || c == '\U{202f}' || c == '\U{205f}' || c == '\U{3000}' || c == '\U{feff}'
  }

  predicate IsBlank(s: string) {
    forall i :: 0 <= i < |s| ==> IsJsSpace(s[i])
  }

  function ContextError(c: Context): Option<Error> {
    if IsBlank(c.team) then Some(MissingTeam)
    else if IsBlank(c.member) then Some(MissingMember)
    else if c.version.NotAnInteger? || c.version.value < 1 then Some(BadVersion)
    else None
  }

  function Place(c: Context): string {
    c.team + ":member:" + c.member
  }

  function MakeTeamKeyAd(c: Context): Result<string, Error> {
    if ContextError(c).Some? then Failure(ContextError(c).value)
    else MakeAd("team_key", Place(c) + ":v" + Decimal(c.version.value))
  }

  const WHITE_SPACE_CODES := {9, 10, 11, 12, 13, 32, 160, 5760, 8192, 8193, 8194, 8195, 8196, 8197, 8198, 8199, 8200, 8201, 8202,
    8232, 8233, 8239, 8287, 12288, 65279}

  lemma JsSpaceCodes(c: char)
    ensures IsJsSpace(c) <==> c as int in WHITE_SPACE_CODES
  {
  }

  /** The team's name is looked at first, then the member's, then the version;
      with all three there the data is a colon-separated text of them. */
  lemma AdErrors(c: Context)
    ensures MakeTeamKeyAd(c) == Failure(MissingTeam) <==> forall i :: 0 <= i < |c.team| ==> c.team[i] as int in WHITE_SPACE_CODES
    ensures MakeTeamKeyAd(c) == Failure(MissingMember) <==>
      !IsBlank(c.team) && forall i :: 0 <= i < |c.member| ==> c.member[i] as int in WHITE_SPACE_CODES
    ensures MakeTeamKeyAd(c) == Failure(BadVersion) <==>
      !IsBlank(c.team) && !IsBlank(c.member) && (c.version == NotAnInteger || c.version.value <= 0)
    ensures MakeTeamKeyAd(c).Success? ==> c.version.Whole? && c.version.value > 0
    ensures MakeTeamKeyAd(c).Success? ==>
      MakeTeamKeyAd(c).value == "trominal:v1:team_key:" + c.team + ":member:" + c.member + ":v" + Decimal(c.version.value)
    ensures MakeTeamKeyAd(c) != Failure(EmptyPart)
  {
    forall ch: char
      ensures IsJsSpace(ch) <==> ch as int in WHITE_SPACE_CODES
    {
      JsSpaceCodes(ch);
    }
    hide IsJsSpace;
    assert Place(c) + ":v" != "";
    if c.version.Whole? && c.version.value > 0 {
      AdText(c.team, c.member, Decimal(c.version.value));
    }
  }

  lemma AdText(team: string, member: string, version: string)
    ensures "trominal:v1:" + "team_key" + ":" + ((team + ":member:" + member) + ":v" + version)
         == "trominal:v1:team_key:" + team + ":member:" + member + ":v" + version
  {
    assert "trominal:v1:" + "team_key" + ":" == "trominal:v1:team_key:";
  }

  predicate ColonFree(s: string) {
    forall i :: 0 <= i < |s| ==> s[i] != ':'
  }

  lemma FirstColon(a: string, restA: string, b: string, restB: string)
    requires ColonFree(a) && ColonFree(b)
    requires a + (":" + restA) == b + (":" + restB)
    ensures a == b && restA == restB
  {
    var s := a + (":" + restA);
    assert s[|a|] == ':' && s[|b|] == ':';
    assert forall i :: 0 <= i < |a| ==> s[i] == a[i];
    assert forall i :: 0 <= i < |b| ==> s[i] == b[i];
    assert |a| == |b|;
    assert s[..|a|] == a && s[..|a|] == b;
    assert s[|a| + 1..] == restA && s[|a| + 1..] == restB;
  }

  lemma LastColon(a: string, digitsA: string, b: string, digitsB: string)
    requires ColonFree(digitsA) && ColonFree(digitsB)
    requires a + ":v" + digitsA == b + ":v" + digitsB
    ensures a == b && digitsA == digitsB
  {
    var s := a + ":v" + digitsA;
    assert s[|a|] == ':' && s[|b|] == ':' && s[|a| + 1] == 'v' && s[|b| + 1] == 'v';
    assert forall i :: |a| + 2 <= i < |s| ==> s[i] == digitsA[i - |a| - 2];
    assert forall i :: |b| + 2 <= i < |s| ==> s[i] == digitsB[i - |b| - 2];
    assert |a| == |b|;
    assert s[..|a|] == a && s[..|a|] == b;
    assert s[|a| + 2..] == digitsA && s[|a| + 2..] == digitsB;
  }

  /** Associated data of different kinds never meet, as long as no kind holds a
      colon; ids may hold anything. */
  lemma AdBindsKindAndId(kindA: string, idA: string, kindB: string, idB: string)
    requires MakeAd(kindA, idA).Success? && MakeAd(kindB, idB).Success?
    requires ColonFree(kindA) && ColonFree(kindB)
    ensures MakeAd(kindA, idA) == MakeAd(kindB, idB) <==> kindA == kindB && idA == idB
    ensures MakeAd("", idA).Failure? && MakeAd(kindA, "").Failure?
  {
    var head := "trominal:v1:";
    var a, b := MakeAd(kindA, idA).value, MakeAd(kindB, idB).value;
    assert a == head + (kindA + (":" + idA)) && b == head + (kindB + (":" + idB));
    if a == b {
      assert a[|head|..] == kindA + (":" + idA) && b[|head|..] == kindB + (":" + idB);
      FirstColon(kindA, idA, kindB, idB);
    }
  }

  /** In full generality the data fixes the version and the place text. */
  lemma TeamKeyAdsAgreeIff(c: Context, d: Context)
    requires MakeTeamKeyAd(c).Success? && MakeTeamKeyAd(d).Success?
    ensures MakeTeamKeyAd(c) == MakeTeamKeyAd(d) <==> c.version == d.version && Place(c) == Place(d)
  {
    var m, n := Decimal(c.version.value), Decimal(d.version.value);
    AdBindsKindAndId("team_key", Place(c) + ":v" + m, "team_key", Place(d) + ":v" + n);
    if MakeTeamKeyAd(c) == MakeTeamKeyAd(d) {
      LastColon(Place(c), m, Place(d), n);
      DecimalIsInjective(c.version.value, d.version.value);
    }
  }

  /** Different contexts, different data, when team ids hold no colon. */
  lemma TeamKeyAdIsInjective(c: Context, d: Context)
    requires MakeTeamKeyAd(c).Success? && MakeTeamKeyAd(d).Success?
    requires ColonFree(c.team) && ColonFree(d.team)
    ensures MakeTeamKeyAd(c) == MakeTeamKeyAd(d) <==> c == d
  {
    TeamKeyAdsAgreeIff(c, d);
    if MakeTeamKeyAd(c) == MakeTeamKeyAd(d) {
      assert Place(c) == c.team + (":" + ("member:" + c.member));
      assert Place(d) == d.team + (":" + ("member:" + d.member));
      FirstColon(c.team, "member:" + c.member, d.team, "member:" + d.member);
      assert c.member == ("member:" + c.member)[7..] == ("member:" + d.member)[7..] == d.member;
    }
  }

  /** With a colon in a team id two contexts can share their data. */
  lemma ColonsInTeamIdsCollide()
    ensures var c, d := Context("a:member:b", "c", Whole(1)), Context("a", "b:member:c", Whole(1));
      c != d && MakeTeamKeyAd(c).Success? && MakeTeamKeyAd(c) == MakeTeamKeyAd(d)
  {
    var c, d := Context("a:member:b", "c", Whole(1)), Context("a", "b:member:c", Whole(1));
    assert !IsJsSpace(c.team[0]) && !IsJsSpace(d.team[0]) && !IsJsSpace(c.member[0]) && !IsJsSpace(d.member[0]);
    assert Place(c) == "a:member:b:member:c" == Place(d);
  }

  // ---------- The payload ----------

  const TEAM_KEY_LENGTH := 32
  const SEALED_LENGTH := 80
  const NONCE_LENGTH := 24

  /** "TRTK1" */
  const PREFIX: bytes := [84, 82, 84, 75, 49]

  function Join(box: bytes, sealed: bytes): bytes {
    PREFIX + box + sealed
  }

  function Split(payload: bytes): Result<(bytes, bytes), Error> {
    if |payload| <= |PREFIX| + SEALED_LENGTH then Failure(TooShort)
    else if payload[..|PREFIX|] != PREFIX then Failure(UnsupportedPayload)
    else Success((payload[|PREFIX|..|PREFIX| + SEALED_LENGTH], payload[|PREFIX| + SEALED_LENGTH..]))
  }

  method JoinPayload(box: bytes, sealed: bytes) returns (payload: array<byte>)
    ensures fresh(payload) && payload[..] == Join(box, sealed)
  {
    payload := new byte[|PREFIX| + |box| + |sealed|](_ => 0);
    Copy(PREFIX, payload, 0);
    Copy(box, payload, |PREFIX|);
    Copy(sealed, payload, |PREFIX| + |box|);
    assert payload[..] == payload[..|PREFIX|] + payload[|PREFIX|..|PREFIX| + |box|] + payload[|PREFIX| + |box|..];
  }

  /** A typed array's `set`. */
  method Copy(source: bytes, target: array<byte>, offset: nat)
    requires offset + |source| <= target.Length
    modifies target
    ensures target[..offset] == old(target[..offset])
    ensures target[offset..offset + |source|] == source
    ensures target[offset + |source|..] == old(target[offset + |source|..])
  {
    forall k | 0 <= k < |source| {
      target[offset + k] := source[k];
    }
  }

  method SplitPayload(payload: bytes) returns (r: Result<(bytes, bytes), Error>)
    ensures r == Split(payload)
  {
    if |payload| <= |PREFIX| + SEALED_LENGTH {
      return Failure(TooShort);
    }
    var i := 0;
    while i < |PREFIX|
      invariant 0 <= i <= |PREFIX|
      invariant payload[..i] == PREFIX[..i]
    {
      if payload[i] != PREFIX[i] {
        assert payload[..|PREFIX|][i] != PREFIX[i];
        return Failure(UnsupportedPayload);
      }
      i := i + 1;
    }
    assert PREFIX[..i] == PREFIX;
    return Success((payload[|PREFIX|..|PREFIX| + SEALED_LENGTH], payload[|PREFIX| + SEALED_LENGTH..]));
  }

  /** Splitting accepts exactly the joins of an 80-byte box and a non-empty body. */
  lemma SplitUndoesJoinIff(payload: bytes, box: bytes, sealed: bytes)
    ensures Split(payload) == Success((box, sealed)) <==> payload == Join(box, sealed) && |box| == SEALED_LENGTH && sealed != []
  {
    if Split(payload) == Success((box, sealed)) {
      assert payload == payload[..5] + payload[5..85] + payload[85..];
    }
    var joined := Join(box, sealed);
    assert joined[..5] == PREFIX;
    if |box| == SEALED_LENGTH {
      assert joined[5..85] == box && joined[85..] == sealed;
    }
  }

  // ---------- Wrapping and unwrapping ----------

  datatype Wrapped = Wrapped(ciphertext: string, nonce: string)

  /** One honest wrap, with the random values drawn for it and the two
      ciphertexts the primitives answered. */
  datatype Wrap = Wrap(
    teamKey: bytes,
    recipient: bytes,
    context: Context,
    wrapKey: bytes,
    nonce: bytes,
    box: bytes,
    sealed: bytes)

  predicate WellFormed(w: Wrap) {
    && |w.teamKey| == TEAM_KEY_LENGTH && |w.recipient| == 32 && MakeTeamKeyAd(w.context).Success?
    && |w.nonce| == NONCE_LENGTH && |w.box| == SEALED_LENGTH && |w.sealed| == TEAM_KEY_LENGTH + 16
  }

  /** Everything ever wrapped. Wrap keys and boxes are random, hence never repeat. */
  ghost predicate Honest(history: seq<Wrap>) {
    && (forall i :: 0 <= i < |history| ==> WellFormed(history[i]))
    && (forall i, j :: 0 <= i < j < |history| ==> history[i].wrapKey != history[j].wrapKey)
    && (forall i, j :: 0 <= i < j < |history| ==> history[i].box != history[j].box)
  }

  /** The ideal sealed box: only the holder of the private half opens it. */
  function Open(history: seq<Wrap>, box: bytes, public: bytes): (key: Option<bytes>)
    ensures key.Some? ==> exists i :: 0 <= i < |history| && history[i].box == box && history[i].recipient == public && history[i].wrapKey == key.value
    ensures key.None? ==> forall i :: 0 <= i < |history| ==> !(history[i].box == box && history[i].recipient == public)
  {
    if history == [] then None
    else
      var last := history[|history| - 1];
      if last.box == box && last.recipient == public then Some(last.wrapKey)
      else Open(history[..|history| - 1], box, public)
  }

  predicate Sealed(w: Wrap, sealed: bytes, ad: string, nonce: bytes, key: bytes) {
    w.wrapKey == key && w.nonce == nonce && w.sealed == sealed && MakeTeamKeyAd(w.context) == Success(ad)
  }

  /** The ideal cipher: only what was sealed under the same key, nonce and data opens. */
  function Decrypt(history: seq<Wrap>, sealed: bytes, ad: string, nonce: bytes, key: bytes): (message: Option<bytes>)
    ensures message.Some? ==> exists i :: 0 <= i < |history| && Sealed(history[i], sealed, ad, nonce, key) && history[i].teamKey == message.value
    ensures message.None? ==> forall i :: 0 <= i < |history| ==> !Sealed(history[i], sealed, ad, nonce, key)
  {
    if history == [] then None
    else
      var last := history[|history| - 1];
      if Sealed(last, sealed, ad, nonce, key) then Some(last.teamKey)
      else Decrypt(history[..|history| - 1], sealed, ad, nonce, key)
  }

  function WrappedOf(w: Wrap): Wrapped {
    Wrapped(Base64.Encode(Join(w.box, w.sealed)), Base64.Encode(w.nonce))
  }

  /** What is stored of a wrap: five letters, an 80-byte box and a 32-byte key
      with its 16-byte tag, and a 24-byte nonce. */
  lemma WrapShape(w: Wrap)
    requires WellFormed(w)
    ensures var payload := Base64.Decode(WrappedOf(w).ciphertext);
      && payload.Some? && |payload.value| == 5 + 80 + 32 + 16
      && forall i :: 0 <= i < 5 ==> payload.value[i] == "TRTK1"[i] as int
    ensures Base64.Decode(WrappedOf(w).nonce) == Some(w.nonce) && |w.nonce| == 24
  {
    Base64.DecodeOfEncode(Join(w.box, w.sealed));
    Base64.DecodeOfEncode(w.nonce);
    hide Base64.Encode, Base64.Decode, MakeTeamKeyAd;
    assert Join(w.box, w.sealed)[..5] == PREFIX;
  }

  /** A key pair as the caller holds it; `publicOf` gives a private key's public half. */
  datatype KeyPair = KeyPair(public: bytes, private: bytes)

  function Unwrap(history: seq<Wrap>, publicOf: bytes -> bytes, wrapped: Wrapped, pair: KeyPair, c: Context): Result<bytes, Error> {
    if |pair.public| != 32 || |pair.private| != 32 then Failure(WrongLength)
    else
      var nonce := Base64.Decode(wrapped.nonce);
      if nonce.None? then Failure(BadEncoding)
      else if |nonce.value| != NONCE_LENGTH then Failure(WrongLength)
      else
        var payload := Base64.Decode(wrapped.ciphertext);
        if payload.None? then Failure(BadEncoding)
        else
          var parts := Split(payload.value);
          if parts.Failure? then Failure(parts.error)
          else
            var wrapKey := if publicOf(pair.private) == pair.public then Open(history, parts.value.0, pair.public) else None;
            if wrapKey.None? then Failure(CannotOpen)
            else
              var ad := MakeTeamKeyAd(c);
              if ad.Failure? then Failure(ad.error)
              else
                var teamKey := Decrypt(history, parts.value.1, ad.value, nonce.value, wrapKey.value);
                if teamKey.None? then Failure(CannotDecrypt)
                else if |teamKey.value| != TEAM_KEY_LENGTH then Failure(WrongLength)
                else Success(teamKey.value)
  }

  /** Which error a text gives, from the outside in. */
  lemma UnwrapErrors(history: seq<Wrap>, publicOf: bytes -> bytes, wrapped: Wrapped, pair: KeyPair, c: Context)
    ensures var r, nonce, payload := Unwrap(history, publicOf, wrapped, pair, c), Base64.Decode(wrapped.nonce), Base64.Decode(wrapped.ciphertext);
      if |pair.public| != 32 || |pair.private| != 32 then r == Failure(WrongLength)
      else if nonce == None then r == Failure(BadEncoding)
      else if |nonce.value| != 24 then r == Failure(WrongLength)
      else if payload == None then r == Failure(BadEncoding)
      else if |payload.value| < 86 then r == Failure(TooShort)
      else if payload.value[..5] != PREFIX then r == Failure(UnsupportedPayload)
      else r.Success? || r.error == CannotOpen || r.error == CannotDecrypt || r.error == WrongLength || MakeTeamKeyAd(c) == Failure(r.error)
  {
    hide Base64.Decode, Open, Decrypt, MakeTeamKeyAd;
  }

  /** The wrap in `history` that these inputs open. */
  predicate Opens(w: Wrap, wrapped: Wrapped, pair: KeyPair, c: Context) {
    WrappedOf(w) == wrapped && w.recipient == pair.public && MakeTeamKeyAd(w.context) == MakeTeamKeyAd(c)
  }

  lemma BoxOpens(history: seq<Wrap>, i: nat)
    requires Honest(history) && i < |history|
    ensures Open(history, history[i].box, history[i].recipient) == Some(history[i].wrapKey)
  {
    hide Open, WellFormed;
  }

  lemma SealedOpens(history: seq<Wrap>, i: nat, ad: string)
    requires Honest(history) && i < |history| && MakeTeamKeyAd(history[i].context) == Success(ad)
    ensures var w := history[i]; Decrypt(history, w.sealed, ad, w.nonce, w.wrapKey) == Some(w.teamKey)
  {
    hide Decrypt, MakeTeamKeyAd, WellFormed;
    var w := history[i];
    assert Sealed(w, w.sealed, ad, w.nonce, w.wrapKey);
  }

  lemma WrapOpens(history: seq<Wrap>, publicOf: bytes -> bytes, i: nat, pair: KeyPair, c: Context)
    requires Honest(history) && i < |history|
    requires publicOf(pair.private) == pair.public && |pair.public| == 32 && |pair.private| == 32
    requires Opens(history[i], WrappedOf(history[i]), pair, c)
    ensures Unwrap(history, publicOf, WrappedOf(history[i]), pair, c) == Success(history[i].teamKey)
  {
    var w := history[i];
    hide MakeTeamKeyAd, Base64.Encode, Base64.Decode, Split, Join, Open, Decrypt;
    assert WellFormed(w);
    var ad := MakeTeamKeyAd(c).value;
    BoxOpens(history, i);
    SealedOpens(history, i, ad);
    hide Honest;
    Base64.DecodeOfEncode(Join(w.box, w.sealed));
    Base64.DecodeOfEncode(w.nonce);
    SplitUndoesJoinIff(Join(w.box, w.sealed), w.box, w.sealed);
  }

  lemma OpenedWasWrapped(history: seq<Wrap>, publicOf: bytes -> bytes, wrapped: Wrapped, pair: KeyPair, c: Context) returns (i: nat)
    requires Honest(history) && Unwrap(history, publicOf, wrapped, pair, c).Success?
    ensures i < |history| && Opens(history[i], wrapped, pair, c)
    ensures publicOf(pair.private) == pair.public && |pair.public| == 32 && |pair.private| == 32
  {
    hide MakeTeamKeyAd, Base64.Encode, Base64.Decode, Split, Join;
    var nonce, payload := Base64.Decode(wrapped.nonce).value, Base64.Decode(wrapped.ciphertext).value;
    var (box, sealed) := Split(payload).value;
    var wrapKey := Open(history, box, pair.public).value;
    var ad := MakeTeamKeyAd(c).value;
    var j :| 0 <= j < |history| && history[j].box == box && history[j].recipient == pair.public && history[j].wrapKey == wrapKey;
    var k :| 0 <= k < |history| && Sealed(history[k], sealed, ad, nonce, wrapKey);
    assert j == k;
    i := k;
    Base64.EncodeOfDecode(wrapped.nonce);
    Base64.EncodeOfDecode(wrapped.ciphertext);
    SplitUndoesJoinIff(payload, box, sealed);
  }

  /** Unwrapping returns a key exactly when the text is one that was wrapped
      for that key pair under the same associated data; it returns that key. */
  lemma UnwrapsIffWrapped(history: seq<Wrap>, publicOf: bytes -> bytes, wrapped: Wrapped, pair: KeyPair, c: Context, key: bytes)
    requires Honest(history) && |pair.public| == 32 && |pair.private| == 32
    ensures Unwrap(history, publicOf, wrapped, pair, c) == Success(key) <==>
      publicOf(pair.private) == pair.public
      && exists i :: 0 <= i < |history| && Opens(history[i], wrapped, pair, c) && history[i].teamKey == key
  {
    hide Unwrap, Opens;
    if Unwrap(history, publicOf, wrapped, pair, c).Success? {
      var i := OpenedWasWrapped(history, publicOf, wrapped, pair, c);
      OpensWrapped(history[i], wrapped, pair, c);
      WrapOpens(history, publicOf, i, pair, c);
    }
    if publicOf(pair.private) == pair.public {
      forall i | 0 <= i < |history| && Opens(history[i], wrapped, pair, c)
        ensures Unwrap(history, publicOf, wrapped, pair, c) == Success(history[i].teamKey)
      {
        OpensWrapped(history[i], wrapped, pair, c);
        WrapOpens(history, publicOf, i, pair, c);
      }
    }
  }

  lemma OpensWrapped(w: Wrap, wrapped: Wrapped, pair: KeyPair, c: Context)
    requires Opens(w, wrapped, pair, c)
    ensures wrapped == WrappedOf(w)
  {
  }

  /** One wrap, seen by any other context: it opens for its own and no other. */
  lemma WrapIsBoundToItsContext(history: seq<Wrap>, publicOf: bytes -> bytes, i: nat, pair: KeyPair, c: Context)
    requires Honest(history) && i < |history| && pair.public == history[i].recipient
    requires publicOf(pair.private) == pair.public && |pair.private| == 32
    requires ColonFree(history[i].context.team) && ColonFree(c.team)
    ensures var r := Unwrap(history, publicOf, WrappedOf(history[i]), pair, c);
      if c == history[i].context then r == Success(history[i].teamKey) else r.Failure?
  {
    var w := history[i];
    hide Unwrap, MakeTeamKeyAd;
    if c == w.context {
      WrapOpens(history, publicOf, i, pair, c);
    } else if Unwrap(history, publicOf, WrappedOf(w), pair, c).Success? {
      var j := OpenedWasWrapped(history, publicOf, WrappedOf(w), pair, c);
      SameTextSameWrap(history, i, j);
      TeamKeyAdIsInjective(w.context, c);
      assert false;
    }
  }

  lemma SameTextSameWrap(history: seq<Wrap>, i: nat, j: nat)
    requires Honest(history) && i < |history| && j < |history| && WrappedOf(history[i]) == WrappedOf(history[j])
    ensures i == j
  {
    var w, v := history[i], history[j];
    hide Base64.Encode, Base64.Decode, Split, Join;
    Base64.DecodeOfEncode(Join(w.box, w.sealed));
    Base64.DecodeOfEncode(Join(v.box, v.sealed));
    SplitUndoesJoinIff(Join(w.box, w.sealed), w.box, w.sealed);
    SplitUndoesJoinIff(Join(v.box, v.sealed), v.box, v.sealed);
  }

  // ---------- Wiping ----------

  method Wipe(buffer: array<byte>)
    modifies buffer
    ensures forall i :: 0 <= i < buffer.Length ==> buffer[i] == 0
  {
    forall i | 0 <= i < buffer.Length {
      buffer[i] := 0;
    }
  }

  /** `wrapKey` and `nonce` are the random draws, `box` and `sealed` the two
      ciphertexts. Whatever happens once the wrap key exists, it is wiped. */
  method WrapTeamKey(teamKey: bytes, recipient: bytes, c: Context, wrapKey: array<byte>, nonce: bytes, box: bytes, sealed: bytes)
    returns (r: Result<Wrapped, Error>)
    requires wrapKey.Length == 32 && |nonce| == NONCE_LENGTH && |box| == SEALED_LENGTH && |sealed| == TEAM_KEY_LENGTH + 16
    modifies wrapKey
    ensures r.Success? <==> |teamKey| == TEAM_KEY_LENGTH && |recipient| == 32 && MakeTeamKeyAd(c).Success?
    ensures |teamKey| == TEAM_KEY_LENGTH && |recipient| == 32 ==> forall i :: 0 <= i < wrapKey.Length ==> wrapKey[i] == 0
    ensures r.Success? ==>
      var w := Wrap(teamKey, recipient, c, old(wrapKey[..]), nonce, box, sealed);
      WellFormed(w) && r.value == WrappedOf(w)
  {
    if |teamKey| != TEAM_KEY_LENGTH || |recipient| != 32 {
      return Failure(WrongLength);
    }
    var ad := MakeTeamKeyAd(c);
    if ad.Failure? {
      r := Failure(ad.error);
    } else {
      var payload := JoinPayload(box, sealed);
      r := Success(Wrapped(Base64.Encode(payload[..]), Base64.Encode(nonce)));
    }
    Wipe(wrapKey);
  }

  /** The buffer that held the opened wrap key is wiped on every way out. */
  method UnwrapTeamKey(history: seq<Wrap>, publicOf: bytes -> bytes, wrapped: Wrapped, pair: KeyPair, c: Context)
    returns (r: Result<bytes, Error>, wrapKey: array?<byte>)
    ensures r == Unwrap(history, publicOf, wrapped, pair, c)
    ensures r.Success? ==> wrapKey != null
    ensures wrapKey != null ==> fresh(wrapKey) && forall i :: 0 <= i < wrapKey.Length ==> wrapKey[i] == 0
  {
    wrapKey := null;
    if |pair.public| != 32 || |pair.private| != 32 {
      return Failure(WrongLength), null;
    }
    var nonce := Base64.Decode(wrapped.nonce);
    if nonce.None? {
      return Failure(BadEncoding), null;
    }
    if |nonce.value| != NONCE_LENGTH {
      return Failure(WrongLength), null;
    }
    var payload := Base64.Decode(wrapped.ciphertext);
    if payload.None? {
      return Failure(BadEncoding), null;
    }
    var parts := SplitPayload(payload.value);
    if parts.Failure? {
      return Failure(parts.error), null;
    }
    var unsealed := if publicOf(pair.private) == pair.public then Open(history, parts.value.0, pair.public) else None;
    if unsealed.None? {
      return Failure(CannotOpen), null;
    }
    wrapKey := new byte[|unsealed.value|](i requires 0 <= i < |unsealed.value| => unsealed.value[i]);
    assert wrapKey[..] == unsealed.value;
    var ad := MakeTeamKeyAd(c);
    if ad.Failure? {
      r := Failure(ad.error);
    } else {
      var teamKey := Decrypt(history, parts.value.1, ad.value, nonce.value, wrapKey[..]);
      if teamKey.None? {
        r := Failure(CannotDecrypt);
      } else if |teamKey.value| != TEAM_KEY_LENGTH {
        r := Failure(WrongLength);
      } else {
        r := Success(teamKey.value);
      }
    }
    Wipe(wrapKey);
  }

  /** A new wrap with fresh random values keeps the history honest and opens
      for its recipient. */
  lemma WrapThenUnwrap(history: seq<Wrap>, w: Wrap, publicOf: bytes -> bytes, pair: KeyPair)
    requires Honest(history) && WellFormed(w)
    requires forall i :: 0 <= i < |history| ==> history[i].wrapKey != w.wrapKey && history[i].box != w.box
    requires pair.public == w.recipient && publicOf(pair.private) == pair.public && |pair.private| == 32
    ensures Honest(history + [w])
    ensures Unwrap(history + [w], publicOf, WrappedOf(w), pair, w.context) == Success(w.teamKey)
  {
    hide Unwrap, MakeTeamKeyAd, WrappedOf;
    var grown := history + [w];
    assert grown[|history|] == w;
    WrapOpens(grown, publicOf, |history|, pair, w.context);
  }
}
