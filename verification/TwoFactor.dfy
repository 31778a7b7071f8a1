/** Single-use time-step codes, and when they are single use.

    A request loads the user row, later checks a code against what it loaded,
    and writes back. Code generation is an uninterpreted function `codes` from
    a secret and a time step. */
module TwoFactor {
  import opened Wrappers

  type Secret = nat
  type Codes = (Secret, nat) -> string

  const WINDOW := 1

  datatype Row = Row(secret: Option<Secret>, pending: Option<Secret>, enabled: bool, lastUsed: Option<nat>)

  predicate IsDigit(c: char) {
    '0' <= c <= '9'
  }

  /** Six digits; the pattern's end anchor also allows one final newline. */
  predicate LooksLikeCode(code: string) {
    && (|code| == 6 || (|code| == 7 && code[6] == '\n'))
    && forall i :: 0 <= i < 6 ==> IsDigit(code[i])
  }

  /** The first step from `lo` up to `hi` whose code is the given one. */
  function FirstMatch(codes: Codes, secret: Secret, code: string, lo: nat, hi: nat): (step: Option<nat>)
    ensures step.Some? ==> lo <= step.value <= hi && codes(secret, step.value) == code
    ensures step.Some? ==> forall t :: lo <= t < step.value ==> codes(secret, t) != code
    ensures step.None? ==> forall t :: lo <= t <= hi ==> codes(secret, t) != code
    decreases hi - lo
  {
    if lo > hi then None
    else if codes(secret, lo) == code then Some(lo)
    else FirstMatch(codes, secret, code, lo + 1, hi)
  }

  /** Match a code against a secret, one step either side of now and strictly
      after the given step. */
  function Match(codes: Codes, secret: Option<Secret>, code: string, after: Option<nat>, now: nat): (step: Option<nat>)
    ensures step.Some? ==>
      && secret.Some? && codes(secret.value, step.value) == code
      && LooksLikeCode(code) && step.value > 0
      && now - WINDOW <= step.value <= now + WINDOW
      && (after.Some? ==> after.value < step.value)
  {
    if secret.None? || !LooksLikeCode(code) then None
    else
      var last := if after.Some? then after.value else 0;
      FirstMatch(codes, secret.value, code, if now > last + WINDOW then now - WINDOW else last + 1, now + WINDOW)
  }

  predicate IsSixDigits(code: string) {
    && (|code| == 6 || (|code| == 7 && code[6] == '\n'))
    && forall i :: 0 <= i < 6 ==> '0' <= code[i] <= '9'
  }

  /** A step next to now or now itself, after the given one, with this code. */
  predicate HasCodeNear(codes: Codes, secret: Secret, code: string, after: Option<nat>, now: nat, step: nat) {
    && step > 0 && now - 1 <= step <= now + 1
    && (after.Some? ==> step > after.value)
    && codes(secret, step) == code
  }

  /** A code is matched exactly when it is six digits and some such step has it,
      and then with the first of them. */
  lemma MatchIff(codes: Codes, secret: Secret, code: string, after: Option<nat>, now: nat)
    ensures Match(codes, None, code, after, now) == None
    ensures Match(codes, Some(secret), code, after, now).Some? <==>
      IsSixDigits(code) && exists step :: HasCodeNear(codes, secret, code, after, now, step)
    ensures forall step :: HasCodeNear(codes, secret, code, after, now, step) && IsSixDigits(code) ==>
      Match(codes, Some(secret), code, after, now).value <= step
  {
    var matched := Match(codes, Some(secret), code, after, now);
    if matched.Some? {
      assert HasCodeNear(codes, secret, code, after, now, matched.value);
    }
  }

  /** The conditional update that consumes a step. */
  predicate MayConsume(row: Row, step: nat) {
    row.lastUsed.None? || row.lastUsed.value < step
  }

  /** The step a request holding `user` gets accepted, if any. */
  function ConsumedStep(codes: Codes, row: Row, user: Row, code: string, now: nat): (step: Option<nat>) {
    if !user.enabled then None
    else
      var step := Match(codes, user.secret, code, user.lastUsed, now);
      if step.Some? && MayConsume(row, step.value) then step else None
  }

  function ConfirmedStep(codes: Codes, user: Row, code: string, now: nat): (step: Option<nat>) {
    Match(codes, user.pending, code, None, now)
  }

  /** Saving a model writes the columns that differ from what it loaded. */
  function Confirmed(row: Row, user: Row, step: nat): Row
    requires user.pending.Some?
  {
    Row(if user.secret != user.pending then user.pending else row.secret,
        None,
        true,
        if user.lastUsed != Some(step) then Some(step) else row.lastUsed)
  }

  /** A new secret differs from the loaded one, so saving always writes it. */
  function Staged(row: Row, secret: Secret): Row {
    row.(pending := Some(secret))
  }

  function Disabled(row: Row, user: Row): Row {
    Row(if user.secret.Some? then None else row.secret,
        if user.pending.Some? then None else row.pending,
        false,
        row.lastUsed)
  }

  // ---------- The service ----------

  class UserTable {
    const codes: Codes
    var row: Row

    constructor (codes: Codes, row: Row)
      ensures this.codes == codes && this.row == row
    {
      this.codes := codes;
      this.row := row;
    }

    /** Check a code of the active factor for the request that loaded `user`,
        and consume its step; the first test is the only caller's. */
    method VerifyAndConsume(user: Row, code: string, now: nat) returns (accepted: bool, user': Row)
      modifies this
      ensures accepted <==> ConsumedStep(codes, old(row), user, code, now).Some?
      ensures accepted ==>
        var step := ConsumedStep(codes, old(row), user, code, now);
        row == old(row).(lastUsed := step) && user' == user.(lastUsed := step)
      ensures !accepted ==> row == old(row) && user' == user
    {
      if !user.enabled {
        return false, user;
      }
      var step := Match(codes, user.secret, code, user.lastUsed, now);
      if step.None? {
        return false, user;
      }
      var consumed := 0;
      if row.lastUsed.None? || row.lastUsed.value < step.value {
        row := row.(lastUsed := step);
        consumed := 1;
      }
      if consumed != 1 {
        return false, user;
      }
      return true, user.(lastUsed := step);
    }

    /** Stage a new secret; the active factor stays as it is. */
    method Enable(secret: Secret)
      modifies this
      ensures row == Staged(old(row), secret)
    {
      row := row.(pending := Some(secret));
    }

    /** Promote the pending secret. */
    method Confirm(user: Row, code: string, now: nat) returns (accepted: bool)
      modifies this
      ensures accepted <==> ConfirmedStep(codes, user, code, now).Some?
      ensures accepted ==> row == Confirmed(old(row), user, ConfirmedStep(codes, user, code, now).value)
      ensures !accepted ==> row == old(row)
    {
      if user.pending.None? {
        return false;
      }
      var step := Match(codes, user.pending, code, None, now);
      if step.None? {
        return false;
      }
      if user.secret != user.pending {
        row := row.(secret := user.pending);
      }
      row := row.(pending := None, enabled := true);
      if user.lastUsed != step {
        row := row.(lastUsed := step);
      }
      return true;
    }

    method Disable(user: Row)
      modifies this
      ensures row == Disabled(old(row), user)
    {
      if user.secret.Some? {
        row := row.(secret := None);
      }
      if user.pending.Some? {
        row := row.(pending := None);
      }
      row := row.(enabled := false);
    }
  }

  // ---------- Interleaved requests ----------

  datatype Acceptance = Acceptance(secret: Secret, step: nat)

  /** `issued` holds every secret ever generated, `history` every acceptance. */
  datatype System = System(row: Row, loaded: map<nat, Row>, issued: set<Secret>, history: seq<Acceptance>)

  datatype Action =
    | Load(request: nat)
    | Consume(request: nat, code: string, now: nat)
    | Stage(secret: Secret)
    | Promote(request: nat, code: string, now: nat)
    | TurnOff(request: nat)

  predicate Enabled(s: System, a: Action) {
    match a
    case Load(n) => true
    case Consume(n, _, _) => n in s.loaded
    case Stage(secret) => secret !in s.issued
    case Promote(n, _, _) => n in s.loaded
    case TurnOff(n) => n in s.loaded && s.loaded[n].enabled
  }

  /** The step an action gets accepted, with the secret it was for. */
  function Outcome(codes: Codes, s: System, a: Action): Option<Acceptance>
    requires Enabled(s, a)
  {
    if a.Consume? then
      var step := ConsumedStep(codes, s.row, s.loaded[a.request], a.code, a.now);
      if step.Some? then Some(Acceptance(s.loaded[a.request].secret.value, step.value)) else None
    else if a.Promote? then
      var step := ConfirmedStep(codes, s.loaded[a.request], a.code, a.now);
      if step.Some? then Some(Acceptance(s.loaded[a.request].pending.value, step.value)) else None
    else None
  }

  function Next(codes: Codes, s: System, a: Action): System
    requires Enabled(s, a)
  {
    var outcome := Outcome(codes, s, a);
    var history := if outcome.Some? then s.history + [outcome.value] else s.history;
    match a
    case Load(n) => s.(loaded := s.loaded[n := s.row])
    case Consume(n, code, now) =>
      if outcome.None? then s
      else s.(row := s.row.(lastUsed := Some(outcome.value.step)),
              loaded := s.loaded[n := s.loaded[n].(lastUsed := Some(outcome.value.step))],
              history := history)
    case Stage(secret) => s.(row := Staged(s.row, secret), issued := s.issued + {secret})
    case Promote(n, code, now) =>
      if outcome.None? then s
      else s.(row := Confirmed(s.row, s.loaded[n], outcome.value.step), history := history)
    case TurnOff(n) => s.(row := Disabled(s.row, s.loaded[n]))
  }

  // ---------- Single use ----------

  /** Accepted steps of one secret increase strictly, so none is used twice. */
  ghost predicate StepsIncrease(history: seq<Acceptance>) {
    forall i, j :: 0 <= i < j < |history| && history[i].secret == history[j].secret ==> history[i].step < history[j].step
  }

  predicate AtMost(a: Option<nat>, b: Option<nat>) {
    a.Some? ==> b.Some? && a.value <= b.value
  }

  ghost predicate Known(s: System, row: Row) {
    && (row.secret.Some? ==> row.secret.value in s.issued)
    && (row.pending.Some? ==> row.pending.value in s.issued)
  }

  ghost predicate Inv(s: System) {
    && StepsIncrease(s.history)
    && (forall i :: 0 <= i < |s.history| ==> s.history[i].secret in s.issued)
    // Steps accepted for the active secret are at or below the stored one.
    && (forall i :: 0 <= i < |s.history| && s.row.secret == Some(s.history[i].secret) ==>
          AtMost(Some(s.history[i].step), s.row.lastUsed))
    // A pending secret is new: never accepted, never active.
    && (s.row.pending.Some? ==> s.row.secret != s.row.pending)
    && (forall i :: 0 <= i < |s.history| ==> s.row.pending != Some(s.history[i].secret))
    && Known(s, s.row)
    && (forall n :: n in s.loaded ==> Known(s, s.loaded[n]))
    // While a request's pending secret is still pending, nothing was confirmed
    // since it loaded the row.
    && (forall n :: n in s.loaded && s.loaded[n].pending.Some? && s.loaded[n].pending == s.row.pending ==>
          AtMost(s.loaded[n].lastUsed, s.row.lastUsed) && s.loaded[n].secret != s.loaded[n].pending)
  }

  /** The secret a code is accepted for is still the one the row holds. */
  predicate Prompt(codes: Codes, s: System, a: Action)
    requires Enabled(s, a)
  {
    Outcome(codes, s, a).Some? ==>
      && (a.Consume? ==> s.loaded[a.request].secret == s.row.secret)
      && (a.Promote? ==> s.loaded[a.request].pending == s.row.pending)
  }

  lemma ConsumeKeepsInv(codes: Codes, s: System, a: Action)
    requires Inv(s) && Enabled(s, a) && a.Consume? && Outcome(codes, s, a).Some? && Prompt(codes, s, a)
    ensures Inv(Next(codes, s, a))
  {
    var s' := Next(codes, s, a);
    var x := Outcome(codes, s, a).value;
    forall i | 0 <= i < |s.history| && s.history[i].secret == x.secret
      ensures s.history[i].step < x.step
    {
    }
  }

  lemma PromoteKeepsInv(codes: Codes, s: System, a: Action)
    requires Inv(s) && Enabled(s, a) && a.Promote? && Outcome(codes, s, a).Some? && Prompt(codes, s, a)
    ensures Inv(Next(codes, s, a))
  {
    var s' := Next(codes, s, a);
    var x := Outcome(codes, s, a).value;
    assert s'.row.secret == Some(x.secret);
    assert AtMost(Some(x.step), s'.row.lastUsed);
  }

  lemma StepKeepsInv(codes: Codes, s: System, a: Action)
    requires Inv(s) && Enabled(s, a) && Prompt(codes, s, a)
    ensures Inv(Next(codes, s, a))
  {
    if a.Consume? && Outcome(codes, s, a).Some? {
      ConsumeKeepsInv(codes, s, a);
    } else if a.Promote? && Outcome(codes, s, a).Some? {
      PromoteKeepsInv(codes, s, a);
    }
  }

  ghost predicate IsRun(codes: Codes, states: seq<System>, actions: seq<Action>) {
    && |states| == |actions| + 1
    && forall i :: 0 <= i < |actions| ==> IsStep(codes, states[i], actions[i], states[i + 1])
  }

  ghost predicate IsStep(codes: Codes, s: System, a: Action, s': System) {
    Enabled(s, a) && s' == Next(codes, s, a)
  }

  /** In a run where every acceptance is prompt no pair of secret and step is
      accepted twice, whether by sign-in, step-up or confirmation and however
      many requests loaded the same last-used step. */
  lemma {:induction false} PromptRunsNeverReuseAStep(codes: Codes, states: seq<System>, actions: seq<Action>, i: nat)
    requires IsRun(codes, states, actions) && i < |states|
    requires Inv(states[0])
    requires forall k :: 0 <= k < i ==> Enabled(states[k], actions[k]) && Prompt(codes, states[k], actions[k])
    ensures Inv(states[i]) && StepsIncrease(states[i].history)
  {
    if i > 0 {
      PromptRunsNeverReuseAStep(codes, states, actions, i - 1);
      assert IsStep(codes, states[i - 1], actions[i - 1], states[i]);
      StepKeepsInv(codes, states[i - 1], actions[i - 1]);
    }
  }

  // ---------- Every run, late requests included ----------

  /** The highest step ever accepted for a secret. */
  function Highest(history: seq<Acceptance>, secret: Secret): (step: Option<nat>)
    ensures step.Some? ==> Acceptance(secret, step.value) in history
    ensures forall i :: 0 <= i < |history| && history[i].secret == secret ==> AtMost(Some(history[i].step), step)
  {
    if history == [] then None
    else
      var earlier, last := Highest(history[..|history| - 1], secret), history[|history| - 1];
      if last.secret == secret && Below(earlier, last.step) then Some(last.step) else earlier
  }

  /** Strictly below a step; nothing at all is below every step. */
  predicate Below(stored: Option<nat>, step: nat) {
    stored.None? || stored.value < step
  }

  /** What is true in every run, however late its requests act. */
  ghost predicate IsKept(codes: Codes, s: System) {
    && (forall i :: 0 <= i < |s.history| ==> s.history[i].secret in s.issued)
    && (forall i :: 0 <= i < |s.history| ==> IsSubmittable(codes, s.history[i]))
    && (s.row.pending.Some? ==> s.row.secret != s.row.pending)
    && (forall i :: 0 <= i < |s.history| ==> s.row.pending != Some(s.history[i].secret))
    && Known(s, s.row)
    && (forall n :: n in s.loaded ==> Known(s, s.loaded[n]) && LoadedEarlier(s, s.loaded[n]))
  }

  predicate IsSubmittable(codes: Codes, x: Acceptance) {
    x.step > 0 && LooksLikeCode(codes(x.secret, x.step))
  }

  /** A secret that was active is not pending again, and while the pending
      secret stays the same the stored step does not fall. */
  predicate LoadedEarlier(s: System, loaded: Row) {
    && (loaded.secret.Some? ==> loaded.secret != s.row.pending)
    && (loaded.pending.Some? ==> loaded.secret != loaded.pending)
    && (loaded.pending.Some? && loaded.pending == s.row.pending ==> AtMost(loaded.lastUsed, s.row.lastUsed))
  }

  lemma StepKeeps(codes: Codes, s: System, a: Action)
    requires IsKept(codes, s) && Enabled(s, a)
    ensures IsKept(codes, Next(codes, s, a))
  {
    hide Match, LooksLikeCode;
    var s' := Next(codes, s, a);
    var outcome := Outcome(codes, s, a);
    if outcome.Some? {
      assert IsSubmittable(codes, outcome.value);
    }
    forall n | n in s'.loaded
      ensures Known(s', s'.loaded[n]) && LoadedEarlier(s', s'.loaded[n])
    {
      if n in s.loaded {
        assert Known(s, s.loaded[n]) && LoadedEarlier(s, s.loaded[n]);
      }
    }
  }

  lemma {:induction false} KeptAlways(codes: Codes, states: seq<System>, actions: seq<Action>, i: nat)
    requires IsRun(codes, states, actions) && i < |states| && IsKept(codes, states[0])
    ensures IsKept(codes, states[i])
  {
    hide IsKept, Next, Enabled;
    if i > 0 {
      KeptAlways(codes, states, actions, i - 1);
      assert IsStep(codes, states[i - 1], actions[i - 1], states[i]);
      StepKeeps(codes, states[i - 1], actions[i - 1]);
    }
  }

  // ---------- Turning the factor off and on ----------

  /** A request for which the factor was off has no code accepted. */
  lemma OffAcceptsNothing(codes: Codes, s: System, a: Action)
    requires Enabled(s, a) && a.Consume? && !s.loaded[a.request].enabled
    ensures Outcome(codes, s, a) == None && Next(codes, s, a) == s
  {
  }

  /** Turning it off clears what the request had loaded of the factor, but not a
      secret that was staged since; the spent step stays. */
  lemma TurningOff(codes: Codes, s: System, n: nat)
    requires Enabled(s, TurnOff(n))
    ensures var after := Next(codes, s, TurnOff(n)).row;
      && !after.enabled && after.lastUsed == s.row.lastUsed
      && after.secret == (if s.loaded[n].secret == s.row.secret || s.loaded[n].secret != None then None else s.row.secret)
      && after.pending == (if s.loaded[n].pending == s.row.pending || s.loaded[n].pending != None then None else s.row.pending)
    ensures Next(codes, s, TurnOff(n)).history == s.history
  {
  }

  /** A prompt confirmation makes the pending secret the active one. */
  lemma TurningOn(codes: Codes, s: System, a: Action)
    requires IsKept(codes, s) && Enabled(s, a) && a.Promote? && Outcome(codes, s, a).Some? && Prompt(codes, s, a)
    ensures var after := Next(codes, s, a).row;
      after.enabled && after.secret == s.row.pending && after.secret.Some? && after.pending == None
  {
    hide Match;
    assert LoadedEarlier(s, s.loaded[a.request]);
  }

  lemma StepKeepsOff(codes: Codes, s: System, a: Action)
    requires Enabled(s, a) && !s.row.enabled
    requires !(a.Promote? && Outcome(codes, s, a).Some?)
    ensures !Next(codes, s, a).row.enabled
  {
    hide Match;
  }

  /** Once turned off, the factor stays off until a confirmation is accepted,
      and a request that loads the row in between has no code accepted. */
  lemma {:induction false} OffUntilConfirmed(
    codes: Codes, states: seq<System>, actions: seq<Action>, i: nat, j: nat, n: nat, code: string, now: nat)
    requires IsRun(codes, states, actions) && i < j < |states| && actions[i].TurnOff?
    requires forall k :: i < k < j ==> Enabled(states[k], actions[k]) && !(actions[k].Promote? && Outcome(codes, states[k], actions[k]).Some?)
    ensures !states[j].row.enabled
    ensures Outcome(codes, Next(codes, states[j], Load(n)), Consume(n, code, now)) == None
    decreases j
  {
    hide Match;
    assert IsStep(codes, states[j - 1], actions[j - 1], states[j]);
    if i < j - 1 {
      OffUntilConfirmed(codes, states, actions, i, j - 1, n, code, now);
      StepKeepsOff(codes, states[j - 1], actions[j - 1]);
    } else {
      TurningOff(codes, states[i], actions[i].request);
    }
    OffAcceptsNothing(codes, Next(codes, states[j], Load(n)), Consume(n, code, now));
  }

  // ---------- When the stored step falls behind ----------

  /** The stored step is below a step already spent with the active secret. */
  predicate Behind(s: System) {
    s.row.secret.Some? && Highest(s.history, s.row.secret.value).Some?
    && Below(s.row.lastUsed, Highest(s.history, s.row.secret.value).value)
  }

  /** The step a confirmation leaves in the row. */
  function StoredAfter(row: Row, user: Row, step: nat): Option<nat> {
    if user.lastUsed != Some(step) then Some(step) else row.lastUsed
  }

  /** A confirmation of a secret that is no longer pending, which stores a step
      below its own or below one the secret was already used with. */
  predicate SetsBack(codes: Codes, s: System, a: Action)
    requires Enabled(s, a)
  {
    && a.Promote? && Outcome(codes, s, a).Some?
    && s.loaded[a.request].pending != s.row.pending
    && var x, stored := Outcome(codes, s, a).value, StoredAfter(s.row, s.loaded[a.request], Outcome(codes, s, a).value.step);
       Below(stored, x.step) || (Highest(s.history, x.secret).Some? && Below(stored, Highest(s.history, x.secret).value))
  }

  lemma HighestOfMore(history: seq<Acceptance>, x: Acceptance, secret: Secret)
    ensures Highest(history + [x], secret) ==
      if x.secret == secret && Below(Highest(history, secret), x.step) then Some(x.step) else Highest(history, secret)
  {
    assert (history + [x])[..|history|] == history;
  }

  lemma {:induction false} NeverAccepted(history: seq<Acceptance>, secret: Secret)
    requires forall i :: 0 <= i < |history| ==> history[i].secret != secret
    ensures Highest(history, secret) == None
  {
    if history != [] {
      NeverAccepted(history[..|history| - 1], secret);
    }
  }

  /** In every run the stored step of the active secret falls behind exactly at
      such a confirmation; sign-ins never set it back. */
  lemma FallsBehindIff(codes: Codes, s: System, a: Action)
    requires IsKept(codes, s) && Enabled(s, a) && !Behind(s)
    ensures Behind(Next(codes, s, a)) <==> SetsBack(codes, s, a)
  {
    hide Match, Highest, LooksLikeCode;
    var outcome := Outcome(codes, s, a);
    if outcome.Some? {
      var x, loaded := outcome.value, s.loaded[a.request];
      HighestOfMore(s.history, x, x.secret);
      if s.row.secret.Some? {
        HighestOfMore(s.history, x, s.row.secret.value);
      }
      assert LoadedEarlier(s, loaded);
      if a.Promote? && loaded.pending == s.row.pending {
        NeverAccepted(s.history, x.secret);
      }
    }
  }

  /** Confirming the active secret once more, while the stored step is the
      highest it was used with: that sets it back exactly if it writes a lower
      step, or keeps the stored one although its own is higher. */
  lemma SecondConfirmationSetsBackIff(codes: Codes, s: System, a: Action)
    requires IsKept(codes, s) && Enabled(s, a) && a.Promote? && Outcome(codes, s, a).Some?
    requires s.loaded[a.request].pending == s.row.secret
    requires s.row.lastUsed.Some? && Highest(s.history, s.row.secret.value) == s.row.lastUsed
    ensures s.loaded[a.request].pending != s.row.pending
    ensures var step := Outcome(codes, s, a).value.step;
      Behind(Next(codes, s, a)) <==>
      if s.loaded[a.request].lastUsed == Some(step) then step > s.row.lastUsed.value else step < s.row.lastUsed.value
  {
    hide Match, Highest, LooksLikeCode;
    FallsBehindIff(codes, s, a);
  }

  /** Over a whole run, a stored step that is behind was set back. */
  lemma {:induction false} BehindHasACause(codes: Codes, states: seq<System>, actions: seq<Action>, i: nat)
    requires IsRun(codes, states, actions) && i < |states| && IsKept(codes, states[0])
    requires !Behind(states[0]) && Behind(states[i])
    ensures exists j :: 0 <= j < i && Enabled(states[j], actions[j]) && SetsBack(codes, states[j], actions[j])
  {
    hide Behind, SetsBack, Enabled, Next, IsKept;
    assert i > 0;
    assert IsStep(codes, states[i - 1], actions[i - 1], states[i]);
    if Behind(states[i - 1]) {
      BehindHasACause(codes, states, actions, i - 1);
    } else {
      KeptAlways(codes, states, actions, i - 1);
      FallsBehindIff(codes, states[i - 1], actions[i - 1]);
    }
  }

  // ---------- When a step is accepted twice ----------

  predicate Repeats(codes: Codes, s: System, a: Action) {
    Enabled(s, a) && Outcome(codes, s, a).Some? && Outcome(codes, s, a).value in s.history
  }

  /** Some code, submitted at some time not before `from`, has a spent step
      accepted again. */
  ghost predicate CanRepeat(codes: Codes, s: System, n: nat, from: nat) {
    exists code, now :: now >= from && Repeats(codes, s, Consume(n, code, now))
  }

  ghost predicate CanConfirmAgain(codes: Codes, s: System, n: nat, from: nat) {
    exists code, now :: now >= from && Repeats(codes, s, Promote(n, code, now))
  }

  /** The highest step a secret was used with is still in the window at `from`. */
  predicate SpentRecently(history: seq<Acceptance>, secret: Secret, from: nat) {
    Highest(history, secret).Some? && from <= Highest(history, secret).value + WINDOW
  }

  /** The code of a step, submitted one step later, is matched with that step. */
  lemma MatchedAStepLater(codes: Codes, secret: Secret, step: nat, after: Option<nat>)
    requires IsSubmittable(codes, Acceptance(secret, step)) && Below(after, step)
    ensures Match(codes, Some(secret), codes(secret, step), after, step + 1) == Some(step)
  {
    hide LooksLikeCode;
  }

  /** In every state of every run a request can, from some time on, have a
      spent step accepted again exactly when its factor was on and the highest
      step its secret has been used with is still in the window and above both
      the one it loaded and the stored one. */
  lemma RequestCanRepeatIff(codes: Codes, s: System, n: nat, from: nat)
    requires IsKept(codes, s) && n in s.loaded
    ensures CanRepeat(codes, s, n, from) <==>
      && s.loaded[n].enabled && s.loaded[n].secret.Some?
      && SpentRecently(s.history, s.loaded[n].secret.value, from)
      && var highest := Highest(s.history, s.loaded[n].secret.value).value;
         Below(s.loaded[n].lastUsed, highest) && Below(s.row.lastUsed, highest)
  {
    var loaded := s.loaded[n];
    hide Highest, LooksLikeCode, Match;
    if loaded.enabled && loaded.secret.Some? && SpentRecently(s.history, loaded.secret.value, from) {
      var step := Highest(s.history, loaded.secret.value).value;
      var x := Acceptance(loaded.secret.value, step);
      var i :| 0 <= i < |s.history| && s.history[i] == x;
      if Below(loaded.lastUsed, step) && Below(s.row.lastUsed, step) {
        MatchedAStepLater(codes, x.secret, step, loaded.lastUsed);
        assert Repeats(codes, s, Consume(n, codes(x.secret, step), step + 1));
      }
    }
    forall code, now | now >= from && Repeats(codes, s, Consume(n, code, now))
      ensures loaded.enabled && loaded.secret.Some? && SpentRecently(s.history, loaded.secret.value, from)
      ensures var highest := Highest(s.history, loaded.secret.value).value;
        Below(loaded.lastUsed, highest) && Below(s.row.lastUsed, highest)
    {
      var x := Outcome(codes, s, Consume(n, code, now)).value;
      var i :| 0 <= i < |s.history| && s.history[i] == x;
    }
  }

  /** A request that has just loaded the row can do so exactly when the stored
      step is behind one that is still in the window. */
  lemma FreshRequestCanRepeatIff(codes: Codes, s: System, n: nat, from: nat)
    requires IsKept(codes, s)
    ensures CanRepeat(codes, Next(codes, s, Load(n)), n, from) <==>
      s.row.enabled && Behind(s) && SpentRecently(s.history, s.row.secret.value, from)
  {
    StepKeeps(codes, s, Load(n));
    hide CanRepeat, IsKept, Highest;
    RequestCanRepeatIff(codes, Next(codes, s, Load(n)), n, from);
  }

  /** A confirmation can spend a step again exactly when its secret has been
      accepted before, with a step still in the window, and then it is no longer
      pending. */
  lemma ConfirmationCanRepeatIff(codes: Codes, s: System, n: nat, from: nat)
    requires IsKept(codes, s) && n in s.loaded
    ensures CanConfirmAgain(codes, s, n, from) <==>
      s.loaded[n].pending.Some? && SpentRecently(s.history, s.loaded[n].pending.value, from)
    ensures CanConfirmAgain(codes, s, n, from) ==> s.loaded[n].pending != s.row.pending
  {
    var pending := s.loaded[n].pending;
    hide LooksLikeCode, Match, Highest;
    if pending.Some? && SpentRecently(s.history, pending.value, from) {
      var x := Acceptance(pending.value, Highest(s.history, pending.value).value);
      var i :| 0 <= i < |s.history| && s.history[i] == x;
      MatchedAStepLater(codes, x.secret, x.step, None);
      assert Repeats(codes, s, Promote(n, codes(x.secret, x.step), x.step + 1));
    }
    forall code, now | now >= from && Repeats(codes, s, Promote(n, code, now))
      ensures pending.Some? && SpentRecently(s.history, pending.value, from) && pending != s.row.pending
    {
      var x := Outcome(codes, s, Promote(n, code, now)).value;
      var i :| 0 <= i < |s.history| && s.history[i] == x;
    }
  }

  /** The time step at which an action checks its code. */
  function TimeOf(a: Action): nat {
    if a.Consume? || a.Promote? then a.now else 0
  }

  lemma AcceptedNearItsTime(codes: Codes, s: System, a: Action)
    requires Enabled(s, a) && Outcome(codes, s, a).Some?
    ensures TimeOf(a) - WINDOW <= Outcome(codes, s, a).value.step <= TimeOf(a) + WINDOW
  {
    hide Match;
  }

  /** Every acceptance of a run has an action that brought it. */
  lemma {:induction false} AcceptedBySomeAction(codes: Codes, states: seq<System>, actions: seq<Action>, i: nat, x: Acceptance) returns (j: nat)
    requires IsRun(codes, states, actions) && i < |states| && states[0].history == []
    requires x in states[i].history
    ensures j < i && Enabled(states[j], actions[j]) && Outcome(codes, states[j], actions[j]) == Some(x)
  {
    hide Outcome, Enabled;
    assert i > 0;
    assert IsStep(codes, states[i - 1], actions[i - 1], states[i]);
    if x in states[i - 1].history {
      j := AcceptedBySomeAction(codes, states, actions, i - 1, x);
    } else {
      j := i - 1;
    }
  }

  /** Action `j` brought the same acceptance, at most two steps of time away. */
  ghost predicate NearTwin(codes: Codes, states: seq<System>, actions: seq<Action>, j: nat, k: nat)
    requires j < k < |actions| < |states| && Enabled(states[k], actions[k])
  {
    && Enabled(states[j], actions[j])
    && Outcome(codes, states[j], actions[j]) == Outcome(codes, states[k], actions[k])
    && TimeOf(actions[j]) - 2 * WINDOW <= TimeOf(actions[k]) <= TimeOf(actions[j]) + 2 * WINDOW
  }

  /** Over a run that starts with nothing accepted, whatever is accepted twice
      is accepted again within two steps of time. */
  lemma RepeatsAreNear(codes: Codes, states: seq<System>, actions: seq<Action>, k: nat)
    requires IsRun(codes, states, actions) && k < |actions| && states[0].history == []
    requires Repeats(codes, states[k], actions[k])
    ensures exists j :: 0 <= j < k && NearTwin(codes, states, actions, j, k)
  {
    var x := Outcome(codes, states[k], actions[k]).value;
    var j := AcceptedBySomeAction(codes, states, actions, k, x);
    hide Outcome, Enabled, IsRun;
    AcceptedNearItsTime(codes, states[k], actions[k]);
    AcceptedNearItsTime(codes, states[j], actions[j]);
    assert NearTwin(codes, states, actions, j, k);
  }

  /** In a run from an orderly state a step is accepted twice only at or after
      a late acceptance. */
  lemma RepeatsFollowLateness(codes: Codes, states: seq<System>, actions: seq<Action>, k: nat)
    requires IsRun(codes, states, actions) && k < |actions| && Inv(states[0])
    requires Repeats(codes, states[k], actions[k])
    ensures exists j :: 0 <= j <= k && Enabled(states[j], actions[j]) && !Prompt(codes, states[j], actions[j])
  {
    hide Inv, Prompt, Repeats, Next;
    if forall j :: 0 <= j <= k ==> Enabled(states[j], actions[j]) && Prompt(codes, states[j], actions[j]) {
      PromptRunsNeverReuseAStep(codes, states, actions, k);
      PromptDoesNotRepeat(codes, states[k], actions[k]);
    }
    forall j | 0 <= j <= k
      ensures Enabled(states[j], actions[j])
    {
      assert IsStep(codes, states[j], actions[j], states[j + 1]);
    }
  }

  lemma PromptDoesNotRepeat(codes: Codes, s: System, a: Action)
    requires Inv(s) && Enabled(s, a) && Prompt(codes, s, a)
    ensures !Repeats(codes, s, a)
  {
    StepKeepsInv(codes, s, a);
    if Outcome(codes, s, a).Some? {
      assert Next(codes, s, a).history == s.history + [Outcome(codes, s, a).value];
    }
  }

  // ---------- Concrete runs ----------

  /** Codes that alternate with the step. */
  function Alternating(secret: Secret, step: nat): string {
    if step % 2 == 0 then "000000" else "111111"
  }

  lemma AlternatingMatches(secret: Secret)
    ensures Match(Alternating, Some(secret), "111111", None, 9) == Some(9)
    ensures Match(Alternating, Some(secret), "000000", None, 9) == Some(8)
  {
    assert FirstMatch(Alternating, secret, "000000", 8, 10) == Some(8);
    assert FirstMatch(Alternating, secret, "111111", 9, 10) == Some(9);
    assert FirstMatch(Alternating, secret, "111111", 8, 10) == FirstMatch(Alternating, secret, "111111", 9, 10);
  }

  /** Two requests load the row while secret 1 is active and secret 2 pending.
      One signs in at step 9, secret 2 is confirmed at step 8, and the other
      signs in at step 9 with secret 1 a second time. */
  lemma LateSignInReusesAStep() returns (s: System, first: Action, confirm: Action, late: Action)
    ensures Inv(s) && Enabled(s, first) && Prompt(Alternating, s, first)
    ensures var s1 := Next(Alternating, s, first);
      Enabled(s1, confirm) && Prompt(Alternating, s1, confirm)
    ensures var s2 := Next(Alternating, Next(Alternating, s, first), confirm);
      Enabled(s2, late) && late.Consume? && !Prompt(Alternating, s2, late)
      && Next(Alternating, s2, late).history == [Acceptance(1, 9), Acceptance(2, 8), Acceptance(1, 9)]
  {
    AlternatingMatches(1);
    AlternatingMatches(2);
    var row := Row(Some(1), Some(2), true, None);
    s := System(row, map[0 := row, 1 := row, 2 := row], {1, 2}, []);
    first, confirm, late := Consume(0, "111111", 9), Promote(1, "000000", 9), Consume(2, "111111", 9);
    var s1 := Next(Alternating, s, first);
    var s2 := Next(Alternating, s1, confirm);
    assert s2.row == Row(Some(2), None, true, Some(8));
  }

  /** Two requests confirm the same pending secret with the same code. */
  lemma LateConfirmationReusesAStep() returns (s: System, first: Action, late: Action)
    ensures Inv(s) && Enabled(s, first) && Prompt(Alternating, s, first)
    ensures var s1 := Next(Alternating, s, first);
      Enabled(s1, late) && late.Promote? && !Prompt(Alternating, s1, late)
      && Next(Alternating, s1, late).history == [Acceptance(2, 8), Acceptance(2, 8)]
  {
    AlternatingMatches(2);
    var row := Row(Some(1), Some(2), true, None);
    s := System(row, map[0 := row, 1 := row], {1, 2}, []);
    first, late := Promote(0, "000000", 9), Promote(1, "000000", 9);
  }

  function SetBackActions(): (actions: seq<Action>)
    ensures |actions| == 9
  {
    [Stage(2), Load(0), Load(1), Promote(0, "000000", 9), Load(2), Consume(2, "111111", 9), Promote(1, "000000", 9), Load(3),
     Consume(3, "111111", 9)]
  }

  function SetBackStates(): (states: seq<System>)
    ensures |states| == 10
  {
    var off, staged := Row(None, None, false, None), Row(None, Some(2), false, None);
    var low, high := Row(Some(2), None, true, Some(8)), Row(Some(2), None, true, Some(9));
    var a, b := Acceptance(2, 8), Acceptance(2, 9);
    [System(off, map[], {}, []),
     System(staged, map[], {2}, []),
     System(staged, map[0 := staged], {2}, []),
     System(staged, map[0 := staged, 1 := staged], {2}, []),
     System(low, map[0 := staged, 1 := staged], {2}, [a]),
     System(low, map[0 := staged, 1 := staged, 2 := low], {2}, [a]),
     System(high, map[0 := staged, 1 := staged, 2 := high], {2}, [a, b]),
     System(low, map[0 := staged, 1 := staged, 2 := high], {2}, [a, b, a]),
     System(low, map[0 := staged, 1 := staged, 2 := high, 3 := low], {2}, [a, b, a]),
     System(high, map[0 := staged, 1 := staged, 2 := high, 3 := high], {2}, [a, b, a, b])]
  }

  lemma AlternatingMatchesAfter(secret: Secret)
    ensures Match(Alternating, Some(secret), "111111", Some(8), 9) == Some(9)
  {
  }

  lemma StagingSteps()
    ensures var states, actions := SetBackStates(), SetBackActions();
      && IsStep(Alternating, states[0], actions[0], states[1])
      && IsStep(Alternating, states[1], actions[1], states[2])
      && IsStep(Alternating, states[2], actions[2], states[3])
  {
    hide Match, LooksLikeCode;
  }

  lemma FirstSteps()
    ensures var states, actions := SetBackStates(), SetBackActions();
      && IsStep(Alternating, states[3], actions[3], states[4])
      && IsStep(Alternating, states[4], actions[4], states[5])
      && IsStep(Alternating, states[5], actions[5], states[6])
  {
    AlternatingMatches(2);
    AlternatingMatchesAfter(2);
    hide Match, LooksLikeCode;
  }

  lemma LastSteps()
    ensures var states, actions := SetBackStates(), SetBackActions();
      && IsStep(Alternating, states[6], actions[6], states[7])
      && IsStep(Alternating, states[7], actions[7], states[8])
      && IsStep(Alternating, states[8], actions[8], states[9])
      && Prompt(Alternating, states[8], actions[8]) && Repeats(Alternating, states[8], actions[8])
  {
    AlternatingMatches(2);
    AlternatingMatchesAfter(2);
    hide Match, LooksLikeCode;
  }

  lemma SetBackInBetween()
    ensures var states, actions := SetBackStates(), SetBackActions();
      && Inv(states[0]) && !Behind(states[6]) && Behind(states[7])
  {
  }

  /** A user without a factor stages a secret and two requests load the row. One
      confirms the secret and a sign-in spends a later step; then the other
      confirms it again, which sets the stored step back, and a request that has
      only just loaded the row spends the later step a second time. All of it
      happens within one step of the clock. */
  lemma FreshSignInReusesAStep()
    ensures var states, actions := SetBackStates(), SetBackActions();
      && states[0] == System(Row(None, None, false, None), map[], {}, []) && Inv(states[0]) && IsRun(Alternating, states, actions)
      && actions[6].Promote? && !Behind(states[6]) && Behind(states[7])
      && states[8].loaded[3] == states[8].row && Enabled(states[8], actions[8]) && Prompt(Alternating, states[8], actions[8])
      && Repeats(Alternating, states[8], actions[8])
  {
    StagingSteps();
    FirstSteps();
    LastSteps();
    SetBackInBetween();
    hide IsStep, Inv, Behind, Prompt, Repeats;
  }
}
