/** Whether a rotation can overwrite a change its client never saw.

    A client reads the records, re-encrypts them and sends each with the
    `updated_at` it read; the server compares timestamps, which have a
    resolution of one second. */
module LostUpdates {
  import opened Wrappers
  import opened Text
  import opened VaultRotation
  import opened VaultProtocol

  predicate Changed(states: seq<System>, k: Key, m: nat)
    requires m + 1 < |states|
  {
    && k in states[m].db.records && k in states[m + 1].db.records
    && states[m].db.records[k] != states[m + 1].db.records[k]
  }

  function RowAt(states: seq<System>, k: Key, m: nat): Option<Record>
    requires m < |states|
  {
    if k in states[m].db.records then Some(states[m].db.records[k]) else None
  }

  function TimeAt(states: seq<System>, k: Key, m: nat): Option<string>
    requires m < |states|
  {
    if k in states[m].db.records then states[m].db.records[k].updatedAt else None
  }

  ghost predicate Unchanged(states: seq<System>, k: Key, i: nat, j: nat)
    requires i <= j < |states|
  {
    forall m :: i <= m <= j ==> RowAt(states, k, m) == RowAt(states, k, i)
  }

  /** No change in between left the row with the timestamp it had at `i`. */
  ghost predicate NoChangeEndsOnItsTime(states: seq<System>, k: Key, i: nat, j: nat)
    requires i <= j < |states|
  {
    forall m :: i <= m < j && Changed(states, k, m) ==> TimeAt(states, k, m + 1) != TimeAt(states, k, i)
  }

  /** The rotation of step `j` is accepted with an item that carries the
      timestamp the record had at `i`. */
  ghost predicate AcceptsReadAt(registry: seq<Resource>, states: seq<System>, actions: seq<Action>, i: nat, j: nat, item: Item)
    requires i <= j < |actions| && |states| == |actions| + 1
  {
    && actions[j].Rotate? && item in actions[j].payload.items && IsRegistered(registry, item.kind)
    && RotationAccepted(registry, states[j].db, actions[j].userId, actions[j].payload, actions[j].now)
    && item.RecordKey() in states[i].db.records
    && item.updatedAt == states[i].db.records[item.RecordKey()].updatedAt
  }

  lemma AcceptedTimeAgrees(registry: seq<Resource>, states: seq<System>, actions: seq<Action>, i: nat, j: nat, item: Item)
    requires i <= j < |actions| && |states| == |actions| + 1
    requires AcceptsReadAt(registry, states, actions, i, j, item)
    ensures TimeAt(states, item.RecordKey(), j) == TimeAt(states, item.RecordKey(), i)
  {
    hide CompleteReplacement;
    var items := actions[j].payload.items;
    var r :| r in registry && r.kind == item.kind;
    assert TypeFits(states[j].db.records, items, r, actions[j].userId);
    var x :| 0 <= x < |items| && items[x] == item;
    assert ItemFits(states[j].db.records, items[x], r, actions[j].userId);
  }

  lemma RowsStay(registry: seq<Resource>, s: System, a: Action, k: Key)
    requires Enabled(s, a) && k in s.db.records
    ensures k in Next(registry, s, a).db.records
  {
    hide RotationAccepted, Edited;
  }

  /** From `i` on every row is there and either still the same or changed. */
  lemma {:induction false} RowsSince(registry: seq<Resource>, states: seq<System>, actions: seq<Action>, k: Key, i: nat, m: nat)
    requires IsHistory(registry, states, actions) && i <= m < |states| && k in states[i].db.records
    ensures k in states[m].db.records
    decreases m
  {
    hide Enabled, Next;
    if i < m {
      RowsSince(registry, states, actions, k, i, m - 1);
      RowsStay(registry, states[m - 1], actions[m - 1], k);
    }
  }

  /** The last change before `j`, if the row differs at all. */
  lemma {:induction false} LastChange(registry: seq<Resource>, states: seq<System>, actions: seq<Action>, k: Key, i: nat, j: nat)
    returns (m: nat)
    requires IsHistory(registry, states, actions) && i <= j < |states| && k in states[i].db.records
    requires !Unchanged(states, k, i, j)
    ensures i <= m < j && Changed(states, k, m) && TimeAt(states, k, m + 1) == TimeAt(states, k, j)
    decreases j
  {
    hide IsHistory;
    RowsSince(registry, states, actions, k, i, j);
    RowsSince(registry, states, actions, k, i, j - 1);
    if Changed(states, k, j - 1) {
      m := j - 1;
    } else {
      assert RowAt(states, k, j) == RowAt(states, k, j - 1);
      m := LastChange(registry, states, actions, k, i, j - 1);
    }
  }

  /** When a rotation is accepted the row has stayed as the client read it
      exactly when no change in between ended on the timestamp it read. */
  lemma NoUpdateLostIff(registry: seq<Resource>, states: seq<System>, actions: seq<Action>, i: nat, j: nat, item: Item)
    requires IsHistory(registry, states, actions) && i <= j < |actions|
    requires AcceptsReadAt(registry, states, actions, i, j, item)
    ensures Unchanged(states, item.RecordKey(), i, j) <==> NoChangeEndsOnItsTime(states, item.RecordKey(), i, j)
  {
    var k := item.RecordKey();
    AcceptedTimeAgrees(registry, states, actions, i, j, item);
    hide IsHistory, AcceptsReadAt;
    if !Unchanged(states, k, i, j) {
      var m := LastChange(registry, states, actions, k, i, j);
    } else {
      forall m | i <= m < j
        ensures !Changed(states, k, m)
      {
        assert RowAt(states, k, m) == RowAt(states, k, i) && RowAt(states, k, m + 1) == RowAt(states, k, i);
      }
    }
  }

  // ---------- A condition on the saves ----------

  /** The instant a step stores in the rows it changes. */
  function StampOf(a: Action): string {
    if a.Commit? || a.Rotate? || a.Trash? then a.stamp else ""
  }

  lemma ChangeStamps(registry: seq<Resource>, s: System, a: Action, k: Key)
    requires Enabled(s, a) && k in s.db.records && k in Next(registry, s, a).db.records
    requires Next(registry, s, a).db.records[k] != s.db.records[k]
    ensures Next(registry, s, a).db.records[k].updatedAt == Some(StampOf(a))
  {
    hide RotationAccepted;
  }

  predicate Later(earlier: Option<string>, stamp: string) {
    earlier.None? || Less(earlier.value, stamp)
  }

  predicate AtOrAfter(earlier: Option<string>, later: Option<string>) {
    earlier == later || (later.Some? && Later(earlier, later.value))
  }

  /** Every save that changes the row is later than the row's own timestamp. */
  ghost predicate SavesMoveOn(states: seq<System>, actions: seq<Action>, k: Key, i: nat, j: nat)
    requires i <= j < |actions| && |states| == |actions| + 1
  {
    forall m :: i <= m < j && Changed(states, k, m) ==> Later(TimeAt(states, k, m), StampOf(actions[m]))
  }

  lemma LaterIsTransitive(a: Option<string>, b: Option<string>, stamp: string)
    requires AtOrAfter(a, b) && Later(b, stamp)
    ensures Later(a, stamp) && a != Some(stamp)
  {
    LessIsTotal(stamp, stamp);
    if a.Some? && a != b {
      LessIsTransitive(a.value, b.value, stamp);
    }
    if a.Some? {
      LessIsTotal(a.value, stamp);
    }
  }

  lemma {:induction false} TimeMovesOn(registry: seq<Resource>, states: seq<System>, actions: seq<Action>, k: Key, i: nat, j: nat, m: nat)
    requires IsHistory(registry, states, actions) && i <= m <= j < |actions| && k in states[i].db.records
    requires SavesMoveOn(states, actions, k, i, j)
    ensures AtOrAfter(TimeAt(states, k, i), TimeAt(states, k, m))
    decreases m
  {
    hide Enabled, Next;
    if i < m {
      TimeMovesOn(registry, states, actions, k, i, j, m - 1);
      RowsSince(registry, states, actions, k, i, m - 1);
      RowsSince(registry, states, actions, k, i, m);
      if Changed(states, k, m - 1) {
        ChangeStamps(registry, states[m - 1], actions[m - 1], k);
        LaterIsTransitive(TimeAt(states, k, i), TimeAt(states, k, m - 1), StampOf(actions[m - 1]));
      }
    }
  }

  /** If every changing save in between is later than the row it changes, an
      accepted rotation loses nothing. */
  lemma LaterSavesLoseNothing(registry: seq<Resource>, states: seq<System>, actions: seq<Action>, i: nat, j: nat, item: Item)
    requires IsHistory(registry, states, actions) && i <= j < |actions|
    requires AcceptsReadAt(registry, states, actions, i, j, item)
    requires SavesMoveOn(states, actions, item.RecordKey(), i, j)
    ensures Unchanged(states, item.RecordKey(), i, j)
  {
    var k := item.RecordKey();
    hide Enabled, Next;
    forall m | i <= m < j && Changed(states, k, m)
      ensures TimeAt(states, k, m + 1) != TimeAt(states, k, i)
    {
      TimeMovesOn(registry, states, actions, k, i, j, m);
      ChangeStamps(registry, states[m], actions[m], k);
      LaterIsTransitive(TimeAt(states, k, i), TimeAt(states, k, m), StampOf(actions[m]));
    }
    NoUpdateLostIff(registry, states, actions, i, j, item);
  }
}
