/** The life of one sftp child, watched by a monitor that polls and by any
    number of cancel requests. Each runs under the same lock, so a schedule is
    a sequence of whole calls. */
module TransferProcess {
  import opened Wrappers

  datatype ExitStatus = ExitStatus(success: bool, code: Option<int>)

  datatype Phase = Running | Exited(status: ExitStatus) | Cancelled

  /** What `try_wait` sees. */
  datatype Seen = Gone(status: ExitStatus) | Alive | Unobservable

  /** One call under the lock. `waited` says whether the `wait` after a kill,
      if the call gets that far, confirms that the child has terminated. */
  datatype Call = Poll(seen: Seen, waited: bool) | Cancel(seen: Seen, waited: bool)

  datatype Answer =
    | KeepPolling
    | OutcomeExited(status: ExitStatus)
    | OutcomeCancelled
    | OutcomeWaitError
    | CancelDone
    | AlreadyFinished
    | CancelFailed

  /** `reaped`: the child is known to have terminated. */
  datatype Process = Process(phase: Phase, reaped: bool)

  const STARTED := Process(Running, false)

  function Step(p: Process, call: Call): Process {
    if p.phase != Running then p
    else if call.seen.Gone? then Process(Exited(call.seen.status), true)
    else if call.Poll? then
      if call.seen.Alive? then p else Process(Cancelled, p.reaped || call.waited)
    else if call.waited then Process(Cancelled, true)
    else p
  }

  function AnswerOf(p: Process, call: Call): Answer {
    match call
    case Poll(seen, _) =>
      if p.phase.Cancelled? then OutcomeCancelled
      else if p.phase.Exited? then OutcomeExited(p.phase.status)
      else if seen.Gone? then OutcomeExited(seen.status)
      else if seen.Alive? then KeepPolling
      else OutcomeWaitError
    case Cancel(seen, waited) =>
      if p.phase.Cancelled? then CancelDone
      else if p.phase.Exited? then AlreadyFinished
      else if seen.Gone? then AlreadyFinished
      else if waited then CancelDone
      else CancelFailed
  }

  // ---------- The object ----------

  class Transfer {
    var phase: Phase
    var reaped: bool

    function Now(): Process
      reads this
    {
      Process(phase, reaped)
    }

    constructor ()
      ensures Now() == STARTED
    {
      phase, reaped := Running, false;
    }

    /** One turn of the monitor's loop. */
    method PollOnce(seen: Seen, waited: bool) returns (answer: Answer)
      modifies this
      ensures Now() == Step(old(Now()), Poll(seen, waited))
      ensures answer == AnswerOf(old(Now()), Poll(seen, waited))
    {
      match phase {
        case Cancelled => return OutcomeCancelled;
        case Exited(status) => return OutcomeExited(status);
        case Running =>
      }
      match seen {
        case Gone(status) =>
          reaped := true;
          phase := Exited(status);
          return OutcomeExited(status);
        case Alive =>
          return KeepPolling;
        case Unobservable =>
          reaped := reaped || waited;
          phase := Cancelled;
          return OutcomeWaitError;
      }
    }

    method CancelNow(seen: Seen, waited: bool) returns (answer: Answer)
      modifies this
      ensures Now() == Step(old(Now()), Cancel(seen, waited))
      ensures answer == AnswerOf(old(Now()), Cancel(seen, waited))
    {
      match phase {
        case Cancelled => return CancelDone;
        case Exited(_) => return AlreadyFinished;
        case Running =>
      }
      if seen.Gone? {
        reaped := true;
        phase := Exited(seen.status);
        return AlreadyFinished;
      }
      if !waited {
        return CancelFailed;
      }
      reaped := true;
      phase := Cancelled;
      return CancelDone;
    }

    /** The monitor: poll until there is an outcome. `rounds` gives what each
        poll sees and the cancel requests that arrive while it sleeps after it;
        `trace` is the schedule that results. */
    method WaitForExit(rounds: seq<Round>) returns (answer: Answer, ghost trace: seq<Call>)
      modifies this
      ensures Now() == After(old(Now()), trace)
      ensures IsWait(old(Now()), rounds, trace, answer)
    {
      hide After, Schedule, AllKeep, IsWait;
      trace := [];
      answer := KeepPolling;
      var i := 0;
      NothingYet(old(Now()));
      assert rounds[..0] == [];
      while i < |rounds|
        invariant 0 <= i <= |rounds|
        invariant Now() == After(old(Now()), trace)
        invariant answer == KeepPolling
        invariant trace == Schedule(rounds[..i]) && AllKeep(old(Now()), trace)
      {
        ghost var poll := Poll(rounds[i].seen, rounds[i].waited);
        OneMoreCall(old(Now()), trace, poll);
        WaitEnds(old(Now()), rounds, i, trace);
        answer := PollOnce(rounds[i].seen, rounds[i].waited);
        ghost var before := trace;
        trace := trace + [poll];
        if answer != KeepPolling {
          return;
        }
        var j := 0;
        while j < |rounds[i].meanwhile|
          invariant 0 <= j <= |rounds[i].meanwhile|
          invariant Now() == After(old(Now()), trace)
          invariant trace == before + [poll] + Requests(rounds[i].meanwhile[..j]) && AllKeep(old(Now()), trace)
        {
          var request := rounds[i].meanwhile[j];
          OneMoreCall(old(Now()), trace, Cancel(request.seen, request.waited));
          assert Requests(rounds[i].meanwhile[..j + 1]) == Requests(rounds[i].meanwhile[..j]) + [Cancel(request.seen, request.waited)];
          trace := trace + [Cancel(request.seen, request.waited)];
          var _ := CancelNow(request.seen, request.waited);
          j := j + 1;
        }
        assert rounds[i].meanwhile[..j] == rounds[i].meanwhile;
        ScheduleOfOneMore(rounds, i);
        i := i + 1;
      }
      assert rounds[..i] == rounds;
      WaitGoesOn(old(Now()), rounds, trace);
    }
  }

  datatype Request = Request(seen: Seen, waited: bool)

  datatype Round = Round(seen: Seen, waited: bool, meanwhile: seq<Request>)

  function Requests(requests: seq<Request>): (calls: seq<Call>)
    ensures |calls| == |requests|
  {
    seq(|requests|, i requires 0 <= i < |requests| => Cancel(requests[i].seen, requests[i].waited))
  }

  /** The calls in the order in which they get the lock, if the monitor never
      stops. */
  function Schedule(rounds: seq<Round>): seq<Call> {
    if rounds == [] then []
    else
      var last := rounds[|rounds| - 1];
      Schedule(rounds[..|rounds| - 1]) + [Poll(last.seen, last.waited)] + Requests(last.meanwhile)
  }

  lemma {:induction false} ScheduleOfOneMore(rounds: seq<Round>, i: nat)
    requires i < |rounds|
    ensures Schedule(rounds[..i + 1]) == Schedule(rounds[..i]) + [Poll(rounds[i].seen, rounds[i].waited)] + Requests(rounds[i].meanwhile)
    ensures Schedule(rounds[..i]) + [Poll(rounds[i].seen, rounds[i].waited)] <= Schedule(rounds)
    decreases |rounds|
  {
    assert rounds[..i + 1][..i] == rounds[..i];
    if i + 1 == |rounds| {
      assert rounds[..i + 1] == rounds;
    } else {
      var less := rounds[..|rounds| - 1];
      ScheduleOfOneMore(less, i);
      assert less[..i] == rounds[..i];
    }
  }

  // ---------- Schedules ----------

  function After(p: Process, calls: seq<Call>): Process {
    if calls == [] then p else Step(After(p, calls[..|calls| - 1]), calls[|calls| - 1])
  }

  /** What the i-th call of a schedule answers. */
  function AnswerAt(p: Process, calls: seq<Call>, i: nat): Answer
    requires i < |calls|
  {
    AnswerOf(After(p, calls[..i]), calls[i])
  }

  lemma AnswersStand(p: Process, calls: seq<Call>, call: Call)
    ensures After(p, calls + [call]) == Step(After(p, calls), call)
    ensures forall i :: 0 <= i < |calls| ==> AnswerAt(p, calls + [call], i) == AnswerAt(p, calls, i)
    ensures AnswerAt(p, calls + [call], |calls|) == AnswerOf(After(p, calls), call)
  {
    assert (calls + [call])[..|calls|] == calls;
    forall i | 0 <= i < |calls|
      ensures AnswerAt(p, calls + [call], i) == AnswerAt(p, calls, i)
    {
      assert (calls + [call])[..i] == calls[..i];
    }
  }

  /** Every poll so far was told to go on. */
  ghost predicate AllKeep(p: Process, calls: seq<Call>) {
    forall i :: 0 <= i < |calls| && calls[i].Poll? ==> AnswerAt(p, calls, i) == KeepPolling
  }

  /** The trace of a wait: the schedule up to and including the first poll with
      another answer, which is the wait's, or all of it. */
  ghost predicate IsWait(p: Process, rounds: seq<Round>, trace: seq<Call>, answer: Answer) {
    if answer == KeepPolling then trace == Schedule(rounds) && AllKeep(p, trace)
    else
      && trace <= Schedule(rounds) && trace != []
      && var n := |trace| - 1;
         trace[n].Poll? && AllKeep(p, trace[..n]) && answer == AnswerAt(p, trace, n)
  }

  lemma NothingYet(p: Process)
    ensures After(p, []) == p && Schedule([]) == [] && AllKeep(p, [])
  {
  }

  lemma OneMoreCall(p: Process, calls: seq<Call>, call: Call)
    requires AllKeep(p, calls)
    ensures After(p, calls + [call]) == Step(After(p, calls), call)
    ensures call.Poll? ==> AnswerOf(After(p, calls), call) == KeepPolling ==> AllKeep(p, calls + [call])
    ensures call.Cancel? ==> AllKeep(p, calls + [call])
  {
    AnswersStand(p, calls, call);
    hide AnswerAt, After;
  }

  lemma WaitEnds(p: Process, rounds: seq<Round>, i: nat, trace: seq<Call>)
    requires i < |rounds| && trace == Schedule(rounds[..i]) && AllKeep(p, trace)
    ensures var poll := Poll(rounds[i].seen, rounds[i].waited);
      AnswerOf(After(p, trace), poll) != KeepPolling ==> IsWait(p, rounds, trace + [poll], AnswerOf(After(p, trace), poll))
  {
    var poll := Poll(rounds[i].seen, rounds[i].waited);
    AnswersStand(p, trace, poll);
    ScheduleOfOneMore(rounds, i);
    assert (trace + [poll])[..|trace|] == trace;
    hide AnswerAt, After, Schedule;
  }

  lemma WaitGoesOn(p: Process, rounds: seq<Round>, trace: seq<Call>)
    requires trace == Schedule(rounds) && AllKeep(p, trace)
    ensures IsWait(p, rounds, trace, KeepPolling)
  {
  }

  /** Once decided, nothing a later call sees or does changes the process. */
  lemma {:induction false} DecidedForGood(p: Process, calls: seq<Call>, i: nat)
    requires i <= |calls| && After(p, calls[..i]).phase != Running
    ensures After(p, calls) == After(p, calls[..i])
    decreases |calls|
  {
    if i < |calls| {
      var n := |calls| - 1;
      assert calls[..n][..i] == calls[..i];
      DecidedForGood(p, calls[..n], i);
    } else {
      assert calls[..i] == calls;
    }
  }

  // ---------- Which verdict ----------

  /** The call settles the matter if no earlier one has: a poll that finds the
      child gone or cannot see it, a cancel that finds it gone or whose wait
      succeeds. */
  predicate Settles(call: Call) {
    match call
    case Poll(seen, _) => seen != Alive
    case Cancel(seen, waited) => seen.Gone? || waited
  }

  /** What it then becomes: the status that was seen, or else cancelled. */
  function SettledAs(call: Call): Phase {
    if call.seen.Gone? then Exited(call.seen.status) else Cancelled
  }

  predicate NoneSettles(calls: seq<Call>) {
    forall i :: 0 <= i < |calls| ==> !Settles(calls[i])
  }

  /** The child is running exactly as long as no call has settled the matter,
      and the first that does decides. */
  lemma {:induction false} TheFirstToSettleDecides(calls: seq<Call>)
    ensures After(STARTED, calls).phase == Running <==> NoneSettles(calls)
    ensures forall i :: 0 <= i < |calls| && Settles(calls[i]) && NoneSettles(calls[..i]) ==>
      After(STARTED, calls).phase == SettledAs(calls[i])
  {
    if calls != [] {
      var n := |calls| - 1;
      TheFirstToSettleDecides(calls[..n]);
      forall i | 0 <= i < |calls| && Settles(calls[i]) && NoneSettles(calls[..i])
        ensures After(STARTED, calls).phase == SettledAs(calls[i])
      {
        if i < n {
          assert calls[..n][..i] == calls[..i] && calls[..n][i] == calls[i];
        }
      }
      assert forall i :: 0 <= i < n ==> calls[..n][i] == calls[i];
      if NoneSettles(calls[..n]) && Settles(calls[n]) {
        assert After(STARTED, calls).phase == SettledAs(calls[n]);
      }
    }
  }

  /** So a call is told the status that the first settling call saw, or that
      the transfer is cancelled; while nothing is settled a poll goes on and a
      cancel has failed. */
  lemma AnswersFollowTheFirst(calls: seq<Call>, i: nat, j: nat)
    requires i <= j < |calls| && Settles(calls[i]) && NoneSettles(calls[..i])
    ensures SettledAs(calls[i]).Exited? ==>
      AnswerAt(STARTED, calls, j) == if calls[j].Poll? then OutcomeExited(calls[i].seen.status) else AlreadyFinished
    ensures SettledAs(calls[i]).Cancelled? ==>
      AnswerAt(STARTED, calls, j) == if calls[j].Cancel? then CancelDone else if i == j then OutcomeWaitError else OutcomeCancelled
  {
    TheFirstToSettleDecides(calls[..j]);
    if i < j {
      assert calls[..j][i] == calls[i] && calls[..j][..i] == calls[..i];
    }
  }

  lemma AnswersBeforeTheFirst(calls: seq<Call>, j: nat)
    requires j < |calls| && NoneSettles(calls[..j + 1])
    ensures AnswerAt(STARTED, calls, j) == if calls[j].Poll? then KeepPolling else CancelFailed
  {
    assert calls[..j + 1][j] == calls[j] && forall i :: 0 <= i < j ==> calls[..j + 1][i] == calls[..j][i];
    TheFirstToSettleDecides(calls[..j]);
  }

  /** Nobody cancels and every poll sees the child or its exit. */
  predicate IsUndisturbed(rounds: seq<Round>) {
    forall r :: 0 <= r < |rounds| ==> rounds[r].meanwhile == [] && rounds[r].seen != Unobservable
  }

  lemma {:induction false} UndisturbedSchedule(rounds: seq<Round>)
    requires IsUndisturbed(rounds)
    ensures |Schedule(rounds)| == |rounds|
    ensures forall r :: 0 <= r < |rounds| ==> Schedule(rounds)[r] == Poll(rounds[r].seen, rounds[r].waited)
  {
    if rounds != [] {
      UndisturbedSchedule(rounds[..|rounds| - 1]);
    }
  }

  predicate IsFirstExit(rounds: seq<Round>, r: nat) {
    && r < |rounds| && rounds[r].seen.Gone?
    && forall q :: 0 <= q < r ==> rounds[q].seen == Alive
  }

  lemma {:induction false} PollsUntil(rounds: seq<Round>, trace: seq<Call>, n: nat)
    requires IsUndisturbed(rounds) && trace <= Schedule(rounds) && n <= |trace|
    requires AllKeep(STARTED, trace[..n])
    ensures |trace| <= |rounds| && forall i :: 0 <= i < n ==> rounds[i].seen == Alive
    ensures NoneSettles(trace[..n])
    ensures forall i :: 0 <= i < |trace| ==> trace[i] == Poll(rounds[i].seen, rounds[i].waited)
  {
    UndisturbedSchedule(rounds);
    hide Schedule, AnswerAt;
    forall i | 0 <= i < n
      ensures rounds[i].seen == Alive && !Settles(trace[..n][i])
    {
      FirstPollsSawIt(trace[..n], i);
    }
  }

  /** Polls that were told to go on have settled nothing. */
  lemma {:induction false} FirstPollsSawIt(calls: seq<Call>, i: nat)
    requires i < |calls| && AllKeep(STARTED, calls) && forall k :: 0 <= k < |calls| ==> calls[k].Poll?
    ensures !Settles(calls[i])
    decreases i
  {
    forall k | 0 <= k < i
      ensures !Settles(calls[..i][k])
    {
      FirstPollsSawIt(calls, k);
    }
    TheFirstToSettleDecides(calls[..i]);
  }

  /** Undisturbed, a wait returns the status of the first exit it sees, and goes
      on as long as there is none. */
  lemma {:induction false} UndisturbedWait(rounds: seq<Round>, trace: seq<Call>, answer: Answer)
    requires IsUndisturbed(rounds) && IsWait(STARTED, rounds, trace, answer)
    ensures if answer == KeepPolling then forall r :: 0 <= r < |rounds| ==> rounds[r].seen == Alive
            else exists r: nat :: IsFirstExit(rounds, r) && answer == OutcomeExited(rounds[r].seen.status)
  {
    UndisturbedSchedule(rounds);
    hide Schedule, AllKeep, AnswerAt;
    if answer == KeepPolling {
      assert trace[..|trace|] == trace;
      PollsUntil(rounds, trace, |trace|);
    } else {
      var n := |trace| - 1;
      PollsUntil(rounds, trace, n);
      EndedWaitSettles(trace, n);
      AnswersFollowTheFirst(trace, n, n);
      assert IsFirstExit(rounds, n);
    }
  }

  lemma EndedWaitSettles(calls: seq<Call>, n: nat)
    requires n < |calls| && calls[n].Poll? && NoneSettles(calls[..n]) && AnswerAt(STARTED, calls, n) != KeepPolling
    ensures Settles(calls[n])
  {
    TheFirstToSettleDecides(calls[..n]);
  }

  predicate Agrees(answer: Answer, end: Phase) {
    match answer
    case KeepPolling => true
    case CancelFailed => true
    case OutcomeExited(status) => end == Exited(status)
    case AlreadyFinished => end.Exited?
    case _ => end == Cancelled
  }

  /** Every verdict any caller is ever given is the one the process ends with. */
  lemma EveryVerdictStands(calls: seq<Call>, i: nat)
    requires i < |calls|
    ensures Agrees(AnswerAt(STARTED, calls, i), After(STARTED, calls).phase)
  {
    assert calls[..i + 1][..i] == calls[..i];
    if After(STARTED, calls[..i + 1]).phase != Running {
      DecidedForGood(STARTED, calls, i + 1);
    }
  }

  predicate SaysCancelled(answer: Answer) {
    answer == CancelDone || answer == OutcomeCancelled
  }

  predicate SaysCompleted(answer: Answer) {
    answer.OutcomeExited? || answer == AlreadyFinished
  }

  /** A cancelled transfer is never reported completed, nor the other way
      round, in either order and to whomever; and there is one exit status. */
  lemma NeverCancelledAndCompleted(calls: seq<Call>, i: nat, j: nat)
    requires i < |calls| && j < |calls|
    ensures !(SaysCancelled(AnswerAt(STARTED, calls, i)) && SaysCompleted(AnswerAt(STARTED, calls, j)))
    ensures AnswerAt(STARTED, calls, i).OutcomeExited? && AnswerAt(STARTED, calls, j).OutcomeExited? ==>
      AnswerAt(STARTED, calls, i) == AnswerAt(STARTED, calls, j)
  {
    EveryVerdictStands(calls, i);
    EveryVerdictStands(calls, j);
  }

  /** After a verdict the next poll ends the wait and the next cancel is final. */
  lemma VerdictReachesEveryone(calls: seq<Call>, i: nat, j: nat)
    requires i < j < |calls|
    requires AnswerAt(STARTED, calls, i) != KeepPolling && AnswerAt(STARTED, calls, i) != CancelFailed
    ensures SaysCancelled(AnswerAt(STARTED, calls, j)) || SaysCompleted(AnswerAt(STARTED, calls, j))
    ensures SaysCancelled(AnswerAt(STARTED, calls, j)) <==> !SaysCompleted(AnswerAt(STARTED, calls, i))
  {
    assert calls[..j][..i + 1] == calls[..i + 1] && calls[..i + 1][..i] == calls[..i];
    DecidedForGood(STARTED, calls[..j], i + 1);
  }

  /** The monitor lost sight of the child and could not confirm its death. */
  predicate LostTheChild(p: Process, call: Call) {
    p.phase.Running? && call.Poll? && call.seen.Unobservable? && !call.waited
  }

  predicate EverLost(calls: seq<Call>) {
    calls != [] && (EverLost(calls[..|calls| - 1]) || LostTheChild(After(STARTED, calls[..|calls| - 1]), calls[|calls| - 1]))
  }

  lemma {:induction false} DecidedMeansReaped(calls: seq<Call>)
    ensures var p := After(STARTED, calls);
      if p.phase == Running then !p.reaped && !EverLost(calls) else p.reaped <==> !EverLost(calls)
  {
    if calls != [] {
      DecidedMeansReaped(calls[..|calls| - 1]);
    }
  }

  /** A cancel that reports success has the child reaped exactly when no earlier
      poll lost the child: after such a poll the request is told "cancelled"
      although the child's death was never confirmed. */
  lemma CancelledMeansReapedIff(calls: seq<Call>)
    requires calls != [] && AnswerAt(STARTED, calls, |calls| - 1) == CancelDone
    ensures After(STARTED, calls).reaped <==> !EverLost(calls)
  {
    DecidedMeansReaped(calls);
  }

  lemma CancelledButNotReaped()
    ensures var calls := [Poll(Unobservable, false), Cancel(Alive, true)];
      AnswerAt(STARTED, calls, 1) == CancelDone && !After(STARTED, calls).reaped
  {
    var calls := [Poll(Unobservable, false), Cancel(Alive, true)];
    assert calls[..1] == [Poll(Unobservable, false)];
    assert calls[..0] == [];
    assert After(STARTED, calls[..1]) == Step(After(STARTED, calls[..1][..0]), calls[0]);
  }
}
