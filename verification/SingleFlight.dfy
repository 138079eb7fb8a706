/**
 * The fetch wrapper: any number of concurrent calls sharing one refresh slot.
 *
 * A step is the code one call (or the refresh's own continuation) runs between two awaits, so a
 * sequence of steps is one interleaving. A step that is not enabled leaves the state alone.
 */
module SingleFlight {
  import opened Strings

  datatype Reason = Rejected | Unavailable | Unreachable

  datatype Outcome = Renewed | Failed(reason: Reason, status: Option<int>)

  /** What came back from the refresh endpoint; `code` is the error code its body carries, if any. */
  datatype RefreshAnswer = NoAnswer | Answer(status: int, code: Option<string>)

  const TERMINAL_REFRESH_CODES: set<string> := {
    "auth.account_inactive", "auth.account_suspended", "auth.account_banned", "auth.pending_approval"
  }

  const TOKEN_INVALID := "auth.token_invalid"

  /** `performRefresh`: why an attempt did not produce a session. */
  function Classify(answer: RefreshAnswer): Outcome {
    match answer
    case NoAnswer => Failed(Unreachable, None)
    case Answer(status, body) =>
      var code := if status == 403 then body else None;
      if 200 <= status < 300 then Renewed
      else if status == 401 then Failed(Rejected, Some(status))
      else if code.Some? && code.value in TERMINAL_REFRESH_CODES then Failed(Rejected, Some(status))
      else Failed(Unavailable, Some(status))
  }

  /** `isExpiredSessionResponse`, on the code read from the 401's body. */
  predicate IsExpiredSession(code: Option<string>) {
    code.None? || code.value == TOKEN_INVALID
  }

  datatype FirstAnswer = Threw | PassedThrough | Unauthorised

  /** Where a call stands; the number is the refresh it joined. */
  datatype Pc =
    | Requesting
    | ReadingBody
    | Waiting(refresh: nat)
    | Retrying(refresh: nat)
    | ReturnedUntouched
    | ReturnedAfterFailure(refresh: nat)
    | ReturnedAfterRetry(refresh: nat)

  datatype Phase = Posting | Settled(answer: RefreshAnswer) | Cleared(answer: RefreshAnswer)

  datatype Refresh = Refresh(starter: nat, phase: Phase)

  datatype Event =
    | ResourceSent(call: nat)
    | RefreshSent(call: nat, refresh: nat)
    | FailureReported(call: nat, outcome: Outcome)
    | ExpiryReported(call: nat)

  datatype State = State(calls: seq<Pc>, slot: Option<nat>, refreshes: seq<Refresh>, log: seq<Event>)

  datatype Step =
    | Begin
    | FirstAnswered(call: nat, answer: FirstAnswer)
    | BodyRead(call: nat, code: Option<string>)
    | RefreshAnswered(refresh: nat, response: RefreshAnswer)
    | SlotCleared(refresh: nat)
    | Resumed(call: nat)
    | RetryAnswered(call: nat)

  const INITIAL := State([], None, [], [])

  predicate Enabled(s: State, step: Step) {
    match step
    case Begin => true
    case FirstAnswered(i, _) => i < |s.calls| && s.calls[i].Requesting?
    case BodyRead(i, _) => i < |s.calls| && s.calls[i].ReadingBody?
    case RefreshAnswered(k, _) => k < |s.refreshes| && s.refreshes[k].phase.Posting?
    case SlotCleared(k) => k < |s.refreshes| && s.refreshes[k].phase.Settled?
    case Resumed(i) =>
      && i < |s.calls| && s.calls[i].Waiting?
      && s.calls[i].refresh < |s.refreshes|
      && s.refreshes[s.calls[i].refresh].phase.Cleared?
    case RetryAnswered(i) => i < |s.calls| && s.calls[i].Retrying?
  }

  function WithCall(s: State, i: nat, pc: Pc): State
    requires i < |s.calls|
  {
    s.(calls := s.calls[i := pc])
  }

  function WithPhase(s: State, k: nat, phase: Phase): State
    requires k < |s.refreshes|
  {
    s.(refreshes := s.refreshes[k := s.refreshes[k].(phase := phase)])
  }

  /** `getOrStartRefresh`, run by call `i`: join the refresh in the slot or start one there. */
  function JoinOrStart(s: State, i: nat): State
    requires i < |s.calls|
  {
    if s.slot.Some? then WithCall(s, i, Waiting(s.slot.value))
    else
      var k := |s.refreshes|;
      State(s.calls[i := Waiting(k)], Some(k), s.refreshes + [Refresh(i, Posting)], s.log + [RefreshSent(i, k)])
  }

  /** The rest of a call once its refresh is over. */
  function Conclude(s: State, i: nat, k: nat, outcome: Outcome): State
    requires i < |s.calls|
  {
    match outcome
    case Renewed => WithCall(s, i, Retrying(k)).(log := s.log + [ResourceSent(i)])
    case Failed(reason, _) =>
      var reported := s.log + [FailureReported(i, outcome)];
      WithCall(s, i, ReturnedAfterFailure(k)).(
        log := if reason == Rejected then reported + [ExpiryReported(i)] else reported)
  }

  function Next(s: State, step: Step): State {
    if !Enabled(s, step) then s
    else
      match step
      case Begin => s.(calls := s.calls + [Requesting], log := s.log + [ResourceSent(|s.calls|)])
      case FirstAnswered(i, answer) => WithCall(s, i, if answer.Unauthorised? then ReadingBody else ReturnedUntouched)
      case BodyRead(i, code) =>
        if IsExpiredSession(code) then JoinOrStart(s, i) else WithCall(s, i, ReturnedUntouched)
      case RefreshAnswered(k, response) => WithPhase(s, k, Settled(response))
      case SlotCleared(k) => WithPhase(s, k, Cleared(s.refreshes[k].phase.answer)).(slot := None)
      case Resumed(i) =>
        var k := s.calls[i].refresh;
        Conclude(s, i, k, Classify(s.refreshes[k].phase.answer))
      case RetryAnswered(i) => WithCall(s, i, ReturnedAfterRetry(s.calls[i].refresh))
  }

  function Run(steps: seq<Step>): State {
    if steps == [] then INITIAL else Next(Run(steps[..|steps| - 1]), steps[|steps| - 1])
  }

  // ---- the wrapper as an object with a mutable slot ----

  class AuthFetch {
    var calls: seq<Pc>
    var inFlightRefresh: Option<nat>
    var refreshes: seq<Refresh>
    var log: seq<Event>

    function Snapshot(): State
      reads this
    {
      State(calls, inFlightRefresh, refreshes, log)
    }

    constructor ()
      ensures Snapshot() == INITIAL
    {
      calls, inFlightRefresh, refreshes, log := [], None, [], [];
    }

    method StartCall() returns (i: nat)
      modifies this
      ensures i == |old(calls)|
      ensures Snapshot() == Next(old(Snapshot()), Begin)
    {
      i := |calls|;
      calls := calls + [Requesting];
      log := log + [ResourceSent(i)];
    }

    method OnFirstAnswer(i: nat, answer: FirstAnswer)
      requires Enabled(Snapshot(), FirstAnswered(i, answer))
      modifies this
      ensures Snapshot() == Next(old(Snapshot()), FirstAnswered(i, answer))
    {
      if answer.Unauthorised? {
        calls := calls[i := ReadingBody];
      } else {
        calls := calls[i := ReturnedUntouched];
      }
    }

    method GetOrStartRefresh(caller: nat) returns (attempt: nat)
      modifies `inFlightRefresh, `refreshes, `log
      ensures inFlightRefresh == Some(attempt)
      ensures old(inFlightRefresh) == Some(attempt) ==> refreshes == old(refreshes) && log == old(log)
      ensures old(inFlightRefresh).None? ==>
        && attempt == |old(refreshes)|
        && refreshes == old(refreshes) + [Refresh(caller, Posting)]
        && log == old(log) + [RefreshSent(caller, attempt)]
      ensures old(inFlightRefresh).Some? ==> inFlightRefresh == old(inFlightRefresh)
    {
      if inFlightRefresh.Some? {
        return inFlightRefresh.value;
      }
      attempt := |refreshes|;
      refreshes := refreshes + [Refresh(caller, Posting)];
      log := log + [RefreshSent(caller, attempt)];
      inFlightRefresh := Some(attempt);
    }

    method OnBodyRead(i: nat, code: Option<string>)
      requires Enabled(Snapshot(), BodyRead(i, code))
      modifies this
      ensures Snapshot() == Next(old(Snapshot()), BodyRead(i, code))
    {
      if !IsExpiredSession(code) {
        calls := calls[i := ReturnedUntouched];
        return;
      }
      var attempt := GetOrStartRefresh(i);
      calls := calls[i := Waiting(attempt)];
    }

    method OnRefreshAnswer(k: nat, response: RefreshAnswer)
      requires Enabled(Snapshot(), RefreshAnswered(k, response))
      modifies this
      ensures Snapshot() == Next(old(Snapshot()), RefreshAnswered(k, response))
    {
      refreshes := refreshes[k := refreshes[k].(phase := Settled(response))];
    }

    /** The `finally` callback: it empties the slot whatever the slot holds. */
    method OnRefreshFinally(k: nat)
      requires Enabled(Snapshot(), SlotCleared(k))
      modifies this
      ensures Snapshot() == Next(old(Snapshot()), SlotCleared(k))
    {
      inFlightRefresh := None;
      refreshes := refreshes[k := refreshes[k].(phase := Cleared(refreshes[k].phase.answer))];
    }

    method OnResume(i: nat)
      requires Enabled(Snapshot(), Resumed(i))
      modifies this
      ensures Snapshot() == Next(old(Snapshot()), Resumed(i))
    {
      var k := calls[i].refresh;
      var outcome := Classify(refreshes[k].phase.answer);
      if outcome.Failed? {
        log := log + [FailureReported(i, outcome)];
      }
      if outcome.Failed? && outcome.reason == Rejected {
        log := log + [ExpiryReported(i)];
        calls := calls[i := ReturnedAfterFailure(k)];
        return;
      }
      if outcome.Failed? {
        calls := calls[i := ReturnedAfterFailure(k)];
        return;
      }
      log := log + [ResourceSent(i)];
      calls := calls[i := Retrying(k)];
    }

    method OnRetryAnswer(i: nat)
      requires Enabled(Snapshot(), RetryAnswered(i))
      modifies this
      ensures Snapshot() == Next(old(Snapshot()), RetryAnswered(i))
    {
      calls := calls[i := ReturnedAfterRetry(calls[i].refresh)];
    }
  }

  // ---- what every interleaving keeps ----

  function Joined(pc: Pc): Option<nat> {
    match pc
    case Waiting(k) => Some(k)
    case Retrying(k) => Some(k)
    case ReturnedAfterFailure(k) => Some(k)
    case ReturnedAfterRetry(k) => Some(k)
    case _ => None
  }

  predicate HasConcluded(pc: Pc) {
    pc.Retrying? || pc.ReturnedAfterFailure? || pc.ReturnedAfterRetry?
  }

  /** The outcome a call has acted on, if it got that far. */
  function ActedOn(s: State, i: nat): Option<Outcome>
    requires i < |s.calls|
  {
    var pc := s.calls[i];
    if HasConcluded(pc) && Joined(pc).value < |s.refreshes| && !s.refreshes[Joined(pc).value].phase.Posting?
    then Some(Classify(s.refreshes[Joined(pc).value].phase.answer))
    else None
  }

  function SendsOf(pc: Pc): nat {
    if pc.Retrying? || pc.ReturnedAfterRetry? then 2 else 1
  }

  function ExpiriesFor(outcome: Option<Outcome>): nat {
    if outcome.Some? && outcome.value.Failed? && outcome.value.reason == Rejected then 1 else 0
  }

  function FailuresFor(acted: Option<Outcome>, reported: Outcome): nat {
    if acted == Some(reported) && reported.Failed? then 1 else 0
  }

  /** Every refresh but the newest is over, and the slot holds the newest one while it is not. */
  predicate SlotOk(s: State) {
    && (forall k :: 0 <= k < |s.refreshes| - 1 ==> s.refreshes[k].phase.Cleared?)
    && (match s.slot
        case None => |s.refreshes| > 0 ==> s.refreshes[|s.refreshes| - 1].phase.Cleared?
        case Some(k) => k == |s.refreshes| - 1 && !s.refreshes[k].phase.Cleared?)
  }

  predicate JoinedOk(s: State, i: nat)
    requires i < |s.calls|
  {
    var pc := s.calls[i];
    && (Joined(pc).Some? ==> Joined(pc).value < |s.refreshes|)
    && (HasConcluded(pc) ==>
          && s.refreshes[Joined(pc).value].phase.Cleared?
          && (Classify(s.refreshes[Joined(pc).value].phase.answer).Renewed? <==> !pc.ReturnedAfterFailure?))
  }

  ghost predicate LogOk(s: State, i: nat)
    requires i < |s.calls|
  {
    var m := multiset(s.log);
    && m[ResourceSent(i)] == SendsOf(s.calls[i])
    && m[ExpiryReported(i)] == ExpiriesFor(ActedOn(s, i))
    && forall o :: m[FailureReported(i, o)] == FailuresFor(ActedOn(s, i), o)
  }

  predicate StartersOk(s: State) {
    forall k :: 0 <= k < |s.refreshes| ==>
      s.refreshes[k].starter < |s.calls| && Joined(s.calls[s.refreshes[k].starter]) == Some(k)
  }

  /** An expiry stands directly behind the reason the same call gave. */
  predicate HasItsReason(log: seq<Event>, p: nat)
    requires p < |log|
  {
    log[p].ExpiryReported? ==> p > 0 && log[p - 1].FailureReported? && log[p - 1].call == log[p].call
  }

  predicate EventsOk(s: State) {
    forall p :: 0 <= p < |s.log| ==> s.log[p].call < |s.calls| && HasItsReason(s.log, p)
  }

  ghost predicate Inv(s: State) {
    && SlotOk(s)
    && (forall i :: 0 <= i < |s.calls| ==> JoinedOk(s, i) && LogOk(s, i))
    && StartersOk(s)
    && EventsOk(s)
  }

  lemma SlotKept(s: State, step: Step)
    requires SlotOk(s)
    ensures SlotOk(Next(s, step))
  {
  }

  lemma JoinedKept(s: State, step: Step, i: nat)
    requires Inv(s)
    requires i < |Next(s, step).calls|
    ensures JoinedOk(Next(s, step), i)
  {
    hide LogOk, EventsOk, StartersOk;
    assert i < |s.calls| ==> JoinedOk(s, i);
  }

  /** A call that has joined a refresh keeps to it, whatever the step. */
  lemma JoinedForGood(s: State, step: Step, i: nat)
    requires i < |s.calls| && Joined(s.calls[i]).Some?
    ensures i < |Next(s, step).calls| && Joined(Next(s, step).calls[i]) == Joined(s.calls[i])
  {
    hide Classify, IsExpiredSession;
  }

  /** The refreshes of the next state are the old ones, or those and one by the call that steps. */
  lemma NewRefresh(s: State, step: Step, k: nat)
    requires k < |Next(s, step).refreshes|
    ensures k < |s.refreshes| ==> Next(s, step).refreshes[k].starter == s.refreshes[k].starter
    ensures k >= |s.refreshes| ==>
      && k == |s.refreshes| && step.BodyRead? && step.call < |s.calls|
      && Next(s, step).refreshes[k].starter == step.call
      && Next(s, step).calls == s.calls[step.call := Waiting(k)]
  {
    hide Classify, IsExpiredSession;
  }

  lemma WaitingHasJoined(k: nat)
    ensures Joined(Waiting(k)) == Some(k)
  {
  }

  lemma StartersKept(s: State, step: Step)
    requires StartersOk(s)
    ensures StartersOk(Next(s, step))
  {
    hide Next, Joined;
    var t := Next(s, step);
    forall k | 0 <= k < |t.refreshes|
      ensures t.refreshes[k].starter < |t.calls| && Joined(t.calls[t.refreshes[k].starter]) == Some(k)
    {
      NewRefresh(s, step, k);
      if k < |s.refreshes| {
        JoinedForGood(s, step, s.refreshes[k].starter);
      } else {
        WaitingHasJoined(k);
      }
    }
  }

  /** What a step writes to the log. */
  function Written(s: State, step: Step): seq<Event> {
    if !Enabled(s, step) then []
    else
      match step
      case Begin => [ResourceSent(|s.calls|)]
      case BodyRead(i, code) =>
        if IsExpiredSession(code) && s.slot.None? then [RefreshSent(i, |s.refreshes|)] else []
      case Resumed(i) =>
        var outcome := Classify(s.refreshes[s.calls[i].refresh].phase.answer);
        if outcome.Renewed? then [ResourceSent(i)]
        else if outcome.reason == Rejected then [FailureReported(i, outcome), ExpiryReported(i)]
        else [FailureReported(i, outcome)]
      case _ => []
  }

  lemma LogGrows(s: State, step: Step)
    ensures Next(s, step).log == s.log + Written(s, step)
  {
    hide Classify, IsExpiredSession;
    var written := Written(s, step);
    assert |written| == 2 ==> s.log + written == s.log + [written[0]] + [written[1]];
    assert |written| == 1 ==> s.log + written == s.log + [written[0]];
    assert |written| == 0 ==> s.log + written == s.log;
  }

  lemma WrittenEvents(s: State, step: Step)
    ensures |s.calls| <= |Next(s, step).calls|
    ensures var written := Written(s, step);
      forall p :: 0 <= p < |written| ==>
        written[p].call < |Next(s, step).calls| && HasItsReason(written, p)
  {
    hide Classify, IsExpiredSession;
  }

  lemma EventsKept(s: State, step: Step)
    requires EventsOk(s)
    ensures EventsOk(Next(s, step))
  {
    hide Next, Written;
    LogGrows(s, step);
    WrittenEvents(s, step);
    var written := Written(s, step);
    var log := s.log + written;
    forall p | 0 <= p < |log| ensures log[p].call < |Next(s, step).calls| && HasItsReason(log, p) {
      if p < |s.log| {
        assert HasItsReason(s.log, p);
      } else {
        assert HasItsReason(written, p - |s.log|);
      }
    }
  }

  /** A refresh that is over keeps its answer for good. */
  lemma ActedOnIsFinal(s: State, step: Step, i: nat)
    requires Inv(s)
    requires i < |s.calls|
    requires HasConcluded(s.calls[i])
    ensures ActedOn(Next(s, step), i) == ActedOn(s, i)
    ensures SendsOf(Next(s, step).calls[i]) == SendsOf(s.calls[i])
    ensures HasConcluded(Next(s, step).calls[i])
  {
    hide LogOk, EventsOk, StartersOk;
    assert JoinedOk(s, i);
  }

  predicate ActsFor(s: State, step: Step, i: nat) {
    Enabled(s, step) && step.Resumed? && step.call == i
  }

  /** Only a call's own resumption writes to its part of the log. */
  lemma CountKept(s: State, step: Step, i: nat, e: Event)
    requires i < |s.calls| && !ActsFor(s, step, i)
    requires e.call == i && !e.RefreshSent?
    ensures multiset(Next(s, step).log)[e] == multiset(s.log)[e]
  {
  }

  lemma StandingKept(s: State, step: Step, i: nat)
    requires Inv(s)
    requires i < |s.calls| && !ActsFor(s, step, i)
    ensures i < |Next(s, step).calls|
    ensures ActedOn(Next(s, step), i) == ActedOn(s, i)
    ensures SendsOf(Next(s, step).calls[i]) == SendsOf(s.calls[i])
  {
    if HasConcluded(s.calls[i]) {
      ActedOnIsFinal(s, step, i);
    } else {
      hide Inv;
      assert !HasConcluded(Next(s, step).calls[i]);
    }
  }

  lemma LogOfOthers(s: State, step: Step, i: nat)
    requires Inv(s)
    requires i < |s.calls| && !ActsFor(s, step, i)
    ensures i < |Next(s, step).calls| && LogOk(Next(s, step), i)
  {
    hide Next, ActedOn, SendsOf, ActsFor;
    assert LogOk(s, i);
    StandingKept(s, step, i);
    CountKept(s, step, i, ResourceSent(i));
    CountKept(s, step, i, ExpiryReported(i));
    forall o ensures multiset(Next(s, step).log)[FailureReported(i, o)] == multiset(s.log)[FailureReported(i, o)] {
      CountKept(s, step, i, FailureReported(i, o));
    }
  }

  lemma LogOfResumed(s: State, i: nat)
    requires Inv(s)
    requires Enabled(s, Resumed(i))
    ensures LogOk(Next(s, Resumed(i)), i)
  {
    assert LogOk(s, i);
    var t := Next(s, Resumed(i));
    var outcome := Classify(s.refreshes[s.calls[i].refresh].phase.answer);
    assert ActedOn(s, i) == None;
    assert ActedOn(t, i) == Some(outcome);
  }

  lemma NoEventsYet(s: State, e: Event)
    requires EventsOk(s) && e.call >= |s.calls|
    ensures multiset(s.log)[e] == 0
  {
    assert e in multiset(s.log) <==> e in s.log;
  }

  lemma LogOfNewcomer(s: State)
    requires Inv(s)
    ensures LogOk(Next(s, Begin), |s.calls|)
  {
    var i := |s.calls|;
    NoEventsYet(s, ResourceSent(i));
    NoEventsYet(s, ExpiryReported(i));
    forall o ensures multiset(s.log)[FailureReported(i, o)] == 0 {
      NoEventsYet(s, FailureReported(i, o));
    }
  }

  lemma LogKept(s: State, step: Step, i: nat)
    requires Inv(s)
    requires i < |Next(s, step).calls|
    ensures LogOk(Next(s, step), i)
  {
    hide LogOk, Inv;
    if i >= |s.calls| {
      LogOfNewcomer(s);
    } else if ActsFor(s, step, i) {
      LogOfResumed(s, i);
    } else {
      LogOfOthers(s, step, i);
    }
  }

  lemma InvKept(s: State, step: Step)
    requires Inv(s)
    ensures Inv(Next(s, step))
  {
    hide Next;
    SlotKept(s, step);
    StartersKept(s, step);
    EventsKept(s, step);
    hide LogOk, JoinedOk, SlotOk, StartersOk, EventsOk;
    forall i | 0 <= i < |Next(s, step).calls|
      ensures JoinedOk(Next(s, step), i) && LogOk(Next(s, step), i)
    {
      JoinedKept(s, step, i);
      LogKept(s, step, i);
    }
  }

  lemma {:induction false} InvAlways(steps: seq<Step>)
    ensures Inv(Run(steps))
  {
    if steps != [] {
      InvAlways(steps[..|steps| - 1]);
      InvKept(Run(steps[..|steps| - 1]), steps[|steps| - 1]);
      hide Next, Inv;
    }
  }

  /** At most one refresh request is outstanding, in every interleaving of any number of calls. */
  lemma AtMostOneRefreshOutstanding(steps: seq<Step>, j: nat, k: nat)
    ensures var s := Run(steps);
      j < |s.refreshes| && k < |s.refreshes| && s.refreshes[j].phase.Posting? && s.refreshes[k].phase.Posting?
      ==> j == k
  {
    InvAlways(steps);
  }

  predicate Unfinished(s: State, k: nat) {
    k < |s.refreshes| && !s.refreshes[k].phase.Cleared?
  }

  /** Callers that wait for a refresh still running wait for the same one. */
  lemma WaitersShare(steps: seq<Step>, i: nat, j: nat)
    ensures var s := Run(steps);
      && i < |s.calls| && j < |s.calls| && s.calls[i].Waiting? && s.calls[j].Waiting?
      && Unfinished(s, s.calls[i].refresh) && Unfinished(s, s.calls[j].refresh)
      ==> s.calls[i].refresh == s.calls[j].refresh
  {
    InvAlways(steps);
  }

  /**
   * A call that needs a refresh always joins one that is still running, never a finished one, and
   * a new request is sent exactly when none is running.
   */
  lemma JoinedRefreshIsLive(steps: seq<Step>, i: nat, code: Option<string>)
    requires Enabled(Run(steps), BodyRead(i, code)) && IsExpiredSession(code)
    ensures var s := Run(steps);
      var t := Next(s, BodyRead(i, code));
      && t.calls[i].Waiting?
      && Unfinished(t, t.calls[i].refresh)
      && (|t.refreshes| == |s.refreshes| + 1 <==> forall k :: !Unfinished(s, k))
      && (|t.refreshes| == |s.refreshes| <==> exists k :: Unfinished(s, k))
  {
    hide LogOk, JoinedOk, StartersOk, EventsOk;
    InvAlways(steps);
    var s := Run(steps);
    if s.slot.Some? {
      assert Unfinished(s, s.slot.value);
    }
  }

  /** Each refresh was started by a call of its own, so there are never more of them than calls. */
  lemma StartersDiffer(steps: seq<Step>, j: nat, k: nat)
    ensures var s := Run(steps);
      j < |s.refreshes| && k < |s.refreshes| && s.refreshes[j].starter == s.refreshes[k].starter ==> j == k
  {
    InvAlways(steps);
  }

  /**
   * The contract of one call, in every interleaving: it sends its request once, and a second time
   * exactly when the refresh it joined produced a session; `onRefreshFailed` fires once with that
   * refresh's outcome exactly when it failed, and `onSessionExpired` exactly when it was rejected.
   */
  lemma CallContract(steps: seq<Step>, i: nat)
    requires i < |Run(steps).calls|
    ensures var s := Run(steps);
      var pc := s.calls[i];
      var m := multiset(s.log);
      if HasConcluded(pc) then
        && Joined(pc).value < |s.refreshes|
        && s.refreshes[Joined(pc).value].phase.Cleared?
        && (var outcome := Classify(s.refreshes[Joined(pc).value].phase.answer);
            && m[ResourceSent(i)] == (if outcome.Renewed? then 2 else 1)
            && m[ExpiryReported(i)] == (if outcome.Failed? && outcome.reason == Rejected then 1 else 0)
            && forall o :: m[FailureReported(i, o)] == if o == outcome && outcome.Failed? then 1 else 0)
      else
        && m[ResourceSent(i)] == 1
        && m[ExpiryReported(i)] == 0
        && forall o :: m[FailureReported(i, o)] == 0
  {
    InvAlways(steps);
    assert JoinedOk(Run(steps), i) && LogOk(Run(steps), i);
  }

  /** The reason is always reported before the session is called expired. */
  lemma ExpiryFollowsItsReason(steps: seq<Step>, p: nat)
    ensures var log := Run(steps).log;
      p < |log| && log[p].ExpiryReported? ==>
        p > 0 && log[p - 1].FailureReported? && log[p - 1].call == log[p].call
  {
    InvAlways(steps);
  }

  /** The server answers that end a session: a 401, or a 403 naming a terminal account state. */
  predicate RefusesCredential(answer: RefreshAnswer) {
    && answer.Answer?
    && (answer.status == 401 ||
        (answer.status == 403 && answer.code.Some? && answer.code.value in TERMINAL_REFRESH_CODES))
  }

  /**
   * Nobody is signed out by anything else: an expiry is reported only by a call whose own refresh
   * was refused, never for a rate limit, a server error, an origin guard or a lost connection.
   */
  lemma ExpiryNeedsARefusal(steps: seq<Step>, i: nat)
    requires i < |Run(steps).calls|
    ensures var s := Run(steps);
      ExpiryReported(i) in s.log <==>
        && s.calls[i].ReturnedAfterFailure?
        && s.calls[i].refresh < |s.refreshes|
        && s.refreshes[s.calls[i].refresh].phase.Cleared?
        && RefusesCredential(s.refreshes[s.calls[i].refresh].phase.answer)
  {
    hide Run, Next, LogOk, EventsOk, StartersOk, SlotOk;
    CallContract(steps, i);
    InvAlways(steps);
    var s := Run(steps);
    assert JoinedOk(s, i);
    assert ExpiryReported(i) in s.log <==> multiset(s.log)[ExpiryReported(i)] > 0;
  }

  lemma RunOneMore(steps: seq<Step>, step: Step)
    ensures Run(steps + [step]) == Next(Run(steps), step)
  {
    hide Next;
    assert (steps + [step])[..|steps|] == steps;
  }

  predicate IsWaitingFor(s: State, i: nat, k: nat) {
    i < |s.calls| && s.calls[i] == Waiting(k) && k < |s.refreshes|
  }

  lemma AnsweredThen(s: State, i: nat, k: nat, answer: RefreshAnswer)
    requires IsWaitingFor(s, i, k) && s.refreshes[k].phase.Posting?
    ensures var t := Next(s, RefreshAnswered(k, answer));
      IsWaitingFor(t, i, k) && t.refreshes[k].phase == Settled(answer) && t.calls == s.calls
  {
  }

  lemma ClearedThen(s: State, i: nat, k: nat)
    requires IsWaitingFor(s, i, k) && s.refreshes[k].phase.Settled?
    ensures var t := Next(s, SlotCleared(k));
      && IsWaitingFor(t, i, k) && t.calls == s.calls
      && t.refreshes[k].phase == Cleared(s.refreshes[k].phase.answer)
  {
  }

  /** How a waiting call ends up on this answer. */
  function Ending(answer: RefreshAnswer, k: nat): Pc {
    if Classify(answer).Renewed? then Retrying(k) else ReturnedAfterFailure(k)
  }

  lemma ResumedThen(s: State, i: nat, k: nat)
    requires IsWaitingFor(s, i, k) && s.refreshes[k].phase.Cleared?
    ensures Next(s, Resumed(i)).calls == s.calls[i := Ending(s.refreshes[k].phase.answer, k)]
  {
    hide Classify;
  }

  /** The rest of the way for a call waiting for refresh `k`, answered with `answer` if it has none yet. */
  function WayOut(s: State, i: nat, k: nat, answer: RefreshAnswer): (steps: seq<Step>)
    requires k < |s.refreshes|
    ensures |steps| <= 3
  {
    match s.refreshes[k].phase
    case Posting => [RefreshAnswered(k, answer), SlotCleared(k), Resumed(i)]
    case Settled(_) => [SlotCleared(k), Resumed(i)]
    case Cleared(_) => [Resumed(i)]
  }

  lemma FromSettled(steps: seq<Step>, i: nat, k: nat)
    requires var s := Run(steps); IsWaitingFor(s, i, k) && s.refreshes[k].phase.Settled?
    ensures var s := Run(steps);
      Run(steps + [SlotCleared(k), Resumed(i)]).calls == s.calls[i := Ending(s.refreshes[k].phase.answer, k)]
  {
    hide Run, Next, Ending;
    RunOneMore(steps, SlotCleared(k));
    RunOneMore(steps + [SlotCleared(k)], Resumed(i));
    assert steps + [SlotCleared(k), Resumed(i)] == steps + [SlotCleared(k)] + [Resumed(i)];
    ClearedThen(Run(steps), i, k);
    ResumedThen(Run(steps + [SlotCleared(k)]), i, k);
  }

  lemma FromPosting(steps: seq<Step>, i: nat, k: nat, answer: RefreshAnswer)
    requires var s := Run(steps); IsWaitingFor(s, i, k) && s.refreshes[k].phase.Posting?
    ensures Run(steps + [RefreshAnswered(k, answer), SlotCleared(k), Resumed(i)]).calls ==
      Run(steps).calls[i := Ending(answer, k)]
  {
    hide Run, Next, Ending;
    RunOneMore(steps, RefreshAnswered(k, answer));
    assert steps + [RefreshAnswered(k, answer), SlotCleared(k), Resumed(i)] ==
      steps + [RefreshAnswered(k, answer)] + [SlotCleared(k), Resumed(i)];
    AnsweredThen(Run(steps), i, k, answer);
    FromSettled(steps + [RefreshAnswered(k, answer)], i, k);
  }

  /**
   * No waiter is stranded: from every reachable state, whatever the refresh is answered with, at
   * most three steps bring a waiting call to the conclusion that its refresh's answer calls for.
   */
  lemma WaitersConclude(steps: seq<Step>, i: nat, answer: RefreshAnswer)
    requires i < |Run(steps).calls| && Run(steps).calls[i].Waiting?
    ensures var s := Run(steps);
      var k := s.calls[i].refresh;
      && k < |s.refreshes|
      && var heard := if s.refreshes[k].phase.Posting? then answer else s.refreshes[k].phase.answer;
         Run(steps + WayOut(s, i, k, answer)).calls == s.calls[i := Ending(heard, k)]
  {
    hide Run, Next, LogOk, EventsOk, StartersOk, SlotOk, Ending;
    InvAlways(steps);
    var s := Run(steps);
    assert JoinedOk(s, i);
    var k := s.calls[i].refresh;
    if s.refreshes[k].phase.Posting? {
      FromPosting(steps, i, k, answer);
    } else if s.refreshes[k].phase.Settled? {
      FromSettled(steps, i, k);
    } else {
      RunOneMore(steps, Resumed(i));
      ResumedThen(s, i, k);
    }
  }

  // ---- which calls join a refresh ----

  /** Step `p` is the first answer of call `i`, and it is a 401. */
  predicate AnsweredUnauthorised(steps: seq<Step>, i: nat, p: nat) {
    && p < |steps|
    && steps[p] == FirstAnswered(i, Unauthorised)
    && i < |Run(steps[..p]).calls| && Run(steps[..p]).calls[i] == Requesting
  }

  /** Step `q` reads the body of that answer, and the code in it blames the access token, or is absent. */
  predicate ReadAsExpired(steps: seq<Step>, i: nat, q: nat) {
    && q < |steps|
    && (steps[q] == BodyRead(i, None) || steps[q] == BodyRead(i, Some("auth.token_invalid")))
    && i < |Run(steps[..q]).calls| && Run(steps[..q]).calls[i] == ReadingBody
  }

  predicate HasJoined(pc: Pc) {
    pc.Waiting? || pc.Retrying? || pc.ReturnedAfterFailure? || pc.ReturnedAfterRetry?
  }

  /** How one step moves a call towards a refresh. */
  lemma StepTowardsRefresh(s: State, step: Step, i: nat)
    requires i < |Next(s, step).calls|
    ensures var now := Next(s, step).calls[i];
      var was := if i < |s.calls| then s.calls[i] else Requesting;
      && (now.ReadingBody? <==>
            || (was.ReadingBody? && !(step.BodyRead? && step.call == i))
            || (i < |s.calls| && was.Requesting? && step == FirstAnswered(i, Unauthorised)))
      && (HasJoined(now) <==>
            || HasJoined(was)
            || (was.ReadingBody? &&
                (step == BodyRead(i, None) || step == BodyRead(i, Some("auth.token_invalid")))))
  {
    hide Classify;
  }

  lemma {:induction false} ReadingAnswersA401(steps: seq<Step>, i: nat)
    requires i < |Run(steps).calls|
    ensures Run(steps).calls[i].ReadingBody? ==> exists p: nat :: AnsweredUnauthorised(steps, i, p)
  {
    hide Next;
    if steps != [] && Run(steps).calls[i].ReadingBody? {
      var init := steps[..|steps| - 1];
      StepTowardsRefresh(Run(init), steps[|init|], i);
      if i < |Run(init).calls| && Run(init).calls[i].ReadingBody? {
        ReadingAnswersA401(init, i);
        var p: nat :| AnsweredUnauthorised(init, i, p);
        assert init[..p] == steps[..p];
        assert AnsweredUnauthorised(steps, i, p);
      } else {
        assert AnsweredUnauthorised(steps, i, |init|);
      }
    }
  }

  lemma NewcomerHasNotJoined()
    ensures !HasJoined(Requesting)
  {
  }

  /** A read is the last step's, or one of an earlier step. */
  lemma ReadBefore(steps: seq<Step>, i: nat)
    requires steps != []
    ensures var init := steps[..|steps| - 1];
      (exists q: nat :: ReadAsExpired(steps, i, q)) <==>
        (exists q: nat :: ReadAsExpired(init, i, q)) || ReadAsExpired(steps, i, |init|)
  {
    hide Run;
    var init := steps[..|steps| - 1];
    assert forall q :: 0 <= q < |init| ==> init[..q] == steps[..q];
    forall q: nat | ReadAsExpired(init, i, q) ensures ReadAsExpired(steps, i, q) {
    }
    forall q: nat | ReadAsExpired(steps, i, q) && q < |init| ensures ReadAsExpired(init, i, q) {
    }
  }

  lemma MoreCalls(s: State, step: Step)
    ensures |s.calls| <= |Next(s, step).calls|
  {
  }

  lemma {:induction false} CallsOnlyGrow(steps: seq<Step>, q: nat)
    requires q <= |steps|
    ensures |Run(steps[..q]).calls| <= |Run(steps).calls|
  {
    if q == |steps| {
      assert steps[..q] == steps;
    } else {
      var init := steps[..|steps| - 1];
      CallsOnlyGrow(init, q);
      assert init[..q] == steps[..q];
      MoreCalls(Run(init), steps[|init|]);
    }
  }

  lemma NotReadBeforeItBegan(steps: seq<Step>, i: nat)
    requires steps != [] && i >= |Run(steps[..|steps| - 1]).calls|
    ensures !exists q: nat :: ReadAsExpired(steps, i, q)
  {
    hide Next;
    forall q: nat | q < |steps| ensures i >= |Run(steps[..q]).calls| {
      CallsOnlyGrow(steps[..|steps| - 1], q);
      assert steps[..|steps| - 1][..q] == steps[..q];
    }
  }

  lemma {:induction false} JoinedWasRead(steps: seq<Step>, i: nat)
    requires i < |Run(steps).calls|
    ensures HasJoined(Run(steps).calls[i]) <==> exists q: nat :: ReadAsExpired(steps, i, q)
  {
    hide Next, HasJoined;
    if steps == [] {
    } else {
      var init := steps[..|steps| - 1];
      var last := steps[|init|];
      StepTowardsRefresh(Run(init), last, i);
      assert forall q :: 0 <= q < |init| ==> init[..q] == steps[..q];
      if i < |Run(init).calls| {
        JoinedWasRead(init, i);
        ReadBefore(steps, i);
      } else {
        NotReadBeforeItBegan(steps, i);
        NewcomerHasNotJoined();
      }
    }
  }

  lemma ReadComesAfterAnswer(steps: seq<Step>, i: nat, q: nat)
    requires ReadAsExpired(steps, i, q)
    ensures exists p: nat :: p < q && AnsweredUnauthorised(steps, i, p)
  {
    hide Run;
    ReadingAnswersA401(steps[..q], i);
    var p: nat :| AnsweredUnauthorised(steps[..q], i, p);
    assert steps[..q][..p] == steps[..p];
    assert AnsweredUnauthorised(steps, i, p);
  }

  /**
   * Which calls ever join a refresh: exactly those whose first answer was a 401 and whose body,
   * read after it, carried no code or the code of an invalid access token.
   */
  lemma JoinedIff(steps: seq<Step>, i: nat)
    requires i < |Run(steps).calls|
    ensures HasJoined(Run(steps).calls[i]) <==>
      exists p: nat, q: nat :: p < q && AnsweredUnauthorised(steps, i, p) && ReadAsExpired(steps, i, q)
  {
    hide Run, HasJoined, AnsweredUnauthorised, ReadAsExpired;
    JoinedWasRead(steps, i);
    if q: nat :| ReadAsExpired(steps, i, q) {
      ReadComesAfterAnswer(steps, i, q);
    }
  }

  lemma RunsUntouched(s: State, i: nat)
    requires i < |s.calls| && s.calls[i].Requesting?
    ensures Next(s, FirstAnswered(i, PassedThrough)) == s.(calls := s.calls[i := ReturnedUntouched])
    ensures Next(s, FirstAnswered(i, Threw)) == s.(calls := s.calls[i := ReturnedUntouched])
  {
  }

  lemma ReadBodyDecides(s: State, i: nat, code: Option<string>)
    requires i < |s.calls| && s.calls[i].Requesting? && SlotOk(s)
    ensures var read := Next(Next(s, FirstAnswered(i, Unauthorised)), BodyRead(i, code));
      if code == None || code == Some("auth.token_invalid")
      then i < |read.calls| && read.calls[i].Waiting? && Unfinished(read, read.calls[i].refresh)
      else read == s.(calls := s.calls[i := ReturnedUntouched])
  {
    var t := Next(s, FirstAnswered(i, Unauthorised));
    assert t.calls == s.calls[i := ReadingBody];
    assert t.calls[i := ReturnedUntouched] == s.calls[i := ReturnedUntouched];
  }

  /** From every reachable state, what the first answer and the code behind it lead to. */
  lemma FirstAnswerDecides(steps: seq<Step>, i: nat, code: Option<string>)
    requires i < |Run(steps).calls| && Run(steps).calls[i].Requesting?
    ensures var s := Run(steps);
      var read := Run(steps + [FirstAnswered(i, Unauthorised)] + [BodyRead(i, code)]);
      && (if code == None || code == Some("auth.token_invalid")
          then i < |read.calls| && read.calls[i].Waiting? && Unfinished(read, read.calls[i].refresh)
          else read == s.(calls := s.calls[i := ReturnedUntouched]))
      && Run(steps + [FirstAnswered(i, PassedThrough)]) == s.(calls := s.calls[i := ReturnedUntouched])
      && Run(steps + [FirstAnswered(i, Threw)]) == s.(calls := s.calls[i := ReturnedUntouched])
  {
    var s := Run(steps);
    InvAlways(steps);
    assert SlotOk(s);
    RunOneMore(steps, FirstAnswered(i, Unauthorised));
    RunOneMore(steps + [FirstAnswered(i, Unauthorised)], BodyRead(i, code));
    RunOneMore(steps, FirstAnswered(i, PassedThrough));
    RunOneMore(steps, FirstAnswered(i, Threw));
    hide Run, Inv, Classify;
    ReadBodyDecides(s, i, code);
    RunsUntouched(s, i);
  }

  /** Nothing is held back: a call or a refresh can take each step as soon as it stands before it. */
  lemma StepsCanBeTaken(s: State, i: nat, k: nat, first: FirstAnswer, code: Option<string>, response: RefreshAnswer)
    ensures Enabled(s, Begin)
    ensures i < |s.calls| && s.calls[i] == Requesting ==> Enabled(s, FirstAnswered(i, first))
    ensures i < |s.calls| && s.calls[i] == ReadingBody ==> Enabled(s, BodyRead(i, code))
    ensures i < |s.calls| && s.calls[i].Retrying? ==> Enabled(s, RetryAnswered(i))
    ensures k < |s.refreshes| && s.refreshes[k].phase == Posting ==> Enabled(s, RefreshAnswered(k, response))
    ensures k < |s.refreshes| && s.refreshes[k].phase.Settled? ==> Enabled(s, SlotCleared(k))
    ensures i < |s.calls| && s.calls[i] == Waiting(k) && k < |s.refreshes| && s.refreshes[k].phase.Cleared? ==>
      Enabled(s, Resumed(i))
  {
  }

  /** What a refresh answer stands for, by its status and the code in a 403. */
  predicate StandsFor(answer: RefreshAnswer, outcome: Outcome) {
    match answer
    case NoAnswer => outcome == Failed(Unreachable, None)
    case Answer(status, code) =>
      if 200 <= status < 300 then outcome == Renewed
      else if RefusesCredential(answer) then outcome == Failed(Rejected, Some(status))
      else outcome == Failed(Unavailable, Some(status))
  }

  lemma OutcomeStands(answer: RefreshAnswer)
    ensures forall o :: StandsFor(answer, o) <==> o == Classify(answer)
    ensures Classify(answer).Renewed? <==> answer.Answer? && 200 <= answer.status < 300
  {
  }

  /**
   * The outcome every concluded call acted on: a retry for a 2xx and nothing else; a failure is
   * reported once with its reason, a refusal naming one of four account states or a 401 as
   * rejected, any other status as unavailable, no answer as unreachable.
   */
  lemma OutcomeIsTheAnswers(steps: seq<Step>, i: nat)
    requires i < |Run(steps).calls| && HasConcluded(Run(steps).calls[i])
    ensures var s := Run(steps);
      var m := multiset(s.log);
      var k := Joined(s.calls[i]).value;
      && k < |s.refreshes| && s.refreshes[k].phase.Cleared?
      && var answer := s.refreshes[k].phase.answer;
         && (m[ResourceSent(i)] == 2 <==> answer.Answer? && 200 <= answer.status < 300)
         && forall o: Outcome :: o.Failed? ==> (m[FailureReported(i, o)] == 1 <==> StandsFor(answer, o))
  {
    hide Run, Classify, StandsFor;
    CallContract(steps, i);
    var s := Run(steps);
    OutcomeStands(s.refreshes[Joined(s.calls[i]).value].phase.answer);
  }

  /** The account states that end a session, by name. */
  lemma RefusalsSpelledOut(answer: RefreshAnswer)
    ensures RefusesCredential(answer) <==>
      && answer.Answer?
      && (answer.status == 401 ||
          (answer.status == 403 && answer.code in {
            Some("auth.account_inactive"), Some("auth.account_suspended"),
            Some("auth.account_banned"), Some("auth.pending_approval")}))
  {
  }
}
