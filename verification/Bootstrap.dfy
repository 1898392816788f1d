/** The bootstrap session tracker of `bootstrap.rs`. Every call runs under one lock, so any
    interleaving of callers is some sequence of calls. */
module Bootstrap {
  import opened Sequences
  import opened Wrappers

  datatype Status = Booting | Running | Packaging | Succeeded | Failed

  datatype Step = StartingBuilderVm | InstallingSystem | PackagingStep | Finalizing

  datatype Outcome = StillRunning | StepSucceeded | StepFailed

  datatype StepRun = StepRun(step: Step, startedAt: nat, endedAt: Option<nat>, outcome: Outcome, detail: Option<string>)

  datatype Session = Session(vmId: nat, status: Status, currentStep: Option<Step>, timeline: seq<StepRun>,
                             startedAt: nat, endedAt: Option<nat>)

  type Sessions = map<nat, Session>

  predicate IsTerminal(status: Status) {
    status.Succeeded? || status.Failed?
  }

  predicate IsActive(session: Session) {
    !IsTerminal(session.status)
  }

  function FirstRunning(timeline: seq<StepRun>): (i: nat)
    ensures i <= |timeline|
    ensures i < |timeline| ==> timeline[i].outcome.StillRunning?
    ensures forall k :: 0 <= k < i ==> !timeline[k].outcome.StillRunning?
  {
    if timeline == [] || timeline[0].outcome.StillRunning? then 0 else 1 + FirstRunning(timeline[1..])
  }

  function Closed(session: Session, now: nat, outcome: Outcome, detail: Option<string>): Session {
    var i := FirstRunning(session.timeline);
    session.(
      timeline :=
        if i == |session.timeline| then session.timeline
        else session.timeline[i := session.timeline[i].(endedAt := Some(now), outcome := outcome, detail := detail)],
      currentStep := None)
  }

  function Opened(session: Session, now: nat, step: Step): Session {
    var closed := Closed(session, now, StepSucceeded, None);
    closed.(timeline := closed.timeline + [StepRun(step, now, None, StillRunning, None)], currentStep := Some(step))
  }

  function NewSession(vmId: nat, now: nat): Session {
    var first := StepRun(StartingBuilderVm, now, None, StillRunning, None);
    Session(vmId, Booting, Some(StartingBuilderVm), [first], now, None)
  }

  function Finished(
      session: Session, status: Status, now: nat, end: nat, outcome: Outcome, detail: Option<string>): Session
  {
    Closed(session.(status := status), now, outcome, detail).(endedAt := Some(end))
  }

  /** The calls of the tracker. `TryBegin` carries the identifier it mints. */
  datatype Call =
    | TryBegin(id: nat, vmId: nat, now: nat)
    | SetStatusFrom(id: nat, expected: Status, next: Status)
    | SetStep(id: nat, now: nat, step: Step)
    | FinishOk(id: nat, now: nat, end: nat)
    | FinishErr(id: nat, now: nat, end: nat, reason: string)
    | FinishErrFrom(id: nat, expected: Status, now: nat, end: nat, reason: string)
    | Remove(id: nat)

  predicate AnyActive(sessions: Sessions) {
    exists id :: id in sessions && IsActive(sessions[id])
  }

  /** A call's effect, and whether it applied. */
  function Apply(sessions: Sessions, call: Call): (Sessions, bool) {
    if call.TryBegin? then
      if AnyActive(sessions) then (sessions, false) else (sessions[call.id := NewSession(call.vmId, call.now)], true)
    else if call.id !in sessions then (sessions, false)
    else
      var s := sessions[call.id];
      match call
      case SetStatusFrom(id, expected, next) =>
        if s.status == expected then (sessions[id := s.(status := next)], true) else (sessions, false)
      case SetStep(id, now, step) => (sessions[id := Opened(s, now, step)], true)
      case FinishOk(id, now, end) => (sessions[id := Finished(s, Succeeded, now, end, StepSucceeded, None)], true)
      case FinishErr(id, now, end, reason) =>
        (sessions[id := Finished(s, Failed, now, end, StepFailed, Some(reason))], true)
      case FinishErrFrom(id, expected, now, end, reason) =>
        if s.status == expected
        then (sessions[id := Finished(s, Failed, now, end, StepFailed, Some(reason))], true)
        else (sessions, false)
      case Remove(id) => (sessions - {id}, true)
  }

  class BootstrapTracker {
    var sessions: Sessions

    constructor ()
      ensures sessions == map[]
    {
      sessions := map[];
    }

    method CloseOpenStep(session: Session, now: nat, outcome: Outcome, detail: Option<string>) returns (closed: Session)
      ensures closed == Closed(session, now, outcome, detail)
    {
      var timeline := session.timeline;
      var i := 0;
      while i < |timeline| && !timeline[i].outcome.StillRunning?
        invariant i <= |timeline|
        invariant forall k :: 0 <= k < i ==> !timeline[k].outcome.StillRunning?
      {
        i := i + 1;
      }
      if i < |timeline| {
        timeline := timeline[i := timeline[i].(endedAt := Some(now), outcome := outcome, detail := detail)];
      }
      closed := session.(timeline := timeline, currentStep := None);
    }

    method TryBegin(id: nat, vmId: nat, now: nat) returns (begun: bool)
      modifies this
      ensures (sessions, begun) == Apply(old(sessions), Call.TryBegin(id, vmId, now))
      ensures begun ==> !AnyActive(old(sessions))
    {
      if AnyActive(sessions) {
        return false;
      }
      sessions := sessions[id := NewSession(vmId, now)];
      return true;
    }

    method SetStatusFrom(id: nat, expected: Status, next: Status) returns (applied: bool)
      modifies this
      ensures (sessions, applied) == Apply(old(sessions), Call.SetStatusFrom(id, expected, next))
    {
      if id in sessions && sessions[id].status == expected {
        sessions := sessions[id := sessions[id].(status := next)];
        return true;
      }
      return false;
    }

    method SetStep(id: nat, now: nat, step: Step)
      modifies this
      ensures sessions == Apply(old(sessions), Call.SetStep(id, now, step)).0
    {
      if id in sessions {
        var closed := CloseOpenStep(sessions[id], now, StepSucceeded, None);
        closed := closed.(timeline := closed.timeline + [StepRun(step, now, None, StillRunning, None)],
                          currentStep := Some(step));
        sessions := sessions[id := closed];
      }
    }

    method FinishOk(id: nat, now: nat, end: nat)
      modifies this
      ensures sessions == Apply(old(sessions), Call.FinishOk(id, now, end)).0
    {
      if id in sessions {
        var closed := CloseOpenStep(sessions[id].(status := Succeeded), now, StepSucceeded, None);
        sessions := sessions[id := closed.(endedAt := Some(end))];
      }
    }

    method FinishErr(id: nat, now: nat, end: nat, reason: string)
      modifies this
      ensures sessions == Apply(old(sessions), Call.FinishErr(id, now, end, reason)).0
    {
      if id in sessions {
        var closed := CloseOpenStep(sessions[id].(status := Failed), now, StepFailed, Some(reason));
        sessions := sessions[id := closed.(endedAt := Some(end))];
      }
    }

    method FinishErrFrom(id: nat, expected: Status, now: nat, end: nat, reason: string) returns (applied: bool)
      modifies this
      ensures (sessions, applied) == Apply(old(sessions), Call.FinishErrFrom(id, expected, now, end, reason))
    {
      applied := id in sessions && sessions[id].status == expected;
      if applied {
        FinishErr(id, now, end, reason);
      }
    }

    method Remove(id: nat)
      modifies this
      ensures sessions == Apply(old(sessions), Call.Remove(id)).0
    {
      sessions := sessions - {id};
    }
  }

  // ----- What every call keeps

  ghost predicate TimelineSound(s: Session) {
    && (forall i :: 0 <= i < |s.timeline| ==>
          && (s.timeline[i].outcome.StillRunning? <==> s.timeline[i].endedAt.None?)
          && (s.timeline[i].detail.Some? ==> s.timeline[i].outcome.StepFailed?))
    && (forall i :: 0 <= i < |s.timeline| - 1 ==> !s.timeline[i].outcome.StillRunning?)
    && s.currentStep == OpenStepOf(s.timeline)
  }

  /** The step the last run is in, while it runs. */
  function OpenStepOf(timeline: seq<StepRun>): Option<Step> {
    if timeline != [] && timeline[|timeline| - 1].outcome.StillRunning?
    then Some(timeline[|timeline| - 1].step) else None
  }

  ghost predicate Sound(sessions: Sessions) {
    && (forall id :: id in sessions ==> TimelineSound(sessions[id]))
    && forall a, b :: a in sessions && b in sessions && IsActive(sessions[a]) && IsActive(sessions[b]) ==> a == b
  }

  /** A compare-and-set that would bring a finished session back to life. */
  predicate Revives(call: Call) {
    call.SetStatusFrom? && IsTerminal(call.expected) && !IsTerminal(call.next)
  }

  /** Runs are only ever added at the end, and a closed run never changes. */
  ghost predicate Continues(before: Session, after: Session) {
    && |before.timeline| <= |after.timeline|
    && forall i :: 0 <= i < |before.timeline| ==>
         && after.timeline[i].step == before.timeline[i].step
         && after.timeline[i].startedAt == before.timeline[i].startedAt
         && (!before.timeline[i].outcome.StillRunning? ==> after.timeline[i] == before.timeline[i])
  }

  lemma ClosedSound(s: Session, now: nat, outcome: Outcome, detail: Option<string>)
    requires TimelineSound(s) && !outcome.StillRunning? && (detail.Some? ==> outcome.StepFailed?)
    ensures
      var closed := Closed(s, now, outcome, detail);
      && TimelineSound(closed) && Continues(s, closed) && |closed.timeline| == |s.timeline|
      && forall i :: 0 <= i < |closed.timeline| ==> !closed.timeline[i].outcome.StillRunning?
  {
  }

  lemma OpenedSound(s: Session, now: nat, step: Step)
    requires TimelineSound(s)
    ensures TimelineSound(Opened(s, now, step)) && Continues(s, Opened(s, now, step))
  {
    ClosedSound(s, now, StepSucceeded, None);
  }

  lemma FinishedSound(s: Session, status: Status, now: nat, end: nat, outcome: Outcome, detail: Option<string>)
    requires TimelineSound(s) && !outcome.StillRunning? && (detail.Some? ==> outcome.StepFailed?)
    ensures TimelineSound(Finished(s, status, now, end, outcome, detail))
    ensures Continues(s, Finished(s, status, now, end, outcome, detail))
    ensures Finished(s, status, now, end, outcome, detail).currentStep.None?
  {
    ClosedSound(s.(status := status), now, outcome, detail);
  }

  /** One session moves on; it becomes active only if it was. */
  lemma UpdateSound(sessions: Sessions, id: nat, s: Session)
    requires Sound(sessions) && id in sessions
    requires TimelineSound(s) && Continues(sessions[id], s) && (IsActive(s) ==> IsActive(sessions[id]))
    ensures Sound(sessions[id := s])
    ensures forall other :: other in sessions ==> Continues(sessions[other], sessions[id := s][other])
  {
    forall a, b | a in sessions && b in sessions && IsActive(sessions[id := s][a]) && IsActive(sessions[id := s][b])
      ensures a == b
    {
      assert IsActive(sessions[a]) && IsActive(sessions[b]);
    }
  }

  lemma SessionSound(sessions: Sessions, call: Call)
    requires Sound(sessions) && !Revives(call) && !call.TryBegin? && call.id in sessions
    requires call.id in Apply(sessions, call).0
    ensures
      var s, s' := sessions[call.id], Apply(sessions, call).0[call.id];
      TimelineSound(s') && Continues(s, s') && (IsActive(s') ==> IsActive(s))
  {
    var s := sessions[call.id];
    match call
    case SetStatusFrom(_, _, _) =>
    case SetStep(_, now, step) => OpenedSound(s, now, step);
    case FinishOk(_, now, end) => FinishedSound(s, Succeeded, now, end, StepSucceeded, None);
    case FinishErr(_, now, end, reason) => FinishedSound(s, Failed, now, end, StepFailed, Some(reason));
    case FinishErrFrom(_, _, now, end, reason) => FinishedSound(s, Failed, now, end, StepFailed, Some(reason));
    case Remove(_) =>
  }

  /** Every session tracked before and after goes on, except one that a fresh identifier replaces. */
  ghost predicate AllContinue(before: Sessions, after: Sessions, call: Call) {
    forall id :: id in before && id in after && !(call.TryBegin? && call.id == id) ==>
      Continues(before[id], after[id])
  }

  lemma BeginSound(sessions: Sessions, call: Call)
    requires Sound(sessions) && call.TryBegin?
    ensures Sound(Apply(sessions, call).0) && AllContinue(sessions, Apply(sessions, call).0, call)
  {
    assert TimelineSound(NewSession(call.vmId, call.now));
  }

  lemma FewerSound(sessions: Sessions, fewer: Sessions, call: Call)
    requires Sound(sessions) && forall id :: id in fewer ==> id in sessions && fewer[id] == sessions[id]
    ensures Sound(fewer) && AllContinue(sessions, fewer, call)
  {
  }

  lemma ApplySound(sessions: Sessions, call: Call)
    requires Sound(sessions) && !Revives(call)
    ensures Sound(Apply(sessions, call).0) && AllContinue(sessions, Apply(sessions, call).0, call)
  {
    var after := Apply(sessions, call).0;
    if call.TryBegin? {
      BeginSound(sessions, call);
    } else if call.id in sessions && call.id in after {
      SessionSound(sessions, call);
      UpdateSound(sessions, call.id, after[call.id]);
      assert after == sessions[call.id := after[call.id]];
    } else {
      FewerSound(sessions, after, call);
    }
  }

  function Run(calls: seq<Call>): Sessions {
    if calls == [] then map[] else Apply(Run(calls[..|calls| - 1]), calls[|calls| - 1]).0
  }

  lemma RunOneMore(calls: seq<Call>, call: Call)
    ensures Run(calls + [call]) == Apply(Run(calls), call).0
  {
    assert (calls + [call])[..|calls|] == calls;
  }

  predicate NoneRevives(calls: seq<Call>) {
    forall call :: call in calls ==> !Revives(call)
  }

  /** After any sequence of calls that never revives a finished session: at most one session
      is active, and in every timeline at most the last run is open, it is the current step,
      there is no current step when none is open, and a run has an end time exactly when it
      is not open. */
  lemma {:induction false} RunSound(calls: seq<Call>)
    requires NoneRevives(calls)
    ensures Sound(Run(calls))
  {
    if calls != [] {
      RunSound(calls[..|calls| - 1]);
      ApplySound(Run(calls[..|calls| - 1]), calls[|calls| - 1]);
    }
  }

  /** Closed runs stay as they are for as long as a session is tracked, identifiers being
      minted fresh. */
  lemma {:induction false} ClosedRunsNeverChange(calls: seq<Call>, later: seq<Call>, id: nat)
    requires NoneRevives(calls) && NoneRevives(later)
    requires forall call :: call in later && call.TryBegin? ==> call.id != id
    requires id in Run(calls) && id in Run(calls + later)
    ensures Continues(Run(calls)[id], Run(calls + later)[id])
    decreases |later|
  {
    if later == [] {
      EmptyRight(calls);
    } else {
      var init, last := later[..|later| - 1], later[|later| - 1];
      Snoc(later);
      Associative(calls, init, [last]);
      RunSound(calls + init);
      RunOneMore(calls + init, last);
      OneCallContinues(Run(calls + init), last, id);
      ClosedRunsNeverChange(calls, init, id);
      ContinuesTransitive(Run(calls)[id], Run(calls + init)[id], Run(calls + later)[id]);
    }
  }

  lemma OneCallContinues(sessions: Sessions, call: Call, id: nat)
    requires Sound(sessions) && !Revives(call) && (call.TryBegin? ==> call.id != id)
    requires id in Apply(sessions, call).0
    ensures id in sessions && Continues(sessions[id], Apply(sessions, call).0[id])
  {
    ApplySound(sessions, call);
  }

  lemma ContinuesTransitive(s: Session, t: Session, u: Session)
    requires Continues(s, t) && Continues(t, u)
    ensures Continues(s, u)
  {
  }

  /** Reviving a finished session is what the guarantee cannot survive: from any sound
      state with an active session and a finished one, such a call leaves two active. */
  lemma RevivingBreaksTheSlot(sessions: Sessions, call: Call)
    requires Sound(sessions) && Revives(call)
    requires call.id in sessions && sessions[call.id].status == call.expected
    ensures Sound(Apply(sessions, call).0) <==> !AnyActive(sessions)
  {
    var after := Apply(sessions, call).0;
    if AnyActive(sessions) {
      var other :| other in sessions && IsActive(sessions[other]);
      assert other in after && IsActive(after[other]) && IsActive(after[call.id]) && other != call.id;
    }
  }

  // ----- What each call does

  /** The timeline with its open run, which is the last if there is one, closed. */
  ghost predicate ClosesLast(
      before: seq<StepRun>, after: seq<StepRun>, now: nat, outcome: Outcome, detail: Option<string>)
  {
    var n := |before|;
    && |after| >= n
    && (forall i :: 0 <= i < n - 1 ==> after[i] == before[i])
    && (n > 0 ==>
          var last := before[n - 1];
          after[n - 1] == if last.outcome == StillRunning
                          then StepRun(last.step, last.startedAt, Some(now), outcome, detail) else last)
  }

  /** A session begins, in the slot's absence, booting and with its first step under way. */
  lemma BeginOutcome(sessions: Sessions, id: nat, vmId: nat, now: nat)
    ensures
      var (after, begun) := Apply(sessions, TryBegin(id, vmId, now));
      && (begun <==> forall other :: other in sessions ==> sessions[other].status in {Succeeded, Failed})
      && (begun ==>
            && after.Keys == sessions.Keys + {id}
            && after[id] == Session(vmId, Booting, Some(StartingBuilderVm),
                                    [StepRun(StartingBuilderVm, now, None, StillRunning, None)], now, None)
            && forall other <- sessions :: other != id ==> after[other] == sessions[other])
      && (!begun ==> after == sessions)
  {
    if AnyActive(sessions) {
      var active :| active in sessions && IsActive(sessions[active]);
      assert sessions[active].status !in {Succeeded, Failed};
    }
    forall other | other in sessions && sessions[other].status !in {Succeeded, Failed} ensures AnyActive(sessions) {
      assert IsActive(sessions[other]);
    }
  }

  /** Every other call applies to a session that is tracked and, where it says so, in the status
      it expects; it leaves all others alone, and everything when it does not apply. */
  lemma AppliesExactly(sessions: Sessions, call: Call)
    requires !call.TryBegin?
    ensures
      var (after, applied) := Apply(sessions, call);
      && (applied <==>
            && call.id in sessions
            && (call.SetStatusFrom? || call.FinishErrFrom? ==> sessions[call.id].status == call.expected))
      && (!applied ==> after == sessions)
      && (applied ==> after.Keys == if call.Remove? then sessions.Keys - {call.id} else sessions.Keys)
      && forall other <- sessions :: other != call.id ==> other in after && after[other] == sessions[other]
  {
  }

  /** What a call that applies makes of its session: a bare status; a step closed as succeeded and
      the next one open; or an end, in the status and with the outcome and reason reported. */
  lemma AppliedOutcome(sessions: Sessions, call: Call)
    requires Sound(sessions) && !call.TryBegin? && !call.Remove? && Apply(sessions, call).1
    ensures call.id in sessions && call.id in Apply(sessions, call).0
    ensures
      var s, s' := sessions[call.id], Apply(sessions, call).0[call.id];
      && s'.vmId == s.vmId && s'.startedAt == s.startedAt
      && (call.SetStatusFrom? ==> s' == s.(status := call.next))
      && (call.SetStep? ==>
            && s'.status == s.status && s'.endedAt == s.endedAt && s'.currentStep == Some(call.step)
            && |s'.timeline| == |s.timeline| + 1
            && s'.timeline[|s.timeline|] == StepRun(call.step, call.now, None, StillRunning, None)
            && ClosesLast(s.timeline, s'.timeline, call.now, StepSucceeded, None))
      && (call.FinishOk? ==>
            && s'.status == Succeeded && s'.endedAt == Some(call.end) && s'.currentStep == None
            && |s'.timeline| == |s.timeline| && ClosesLast(s.timeline, s'.timeline, call.now, StepSucceeded, None))
      && (call.FinishErr? || call.FinishErrFrom? ==>
            && s'.status == Failed && s'.endedAt == Some(call.end) && s'.currentStep == None
            && |s'.timeline| == |s.timeline|
            && ClosesLast(s.timeline, s'.timeline, call.now, StepFailed, Some(call.reason)))
  {
    var timeline := sessions[call.id].timeline;
    FirstRunningIsLast(timeline);
  }

  lemma FirstRunningIsLast(timeline: seq<StepRun>)
    requires forall i :: 0 <= i < |timeline| - 1 ==> !timeline[i].outcome.StillRunning?
    ensures FirstRunning(timeline) ==
            if timeline != [] && timeline[|timeline| - 1].outcome.StillRunning? then |timeline| - 1 else |timeline|
  {
  }

  // ----- Finished sessions

  ghost predicate FinishedIsClosed(sessions: Sessions) {
    forall id :: id in sessions && !IsActive(sessions[id]) ==> sessions[id].currentStep.None?
  }

  predicate LeavesStepOpen(sessions: Sessions, call: Call) {
    call.id in sessions &&
    var s := sessions[call.id];
    || (call.SetStep? && !IsActive(s))
    || (call.SetStatusFrom? && s.status == call.expected && IsTerminal(call.next) && s.currentStep.Some?)
  }

  /** `set_step` is unconditional, so a finished session can be given an open step; that and
      a bare status change to a terminal status are the only calls that do so. */
  lemma FinishedStaysClosedExactly(sessions: Sessions, call: Call)
    requires Sound(sessions) && FinishedIsClosed(sessions) && !Revives(call)
    ensures FinishedIsClosed(Apply(sessions, call).0) <==> !LeavesStepOpen(sessions, call)
  {
    var after := Apply(sessions, call).0;
    if LeavesStepOpen(sessions, call) {
      assert call.id in after && !IsActive(after[call.id]) && after[call.id].currentStep.Some?;
    }
  }

  /** Such a session is reached from an empty tracker: its work fails, and a step that was on
      its way is set afterwards. */
  lemma FinishedWithOpenStepReachable() returns (calls: seq<Call>)
    ensures NoneRevives(calls)
    ensures Sound(Run(calls)) && 0 in Run(calls)
    ensures Run(calls)[0].status == Failed && Run(calls)[0].currentStep == Some(PackagingStep)
    ensures !FinishedIsClosed(Run(calls))
  {
    var begin, fail, step := TryBegin(0, 5, 1), FinishErr(0, 2, 3, "builder exited"), SetStep(0, 4, PackagingStep);
    calls := [begin, fail, step];
    RunOneMore([], begin);
    RunOneMore([begin], fail);
    RunOneMore([begin, fail], step);
    assert [] + [begin] == [begin] && [begin] + [fail] == [begin, fail] && [begin, fail] + [step] == calls;
    RunSound(calls);
    assert 0 in Run([begin]) && Run([begin])[0] == NewSession(5, 1);
    assert 0 in Run([begin, fail]) && Run([begin, fail])[0].status == Failed;
  }
}
