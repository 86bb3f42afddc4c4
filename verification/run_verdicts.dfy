/** What a run's outcome proves about its history: soundness of the verdict and of a
    returned result, independence of the path it came by, and missed wakeups. */
module RunVerdicts {
  import opened Models
  import opened ConversionProtocol
  import opened RunCounting
  import opened NonInterference

  /** Event `i` reports that task `t` ended with `status`: by a signal for `t`, or by
      the answer to a poll of `t`. */
  ghost predicate ReportsAt(inp: ConvertInput, h: seq<Event>, i: nat, t: TaskId, status: TaskStatus) {
    i < |h| &&
    match h[i]
    case Signal(event) => event.taskId == t && event.taskStatus == status
    case Checked(Reported(Some(completed)), _) =>
      completed.taskStatus == status && Reach(inp, h[..i]).phase == Checking(t)
    case _ => false
  }

  /** The task whose end the run has accepted, and how it took it to have ended. */
  function Concluded(s: Run): Option<(TaskId, TaskStatus)> {
    match s.phase
    case Fetching(t) => Some((t, Success))
    case Collecting(t) => Some((t, Success))
    case Closed(Returned(r)) => Some((r.taskId, Success))
    case Closed(Failed(TaskFailed(t, _))) => Some((t, Failure))
    case Closed(Failed(NothingConverted(t, _))) => Some((t, Success))
    case Closed(Failed(NoRequiredOutput(t, _))) => Some((t, Success))
    case _ => None
  }

  /** Event `i` brought the run into `p`, and it has been in `p` ever since. */
  ghost predicate EntersAt(inp: ConvertInput, h: seq<Event>, p: Run -> bool, i: nat) {
    i < |h| && !p(Reach(inp, h[..i])) && forall j | i < j <= |h| :: p(Reach(inp, h[..j]))
  }

  /** What holds of a run now, and did not at its start, was entered at some event. */
  lemma {:induction false} Entered(inp: ConvertInput, h: seq<Event>, p: Run -> bool)
    requires !p(Start(inp)) && p(Reach(inp, h))
    ensures exists i: nat :: EntersAt(inp, h, p, i)
    decreases |h|
  {
    assert h != [];
    var n := |h| - 1;
    assert h[..n + 1] == h;
    if p(Reach(inp, h[..n])) {
      Entered(inp, h[..n], p);
      var i: nat :| EntersAt(inp, h[..n], p, i);
      assert forall j | 0 <= j <= n :: h[..n][..j] == h[..j];
      assert EntersAt(inp, h, p, i);
    } else {
      assert EntersAt(inp, h, p, n);
    }
  }

  /** The event at which `p` was entered, and the states before and after it. */
  lemma Entry(inp: ConvertInput, h: seq<Event>, p: Run -> bool) returns (i: nat, s: Run)
    requires !p(Start(inp)) && p(Reach(inp, h))
    ensures EntersAt(inp, h, p, i) && s == Reach(inp, h[..i]) && Inv(inp, s)
    ensures !p(s) && p(Step(inp, s, h[i]))
  {
    Entered(inp, h, p);
    i :| EntersAt(inp, h, p, i);
    s := Reach(inp, h[..i]);
    Counters(inp, h[..i]);
    ReachStep(inp, h, i);
  }

  lemma StepCompletion(inp: ConvertInput, s: Run, e: Event, t: TaskId)
    requires t in Step(inp, s, e).completed
    ensures (t in s.completed && s.completed[t] == Step(inp, s, e).completed[t]) ||
            e == Signal(Step(inp, s, e).completed[t])
  {}

  /** Every recorded completion is a signal of the history. */
  lemma CompletionsAreSignals(inp: ConvertInput, h: seq<Event>, t: TaskId)
    requires t in Reach(inp, h).completed
    ensures Reach(inp, h).completed[t].taskId == t
    ensures exists i: nat :: i < |h| && h[i] == Signal(Reach(inp, h).completed[t])
  {
    Counters(inp, h);
    var event := Reach(inp, h).completed[t];
    var i, s := Entry(inp, h, (s: Run) => t in s.completed && s.completed[t] == event);
    StepCompletion(inp, s, h[i], t);
  }

  /** When an event makes the run accept an end of `t`, the event reports it or a
      completion recorded before does. */
  lemma ConclusionStep(inp: ConvertInput, s: Run, e: Event, t: TaskId, status: TaskStatus)
    requires Inv(inp, s) && Concluded(s) != Concluded(Step(inp, s, e)) == Some((t, status))
    ensures (t in s.completed && s.completed[t].taskStatus == status) ||
            (e.Signal? && e.event.taskId == t && e.event.taskStatus == status) ||
            (s.phase == Checking(t) && e.Checked? && e.answer.Reported? && e.answer.completed.Some? &&
             e.answer.completed.value.taskStatus == status)
  {}

  lemma ConclusionWasReported(inp: ConvertInput, h: seq<Event>, t: TaskId, status: TaskStatus)
    requires Concluded(Reach(inp, h)) == Some((t, status))
    ensures exists i: nat :: ReportsAt(inp, h, i, t, status)
  {
    var i, s := Entry(inp, h, (s: Run) => Concluded(s) == Some((t, status)));
    ConclusionStep(inp, s, h[i], t, status);
    if t in s.completed && s.completed[t].taskStatus == status {
      CompletionsAreSignals(inp, h[..i], t);
      var k: nat :| k < i && h[..i][k] == Signal(s.completed[t]);
      assert ReportsAt(inp, h, k, t, status);
    } else {
      assert ReportsAt(inp, h, i, t, status);
    }
  }

  /** Every report in the history is of the task's one terminal status. */
  ghost predicate Faithful(inp: ConvertInput, h: seq<Event>, ended: map<TaskId, TaskStatus>) {
    forall i: nat, t, status :: ReportsAt(inp, h, i, t, status) ==> t in ended && ended[t] == status
  }

  /** Path independence: two runs that hear of `t` by any mix of callbacks and polls,
      all faithful to the same write-once statuses, take it to have ended the same way. */
  lemma PathIndependence(
    inp: ConvertInput, inp': ConvertInput, h: seq<Event>, h': seq<Event>, ended: map<TaskId, TaskStatus>, t: TaskId,
    status: TaskStatus, status': TaskStatus)
    requires Faithful(inp, h, ended) && Faithful(inp', h', ended)
    requires Concluded(Reach(inp, h)) == Some((t, status))
    requires Concluded(Reach(inp', h')) == Some((t, status'))
    ensures t in ended && status == status' == ended[t]
  {
    ConclusionWasReported(inp, h, t, status);
    ConclusionWasReported(inp', h', t, status');
  }

  /** Event `i` is the answer of the last submit so far, and returned `t`. */
  ghost predicate LastSubmitAt(inp: ConvertInput, h: seq<Event>, i: nat, t: TaskId) {
    && i < |h| && h[i] == Submitted(t) && Reach(inp, h[..i]).phase.Submitting?
    && (forall j :: i < j <= |h| ==> !Reach(inp, h[..j]).phase.Submitting?)
  }

  /** The task a run is about. */
  function TaskOf(s: Run): Option<TaskId> {
    match s.phase
    case Submitting => None
    case Sleeping(t) => Some(t)
    case Checking(t) => Some(t)
    case Closed(Failed(LostForGood(t))) => Some(t)
    case Closed(Failed(BudgetExhausted(t, _))) => Some(t)
    case _ => if Concluded(s).Some? then Some(Concluded(s).value.0) else None
  }

  /** Only a submit's answer changes which task the run is about. */
  lemma StepKeepsTask(inp: ConvertInput, s: Run, e: Event)
    ensures TaskOf(Step(inp, s, e)).Some? ==>
              if s.phase.Submitting? then e == Submitted(TaskOf(Step(inp, s, e)).value)
              else TaskOf(s) == TaskOf(Step(inp, s, e))
  {}

  lemma TaskWasSubmittedLast(inp: ConvertInput, h: seq<Event>, t: TaskId)
    requires TaskOf(Reach(inp, h)) == Some(t)
    ensures exists i: nat :: LastSubmitAt(inp, h, i, t)
  {
    var i, s := Entry(inp, h, (s: Run) => TaskOf(s) == Some(t));
    StepKeepsTask(inp, s, h[i]);
    forall j | i < j <= |h| ensures !Reach(inp, h[..j]).phase.Submitting? {
      assert TaskOf(Reach(inp, h[..j])) == Some(t);
    }
    assert LastSubmitAt(inp, h, i, t);
  }

  /** Event `i` answered fetch_outcome for `t` with counts that do not say "nothing". */
  ghost predicate CountsAcceptedAt(inp: ConvertInput, h: seq<Event>, i: nat, t: TaskId) {
    i < |h| && h[i].OutcomeFetched? && !ProducedNothing(h[i].outcome) && Reach(inp, h[..i]).phase == Fetching(t)
  }

  lemma CountsWereAccepted(inp: ConvertInput, h: seq<Event>, t: TaskId)
    requires Reach(inp, h).phase == Collecting(t)
    ensures exists i: nat :: CountsAcceptedAt(inp, h, i, t)
  {
    var i, s := Entry(inp, h, (s: Run) => s.phase == Collecting(t));
    assert CountsAcceptedAt(inp, h, i, t);
  }

  /** Event `i` answered collect_outputs for `t` with what the result carries. */
  ghost predicate CollectedAt(inp: ConvertInput, h: seq<Event>, i: nat, r: ConvertResult) {
    i < |h| && h[i] == OutputsCollected(CollectedOutputs(r.outputBucket, r.outputs)) &&
    Reach(inp, h[..i]).phase == Collecting(r.taskId)
  }

  lemma ResultWasCollected(inp: ConvertInput, h: seq<Event>, r: ConvertResult)
    requires Reach(inp, h).phase == Closed(Returned(r))
    ensures exists i: nat :: CollectedAt(inp, h, i, r)
    ensures REQUIRED_FORMAT in r.outputs
  {
    var i, s := Entry(inp, h, (s: Run) => s.phase == Closed(Returned(r)));
    assert CollectedAt(inp, h, i, r);
  }

  /** Soundness of a returned result: its task is the last one submitted, that task was
      reported a success, its counts were accepted, its outputs are those collected for
      it and hold the required format, and its counters are the run's. */
  lemma ResultIsSound(inp: ConvertInput, h: seq<Event>, r: ConvertResult)
    requires Reach(inp, h).phase == Closed(Returned(r))
    ensures exists i: nat :: LastSubmitAt(inp, h, i, r.taskId)
    ensures exists i: nat :: ReportsAt(inp, h, i, r.taskId, Success)
    ensures exists i: nat :: CountsAcceptedAt(inp, h, i, r.taskId)
    ensures exists i: nat :: CollectedAt(inp, h, i, r)
    ensures REQUIRED_FORMAT in r.outputs
    ensures r.submissions == Reach(inp, h).submissions && r.safetyPolls == Reach(inp, h).safetyPolls
  {
    Counters(inp, h);
    TaskWasSubmittedLast(inp, h, r.taskId);
    ConclusionWasReported(inp, h, r.taskId, Success);
    ResultWasCollected(inp, h, r);
    var k: nat :| CollectedAt(inp, h, k, r);
    CountsWereAccepted(inp, h[..k], r.taskId);
    var i: nat :| CountsAcceptedAt(inp, h[..k], i, r.taskId);
    assert h[..k][..i] == h[..i];
    assert CountsAcceptedAt(inp, h, i, r.taskId);
  }

  /** Event `i` is the failure of an activity the run was waiting on. */
  ghost predicate GaveUpAt(inp: ConvertInput, h: seq<Event>, i: nat, error: ActivityError) {
    i < |h| && h[i] == ActivityFailed(error) &&
    var p := Reach(inp, h[..i]).phase; p.Submitting? || p.Fetching? || p.Collecting?
  }

  lemma ActivityFailedThen(inp: ConvertInput, h: seq<Event>, error: ActivityError)
    requires Reach(inp, h).phase == Closed(Failed(ActivityGaveUp(error)))
    ensures exists i: nat :: GaveUpAt(inp, h, i, error)
  {
    var i, s := Entry(inp, h, (s: Run) => s.phase == Closed(Failed(ActivityGaveUp(error))));
    assert GaveUpAt(inp, h, i, error);
  }

  /** Event `i` answered fetch_outcome for `t` with `o`, which says "nothing". */
  ghost predicate RefusedAt(inp: ConvertInput, h: seq<Event>, i: nat, t: TaskId, o: TaskOutcome) {
    i < |h| && h[i] == OutcomeFetched(o) && ProducedNothing(o) && Reach(inp, h[..i]).phase == Fetching(t)
  }

  lemma CountsWereRefused(inp: ConvertInput, h: seq<Event>, t: TaskId, o: TaskOutcome)
    requires Reach(inp, h).phase == Closed(Failed(NothingConverted(t, o)))
    ensures exists i: nat :: RefusedAt(inp, h, i, t, o)
  {
    var i, s := Entry(inp, h, (s: Run) => s.phase == Closed(Failed(NothingConverted(t, o))));
    assert RefusedAt(inp, h, i, t, o);
  }

  /** A run waiting on a submit, a result or a listing ends when that activity fails. */
  lemma FailedActivityEnds(inp: ConvertInput, h: seq<Event>, error: ActivityError)
    requires var p := Reach(inp, h).phase; p.Submitting? || p.Fetching? || p.Collecting?
    ensures Reach(inp, h + [ActivityFailed(error)]).phase == Closed(Failed(ActivityGaveUp(error)))
  {
    ReachNext(inp, h, ActivityFailed(error));
  }

  /** A submit's answer, and a timer: the run goes to sleep on the task, unless its callback
      was recorded before, and polls it when the timer fires. */
  lemma SleepsThenPolls(inp: ConvertInput, h: seq<Event>, t: TaskId)
    ensures var s := Reach(inp, h);
            s.phase.Submitting? && t !in s.completed ==> Reach(inp, h + [Submitted(t)]).phase == Sleeping(t)
    ensures Reach(inp, h).phase == Sleeping(t) ==> Reach(inp, h + [TimerFired]).phase == Checking(t)
  {
    ReachNext(inp, h, Submitted(t));
    ReachNext(inp, h, TimerFired);
  }

  /** What a poll decides: a reported end, the verdict; a lost task, another submission while
      there are fewer than four; anything else, another sleep while polls are left in the
      budget (and no callback has come), or giving up. */
  lemma PollDecidesRun(inp: ConvertInput, h: seq<Event>, t: TaskId, answer: CheckAnswer, attempts: nat)
    requires Reach(inp, h).phase == Checking(t)
    ensures var s, s' := Reach(inp, h), Reach(inp, h + [Checked(answer, attempts)]);
            if answer.Reported? && answer.completed.Some? then
              s'.phase ==
              if answer.completed.value.taskStatus == Success then Fetching(t)
              else Closed(Failed(TaskFailed(t, answer.completed.value.errorMessage)))
            else if answer == Raised(Application(TaskLost)) then
              s'.phase == (if s.submissions < 4 then Submitting else Closed(Failed(LostForGood(t))))
            else if s.polls < inp.maxSafetyPolls then t !in s.completed ==> s'.phase == Sleeping(t)
            else s'.phase == Closed(Failed(BudgetExhausted(t, s.polls)))
  {
    ReachNext(inp, h, Checked(answer, attempts));
  }

  /** Event `i` listed the outputs of `t`, without json; `found` are the formats listed. */
  ghost predicate MissingAt(inp: ConvertInput, h: seq<Event>, i: nat, t: TaskId, found: set<string>) {
    i < |h| && h[i].OutputsCollected? && h[i].collected.outputs.Keys == found && "json" !in found &&
    Reach(inp, h[..i]).phase == Collecting(t)
  }

  lemma OutputsWereMissing(inp: ConvertInput, h: seq<Event>, t: TaskId, found: set<string>)
    requires Reach(inp, h).phase == Closed(Failed(NoRequiredOutput(t, found)))
    ensures exists i: nat :: MissingAt(inp, h, i, t, found)
  {
    var i, s := Entry(inp, h, (s: Run) => s.phase == Closed(Failed(NoRequiredOutput(t, found))));
    assert MissingAt(inp, h, i, t, found);
  }

  /** Event `i` reported the failure of `t` with this message. */
  ghost predicate FailureAt(inp: ConvertInput, h: seq<Event>, i: nat, t: TaskId, message: Option<string>) {
    i < |h| &&
    match h[i]
    case Signal(event) => event == TaskCompleted(t, Failure, message)
    case Checked(Reported(Some(completed)), _) =>
      completed.taskStatus == Failure && completed.errorMessage == message && Reach(inp, h[..i]).phase == Checking(t)
    case _ => false
  }

  /** A run that ends in ConversionFailed passes on the message the failure was reported with. */
  lemma FailureWasReported(inp: ConvertInput, h: seq<Event>, t: TaskId, message: Option<string>)
    requires Reach(inp, h).phase == Closed(Failed(TaskFailed(t, message)))
    ensures exists i: nat :: FailureAt(inp, h, i, t, message)
  {
    var i, s := Entry(inp, h, (s: Run) => s.phase == Closed(Failed(TaskFailed(t, message))));
    if t in s.completed && s.completed[t] == TaskCompleted(t, Failure, message) {
      CompletionsAreSignals(inp, h[..i], t);
      var k: nat :| k < i && h[..i][k] == Signal(s.completed[t]);
      assert FailureAt(inp, h, k, t, message);
    } else {
      assert FailureAt(inp, h, i, t, message);
    }
  }

  /** The event reports, to a run waiting for `t`, that it ended in success. */
  predicate ReportsSuccess(s: Run, t: TaskId, e: Event) {
    match s.phase
    case Sleeping(t') => t' == t && e.Signal? && e.event.taskId == t && e.event.taskStatus == Success
    case Checking(t') =>
      t' == t && e.Checked? && e.answer.Reported? && e.answer.completed.Some? &&
      e.answer.completed.value.taskStatus == Success
    case _ => false
  }

  /** The counts are missing, or add up to something. */
  predicate CountsPass(o: TaskOutcome) {
    match (o.numSucceeded, o.numPartiallySucceeded)
    case (None, _) => true
    case (Some(n), None) => n != 0
    case (Some(n), Some(m)) => n + m != 0
  }

  /** When a run returns: after a success of the awaited task, its counts and its listing,
      exactly if the counts pass and json was listed, whatever else was; the result is what
      was listed. Otherwise it fails by the counts, or by the formats that were found. */
  lemma ReturnsExactly(
    inp: ConvertInput, before: seq<Event>, t: TaskId, success: Event, o: TaskOutcome, c: CollectedOutputs)
    requires ReportsSuccess(Reach(inp, before), t, success)
    ensures var s := Reach(inp, before);
            Reach(inp, before + [success] + [OutcomeFetched(o)] + [OutputsCollected(c)]).phase ==
            Closed(if !CountsPass(o) then Failed(NothingConverted(t, o))
                   else if "json" !in c.outputs then Failed(NoRequiredOutput(t, c.outputs.Keys))
                   else Returned(ConvertResult(t, c.outputs, c.bucket, s.submissions, s.safetyPolls)))
  {
    var s := Reach(inp, before);
    Counters(inp, before);
    ReachNext(inp, before, success);
    ReachNext(inp, before + [success], OutcomeFetched(o));
    ReachNext(inp, before + [success] + [OutcomeFetched(o)], OutputsCollected(c));
    var s1 := Step(inp, s, success);
    assert s1.phase == Fetching(t) && s1.submissions == s.submissions && s1.safetyPolls == s.safetyPolls;
  }

  lemma ReachNext(inp: ConvertInput, h: seq<Event>, e: Event)
    ensures Reach(inp, h + [e]) == Step(inp, Reach(inp, h), e)
  {
    ReachStep(inp, h + [e], |h|);
    assert (h + [e])[..|h|] == h && (h + [e])[..|h| + 1] == h + [e];
  }

  function ChecksOf(t: TaskId, cs: seq<Command>): nat {
    if cs == [] then 0 else ChecksOf(t, cs[..|cs| - 1]) + (if cs[|cs| - 1] == Check(t) then 1 else 0)
  }

  lemma {:induction false} ChecksOfConcat(t: TaskId, a: seq<Command>, b: seq<Command>)
    ensures ChecksOf(t, a + b) == ChecksOf(t, a) + ChecksOf(t, b)
    decreases |b|
  {
    if b == [] {
      assert a + b == a;
    } else {
      assert (a + b)[..|a + b| - 1] == a + b[..|b| - 1];
      ChecksOfConcat(t, a, b[..|b| - 1]);
    }
  }

  lemma ChecksOfOne(t: TaskId, c: Command)
    ensures ChecksOf(t, [c]) == if c == Check(t) then 1 else 0
  {
    assert [c][..0] == [];
  }

  /** A poll is scheduled only of the task slept on. */
  lemma PollsTheAwaited(inp: ConvertInput, s: Run, e: Event, t: TaskId)
    requires Step(inp, s, e).commands == s.commands + [Check(t)]
    ensures s.phase == Sleeping(t) && e == TimerFired
  {
    var cs := Step(inp, s, e).commands;
    assert cs[|cs| - 1] == Check(t);
  }

  lemma StepPollsAnother(inp: ConvertInput, s: Run, e: Event, t: TaskId)
    requires Inv(inp, s) && (t in s.completed || (e.Signal? && e.event.taskId == t))
    ensures ChecksOf(t, Step(inp, s, e).commands) == ChecksOf(t, s.commands)
  {
    var issued := StepIssues(inp, s, e);
    ChecksOfConcat(t, s.commands, issued);
    if |issued| == 1 {
      assert issued == [issued[0]];
      ChecksOfOne(t, issued[0]);
      if issued[0] == Check(t) {
        PollsTheAwaited(inp, s, e, t);
      }
    } else if |issued| == 2 {
      ChecksOfOne(t, issued[0]);
      ChecksOfOne(t, issued[1]);
      ChecksOfConcat(t, [issued[0]], [issued[1]]);
      assert issued == [issued[0]] + [issued[1]];
    }
  }

  lemma {:induction false} NoPollOnceCompleted(inp: ConvertInput, s: Run, h: seq<Event>, t: TaskId)
    requires Inv(inp, s) && t in s.completed
    ensures ChecksOf(t, Apply(inp, s, h).commands) == ChecksOf(t, s.commands)
    decreases |h|
  {
    if h != [] {
      StepInv(inp, s, h[0]);
      StepPollsAnother(inp, s, h[0], t);
      StepKeepsCompletions(inp, s, h[0], t);
      NoPollOnceCompleted(inp, Step(inp, s, h[0]), h[1..], t);
    }
  }

  /** No missed wakeup, over whole runs: once a signal for `t` is recorded in an open run
      (before the submit result, during a sleep, during a poll), no poll of `t` is ever
      scheduled again; the one in flight is the last. */
  lemma NoPollAfterSignal(inp: ConvertInput, before: seq<Event>, event: TaskCompleted, after: seq<Event>)
    requires !Reach(inp, before).phase.Closed?
    ensures ChecksOf(event.taskId, Reach(inp, before + [Signal(event)] + after).commands) ==
            ChecksOf(event.taskId, Reach(inp, before).commands)
  {
    var t, s := event.taskId, Reach(inp, before);
    Counters(inp, before);
    var s1 := Step(inp, s, Signal(event));
    StepInv(inp, s, Signal(event));
    StepPollsAnother(inp, s, Signal(event), t);
    ApplyConcat(inp, Start(inp), before, [Signal(event)]);
    assert Apply(inp, s, [Signal(event)]) == Apply(inp, s1, []);
    ApplyConcat(inp, Start(inp), before + [Signal(event)], after);
    NoPollOnceCompleted(inp, s1, after, t);
  }

  /** The answer of a poll that ends the wait by itself. */
  predicate EndsWait(answer: CheckAnswer) {
    (answer.Reported? && answer.completed.Some?) || (answer.Raised? && IsTaskLost(answer.error))
  }

  /** The run took the callback recorded for `t`. */
  ghost predicate WokenBy(s': Run, t: TaskId, event: TaskCompleted) {
    if event.taskStatus == Failure then s'.phase == Closed(Failed(TaskFailed(t, event.errorMessage)))
    else s'.phase == Fetching(t)
  }

  /** Where a recorded callback ends the wait. A sleep cannot outlast it and a submit
      result finds it; a poll in flight is followed by it exactly when the poll does not
      end the wait itself and is not the last of the budget. */
  lemma WhenCallbackWakes(inp: ConvertInput, h: seq<Event>, t: TaskId, answer: CheckAnswer, attempts: nat)
    requires var s := Reach(inp, h); t in s.completed
    ensures var s := Reach(inp, h); s.phase != Sleeping(t)
    ensures var s := Reach(inp, h); s.phase.Submitting? ==> WokenBy(Step(inp, s, Submitted(t)), t, s.completed[t])
    ensures var s, s' := Reach(inp, h), Reach(inp, h + [Checked(answer, attempts)]);
            s.phase == Checking(t) && !EndsWait(answer) ==>
              if s.polls < inp.maxSafetyPolls then WokenBy(s', t, s.completed[t])
              else s'.phase == Closed(Failed(BudgetExhausted(t, s.polls)))
    ensures var s, s' := Reach(inp, h), Reach(inp, h + [Checked(answer, attempts)]);
            s.phase == Checking(t) && EndsWait(answer) ==>
              if answer.Reported? then WokenBy(s', t, answer.completed.value)
              else s'.phase.Submitting? || s'.phase == Closed(Failed(LostForGood(t)))
  {
    Counters(inp, h);
    var h' := h + [Checked(answer, attempts)];
    ReachStep(inp, h', |h|);
    assert h'[..|h|] == h && h'[..|h| + 1] == h';
  }

  lemma CallbackEndsSleep(inp: ConvertInput, s: Run, event: TaskCompleted)
    requires Inv(inp, s) && s.phase == Sleeping(event.taskId)
    ensures WokenBy(Step(inp, s, Signal(event)), event.taskId, event)
  {}

  /** A run whose verdict on `t` is taken; only a later activity can still fail it. */
  ghost predicate Decided(s: Run, t: TaskId, status: TaskStatus) {
    Concluded(s) == Some((t, status)) ||
    (s.phase.Closed? && s.phase.outcome.Failed? && s.phase.outcome.failure.ActivityGaveUp?)
  }

  lemma StepDecided(inp: ConvertInput, s: Run, e: Event, t: TaskId, status: TaskStatus)
    requires Decided(s, t, status)
    ensures Decided(Step(inp, s, e), t, status)
  {}

  lemma {:induction false} DecidedStays(inp: ConvertInput, s: Run, h: seq<Event>, t: TaskId, status: TaskStatus)
    requires Decided(s, t, status)
    ensures Decided(Apply(inp, s, h), t, status)
    decreases |h|
  {
    if h != [] {
      StepDecided(inp, s, h[0], t, status);
      DecidedStays(inp, Step(inp, s, h[0]), h[1..], t, status);
    }
  }

  /** A signal for the task slept on decides the run: whatever follows, the run takes the
      task to have ended as the signal says, unless fetching or listing fails. */
  lemma CallbackDecides(inp: ConvertInput, before: seq<Event>, event: TaskCompleted, after: seq<Event>)
    requires Reach(inp, before).phase == Sleeping(event.taskId)
    ensures Decided(Reach(inp, before + [Signal(event)] + after), event.taskId, event.taskStatus)
  {
    var s := Reach(inp, before);
    Counters(inp, before);
    CallbackEndsSleep(inp, s, event);
    ApplyConcat(inp, Start(inp), before, [Signal(event)]);
    ApplyConcat(inp, Start(inp), before + [Signal(event)], after);
    var s1 := Step(inp, s, Signal(event));
    assert Apply(inp, s, [Signal(event)]) == Apply(inp, s1, []);
    DecidedStays(inp, s1, after, event.taskId, event.taskStatus);
  }

  lemma MissedSignal(inp: ConvertInput, p: Run, t: TaskId, ok: TaskCompleted)
    requires p.phase == Checking(t) && p.completed == map[] && p.polls == PollLimit(inp) && ok.taskId == t
    ensures var s := Step(inp, Step(inp, p, Signal(ok)), Checked(Reported(None), 1));
            s.completed == map[t := ok] && s.phase == Closed(Failed(BudgetExhausted(t, PollLimit(inp))))
  {
    var heard := Step(inp, p, Signal(ok));
    assert heard.completed == map[t := ok] && heard.phase == Checking(t);
  }

  /** The budget's last poll does miss a callback, whatever the budget: there is a history
      in which a success is recorded while that poll is in flight, and which ends in
      PollBudgetExhausted. */
  lemma LastPollMissesCallback(inp: ConvertInput, t: TaskId) returns (before: seq<Event>, ok: TaskCompleted)
    ensures ok.taskId == t && ok.taskStatus == Success
    ensures Reach(inp, before).phase == Checking(t)
    ensures var s := Reach(inp, before + [Signal(ok), Checked(Reported(None), 1)]);
            s.completed == map[t := ok] && s.phase == Closed(Failed(BudgetExhausted(t, PollLimit(inp))))
  {
    var p;
    ok := TaskCompleted(t, Success, None);
    before, p := LastPoll(inp, Start(inp), t);
    MissedSignal(inp, p, t, ok);
    var h := before + [Signal(ok), Checked(Reported(None), 1)];
    var n := |before|;
    ReachStep(inp, h, n);
    ReachStep(inp, h, n + 1);
    assert h[..n] == before && h[..n + 2] == h;
  }
}
