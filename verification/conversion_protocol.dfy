/** The conversion protocol of one workflow run, as a state machine over the events
    of its durable history (src/orchestration/workflows.py). */
module ConversionProtocol {
  import opened Models
  import OrderedKeys

  /** What the history records: signals from the callback relay, and the answers to
      the run's own commands. */
  datatype Event =
    | Signal(event: TaskCompleted)
    | Submitted(taskId: TaskId)
    | TimerFired
    | Checked(answer: CheckAnswer, attempts: nat)
    | OutcomeFetched(outcome: TaskOutcome)
    | OutputsCollected(collected: CollectedOutputs)
    | ActivityFailed(error: ActivityError)

  /** How a check_task activity ended: what it reported (None: still queued or
      running), or the error it raised in the end. */
  datatype CheckAnswer = Reported(completed: Option<TaskCompleted>) | Raised(error: ActivityError)

  datatype Command =
    | Submit(input: SubmitConversionInput)
    | StartTimer(draw: nat)  // sleeps for the draw-th number of the run's seeded generator
    | CancelTimer
    | Check(taskId: TaskId)
    | FetchOutcome(taskId: TaskId)
    | CollectOutputs(bucket: string, key: string)

  datatype RunFailure =
    | ActivityGaveUp(error: ActivityError)
    | LostForGood(taskId: TaskId)
    | BudgetExhausted(taskId: TaskId, polls: nat)
    | TaskFailed(taskId: TaskId, errorMessage: Option<string>)
    | NothingConverted(taskId: TaskId, outcome: TaskOutcome)
    | NoRequiredOutput(taskId: TaskId, found: set<string>)

  datatype Outcome = Returned(result: ConvertResult) | Failed(failure: RunFailure)

  /** The one command the run is waiting on; Sleeping waits on a signal as well. */
  datatype Phase =
    | Submitting
    | Sleeping(taskId: TaskId)
    | Checking(taskId: TaskId)
    | Fetching(taskId: TaskId)
    | Collecting(taskId: TaskId)
    | Closed(outcome: Outcome)

  /** `polls` counts the safety polls of the current submission, `draws` the numbers
      taken from the run's generator, `commands` everything scheduled so far. */
  datatype Run = Run(
    completed: map<TaskId, TaskCompleted>,
    safetyPolls: nat,
    submissions: nat,
    polls: nat,
    draws: nat,
    phase: Phase,
    commands: seq<Command>)

  function IsTaskLost(error: ActivityError): bool {
    error == Application(TaskLost)
  }

  function ToFormats(inp: ConvertInput): seq<string> {
    OrderedKeys.FromKeys([REQUIRED_FORMAT] + inp.toFormats)
  }

  function SubmitInput(inp: ConvertInput): SubmitConversionInput {
    SubmitConversionInput(inp.bucket, inp.key, inp.options["to_formats" := Array(ToFormats(inp))])
  }

  /** The formats asked of docling: the required one first, then the caller's in their
      order, each once;
      every other option goes through untouched. */
  lemma SubmittedOptions(inp: ConvertInput)
    ensures var o := SubmitInput(inp).options;
            && "to_formats" in o && o["to_formats"].Array?
            && o["to_formats"].items != [] && o["to_formats"].items[0] == REQUIRED_FORMAT
            && OrderedKeys.Distinct(o["to_formats"].items)
            && o["to_formats"].items[1..] == OrderedKeys.Without(OrderedKeys.FromKeys(inp.toFormats), REQUIRED_FORMAT)
            && (forall f :: f in o["to_formats"].items <==> f == REQUIRED_FORMAT || f in inp.toFormats)
            && (forall k | k != "to_formats" ::
                  (k in o <==> k in inp.options) && (k in o ==> o[k] == inp.options[k]))
  {
    var asked := [REQUIRED_FORMAT] + inp.toFormats;
    OrderedKeys.FromKeysKeepsAll(asked);
    OrderedKeys.FromKeysPutFirst(REQUIRED_FORMAT, inp.toFormats);
  }

  function SetDefault(completed: map<TaskId, TaskCompleted>, event: TaskCompleted): map<TaskId, TaskCompleted> {
    if event.taskId in completed then completed else completed[event.taskId := event]
  }

  /** The counts say that the task converted nothing. */
  predicate ProducedNothing(o: TaskOutcome) {
    o.numSucceeded.Some? &&
    o.numSucceeded.value + (if o.numPartiallySucceeded.Some? then o.numPartiallySucceeded.value else 0) == 0
  }

  function Start(inp: ConvertInput): Run {
    Run(map[], 0, 1, 0, 0, Submitting, [Submit(SubmitInput(inp))])
  }

  /** `e` answers the command that a run in phase `p` is waiting on. */
  predicate Answers(p: Phase, e: Event) {
    match p
    case Submitting => e.Submitted? || e.ActivityFailed?
    case Sleeping(_) => e.TimerFired?
    case Checking(_) => e.Checked?
    case Fetching(_) => e.OutcomeFetched? || e.ActivityFailed?
    case Collecting(_) => e.OutputsCollected? || e.ActivityFailed?
    case Closed(_) => false
  }

  /** The wait for `t` ended with `completed`. */
  function Conclude(s: Run, t: TaskId, completed: TaskCompleted): Run {
    if completed.taskStatus == Failure then
      s.(phase := Closed(Failed(TaskFailed(t, completed.errorMessage))))
    else
      s.(phase := Fetching(t), commands := s.commands + [FetchOutcome(t)])
  }

  /** The top of the wait loop for `t`: a sleep is drawn in any case, but a timer is
      started only if the callback has not arrived yet. */
  function Await(s: Run, t: TaskId): Run {
    var s' := s.(draws := s.draws + 1);
    if t in s.completed then Conclude(s', t, s.completed[t])
    else s'.(phase := Sleeping(t), commands := s'.commands + [StartTimer(s.draws)])
  }

  /** A poll found that docling-serve no longer knows the task. */
  function Lose(inp: ConvertInput, s: Run, t: TaskId): Run {
    if s.submissions >= MAX_SUBMISSIONS then s.(phase := Closed(Failed(LostForGood(t))))
    else
      s.(submissions := s.submissions + 1, polls := 0, phase := Submitting,
         commands := s.commands + [Submit(SubmitInput(inp))])
  }

  /** A poll that ended nothing: give up when the budget is spent, else sleep again. */
  function Retry(inp: ConvertInput, s: Run, t: TaskId): Run {
    if s.polls >= inp.maxSafetyPolls then s.(phase := Closed(Failed(BudgetExhausted(t, s.polls))))
    else Await(s, t)
  }

  function OnSignal(s: Run, event: TaskCompleted): Run {
    if s.phase.Closed? then s
    else
      var s' := s.(completed := SetDefault(s.completed, event));
      if s.phase.Sleeping? && s.phase.taskId in s'.completed then
        Conclude(s'.(commands := s'.commands + [CancelTimer]), s.phase.taskId, s'.completed[s.phase.taskId])
      else s'
  }

  function OnChecked(inp: ConvertInput, s: Run, t: TaskId, answer: CheckAnswer): Run {
    match answer
    case Reported(Some(completed)) => Conclude(s, t, completed)
    case Reported(None) => Retry(inp, s, t)
    case Raised(error) => if IsTaskLost(error) then Lose(inp, s, t) else Retry(inp, s, t)
  }

  function OnCollected(s: Run, t: TaskId, c: CollectedOutputs): Outcome {
    if REQUIRED_FORMAT !in c.outputs then Failed(NoRequiredOutput(t, c.outputs.Keys))
    else Returned(ConvertResult(t, c.outputs, c.bucket, s.submissions, s.safetyPolls))
  }

  /** One recorded event. A closed run no longer reacts, and an answer to a command
      that is not outstanding resolves nothing. */
  function Step(inp: ConvertInput, s: Run, e: Event): Run {
    if e.Signal? then OnSignal(s, e.event)
    else if !Answers(s.phase, e) then s
    else
      match e
      case Submitted(t) => Await(s.(polls := 0), t)
      case TimerFired =>
        var t := s.phase.taskId;
        s.(polls := s.polls + 1, safetyPolls := s.safetyPolls + 1, phase := Checking(t),
           commands := s.commands + [Check(t)])
      case Checked(answer, _) => OnChecked(inp, s, s.phase.taskId, answer)
      case OutcomeFetched(o) =>
        var t := s.phase.taskId;
        if ProducedNothing(o) then s.(phase := Closed(Failed(NothingConverted(t, o))))
        else s.(phase := Collecting(t), commands := s.commands + [CollectOutputs(inp.bucket, inp.key)])
      case OutputsCollected(c) => s.(phase := Closed(OnCollected(s, s.phase.taskId, c)))
      case ActivityFailed(error) => s.(phase := Closed(Failed(ActivityGaveUp(error))))
  }

  function Apply(inp: ConvertInput, s: Run, h: seq<Event>): Run
    decreases |h|
  {
    if h == [] then s else Apply(inp, Step(inp, s, h[0]), h[1..])
  }

  /** The state of a run after history `h`. */
  function Reach(inp: ConvertInput, h: seq<Event>): Run {
    Apply(inp, Start(inp), h)
  }

  lemma {:induction false} ApplyConcat(inp: ConvertInput, s: Run, a: seq<Event>, b: seq<Event>)
    ensures Apply(inp, s, a + b) == Apply(inp, Apply(inp, s, a), b)
    decreases |a|
  {
    if a == [] {
      assert a + b == b;
    } else {
      assert (a + b)[1..] == a[1..] + b;
      ApplyConcat(inp, Step(inp, s, a[0]), a[1..], b);
    }
  }

  lemma ReachStep(inp: ConvertInput, h: seq<Event>, i: nat)
    requires i < |h|
    ensures Reach(inp, h[..i + 1]) == Step(inp, Reach(inp, h[..i]), h[i])
  {
    assert h[..i + 1] == h[..i] + [h[i]];
    ApplyConcat(inp, Start(inp), h[..i], [h[i]]);
    assert Apply(inp, Reach(inp, h[..i]), [h[i]]) == Apply(inp, Step(inp, Reach(inp, h[..i]), h[i]), []);
  }

  lemma {:induction false} ClosedStays(inp: ConvertInput, s: Run, h: seq<Event>)
    requires s.phase.Closed?
    ensures Apply(inp, s, h) == s
    decreases |h|
  {
    if h != [] {
      ClosedStays(inp, s, h[1..]);
    }
  }
}
