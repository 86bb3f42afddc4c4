/** Counters, bounds and termination of a run, over every history. */
module RunCounting {
  import opened Models
  import opened ConversionProtocol

  const MAX_CHECK_ATTEMPTS: nat := 3

  /** How many polls one submission can make: a budget below one still allows one. */
  function PollLimit(inp: ConvertInput): nat {
    if inp.maxSafetyPolls > 1 then inp.maxSafetyPolls else 1
  }

  function Submits(cs: seq<Command>): nat {
    if cs == [] then 0 else Submits(cs[..|cs| - 1]) + (if cs[|cs| - 1].Submit? then 1 else 0)
  }

  function Checks(cs: seq<Command>): nat {
    if cs == [] then 0 else Checks(cs[..|cs| - 1]) + (if cs[|cs| - 1].Check? then 1 else 0)
  }

  /** The counters say what was scheduled. */
  ghost predicate Scheduled(s: Run) {
    Submits(s.commands) == s.submissions && Checks(s.commands) == s.safetyPolls
  }

  ghost predicate Shape(inp: ConvertInput, s: Run) {
    var limit := PollLimit(inp);
    && 1 <= s.submissions <= MAX_SUBMISSIONS
    && s.polls <= limit
    && (forall t | t in s.completed :: s.completed[t].taskId == t)
    && (s.phase.Submitting? ==> s.polls == 0)
    && (s.phase.Sleeping? ==> s.polls < limit && s.phase.taskId !in s.completed)
    && (s.phase.Checking? ==> 1 <= s.polls)
    && (s.phase.Closed? && s.phase.outcome.Returned? ==>
          s.phase.outcome.result.submissions == s.submissions &&
          s.phase.outcome.result.safetyPolls == s.safetyPolls)
    && (ClosedByLoss(s) ==> s.submissions == MAX_SUBMISSIONS && s.polls >= 1)
    && (s.phase.Closed? && s.phase.outcome.Failed? && s.phase.outcome.failure.BudgetExhausted? ==>
          s.phase.outcome.failure.polls == s.polls == limit)
  }

  /** Each lost submission took between one poll and the whole budget. */
  ghost predicate Bounds(inp: ConvertInput, s: Run) {
    s.submissions - 1 + s.polls <= s.safetyPolls <= (s.submissions - 1) * PollLimit(inp) + s.polls
  }

  ghost predicate Inv(inp: ConvertInput, s: Run) {
    Shape(inp, s) && Bounds(inp, s)
  }

  predicate ClosedByLoss(s: Run) {
    s.phase.Closed? && s.phase.outcome.Failed? && s.phase.outcome.failure.LostForGood?
  }

  lemma SignalShape(inp: ConvertInput, s: Run, event: TaskCompleted)
    requires Shape(inp, s)
    ensures Shape(inp, OnSignal(s, event))
  {}

  lemma CheckedShape(inp: ConvertInput, s: Run, answer: CheckAnswer)
    requires Shape(inp, s) && s.phase.Checking?
    ensures Shape(inp, OnChecked(inp, s, s.phase.taskId, answer))
  {}

  lemma StepShape(inp: ConvertInput, s: Run, e: Event)
    requires Shape(inp, s)
    ensures Shape(inp, Step(inp, s, e))
  {
    if e.Signal? {
      SignalShape(inp, s, e.event);
    } else if Answers(s.phase, e) && e.Checked? {
      CheckedShape(inp, s, e.answer);
    }
  }

  /** How an event moves the counters. */
  lemma StepCounters(inp: ConvertInput, s: Run, e: Event)
    requires Shape(inp, s)
    ensures var s' := Step(inp, s, e);
            || (s'.submissions == s.submissions && s'.safetyPolls - s'.polls == s.safetyPolls - s.polls)
            || (s'.submissions == s.submissions && s.phase.Submitting? && s'.polls == s.polls == 0 &&
                s'.safetyPolls == s.safetyPolls)
            || (LosesTask(s, e) && s'.submissions == s.submissions + 1 && s'.polls == 0 &&
                s'.safetyPolls == s.safetyPolls)
  {}

  lemma StepInv(inp: ConvertInput, s: Run, e: Event)
    requires Inv(inp, s)
    ensures Inv(inp, Step(inp, s, e))
  {
    StepShape(inp, s, e);
    StepCounters(inp, s, e);
    var limit := PollLimit(inp);
    assert s.submissions * limit == (s.submissions - 1) * limit + limit;
  }

  lemma {:induction false} CountsConcat(a: seq<Command>, b: seq<Command>)
    ensures Submits(a + b) == Submits(a) + Submits(b)
    ensures Checks(a + b) == Checks(a) + Checks(b)
    decreases |b|
  {
    if b == [] {
      assert a + b == a;
    } else {
      assert (a + b)[..|a + b| - 1] == a + b[..|b| - 1];
      CountsConcat(a, b[..|b| - 1]);
    }
  }

  lemma One(c: Command)
    ensures Submits([c]) == (if c.Submit? then 1 else 0) && Checks([c]) == (if c.Check? then 1 else 0)
  {
    assert [c][..0] == [];
  }

  /** What a change of state added to the commands and to the counters. */
  ghost predicate Issues(s: Run, s': Run, issued: seq<Command>) {
    && s'.commands == s.commands + issued
    && (|issued| <= 1 || (s.phase.Sleeping? && issued == [CancelTimer, FetchOutcome(s.phase.taskId)]))
    && s'.submissions == s.submissions + (if |issued| == 1 && issued[0].Submit? then 1 else 0)
    && s'.safetyPolls == s.safetyPolls + (if |issued| == 1 && issued[0].Check? then 1 else 0)
  }

  lemma SignalIssues(s: Run, event: TaskCompleted)
    ensures s.commands <= OnSignal(s, event).commands
    ensures Issues(s, OnSignal(s, event), OnSignal(s, event).commands[|s.commands|..])
  {}

  lemma CheckedIssues(inp: ConvertInput, s: Run, answer: CheckAnswer)
    requires s.phase.Checking?
    ensures var s' := OnChecked(inp, s, s.phase.taskId, answer);
            s.commands <= s'.commands && Issues(s, s', s'.commands[|s.commands|..])
  {}

  /** The commands an event adds. */
  lemma StepIssues(inp: ConvertInput, s: Run, e: Event) returns (issued: seq<Command>)
    ensures Step(inp, s, e).commands == s.commands + issued
    ensures |issued| <= 1 || issued == [CancelTimer, FetchOutcome(s.phase.taskId)]
    ensures Step(inp, s, e).submissions == s.submissions + (if |issued| == 1 && issued[0].Submit? then 1 else 0)
    ensures Step(inp, s, e).safetyPolls == s.safetyPolls + (if |issued| == 1 && issued[0].Check? then 1 else 0)
  {
    if e.Signal? {
      SignalIssues(s, e.event);
    } else if Answers(s.phase, e) && e.Checked? {
      CheckedIssues(inp, s, e.answer);
    }
    issued := Step(inp, s, e).commands[|s.commands|..];
  }

  lemma StepScheduled(inp: ConvertInput, s: Run, e: Event)
    requires Scheduled(s)
    ensures Scheduled(Step(inp, s, e))
  {
    var issued := StepIssues(inp, s, e);
    CountsConcat(s.commands, issued);
    if |issued| == 1 {
      One(issued[0]);
    } else if |issued| == 2 {
      One(issued[0]);
      One(issued[1]);
      CountsConcat([issued[0]], [issued[1]]);
      assert issued == [issued[0]] + [issued[1]];
    }
  }

  lemma {:induction false} ApplyInv(inp: ConvertInput, s: Run, h: seq<Event>)
    requires Inv(inp, s) && Scheduled(s)
    ensures Inv(inp, Apply(inp, s, h)) && Scheduled(Apply(inp, s, h))
    decreases |h|
  {
    if h != [] {
      StepInv(inp, s, h[0]);
      StepScheduled(inp, s, h[0]);
      ApplyInv(inp, Step(inp, s, h[0]), h[1..]);
    }
  }

  /** Main counting result: after any history, at most four submissions, as many
      scheduled submits and polls as the counters say, and
      submissions - 1 <= safetyPolls <= submissions * max(1, maxSafetyPolls). */
  lemma Counters(inp: ConvertInput, h: seq<Event>)
    ensures Inv(inp, Reach(inp, h)) && Scheduled(Reach(inp, h))
    ensures var s := Reach(inp, h);
            && 1 <= s.submissions <= 4
            && Submits(s.commands) == s.submissions
            && Checks(s.commands) == s.safetyPolls
            && s.submissions - 1 <= s.safetyPolls <= s.submissions * PollLimit(inp)
  {
    assert Start(inp).commands[..0] == [];
    ApplyInv(inp, Start(inp), h);
    var s := Reach(inp, h);
    assert s.submissions * PollLimit(inp) == (s.submissions - 1) * PollLimit(inp) + PollLimit(inp);
  }

  /** `e` is the answer of a poll in flight that docling-serve lost the task. */
  predicate LosesTask(s: Run, e: Event) {
    s.phase.Checking? && e.Checked? && e.answer == Raised(Application(TaskLost))
  }

  function LostPolls(inp: ConvertInput, s: Run, h: seq<Event>): nat
    decreases |h|
  {
    if h == [] then 0
    else (if LosesTask(s, h[0]) then 1 else 0) + LostPolls(inp, Step(inp, s, h[0]), h[1..])
  }

  /** An event loses the task exactly when it takes one more submission, or the run's last. */
  lemma StepLoses(inp: ConvertInput, s: Run, e: Event)
    requires Shape(inp, s) && !ClosedByLoss(s)
    ensures var s1 := Step(inp, s, e);
            s1.submissions + (if ClosedByLoss(s1) then 1 else 0) ==
            s.submissions + (if LosesTask(s, e) then 1 else 0)
  {}

  lemma {:induction false} LostPollsFrom(inp: ConvertInput, s: Run, h: seq<Event>)
    requires Inv(inp, s) && !ClosedByLoss(s)
    ensures var s' := Apply(inp, s, h);
            s'.submissions + (if ClosedByLoss(s') then 1 else 0) == s.submissions + LostPolls(inp, s, h)
    decreases |h|
  {
    if h != [] {
      var s1 := Step(inp, s, h[0]);
      StepInv(inp, s, h[0]);
      StepLoses(inp, s, h[0]);
      if ClosedByLoss(s1) {
        ClosedStays(inp, s1, h[1..]);
        NoLossWhenClosed(inp, s1, h[1..]);
      } else {
        LostPollsFrom(inp, s1, h[1..]);
      }
    }
  }

  lemma {:induction false} NoLossWhenClosed(inp: ConvertInput, s: Run, h: seq<Event>)
    requires s.phase.Closed?
    ensures LostPolls(inp, s, h) == 0
    decreases |h|
  {
    if h != [] {
      NoLossWhenClosed(inp, s, h[1..]);
    }
  }

  /** A task is resubmitted exactly when a poll found it lost: each lost poll but a
      fourth one is followed by one more submission, and nothing else is. */
  lemma SubmissionsAreLostPolls(inp: ConvertInput, h: seq<Event>)
    ensures var s := Reach(inp, h);
            LostPolls(inp, Start(inp), h) == s.submissions - 1 + (if ClosedByLoss(s) then 1 else 0)
    ensures var s := Reach(inp, h);
            s.phase.Closed? && s.phase.outcome.Returned? ==>
              s.phase.outcome.result.submissions == 1 + LostPolls(inp, Start(inp), h)
  {
    Counters(inp, []);
    LostPollsFrom(inp, Start(inp), h);
    Counters(inp, h);
  }

  /** Attempts made by the polls whose answers the run took. */
  function Attempts(inp: ConvertInput, s: Run, h: seq<Event>): nat
    decreases |h|
  {
    if h == [] then 0
    else
      (if s.phase.Checking? && h[0].Checked? then h[0].attempts else 0) + Attempts(inp, Step(inp, s, h[0]), h[1..])
  }

  lemma {:induction false} AttemptsFrom(inp: ConvertInput, s: Run, h: seq<Event>)
    requires forall e | e in h :: e.Checked? ==> e.attempts <= MAX_CHECK_ATTEMPTS
    ensures var s' := Apply(inp, s, h);
            Attempts(inp, s, h) + (if s'.phase.Checking? then MAX_CHECK_ATTEMPTS else 0) <=
            MAX_CHECK_ATTEMPTS * (s'.safetyPolls - s.safetyPolls) +
            (if s.phase.Checking? then MAX_CHECK_ATTEMPTS else 0)
    decreases |h|
  {
    if h != [] {
      AttemptsFrom(inp, Step(inp, s, h[0]), h[1..]);
    }
  }

  /** Under CHECK_RETRY's three attempts, the status requests of the answered polls
      number at most three per counted poll. */
  lemma CheckAttempts(inp: ConvertInput, h: seq<Event>)
    requires forall e | e in h :: e.Checked? ==> e.attempts <= MAX_CHECK_ATTEMPTS
    ensures Attempts(inp, Start(inp), h) <= 3 * Reach(inp, h).safetyPolls
  {
    AttemptsFrom(inp, Start(inp), h);
  }

  /** Answers a run still has to get at most: (submissions left, polls left, phase)
      in one number. */
  function Remaining(inp: ConvertInput, s: Run): int {
    var perSubmission := 2 * PollLimit(inp) + 1;
    var later := (MAX_SUBMISSIONS - s.submissions) * perSubmission;
    match s.phase
    case Submitting => later + perSubmission + 2
    case Sleeping(_) => later + 2 * (PollLimit(inp) - s.polls) + 2
    case Checking(_) => later + 2 * (PollLimit(inp) - s.polls) + 3
    case Fetching(_) => 2
    case Collecting(_) => 1
    case Closed(_) => 0
  }

  lemma LaterSubmissions(inp: ConvertInput, s: Run)
    requires s.submissions <= MAX_SUBMISSIONS
    ensures var per := 2 * PollLimit(inp) + 1;
            (MAX_SUBMISSIONS - s.submissions) * per >= 0 &&
            (MAX_SUBMISSIONS - (s.submissions + 1)) * per == (MAX_SUBMISSIONS - s.submissions) * per - per
  {}

  /** How an event moves phase and counters. */
  lemma StepPhase(inp: ConvertInput, s: Run, e: Event)
    ensures var s', p := Step(inp, s, e), Step(inp, s, e).phase;
            if !Answers(s.phase, e) then
              s'.submissions == s.submissions && s'.polls == s.polls &&
              (p == s.phase || (s.phase.Sleeping? && (p.Fetching? || p.Closed?)))
            else match s.phase
              case Submitting =>
                s'.submissions == s.submissions && ((p.Sleeping? && s'.polls == 0) || p.Fetching? || p.Closed?)
              case Sleeping(_) => s'.submissions == s.submissions && p.Checking? && s'.polls == s.polls + 1
              case Checking(_) =>
                (p.Submitting? && s'.submissions == s.submissions + 1) ||
                (s'.submissions == s.submissions && ((p.Sleeping? && s'.polls == s.polls) || p.Fetching? || p.Closed?))
              case Fetching(_) => p.Collecting? || p.Closed?
              case Collecting(_) => p.Closed?
              case Closed(_) => false
  {}

  /** Each answer to the outstanding command lowers the measure; no other event raises it. */
  lemma StepDecreases(inp: ConvertInput, s: Run, e: Event)
    requires Inv(inp, s)
    ensures 0 <= Remaining(inp, Step(inp, s, e)) <= Remaining(inp, s)
    ensures Answers(s.phase, e) ==> Remaining(inp, Step(inp, s, e)) < Remaining(inp, s)
  {
    StepInv(inp, s, e);
    StepPhase(inp, s, e);
    LaterSubmissions(inp, s);
    LaterSubmissions(inp, Step(inp, s, e));
  }

  function AnswersTaken(inp: ConvertInput, s: Run, h: seq<Event>): nat
    decreases |h|
  {
    if h == [] then 0
    else (if Answers(s.phase, h[0]) then 1 else 0) + AnswersTaken(inp, Step(inp, s, h[0]), h[1..])
  }

  lemma {:induction false} AnswersBounded(inp: ConvertInput, s: Run, h: seq<Event>)
    requires Inv(inp, s)
    ensures AnswersTaken(inp, s, h) + Remaining(inp, Apply(inp, s, h)) <= Remaining(inp, s)
    ensures Remaining(inp, Apply(inp, s, h)) >= 0
    decreases |h|
  {
    StepDecreases(inp, s, TimerFired);
    if h != [] {
      StepDecreases(inp, s, h[0]);
      StepInv(inp, s, h[0]);
      AnswersBounded(inp, Step(inp, s, h[0]), h[1..]);
    }
  }

  function AnswerBound(inp: ConvertInput): nat {
    4 * (2 * PollLimit(inp) + 1) + 2
  }

  lemma StartRemaining(inp: ConvertInput)
    ensures Remaining(inp, Start(inp)) == AnswerBound(inp)
  {
    assert MAX_SUBMISSIONS - Start(inp).submissions == 3;
  }

  lemma OpenRemaining(inp: ConvertInput, s: Run)
    requires Shape(inp, s)
    ensures Remaining(inp, s) >= if s.phase.Closed? then 0 else 1
  {
    LaterSubmissions(inp, s);
  }

  /** Termination: no run takes more answers than the bound, and one that has taken
      that many is closed, whatever signals come in between. */
  lemma EveryAnsweredRunCloses(inp: ConvertInput, h: seq<Event>)
    ensures AnswersTaken(inp, Start(inp), h) <= AnswerBound(inp)
    ensures AnswersTaken(inp, Start(inp), h) == AnswerBound(inp) ==> Reach(inp, h).phase.Closed?
  {
    Counters(inp, []);
    AnswersBounded(inp, Start(inp), h);
    Counters(inp, h);
    StartRemaining(inp);
    OpenRemaining(inp, Reach(inp, h));
  }

  /** `n` rounds of a sleep that runs out and a poll that finds the task in progress. */
  function IdleRounds(n: nat): seq<Event> {
    if n == 0 then [] else [TimerFired, Checked(Reported(None), 1)] + IdleRounds(n - 1)
  }

  /** A submission whose last poll in the budget ends with `answer`. */
  function LastMinute(inp: ConvertInput, t: TaskId, answer: CheckAnswer): seq<Event> {
    [Submitted(t)] + IdleRounds(PollLimit(inp) - 1) + [TimerFired, Checked(answer, 1)]
  }

  lemma {:induction false} IdleRoundsKeepSleeping(inp: ConvertInput, s: Run, n: nat)
    requires s.phase.Sleeping? && s.completed == map[] && s.polls + n < PollLimit(inp)
    ensures var s' := Apply(inp, s, IdleRounds(n));
            s'.phase == s.phase && s'.completed == map[] && s'.polls == s.polls + n && s'.submissions == s.submissions
    ensures AnswersTaken(inp, s, IdleRounds(n)) == 2 * n
    decreases n
  {
    if n > 0 {
      var h := IdleRounds(n);
      assert h[1..][0] == Checked(Reported(None), 1) && h[1..][1..] == IdleRounds(n - 1);
      var s1 := Step(inp, s, h[0]);
      IdleRoundsKeepSleeping(inp, Step(inp, s1, h[1]), n - 1);
      assert Apply(inp, s1, h[1..]) == Apply(inp, Step(inp, s1, h[1]), IdleRounds(n - 1));
    }
  }

  lemma {:induction false} AnswersConcat(inp: ConvertInput, s: Run, a: seq<Event>, b: seq<Event>)
    ensures AnswersTaken(inp, s, a + b) == AnswersTaken(inp, s, a) + AnswersTaken(inp, Apply(inp, s, a), b)
    decreases |a|
  {
    if a == [] {
      assert a + b == b;
    } else {
      assert (a + b)[1..] == a[1..] + b;
      AnswersConcat(inp, Step(inp, s, a[0]), a[1..], b);
    }
  }

  /** From `s`, history `h` leads to `s'` and gives the run `n` answers. */
  ghost predicate Takes(inp: ConvertInput, s: Run, h: seq<Event>, n: nat, s': Run) {
    Apply(inp, s, h) == s' && AnswersTaken(inp, s, h) == n
  }

  lemma TakesOne(inp: ConvertInput, s: Run, e: Event)
    requires Answers(s.phase, e)
    ensures Takes(inp, s, [e], 1, Step(inp, s, e))
  {
    assert [e][1..] == [];
    assert Apply(inp, s, [e]) == Apply(inp, Step(inp, s, e), []);
    assert AnswersTaken(inp, s, [e]) == 1 + AnswersTaken(inp, Step(inp, s, e), []);
  }

  lemma TakesBoth(inp: ConvertInput, s: Run, a: seq<Event>, m: nat, s1: Run, b: seq<Event>, n: nat, s2: Run)
    requires Takes(inp, s, a, m, s1) && Takes(inp, s1, b, n, s2)
    ensures Takes(inp, s, a + b, m + n, s2)
  {
    ApplyConcat(inp, s, a, b);
    AnswersConcat(inp, s, a, b);
  }

  /** The ids the submits of a history returned, in order. */
  function Ids(h: seq<Event>): seq<TaskId>
    decreases |h|
  {
    if h == [] then [] else (if h[0].Submitted? then [h[0].taskId] else []) + Ids(h[1..])
  }

  lemma {:induction false} IdsConcat(a: seq<Event>, b: seq<Event>)
    ensures Ids(a + b) == Ids(a) + Ids(b)
    decreases |a|
  {
    if a == [] {
      assert a + b == b;
    } else {
      assert (a + b)[1..] == a[1..] + b;
      IdsConcat(a[1..], b);
    }
  }

  lemma {:induction false} IdleRoundsSubmitNothing(n: nat)
    ensures Ids(IdleRounds(n)) == []
  {
    if n > 0 {
      var h := IdleRounds(n);
      assert h[1..][0] == Checked(Reported(None), 1) && h[1..][1..] == IdleRounds(n - 1);
      IdleRoundsSubmitNothing(n - 1);
    }
  }

  lemma LastMinuteIds(inp: ConvertInput, t: TaskId, answer: CheckAnswer)
    ensures Ids(LastMinute(inp, t, answer)) == [t]
  {
    var idle, last := IdleRounds(PollLimit(inp) - 1), [TimerFired, Checked(answer, 1)];
    IdleRoundsSubmitNothing(PollLimit(inp) - 1);
    IdsConcat([Submitted(t)] + idle, last);
    IdsConcat([Submitted(t)], idle);
    assert [Submitted(t)][1..] == [] && last[1..] == [Checked(answer, 1)] && last[1..][1..] == [];
  }

  /** A submission up to its last poll in the budget. */
  lemma LastPoll(inp: ConvertInput, s: Run, t: TaskId) returns (h: seq<Event>, p: Run)
    requires s.phase.Submitting? && s.completed == map[]
    ensures h == [Submitted(t)] + IdleRounds(PollLimit(inp) - 1) + [TimerFired]
    ensures p.phase == Checking(t) && p.completed == map[] && p.submissions == s.submissions
    ensures p.polls == PollLimit(inp)
    ensures Takes(inp, s, h, 2 * PollLimit(inp), p)
  {
    var idle, n := IdleRounds(PollLimit(inp) - 1), PollLimit(inp) - 1;
    TakesOne(inp, s, Submitted(t));
    var s1 := Step(inp, s, Submitted(t));
    IdleRoundsKeepSleeping(inp, s1, n);
    var s2 := Apply(inp, s1, idle);
    TakesBoth(inp, s, [Submitted(t)], 1, s1, idle, 2 * n, s2);
    TakesOne(inp, s2, TimerFired);
    p := Step(inp, s2, TimerFired);
    TakesBoth(inp, s, [Submitted(t)] + idle, 1 + 2 * n, s2, [TimerFired], 1, p);
    h := [Submitted(t)] + idle + [TimerFired];
  }

  lemma LastMinuteEffect(inp: ConvertInput, s: Run, t: TaskId, answer: CheckAnswer) returns (p: Run)
    requires s.phase.Submitting? && s.completed == map[]
    ensures p.phase == Checking(t) && p.completed == map[] && p.submissions == s.submissions
    ensures Takes(inp, s, LastMinute(inp, t, answer), 2 * PollLimit(inp) + 1, OnChecked(inp, p, t, answer))
  {
    var h;
    h, p := LastPoll(inp, s, t);
    TakesOne(inp, p, Checked(answer, 1));
    TakesBoth(inp, s, h, 2 * PollLimit(inp), p, [Checked(answer, 1)], 1, OnChecked(inp, p, t, answer));
    assert LastMinute(inp, t, answer) == h + [Checked(answer, 1)];
  }

  /** One more task lost at its last poll, while a resubmit is left. */
  lemma LoseOne(inp: ConvertInput, s: Run, t: TaskId) returns (h: seq<Event>, s': Run)
    requires s.phase.Submitting? && s.completed == map[] && s.submissions < MAX_SUBMISSIONS
    ensures s'.phase.Submitting? && s'.completed == map[] && s'.submissions == s.submissions + 1
    ensures Takes(inp, s, h, 2 * PollLimit(inp) + 1, s') && Ids(h) == [t]
  {
    var lost := Raised(Application(TaskLost));
    var p := LastMinuteEffect(inp, s, t, lost);
    LastMinuteIds(inp, t, lost);
    h, s' := LastMinute(inp, t, lost), OnChecked(inp, p, t, lost);
  }

  /** A task found finished at its last poll, and its two remaining answers. */
  lemma FinishLate(inp: ConvertInput, s: Run, t: TaskId) returns (h: seq<Event>, s': Run)
    requires s.phase.Submitting? && s.completed == map[]
    ensures s'.phase.Closed? && s'.phase.outcome.Returned?
    ensures Takes(inp, s, h, 2 * PollLimit(inp) + 3, s') && Ids(h) == [t]
  {
    var ok := Reported(Some(TaskCompleted(t, Success, None)));
    var counts := OutcomeFetched(TaskOutcome(t, None, None, None));
    var listed := OutputsCollected(CollectedOutputs("", map[REQUIRED_FORMAT := ["a.json"]]));
    var last := LastMinute(inp, t, ok);
    var p := LastMinuteEffect(inp, s, t, ok);
    var s1 := OnChecked(inp, p, t, ok);
    var s2 := Step(inp, s1, counts);
    s' := Step(inp, s2, listed);
    TakesOne(inp, s1, counts);
    TakesOne(inp, s2, listed);
    TakesBoth(inp, s, last, 2 * PollLimit(inp) + 1, s1, [counts], 1, s2);
    TakesBoth(inp, s, last + [counts], 2 * PollLimit(inp) + 2, s2, [listed], 1, s');
    h := last + [counts] + [listed];
    LastMinuteIds(inp, t, ok);
    IdsConcat(last, [counts]);
    IdsConcat(last + [counts], [listed]);
    assert [counts][1..] == [] && [listed][1..] == [];
  }

  /** The bound is exact, ids being fresh: three tasks lost at their last poll, then one
      whose result is returned. */
  lemma AnswerBoundReached(inp: ConvertInput)
    ensures exists h ::
              && AnswersTaken(inp, Start(inp), h) == AnswerBound(inp)
              && Ids(h) == ["t1", "t2", "t3", "t4"]
              && Reach(inp, h).phase.Closed? && Reach(inp, h).phase.outcome.Returned?
  {
    var per, s0 := 2 * PollLimit(inp) + 1, Start(inp);
    var h1, s1 := LoseOne(inp, s0, "t1");
    var h2, s2 := LoseOne(inp, s1, "t2");
    var h3, s3 := LoseOne(inp, s2, "t3");
    var h4, s4 := FinishLate(inp, s3, "t4");
    TakesBoth(inp, s0, h1, per, s1, h2, per, s2);
    TakesBoth(inp, s0, h1 + h2, 2 * per, s2, h3, per, s3);
    TakesBoth(inp, s0, h1 + h2 + h3, 3 * per, s3, h4, per + 2, s4);
    IdsConcat(h1, h2);
    IdsConcat(h1 + h2, h3);
    IdsConcat(h1 + h2 + h3, h4);
    assert Takes(inp, s0, h1 + h2 + h3 + h4, 4 * per + 2, s4);
  }
}
