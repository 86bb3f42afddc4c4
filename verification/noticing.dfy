/** How soon a finished task is noticed: with or without its callback, by the callback, by a
    poll, or not before the budget is spent. */
module Noticing {
  import opened Models
  import opened ConversionProtocol
  import opened RunCounting
  import opened RunVerdicts
  import opened TimedRuns
  import Activities

  /** When a task finished, and how long a poll can take at most. */
  datatype Finish = Finish(taskId: TaskId, at: real, longestPoll: real)

  /** The event comes in time for docling to be noticed: no timer fires late, no poll takes
      longer than it may, and one begun at or after the task's end reports that end. */
  predicate Prompt(inp: ConvertInput, draw: nat -> real, f: Finish, c: Clock, e: Timed) {
    && (c.run.phase.Sleeping? ==> e.at <= c.since + Sleep(inp, draw, LastDraw(c.run)))
    && (c.run.phase.Checking? ==> e.at <= c.since + f.longestPoll)
    && (c.run.phase == Checking(f.taskId) && c.since >= f.at && e.event.Checked? ==>
          e.event.answer.Reported? && e.event.answer.completed.Some?)
  }

  predicate AllPrompt(inp: ConvertInput, draw: nat -> real, f: Finish, c: Clock, h: seq<Timed>)
    decreases |h|
  {
    h == [] ||
    (Possible(inp, draw, c, h[0]) && Prompt(inp, draw, f, c, h[0]) &&
     AllPrompt(inp, draw, f, Tick(inp, draw, c, h[0]), h[1..]))
  }

  /** Still waiting, in submission `n`. */
  predicate Waits(c: Clock, n: nat) {
    c.run.submissions == n && (c.run.phase.Sleeping? || c.run.phase.Checking?)
  }

  /** The run is past its wait for the task: it has taken its end, or failed later on. */
  predicate IsPast(s: Run, t: TaskId) {
    (Concluded(s).Some? && Concluded(s).value.0 == t) ||
    (s.phase.Closed? && s.phase.outcome.Failed? && s.phase.outcome.failure.ActivityGaveUp?)
  }

  /** In one submission the phases follow one another as the wait and the verdict do. */
  lemma StepNotices(inp: ConvertInput, s: Run, e: Event, t: TaskId)
    requires s.phase.Sleeping? || s.phase.Checking?
    requires s.phase.taskId == t
    ensures var s', p := Step(inp, s, e), Step(inp, s, e).phase;
            if !Answers(s.phase, e) then
              s'.submissions == s.submissions && s'.draws == s.draws &&
              (p == s.phase || (Concluded(s').Some? && Concluded(s').value.0 == t))
            else if s.phase.Sleeping? then s'.submissions == s.submissions && p == Checking(t)
            else if e.answer.Reported? && e.answer.completed.Some? then
              s'.submissions == s.submissions && Concluded(s').Some? && Concluded(s').value.0 == t
            else if s'.submissions == s.submissions then
              (p == Sleeping(t) && s'.draws == s.draws + 1) ||
              (Concluded(s').Some? && Concluded(s').value.0 == t) ||
              (p.Closed? && p.outcome.Failed? && (p.outcome.failure.BudgetExhausted? || p.outcome.failure.LostForGood?))
            else s'.submissions == s.submissions + 1 && p == Submitting
  {}

  /** After the wait, or in a later submission, nothing returns to the wait. */
  lemma StepStaysDone(inp: ConvertInput, s: Run, e: Event)
    ensures Step(inp, s, e).submissions >= s.submissions
    ensures var p := Step(inp, s, e).phase;
            s.phase.Fetching? || s.phase.Collecting? || s.phase.Closed? ==>
              Step(inp, s, e).submissions == s.submissions &&
              (Concluded(Step(inp, s, e)) == Concluded(s) ||
               (p.Closed? && p.outcome.Failed? && p.outcome.failure.ActivityGaveUp?))
  {}

  // A run asleep at the task's end, or whose wait begins after it.

  /** Where such a run can be, its sleep having begun at `since`, in submission `n`. */
  ghost predicate Undelayed(inp: ConvertInput, f: Finish, n: nat, since: real, c: Clock) {
    c.run.submissions == n &&
    match c.run.phase
    case Sleeping(t) => t == f.taskId && c.since == since <= c.now <= since + Longest(inp)
    case Checking(t) =>
      t == f.taskId && f.at <= c.since <= since + Longest(inp) && c.since <= c.now <= c.since + f.longestPoll
    case _ => IsPast(c.run, f.taskId)
  }

  lemma TickUndelayed(inp: ConvertInput, draw: nat -> real, f: Finish, n: nat, since: real, c: Clock, e: Timed)
    requires Jitter(draw) && f.longestPoll >= 0.0 && e.at >= f.at
    requires Undelayed(inp, f, n, since, c) && Possible(inp, draw, c, e) && Prompt(inp, draw, f, c, e)
    ensures Undelayed(inp, f, n, since, Tick(inp, draw, c, e))
  {
    StepStaysDone(inp, c.run, e.event);
    if c.run.phase.Sleeping? || c.run.phase.Checking? {
      StepNotices(inp, c.run, e.event, f.taskId);
      SleepBounds(inp, draw, LastDraw(c.run));
    }
  }

  lemma {:induction false} ElapseUndelayed(
    inp: ConvertInput, draw: nat -> real, f: Finish, n: nat, since: real, c: Clock, h: seq<Timed>)
    requires Jitter(draw) && f.longestPoll >= 0.0
    requires Undelayed(inp, f, n, since, c) && AllPrompt(inp, draw, f, c, h)
    requires h != [] ==> h[0].at >= f.at
    ensures Undelayed(inp, f, n, since, Elapse(inp, draw, c, h))
    decreases |h|
  {
    if h != [] {
      TickUndelayed(inp, draw, f, n, since, c, h[0]);
      ElapseUndelayed(inp, draw, f, n, since, Tick(inp, draw, c, h[0]), h[1..]);
    }
  }

  /** Asleep at the task's end, or going to sleep after it, the run is never still waiting
      later than 1.2 * I plus one poll after that sleep began, and so after the task's end
      if the sleep began before it. It never gives the task up, nor takes it for lost: its
      budget was not spent, and the next poll reports the end. */
  lemma AsleepAtEndIsNoticed(
    inp: ConvertInput, draw: nat -> real, f: Finish, before: seq<Timed>, after: seq<Timed>)
    requires Jitter(draw) && f.longestPoll >= 0.0 && AllPossible(inp, draw, Begin(inp), before)
    requires var c := Elapse(inp, draw, Begin(inp), before);
             c.run.phase == Sleeping(f.taskId) && c.now <= c.since + Longest(inp) && AllPrompt(inp, draw, f, c, after)
    requires after != [] ==> after[0].at >= f.at
    ensures var c, c' := Elapse(inp, draw, Begin(inp), before), Elapse(inp, draw, Begin(inp), before + after);
            && c'.run.submissions == c.run.submissions
            && (Waits(c', c.run.submissions) || IsPast(c'.run, f.taskId))
            && (Waits(c', c.run.submissions) ==> c'.now <= c.since + Longest(inp) + f.longestPoll)
            && (Waits(c', c.run.submissions) && c.since <= f.at ==> c'.now <= f.at + Longest(inp) + f.longestPoll)
  {
    var c := Elapse(inp, draw, Begin(inp), before);
    ElapseInv(inp, draw, Begin(inp), before);
    ElapseConcat(inp, draw, Begin(inp), before, after);
    ElapseUndelayed(inp, draw, f, c.run.submissions, c.since, c, after);
  }

  // Any run.

  /** The latest start of a sleep in a wait for the task that began at `began`: a poll in
      flight at the task's end may miss it and be followed by one more sleep. */
  function LatestSleep(f: Finish, began: real): real {
    if began >= f.at then began else f.at + f.longestPoll
  }

  /** Where the run, `began` being the start of its wait for the task, can still be in its
      submission `n`: waiting, but not too long after the task's end; past the wait; or
      given up on the task by a poll that began before the task's end. */
  ghost predicate Noticed(inp: ConvertInput, f: Finish, n: nat, began: real, c: Clock) {
    && Inv(inp, c.run)
    && c.run.submissions >= n
    && (c.run.submissions == n ==>
          match c.run.phase
          case Submitting => false
          case Sleeping(t) =>
            && t == f.taskId && began <= c.since <= LatestSleep(f, began)
            && c.since <= c.now <= c.since + Longest(inp)
            && (c.run.polls == 0 ==> c.since == began)
          case Checking(t) =>
            && t == f.taskId && began <= c.since <= LatestSleep(f, began) + Longest(inp)
            && c.since <= c.now <= c.since + f.longestPoll
            && (c.run.polls <= 1 ==> c.since <= began + Longest(inp))
          case Closed(Failed(BudgetExhausted(_, _))) => began < f.at && c.since <= f.at + f.longestPoll
          case Closed(Failed(LostForGood(_))) => began < f.at && c.since <= f.at + f.longestPoll
          case _ => IsPast(c.run, f.taskId))
  }

  lemma TickNoticed(inp: ConvertInput, draw: nat -> real, f: Finish, n: nat, began: real, c: Clock, e: Timed)
    requires Jitter(draw) && f.longestPoll >= 0.0
    requires Noticed(inp, f, n, began, c) && Possible(inp, draw, c, e) && Prompt(inp, draw, f, c, e)
    ensures Noticed(inp, f, n, began, Tick(inp, draw, c, e))
  {
    StepInv(inp, c.run, e.event);
    StepStaysDone(inp, c.run, e.event);
    if Waits(c, n) {
      StepNotices(inp, c.run, e.event, f.taskId);
      SleepBounds(inp, draw, LastDraw(c.run));
    } else if c.run.phase.Closed? {
      assert Step(inp, c.run, e.event) == c.run;
    }
  }

  lemma {:induction false} ElapseNoticed(
    inp: ConvertInput, draw: nat -> real, f: Finish, n: nat, began: real, c: Clock, h: seq<Timed>)
    requires Jitter(draw) && f.longestPoll >= 0.0
    requires Noticed(inp, f, n, began, c) && AllPrompt(inp, draw, f, c, h)
    ensures Noticed(inp, f, n, began, Elapse(inp, draw, c, h))
    decreases |h|
  {
    if h != [] {
      TickNoticed(inp, draw, f, n, began, c, h[0]);
      ElapseNoticed(inp, draw, f, n, began, Tick(inp, draw, c, h[0]), h[1..]);
    }
  }

  /** A run up to the wait for the task, the submit that returned it, and what came after. */
  datatype Wait = Wait(before: seq<Timed>, submitted: real, after: seq<Timed>)

  function Submission(f: Finish, w: Wait): Timed {
    Timed(Submitted(f.taskId), w.submitted)
  }

  /** The run before the submit's answer. */
  function Earlier(inp: ConvertInput, draw: nat -> real, w: Wait): Clock {
    Elapse(inp, draw, Begin(inp), w.before)
  }

  /** The run in the end. */
  function Later(inp: ConvertInput, draw: nat -> real, f: Finish, w: Wait): Clock {
    Elapse(inp, draw, Begin(inp), w.before + [Submission(f, w)] + w.after)
  }

  /** The run gets the task at `w.submitted`, and from then on all comes in time. */
  ghost predicate Awaited(inp: ConvertInput, draw: nat -> real, f: Finish, w: Wait) {
    var c0 := Earlier(inp, draw, w);
    && Jitter(draw) && f.longestPoll >= 0.0
    && AllPossible(inp, draw, Begin(inp), w.before)
    && c0.run.phase.Submitting? && Possible(inp, draw, c0, Submission(f, w))
    && AllPrompt(inp, draw, f, Tick(inp, draw, c0, Submission(f, w)), w.after)
  }

  /** A finished task is noticed, over whole runs. From the submit that returned the task
      on, let timers fire on time, polls take at most P, and polls begun at or after the
      task's end report it. Then, in that submission, the run is never still waiting later
      than 1.2 * I + P after its wait began, or, if it began before the task's end, after
      that end plus P (a poll in flight may miss it); and it gives the task up only by a
      poll begun before the end, so while budget remains it is noticed. */
  lemma FinishedTaskIsNoticed(inp: ConvertInput, draw: nat -> real, f: Finish, w: Wait)
    requires Awaited(inp, draw, f, w)
    ensures var n, c := Earlier(inp, draw, w).run.submissions, Later(inp, draw, f, w);
            && Noticed(inp, f, n, w.submitted, c)
            && (Waits(c, n) ==> c.now <= LatestSleep(f, w.submitted) + Longest(inp) + f.longestPoll)
            && (c.run.submissions == n && GaveUp(c.run) ==> w.submitted < f.at && c.since <= f.at + f.longestPoll)
  {
    var c0, first := Earlier(inp, draw, w), Submission(f, w);
    var c1 := Tick(inp, draw, c0, first);
    ElapseInv(inp, draw, Begin(inp), w.before);
    ElapseConcat(inp, draw, Begin(inp), w.before, [first]);
    ElapseConcat(inp, draw, Begin(inp), w.before + [first], w.after);
    assert [first][1..] == [] && Elapse(inp, draw, c0, [first]) == Elapse(inp, draw, c1, []);
    StepInv(inp, c0.run, first.event);
    assert Noticed(inp, f, c0.run.submissions, w.submitted, c1);
    ElapseNoticed(inp, draw, f, c0.run.submissions, w.submitted, c1, w.after);
  }

  /** Every task that ends during its wait is noticed within `seconds` of its end. */
  ghost predicate NoticedWithin(inp: ConvertInput, longestPoll: real, seconds: real) {
    forall draw: nat -> real, f: Finish, w: Wait ::
      Awaited(inp, draw, f, w) && f.longestPoll == longestPoll && w.submitted <= f.at &&
      Waits(Later(inp, draw, f, w), Earlier(inp, draw, w).run.submissions) ==>
        Later(inp, draw, f, w).now <= f.at + seconds
  }

  /** 1.2 * I plus two polls, or one if the budget has no second. */
  function NoticeBound(inp: ConvertInput, longestPoll: real): real {
    Longest(inp) + (if inp.maxSafetyPolls >= 2 then 2.0 * longestPoll else longestPoll)
  }

  lemma BoundKept(inp: ConvertInput, draw: nat -> real, f: Finish, w: Wait)
    requires Awaited(inp, draw, f, w) && w.submitted <= f.at
    requires Waits(Later(inp, draw, f, w), Earlier(inp, draw, w).run.submissions)
    ensures Later(inp, draw, f, w).now <= f.at + NoticeBound(inp, f.longestPoll)
  {
    FinishedTaskIsNoticed(inp, draw, f, w);
  }

  const DRAW: nat -> real := i => 1.2

  /** A callback of another task, to tell the time by. */
  const TICK := Signal(TaskCompleted("other", Success, None))

  /** A task that has ended when its wait begins, and a first poll that takes all its time. */
  lemma SlowFirstPoll(inp: ConvertInput, longestPoll: real) returns (f: Finish, w: Wait)
    requires longestPoll >= 0.0
    ensures Awaited(inp, DRAW, f, w) && f.longestPoll == longestPoll && w.submitted <= f.at
    ensures var c := Later(inp, DRAW, f, w);
            Waits(c, Earlier(inp, DRAW, w).run.submissions) && c.now == f.at + Longest(inp) + longestPoll
  {
    f := Finish("t", 0.0, longestPoll);
    var poll := Longest(inp);
    var e1, e2 := Timed(TimerFired, poll), Timed(TICK, poll + longestPoll);
    w := Wait([], 0.0, [e1] + ([e2] + []));
    var c0 := Tick(inp, DRAW, Begin(inp), Submission(f, w));
    Onward(inp, f, Tick(inp, DRAW, c0, e1), e2, []);
    Onward(inp, f, c0, e1, [e2] + []);
    FromStart(inp, f, w);
  }

  lemma FromStart(inp: ConvertInput, f: Finish, w: Wait)
    requires w.before == []
    ensures Earlier(inp, DRAW, w) == Begin(inp)
    ensures Later(inp, DRAW, f, w) == Elapse(inp, DRAW, Tick(inp, DRAW, Begin(inp), Submission(f, w)), w.after)
  {
    var h := w.before + [Submission(f, w)] + w.after;
    assert h[0] == Submission(f, w) && h[1..] == w.after;
  }

  lemma Onward(inp: ConvertInput, f: Finish, c: Clock, e: Timed, h: seq<Timed>)
    ensures Elapse(inp, DRAW, c, [e] + h) == Elapse(inp, DRAW, Tick(inp, DRAW, c, e), h)
    ensures AllPrompt(inp, DRAW, f, c, [e] + h) <==>
            Possible(inp, DRAW, c, e) && Prompt(inp, DRAW, f, c, e) && AllPrompt(inp, DRAW, f, Tick(inp, DRAW, c, e), h)
  {
    assert ([e] + h)[1..] == h;
  }

  /** A task that ends `early` after its first poll began, which misses the end, and a
      second poll that takes all its time. */
  lemma MissedPoll(inp: ConvertInput, longestPoll: real, early: real) returns (f: Finish, w: Wait)
    requires inp.maxSafetyPolls >= 2 && 0.0 < early <= longestPoll
    ensures Awaited(inp, DRAW, f, w) && f.longestPoll == longestPoll && w.submitted <= f.at
    ensures var c := Later(inp, DRAW, f, w);
            Waits(c, Earlier(inp, DRAW, w).run.submissions) &&
            c.now == f.at + Longest(inp) + 2.0 * longestPoll - early
  {
    var poll, end := Longest(inp), Longest(inp) + longestPoll;
    f := Finish("t", poll + early, longestPoll);
    var e1, e2 := Timed(TimerFired, poll), Timed(Checked(Reported(None), 1), end);
    var e3, e4 := Timed(TimerFired, end + poll), Timed(TICK, end + poll + longestPoll);
    w := Wait([], 0.0, [e1] + ([e2] + ([e3] + ([e4] + []))));
    var c0 := Tick(inp, DRAW, Begin(inp), Submission(f, w));
    var c1 := Tick(inp, DRAW, c0, e1);
    var c2 := Tick(inp, DRAW, c1, e2);
    var c3 := Tick(inp, DRAW, c2, e3);
    assert c1.run.phase == Checking("t") && c1.since == poll && c1.run.completed == map[];
    assert c2.run.phase == Sleeping("t") && c2.since == end;
    assert c3.run.phase == Checking("t") && c3.since == end + poll;
    Onward(inp, f, c3, e4, []);
    Onward(inp, f, c2, e3, [e4] + []);
    Onward(inp, f, c1, e2, [e3] + ([e4] + []));
    Onward(inp, f, c0, e1, [e2] + ([e3] + ([e4] + [])));
    FromStart(inp, f, w);
  }

  /** The exact latency: every task that ends during its wait is noticed within `seconds`
      of its end if and only if they are at least 1.2 * I plus two polls, or, where the
      budget is a single poll, 1.2 * I plus that one. */
  lemma NoticedWithinExactly(inp: ConvertInput, longestPoll: real, seconds: real)
    requires longestPoll >= 0.0
    ensures NoticedWithin(inp, longestPoll, seconds) <==> seconds >= NoticeBound(inp, longestPoll)
  {
    if seconds >= NoticeBound(inp, longestPoll) {
      forall draw: nat -> real, f: Finish, w: Wait
        | Awaited(inp, draw, f, w) && f.longestPoll == longestPoll && w.submitted <= f.at &&
          Waits(Later(inp, draw, f, w), Earlier(inp, draw, w).run.submissions)
        ensures Later(inp, draw, f, w).now <= f.at + seconds
      {
        BoundKept(inp, draw, f, w);
      }
    } else {
      var f, w;
      if inp.maxSafetyPolls >= 2 && longestPoll > 0.0 {
        var short := (NoticeBound(inp, longestPoll) - seconds) / 2.0;
        f, w := MissedPoll(inp, longestPoll, if short <= longestPoll then short else longestPoll);
      } else {
        f, w := SlowFirstPoll(inp, longestPoll);
      }
      assert Awaited(inp, DRAW, f, w) && Later(inp, DRAW, f, w).now > f.at + seconds;
    }
  }

  /** What Prompt asks of a poll begun after the task's end, docling gives: if it answers for
      the finished task within the poll's attempts, the poll reports the end. */
  lemma AnsweredPollIsPrompt(
    inp: ConvertInput, draw: nat -> real, f: Finish, c: Clock,
    responses: seq<Activities.Response<Activities.StatusBody>>, status: TaskStatus, at: real)
    requires c.run.phase == Checking(f.taskId) && c.now <= at <= c.since + f.longestPoll
    requires Activities.AnswersFor(responses, status)
    ensures var (answer, attempts) := Activities.Poll(f.taskId, responses);
            var e := Timed(Checked(answer, attempts), at);
            && Possible(inp, draw, c, e) && Prompt(inp, draw, f, c, e)
            && Concluded(Tick(inp, draw, c, e).run) == Some((f.taskId, status))
  {
    Activities.FinishedTaskIsReported(f.taskId, responses, status);
  }
}
