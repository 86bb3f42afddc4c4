/** Runs in time: when safety polls happen, and when a run gives up. Times are in
    seconds; the run's seeded generator is any function to factors within the jitter. */
module TimedRuns {
  import opened Models
  import opened ConversionProtocol
  import opened RunCounting

  datatype Timed = Timed(event: Event, at: real)

  /** `began`: when the current wait began; `since`: when the current sleep or poll did;
      `slept`, `late`, `polled`: the time of this wait spent in drawn sleeps, between a
      timer's due time and its firing, and in polls. */
  datatype Clock = Clock(run: Run, now: real, began: real, since: real, slept: real, late: real, polled: real)

  /** Each sleep is the interval +/- 20%. */
  ghost predicate Jitter(draw: nat -> real) {
    forall i: nat :: 0.8 <= draw(i) <= 1.2
  }

  function Interval(inp: ConvertInput): real {
    inp.safetyPollIntervalSeconds as real
  }

  function Shortest(inp: ConvertInput): real {
    Interval(inp) * 0.8
  }

  function Longest(inp: ConvertInput): real {
    Interval(inp) * 1.2
  }

  function Times(x: real, n: nat): real {
    if n == 0 then 0.0 else Times(x, n - 1) + x
  }

  lemma {:induction false} TimesIsProduct(x: real, n: nat)
    ensures Times(x, n) == x * n as real
  {
    if n > 0 {
      TimesIsProduct(x, n - 1);
      assert n as real == (n - 1) as real + 1.0;
      assert x * n as real == x * (n - 1) as real + x;
    }
  }

  /** The sleep started by StartTimer(i). */
  function Sleep(inp: ConvertInput, draw: nat -> real, i: nat): real {
    Interval(inp) * draw(i)
  }

  function LastDraw(s: Run): nat {
    if s.draws > 0 then s.draws - 1 else 0
  }

  /** Time does not run back, and a timer does not fire before it is due. */
  predicate Possible(inp: ConvertInput, draw: nat -> real, c: Clock, e: Timed) {
    c.now <= e.at &&
    (c.run.phase.Sleeping? && e.event.TimerFired? ==> c.since + Sleep(inp, draw, LastDraw(c.run)) <= e.at)
  }

  function Tick(inp: ConvertInput, draw: nat -> real, c: Clock, e: Timed): Clock {
    var run := Step(inp, c.run, e.event);
    if !Answers(c.run.phase, e.event) then c.(run := run, now := e.at)
    else if c.run.phase.Submitting? then Clock(run, e.at, e.at, e.at, 0.0, 0.0, 0.0)
    else if c.run.phase.Sleeping? then
      var sleep := Sleep(inp, draw, LastDraw(c.run));
      c.(run := run, now := e.at, since := e.at, slept := c.slept + sleep, late := c.late + (e.at - c.since - sleep))
    else if c.run.phase.Checking? then
      c.(run := run, now := e.at, since := e.at, polled := c.polled + (e.at - c.since))
    else c.(run := run, now := e.at)
  }

  function Begin(inp: ConvertInput): Clock {
    Clock(Start(inp), 0.0, 0.0, 0.0, 0.0, 0.0, 0.0)
  }

  function Elapse(inp: ConvertInput, draw: nat -> real, c: Clock, h: seq<Timed>): Clock
    decreases |h|
  {
    if h == [] then c else Elapse(inp, draw, Tick(inp, draw, c, h[0]), h[1..])
  }

  predicate AllPossible(inp: ConvertInput, draw: nat -> real, c: Clock, h: seq<Timed>)
    decreases |h|
  {
    h == [] || (Possible(inp, draw, c, h[0]) && AllPossible(inp, draw, Tick(inp, draw, c, h[0]), h[1..]))
  }

  predicate Waiting(s: Run) {
    s.phase.Sleeping? || s.phase.Checking? || GaveUp(s)
  }

  predicate GaveUp(s: Run) {
    s.phase.Closed? && s.phase.outcome.Failed? && s.phase.outcome.failure.BudgetExhausted?
  }

  /** Where the time of a wait has gone. */
  ghost predicate Accounted(inp: ConvertInput, c: Clock) {
    && c.since <= c.now
    && c.late >= 0.0 && c.polled >= 0.0
    && c.since - c.began == c.slept + c.late + c.polled
    && Times(Shortest(inp), c.run.polls) <= c.slept <= Times(Longest(inp), c.run.polls)
  }

  ghost predicate ClockInv(inp: ConvertInput, c: Clock) {
    Inv(inp, c.run) && (Waiting(c.run) ==> Accounted(inp, c)) && (c.run.phase.Sleeping? ==> c.run.draws > 0)
  }

  lemma Scaled(x: real, a: real, b: real)
    requires x >= 0.0 && a <= b
    ensures x * a <= x * b
  {
    assert x * (b - a) >= 0.0;
  }

  lemma SleepBounds(inp: ConvertInput, draw: nat -> real, i: nat)
    requires Jitter(draw)
    ensures Shortest(inp) <= Sleep(inp, draw, i) <= Longest(inp)
  {
    Scaled(Interval(inp), 0.8, draw(i));
    Scaled(Interval(inp), draw(i), 1.2);
  }

  /** What one event does to a wait. */
  lemma StepWait(inp: ConvertInput, s: Run, e: Event)
    ensures var s' := Step(inp, s, e);
            && (s'.phase.Sleeping? ==>
                  s'.draws > 0 || s' == s || (e.Signal? && s.phase == s'.phase && s.draws == s'.draws))
            && (Waiting(s') ==>
                  if !Answers(s.phase, e) then
                    Waiting(s) && s'.polls == s.polls && (s.phase.Sleeping? == s'.phase.Sleeping?)
                  else if s.phase.Submitting? then s'.polls == 0 && s'.phase.Sleeping?
                  else if s.phase.Sleeping? then s'.polls == s.polls + 1
                  else s.phase.Checking? && s'.polls == s.polls)
  {}

  lemma TickAccounts(inp: ConvertInput, draw: nat -> real, c: Clock, e: Timed)
    requires Jitter(draw) && Possible(inp, draw, c, e)
    requires Waiting(c.run) ==> Accounted(inp, c)
    requires Waiting(Step(inp, c.run, e.event))
    ensures Accounted(inp, Tick(inp, draw, c, e))
  {
    var s := c.run;
    var c' := Tick(inp, draw, c, e);
    StepWait(inp, s, e.event);
    if Answers(s.phase, e.event) && s.phase.Submitting? {
      assert c'.slept == c'.late == c'.polled == 0.0 && c'.run.polls == 0;
    } else if Answers(s.phase, e.event) && s.phase.Sleeping? {
      SleepBounds(inp, draw, LastDraw(s));
      assert c'.run.polls == s.polls + 1;
    }
  }

  lemma TickInv(inp: ConvertInput, draw: nat -> real, c: Clock, e: Timed)
    requires Jitter(draw) && ClockInv(inp, c) && Possible(inp, draw, c, e)
    ensures ClockInv(inp, Tick(inp, draw, c, e))
  {
    StepInv(inp, c.run, e.event);
    StepWait(inp, c.run, e.event);
    if Waiting(Step(inp, c.run, e.event)) {
      TickAccounts(inp, draw, c, e);
    }
  }

  lemma {:induction false} ElapseInv(inp: ConvertInput, draw: nat -> real, c: Clock, h: seq<Timed>)
    requires Jitter(draw) && ClockInv(inp, c) && AllPossible(inp, draw, c, h)
    ensures ClockInv(inp, Elapse(inp, draw, c, h))
    decreases |h|
  {
    if h != [] {
      TickInv(inp, draw, c, h[0]);
      ElapseInv(inp, draw, Tick(inp, draw, c, h[0]), h[1..]);
    }
  }

  /** The k-th safety poll of a submission starts no earlier than 0.8 * I * k after its
      wait began. Giving up takes the drawn sleeps, plus timer lateness, plus the time
      spent in polls, and so at least 0.8 * I * max(1, B), and at most 1.2 * I * max(1, B)
      on top of lateness and polls. */
  lemma GivingUpTakesTime(inp: ConvertInput, draw: nat -> real, h: seq<Timed>)
    requires Jitter(draw) && AllPossible(inp, draw, Begin(inp), h)
    ensures var c := Elapse(inp, draw, Begin(inp), h);
            var limit := PollLimit(inp) as real;
            && (c.run.phase.Checking? ==> c.since - c.began >= Shortest(inp) * c.run.polls as real)
            && (GaveUp(c.run) ==>
                  && c.run.polls == PollLimit(inp)
                  && c.late >= 0.0 && c.polled >= 0.0
                  && c.since - c.began == c.slept + c.late + c.polled
                  && Shortest(inp) * limit <= c.slept <= Longest(inp) * limit)
  {
    ElapseInv(inp, draw, Begin(inp), h);
    TimesIsProduct(Shortest(inp), Elapse(inp, draw, Begin(inp), h).run.polls);
    TimesIsProduct(Longest(inp), Elapse(inp, draw, Begin(inp), h).run.polls);
  }

  /** No run gives up on a task before `seconds` have passed since its wait began. */
  ghost predicate Covers(inp: ConvertInput, seconds: real) {
    forall draw: nat -> real, h: seq<Timed> ::
      Jitter(draw) && AllPossible(inp, draw, Begin(inp), h) && GaveUp(Elapse(inp, draw, Begin(inp), h).run) ==>
        Elapse(inp, draw, Begin(inp), h).since - Elapse(inp, draw, Begin(inp), h).began >= seconds
  }

  /** `n` rounds of the shortest sleep and an instant poll, the first starting at `from`. */
  function ShortRounds(inp: ConvertInput, from: real, n: nat): seq<Timed>
    decreases n
  {
    if n == 0 then []
    else
      var at := from + Interval(inp) * 0.8;
      [Timed(TimerFired, at), Timed(Checked(Reported(None), 1), at)] + ShortRounds(inp, at, n - 1)
  }

  lemma {:induction false} ShortRoundsGiveUp(inp: ConvertInput, draw: nat -> real, c: Clock, n: nat)
    requires forall i: nat :: draw(i) == 0.8
    requires c.run.phase.Sleeping? && c.run.completed == map[] && c.now == c.since
    requires c.run.polls + n == PollLimit(inp) && n >= 1
    ensures AllPossible(inp, draw, c, ShortRounds(inp, c.since, n))
    ensures var c' := Elapse(inp, draw, c, ShortRounds(inp, c.since, n));
            GaveUp(c'.run) && c'.began == c.began && c'.since == c.since + Times(Shortest(inp), n)
    decreases n
  {
    var h, at := ShortRounds(inp, c.since, n), c.since + Interval(inp) * 0.8;
    assert Sleep(inp, draw, LastDraw(c.run)) == Interval(inp) * 0.8;
    var c1 := Tick(inp, draw, c, h[0]);
    var c2 := Tick(inp, draw, c1, h[1]);
    assert h[1..][0] == h[1] && h[1..][1..] == ShortRounds(inp, at, n - 1);
    assert Elapse(inp, draw, c, h) == Elapse(inp, draw, c1, h[1..]) ==
           Elapse(inp, draw, c2, ShortRounds(inp, at, n - 1));
    assert AllPossible(inp, draw, c1, h[1..]) == AllPossible(inp, draw, c2, ShortRounds(inp, at, n - 1));
    if n > 1 {
      ShortRoundsGiveUp(inp, draw, c2, n - 1);
    }
  }

  lemma ShortestRun(inp: ConvertInput, draw: nat -> real)
    requires forall i: nat :: draw(i) == 0.8
    ensures exists h :: AllPossible(inp, draw, Begin(inp), h) &&
              (var c := Elapse(inp, draw, Begin(inp), h);
               GaveUp(c.run) && c.since - c.began == Shortest(inp) * PollLimit(inp) as real)
  {
    var first := Timed(Submitted("t"), 0.0);
    var c := Tick(inp, draw, Begin(inp), first);
    var rest := ShortRounds(inp, c.since, PollLimit(inp));
    ShortRoundsGiveUp(inp, draw, c, PollLimit(inp));
    TimesIsProduct(Shortest(inp), PollLimit(inp));
    var h := [first] + rest;
    assert h[1..] == rest;
    assert AllPossible(inp, draw, Begin(inp), h) && Elapse(inp, draw, Begin(inp), h) == Elapse(inp, draw, c, rest);
  }

  /** The exact coverage of a poll budget: a run is sure not to give up within `seconds`
      if and only if seconds <= 0.8 * I * max(1, B). */
  lemma CoverageIsExact(inp: ConvertInput, seconds: real)
    ensures Covers(inp, seconds) <==> seconds <= Shortest(inp) * PollLimit(inp) as real
  {
    forall draw: nat -> real, h: seq<Timed>
      | Jitter(draw) && AllPossible(inp, draw, Begin(inp), h) && GaveUp(Elapse(inp, draw, Begin(inp), h).run)
      ensures Elapse(inp, draw, Begin(inp), h).since - Elapse(inp, draw, Begin(inp), h).began >=
              Shortest(inp) * PollLimit(inp) as real
    {
      GivingUpTakesTime(inp, draw, h);
    }
    var draw: nat -> real := i => 0.8;
    assert Jitter(draw);
    ShortestRun(inp, draw);
  }

  /** The defaults cover 40 hours and not the 50 their comment reckons with, which is the
      middle of what the jitter allows. */
  lemma DefaultsCoverFortyHours(inp: ConvertInput)
    requires inp.safetyPollIntervalSeconds == DEFAULT_SAFETY_POLL_INTERVAL_SECONDS
    requires inp.maxSafetyPolls == DEFAULT_MAX_SAFETY_POLLS
    ensures inp.safetyPollIntervalSeconds == 300 && inp.maxSafetyPolls == 600
    ensures Covers(inp, 40.0 * 3600.0) && !Covers(inp, 50.0 * 3600.0)
    ensures (0.8 + 1.2) / 2.0 * Interval(inp) * PollLimit(inp) as real == 50.0 * 3600.0
  {
    CoverageIsExact(inp, 40.0 * 3600.0);
    CoverageIsExact(inp, 50.0 * 3600.0);
  }

  lemma {:induction false} ElapseConcat(inp: ConvertInput, draw: nat -> real, c: Clock, a: seq<Timed>, b: seq<Timed>)
    ensures Elapse(inp, draw, c, a + b) == Elapse(inp, draw, Elapse(inp, draw, c, a), b)
    decreases |a|
  {
    if a == [] {
      assert a + b == b;
    } else {
      assert (a + b)[1..] == a[1..] + b;
      ElapseConcat(inp, draw, Tick(inp, draw, c, a[0]), a[1..], b);
    }
  }
}
