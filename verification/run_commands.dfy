/** The commands a run schedules: what they ask for, and how timers are accounted for. */
module RunCommands {
  import opened Models
  import opened ConversionProtocol
  import opened RunCounting
  import opened RunVerdicts

  /** The command asks what this run has to ask: conversions and listings of its own
      document, with its own options, and reports on tasks it submitted. */
  ghost predicate OwnCommand(inp: ConvertInput, h: seq<Event>, c: Command) {
    match c
    case Submit(input) =>
      && input.bucket == inp.bucket && input.key == inp.key
      && (forall k | k != "to_formats" ::
            (k in input.options <==> k in inp.options) && (k in input.options ==> input.options[k] == inp.options[k]))
      && "to_formats" in input.options && input.options["to_formats"].Array?
      && "json" in input.options["to_formats"].items
      && (forall f :: f in input.options["to_formats"].items <==> f == "json" || f in inp.toFormats)
    case CollectOutputs(bucket, key) => bucket == inp.bucket && key == inp.key
    case Check(t) => Submitted(t) in h
    case FetchOutcome(t) => Submitted(t) in h
    case _ => true
  }

  /** The command the run waits on is the last one it scheduled. */
  ghost predicate WaitsOnLast(inp: ConvertInput, s: Run) {
    s.commands != [] &&
    var last := s.commands[|s.commands| - 1];
    match s.phase
    case Submitting => last.Submit?
    case Sleeping(_) => last.StartTimer?
    case Checking(t) => last == Check(t)
    case Fetching(t) => last == FetchOutcome(t)
    case Collecting(_) => last == CollectOutputs(inp.bucket, inp.key)
    case Closed(_) => true
  }

  lemma StepWaitsOnLast(inp: ConvertInput, s: Run, e: Event)
    requires WaitsOnLast(inp, s)
    ensures WaitsOnLast(inp, Step(inp, s, e))
  {}

  lemma SubmitIsOwn(inp: ConvertInput, h: seq<Event>)
    ensures OwnCommand(inp, h, Submit(SubmitInput(inp)))
  {
    SubmittedOptions(inp);
  }

  /** What the commands an event adds can be. */
  lemma StepAsks(inp: ConvertInput, s: Run, e: Event, c: Command)
    requires s.commands <= Step(inp, s, e).commands && c in Step(inp, s, e).commands[|s.commands|..]
    ensures c == Submit(SubmitInput(inp)) || c == CollectOutputs(inp.bucket, inp.key) || c == CancelTimer ||
            c.StartTimer? ||
            (c.Check? && s.phase == Sleeping(c.taskId)) ||
            (c.FetchOutcome? && (TaskOf(s) == Some(c.taskId) || e == Submitted(c.taskId)))
  {}

  lemma AskedTaskWasSubmitted(inp: ConvertInput, h: seq<Event>, t: TaskId)
    requires TaskOf(Reach(inp, h)) == Some(t)
    ensures Submitted(t) in h
  {
    TaskWasSubmittedLast(inp, h, t);
    var i: nat :| LastSubmitAt(inp, h, i, t);
    assert h[i] in h;
  }

  /** Every command ever scheduled is the run's own, and the last one is what it waits on. */
  lemma {:induction false} CommandsAreOwn(inp: ConvertInput, h: seq<Event>)
    ensures forall c | c in Reach(inp, h).commands :: OwnCommand(inp, h, c)
    ensures WaitsOnLast(inp, Reach(inp, h))
    decreases |h|
  {
    if h == [] {
      SubmitIsOwn(inp, h);
    } else {
      var init, e := h[..|h| - 1], h[|h| - 1];
      CommandsAreOwn(inp, init);
      ReachStep(inp, h, |h| - 1);
      assert h[..|h|] == h && h == init + [e];
      StepWaitsOnLast(inp, Reach(inp, init), e);
      var issued := StepIssues(inp, Reach(inp, init), e);
      forall c | c in Reach(inp, h).commands ensures OwnCommand(inp, h, c) {
        OneMore(inp, init, e, issued, c);
      }
    }
  }

  lemma OneMore(inp: ConvertInput, init: seq<Event>, e: Event, issued: seq<Command>, c: Command)
    requires var s := Reach(inp, init);
             Step(inp, s, e).commands == s.commands + issued && c in s.commands + issued
    requires c in Reach(inp, init).commands ==> OwnCommand(inp, init, c)
    ensures OwnCommand(inp, init + [e], c)
  {
    var s := Reach(inp, init);
    if c !in s.commands {
      assert Step(inp, s, e).commands[|s.commands|..] == issued;
      StepAsks(inp, s, e, c);
      SubmitIsOwn(inp, init + [e]);
      if c.Check? || (c.FetchOutcome? && TaskOf(s) == Some(c.taskId)) {
        AskedTaskWasSubmitted(inp, init, c.taskId);
      }
    }
  }

  // Timers.

  function Timers(cs: seq<Command>): nat {
    if cs == [] then 0 else Timers(cs[..|cs| - 1]) + (if cs[|cs| - 1].StartTimer? then 1 else 0)
  }

  function Cancels(cs: seq<Command>): nat {
    if cs == [] then 0 else Cancels(cs[..|cs| - 1]) + (if cs[|cs| - 1].CancelTimer? then 1 else 0)
  }

  lemma {:induction false} TimersConcat(a: seq<Command>, b: seq<Command>)
    ensures Timers(a + b) == Timers(a) + Timers(b) && Cancels(a + b) == Cancels(a) + Cancels(b)
    decreases |b|
  {
    if b == [] {
      assert a + b == a;
    } else {
      assert (a + b)[..|a + b| - 1] == a + b[..|b| - 1];
      TimersConcat(a, b[..|b| - 1]);
    }
  }

  lemma TimersOfOne(c: Command)
    ensures Timers([c]) == (if c.StartTimer? then 1 else 0) && Cancels([c]) == (if c.CancelTimer? then 1 else 0)
  {
    assert [c][..0] == [];
  }

  lemma TimersOfNone()
    ensures Timers([]) == Cancels([]) == 0
  {}

  /** The timers started and not fired, nor cancelled. */
  function Running(s: Run): int {
    Timers(s.commands) - Cancels(s.commands) - s.safetyPolls
  }

  /** How an event moves timers and phase: one starts exactly when a sleep begins, and is
      cancelled exactly when a sleep ends before it fires. */
  lemma StepTimers(inp: ConvertInput, s: Run, e: Event, issued: seq<Command>)
    requires Inv(inp, s) && Step(inp, s, e).commands == s.commands + issued
    requires |issued| <= 1 || issued == [CancelTimer, FetchOutcome(s.phase.taskId)]
    ensures var s' := Step(inp, s, e);
            && ((|issued| == 1 && issued[0].StartTimer?) <==>
                  s'.phase.Sleeping? && (!s.phase.Sleeping? || s.phase.taskId != s'.phase.taskId))
            && ((issued != [] && issued[0].CancelTimer?) <==> s.phase.Sleeping? && !s'.phase.Sleeping? && e.Signal?)
            && (s.phase.Sleeping? && !s'.phase.Sleeping? && !e.Signal? ==> s'.safetyPolls == s.safetyPolls + 1)
            && (!s.phase.Sleeping? || s'.phase.Sleeping? || e.Signal? ==> s'.safetyPolls == s.safetyPolls)
            && (s.phase.Sleeping? && s'.phase.Sleeping? ==> s'.phase == s.phase)
  {
    assert Step(inp, s, e).commands[|s.commands|..] == issued;
  }

  lemma StepRunning(inp: ConvertInput, s: Run, e: Event)
    requires Inv(inp, s)
    ensures Running(Step(inp, s, e)) - Running(s) ==
            (if Step(inp, s, e).phase.Sleeping? then 1 else 0) - (if s.phase.Sleeping? then 1 else 0)
  {
    var issued := StepIssues(inp, s, e);
    StepTimers(inp, s, e, issued);
    TimersConcat(s.commands, issued);
    if |issued| == 1 {
      assert issued == [issued[0]];
      TimersOfOne(issued[0]);
    } else if |issued| == 2 {
      TimersOfOne(issued[0]);
      TimersOfOne(issued[1]);
      TimersConcat([issued[0]], [issued[1]]);
      assert issued == [issued[0]] + [issued[1]];
    }
  }

  /** Timers are conserved: every one started has fired, each time for one safety poll, or
      was cancelled by a callback, except the one of a sleep under way. */
  lemma {:induction false} TimersAreAccounted(inp: ConvertInput, h: seq<Event>)
    ensures var s := Reach(inp, h);
            Timers(s.commands) == s.safetyPolls + Cancels(s.commands) + (if s.phase.Sleeping? then 1 else 0)
    decreases |h|
  {
    if h == [] {
      TimersOfOne(Submit(SubmitInput(inp)));
    } else {
      var init := h[..|h| - 1];
      TimersAreAccounted(inp, init);
      Counters(inp, init);
      ReachStep(inp, h, |h| - 1);
      assert h[..|h|] == h;
      StepRunning(inp, Reach(inp, init), h[|h| - 1]);
    }
  }

  /** Each timer has a number of the generator to itself, drawn in order. */
  ghost predicate DrawnInOrder(s: Run) {
    && (forall i | 0 <= i < |s.commands| && s.commands[i].StartTimer? :: s.commands[i].draw < s.draws)
    && (forall i, j | 0 <= i < j < |s.commands| && s.commands[i].StartTimer? && s.commands[j].StartTimer? ::
          s.commands[i].draw < s.commands[j].draw)
  }

  lemma StepDraws(inp: ConvertInput, s: Run, e: Event, issued: seq<Command>)
    requires Step(inp, s, e).commands == s.commands + issued
    requires |issued| <= 1 || issued == [CancelTimer, FetchOutcome(s.phase.taskId)]
    ensures Step(inp, s, e).draws >= s.draws
    ensures |issued| == 1 && issued[0].StartTimer? ==> s.draws <= issued[0].draw < Step(inp, s, e).draws
  {
    assert Step(inp, s, e).commands[|s.commands|..] == issued;
  }

  lemma {:induction false} TimersDrawInOrder(inp: ConvertInput, h: seq<Event>)
    ensures DrawnInOrder(Reach(inp, h))
    decreases |h|
  {
    if h != [] {
      var init, e := h[..|h| - 1], h[|h| - 1];
      var s := Reach(inp, init);
      TimersDrawInOrder(inp, init);
      ReachStep(inp, h, |h| - 1);
      assert h[..|h|] == h;
      var issued := StepIssues(inp, s, e);
      StepDraws(inp, s, e, issued);
      NextInOrder(s, Step(inp, s, e), issued);
    }
  }

  lemma NextInOrder(s: Run, s': Run, issued: seq<Command>)
    requires DrawnInOrder(s) && s'.commands == s.commands + issued && s'.draws >= s.draws
    requires |issued| <= 1 || (|issued| == 2 && issued[0].CancelTimer? && issued[1].FetchOutcome?)
    requires |issued| == 1 && issued[0].StartTimer? ==> s.draws <= issued[0].draw < s'.draws
    ensures DrawnInOrder(s')
  {
    var n := |s.commands|;
    assert forall i | 0 <= i < |s'.commands| :: s'.commands[i] == if i < n then s.commands[i] else issued[i - n];
  }
}
