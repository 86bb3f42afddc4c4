/** ConvertDocumentWorkflow as the object it is in src/orchestration/workflows.py:
    fields updated by the signal handler and by the run's loops. Each `await` reads
    the recorded history on from where the run stopped. */
module DurableWorkflow {
  import opened Models
  import opened ConversionProtocol

  /** How _wait_until_terminal ends; Suspended: the history holds no further event. */
  datatype WaitEnd = Finished(completed: TaskCompleted) | Lost | Exhausted | Suspended

  class ConvertDocumentWorkflow {
    const inp: ConvertInput
    const history: seq<Event>
    var next: nat
    var completed: map<TaskId, TaskCompleted>
    var safetyPolls: nat
    var draws: nat
    var commands: seq<Command>

    constructor (inp: ConvertInput, history: seq<Event>)
      ensures this.inp == inp && this.history == history
      ensures next == 0 && completed == map[] && safetyPolls == 0 && draws == 0 && commands == []
    {
      this.inp := inp;
      this.history := history;
      next, completed, safetyPolls, draws, commands := 0, map[], 0, 0, [];
    }

    /** The protocol's state after the events delivered so far. */
    ghost function Delivered(): Run
      requires next <= |history|
      reads this
    {
      Reach(inp, history[..next])
    }

    ghost predicate Agrees(s: Run)
      reads this
    {
      completed == s.completed && safetyPolls == s.safetyPolls && draws == s.draws && commands == s.commands
    }

    /** The signal handler: docling retries delivery, the first event of a task wins. */
    method OnTaskCompleted(event: TaskCompleted)
      modifies this`completed
      ensures event.taskId in old(completed) ==> completed == old(completed)
      ensures event.taskId !in old(completed) ==> completed == old(completed)[event.taskId := event]
    {
      if event.taskId !in completed {
        completed := completed[event.taskId := event];
      }
    }

    /** Waits for the answer to the outstanding command, delivering signals meanwhile. */
    method AwaitAnswer(p: Phase, ghost s0: Run) returns (answer: Option<Event>, ghost s: Run)
      requires next <= |history| && Agrees(s0) && Delivered() == s0 && s0.phase == p
      requires !p.Sleeping? && !p.Closed?
      modifies this`next, this`completed
      ensures old(next) <= next <= |history|
      ensures Agrees(s) && s == s0.(completed := completed)
      ensures answer.None? ==> next == |history| && Delivered() == s
      ensures answer.Some? ==> Answers(p, answer.value) && Delivered() == Step(inp, s, answer.value)
    {
      s := s0;
      while next < |history|
        invariant old(next) <= next <= |history|
        invariant Agrees(s) && Delivered() == s && s == s0.(completed := completed)
      {
        var e := history[next];
        ReachStep(inp, history, next);
        next := next + 1;
        if e.Signal? {
          OnTaskCompleted(e.event);
          s := s.(completed := completed);
        } else if Answers(p, e) {
          return Some(e), s;
        }
      }
      return None, s;
    }

    /** wait_condition with a timeout, once the timer is running: Some(true) when the
        callback for `t` arrived, Some(false) when the timer fired first. */
    method Sleep(t: TaskId, ghost s0: Run) returns (woken: Option<bool>, ghost s: Run)
      requires next <= |history| && Agrees(s0) && Delivered() == s0 && s0.phase == Sleeping(t)
      requires t !in completed
      modifies this`next, this`completed
      ensures old(next) <= next <= |history|
      ensures Agrees(s) && s == s0.(completed := completed)
      ensures woken.None? ==> next == |history| && Delivered() == s
      ensures woken == Some(true) ==>
        t in completed &&
        Delivered() == Conclude(s.(commands := s.commands + [CancelTimer]), t, completed[t])
      ensures woken == Some(false) ==> Delivered() == Step(inp, s, TimerFired)
    {
      s := s0;
      while next < |history|
        invariant old(next) <= next <= |history|
        invariant Agrees(s) && Delivered() == s && s == s0.(completed := completed) && t !in completed
      {
        var e := history[next];
        ReachStep(inp, history, next);
        next := next + 1;
        if e.Signal? {
          OnTaskCompleted(e.event);
          s := s.(completed := completed);
          if t in completed {
            return Some(true), s;
          }
        } else if e.TimerFired? {
          return Some(false), s;
        }
      }
      return None, s;
    }

    /** One safety poll: Some(Some(c)) ended the wait, Some(None) ended nothing. */
    method CheckOnce(t: TaskId, ghost s0: Run) returns (polled: Option<Option<TaskCompleted>>, lost: bool, ghost s: Run)
      requires next <= |history| && Agrees(s0) && Delivered() == s0 && s0.phase == Checking(t)
      modifies this`next, this`completed
      ensures old(next) <= next <= |history|
      ensures Agrees(s) && s == s0.(completed := completed)
      ensures polled.None? && !lost ==> next == |history| && Delivered() == s
      ensures lost ==> Delivered() == Lose(inp, s, t)
      ensures !lost && polled == Some(None) ==> Delivered() == Retry(inp, s, t)
      ensures !lost && polled.Some? && polled.value.Some? ==> Delivered() == Conclude(s, t, polled.value.value)
    {
      var answer;
      answer, s := AwaitAnswer(Checking(t), s0);
      if answer.None? {
        return None, false, s;
      }
      match answer.value.answer {
        case Reported(completed) => return Some(completed), false, s;
        case Raised(error) => return Some(None), IsTaskLost(error), s;
      }
    }

    /** _wait_until_terminal. `s` is the state the wait left behind. */
    method WaitUntilTerminal(t: TaskId, ghost s0: Run) returns (end: WaitEnd, polls: nat, ghost s: Run)
      requires next <= |history| && Agrees(s0) && s0.polls == 0 && Delivered() == Await(s0, t)
      modifies this`next, this`completed, this`safetyPolls, this`draws, this`commands
      ensures old(next) <= next <= |history|
      ensures Agrees(s) && s.submissions == s0.submissions && s.polls == polls
      ensures end.Suspended? ==> next == |history| && Delivered() == s && !s.phase.Closed?
      ensures end.Finished? ==> Delivered() == Conclude(s, t, end.completed)
      ensures end.Lost? ==> Delivered() == Lose(inp, s, t)
      ensures end.Exhausted? ==> Delivered() == s.(phase := Closed(Failed(BudgetExhausted(t, polls))))
    {
      polls := 0;
      s := s0;
      while true
        invariant old(next) <= next <= |history|
        invariant Agrees(s) && s.submissions == s0.submissions && s.polls == polls
        invariant Delivered() == Await(s, t)
        decreases |history| - next
      {
        var draw := draws;
        draws := draws + 1;
        s := s.(draws := draws);
        if t in completed {
          return Finished(completed[t]), polls, s;
        }
        commands := commands + [StartTimer(draw)];
        s := s.(phase := Sleeping(t), commands := commands);
        var woken;
        woken, s := Sleep(t, s);
        if woken.None? {
          return Suspended, polls, s;
        }
        if woken.value {
          commands := commands + [CancelTimer];
          s := s.(commands := commands);
          return Finished(completed[t]), polls, s;
        }

        polls := polls + 1;
        safetyPolls := safetyPolls + 1;
        commands := commands + [Check(t)];
        s := Delivered();
        var polled, lost;
        polled, lost, s := CheckOnce(t, s);
        if lost {
          return Lost, polls, s;
        }
        if polled.None? {
          return Suspended, polls, s;
        }
        if polled.value.Some? {
          return Finished(polled.value.value), polls, s;
        }
        if polls >= inp.maxSafetyPolls {
          return Exhausted, polls, s;
        }
      }
    }

    /** The run: its outcome, its counters and the commands it scheduled are those of
        the protocol on the whole history. None: still open when the history ends. */
    method Execute() returns (outcome: Option<Outcome>, submissions: nat)
      requires next == 0 && completed == map[] && safetyPolls == 0 && draws == 0 && commands == []
      modifies this
      ensures Agrees(Reach(inp, history)) && submissions == Reach(inp, history).submissions
      ensures outcome == if Reach(inp, history).phase.Closed? then Some(Reach(inp, history).phase.outcome) else None
    {
      var input := SubmitInput(inp);
      submissions := 0;
      var t: TaskId;
      var verdict: TaskCompleted;
      ghost var s := Start(inp).(submissions := 0, commands := []);
      while true
        invariant 0 <= next <= |history| && Agrees(s) && s.submissions == submissions && s.polls == 0
        invariant Delivered() ==
          s.(submissions := submissions + 1, phase := Submitting, commands := s.commands + [Submit(input)])
        invariant submissions < MAX_SUBMISSIONS
        decreases |history| - next, MAX_SUBMISSIONS - submissions
      {
        submissions := submissions + 1;
        commands := commands + [Submit(input)];
        var answer;
        answer, s := AwaitAnswer(Submitting, Delivered());
        if answer.None? {
          AllDelivered();
          return None, submissions;
        }
        if answer.value.ActivityFailed? {
          FinallyClosed();
          return Some(Failed(ActivityGaveUp(answer.value.error))), submissions;
        }
        t := answer.value.taskId;
        var end, polls;
        end, polls, s := WaitUntilTerminal(t, s.(polls := 0));
        match end {
          case Suspended =>
            AllDelivered();
            return None, submissions;
          case Exhausted =>
            FinallyClosed();
            return Some(Failed(BudgetExhausted(t, polls))), submissions;
          case Finished(c) =>
            verdict := c;
            break;
          case Lost =>
            if submissions >= MAX_SUBMISSIONS {
              FinallyClosed();
              return Some(Failed(LostForGood(t))), submissions;
            }
            s := s.(polls := 0);
        }
      }

      outcome := TakeVerdict(t, verdict, submissions, s);
    }

    /** The run after its wait: the verdict, the counts, the outputs. */
    method TakeVerdict(t: TaskId, verdict: TaskCompleted, submissions: nat, ghost s0: Run)
      returns (outcome: Option<Outcome>)
      requires next <= |history| && Agrees(s0) && s0.submissions == submissions
      requires Delivered() == Conclude(s0, t, verdict)
      modifies this`next, this`completed, this`commands
      ensures Agrees(Reach(inp, history)) && submissions == Reach(inp, history).submissions
      ensures outcome == if Reach(inp, history).phase.Closed? then Some(Reach(inp, history).phase.outcome) else None
    {
      ghost var s := s0;
      if verdict.taskStatus == Failure {
        FinallyClosed();
        return Some(Failed(TaskFailed(t, verdict.errorMessage)));
      }

      commands := commands + [FetchOutcome(t)];
      var fetched;
      fetched, s := AwaitAnswer(Fetching(t), Delivered());
      if fetched.None? {
        AllDelivered();
        return None;
      }
      if fetched.value.ActivityFailed? {
        FinallyClosed();
        return Some(Failed(ActivityGaveUp(fetched.value.error)));
      }
      var o := fetched.value.outcome;
      if o.numSucceeded.Some? {
        var partially := if o.numPartiallySucceeded.Some? then o.numPartiallySucceeded.value else 0;
        if o.numSucceeded.value + partially == 0 {
          FinallyClosed();
          return Some(Failed(NothingConverted(t, o)));
        }
      }

      commands := commands + [CollectOutputs(inp.bucket, inp.key)];
      var listed;
      listed, s := AwaitAnswer(Collecting(t), Delivered());
      if listed.None? {
        AllDelivered();
        return None;
      }
      FinallyClosed();
      if listed.value.ActivityFailed? {
        return Some(Failed(ActivityGaveUp(listed.value.error)));
      }
      var c := listed.value.collected;
      if REQUIRED_FORMAT !in c.outputs {
        return Some(Failed(NoRequiredOutput(t, c.outputs.Keys)));
      }
      return Some(Returned(ConvertResult(t, c.outputs, c.bucket, submissions, safetyPolls)));
    }

    lemma AllDelivered()
      requires next == |history|
      ensures Delivered() == Reach(inp, history)
    {
      assert history[..next] == history;
    }

    lemma FinallyClosed()
      requires next <= |history| && Delivered().phase.Closed?
      ensures Reach(inp, history) == Delivered()
    {
      assert history == history[..next] + history[next..];
      ApplyConcat(inp, Start(inp), history[..next], history[next..]);
      ClosedStays(inp, Delivered(), history[next..]);
    }
  }
}
