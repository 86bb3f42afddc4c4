/** Signals that cannot matter do not: duplicates, callbacks of tasks this run never
    waits for, and late callbacks of tasks it has given up. */
module NonInterference {
  import opened Models
  import opened ConversionProtocol
  import opened RunCounting

  /** The ids submit_conversion returned in `h`. */
  ghost function SubmittedIds(h: seq<Event>): set<TaskId> {
    set e | e in h && e.Submitted? :: e.taskId
  }

  lemma SubmittedIdsTail(h: seq<Event>)
    requires h != []
    ensures SubmittedIds(h[1..]) <= SubmittedIds(h)
    ensures h[0].Submitted? ==> h[0].taskId in SubmittedIds(h)
  {}

  /** `h` without the signals for ids outside `ids`, and without every signal after
      the first for an id; `seen` holds the ids signaled before. */
  function Essential(h: seq<Event>, ids: set<TaskId>, seen: set<TaskId>): seq<Event> {
    if h == [] then []
    else if h[0].Signal? then
      var t := h[0].event.taskId;
      if t in ids && t !in seen then [h[0]] + Essential(h[1..], ids, seen + {t})
      else Essential(h[1..], ids, seen)
    else [h[0]] + Essential(h[1..], ids, seen)
  }

  /** Equal in commands, counters, phase and outcome, and in the completions of `ids`. */
  ghost predicate Alike(s: Run, s': Run, ids: set<TaskId>) {
    && s' == s.(completed := s'.completed)
    && (forall t | t in ids ::
          (t in s.completed <==> t in s'.completed) && (t in s.completed ==> s.completed[t] == s'.completed[t]))
  }

  /** The task a run may be woken for. */
  ghost predicate AwaitsOnly(s: Run, ids: set<TaskId>) {
    s.phase.Sleeping? || s.phase.Checking? ==> s.phase.taskId in ids
  }

  lemma AwaitAlike(s: Run, s': Run, t: TaskId, ids: set<TaskId>)
    requires Alike(s, s', ids) && t in ids
    ensures Alike(Await(s, t), Await(s', t), ids) && AwaitsOnly(Await(s, t), ids)
  {}

  lemma SetDefaultAlike(s: Run, s': Run, event: TaskCompleted, ids: set<TaskId>)
    requires Alike(s, s', ids)
    ensures Alike(s.(completed := SetDefault(s.completed, event)), s'.(completed := SetDefault(s'.completed, event)),
                  ids)
  {}

  lemma ConcludeAlike(s: Run, s': Run, t: TaskId, ids: set<TaskId>)
    requires Alike(s, s', ids) && t in ids && t in s.completed
    ensures t in s'.completed
    ensures Alike(Conclude(s, t, s.completed[t]), Conclude(s', t, s'.completed[t]), ids)
    ensures AwaitsOnly(Conclude(s, t, s.completed[t]), ids)
  {}

  lemma SignalAlike(s: Run, s': Run, event: TaskCompleted, ids: set<TaskId>)
    requires Alike(s, s', ids) && AwaitsOnly(s, ids)
    ensures Alike(OnSignal(s, event), OnSignal(s', event), ids) && AwaitsOnly(OnSignal(s, event), ids)
  {
    if !s.phase.Closed? {
      var h, h' := s.(completed := SetDefault(s.completed, event)), s'.(completed := SetDefault(s'.completed, event));
      SetDefaultAlike(s, s', event, ids);
      if s.phase.Sleeping? && s.phase.taskId in h.completed {
        ConcludeAlike(h.(commands := h.commands + [CancelTimer]), h'.(commands := h'.commands + [CancelTimer]),
                      s.phase.taskId, ids);
      }
    }
  }

  lemma CheckedAlike(inp: ConvertInput, s: Run, s': Run, answer: CheckAnswer, ids: set<TaskId>)
    requires Alike(s, s', ids) && s.phase.Checking? && s.phase.taskId in ids
    ensures var t := s.phase.taskId;
            Alike(OnChecked(inp, s, t, answer), OnChecked(inp, s', t, answer), ids) &&
            AwaitsOnly(OnChecked(inp, s, t, answer), ids)
  {
    AwaitAlike(s, s', s.phase.taskId, ids);
  }

  lemma StepAlike(inp: ConvertInput, s: Run, s': Run, e: Event, ids: set<TaskId>)
    requires Alike(s, s', ids) && AwaitsOnly(s, ids)
    requires e.Submitted? ==> e.taskId in ids
    ensures Alike(Step(inp, s, e), Step(inp, s', e), ids) && AwaitsOnly(Step(inp, s, e), ids)
  {
    if e.Signal? {
      SignalAlike(s, s', e.event, ids);
    } else if Answers(s.phase, e) && e.Submitted? {
      AwaitAlike(s.(polls := 0), s'.(polls := 0), e.taskId, ids);
    } else if Answers(s.phase, e) && e.Checked? {
      CheckedAlike(inp, s, s', e.answer, ids);
    }
  }

  /** Without the signal, a run `s` stays alike to the run that saw it. */
  lemma IdleSignal(inp: ConvertInput, s: Run, s': Run, event: TaskCompleted, ids: set<TaskId>)
    requires Alike(s, s', ids) && AwaitsOnly(s, ids) && Inv(inp, s)
    requires event.taskId !in ids || s.phase.Closed? || event.taskId in s.completed
    ensures Alike(Step(inp, s, Signal(event)), s', ids) && AwaitsOnly(Step(inp, s, Signal(event)), ids)
  {}

  lemma ApplyCons(inp: ConvertInput, s: Run, e: Event, h: seq<Event>)
    ensures Apply(inp, s, [e] + h) == Apply(inp, Step(inp, s, e), h)
  {
    assert ([e] + h)[1..] == h;
  }

  lemma HeardSignal(inp: ConvertInput, s: Run, e: Event, seen: set<TaskId>)
    requires s.phase.Closed? || forall t | t in seen :: t in s.completed
    ensures var s1, seen' := Step(inp, s, e), if e.Signal? then seen + {e.event.taskId} else seen;
            s1.phase.Closed? || forall t | t in seen' :: t in s1.completed
  {
    if !s.phase.Closed? {
      forall t | t in seen ensures t in Step(inp, s, e).completed {
        StepKeepsCompletions(inp, s, e, t);
      }
    }
  }

  lemma StepKeepsCompletions(inp: ConvertInput, s: Run, e: Event, t: TaskId)
    requires t in s.completed
    ensures t in Step(inp, s, e).completed && Step(inp, s, e).completed[t] == s.completed[t]
  {}

  lemma {:induction false} EssentialFrom(
    inp: ConvertInput, s: Run, s': Run, h: seq<Event>, ids: set<TaskId>, seen: set<TaskId>)
    requires Alike(s, s', ids) && AwaitsOnly(s, ids) && Inv(inp, s)
    requires SubmittedIds(h) <= ids
    requires s.phase.Closed? || forall t | t in seen :: t in s.completed
    ensures Alike(Apply(inp, s, h), Apply(inp, s', Essential(h, ids, seen)), ids)
    decreases |h|
  {
    if h != [] {
      var e, s1 := h[0], Step(inp, s, h[0]);
      StepInv(inp, s, e);
      SubmittedIdsTail(h);
      HeardSignal(inp, s, e, seen);
      if e.Signal? && !(e.event.taskId in ids && e.event.taskId !in seen) {
        IdleSignal(inp, s, s', e.event, ids);
        EssentialFrom(inp, s1, s', h[1..], ids, seen);
      } else {
        StepAlike(inp, s, s', e, ids);
        var seen' := if e.Signal? then seen + {e.event.taskId} else seen;
        EssentialFrom(inp, s1, Step(inp, s', e), h[1..], ids, seen');
        ApplyCons(inp, s', e, Essential(h[1..], ids, seen'));
      }
    }
  }

  /** Non-interference: deleting every signal of an id no submit returned, and every
      signal after the first for an id, changes nothing a run does or answers. */
  lemma SignalsThatMatter(inp: ConvertInput, h: seq<Event>)
    ensures var ids := SubmittedIds(h);
            Alike(Reach(inp, h), Reach(inp, Essential(h, ids, {})), ids)
  {
    Counters(inp, []);
    EssentialFrom(inp, Start(inp), Start(inp), h, SubmittedIds(h), {});
  }

  lemma {:induction false} ApplyAlike(inp: ConvertInput, s: Run, s': Run, h: seq<Event>, ids: set<TaskId>)
    requires Alike(s, s', ids) && AwaitsOnly(s, ids) && SubmittedIds(h) <= ids
    ensures Alike(Apply(inp, s, h), Apply(inp, s', h), ids)
    decreases |h|
  {
    if h != [] {
      SubmittedIdsTail(h);
      StepAlike(inp, s, s', h[0], ids);
      ApplyAlike(inp, Step(inp, s, h[0]), Step(inp, s', h[0]), h[1..], ids);
    }
  }

  /** A callback for a task the run is not waiting for, and that no later submit
      returns, changes nothing: with fresh ids, a lost task's late callback never
      completes its replacement. */
  lemma LateCallback(inp: ConvertInput, before: seq<Event>, event: TaskCompleted, after: seq<Event>)
    requires var s := Reach(inp, before);
             s.phase.Sleeping? || s.phase.Checking? ==> s.phase.taskId != event.taskId
    requires event.taskId !in SubmittedIds(after)
    ensures var s := Reach(inp, before + [Signal(event)] + after);
            s == Reach(inp, before + after).(completed := s.completed)
  {
    Counters(inp, before);
    var s := Reach(inp, before);
    var ids := SubmittedIds(after) + (if s.phase.Sleeping? || s.phase.Checking? then {s.phase.taskId} else {});
    ApplyConcat(inp, Start(inp), before, after);
    ApplyConcat(inp, Start(inp), before, [Signal(event)]);
    ApplyConcat(inp, Start(inp), before + [Signal(event)], after);
    var s1 := Step(inp, s, Signal(event));
    assert Apply(inp, s, [Signal(event)]) == Apply(inp, s1, []);
    IdleSignal(inp, s, s, event, ids);
    ApplyAlike(inp, s1, s, after, ids);
  }

  lemma {:induction false} CompletionsStay(inp: ConvertInput, s: Run, h: seq<Event>, t: TaskId)
    requires t in s.completed
    ensures t in Apply(inp, s, h).completed && Apply(inp, s, h).completed[t] == s.completed[t]
    decreases |h|
  {
    if h != [] {
      StepKeepsCompletions(inp, s, h[0], t);
      CompletionsStay(inp, Step(inp, s, h[0]), h[1..], t);
    }
  }

  /** A signal for `t` no longer changes the run. */
  ghost predicate Heard(s: Run, t: TaskId) {
    s.phase.Closed? || t in s.completed
  }

  lemma HeardStays(inp: ConvertInput, s: Run, h: seq<Event>, t: TaskId)
    requires Heard(s, t)
    ensures Heard(Apply(inp, s, h), t)
  {
    if s.phase.Closed? {
      ClosedStays(inp, s, h);
    } else {
      CompletionsStay(inp, s, h, t);
    }
  }

  /** docling's attempts to deliver one callback: whether each was recorded in the
      history, and the events recorded until the next attempt. */
  datatype CallbackAttempt = CallbackAttempt(recorded: bool, meanwhile: seq<Event>)

  function Deliver(event: TaskCompleted, attempts: seq<CallbackAttempt>): seq<Event> {
    if attempts == [] then []
    else
      (if attempts[0].recorded then [Signal(event)] else []) + attempts[0].meanwhile + Deliver(event, attempts[1..])
  }

  /** The same, with only the first recorded attempt delivering anything. */
  function DeliverOnce(event: TaskCompleted, attempts: seq<CallbackAttempt>): seq<Event> {
    if attempts == [] then []
    else if attempts[0].recorded then [Signal(event)] + attempts[0].meanwhile + Meanwhile(attempts[1..])
    else attempts[0].meanwhile + DeliverOnce(event, attempts[1..])
  }

  function Meanwhile(attempts: seq<CallbackAttempt>): seq<Event> {
    if attempts == [] then [] else attempts[0].meanwhile + Meanwhile(attempts[1..])
  }

  lemma DuplicateSignal(inp: ConvertInput, s: Run, event: TaskCompleted)
    requires Inv(inp, s) && Heard(s, event.taskId)
    ensures Apply(inp, s, [Signal(event)]) == s
  {
    assert Apply(inp, s, [Signal(event)]) == Apply(inp, Step(inp, s, Signal(event)), []);
  }

  lemma {:induction false} RedeliveriesIdle(
    inp: ConvertInput, s: Run, event: TaskCompleted, attempts: seq<CallbackAttempt>)
    requires Inv(inp, s) && Scheduled(s) && Heard(s, event.taskId)
    ensures Apply(inp, s, Deliver(event, attempts)) == Apply(inp, s, Meanwhile(attempts))
    decreases |attempts|
  {
    if attempts != [] {
      var first := if attempts[0].recorded then [Signal(event)] else [];
      var gap, rest := attempts[0].meanwhile, attempts[1..];
      DuplicateSignal(inp, s, event);
      ApplyInv(inp, s, gap);
      HeardStays(inp, s, gap, event.taskId);
      RedeliveriesIdle(inp, Apply(inp, s, gap), event, rest);
      ApplyConcat(inp, s, first, gap);
      ApplyConcat(inp, s, first + gap, Deliver(event, rest));
      ApplyConcat(inp, s, gap, Meanwhile(rest));
    }
  }

  lemma FirstDelivery(inp: ConvertInput, s: Run, event: TaskCompleted, gap: seq<Event>, rest: seq<CallbackAttempt>)
    requires Inv(inp, s) && Scheduled(s)
    ensures Apply(inp, s, [Signal(event)] + gap + Deliver(event, rest)) ==
            Apply(inp, s, [Signal(event)] + gap + Meanwhile(rest))
  {
    var s1 := Step(inp, s, Signal(event));
    assert Apply(inp, s, [Signal(event)]) == Apply(inp, s1, []);
    ApplyInv(inp, s, [Signal(event)]);
    HeardStays(inp, s1, gap, event.taskId);
    ApplyInv(inp, s1, gap);
    RedeliveriesIdle(inp, Apply(inp, s1, gap), event, rest);
    ApplyConcat(inp, s, [Signal(event)], gap);
    ApplyConcat(inp, s, [Signal(event)] + gap, Deliver(event, rest));
    ApplyConcat(inp, s, [Signal(event)] + gap, Meanwhile(rest));
  }

  lemma {:induction false} DeliveredOnceFrom(
    inp: ConvertInput, s: Run, event: TaskCompleted, attempts: seq<CallbackAttempt>)
    requires Inv(inp, s) && Scheduled(s)
    ensures Apply(inp, s, Deliver(event, attempts)) == Apply(inp, s, DeliverOnce(event, attempts))
    decreases |attempts|
  {
    if attempts != [] {
      var gap, rest := attempts[0].meanwhile, attempts[1..];
      if attempts[0].recorded {
        FirstDelivery(inp, s, event, gap, rest);
      } else {
        assert [] + gap == gap;
        ApplyInv(inp, s, gap);
        DeliveredOnceFrom(inp, Apply(inp, s, gap), event, rest);
        ApplyConcat(inp, s, gap, Deliver(event, rest));
        ApplyConcat(inp, s, gap, DeliverOnce(event, rest));
      }
    }
  }

  /** `once` is `gaps` with one signal for the event inserted. */
  ghost predicate Inserted(event: TaskCompleted, gaps: seq<Event>, once: seq<Event>) {
    exists n :: 0 <= n <= |gaps| && once == gaps[..n] + [Signal(event)] + gaps[n..]
  }

  lemma InsertedAfter(event: TaskCompleted, gap: seq<Event>, gaps: seq<Event>, once: seq<Event>)
    requires Inserted(event, gaps, once)
    ensures Inserted(event, gap + gaps, gap + once)
  {
    var n :| 0 <= n <= |gaps| && once == gaps[..n] + [Signal(event)] + gaps[n..];
    var all, m := gap + gaps, |gap| + n;
    assert all[..m] == gap + gaps[..n] && all[m..] == gaps[n..];
    assert gap + once == all[..m] + [Signal(event)] + all[m..];
  }

  ghost predicate AnyRecorded(attempts: seq<CallbackAttempt>) {
    exists i :: 0 <= i < |attempts| && attempts[i].recorded
  }

  lemma {:induction false} OnceOrNever(event: TaskCompleted, attempts: seq<CallbackAttempt>)
    ensures if AnyRecorded(attempts) then Inserted(event, Meanwhile(attempts), DeliverOnce(event, attempts))
            else DeliverOnce(event, attempts) == Meanwhile(attempts)
    decreases |attempts|
  {
    if attempts != [] {
      var rest := attempts[1..];
      OnceOrNever(event, rest);
      if attempts[0].recorded {
        var all := Meanwhile(attempts);
        assert DeliverOnce(event, attempts) == all[..0] + [Signal(event)] + all[0..];
      } else if AnyRecorded(attempts) {
        var i :| 0 <= i < |attempts| && attempts[i].recorded;
        assert rest[i - 1].recorded;
        InsertedAfter(event, attempts[0].meanwhile, Meanwhile(rest), DeliverOnce(event, rest));
      } else {
        assert forall i :: 0 <= i < |rest| ==> rest[i] == attempts[i + 1];
      }
    }
  }

  /** Exactly-once effect of at-least-once delivery: whatever was recorded of docling's
      attempts, the whole workflow state is that of one delivery if any attempt was
      recorded, and of none otherwise. */
  lemma ExactlyOnceEffect(
    inp: ConvertInput, before: seq<Event>, event: TaskCompleted, attempts: seq<CallbackAttempt>, after: seq<Event>)
    ensures Reach(inp, before + Deliver(event, attempts) + after) ==
            Reach(inp, before + DeliverOnce(event, attempts) + after)
    ensures if AnyRecorded(attempts) then Inserted(event, Meanwhile(attempts), DeliverOnce(event, attempts))
            else DeliverOnce(event, attempts) == Meanwhile(attempts)
  {
    Counters(inp, before);
    DeliveredOnceFrom(inp, Reach(inp, before), event, attempts);
    ApplyConcat(inp, Start(inp), before, Deliver(event, attempts));
    ApplyConcat(inp, Start(inp), before, DeliverOnce(event, attempts));
    ApplyConcat(inp, Start(inp), before + Deliver(event, attempts), after);
    ApplyConcat(inp, Start(inp), before + DeliverOnce(event, attempts), after);
    OnceOrNever(event, attempts);
  }
}
