/** Worker crash and replay: a restarted worker runs a fresh workflow object over the
    recorded history, and Temporal matches the commands it issues with those already
    scheduled. */
module Replay {
  import opened Models
  import opened ConversionProtocol
  import opened RunCounting

  /** The worker's object, and how many recorded events it has seen. */
  datatype Worker = Down | Up(run: Run, seen: nat)

  /** `scheduled`: the commands recorded in the history; `diverged`: a replay issued
      commands that contradict them. */
  datatype Cluster = Cluster(history: seq<Event>, scheduled: seq<Command>, worker: Worker, diverged: bool)

  datatype Action =
    | Record(event: Event)  // the server records a signal or an answer, worker or no worker
    | Restart               // a worker takes the run, with a fresh object
    | Work                  // the worker handles the next recorded event
    | Crash

  /** Commands already scheduled are matched, new ones are scheduled. */
  function Accept(c: Cluster, commands: seq<Command>): Cluster {
    if commands <= c.scheduled then c
    else if c.scheduled <= commands then c.(scheduled := commands)
    else c.(diverged := true)
  }

  function Act(inp: ConvertInput, c: Cluster, a: Action): Cluster {
    match a
    case Record(e) => c.(history := c.history + [e])
    case Restart => Accept(c.(worker := Up(Start(inp), 0)), Start(inp).commands)
    case Work =>
      if c.worker.Up? && c.worker.seen < |c.history| then
        var run := Step(inp, c.worker.run, c.history[c.worker.seen]);
        Accept(c.(worker := Up(run, c.worker.seen + 1)), run.commands)
      else c
    case Crash => c.(worker := Down)
  }

  function Exec(inp: ConvertInput, c: Cluster, acts: seq<Action>): Cluster
    decreases |acts|
  {
    if acts == [] then c else Exec(inp, Act(inp, c, acts[0]), acts[1..])
  }

  const STARTED := Cluster([], [], Down, false)

  lemma {:induction false} CommandsGrow(inp: ConvertInput, s: Run, h: seq<Event>)
    ensures s.commands <= Apply(inp, s, h).commands
    decreases |h|
  {
    if h != [] {
      var issued := StepIssues(inp, s, h[0]);
      CommandsGrow(inp, Step(inp, s, h[0]), h[1..]);
    }
  }

  lemma PrefixCommands(inp: ConvertInput, h: seq<Event>, m: nat, n: nat)
    requires m <= n <= |h|
    ensures Reach(inp, h[..m]).commands <= Reach(inp, h[..n]).commands
  {
    assert h[..n] == h[..m] + h[m..n];
    ApplyConcat(inp, Start(inp), h[..m], h[m..n]);
    CommandsGrow(inp, Reach(inp, h[..m]), h[m..n]);
  }

  /** The commands are those of the run after the first `m` events. */
  ghost predicate ScheduledAt(inp: ConvertInput, c: Cluster, m: nat) {
    m <= |c.history| && c.scheduled == Reach(inp, c.history[..m]).commands
  }

  ghost predicate Inv(inp: ConvertInput, c: Cluster) {
    && !c.diverged
    && (c.scheduled == [] || exists m: nat :: ScheduledAt(inp, c, m))
    && (c.worker.Up? ==>
          && c.worker.seen <= |c.history|
          && c.worker.run == Reach(inp, c.history[..c.worker.seen])
          && c.worker.run.commands <= c.scheduled)
  }

  lemma AcceptInv(inp: ConvertInput, c: Cluster, n: nat)
    requires !c.diverged && (c.scheduled == [] || exists m: nat :: ScheduledAt(inp, c, m))
    requires n <= |c.history| && c.worker == Up(Reach(inp, c.history[..n]), n)
    ensures Inv(inp, Accept(c, c.worker.run.commands))
  {
    var c' := Accept(c, c.worker.run.commands);
    if c.scheduled == [] {
      assert ScheduledAt(inp, c', n) || c'.scheduled == [];
    } else {
      var m: nat :| ScheduledAt(inp, c, m);
      PrefixCommands(inp, c.history, if m <= n then m else n, if m <= n then n else m);
      assert if m <= n then ScheduledAt(inp, c', n) else ScheduledAt(inp, c', m);
    }
  }

  lemma ActInv(inp: ConvertInput, c: Cluster, a: Action)
    requires Inv(inp, c)
    ensures Inv(inp, Act(inp, c, a))
  {
    var c' := Act(inp, c, a);
    match a
    case Record(e) =>
      assert forall m | 0 <= m <= |c.history| :: c'.history[..m] == c.history[..m];
      if c.scheduled != [] {
        var m: nat :| ScheduledAt(inp, c, m);
        assert ScheduledAt(inp, c', m);
      }
    case Restart =>
      assert c.history[..0] == [];
      var restarted := c.(worker := Up(Start(inp), 0));
      assert forall m: nat :: ScheduledAt(inp, c, m) ==> ScheduledAt(inp, restarted, m);
      AcceptInv(inp, restarted, 0);
    case Work =>
      if c.worker.Up? && c.worker.seen < |c.history| {
        ReachStep(inp, c.history, c.worker.seen);
        var next := c.(worker := Up(Reach(inp, c.history[..c.worker.seen + 1]), c.worker.seen + 1));
        assert forall m: nat :: ScheduledAt(inp, c, m) ==> ScheduledAt(inp, next, m);
        AcceptInv(inp, next, c.worker.seen + 1);
      }
    case Crash =>
      assert forall m: nat :: ScheduledAt(inp, c, m) ==> ScheduledAt(inp, c', m);
  }

  lemma {:induction false} ExecInv(inp: ConvertInput, c: Cluster, acts: seq<Action>)
    requires Inv(inp, c)
    ensures Inv(inp, Exec(inp, c, acts))
    decreases |acts|
  {
    if acts != [] {
      ActInv(inp, c, acts[0]);
      ExecInv(inp, Act(inp, c, acts[0]), acts[1..]);
    }
  }

  /** Resume, don't resubmit: however crashes, restarts and recording interleave, no
      replay diverges; a worker that has caught up is in the state of an uninterrupted
      run, with just that run's commands scheduled; and at no time are more submits
      scheduled than that run makes: one, and one for each poll that lost a task. */
  lemma ResumeDontResubmit(inp: ConvertInput, acts: seq<Action>)
    ensures var c := Exec(inp, STARTED, acts);
            && !c.diverged
            && c.scheduled <= Reach(inp, c.history).commands
            && (c.worker.Up? && c.worker.seen == |c.history| ==>
                  c.worker.run == Reach(inp, c.history) && c.scheduled == Reach(inp, c.history).commands)
            && Submits(c.scheduled) <= 1 + LostPolls(inp, Start(inp), c.history)
  {
    ExecInv(inp, STARTED, acts);
    var c := Exec(inp, STARTED, acts);
    var n := |c.history|;
    assert c.history[..n] == c.history;
    if c.scheduled != [] {
      var m: nat :| ScheduledAt(inp, c, m);
      PrefixCommands(inp, c.history, m, n);
    }
    var all := Reach(inp, c.history).commands;
    assert all == c.scheduled + all[|c.scheduled|..];
    CountsConcat(c.scheduled, all[|c.scheduled|..]);
    SubmissionsAreLostPolls(inp, c.history);
    Counters(inp, c.history);
  }

  /** What was scheduled stays scheduled: no crash or replay takes a command back, or puts
      another in its place. */
  lemma {:induction false} ScheduledOnlyGrows(inp: ConvertInput, c: Cluster, acts: seq<Action>)
    requires Inv(inp, c)
    ensures c.scheduled <= Exec(inp, c, acts).scheduled && c.history <= Exec(inp, c, acts).history
    decreases |acts|
  {
    if acts != [] {
      ActInv(inp, c, acts[0]);
      ScheduledOnlyGrows(inp, Act(inp, c, acts[0]), acts[1..]);
    }
  }
}
