/** One document's conversion as a whole: docling-serve, its callbacks through the
    relay, the output store, and the run's history. */
module ConversionSystem {
  import opened Models
  import opened ConversionProtocol
  import opened RunCounting
  import opened NonInterference
  import opened RunVerdicts
  import opened RunCommands
  import Activities
  import Naming
  import Outputs
  import Relay
  import SortedGroups
  import Strings

  /** A callback docling still tries to deliver. */
  datatype Callback = Callback(req: Relay.Request, left: nat)

  /** `accepted`: every task id docling handed out; `ended`: the terminal statuses it
      recorded, `results`: the counts in their results, `expired`: the results gone since;
      `known`: the tasks it still answers for; `store`: the output bucket's keys. */
  datatype System = System(
    accepted: set<TaskId>,
    ended: map<TaskId, TaskStatus>,
    results: map<TaskId, Activities.ResultBody>,
    expired: set<TaskId>,
    known: set<TaskId>,
    callbacks: seq<Callback>,
    history: seq<Event>,
    store: set<string>)

  datatype Config = Config(inp: ConvertInput, token: string, outputBucket: string, outputPrefix: string)

  datatype Action =
    | Accept(taskId: TaskId)
    | SubmitEnds(posts: seq<Activities.Response<TaskId>>)
    | Finish(taskId: TaskId, status: TaskStatus, message: Option<string>, token: string, counts: Activities.ResultBody)
    | Forget(taskId: TaskId)
    | Expire(taskId: TaskId)
    | DeliverCallback(i: nat, temporal: Relay.SignalResult, recorded: bool)
    | Fire
    | PollReturns(responses: seq<Activities.Response<Activities.StatusBody>>)
    | FetchEnds(gets: seq<Activities.Response<Activities.ResultBody>>)
    | OutputsReturn(pages: seq<seq<string>>, outputs: map<string, seq<string>>)
    | CollectFails(error: ActivityError)
    | Write(key: string)

  function RunOf(c: Config, s: System): Run {
    Reach(c.inp, s.history)
  }

  function Prefix(c: Config): string {
    Naming.ConvertOutputPrefix(c.outputPrefix, c.inp.bucket, c.inp.key)
  }

  function StatusText(status: TaskStatus): string {
    if status == Success then "success" else "failure"
  }

  /** docling's answer to a status request, if any: a terminal status is the one it
      recorded, "in progress" may be out of date, and a 404 means it has forgotten. */
  ghost predicate Honest(s: System, t: TaskId, r: Activities.Response<Activities.StatusBody>) {
    r.Answer? ==>
      && (r.code == 404 ==> t !in s.known)
      && (r.body.Some? && TerminalStatus(r.body.value.taskStatus).Some? ==>
            t in s.ended && s.ended[t] == TerminalStatus(r.body.value.taskStatus).value)
  }

  /** docling's answer to a result request, if any: the counts it recorded, and a 404 only
      for a result that is gone. */
  ghost predicate HonestResult(s: System, t: TaskId, r: Activities.Response<Activities.ResultBody>) {
    r.Answer? ==>
      && (r.code == 404 ==> t in s.expired)
      && (!Activities.IsError(r.code) && r.body.Some? ==> t in s.results && r.body.value == s.results[t])
  }

  /** Counts are missing or not negative. */
  predicate Countable(counts: Activities.ResultBody) {
    && (counts.numSucceeded.Some? ==> counts.numSucceeded.value >= 0)
    && (counts.numPartiallySucceeded.Some? ==> counts.numPartiallySucceeded.value >= 0)
  }

  /** The command the run waits on. */
  function Outstanding(run: Run): Option<Command> {
    if run.commands == [] then None else Some(run.commands[|run.commands| - 1])
  }

  /** The prefix the run asked to be listed. */
  function AskedPrefix(c: Config, s: System): string
    requires Outstanding(RunOf(c, s)).Some? && Outstanding(RunOf(c, s)).value.CollectOutputs?
  {
    var command := Outstanding(RunOf(c, s)).value;
    Naming.ConvertOutputPrefix(c.outputPrefix, command.bucket, command.key)
  }

  /** The listing S3 gives for the prefix the run asked for, and how it was grouped. */
  ghost predicate Listed(c: Config, s: System, pages: seq<seq<string>>, outputs: map<string, seq<string>>) {
    && Outstanding(RunOf(c, s)).Some? && Outstanding(RunOf(c, s)).value.CollectOutputs?
    && (forall k :: (exists page :: page in pages && k in page) <==>
          k in s.store && Strings.StartsWith(k, AskedPrefix(c, s)))
    && Outputs.ByFormat(outputs, multiset(Outputs.Flatten(pages)))
  }

  /** The command submits the document itself: only then docling converts it. */
  predicate AsksForDocument(c: Config, command: Option<Command>) {
    command.Some? && command.value.Submit? && command.value.input.bucket == c.inp.bucket &&
    command.value.input.key == c.inp.key
  }

  ghost predicate Enabled(c: Config, s: System, a: Action) {
    match a
    case Accept(t) => t !in s.accepted
    case SubmitEnds(responses) =>
      RunOf(c, s).phase.Submitting? && AsksForDocument(c, Outstanding(RunOf(c, s))) &&
      Activities.SubmitEnds(responses).Some? &&
      (forall r | r in responses && r.Answer? && !Activities.IsError(r.code) && r.body.Some? ::
         r.body.value in s.accepted && r.body.value !in SubmittedIds(s.history))
    case Finish(t, _, _, _, counts) => t in s.accepted && t !in s.ended && Countable(counts)
    case Forget(_) => true
    case Expire(_) => true
    case DeliverCallback(i, temporal, recorded) =>
      i < |s.callbacks| && s.callbacks[i].left > 0 &&
      Relay.Plausible(Relay.Try(temporal, recorded, [])) &&
      (recorded ==> !RunOf(c, s).phase.Closed?)
    case Fire => RunOf(c, s).phase.Sleeping?
    case PollReturns(responses) =>
      RunOf(c, s).phase.Checking? &&
      forall r | r in responses :: Honest(s, RunOf(c, s).phase.taskId, r)
    case FetchEnds(responses) =>
      RunOf(c, s).phase.Fetching? && Activities.FetchEnds(RunOf(c, s).phase.taskId, responses).Some? &&
      forall r | r in responses :: HonestResult(s, RunOf(c, s).phase.taskId, r)
    case OutputsReturn(pages, outputs) => RunOf(c, s).phase.Collecting? && Listed(c, s, pages, outputs)
    case CollectFails(_) => RunOf(c, s).phase.Collecting?
    case Write(_) => true
  }

  /** The relay's part: a recorded signal of the callback, if it sends one. */
  function Relayed(c: Config, cb: Callback, recorded: bool): seq<Event> {
    if Relay.Authorized(c.token, cb.req) && Relay.Terminal(cb.req) && recorded then [Signal(Relay.EventOf(cb.req))]
    else []
  }

  function Record(s: System, e: Event): System {
    s.(history := s.history + [e])
  }

  function SubmitEvent(end: Activities.Attempt<TaskId>): Event {
    match end
    case Done(t) => Submitted(t)
    case Raise(error, _) => ActivityFailed(error)
  }

  function FetchEvent(end: Activities.Attempt<TaskOutcome>): Event {
    match end
    case Done(o) => OutcomeFetched(o)
    case Raise(error, _) => ActivityFailed(error)
  }

  /** The effect of an enabled action. */
  function Effect(c: Config, s: System, a: Action): System
    requires a.DeliverCallback? ==> a.i < |s.callbacks| && s.callbacks[a.i].left > 0
    requires a.PollReturns? ==> RunOf(c, s).phase.Checking?
    requires a.SubmitEnds? ==> Activities.SubmitEnds(a.posts).Some?
    requires a.FetchEnds? ==>
      RunOf(c, s).phase.Fetching? && Activities.FetchEnds(RunOf(c, s).phase.taskId, a.gets).Some?
  {
    match a
    case Accept(t) => s.(accepted := s.accepted + {t}, known := s.known + {t})
    case SubmitEnds(responses) => Record(s, SubmitEvent(Activities.SubmitEnds(responses).value))
    case Finish(t, status, message, token, counts) =>
      var body := Relay.Progress(t, Relay.KIND_TASK_COMPLETED, StatusText(status), message);
      var req := Relay.Request(Naming.WorkflowId(c.inp.bucket, c.inp.key), token, body);
      s.(ended := s.ended[t := status], results := s.results[t := counts],
         callbacks := s.callbacks + [Callback(req, Relay.DELIVERY_ATTEMPTS)])
    case Forget(t) => s.(known := s.known - {t})
    case Expire(t) => s.(expired := s.expired + {t})
    case DeliverCallback(i, temporal, recorded) =>
      var cb := s.callbacks[i];
      var left := if Relay.StatusFor(c.token, cb.req, temporal) == Relay.OK then 0 else cb.left - 1;
      s.(history := s.history + Relayed(c, cb, recorded), callbacks := s.callbacks[i := cb.(left := left)])
    case Fire => Record(s, TimerFired)
    case PollReturns(responses) =>
      var (answer, attempts) := Activities.Poll(RunOf(c, s).phase.taskId, responses);
      Record(s, Checked(answer, attempts))
    case FetchEnds(responses) =>
      Record(s, FetchEvent(Activities.FetchEnds(RunOf(c, s).phase.taskId, responses).value))
    case OutputsReturn(_, outputs) => Record(s, OutputsCollected(CollectedOutputs(c.outputBucket, outputs)))
    case CollectFails(error) => Record(s, ActivityFailed(error))
    case Write(k) => s.(store := s.store + {k})
  }

  ghost function Exec(c: Config, s: System, acts: seq<Action>): System
    decreases |acts|
  {
    if acts == [] then s
    else Exec(c, if Enabled(c, s, acts[0]) then Effect(c, s, acts[0]) else s, acts[1..])
  }

  const IDLE := System({}, map[], map[], {}, {}, [], [], {})

  /** The task polled at event `i` is one docling knew and has forgotten. */
  ghost predicate ForgottenAt(c: Config, s: System, h: seq<Event>, i: nat)
    requires i < |h|
  {
    var p := Reach(c.inp, h[..i]).phase;
    p.Checking? && p.taskId in s.accepted && p.taskId !in s.known
  }

  /** The counts are docling's for the task, or its result is gone and they are none. */
  ghost predicate TrueCounts(s: System, t: TaskId, o: TaskOutcome) {
    (o == TaskOutcome(t, None, None, None) && t in s.expired) ||
    (t in s.results && o == Activities.CountsOf(t, s.results[t]))
  }

  /** The event tells the truth about its task, and was recorded for a reason. */
  ghost predicate TrueAt(c: Config, s: System, h: seq<Event>, i: nat)
    requires i < |h|
  {
    match h[i]
    case Signal(event) => event.taskId in s.ended && s.ended[event.taskId] == event.taskStatus
    case Submitted(t) => t in s.accepted && t !in SubmittedIds(h[..i])
    case Checked(answer, attempts) =>
      && attempts <= MAX_CHECK_ATTEMPTS
      && (answer.Reported? && answer.completed.Some? ==>
            && Reach(c.inp, h[..i]).phase == Checking(answer.completed.value.taskId)
            && answer.completed.value.taskId in s.ended
            && s.ended[answer.completed.value.taskId] == answer.completed.value.taskStatus)
      && (answer == Raised(Application(TaskLost)) ==> ForgottenAt(c, s, h, i))
    case OutcomeFetched(o) =>
      var p := Reach(c.inp, h[..i]).phase;
      p.Fetching? ==> TrueCounts(s, p.taskId, o)
    case ActivityFailed(error) =>
      var p := Reach(c.inp, h[..i]).phase;
      p.Submitting? || p.Fetching? ==> error == Application(SubmitRejected)
    case OutputsCollected(collected) =>
      && collected.bucket == c.outputBucket
      && (forall f | f in collected.outputs :: collected.outputs[f] != [])
      && (forall f, k | f in collected.outputs && k in collected.outputs[f] ::
            Outputs.FormatOf(k) == f && Strings.StartsWith(k, Prefix(c)))
    case _ => true
  }

  /** The callback carries the status docling recorded for its task. */
  ghost predicate TrueCallback(s: System, cb: Callback) {
    var body := cb.req.body;
    body.Progress? && body.taskId in s.ended && TerminalStatus(body.taskStatus) == Some(s.ended[body.taskId])
  }

  ghost predicate SysInv(c: Config, s: System) {
    && s.ended.Keys <= s.accepted
    && s.results.Keys == s.ended.Keys && (forall t | t in s.results :: Countable(s.results[t]))
    && s.known <= s.accepted
    && (forall i | 0 <= i < |s.callbacks| :: TrueCallback(s, s.callbacks[i]))
    && (forall i | 0 <= i < |s.history| :: TrueAt(c, s, s.history, i))
  }

  /** What is true of a prefix stays true when the history grows. */
  lemma HistoryGrows(c: Config, s: System, s': System, more: seq<Event>)
    requires s'.history == s.history + more
    requires s'.accepted >= s.accepted && s'.known * s.accepted <= s.known
    requires forall t | t in s.ended :: t in s'.ended && s'.ended[t] == s.ended[t]
    requires forall t | t in s.results :: t in s'.results && s'.results[t] == s.results[t]
    requires s.expired <= s'.expired
    requires forall i | 0 <= i < |s.history| :: TrueAt(c, s, s.history, i)
    ensures forall i | 0 <= i < |s.history| :: TrueAt(c, s', s'.history, i)
  {
    forall i | 0 <= i < |s.history| ensures TrueAt(c, s', s'.history, i) {
      assert TrueAt(c, s, s.history, i);
      assert s'.history[..i] == s.history[..i];
    }
  }

  lemma RecordInv(c: Config, s: System, e: Event)
    requires SysInv(c, s)
    requires TrueAt(c, s, s.history + [e], |s.history|)
    ensures SysInv(c, Record(s, e))
  {
    HistoryGrows(c, s, Record(s, e), [e]);
  }

  lemma AwaitedWasAccepted(c: Config, s: System)
    requires SysInv(c, s) && TaskOf(RunOf(c, s)).Some?
    ensures TaskOf(RunOf(c, s)).value in s.accepted
  {
    var t := TaskOf(RunOf(c, s)).value;
    TaskWasSubmittedLast(c.inp, s.history, t);
    var i: nat :| LastSubmitAt(c.inp, s.history, i, t);
    assert TrueAt(c, s, s.history, i);
  }

  lemma PollIsTrue(c: Config, s: System, responses: seq<Activities.Response<Activities.StatusBody>>)
    requires SysInv(c, s) && RunOf(c, s).phase.Checking?
    requires forall r | r in responses :: Honest(s, RunOf(c, s).phase.taskId, r)
    ensures var (answer, attempts) := Activities.Poll(RunOf(c, s).phase.taskId, responses);
            TrueAt(c, s, s.history + [Checked(answer, attempts)], |s.history|)
  {
    var t := RunOf(c, s).phase.taskId;
    var (answer, attempts) := Activities.Poll(t, responses);
    Activities.PollDecides(t, responses);
    AwaitedWasAccepted(c, s);
    assert (s.history + [Checked(answer, attempts)])[..|s.history|] == s.history;
    var last := Activities.ResponseAt(responses, attempts - 1);
    if last.Answer? {
      assert last in responses;
      assert Honest(s, t, last);
    }
  }

  /** What the run asks for is never in the way of what docling and S3 answer. */
  lemma AsksInScope(c: Config, s: System)
    ensures RunOf(c, s).phase.Submitting? ==> AsksForDocument(c, Outstanding(RunOf(c, s)))
    ensures RunOf(c, s).phase.Collecting? ==>
              Outstanding(RunOf(c, s)) == Some(CollectOutputs(c.inp.bucket, c.inp.key)) &&
              AskedPrefix(c, s) == Prefix(c)
  {
    CommandsAreOwn(c.inp, s.history);
    var run := RunOf(c, s);
    if run.phase.Submitting? {
      assert run.commands[|run.commands| - 1] in run.commands;
    }
  }

  lemma CollectedUnder(pages: seq<seq<string>>, outputs: map<string, seq<string>>, prefix: string)
    requires Outputs.ByFormat(outputs, multiset(Outputs.Flatten(pages)))
    requires forall page, k | page in pages && k in page :: Strings.StartsWith(k, prefix)
    ensures forall f | f in outputs :: outputs[f] != []
    ensures forall f, k | f in outputs && k in outputs[f] ::
              Outputs.FormatOf(k) == f && Strings.StartsWith(k, prefix)
  {
    Outputs.CollectedAsListed(pages, outputs);
    forall f, k | f in outputs && k in outputs[f]
      ensures Outputs.FormatOf(k) == f && Strings.StartsWith(k, prefix)
    {
      assert multiset(outputs[f])[k] > 0 && Outputs.InOutputs(outputs, k) > 0;
      Outputs.OccursOnPage(pages, k);
    }
  }

  lemma ListingIsTrue(c: Config, s: System, pages: seq<seq<string>>, outputs: map<string, seq<string>>)
    requires RunOf(c, s).phase.Collecting? && Listed(c, s, pages, outputs)
    ensures AskedPrefix(c, s) == Prefix(c)
    ensures TrueAt(c, s, s.history + [OutputsCollected(CollectedOutputs(c.outputBucket, outputs))], |s.history|)
  {
    AsksInScope(c, s);
    CollectedUnder(pages, outputs, Prefix(c));
  }

  /** An enabled listing holds json exactly if some ".json" key lies under the prefix. */
  lemma JsonIsListed(c: Config, s: System, pages: seq<seq<string>>, outputs: map<string, seq<string>>)
    requires RunOf(c, s).phase.Collecting? && Listed(c, s, pages, outputs)
    ensures "json" in outputs <==>
            exists k :: k in s.store && Strings.StartsWith(k, Prefix(c)) && Strings.EndsWith(k, ".json")
  {
    ListingIsTrue(c, s, pages, outputs);
    Outputs.JsonCollected(pages, outputs);
    if k :| k in s.store && Strings.StartsWith(k, Prefix(c)) && Strings.EndsWith(k, ".json") {
      assert exists page :: page in pages && k in page;
    }
  }

  lemma SubmitIsTrue(c: Config, s: System, posts: seq<Activities.Response<TaskId>>)
    requires SysInv(c, s) && Enabled(c, s, SubmitEnds(posts))
    ensures SysInv(c, Effect(c, s, SubmitEnds(posts)))
  {
    Activities.SubmitEndsRejected(posts);
    var e := SubmitEvent(Activities.SubmitEnds(posts).value);
    assert (s.history + [e])[..|s.history|] == s.history;
    RecordInv(c, s, e);
  }

  lemma FetchIsTrue(c: Config, s: System, gets: seq<Activities.Response<Activities.ResultBody>>)
    requires SysInv(c, s) && Enabled(c, s, FetchEnds(gets))
    ensures SysInv(c, Effect(c, s, FetchEnds(gets)))
  {
    var t := RunOf(c, s).phase.taskId;
    Activities.FetchEndsTruly(t, gets);
    var e := FetchEvent(Activities.FetchEnds(t, gets).value);
    assert (s.history + [e])[..|s.history|] == s.history;
    RecordInv(c, s, e);
  }

  /** docling and its store act without the run. */
  predicate Outside(a: Action) {
    a.Accept? || a.Finish? || a.Forget? || a.Expire? || a.Write?
  }

  lemma OutsideInv(c: Config, s: System, a: Action)
    requires SysInv(c, s) && Enabled(c, s, a) && Outside(a)
    ensures SysInv(c, Effect(c, s, a))
  {
    var s' := Effect(c, s, a);
    HistoryGrows(c, s, s', []);
    forall i | 0 <= i < |s'.callbacks| ensures TrueCallback(s', s'.callbacks[i]) {
      assert i < |s.callbacks| ==> TrueCallback(s, s.callbacks[i]);
    }
  }

  lemma DeliveryInv(c: Config, s: System, a: Action)
    requires SysInv(c, s) && Enabled(c, s, a) && a.DeliverCallback?
    ensures SysInv(c, Effect(c, s, a))
  {
    var cb := s.callbacks[a.i];
    assert TrueCallback(s, cb);
    HistoryGrows(c, s, Effect(c, s, a), Relayed(c, cb, a.recorded));
  }

  lemma ActInv(c: Config, s: System, a: Action)
    requires SysInv(c, s) && Enabled(c, s, a)
    ensures SysInv(c, Effect(c, s, a))
  {
    if Outside(a) {
      OutsideInv(c, s, a);
    } else if a.DeliverCallback? {
      DeliveryInv(c, s, a);
    } else if a.SubmitEnds? {
      SubmitIsTrue(c, s, a.posts);
    } else if a.FetchEnds? {
      FetchIsTrue(c, s, a.gets);
    } else if a.PollReturns? {
      PollIsTrue(c, s, a.responses);
      var (answer, attempts) := Activities.Poll(RunOf(c, s).phase.taskId, a.responses);
      RecordInv(c, s, Checked(answer, attempts));
    } else if a.OutputsReturn? {
      ListingIsTrue(c, s, a.pages, a.outputs);
      RecordInv(c, s, OutputsCollected(CollectedOutputs(c.outputBucket, a.outputs)));
    } else {
      var e := if a.CollectFails? then ActivityFailed(a.error) else TimerFired;
      assert (s.history + [e])[..|s.history|] == s.history;
      RecordInv(c, s, e);
    }
  }

  lemma {:induction false} ExecInv(c: Config, s: System, acts: seq<Action>)
    requires SysInv(c, s)
    ensures SysInv(c, Exec(c, s, acts))
    decreases |acts|
  {
    if acts != [] {
      if Enabled(c, s, acts[0]) {
        ActInv(c, s, acts[0]);
        ExecInv(c, Effect(c, s, acts[0]), acts[1..]);
      } else {
        ExecInv(c, s, acts[1..]);
      }
    }
  }

  lemma HistoryIsFaithful(c: Config, s: System)
    requires SysInv(c, s)
    ensures Faithful(c.inp, s.history, s.ended)
  {
    forall i: nat, t, status | ReportsAt(c.inp, s.history, i, t, status)
      ensures t in s.ended && s.ended[t] == status
    {
      assert TrueAt(c, s, s.history, i);
    }
  }

  /** Path independence over whole systems: whatever docling does, however callbacks are
      lost, delayed, repeated or relayed, in every reachable state each callback in
      flight, each recorded completion and the verdict the run has taken carry the one
      status docling recorded for that task. */
  lemma EveryPathTellsTheSame(c: Config, acts: seq<Action>)
    ensures var s := Exec(c, IDLE, acts);
            var run := RunOf(c, s);
            && (forall i | 0 <= i < |s.callbacks| :: TrueCallback(s, s.callbacks[i]))
            && (forall t | t in run.completed :: t in s.ended && s.ended[t] == run.completed[t].taskStatus)
            && (Concluded(run).Some? ==>
                  Concluded(run).value.0 in s.ended && s.ended[Concluded(run).value.0] == Concluded(run).value.1)
  {
    ExecInv(c, IDLE, acts);
    var s := Exec(c, IDLE, acts);
    var run := RunOf(c, s);
    HistoryIsFaithful(c, s);
    forall t | t in run.completed ensures t in s.ended && s.ended[t] == run.completed[t].taskStatus {
      CompletionsAreSignals(c.inp, s.history, t);
      var i: nat :| i < |s.history| && s.history[i] == Signal(run.completed[t]);
      assert TrueAt(c, s, s.history, i);
    }
    if Concluded(run).Some? {
      ConclusionWasReported(c.inp, s.history, Concluded(run).value.0, Concluded(run).value.1);
    }
  }

  /** The outputs are this document's, each filed under its format, json among them. */
  ghost predicate OutputsAreOwn(c: Config, outputs: map<string, seq<string>>) {
    && REQUIRED_FORMAT in outputs && outputs[REQUIRED_FORMAT] != []
    && (forall k | k in outputs[REQUIRED_FORMAT] :: Strings.EndsWith(k, ".json"))
    && (forall f, k | f in outputs && k in outputs[f] ::
          Outputs.FormatOf(k) == f && Strings.StartsWith(k, Prefix(c)))
  }

  lemma JsonFiledIsJson(keys: seq<string>)
    requires forall k | k in keys :: Outputs.FormatOf(k) == REQUIRED_FORMAT
    ensures forall k | k in keys :: Strings.EndsWith(k, ".json")
  {
    forall k | k in keys ensures Strings.EndsWith(k, ".json") {
      Outputs.ExactClasses(k, 2);
    }
  }

  lemma CollectedIsTrue(c: Config, s: System, r: ConvertResult)
    requires SysInv(c, s) && RunOf(c, s).phase == Closed(Returned(r))
    ensures r.outputBucket == c.outputBucket && OutputsAreOwn(c, r.outputs)
  {
    ResultWasCollected(c.inp, s.history, r);
    var i: nat :| CollectedAt(c.inp, s.history, i, r);
    assert TrueAt(c, s, s.history, i);
    JsonFiledIsJson(r.outputs[REQUIRED_FORMAT]);
  }

  /** The result says that something was converted, or does not count. */
  predicate Converts(counts: Activities.ResultBody) {
    || counts.numSucceeded.None?
    || counts.numSucceeded.value > 0
    || (counts.numPartiallySucceeded.Some? && counts.numPartiallySucceeded.value > 0)
  }

  lemma AcceptedCountsAreTrue(c: Config, s: System, t: TaskId, i: nat)
    requires SysInv(c, s) && CountsAcceptedAt(c.inp, s.history, i, t)
    ensures t in s.expired || (t in s.results && Converts(s.results[t]))
  {
    assert TrueAt(c, s, s.history, i);
    assert TrueCounts(s, t, s.history[i].outcome);
    assert t in s.results ==> Countable(s.results[t]);
  }

  lemma SuccessIsTrue(c: Config, s: System, r: ConvertResult)
    requires SysInv(c, s) && RunOf(c, s).phase == Closed(Returned(r))
    ensures r.taskId in s.ended && s.ended[r.taskId] == Success
    ensures r.taskId in s.expired || (r.taskId in s.results && Converts(s.results[r.taskId]))
  {
    HistoryIsFaithful(c, s);
    ConclusionWasReported(c.inp, s.history, r.taskId, Success);
    ResultIsSound(c.inp, s.history, r);
    var i: nat :| CountsAcceptedAt(c.inp, s.history, i, r.taskId);
    AcceptedCountsAreTrue(c, s, r.taskId, i);
  }

  /** Soundness of a returned result over whole systems: docling recorded a success for
      its task, and counts that say something was converted or that are missing, unless its
      result has expired; the json list is not empty and holds only ".json" keys, and every
      key listed is filed under its format and lies under this document's output prefix. */
  lemma ReturnedResultIsSound(c: Config, acts: seq<Action>, r: ConvertResult)
    requires RunOf(c, Exec(c, IDLE, acts)).phase == Closed(Returned(r))
    ensures var s := Exec(c, IDLE, acts);
            && r.taskId in s.ended && s.ended[r.taskId] == Success
            && (r.taskId in s.expired || (r.taskId in s.results && Converts(s.results[r.taskId])))
    ensures r.outputBucket == c.outputBucket && OutputsAreOwn(c, r.outputs)
  {
    ExecInv(c, IDLE, acts);
    var s := Exec(c, IDLE, acts);
    SuccessIsTrue(c, s, r);
    CollectedIsTrue(c, s, r);
  }

  /** Results of two documents list a common key only if their prefixes overlap: one is the
      other, or lies in the other's "convert" directory. */
  lemma ResultsShareOnlyOverlaps(
    c: Config, acts: seq<Action>, r: ConvertResult, c': Config, acts': seq<Action>, r': ConvertResult, f: string,
    f': string, key: string)
    requires '/' !in c.inp.bucket && '/' !in c'.inp.bucket && c.outputPrefix == c'.outputPrefix
    requires RunOf(c, Exec(c, IDLE, acts)).phase == Closed(Returned(r))
    requires RunOf(c', Exec(c', IDLE, acts')).phase == Closed(Returned(r'))
    requires f in r.outputs && key in r.outputs[f] && f' in r'.outputs && key in r'.outputs[f']
    ensures Naming.Overlapping(c.inp.bucket, c.inp.key, c'.inp.bucket, c'.inp.key) && f == f'
  {
    ReturnedResultIsSound(c, acts, r);
    ReturnedResultIsSound(c', acts', r');
    assert Strings.StartsWith(key, Prefix(c)) && Strings.StartsWith(key, Prefix(c'));
    Naming.ListingsDisjoint(c.outputPrefix, c.inp.bucket, c.inp.key, c'.inp.bucket, c'.inp.key);
  }

  /** The run failed for lack of json. */
  predicate LacksJson(run: Run) {
    run.phase.Closed? && run.phase.outcome.Failed? && run.phase.outcome.failure.NoRequiredOutput?
  }

  /** A listing decides: the run returns exactly if some ".json" key lies under the document's
      prefix, whatever else does, and otherwise fails for lack of it. */
  lemma ListingDecides(c: Config, s: System, pages: seq<seq<string>>, outputs: map<string, seq<string>>)
    requires Enabled(c, s, OutputsReturn(pages, outputs))
    ensures var run := RunOf(c, Effect(c, s, OutputsReturn(pages, outputs)));
            && run.phase.Closed?
            && (run.phase.outcome.Returned? <==>
                  exists k :: k in s.store && Strings.StartsWith(k, Prefix(c)) && Strings.EndsWith(k, ".json"))
            && (LacksJson(run) <==> !run.phase.outcome.Returned?)
  {
    JsonIsListed(c, s, pages, outputs);
    ReachNext(c.inp, s.history, OutputsCollected(CollectedOutputs(c.outputBucket, outputs)));
  }

  /** Only a listing fails a run for lack of json. */
  lemma OtherActions(c: Config, s: System, a: Action)
    requires Enabled(c, s, a) && !a.OutputsReturn? && LacksJson(RunOf(c, Effect(c, s, a)))
    ensures LacksJson(RunOf(c, s))
  {
    var s' := Effect(c, s, a);
    if s'.history != s.history {
      assert |s'.history| == |s.history| + 1 && s'.history == s.history + [s'.history[|s.history|]];
      ReachNext(c.inp, s.history, s'.history[|s.history|]);
    }
  }

  lemma {:induction false} ExecConcat(c: Config, s: System, a: seq<Action>, b: seq<Action>)
    ensures Exec(c, s, a + b) == Exec(c, Exec(c, s, a), b)
    decreases |a|
  {
    if a == [] {
      assert a + b == b;
    } else {
      assert (a + b)[1..] == a[1..] + b;
      ExecConcat(c, if Enabled(c, s, a[0]) then Effect(c, s, a[0]) else s, a[1..], b);
    }
  }

  lemma ExecNext(c: Config, acts: seq<Action>, a: Action)
    ensures Exec(c, IDLE, acts + [a]) ==
            var s := Exec(c, IDLE, acts); if Enabled(c, s, a) then Effect(c, s, a) else s
  {
    ExecConcat(c, IDLE, acts, [a]);
    assert [a][1..] == [];
  }

  /** Action `n` listed the prefix when no ".json" key lay under it. */
  ghost predicate ListedNoJsonAt(c: Config, acts: seq<Action>, n: nat) {
    && n < |acts| && acts[n].OutputsReturn?
    && var s := Exec(c, IDLE, acts[..n]);
    && Enabled(c, s, acts[n])
    && (forall k | k in s.store && Strings.StartsWith(k, Prefix(c)) :: !Strings.EndsWith(k, ".json"))
  }

  /** A run fails for lack of json only if, when its outputs were listed, no ".json" key lay
      under the document's prefix. */
  lemma {:induction false} LackedJson(c: Config, acts: seq<Action>)
    requires LacksJson(RunOf(c, Exec(c, IDLE, acts)))
    ensures exists n: nat :: ListedNoJsonAt(c, acts, n)
    decreases |acts|
  {
    assert acts != [];
    var n := |acts| - 1;
    var init, a := acts[..n], acts[n];
    assert acts == init + [a];
    var s := Exec(c, IDLE, init);
    ExecNext(c, init, a);
    if LacksJson(RunOf(c, s)) {
      LackedJson(c, init);
      var k: nat :| ListedNoJsonAt(c, init, k);
      assert init[..k] == acts[..k];
      assert ListedNoJsonAt(c, acts, k);
    } else {
      assert Enabled(c, s, a);
      if !a.OutputsReturn? {
        OtherActions(c, s, a);
      }
      ListingDecides(c, s, a.pages, a.outputs);
      assert ListedNoJsonAt(c, acts, n);
    }
  }

  /** A run ends with "converted nothing" only when docling's own counts for the task are
      there and add up to zero. */
  lemma NothingConvertedIsTrue(c: Config, acts: seq<Action>, t: TaskId, o: TaskOutcome)
    requires RunOf(c, Exec(c, IDLE, acts)).phase == Closed(Failed(NothingConverted(t, o)))
    ensures var s := Exec(c, IDLE, acts);
            && t in s.results && !Converts(s.results[t]) && o == Activities.CountsOf(t, s.results[t])
            && t in s.ended && s.ended[t] == Success
  {
    ExecInv(c, IDLE, acts);
    RefusalIsTrue(c, Exec(c, IDLE, acts), t, o);
  }

  lemma RefusalIsTrue(c: Config, s: System, t: TaskId, o: TaskOutcome)
    requires SysInv(c, s) && RunOf(c, s).phase == Closed(Failed(NothingConverted(t, o)))
    ensures t in s.results && !Converts(s.results[t]) && o == Activities.CountsOf(t, s.results[t])
    ensures t in s.ended && s.ended[t] == Success
  {
    CountsWereRefused(c.inp, s.history, t, o);
    var i: nat :| RefusedAt(c.inp, s.history, i, t, o);
    assert TrueAt(c, s, s.history, i);
    assert t in s.results ==> Countable(s.results[t]);
    HistoryIsFaithful(c, s);
    ConclusionWasReported(c.inp, s.history, t, Success);
  }

  /** A run fails in a submit, or in fetching a result, only as SubmitRejected, never as
      QueueFull or UpstreamError: what is worth retrying is retried. */
  lemma OnlyRejectionsFail(c: Config, acts: seq<Action>, error: ActivityError)
    requires RunOf(c, Exec(c, IDLE, acts)).phase == Closed(Failed(ActivityGaveUp(error)))
    ensures var s := Exec(c, IDLE, acts);
            error == Application(SubmitRejected) ||
            exists i: nat :: GaveUpAt(c.inp, s.history, i, error) && Reach(c.inp, s.history[..i]).phase.Collecting?
  {
    ExecInv(c, IDLE, acts);
    var s := Exec(c, IDLE, acts);
    ActivityFailedThen(c.inp, s.history, error);
    var i: nat :| GaveUpAt(c.inp, s.history, i, error);
    assert TrueAt(c, s, s.history, i);
  }

  /** A task is given up, and submitted again, only when docling has forgotten it: every
      poll in the history that lost its task asked about one docling no longer knows. */
  lemma OnlyForgottenTasksAreResubmitted(c: Config, acts: seq<Action>, i: nat)
    requires var s := Exec(c, IDLE, acts);
             i < |s.history| && LosesTask(Reach(c.inp, s.history[..i]), s.history[i])
    ensures var s := Exec(c, IDLE, acts);
            var t := Reach(c.inp, s.history[..i]).phase.taskId;
            t in s.accepted && t !in s.known
  {
    ExecInv(c, IDLE, acts);
    var s := Exec(c, IDLE, acts);
    assert TrueAt(c, s, s.history, i);
  }

  /** Polls of every reachable system keep to three attempts each. */
  lemma StatusRequestsBounded(c: Config, acts: seq<Action>)
    ensures var s := Exec(c, IDLE, acts);
            Attempts(c.inp, Start(c.inp), s.history) <= 3 * RunOf(c, s).safetyPolls
  {
    ExecInv(c, IDLE, acts);
    var s := Exec(c, IDLE, acts);
    forall e | e in s.history ensures e.Checked? ==> e.attempts <= MAX_CHECK_ATTEMPTS {
      var i :| 0 <= i < |s.history| && s.history[i] == e;
      assert TrueAt(c, s, s.history, i);
    }
    CheckAttempts(c.inp, s.history);
  }

  /** docling's ids being fresh, a late callback of a task that was submitted before and
      is not awaited any more changes nothing but the record of it: a lost task's callback
      never completes its replacement. */
  lemma LostTasksCallbackIsHarmless(
    c: Config, acts: seq<Action>, before: seq<Event>, event: TaskCompleted, after: seq<Event>)
    requires Exec(c, IDLE, acts).history == before + [Signal(event)] + after
    requires event.taskId in SubmittedIds(before)
    requires var s := Reach(c.inp, before);
             s.phase.Sleeping? || s.phase.Checking? ==> s.phase.taskId != event.taskId
    ensures var s := Reach(c.inp, before + [Signal(event)] + after);
            s == Reach(c.inp, before + after).(completed := s.completed)
  {
    ExecInv(c, IDLE, acts);
    var s := Exec(c, IDLE, acts);
    var h, n := s.history, |before| + 1;
    var i :| 0 <= i < |before| && before[i] == Submitted(event.taskId);
    forall j | 0 <= j < |after| ensures after[j] != Submitted(event.taskId) {
      assert h[n + j] == after[j] && h[..n + j][i] == before[i];
      assert TrueAt(c, s, h, n + j);
    }
    LateCallback(c.inp, before, event, after);
  }
}
