/** The activities' view of docling-serve (src/orchestration/activities.py): which
    answers are results, which are retried, and which fail for good. */
module Activities {
  import opened Models
  import opened ConversionProtocol

  /** One HTTP exchange; no body: not the JSON expected; NoAnswer: a transport error, or
      an attempt that ran into its start-to-close timeout. */
  datatype Response<+B> = Answer(code: int, body: Option<B>) | NoAnswer

  datatype StatusBody = StatusBody(taskStatus: string, errorMessage: Option<string>)

  datatype ResultBody =
    ResultBody(numSucceeded: Option<int>, numPartiallySucceeded: Option<int>, numFailed: Option<int>)

  /** How one attempt of an activity ends. */
  datatype Attempt<+R> = Done(value: R) | Raise(error: ActivityError, retryable: bool)

  predicate IsError(code: int) {
    400 <= code < 600
  }

  function UpstreamFailure<R>(code: int): Attempt<R> {
    if code == 429 then Raise(Application(QueueFull), true)
    else if code >= 500 then Raise(Application(UpstreamError), true)
    else Raise(Application(SubmitRejected), false)
  }

  function SubmitConversion(response: Response<TaskId>): Attempt<TaskId> {
    match response
    case NoAnswer => Raise(Other, true)
    case Answer(code, body) =>
      if IsError(code) then UpstreamFailure(code)
      else if body.None? then Raise(Other, true)
      else Done(body.value)
  }

  function CheckTask(t: TaskId, response: Response<StatusBody>): Attempt<Option<TaskCompleted>> {
    match response
    case NoAnswer => Raise(Other, true)
    case Answer(code, body) =>
      if code == 404 then Raise(Application(TaskLost), false)
      else if IsError(code) then UpstreamFailure(code)
      else if body.None? then Raise(Other, true)
      else if TerminalStatus(body.value.taskStatus).None? then Done(None)
      else Done(Some(TaskCompleted(t, TerminalStatus(body.value.taskStatus).value, body.value.errorMessage)))
  }

  function FetchTaskOutcome(t: TaskId, response: Response<ResultBody>): Attempt<TaskOutcome> {
    match response
    case NoAnswer => Raise(Other, true)
    case Answer(code, body) =>
      if code == 404 then Done(TaskOutcome(t, None, None, None))
      else if IsError(code) then UpstreamFailure(code)
      else if body.None? then Raise(Other, true)
      else Done(TaskOutcome(t, body.value.numSucceeded, body.value.numPartiallySucceeded, body.value.numFailed))
  }

  /** How an activity that is retried without limit ends: with the first attempt that is
      not to be retried. None: it is still being retried. */
  function Ends<B, R>(attempt: Response<B> -> Attempt<R>, responses: seq<Response<B>>): Option<Attempt<R>> {
    if responses == [] then None
    else
      var a := attempt(responses[0]);
      if a.Raise? && a.retryable then Ends(attempt, responses[1..]) else Some(a)
  }

  /** The end is one attempt's, and all attempts before it were to be retried. */
  ghost predicate EndsAt<B, R>(attempt: Response<B> -> Attempt<R>, responses: seq<Response<B>>, i: nat) {
    && i < |responses|
    && Ends(attempt, responses) == Some(attempt(responses[i]))
    && (attempt(responses[i]).Raise? ==> !attempt(responses[i]).retryable)
    && (forall j | 0 <= j < i :: attempt(responses[j]).Raise? && attempt(responses[j]).retryable)
  }

  lemma {:induction false} EndDecided<B, R>(attempt: Response<B> -> Attempt<R>, responses: seq<Response<B>>)
    requires Ends(attempt, responses).Some?
    ensures exists i: nat :: EndsAt(attempt, responses, i)
  {
    var a := attempt(responses[0]);
    if a.Raise? && a.retryable {
      EndDecided(attempt, responses[1..]);
      var i: nat :| EndsAt(attempt, responses[1..], i);
      assert responses[i + 1] == responses[1..][i];
      assert forall j | 0 < j <= i :: responses[j] == responses[1..][j - 1];
      assert EndsAt(attempt, responses, i + 1);
    } else {
      assert EndsAt(attempt, responses, 0);
    }
  }

  /** The submit as a whole. */
  function SubmitEnds(responses: seq<Response<TaskId>>): Option<Attempt<TaskId>> {
    Ends(SubmitConversion, responses)
  }

  /** The fetching of a result as a whole. */
  function FetchEnds(t: TaskId, responses: seq<Response<ResultBody>>): Option<Attempt<TaskOutcome>> {
    Ends(r => FetchTaskOutcome(t, r), responses)
  }

  /** A client error other than "queue full". */
  predicate Rejects<B>(response: Response<B>) {
    response.Answer? && 400 <= response.code < 500 && response.code != 429
  }

  /** A submit ends in failure only as SubmitRejected, on a client error other than
      "queue full": a full queue, a server error and no answer are retried for ever. A
      submit that returns an id had it from docling. */
  lemma SubmitEndsRejected(responses: seq<Response<TaskId>>)
    requires SubmitEnds(responses).Some?
    ensures match SubmitEnds(responses).value
            case Raise(error, _) => error == Application(SubmitRejected) && exists r :: r in responses && Rejects(r)
            case Done(t) => exists r :: r in responses && r.Answer? && !IsError(r.code) && r.body == Some(t)
  {
    EndDecided(SubmitConversion, responses);
    var i: nat :| EndsAt(SubmitConversion, responses, i);
    assert responses[i] in responses;
  }

  /** The counts of a decoded result, as fetch_outcome passes them on. */
  function CountsOf(t: TaskId, body: ResultBody): TaskOutcome {
    TaskOutcome(t, body.numSucceeded, body.numPartiallySucceeded, body.numFailed)
  }

  /** Fetching a result ends with the counts of a decoded answer, with none on a 404, or on
      a rejection as SubmitRejected. */
  lemma FetchEndsTruly(t: TaskId, responses: seq<Response<ResultBody>>)
    requires FetchEnds(t, responses).Some?
    ensures match FetchEnds(t, responses).value
            case Raise(error, _) => error == Application(SubmitRejected) && exists r :: r in responses && Rejects(r)
            case Done(o) =>
              (o == TaskOutcome(t, None, None, None) && exists r :: r in responses && r.Answer? && r.code == 404) ||
              (exists r :: r in responses && r.Answer? && !IsError(r.code) && r.body.Some? &&
                           o == CountsOf(t, r.body.value))
  {
    var attempt := r => FetchTaskOutcome(t, r);
    EndDecided(attempt, responses);
    var i: nat :| EndsAt(attempt, responses, i);
    assert responses[i] in responses;
  }

  /** The answers of check_task under CHECK_RETRY: attempts until one is not retryable,
      three at most. Attempts beyond `responses` get no answer. */
  function PollFrom(t: TaskId, responses: seq<Response<StatusBody>>, made: nat): (CheckAnswer, nat)
    requires made < 3
    decreases 3 - made
  {
    match CheckTask(t, ResponseAt(responses, made))
    case Done(completed) => (Reported(completed), made + 1)
    case Raise(error, retryable) =>
      if retryable && made + 1 < 3 then PollFrom(t, responses, made + 1) else (Raised(error), made + 1)
  }

  function ResponseAt(responses: seq<Response<StatusBody>>, k: nat): Response<StatusBody> {
    if k < |responses| then responses[k] else NoAnswer
  }

  function Poll(t: TaskId, responses: seq<Response<StatusBody>>): (CheckAnswer, nat) {
    PollFrom(t, responses, 0)
  }

  predicate Retryable(t: TaskId, response: Response<StatusBody>) {
    CheckTask(t, response).Raise? && CheckTask(t, response).retryable
  }

  lemma {:induction false} PollFromDecides(t: TaskId, responses: seq<Response<StatusBody>>, made: nat)
    requires made < 3
    ensures var (answer, attempts) := PollFrom(t, responses, made);
            && made < attempts <= 3
            && var last := CheckTask(t, ResponseAt(responses, attempts - 1));
            && (forall k :: made <= k < attempts - 1 ==> Retryable(t, ResponseAt(responses, k)))
            && answer == (if last.Done? then Reported(last.value) else Raised(last.error))
            && (last.Raise? && last.retryable ==> attempts == 3)
    decreases 3 - made
  {
    var first := CheckTask(t, ResponseAt(responses, made));
    if first.Raise? && first.retryable && made + 1 < 3 {
      PollFromDecides(t, responses, made + 1);
    }
  }

  /** A poll takes one to three attempts, all but the last of them retryable. It ends in
      TaskLost exactly when the deciding answer is 404, and reports an end of the task
      only on a decoded answer with that status, for the very task it asked about. */
  lemma PollDecides(t: TaskId, responses: seq<Response<StatusBody>>)
    ensures var (answer, attempts) := Poll(t, responses);
            && 1 <= attempts <= 3
            && var last := ResponseAt(responses, attempts - 1);
            && (forall k :: 0 <= k < attempts - 1 ==> Retryable(t, ResponseAt(responses, k)))
            && (Retryable(t, last) ==> attempts == 3)
            && (answer == Raised(Application(TaskLost)) <==> last.Answer? && last.code == 404)
            && (answer.Reported? && answer.completed.Some? ==>
                  && last.Answer? && last.body.Some?
                  && answer.completed.value.taskId == t
                  && TerminalStatus(last.body.value.taskStatus) == Some(answer.completed.value.taskStatus)
                  && answer.completed.value.errorMessage == last.body.value.errorMessage)
  {
    PollFromDecides(t, responses, 0);
  }

  // What each answer comes to, by the answer itself.

  /** The attempt is made again: docling could not be reached, answered "queue full" or a
      server error, or sent something else than the JSON expected. */
  predicate AskedAgain<B>(r: Response<B>) {
    r.NoAnswer? || r.code == 429 || 500 <= r.code < 600 || (!(400 <= r.code < 600) && r.body.None?)
  }

  /** The answer is no HTTP error, and the JSON expected. */
  predicate Decodes<B>(r: Response<B>) {
    r.Answer? && !(400 <= r.code < 600) && r.body.Some?
  }

  /** A poll, exactly: it asks again just after the answers above, three times in all; then
      the deciding answer says it all. A finished task is reported with its status and
      message, any other status is "in progress", a 404 is TaskLost, another client error a
      rejection. */
  lemma PollAnswers(t: TaskId, responses: seq<Response<StatusBody>>)
    ensures var (answer, attempts) := Poll(t, responses);
            && 1 <= attempts <= 3
            && var last := ResponseAt(responses, attempts - 1);
            && (forall k | 0 <= k < attempts - 1 :: AskedAgain(ResponseAt(responses, k)))
            && (AskedAgain(last) ==> attempts == 3 && answer.Raised? && answer.error != Application(TaskLost))
            && (last.Answer? && last.code == 404 ==> answer == Raised(Application(TaskLost)))
            && (last.Answer? && 400 <= last.code < 500 && last.code != 404 && last.code != 429 ==>
                  answer == Raised(Application(SubmitRejected)))
            && (Decodes(last) ==>
                  var body := last.body.value;
                  && (body.taskStatus == "success" ==>
                        answer == Reported(Some(TaskCompleted(t, Success, body.errorMessage))))
                  && (body.taskStatus == "failure" ==>
                        answer == Reported(Some(TaskCompleted(t, Failure, body.errorMessage))))
                  && (body.taskStatus != "success" && body.taskStatus != "failure" ==> answer == Reported(None)))
  {
    PollFromDecides(t, responses, 0);
    var (answer, attempts) := Poll(t, responses);
    assert forall k | 0 <= k < attempts - 1 :: Retryable(t, ResponseAt(responses, k));
  }

  /** docling answers for a finished task: within three attempts something else than a
      reason to ask again, and whatever that is, it decodes to the task's end. */
  ghost predicate AnswersFor(responses: seq<Response<StatusBody>>, status: TaskStatus) {
    && (exists k | 0 <= k < 3 :: !AskedAgain(ResponseAt(responses, k)))
    && (forall r | r in responses && !AskedAgain(r) ::
          Decodes(r) && r.body.value.taskStatus == (if status == Success then "success" else "failure"))
  }

  /** A poll asks again to the end only if it is given reason to three times. */
  lemma AskedToTheEnd(t: TaskId, responses: seq<Response<StatusBody>>)
    ensures var (_, attempts) := Poll(t, responses);
            1 <= attempts <= 3 &&
            (AskedAgain(ResponseAt(responses, attempts - 1)) ==>
               forall k | 0 <= k < 3 :: AskedAgain(ResponseAt(responses, k)))
  {
    PollAnswers(t, responses);
  }

  /** A poll of a finished task that docling answers for reports its end. */
  lemma FinishedTaskIsReported(t: TaskId, responses: seq<Response<StatusBody>>, status: TaskStatus)
    requires AnswersFor(responses, status)
    ensures var (answer, _) := Poll(t, responses);
            answer.Reported? && answer.completed.Some? &&
            answer.completed.value.taskId == t && answer.completed.value.taskStatus == status
  {
    PollAnswers(t, responses);
    AskedToTheEnd(t, responses);
    var (_, attempts) := Poll(t, responses);
    assert ResponseAt(responses, attempts - 1) in responses;
  }

  /** The first answer that is no reason to ask again. */
  predicate Settles<B>(responses: seq<Response<B>>, i: nat) {
    i < |responses| && !AskedAgain(responses[i]) && forall j | 0 <= j < i :: AskedAgain(responses[j])
  }

  lemma {:induction false} EndsAtFirst<B, R>(attempt: Response<B> -> Attempt<R>, responses: seq<Response<B>>, i: nat)
    requires forall r :: AskedAgain(r) <==> attempt(r).Raise? && attempt(r).retryable
    requires Settles(responses, i)
    ensures Ends(attempt, responses) == Some(attempt(responses[i]))
  {
    if i > 0 {
      assert forall j | 0 < j <= i :: responses[1..][j - 1] == responses[j];
      EndsAtFirst(attempt, responses[1..], i - 1);
    }
  }

  lemma {:induction false} EndsNever<B, R>(attempt: Response<B> -> Attempt<R>, responses: seq<Response<B>>)
    requires forall r :: AskedAgain(r) <==> attempt(r).Raise? && attempt(r).retryable
    requires forall j | 0 <= j < |responses| :: AskedAgain(responses[j])
    ensures Ends(attempt, responses) == None
  {
    if responses != [] {
      assert forall j | 0 < j < |responses| :: responses[1..][j - 1] == responses[j];
      EndsNever(attempt, responses[1..]);
    }
  }

  /** A submit, exactly: it goes on while there is reason to ask again, ends with the id of
      the first decoded answer, or is rejected by a client error other than 429. */
  lemma SubmitAnswers(responses: seq<Response<TaskId>>, i: nat)
    ensures (forall j | 0 <= j < |responses| :: AskedAgain(responses[j])) ==> SubmitEnds(responses) == None
    ensures Settles(responses, i) ==>
              && (Decodes(responses[i]) ==> SubmitEnds(responses) == Some(Done(responses[i].body.value)))
              && (!Decodes(responses[i]) ==> SubmitEnds(responses) == Some(Raise(Application(SubmitRejected), false)))
  {
    if forall j | 0 <= j < |responses| :: AskedAgain(responses[j]) {
      EndsNever(SubmitConversion, responses);
    }
    if Settles(responses, i) {
      EndsAtFirst(SubmitConversion, responses, i);
    }
  }

  /** The fetching of a result, exactly: it ends with the counts of the first decoded answer,
      each in its place, with no counts on a 404, or as rejected. */
  lemma FetchAnswers(t: TaskId, responses: seq<Response<ResultBody>>, i: nat)
    ensures (forall j | 0 <= j < |responses| :: AskedAgain(responses[j])) ==> FetchEnds(t, responses) == None
    ensures Settles(responses, i) ==>
              && (Decodes(responses[i]) ==>
                    var b := responses[i].body.value;
                    FetchEnds(t, responses) ==
                    Some(Done(TaskOutcome(t, b.numSucceeded, b.numPartiallySucceeded, b.numFailed))))
              && (responses[i].code == 404 ==> FetchEnds(t, responses) == Some(Done(TaskOutcome(t, None, None, None))))
              && (!Decodes(responses[i]) && responses[i].code != 404 ==>
                    FetchEnds(t, responses) == Some(Raise(Application(SubmitRejected), false)))
  {
    var attempt := r => FetchTaskOutcome(t, r);
    if forall j | 0 <= j < |responses| :: AskedAgain(responses[j]) {
      EndsNever(attempt, responses);
    }
    if Settles(responses, i) {
      EndsAtFirst(attempt, responses, i);
    }
  }
}
