/** The callback relay (src/callback_relay/relay/relay.go): which callbacks become a
    signal, and what docling is answered. */
module Relay {
  import opened Models
  import opened ConversionProtocol
  import opened NonInterference

  const KIND_TASK_COMPLETED := "task_completed"

  const SIGNAL_NAME := "task_completed"

  /** docling's callback, reduced to the fields read; Malformed: not decodable JSON, or
      larger than the limit. */
  datatype Body =
    | Malformed
    | Progress(taskId: TaskId, kind: string, taskStatus: string, failure: Option<string>)

  datatype Request = Request(workflowId: string, token: string, body: Body)

  /** How SignalWorkflow returns. */
  datatype SignalResult = Signaled | NotFound | Unavailable

  datatype Sent = Sent(workflowId: string, runId: string, signalName: string, event: TaskCompleted)

  const OK := 200
  const BAD_REQUEST := 400
  const UNAUTHORIZED := 401
  const SERVICE_UNAVAILABLE := 503

  /** The request carries the shared secret; an empty one accepts nobody. */
  predicate Authorized(token: string, req: Request) {
    token != "" && req.token == token
  }

  /** The request reports the end of a task. */
  predicate Terminal(req: Request) {
    req.body.Progress? && req.body.kind == KIND_TASK_COMPLETED && req.body.taskId != "" &&
    TerminalStatus(req.body.taskStatus).Some?
  }

  function EventOf(req: Request): TaskCompleted
    requires Terminal(req)
  {
    TaskCompleted(req.body.taskId, TerminalStatus(req.body.taskStatus).value, req.body.failure)
  }

  /** A callback is answered 503 exactly when Temporal could not be told; 200 when it was
      told, has nothing left to tell, or need not be. */
  function StatusFor(token: string, req: Request, temporal: SignalResult): int {
    if !Authorized(token, req) then UNAUTHORIZED
    else if req.body.Malformed? then BAD_REQUEST
    else if req.body.kind != KIND_TASK_COMPLETED then OK
    else if !Terminal(req) then BAD_REQUEST
    else if temporal.Unavailable? then SERVICE_UNAVAILABLE
    else OK
  }

  /** The answers, by the request itself: 401 without the secret; 400 for what cannot be
      decoded, or reports an end without task or terminal status; 200 for other progress;
      and for the end of a task 503 exactly if Temporal could not be told, else 200. */
  lemma AnswerTable(token: string, req: Request, temporal: SignalResult)
    ensures var known := token != "" && req.token == token;
            var status := StatusFor(token, req, temporal);
            && (status == 401 <==> !known)
            && (known && req.body.Malformed? ==> status == 400)
            && (known && req.body.Progress? && req.body.kind != "task_completed" ==> status == 200)
            && (known && req.body.Progress? && req.body.kind == "task_completed" ==>
                  if req.body.taskId != "" && req.body.taskStatus in {"success", "failure"} then
                    status == if temporal.Unavailable? then 503 else 200
                  else status == 400)
  {}

  /** A callback that reports the end of a task becomes a signal with its task, its status
      and its message. */
  lemma EventTable(req: Request)
    ensures Terminal(req) <==>
            req.body.Progress? && req.body.kind == "task_completed" && req.body.taskId != "" &&
            req.body.taskStatus in {"success", "failure"}
    ensures Terminal(req) ==>
              EventOf(req) ==
              TaskCompleted(req.body.taskId, if req.body.taskStatus == "success" then Success else Failure,
                            req.body.failure)
  {}

  class ResponseWriter {
    var status: int
    var acked: bool

    constructor ()
      ensures status == OK && !acked
    {
      status, acked := OK, false;
    }
  }

  class Handler {
    const token: string
    var sent: seq<Sent>

    constructor (token: string)
      ensures this.token == token && sent == []
    {
      this.token := token;
      sent := [];
    }

    /** One delivery: at most one signal, sent exactly for an authorized terminal
        callback, to the workflow named in the path. */
    method Callback(w: ResponseWriter, req: Request, temporal: SignalResult)
      requires w.status == OK && !w.acked
      modifies this`sent, w
      ensures Authorized(token, req) && Terminal(req) ==>
        sent == old(sent) + [Sent(req.workflowId, "", "task_completed", EventOf(req))]
      ensures !(Authorized(token, req) && Terminal(req)) ==> sent == old(sent)
      ensures w.status == StatusFor(token, req, temporal)
      ensures w.acked <==> w.status == OK
    {
      if |token| == 0 || req.token != token {
        w.status := UNAUTHORIZED;
        return;
      }
      if req.body.Malformed? {
        w.status := BAD_REQUEST;
        return;
      }
      var cb := req.body;
      if cb.kind != KIND_TASK_COMPLETED {
        w.acked := true;
        return;
      }
      if cb.taskId == "" || (cb.taskStatus != "success" && cb.taskStatus != "failure") {
        w.status := BAD_REQUEST;
        return;
      }

      var event := TaskCompleted(cb.taskId, if cb.taskStatus == "success" then Success else Failure, None);
      if cb.failure.Some? {
        event := event.(errorMessage := cb.failure);
      }
      sent := sent + [Sent(req.workflowId, "", SIGNAL_NAME, event)];
      match temporal {
        case Signaled =>
        case NotFound =>
        case Unavailable =>
          w.status := SERVICE_UNAVAILABLE;
          return;
      }
      w.acked := true;
    }
  }

  /** One attempt of docling's: what Temporal answers, whether the signal was recorded,
      and the events recorded until the next attempt. */
  datatype Try = Try(temporal: SignalResult, recorded: bool, meanwhile: seq<Event>)

  /** A signal Temporal accepted is recorded, one for a workflow it does not find is
      not; an error leaves both possible. */
  predicate Plausible(t: Try) {
    (t.temporal.Signaled? ==> t.recorded) && (t.temporal.NotFound? ==> !t.recorded)
  }

  const DELIVERY_ATTEMPTS: nat := 3

  /** docling's delivery of one callback: it stops at the first 200. */
  function Attempts(token: string, req: Request, tries: seq<Try>, left: nat): seq<CallbackAttempt>
    decreases |tries|
  {
    if tries == [] || left == 0 then []
    else
      [CallbackAttempt(Authorized(token, req) && Terminal(req) && tries[0].recorded, tries[0].meanwhile)] +
      (if StatusFor(token, req, tries[0].temporal) == OK then [] else Attempts(token, req, tries[1..], left - 1))
  }

  /** Three attempts at most, in order, each but the last answered with something other
      than 200; an attempt is recorded only if the relay sent a signal. */
  lemma {:induction false} AttemptsBounded(token: string, req: Request, tries: seq<Try>, left: nat)
    ensures var attempts := Attempts(token, req, tries, left);
            && |attempts| <= left
            && |attempts| <= |tries|
            && (forall i | 0 <= i < |attempts| ::
                  attempts[i] ==
                  CallbackAttempt(Authorized(token, req) && Terminal(req) && tries[i].recorded, tries[i].meanwhile))
            && (forall i | 0 <= i < |attempts| - 1 :: StatusFor(token, req, tries[i].temporal) != OK)
            && (0 < |attempts| < left && |attempts| < |tries| ==>
                  StatusFor(token, req, tries[|attempts| - 1].temporal) == OK)
    decreases |tries|
  {
    if tries != [] && left > 0 && StatusFor(token, req, tries[0].temporal) != OK {
      var attempts, rest := Attempts(token, req, tries, left), Attempts(token, req, tries[1..], left - 1);
      AttemptsBounded(token, req, tries[1..], left - 1);
      assert |attempts| == |rest| + 1;
      forall i | 0 < i < |attempts|
        ensures attempts[i] ==
                CallbackAttempt(Authorized(token, req) && Terminal(req) && tries[i].recorded, tries[i].meanwhile)
        ensures i < |attempts| - 1 ==> StatusFor(token, req, tries[i].temporal) != OK
      {
        assert attempts[i] == rest[i - 1] && tries[i] == tries[1..][i - 1];
      }
      assert rest != [] ==> tries[|attempts| - 1] == tries[1..][|rest| - 1];
    }
  }

  /** Delivery goes on after every answer but 200, and no longer: for a callback that reports
      the end of a task, all attempts but the last found Temporal unavailable, and so did the
      last if there is neither a third attempt nor a further try. */
  lemma {:induction false} DeliveryGoesOn(token: string, req: Request, tries: seq<Try>, left: nat)
    requires token != "" && req.token == token && Terminal(req)
    ensures var n := |Attempts(token, req, tries, left)|;
            && n <= left && n <= |tries|
            && (forall i | 0 <= i < n - 1 :: tries[i].temporal.Unavailable?)
            && (n < left && n < |tries| ==> n > 0 && !tries[n - 1].temporal.Unavailable?)
    decreases |tries|
  {
    AnswerTable(token, req, if tries == [] then Signaled else tries[0].temporal);
    EventTable(req);
    if tries != [] && left > 0 && tries[0].temporal.Unavailable? {
      DeliveryGoesOn(token, req, tries[1..], left - 1);
      var n := |Attempts(token, req, tries, left)|;
      forall i | 0 < i < n - 1 ensures tries[i].temporal.Unavailable? {
        assert tries[i] == tries[1..][i - 1];
      }
      assert n > 1 ==> tries[n - 1] == tries[1..][n - 2];
    }
  }

  /** docling makes three attempts. */
  lemma ThreeAttempts(token: string, req: Request, tries: seq<Try>)
    requires token != "" && req.token == token && Terminal(req)
    requires |tries| >= 3 && tries[0].temporal.Unavailable? && tries[1].temporal.Unavailable?
    ensures |Attempts(token, req, tries, DELIVERY_ATTEMPTS)| == 3
  {
    DeliveryGoesOn(token, req, tries, DELIVERY_ATTEMPTS);
  }

  /** Exactly-once effect through the relay: for every pattern of answers over docling's
      three attempts (accepted, workflow not found, 503 and retried, recorded but
      reported as an error) the workflow's state is that of one delivery if any attempt
      was recorded, and of none otherwise. */
  lemma RelayedExactlyOnce(
    inp: ConvertInput, token: string, req: Request, before: seq<Event>, tries: seq<Try>, after: seq<Event>)
    requires Terminal(req)
    ensures var attempts := Attempts(token, req, tries, DELIVERY_ATTEMPTS);
            && |attempts| <= 3
            && Reach(inp, before + Deliver(EventOf(req), attempts) + after) ==
               Reach(inp, before + DeliverOnce(EventOf(req), attempts) + after)
            && (if AnyRecorded(attempts) then
                  Inserted(EventOf(req), Meanwhile(attempts), DeliverOnce(EventOf(req), attempts))
                else DeliverOnce(EventOf(req), attempts) == Meanwhile(attempts))
  {
    AttemptsBounded(token, req, tries, DELIVERY_ATTEMPTS);
    ExactlyOnceEffect(inp, before, EventOf(req), Attempts(token, req, tries, DELIVERY_ATTEMPTS), after);
  }
}
