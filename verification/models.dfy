/** Workflow and activity inputs and outputs (src/orchestration/models.py). */
module Models {

  datatype Option<+T> = None | Some(value: T)

  type TaskId = string

  const REQUIRED_FORMAT := "json"

  const DEFAULT_SAFETY_POLL_INTERVAL_SECONDS: nat := 300

  const DEFAULT_MAX_SAFETY_POLLS: nat := 600

  const MAX_SUBMISSIONS: nat := 4

  datatype ErrorType =
    | QueueFull
    | UpstreamError
    | SubmitRejected
    | TaskLost
    | ConversionFailed
    | MissingOutputs
    | PollBudgetExhausted

  /** What an activity finally failed with: an ApplicationError of some type, or
      anything else (transport error, timeout, undecodable answer). */
  datatype ActivityError = Application(errorType: ErrorType) | Other

  /** docling-serve's terminal task states. */
  datatype TaskStatus = Success | Failure

  /** The terminal state a status string names, if it names one. */
  function TerminalStatus(s: string): Option<TaskStatus> {
    if s == "success" then Some(Success) else if s == "failure" then Some(Failure) else None
  }

  datatype TaskCompleted =
    TaskCompleted(taskId: TaskId, taskStatus: TaskStatus, errorMessage: Option<string>)

  datatype TaskOutcome = TaskOutcome(
    taskId: TaskId,
    numSucceeded: Option<int>,
    numPartiallySucceeded: Option<int>,
    numFailed: Option<int>)

  /** An option's value: a scalar, or an array of strings. */
  datatype OptionValue = Scalar(text: string) | Array(items: seq<string>)

  datatype ConvertInput = ConvertInput(
    bucket: string,
    key: string,
    toFormats: seq<string>,
    options: map<string, OptionValue>,
    safetyPollIntervalSeconds: nat,
    maxSafetyPolls: int)

  datatype SubmitConversionInput =
    SubmitConversionInput(bucket: string, key: string, options: map<string, OptionValue>)

  datatype CollectedOutputs = CollectedOutputs(bucket: string, outputs: map<string, seq<string>>)

  datatype ConvertResult = ConvertResult(
    taskId: TaskId,
    outputs: map<string, seq<string>>,
    outputBucket: string,
    submissions: nat,
    safetyPolls: nat)
}
