# Durable document conversion: a Dafny model

The repository converts documents with docling-serve. A Temporal workflow submits a
document, sleeps until a callback or a jittered timer wakes it, polls, resubmits tasks
docling has lost, and takes a verdict. A relay turns docling's callbacks into Temporal
signals, and a facade in front of docling keeps multipart uploads and results in S3 and
Redis. The model has four layers.

**One run.** `conversion_protocol.dfy` gives the run's state after any recorded history
(signals, timers, activity results) as a fold of `Step`. `convert_document_workflow.dfy` is
the workflow object with its fields and loops; its `Execute` is proved to end in the state
and outcome of that fold, for every history. `run_counting.dfy`, `non_interference.dfy`,
`run_commands.dfy`, `run_verdicts.dfy`, `timed_runs.dfy` and `noticing.dfy` prove properties of
all histories;
`replay.dfy` adds worker crashes and restarts.

**The run's surroundings.** `activities.dfy` classifies docling's answers, `outputs.dfy`
groups a listing, `relay.dfy` decides what becomes a signal, `naming.dfy` and
`callback_address.dfy` hold the string encodings. `conversion_system.dfy` puts docling, its
callbacks in flight, the relay, the output store and the history together in one transition
system.

**Many runs.** `admission.dfy` (serial submits over docling's check-then-push) and
`dispatch.dfy` (one open run per document).

**The facade.** `facade_options.dfy`, `facade_artifacts.dfy` and `facade_service.dfy` model one
request, `facade_deliveries.dfy` says what a delivery holds, and `facade_system.dfy` interleaves
the uploads, docling's writes, deliveries and cleanups of many requests.

`models.dfy` holds the shared data types. `strings.dfy`, `ordered_keys.dfy` and
`sorted_groups.dfy` hold what Python's string, dictionary and sorting operations provide.

## Where the code and its promises part

- A poll budget of 600 polls of about 300 s is documented to cover about 50 h
  (`src/orchestration/models.py:37-39`). 50 h is the middle of what the jitter allows; what is
  certain is 40 h. `TimedRuns.CoverageIsExact` gives the exact condition for every budget and
  interval.
- The poll interval is documented as the worst-case extra latency of a lost callback
  (`src/orchestration/models.py:75-77`). With the jitter, a run asleep when its task ends waits up
  to 1.2 intervals and one poll longer (`Noticing.AsleepAtEndIsNoticed`). A poll in flight at the
  end can miss it, so over all runs the exact figure is 1.2 intervals and two polls, or one where
  the budget is a single poll (`Noticing.NoticedWithinExactly`).
- A callback recorded while the budget's last poll is in flight is not looked at again: the
  run fails with `PollBudgetExhausted` although it holds the task's success.
  `RunVerdicts.WhenCallbackWakes` says exactly when a recorded callback ends the wait, and
  `RunVerdicts.LastPollMissesCallback` gives the run, for every budget. A poll that answers
  `TaskLost` also goes before a recorded callback.
- Serial admission holds while every submit slot outlives its POST. Each slot freed earlier (by
  an activity timeout) can cost one place in the queue: `Admission.AdmissionIsExact`. The
  configured limit is kept exactly by one replica that frees none early
  (`Admission.DeployedAdmission`).
- A task's artifacts are told apart by filename stem only. Every document is always given its own
  artifacts if and only if the stems are pairwise different (`a.pdf` and `a.docx` are not), free
  of slashes, and none ends in `.doctags` (`FacadeArtifacts.AttributionIsExact`).
- The cleanup of one request leaves every other one alone exactly when the facade's buckets
  differ, or neither of the two prefixes goes on from the other with a request id and a slash
  (`FacadeService.SeparationIsExact`). With one bucket and one prefix, uploads would be taken for
  artifacts (`FacadeSystem.UploadsApartIsExact`). The defaults are clear of both
  (`FacadeService.DefaultsAreSeparate`).
- Output listings of two documents overlap when one key lies in the other's `/convert/`
  directory (`Naming.PrefixOverlap`).
- The format fallback can put keys without a listed suffix into the doctags, chunks, doclang and
  text classes, never into json, md or html (`Outputs.FormatClasses`).

## Model

| member | source | states |
|---|---|---|
| DurableWorkflow.ConvertDocumentWorkflow.Execute | src/orchestration/workflows.py:94-177 | for every history, the object's dictionary, counters, scheduled commands, submissions and outcome are those of the protocol's fold over that history; no outcome while the run is open |
| DurableWorkflow.ConvertDocumentWorkflow.WaitUntilTerminal | src/orchestration/workflows.py:179-223 | each way the wait ends (finished, lost, budget exhausted, suspended) leaves the run in the matching protocol state |
| DurableWorkflow.ConvertDocumentWorkflow.Sleep | src/orchestration/workflows.py:195-204 | the sleep ends as soon as the callback for the task is recorded, otherwise when the timer fires |
| DurableWorkflow.ConvertDocumentWorkflow.CheckOnce | src/orchestration/workflows.py:225-250 | TaskLost propagates; every other failed poll counts as "still in progress" |
| DurableWorkflow.ConvertDocumentWorkflow.OnTaskCompleted | src/orchestration/workflows.py:89-92 | the first event of a task is kept, later ones change nothing |
| ConversionProtocol.SubmittedOptions | src/orchestration/workflows.py:95-101 | docling is asked for json first, then the caller's other formats in order of first occurrence, each once; all other options are untouched |
| RunCounting.Counters | src/orchestration/workflows.py:103-126 | after every history: 1 to 4 submissions, scheduled submits and polls match the counters, submissions - 1 <= safety polls <= submissions * max(1, budget) |
| RunCounting.SubmissionsAreLostPolls | src/orchestration/workflows.py:115-126 | submissions are one more than the polls that lost a task (a fourth loss ends the run); a returned result carries exactly that count |
| RunCounting.CheckAttempts | src/orchestration/workflows.py:61-66 | status requests of answered polls are at most three per counted poll |
| RunCounting.StepDecreases | src/orchestration/workflows.py:192-223 | the measure (submissions left, polls left, phase) falls with every answer and never rises |
| RunCounting.EveryAnsweredRunCloses | src/orchestration/workflows.py:103-223 | no run takes more than 4 * (2 * max(1, budget) + 1) + 2 answers, and one that takes that many is closed |
| RunCounting.AnswerBoundReached | src/orchestration/workflows.py:103-223 | the bound is tight, with four different task ids: three tasks lost at their last poll, then one whose result is returned |
| RunCommands.CommandsAreOwn | src/orchestration/workflows.py:96-158 | every command ever scheduled is the run's own: submits and listings carry its bucket and key, submits its options with json and its formats, polls and fetches a task it submitted; and the last command is what the run waits on |
| RunCommands.TimersAreAccounted | src/orchestration/workflows.py:194-207 | timers are conserved: every one started has fired, for one safety poll each, or was cancelled by a callback, except the one of a sleep under way |
| RunCommands.TimersDrawInOrder | src/orchestration/workflows.py:252-258 | every timer has a number of the generator to itself, in the order of the draws |
| NonInterference.SignalsThatMatter | src/orchestration/workflows.py:79-92 | deleting every signal for an id no submit returned, and every signal after the first for an id, leaves commands, counters, phase and outcome as they were |
| NonInterference.LateCallback | src/orchestration/workflows.py:79-82 | a callback for a task neither awaited nor returned by a later submit changes only the record of it |
| NonInterference.ExactlyOnceEffect | src/orchestration/workflows.py:89-92 | for any pattern of recorded attempts, the workflow state is that of one delivery if any attempt was recorded, else of none |
| RunVerdicts.ConclusionWasReported | src/orchestration/workflows.py:195-223 | whatever end of a task the run accepts, a signal for that task or the answer to a poll of it reported that end |
| RunVerdicts.CompletionsAreSignals | src/orchestration/workflows.py:82-92 | every entry of the completions dictionary is a signal of the history, under its own task id |
| RunVerdicts.PathIndependence | src/orchestration/workflows.py:128-133 | with write-once statuses, two runs that hear of a task by any mix of relay and polls take it to have ended the same way |
| RunVerdicts.TaskWasSubmittedLast | src/orchestration/workflows.py:104-117 | the task a run is about is the one its last answered submit returned |
| RunVerdicts.ResultIsSound | src/orchestration/workflows.py:128-177 | a returned result is of the last submitted task, a success of it was reported, its counts were accepted, its outputs were collected for it and hold json, and its counters are the run's |
| RunVerdicts.NoPollAfterSignal | src/orchestration/workflows.py:195-204 | once a signal for a task is recorded in an open run, no further poll of that task is ever scheduled |
| RunVerdicts.WhenCallbackWakes | src/orchestration/workflows.py:195-223 | a recorded callback outlasts no sleep, is found by the submit result, and follows a poll in flight exactly when that poll neither ends the wait nor is the budget's last |
| RunVerdicts.CallbackDecides | src/orchestration/workflows.py:195-202 | a signal for the task slept on decides the run: whatever follows, the run takes the task to have ended as the signal says, unless fetching or listing fails |
| RunVerdicts.LastPollMissesCallback | src/orchestration/workflows.py:217-223 | for every budget, a history in which a success is recorded during the last poll and which ends in PollBudgetExhausted |
| RunVerdicts.ActivityFailedThen | src/orchestration/workflows.py:106-162 | a run that failed with an activity error was waiting on a submit, a result or a listing, and that activity failed with this error |
| RunVerdicts.CountsWereRefused | src/orchestration/workflows.py:145-154 | a run that failed with "converted nothing" had fetched counts of that task which say so |
| RunVerdicts.ReturnsExactly | src/orchestration/workflows.py:128-177 | after a success of the awaited task, its counts and its listing, the run returns exactly if the counts are missing or not zero in sum and json was listed, whatever else was; the result holds what was listed; otherwise the failure names the counts or the formats found |
| RunVerdicts.OutputsWereMissing | src/orchestration/workflows.py:163-169 | a run that failed for lack of json had listed the outputs of that task, with just the formats named and no json |
| RunVerdicts.FailureWasReported | src/orchestration/workflows.py:128-133 | a run that failed with ConversionFailed passes on the message its failure was reported with |
| RunVerdicts.FailedActivityEnds | src/orchestration/workflows.py:106-162 | a run waiting on a submit, a result or a listing ends when that activity fails |
| RunVerdicts.SleepsThenPolls | src/orchestration/workflows.py:195-208 | after a submit the run sleeps on its task, unless the callback was recorded before, and polls it when the timer fires |
| RunVerdicts.PollDecidesRun | src/orchestration/workflows.py:208-223 | a reported end is the verdict; a lost task is submitted again while there are fewer than four submissions; after anything else the run sleeps again while polls are left, or gives up |
| Replay.ResumeDontResubmit | src/orchestration/workflows.py:103-126 | with crashes and restarts anywhere, no replay diverges, a caught-up worker has the state and the commands of the uninterrupted run, and submits number at most one plus the lost polls |
| Replay.ScheduledOnlyGrows | src/orchestration/workflows.py:103-126 | no crash or replay takes a scheduled command back or replaces it |
| TimedRuns.GivingUpTakesTime | src/orchestration/workflows.py:192-223 | the k-th poll of a submission starts at least 0.8 * I * k after its wait began; giving up takes between 0.8 and 1.2 times I * max(1, B), plus timer lateness and the time spent in polls |
| TimedRuns.CoverageIsExact | src/orchestration/workflows.py:252-258 | no run gives up within t seconds if and only if t <= 0.8 * I * max(1, B) |
| TimedRuns.DefaultsCoverFortyHours | src/orchestration/models.py:37-42 | the defaults cover 40 hours for certain and 50 hours not; 50 is the middle of what the jitter allows |
| Noticing.FinishedTaskIsNoticed | src/orchestration/workflows.py:192-223 | over whole runs with punctual timers and polls of at most P, of which those begun at or after the task's end report it: the run never still waits later than 1.2 * I + P after its wait began, or, if it began before the task's end, after that end plus P; it gives the task up only by a poll begun before the end |
| Noticing.AsleepAtEndIsNoticed | src/orchestration/workflows.py:195-216 | a run asleep at the task's end, or that went to sleep after it, never still waits later than 1.2 * I + P after that sleep began, and so after the end if it began before; it never gives the task up nor takes it for lost |
| Noticing.NoticedWithinExactly | src/orchestration/workflows.py:192-223 | every task that ends during its wait is noticed within L of its end if and only if L >= 1.2 * I + 2 * P, or, with a budget of at most one poll, L >= 1.2 * I + P |
| Noticing.AnsweredPollIsPrompt | src/orchestration/activities.py:122-129 | a poll begun after the task's end, of a docling that answers for the task within three attempts, reports that end and concludes the run |
| Activities.SubmitEndsRejected | src/orchestration/activities.py:66-105 | a submit ends in failure only as SubmitRejected, on a client error other than 429; a full queue, a server error and no answer are retried; a returned id was in an answer of docling |
| Activities.SubmitAnswers | src/orchestration/activities.py:95-105 | a submit, exactly: it goes on while there is reason to ask again, and ends with the id of the first decoded answer or as rejected |
| Activities.PollDecides | src/orchestration/activities.py:107-129 | one to three attempts, all but the last retryable; TaskLost exactly on a deciding 404; an end is reported only for the task asked about, with docling's status and message |
| Activities.PollAnswers | src/orchestration/activities.py:107-129 | a poll, exactly: asked again just after no answer, an undecodable body, 429 or 5xx, three times in all; "success" and "failure" are reported with their message, any other status is in progress, 404 is TaskLost, any other client error a rejection |
| Activities.FinishedTaskIsReported | src/orchestration/activities.py:122-129 | a poll of a finished task that docling answers for within three attempts reports its end |
| Activities.FetchEndsTruly | src/orchestration/activities.py:131-146 | fetching a result ends with the counts of a decoded answer, with no counts on a 404, or on a rejection as SubmitRejected |
| Activities.FetchAnswers | src/orchestration/activities.py:131-146 | fetching a result, exactly: it ends with the counts of the first decoded answer, each in its place, with none on a 404, or as rejected |
| Outputs.CollectOutputs | src/orchestration/activities.py:148-164 | every key of every page is in the outputs under its own format, as often as it occurs over all pages, and nothing else; the lists are sorted and none is empty |
| Outputs.PagingDoesNotMatter | src/orchestration/activities.py:158-164 | two listings of the same keys, in any order and pages, are grouped alike |
| Outputs.JoinedPages | src/orchestration/activities.py:158-164 | joining two pages, or cutting one in two, leaves the outputs as they were |
| Outputs.LeqDecides | src/orchestration/activities.py:154 | keys are sorted by code points: the first difference decides, or the end |
| Outputs.FormatIsLongestSuffix | src/orchestration/activities.py:46-63 | a key gets the format of the longest table suffix it ends with |
| Outputs.FormatClasses | src/orchestration/activities.py:46-63 | for every format of the table, exactly the keys filed under it: those with its suffix (for ".txt" not those ending in ".doctags.txt") and those ending in its name |
| Outputs.ExactClasses | src/orchestration/activities.py:59-63 | json, md and html hold exactly the keys with their suffix |
| Outputs.AliasedClasses | src/orchestration/activities.py:59-63 | into each of the classes doctags, chunks, doclang and text, names without any suffix of the table are put |
| Outputs.FormatNames | src/orchestration/activities.py:48-63 | by name: the keys of json, md, html, doctags and chunks |
| Outputs.TextNames | src/orchestration/activities.py:48-63 | by name: the keys of doclang and text |
| Outputs.PlainKeysAreUnknown | src/orchestration/activities.py:63 | a leaf without a dot is filed as "unknown" |
| Relay.Handler.Callback | src/callback_relay/relay/relay.go:89-143 | one signal for exactly the authorized terminal callbacks, to the workflow in the path; the status answered; acknowledged exactly on 200 |
| Relay.AnswerTable | src/callback_relay/relay/relay.go:93-142 | by the request itself: 401 exactly without the secret; 400 undecodable, or an end without task or terminal status; 200 for other progress; for the end of a task 503 exactly if Temporal is unavailable, else 200 |
| Relay.EventTable | src/callback_relay/relay/relay.go:109-121 | the signal carries the callback's task id, status and failure message |
| Relay.AttemptsBounded | src/callback_relay/relay/relay.go:124-142 | docling makes three attempts at most and stops at the first 200; an attempt is recorded only if a signal was sent |
| Relay.DeliveryGoesOn | src/callback_relay/relay/relay.go:124-142 | for a callback that reports an end, delivery goes on after every "unavailable" while attempts and tries are left, and stops at the first other answer |
| Relay.ThreeAttempts | src/callback_relay/relay/relay.go:7-9 | docling makes three attempts |
| Relay.RelayedExactlyOnce | src/callback_relay/relay/relay.go:124-142 | for every pattern of relay answers over those attempts, the workflow state is that of one delivery if any attempt was recorded, else of none |
| ConversionSystem.EveryPathTellsTheSame | src/callback_relay/relay/relay.go:109-126 | in every reachable state of docling, callbacks, relay and history, each callback in flight, each recorded completion and the verdict carry the one status docling recorded for the task |
| ConversionSystem.ReturnedResultIsSound | src/orchestration/workflows.py:138-177 | docling recorded a success for the result's task, and its counts, unless expired, are missing or say that something was converted; the json list is non-empty and holds only ".json" keys; every key lies under this document's prefix and under its own format |
| ConversionSystem.ListingDecides | src/orchestration/workflows.py:156-177 | in every state where the outputs are listed: the run returns exactly if some ".json" key lies under the document's prefix in the store, and else fails for lack of json |
| ConversionSystem.LackedJson | src/orchestration/workflows.py:163-169 | over whole systems, a run failed for lack of json only if no ".json" key lay under its prefix when its outputs were listed |
| ConversionSystem.ResultsShareOnlyOverlaps | src/orchestration/docling_client.py:16-21 | two documents whose returned results list a common key have overlapping prefixes, and list it under the same format |
| ConversionSystem.NothingConvertedIsTrue | src/orchestration/workflows.py:138-154 | in every reachable state, "converted nothing" is the verdict only on docling's own counts for that task, present and adding up to zero, of a task that ended in success |
| ConversionSystem.OnlyRejectionsFail | src/orchestration/activities.py:66-74 | in every reachable state, a run that failed in a submit or in fetching a result failed as SubmitRejected, never as QueueFull or UpstreamError |
| ConversionSystem.OnlyForgottenTasksAreResubmitted | src/orchestration/activities.py:115-120 | every poll that lost its task asked about one docling had accepted and no longer knows |
| ConversionSystem.StatusRequestsBounded | src/orchestration/workflows.py:61-66 | in every reachable state, status requests number at most three per safety poll |
| ConversionSystem.LostTasksCallbackIsHarmless | src/orchestration/workflows.py:79-82 | docling's ids being fresh, the late callback of a task given up never completes its replacement |
| Naming.WorkflowIdInjective | src/orchestration/models.py:137-140 | for slash-free buckets, workflow ids are equal exactly for equal bucket and key |
| Naming.WorkflowIdsCollideOnSlashes | src/orchestration/models.py:137-140 | with slashes in bucket names they do collide |
| Naming.PrefixOverlap | src/orchestration/docling_client.py:16-21 | one output prefix starts another exactly for the same document, or one whose key, closed by a slash, lies under the first key's /convert/ in the same bucket |
| Naming.ListingsDisjoint | src/orchestration/activities.py:149-156 | some key is listed for both documents exactly when their prefixes overlap |
| Naming.OverlapExists | src/orchestration/docling_client.py:16-21 | the overlap is real: a document stored under another's convert directory |
| CallbackAddress.QuoteRoundTrip | src/orchestration/docling_client.py:46 | unescaping a percent-encoded id gives back every byte string (section 2.1 of RFC 3986) |
| CallbackAddress.QuoteIsSafe | src/orchestration/docling_client.py:46 | the encoded id holds only unreserved characters and percent signs (section 2.3 of RFC 3986) |
| CallbackAddress.BytesThatStay | src/orchestration/docling_client.py:46 | exactly letters, digits and "-._~" stand for themselves; any other byte becomes three characters (section 2.3 of RFC 3986) |
| CallbackAddress.SlashExample | src/orchestration/docling_client.py:46 | a slash is written %2F, and read back in either case |
| CallbackAddress.CleaningKeepsCallback | src/callback_relay/relay/relay.go:73-81 | path cleaning leaves a callback path unchanged exactly when its last segment is no dot segment (section 3.3 of RFC 3986) |
| CallbackAddress.RouteReturnsId | src/callback_relay/relay/relay.go:90-92 | the relay gets back the id addressed exactly for ids that are neither empty nor a dot segment |
| CallbackAddress.RegisteredUrlRoutes | src/orchestration/docling_client.py:36-49 | no URL exactly without a relay or a workflow; otherwise one, whatever slashes end the base, whose path the relay routes to the same id |
| CallbackAddress.RegisteredUrl | src/orchestration/docling_client.py:43-46 | the URL is the base without its closing slash, /v1/callbacks/ and the encoded id |
| CallbackAddress.CallbackAddressRoundTrip | src/orchestration/docling_client.py:36-49 | every document's workflow id becomes one delimiter-free segment that cleaning keeps and the relay reads back |
| Admission.AdmissionBound | src/orchestration/models.py:18-24 | with n slots over check-then-push and m POSTs whose slot is freed early, interleaved with pops, the queue never exceeds limit + n - 1 + m |
| Admission.AdmissionBoundReached | src/orchestration/models.py:18-24 | for every n and m some interleaving reaches limit + n - 1 + m |
| Admission.DeployedAdmission | src/orchestration/worker.py:46-52 | the configured limit is kept exactly by one worker process whose slot is never freed early |
| Admission.PopsDrain | src/orchestration/models.py:18-24 | the dispatcher empties the queue place by place |
| Admission.WorkersOfProcess | src/orchestration/worker.py:32-53 | one process serves the submit queue one activity at a time, the main queue as many as configured |
| Admission.AdmissionIsExact | src/orchestration/models.py:18-24 | n slots of which at most m are freed early keep the queue within a bound if and only if limit + n - 1 + m is within it |
| Dispatch.OneOpenRunPerDocument | src/orchestration/dispatch.py:14-27 | over all starts and closes, open runs are of distinct documents, and a start is refused exactly when its document is in flight |
| Dispatch.StartedUntilClosed | src/orchestration/dispatch.py:14-27 | an accepted start opens the run of its document, which stays open, and refuses further starts, exactly until it is closed |
| FacadeOptions.BuildConvertOptions | src/facade/utils.py:52-68 | options are the fields other than files and target_type by first occurrence, each keeping its values in order; lists are exactly from_formats, to_formats, ocr_lang, page_range and repeated fields |
| FacadeOptions.EveryFieldForwarded | src/facade/utils.py:52-68 | a name is among the options exactly if the form has it and it is not intercepted |
| FacadeOptions.FieldsKeepOrder | src/facade/utils.py:61 | the options of a form's first n fields come first among those of the whole form: their order is that of first occurrence |
| FacadeOptions.HeldBack | src/facade/utils.py:37-63 | of the fields sent, exactly files and target_type are held back |
| FacadeOptions.ValueInPlace | src/facade/utils.py:64 | a value stands after as many values of its field as were sent before it |
| FacadeOptions.ValuesCounted | src/facade/utils.py:64 | a field has as many values as were sent |
| FacadeArtifacts.ArtifactRoundTrip | src/facade/utils.py:71-79 | for slash-free stems, parsing prefix+dirs+stem+ext returns extension, field and stem exactly unless ext is ".txt" and the stem ends in ".doctags" |
| FacadeArtifacts.FieldsByEnding | src/facade/utils.py:21-28 | by name: .json, .md, .html, .dclg, .txt and .doctags.txt after a slash-free stem are json_content, md_content, html_content, doclang_content, text_content and doctags_content of that stem |
| FacadeArtifacts.LeafRoundTrip | src/facade/utils.py:76-79 | what parsing a leaf gives in either case, the exception's misreading included |
| FacadeArtifacts.FetchArtifactsByStem | src/facade/utils.py:92-108 | the artifacts are grouped as the fold over the listing says, unparsable keys skipped, a repeated field keeping its place |
| FacadeArtifacts.LastListedWins | src/facade/utils.py:99-107 | of several keys with one stem and field the last listed counts, and no other |
| FacadeArtifacts.GroupingFilters | src/facade/utils.py:98-108 | with one artifact per stem and field, a stem's group is the listing filtered to that stem, in order |
| FacadeArtifacts.Attribution | src/facade/utils.py:92-108 | with distinct slash-free stems outside the exception, every document gets exactly its own artifacts |
| FacadeArtifacts.AttributionIsExact | src/facade/utils.py:92-108 | whatever is produced, at most once per format, every document is given exactly its own artifacts if and only if the stems are pairwise different, slash-free and none ends in ".doctags" |
| FacadeArtifacts.StemsOfNames | src/facade/service.py:278 | the stem of a filename is what precedes its last dot, or all of it |
| FacadeArtifacts.BuildZipArchive | src/facade/utils.py:121-154 | one entry per artifact, document by document, then the manifest, in upload order, marking failed exactly the documents with no artifact |
| FacadeArtifacts.BuildExportDocumentResponse | src/facade/utils.py:111-118 | the response has the filename and the artifacts' fields, json_content decoded |
| FacadeArtifacts.FieldsAreOwn | src/facade/utils.py:111-118 | a document's response has a field with a body exactly if the document was produced in that format with that body |
| FacadeService.Facade.SubmitFileUpload | src/facade/service.py:117-214 | the uploads stored, the batch request posted with the request's prefixes and the options, the record written under the task's id with names, formats and zip choice, and on every failure the status answered and no record |
| FacadeService.UploadsArrive | src/facade/service.py:138-146 | every file is stored under its name unless a later one has the same name |
| FacadeService.UploadsStayInside | src/facade/service.py:138-146 | uploads touch nothing outside the request's input prefix |
| FacadeService.Facade.ResolveResult | src/facade/service.py:241-303 | when docling's answer is passed through unchanged and when a result is put together, a zip, or a single document with its status and docling's processing time; a cleanup is scheduled exactly for the latter |
| FacadeService.ConvertedExactly | src/facade/service.py:265-270 | a result is put together only if docling's answer is no error and has a count other than zero; a missing count is zero, a null one is not |
| FacadeDeliveries.DeliveryIsAttributed | src/facade/service.py:272-303 | whatever the order of the listing, the delivered document or archive holds exactly what was produced for the request, each artifact under its own document, and the manifest, in upload order, marks failed exactly the documents with none |
| FacadeDeliveries.DeliveredField | src/facade/service.py:296-303 | a request of one document: whatever lies below its output prefix as dirs/stem.ext is delivered, with its very bytes, in the field of that ending, json_content decoded |
| FacadeDeliveries.DeliveredFile | src/facade/service.py:289-294 | a request for an archive: the same object is delivered as the file stem.ext, with its very bytes, and its document marked a success |
| FacadeService.Facade.DeleteUnder | src/facade/service.py:103-108 | only objects below the prefix go; all of them on success |
| FacadeService.Facade.CleanupTaskStorage | src/facade/service.py:77-113 | a completed cleanup removes every object of the request and its record; stopped anywhere earlier it leaves the record; uploads go before outputs; no other record and, with separate settings, no other request's object changes |
| FacadeService.RequestsAreSeparate | src/facade/service.py:93-102 | with separate settings, no object belongs to two requests with different ids |
| FacadeService.SeparationIsExact | src/facade/service.py:91-128 | two requests with version 4 UUIDs as ids can own a common object if and only if the buckets are equal and one prefix is the other, a request id, a slash and anything |
| FacadeSystem.RequestsDoNotInterfere | src/facade/service.py:77-303 | over all interleavings of many requests: each delivery made before its own request's cleanup began carries that request's artifacts and nothing else, where stems tell its documents apart; a request no cleanup of its own has touched keeps every upload, output and record; only delivered requests are cleaned up |
| FacadeSystem.DeliverCarries | src/facade/service.py:272-303 | in every such state, a delivery before a cleanup carries exactly what docling produced for the request |
| FacadeSystem.SubmissionIsRun | src/facade/service.py:128-204 | a submission is a run of this system: its uploads leave in S3 what the upload loop leaves, and its record is the one written |
| FacadeSystem.CleanupIsRun | src/facade/service.py:91-109 | whatever a cleanup leaves, wherever it stops, a run of Delete, and Forget if it gets through, leaves; that it deletes only its own request's objects follows from what it lists |
| FacadeSystem.NothingBlocked | src/facade/service.py:92-109 | every record has files and a request at work, and every scheduled cleanup such a request |
| FacadeSystem.UploadsApartIsExact | src/facade/service.py:91-102 | given separate requests, no object is both an upload and an output of one request exactly when the buckets or the prefixes differ |

## Left out

- HTTP, S3, Redis and Temporal clients, JSON, UTF-8 and zip byte formats: replaced by maps,
  event sequences, byte sequences and lists of entries.
- Temporal SDK internals: the order of jobs inside one activation, cancellation, heartbeats,
  schedule-to-start delay. A sleep ends when its key is present, otherwise when its timer fires.
- The backoff between activity attempts, and every retry but the status poll's three attempts:
  an activity is one event, its last result.
- ConversionSystem.ReturnedResultIsSound: does not state that the outputs were written by this
  run, because older outputs share the document's prefix.
- TimedRuns.GivingUpTakesTime: counts time in reals, so timedelta's rounding to microseconds is not
  modelled; events are handled at the time they are recorded.
- A negative safety_poll_interval_seconds: the interval is a natural number.
- build_batch_convert_body beyond options, bucket and key: that docling reads the source key as a
  prefix and so may also convert siblings is docling's behaviour.
- wait_for_completion: it repeats docling's status request until a deadline and keeps no state.
- src/patches/docling_serve/app.py, except that a full queue is answered 429.
- The shared secret beyond equality, tenant headers and credentials, the settings classes.
- FacadeSystem.RequestsDoNotInterfere: a delivery is one step, so a cleanup of the same task, due to
  an earlier delivery, that falls between the record's read and the fetch is not modelled.
- FacadeService.Facade.CleanupTaskStorage: S3's limit of keys per delete call, errors S3 reports for
  single keys without failing the call, and expiry of Redis records are not modelled.
- FacadeService.Facade.ResolveResult: failures to read the record, and artifacts that do not decode
  as UTF-8 or JSON, are not modelled; decoding itself is only marked.
- Relay.Handler.Callback: the logger, the ten-second signal timeout (an Unavailable answer) and the
  bytes of the acknowledgement are not modelled.
- Start-up of the processes, nginx routing, scripts, Bazel and compose files.
