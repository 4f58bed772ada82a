# Claim-guarded dispatch of trace events, and the chat relay

A Dafny model of the core of the steel-warehouse assistant. Its centre is how new
`trace_events` records are picked up and handed to the risk-assessment workflow. The parts
modelled:

- **The event tracker** (`EventTracker`). It holds a set of ids being processed and a history
  of processed ids, each with its completion time and success flag. The model covers its
  atomic claim (`mark_as_processing`), the completion step, and the retention and capacity
  cleanup. The tracker is an immutable value and every call is one atomic transition, because
  the source serialises them under one lock. The history is a Python dict, so it is modelled as
  an insertion-ordered sequence with distinct keys. That makes the capacity eviction's
  tie-break exact.
- **Two polling detectors sharing the tracker.**
  - The polling listener (`PollingListener`) queries the half-open window
    `(last_check_time, now]`. It moves its cursor only after a non-empty cycle that did not
    fail.
  - The database monitor (`DbMonitor`) queries everything newer than its cursor that has no
    assessment yet. It moves its cursor after every cycle, even one whose query failed.

  `Detectors` runs both over one tracker, together with the completions of the listener's
  tasks, in any interleaving.
- **The change-stream listener** (`ChangeStreamListener`). It is a state machine over
  connection attempts, notifications, stream failures, retry sleeps and the stop flag. It
  starts one assessment per insert notification, with no tracker guard. The module also covers
  the start/stop functions that manage its task.
- **The background task manager** (`TaskManager`). It is a map from names to tasks, with an
  idempotent start and a stop that cancels and then clears.
- **The manual trigger** `POST /risk/{event_id}/assess` (`TraceEndpoint`). It is a decision
  function over the tracker state.
- **The crew's result classification** (`RiskCrew`). This is the case-insensitive substring
  test that produces the `status` each dispatcher turns into the tracker's success flag.
- **The chat relay** `POST /api/dify/ask` (`DifyRelay`, with `Json` for the JSON text it
  writes). It translates upstream server-sent-event lines into the relay's own
  `data: <json>\n\n` frames and stops early on `message_end`, on `error` and on failures. The
  request payload includes `conversation_id` only when one is given and it is not empty.

The clock, the database, the crew, the upstream HTTP exchange and the JSON parser are all
parameters. The clock is an integer number of seconds. A query result is an explicit sequence
of records. An assessment is the value it returned or the exception it raised. The upstream
exchange is a sequence of lines plus how the stream ended. The parser is a function from text
to a value or a decode error.

## Model

| member | source | states |
|---|---|---|
| EventTracker.Lookup | warehouse_assistant/app/services/background/event_tracker.py:40-43 | the history has a record for an id exactly when the id is one of its keys, and the lookup returns the record stored under it |
| EventTracker.MarkAsProcessing | warehouse_assistant/app/services/background/event_tracker.py:45-54 | the claim is granted iff the id is neither processing nor processed; a granted claim adds exactly that id to the processing set, a refused one changes nothing; the processing/processed disjointness is preserved |
| EventTracker.ClaimsOfAClaimedIdFail | warehouse_assistant/app/services/background/event_tracker.py:45-54 | once an id is processing, every one of any number of further claims of it is refused |
| EventTracker.ExactlyOneClaimSucceeds | warehouse_assistant/app/services/background/event_tracker.py:45-54 | of k >= 1 back-to-back claims of an id the tracker does not hold, the first succeeds and exactly one succeeds |
| EventTracker.Put | warehouse_assistant/app/services/background/event_tracker.py:62-65 | dict assignment: the new record is stored under the id, replacing any earlier one; every other entry stays; a new key goes last |
| EventTracker.PutKeepsPosition | warehouse_assistant/app/services/background/event_tracker.py:62-65 | assigning to an existing key leaves the length unchanged and changes only that key's entry, at its own position, so insertion order is kept |
| EventTracker.Expire | warehouse_assistant/app/services/background/event_tracker.py:74-84 | the records kept are exactly those with `cutoff <= timestamp`, so a record exactly at the cutoff survives because the test is a strict `<` |
| EventTracker.ExpireKeepsOrder | warehouse_assistant/app/services/background/event_tracker.py:74-84 | the kept records are a subsequence of the history: expiry deletes without reordering |
| EventTracker.OldestIndex | warehouse_assistant/app/services/background/event_tracker.py:88-91 | the chosen record has the least timestamp, and no earlier-inserted record shares it (the first element of a stable sort by timestamp) |
| EventTracker.EvictOldest | warehouse_assistant/app/services/background/event_tracker.py:87-95 | a history within capacity is untouched; otherwise exactly `max_history` records remain, all taken from the input, and every removed record is older than every kept one or equally old and inserted earlier |
| EventTracker.EvictOldestKeepsOrder | warehouse_assistant/app/services/background/event_tracker.py:87-95 | the records kept by eviction are a subsequence of the history, in insertion order |
| EventTracker.EvictedNoNewerThanKept | warehouse_assistant/app/services/background/event_tracker.py:87-95 | every record the capacity eviction removes has a timestamp at most that of every record it keeps |
| EventTracker.NewestInsertedSurvives | warehouse_assistant/app/services/background/event_tracker.py:88-95 | the last-inserted record, when no record is newer, survives an eviction to any capacity of at least one |
| EventTracker.ExpireThenEvict | warehouse_assistant/app/services/background/event_tracker.py:72-95 | expiry then eviction keeps only unexpired records of the history, at most `max_history` of them, and keeps all unexpired ones when the history was within capacity |
| EventTracker.CleanupKeepsOrder | warehouse_assistant/app/services/background/event_tracker.py:72-95 | expiry then eviction leaves a subsequence of the history, so the survivors keep their insertion order |
| EventTracker.NewestSurvivesCleanup | warehouse_assistant/app/services/background/event_tracker.py:72-95 | the last-inserted record survives the cleanup when it is unexpired, no record is newer and the capacity is at least one |
| EventTracker.Cleanup | warehouse_assistant/app/services/background/event_tracker.py:72-95 | cleanup only deletes history entries: it never adds one, never changes a survivor, leaves the processing set alone; afterwards no entry is older than `now - retention_period`; exactly `min(unexpired, max_history)` entries remain, and all unexpired ones when they fit; every unexpired entry it removed is no newer than any it kept; the tracker invariant is preserved |
| EventTracker.RecordSurvivesCleanup | warehouse_assistant/app/services/background/event_tracker.py:56-70 | the record a completion writes survives the cleanup that follows it, given a capacity of at least one and no record in the future |
| EventTracker.MarkAsProcessed | warehouse_assistant/app/services/background/event_tracker.py:56-70 | the id leaves the processing set (a no-op when absent) and nothing else does; the history afterwards holds only the new `{now, success}` record and earlier records of other ids; it keeps exactly `min(unexpired, max_history)` of the assigned history, and every unexpired record of another id when they fit; the new record is present when the capacity is at least one; validity and "no record in the future" are preserved |
| EventTracker.CompletionIsRecorded | warehouse_assistant/app/services/background/event_tracker.py:56-65 | after a completion the id is not processing, is processed, and its record is exactly `{now, success}`, overwriting any earlier one |
| TraceEvents.SucceededMatchesClassification | warehouse_assistant/app/services/background/polling_listener.py:81-82 | the success flag a dispatcher records is true exactly when the crew was built, returned text, and that text contains an indicator |
| TraceEvents.PresentIds | warehouse_assistant/app/services/background/polling_listener.py:45-46 | the ids read before the first record lacking `_id` are a prefix of the records' ids; when the prefix is short, the record right after it lacks `_id`, so reading stops exactly there; it is all of them when every record has one |
| TraceEvents.KnownIds | warehouse_assistant/app/services/background/db_monitor.py:89-93 | an id is listed exactly when some record carries it |
| TraceEvents.KnownIdsNoDup | warehouse_assistant/app/services/background/db_monitor.py:89-93 | records with distinct `_id`s list each id once |
| PollingListener.Window | warehouse_assistant/app/services/background/polling_listener.py:33-38 | the cycle's query selects exactly the records with `last_check_time < timestamp <= current_time` |
| PollingListener.DispatchBatch | warehouse_assistant/app/services/background/polling_listener.py:45-56 | the loop fails iff some record lacks `_id`; it spawns a task for exactly the ids read before that point that the tracker did not hold; the tracker gains exactly those ids as processing and nothing else changes |
| PollingListener.DispatchClaimsEachIdOnce | warehouse_assistant/app/services/background/polling_listener.py:49-56 | a cycle spawns at most one task per id, even when the window lists an id twice |
| PollingListener.PollCycle | warehouse_assistant/app/services/background/polling_listener.py:24-65 | the cursor moves to the clock iff the collection was ready and the window was non-empty and fully handled, otherwise it stays, so with a monotone clock it never decreases; the sleep is 10 s exactly on a missing collection or a failure, else 30 s; spawned ids are exactly the unheld ids read before the first record lacking `_id`, each once, now processing; the processed history is untouched |
| PollingListener.WindowBoundaries | warehouse_assistant/app/services/background/polling_listener.py:34 | windows meeting at a cursor neither overlap nor leave a gap: `(lo, hi]` is the disjoint union of `(lo, mid]` and `(mid, hi]`, so successive successful cycles read each record once |
| PollingListener.CursorStaysOnEmptyOrFailedCycle | warehouse_assistant/app/services/background/polling_listener.py:27-65 | a missing collection, an empty window or a failing cycle leaves the cursor where it was, so the same lower bound is retried |
| PollingListener.RetryNeverRedispatches | warehouse_assistant/app/services/background/polling_listener.py:49-58 | re-scanning after a cycle never spawns a second task for an id it spawned while the tracker still holds that id |
| PollingListener.BackToBackCyclesSpawnDisjoint | warehouse_assistant/app/services/background/polling_listener.py:49-56 | a second cycle run before any spawned task completes spawns none of the ids the first one did |
| PollingListener.ProcessEvent | warehouse_assistant/app/services/background/polling_listener.py:68-87 | the task's completion removes the id from processing and records `status == 'success'`, or false when the call raised |
| PollingListener.StartPolling | warehouse_assistant/app/services/background/polling_listener.py:89-95 | start clears the shared flag and points the handle at a new running loop, leaving every earlier loop as it was |
| PollingListener.StopPolling | warehouse_assistant/app/services/background/polling_listener.py:97-108 | stop is a no-op without a task; otherwise it sets the shared flag and the referenced loop has returned; no other loop changes; either way the handle ends empty |
| PollingListener.StartingTwiceOrphansALoop | warehouse_assistant/app/services/background/polling_listener.py:89-108 | after two starts a stop awaits only the second loop: the first is still running when the stop returns, and returns at its own next loop test because it reads the same flag |
| PollingListener.LoopTest | warehouse_assistant/app/services/background/polling_listener.py:24 | a loop reaching its test returns exactly when the shared flag is set, and no other loop or the flag changes |
| PollingListener.SetFlagEndsEveryTestedLoop | warehouse_assistant/app/services/background/polling_listener.py:24 | while the flag stays set, every loop that reaches its test has returned and no returned loop resumes |
| PollingListener.StartRevivesAnOrphan | warehouse_assistant/app/services/background/polling_listener.py:89-94 | a start that comes before an orphaned loop's next test clears the shared flag, so the orphan keeps polling beside the new loop |
| PollingListener.StopIdempotent | warehouse_assistant/app/services/background/polling_listener.py:97-108 | stopping twice is stopping once |
| DbMonitor.GetNewEvents | warehouse_assistant/app/services/background/db_monitor.py:59-80 | the query selects exactly the records newer than the cursor that carry no assessment; a failing query yields the empty list |
| DbMonitor.ClaimAndComplete | warehouse_assistant/app/services/background/db_monitor.py:100-125 | claiming an unheld id and completing it leaves the processing set as it was, writes only that id's entry with its completion time and outcome, makes the tracker hold no other new id, and preserves validity |
| DbMonitor.ProcessOne | warehouse_assistant/app/services/background/db_monitor.py:86-127 | a record without `_id` and an id the tracker holds are skipped with no change; any other id is claimed and then completed on every path (gone record or raising check: false, without running the workflow; otherwise the workflow's status; raised: false), stamped with the clock read at its completion; the processing set ends as it began, and the tracker holds no new id but the claimed one |
| DbMonitor.ProcessNewEvents | warehouse_assistant/app/services/background/db_monitor.py:82-127 | every fetched id the tracker does not hold at the start is claimed, and every claimed id belongs to a fetched record and is not processing before or after; the workflow ran exactly for the claimed ids whose record exists; every entry the batch writes belongs to a claimed id and carries that id's completion time and outcome; the tracker invariants are preserved |
| DbMonitor.BatchClaimsEachIdOnce | warehouse_assistant/app/services/background/db_monitor.py:93-103 | distinct records are claimed at most once each within a batch |
| DbMonitor.FreshBatchClaimsAll | warehouse_assistant/app/services/background/db_monitor.py:86-127 | a batch of records with distinct ids, none held by the tracker, claims exactly their ids in the order fetched |
| DbMonitor.BatchSplits | warehouse_assistant/app/services/background/db_monitor.py:86-127 | handling a batch is handling its first part and then the rest from the tracker the first part left, so whatever happens to one event the remaining events are still handled |
| DbMonitor.MonitorCycle | warehouse_assistant/app/services/background/db_monitor.py:34-127 | every cycle moves the cursor to the clock read after processing, whatever was found, and sleeps 30 s; a failed query changes nothing else; the claimed ids are the records newer than the cursor without assessment, every one of them whose id the tracker does not hold, once each when the ids are distinct, and all are completed with their own completion time |
| DbMonitor.OldRecordNeverFetched | warehouse_assistant/app/services/background/db_monitor.py:64-70 | a record no newer than the cursor is never fetched |
| DbMonitor.FailedQuerySkipsWindow | warehouse_assistant/app/services/background/db_monitor.py:37-80 | after a failing query the cursor still moves to the clock, so a record inserted in that window is never fetched by any later cycle |
| DbMonitor.StartMonitoring | warehouse_assistant/app/services/background/db_monitor.py:29-32 | start only sets the running flag |
| DbMonitor.StopMonitoring | warehouse_assistant/app/services/background/db_monitor.py:54-57 | stop only clears the running flag |
| DbMonitor.RunMonitor | warehouse_assistant/app/services/background/db_monitor.py:34-52 | a loop whose flag is clear does nothing; the loop never leaves an id processing and preserves the tracker invariant |
| DbMonitor.NoCycleAfterStop | warehouse_assistant/app/services/background/db_monitor.py:34-57 | after a stop request no further cycle runs: the loop's effect is that of the cycles before it |
| Detectors.Next | warehouse_assistant/app/main.py:34-36 | every step of the two detectors and the listener's task completions keeps the shared invariant (processing set = in-flight tasks, each once, tracker valid); no step hands out an id whose task is in flight |
| Detectors.InterleavingKeepsInv | warehouse_assistant/app/main.py:34-36 | the invariant holds along every interleaving of the two detectors and the completions |
| Detectors.NoConcurrentAssessment | warehouse_assistant/app/main.py:34-36 | from a fresh start, at no point of any interleaving does either detector hand out an id whose assessment is still running |
| ChangeStreamListener.Step | warehouse_assistant/app/services/background/change_stream_listener.py:15-74 | an assessment starts only for an insert notification naming its document, received while streaming with the flag clear; the client is open exactly while connecting or streaming (created before the `ping`, closed by `finally`); a finished loop stays finished; with the flag set no retry sleep begins |
| ChangeStreamListener.AfterAttempt | warehouse_assistant/app/services/background/change_stream_listener.py:62-72 | leaving an attempt closes the client, then sleeps 30 s before retrying when the flag is clear, and ends the loop when it is set |
| ChangeStreamListener.Run | warehouse_assistant/app/services/background/change_stream_listener.py:17-74 | over any inputs the client is open exactly while connecting or streaming, and once the flag is set nothing more is dispatched and no sleep begins |
| ChangeStreamListener.OnlyInsertsInvoke | warehouse_assistant/app/services/background/change_stream_listener.py:40-49 | every assessed id is the `documentKey._id` of an insert notification received |
| ChangeStreamListener.SameInsertAssessedTwice | warehouse_assistant/app/services/background/change_stream_listener.py:40-52 | with no tracker check, an insert delivered twice is assessed twice |
| ChangeStreamListener.StopEndsTheLoop | warehouse_assistant/app/services/background/change_stream_listener.py:34-72 | with the flag set nothing is dispatched; the loop returns at any next notification, whatever it contains, and at the stream's end, a stream failure, a connection failure or the end of the sleep |
| ChangeStreamListener.FailureRetriesWhileNotStopped | warehouse_assistant/app/services/background/change_stream_listener.py:62-72 | a stream failure with the flag clear closes the client and waits, then reconnects |
| ChangeStreamListener.FailedPingClosesClient | warehouse_assistant/app/services/background/change_stream_listener.py:17-72 | a failed `ping` closes the client its attempt created and waits 30 s; the next attempt creates a new client |
| ChangeStreamListener.StartListener | warehouse_assistant/app/services/background/change_stream_listener.py:77-87 | a task is created, with the flag cleared, only when there is none or the previous one is done; otherwise nothing changes |
| ChangeStreamListener.StopListener | warehouse_assistant/app/services/background/change_stream_listener.py:89-112 | the reference ends empty on every path; the stop is graceful exactly when a running task returns after the flag is set, otherwise it is cancelled |
| ChangeStreamListener.NothingDispatchedWhileStopping | warehouse_assistant/app/services/background/change_stream_listener.py:92-97 | while a stop waits for the task, the task dispatches nothing more |
| ChangeStreamListener.StartAfterStopLaunches | warehouse_assistant/app/services/background/change_stream_listener.py:77-112 | a start after a stop always creates a fresh task; a start while a task runs changes nothing |
| TaskManager.StartTask | warehouse_assistant/app/services/background/task_manager.py:27-34 | a name whose task is still running is left alone; otherwise a fresh running task is stored under it; no other entry changes |
| TaskManager.StartAllTasks | warehouse_assistant/app/services/background/task_manager.py:18-25 | exactly the `db_monitor` task is started, and a newly created one sets the monitor's running flag |
| TaskManager.StartAllIdempotent | warehouse_assistant/app/services/background/task_manager.py:23-31 | calling start-all twice is calling it once |
| TaskManager.StopAllTasks | warehouse_assistant/app/services/background/task_manager.py:36-54 | stop clears the monitor's flag, cancels exactly the tasks not yet done and empties the map |
| TaskManager.RestartAfterStop | warehouse_assistant/app/services/background/task_manager.py:18-54 | after a stop, a start recreates the monitor task alone and sets the flag again |
| TraceEndpoint.AssessEventRisk | warehouse_assistant/app/api/endpoints/trace.py:14-54 | the checks run in order: a missing or unreadable event gives 500 (the 404 is caught), then `in_progress` iff processing, then `already_processed` iff processed, else the claim succeeds and the reply is `success` whenever the workflow returns (500 when it raises); the tracker changes only by the claim and, when the workflow returns, its completion |
| TraceEndpoint.SuccessReplyRecordsOutcome | warehouse_assistant/app/api/endpoints/trace.py:45-51 | the reply is `success` whatever status the assessment reported, and the tracker records that status as the success flag |
| TraceEndpoint.RaisedAssessmentLeavesIdStuck | warehouse_assistant/app/api/endpoints/trace.py:45-54 | an assessment that raises leaves the id processing, so every later request answers `in_progress` |
| TraceEndpoint.ThreeRequests | warehouse_assistant/app/api/endpoints/trace.py:34-51 | three requests for an untouched id answer `success`, then `already_processed` twice |
| RiskCrew.Contains | warehouse_assistant/app/services/ai/crews/risk_crew.py:95 | the substring search answers true exactly when some window of the haystack equals the needle |
| RiskCrew.Classify | warehouse_assistant/app/services/ai/crews/risk_crew.py:74-105 | the status is `success` or `error`, and `success` iff the result is a string whose lower-cased form contains an indicator, with the text as message; a kickoff exception gives `error` with its message |
| RiskCrew.RunRiskAssessmentForEvent | warehouse_assistant/app/services/ai/crews/risk_crew.py:107-130 | a construction failure gives `error`; otherwise the crew's classification; the status is always `success` or `error` |
| RiskCrew.ContainingIndicatorIsSuccess | warehouse_assistant/app/services/ai/crews/risk_crew.py:91-97 | any text containing an indicator is a success, whatever surrounds it |
| RiskCrew.CaseInsensitiveMatch | warehouse_assistant/app/services/ai/crews/risk_crew.py:92-95 | any word that lower-cases to an indicator, such as `UPDATED`, makes the text a success |
| RiskCrew.UnsuccessfulCountsAsSuccess | warehouse_assistant/app/services/ai/crews/risk_crew.py:92-95 | plain substring matching classifies `unsuccessful` as a success |
| RiskCrew.NoIndicatorIsError | warehouse_assistant/app/services/ai/crews/risk_crew.py:91-101 | any text whose lower-cased form contains no indicator is an error, reported with the text |
| RiskCrew.FailedIsAnError | warehouse_assistant/app/services/ai/crews/risk_crew.py:91-101 | the report `failed` mentions no indicator, so it is an error |
| Json.Dumps | dify.py:91 | `json.dumps` with default settings writes printable ASCII only |
| Json.DumpsHasNoNewline | dify.py:91 | a JSON text never contains a line break, so one `data:` line carries it whole |
| Json.ParseHex4Hex4 | dify.py:91 | reading back the four hex digits of a `\uXXXX` escape gives the code unit written |
| Json.UnescapeEscapeChar | dify.py:91 | reading back the escape of any character, including a surrogate pair for one beyond the BMP, gives that character |
| Json.UnescapeEscapeString | dify.py:91 | escaping a string for a JSON text loses nothing: reading the escapes back gives the string |
| Json.Get | dify.py:83 | `dict.get` on a parsed object gives the default for a missing key and otherwise the last member with that name |
| DifyRelay.Render | dify.py:91-109 | a frame on the wire is `data: `, a JSON text without line breaks, then `\n\n` |
| DifyRelay.StripBounds | dify.py:74 | `strip()` cuts exactly the leading and trailing whitespace: what it keeps starts and ends with a non-space |
| DifyRelay.BlankStripsToNothing | dify.py:74-75 | a whitespace-only remainder strips to the empty string |
| DifyRelay.HandleLine | dify.py:70-109 | empty lines, lines without the `data:` prefix and blank data produce nothing; undecodable JSON gives a decode-error frame and a non-object a chunk-error frame, both continuing; a `message` object forwards its `answer` (default `""`) and continues; `message_end` sends `end` with its `conversation_id` and `error` sends its `code` and `message`, and the line ends the relay exactly for these two; any other event produces nothing |
| DifyRelay.LineStep | dify.py:69-120 | a line ends the relay exactly when it cannot be decoded (the outer handler's server-error frame) or its event ends it |
| DifyRelay.RelayLines | dify.py:69-117 | at most one frame per line plus one; only the last frame may be final; the relay ends with a final frame iff the stream broke or some line ends it |
| DifyRelay.Relay | dify.py:52-120 | a failing request gives exactly one request-failure frame; otherwise the stream's frames, with only the last possibly final |
| DifyRelay.RelayLinesAppend | dify.py:69-109 | lines that do not end the relay contribute their frames independently of what follows |
| DifyRelay.StopDiscardsTheRest | dify.py:93-103 | after a `message_end` or `error` event (or an undecodable line) no later line, nor a later break of the stream, produces anything |
| DifyRelay.MessagesForwardAnswers | dify.py:86-91 | a run of `message` lines relays one frame per line, carrying each answer in order |
| DifyRelay.TurnRelaysAnswersThenEnd | dify.py:86-98 | a turn of `message` lines followed by `message_end` relays exactly the answers in order and then the `end` frame with the conversation id; nothing after it is relayed, a later stream break included |
| DifyRelay.MessageWithoutAnswer | dify.py:86-91 | a `message` event always emits one continuing frame, with `""` when the answer is absent |
| DifyRelay.OtherEventsIgnored | dify.py:83-103 | any other event type produces no frame and does not stop the relay |
| DifyRelay.ErrorFramesLookAlike | dify.py:100-117 | decode-error and request-failure frames both say `"event": "error"`, though only the latter ends the relay |
| DifyRelay.Payload | dify.py:42-50 | the payload carries the query (also as the `query` input), the user and streaming mode, and a `conversation_id` member iff one is given and not empty, with that value |
| DifyRelay.Ask | dify.py:124-140 | the response to a question never sends a frame after a final one |
| DifyRelay.ReadEventsWire | dify.py:91-109 | a client splitting the response body at `data: ` and `\n\n` recovers every frame's JSON text, in order |

## Left out

- Real concurrency and timing. Locks, `asyncio` tasks, `to_thread`, sleeps and the
  10-second `wait_for` are not modelled. Each tracker call is one atomic transition. Each
  detector cycle is one step. An awaited assessment is a parameter. Sleeps appear only as the
  delay a cycle asks for.
- The wall clock. `now` is an integer parameter, assumed monotone where a property needs it.
  The singleton plumbing (`get_event_tracker`, `get_db_service`, module globals) is not
  modelled.
- EventTracker.MarkAsProcessed: reads the clock once, not twice. The source reads it for the
  record's timestamp and again for the cleanup cutoff.
- PollingListener.PollCycle: the query's descending sort is not modelled. The model accepts the
  query result in any order, so every proved property also holds for the descending sort. Of the exceptions the cycle catches, only an unreachable collection and
  a record without `_id` are modelled. Any other failure takes the same path.
- DbMonitor.MonitorCycle: the loop's own 60-second error path is not modelled. The query
  swallows its exceptions and each event has its own handler, so nothing inside a cycle reaches
  that path.
- DbMonitor.ProcessNewEvents: each completion's clock reading is a function of the event id,
  like the record check and the workflow's outcome. An id that occurs twice in one batch would
  read the same time twice; with distinct `_id`s this loses nothing.
- PollingListener.StopPolling: the stop and the awaited loop's return are one step. A
  `start_polling_task` that runs while the stop awaits the loop would clear the flag, and then
  the awaited loop would not return. That interleaving is not modelled.
- ChangeStreamListener.Launch: the model starts a new task after its first loop test, with the
  client created. A stop that sets the flag before the task first runs would make the source
  return without connecting. The model instead waits for the `ping` to succeed or fail.
- TraceEndpoint.AssessEventRisk: the `error` reply for a failed claim is kept in the
  definition but proved unreachable. The checks and the claim run with no suspension point
  between them, so a claim that follows both checks always succeeds.
- RiskCrew.LowerChar: lower-cases ASCII letters only. The source's `str.lower` applies the full
  Unicode case mapping.
- The crew itself: its agents, tasks and LLM calls, and its construction. Its result is a
  parameter: text, another object with its `str()`, or an exception.
- Json.Dumps: floating-point numbers are not modelled. Neither are lone surrogates, which a
  Dafny `char` cannot hold.
- The JSON parser (`json.loads`) is a parameter of the relay, not a definition. Nothing
  constrains the objects it returns. A parsed object may repeat a key, which a Python dict
  from `json.loads` never does. `Json.Get` reads the last occurrence, as `json.loads` keeps it,
  but `Dumps` of such an object relayed inside an answer would write the key twice.
- The relay's HTTP request: the headers, the API key and URL taken from the environment, and
  the `requests` call itself. The upstream answer is a parameter. The CORS setup and the root
  route are not modelled.
- The store: MongoDB and the JSON-file fallback. A query result is an explicit sequence of
  records, and the existence check is a function of the id.
- The change-stream listener's 0.1-second yield between notifications. The outcome of each
  assessment it awaits is ignored, as in the source.
