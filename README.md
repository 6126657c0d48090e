# service-monitor check cycle, in Dafny

This project models, and proves properties of, the core of `service-monitor`.
`service-monitor` is a daemon that probes each configured service on a cron
schedule, keeps a bounded history of probe latencies, counts failures and sends
a "fail" alert and a "pass" (healthy-again) alert when thresholds are crossed.

The model has three layers:

- **One check cycle as a value transformer.** `ServiceCycle.Cycle` maps the
  configuration (`Policy`), the mutable health record (`Health`: status, current
  and total failure counts, latency history) and the cycle's inputs to the new
  health record and the list of emitted events. The inputs are the probe
  outcome, the elapsed milliseconds and the alert delivery outcome. An event is
  a log request or a sent alert. `ServiceRuns.Run` folds cycles over a sequence
  of ticks, so properties of whole failure episodes can be stated.
- **The service object.** `ServiceModel.Service` is a class with the fields of the
  Rust `Service`. Its method `RunCheckCycle` does the job body step by step,
  writing `status`, the check's `failsCur`/`failsTot` fields and the `lats`
  history in place. It is proved to leave exactly the state, and produce exactly
  the events, that `Cycle` describes. The latency queries are functions over the
  history.
- **The surrounding pieces:**
  - the status names (`Status`);
  - the check record and its constructor (`CheckModel`);
  - the HTTP check settings and the 200-only acceptance rule (`CheckHttp`);
  - the shared status map (`ServiceStates`);
  - log-level gating and message format (`Logging`);
  - HTTP method parsing and printing, and the 2xx table (`HelperHttp`);
  - placeholder substitution (`Format`);
  - the interactive command reader (`CliInput`);
  - the configuration-string mappings done at startup (`Startup`);
  - the Rust string primitives these rely on (`Text`): `to_lowercase`, `trim`,
    decimal formatting.

External effects become inputs:

- the HTTP probe's result is an `HttpReply` (a received status code, or a send
  failure with its message);
- the time a probe took is `elapsedMs`;
- executing an alert gives an `Outcome`;
- the log timestamp is a `date` string;
- a console read is a `Result`.

### Behaviour of the code that is easy to misread

- **Fail alert on failure N+1.** The guard compares `fails_cur` *before* it is
  incremented with the threshold N (`src/service/model.rs:144-147`; the
  increment is at line 162). So the fail alert fires on failure N+1 of an
  episode, once, and never when N = 0. See
  `ServiceRuns.FailAlertOnFailureAfterThreshold` and
  `ServiceRuns.ThresholdZeroNeverSendsFailAlert`.
- **Pass alert on `>=`.** The comment at `src/service/model.rs:196` says the pass
  alert is sent when the fail count "exeeds" the threshold. The guard at lines
  198-200 uses `>=`. So exactly N failures then a success send a pass alert,
  although the fail alert (which needs N+1 failures) was never sent
  (`ServiceRuns.PassAlertWithoutFailAlert`). With N = 3, three failures then a
  success send no fail alert and one pass alert
  (`ServiceRuns.ThreeFailuresThenSuccessWithThresholdThree`).
- **Only 200 is a success.** `HTTP_OK_CODES` lists 200-206
  (`src/helper/http.rs:12`), but the probe tests `status_code != 200`
  (`src/check/http.rs:86`) and does not use that table
  (`CheckHttp.OnlyTwoHundredOfOkCodesAccepted`).
- **Logger arguments.** The job body calls `logger.log` with a third `false`
  argument, but `Logger::log` takes two. The model treats each call as the
  two-argument log request.
- **`is_insecure` at startup.** The startup code builds the HTTP check without
  `is_insecure`. The model's constructor takes it as a parameter.

## Model

| member | source | states |
|---|---|---|
| Status.AsStr | src/service/status.rs:12-19 | each status has its name, both directions: INIT iff "Init", HEALTHY iff "Healthy", CHECKING iff "Checking", UNHEALTHY iff "Unhealthy" |
| Status.AsStrInjective | src/service/status.rs:12-19 | two statuses with the same name are the same status |
| ServiceModel.Service.GetStatus | src/service/status.rs:23-25 | returns the stored status and changes nothing |
| ServiceModel.Service.SetStatus | src/service/status.rs:27-29 | afterwards the status is the argument and the history and counters are unchanged; the healthy-implies-no-current-failures invariant holds afterwards iff the new status is not HEALTHY or the current count is 0, so setting HEALTHY during a failure streak breaks it; with GetStatus this gives get-after-set |
| ServiceModel.Service.constructor | src/service/model.rs:35-58 | a new service is INIT with an empty history; threshold 3 and capacity 10 unless given, otherwise the given values; name, check and alerts stored verbatim |
| ServiceModel.Service.LatMin | src/service/model.rs:60-62 | None iff the history is empty; otherwise an element of the history no greater than any element |
| ServiceModel.Service.LatMax | src/service/model.rs:64-66 | None iff the history is empty; otherwise an element of the history no smaller than any element |
| ServiceModel.Service.LatAvg | src/service/model.rs:68-75 | None iff the history is empty; otherwise the floor of sum/len (value*len <= sum < (value+1)*len), lying between LatMin and LatMax |
| ServiceModel.Service.LatLast | src/service/model.rs:77-84 | None iff the history is empty; otherwise its final element |
| ServiceModel.Service.RecordLatency | src/service/model.rs:167-177 | the history becomes Record(old history, capacity, latency) and stays within a positive capacity, holding u32 values |
| ServiceModel.Service.HandleFailure | src/service/model.rs:132-164 | the new state and events are those of the failure branch OnFailure; the check's cron and type are unchanged |
| ServiceModel.Service.HandleSuccess | src/service/model.rs:165-215 | the new state and events are those of the success branch OnSuccess, for the status held before CHECKING was set |
| ServiceModel.Service.AnnounceRecovery | src/service/model.rs:190-214 | emits the INFO line and, when due, the pass alert (RecoveryEvents of the old count); the current count becomes 0 and the total is unchanged |
| ServiceModel.Service.RunCheckCycle | src/service/model.rs:119-216 | after one job run the in-place state equals Cycle's health and the returned events equal Cycle's events; status ends HEALTHY or UNHEALTHY; the invariant is preserved; cron and check type are unchanged |
| ServiceCycle.Record | src/service/model.rs:167-177 | the new history is the newest suffix of old+[lat]: one longer, or the same length when a positive capacity is exceeded; its last element is lat; it stays within a positive capacity |
| ServiceCycle.Cycle | src/service/model.rs:119-216 | one cycle on values: it ends HEALTHY iff the probe passed and UNHEALTHY iff it failed, and the total grows by one exactly on a failure |
| ServiceCycle.OnFailure | src/service/model.rs:132-164 | the failure branch: UNHEALTHY, both counters +1, history kept; it emits nothing iff this is not the first failure and the fail alert is not due; at most three events |
| ServiceCycle.OnSuccess | src/service/model.rs:165-215 | the success branch: HEALTHY, total kept, latency recorded; the current count is kept for a HEALTHY old status and reset to 0 otherwise; it emits events iff the old status was not HEALTHY |
| ServiceCycle.RecoveryEvents | src/service/model.rs:190-211 | a recovery emits the INFO "is now healthy!" line first, then the pass alert iff it is due, at most three events |
| ServiceCycle.AlertEventsCounts | src/service/model.rs:148-156 | executing an alert sends exactly one alert of its kind and none of the other kind, logs nothing at INFO, and logs one ERROR line iff delivery failed: "Unable to run fail alert for" / "Unable to run healthyalert for" + name + ": " + error (lines 150-155, 204-209) |
| ServiceCycle.CycleOnFailure | src/service/model.rs:132-164 | a failed probe adds 1 to both counters, sets UNHEALTHY and leaves the history alone; the "Unable to run check" ERROR line is emitted iff the count was 0; one fail alert iff configured, N > 0 and the pre-increment count equals N; no pass alert and no INFO line |
| ServiceCycle.CycleOnSuccessWhenHealthy | src/service/model.rs:165-188 | a successful probe of a HEALTHY service only records the latency: no events, status HEALTHY, counters unchanged |
| ServiceCycle.CycleOnRecovery | src/service/model.rs:165-214 | a successful probe of a non-HEALTHY service emits one INFO "is now healthy!" line first; one pass alert iff configured and (N = 0 and count > 0, or N > 0 and count >= N); no fail alert; status HEALTHY, current count 0, total unchanged, latency recorded |
| ServiceCycle.CyclePreservesInvariant | src/service/model.rs:126-214 | from a state where HEALTHY implies no current failures, every cycle ends HEALTHY or UNHEALTHY, keeps that invariant and never lowers the total |
| ServiceCycle.RecordLastN | src/service/model.rs:172-177 | recording onto the last K values gives the last K values of the extended sequence |
| ServiceCycle.RecordAllKeepsLastN | src/service/model.rs:172-177 | with capacity K > 0, recording any sequence of latencies leaves exactly the last K of all values, in insertion order |
| ServiceCycle.RecordAllUnbounded | src/service/model.rs:175 | with capacity 0 nothing is evicted: the history is the old one followed by every recorded value |
| ServiceCycle.WindowOfFiveAfterSeven | src/service/model.rs:172-177 | capacity 5 after seven values keeps the 3rd to the 7th |
| ServiceCycle.SeqMin | src/service/model.rs:61 | the minimum of a non-empty history is one of its elements and a lower bound |
| ServiceCycle.SeqMax | src/service/model.rs:65 | the maximum of a non-empty history is one of its elements and an upper bound |
| ServiceCycle.AverageBetweenMinAndMax | src/service/model.rs:73 | the integer mean of a non-empty history lies between its minimum and maximum |
| ServiceCycle.FloorDiv | src/service/model.rs:73 | helper of LatAvg, a fact about Dafny's division rather than about the source: the quotient q of a by n > 0 satisfies q*n <= a < (q+1)*n, the floor that Rust's unsigned division also gives |
| ServiceRuns.RunInvariant | src/service/model.rs:119-216 | over any run of cycles the invariant holds, a non-empty run ends HEALTHY or UNHEALTHY, and the total grows by exactly the number of failed probes |
| ServiceRuns.RunLatencies | src/service/model.rs:165-177 | failed probes leave the history alone; the history after a run is the old one with every successful probe's latency recorded in order |
| ServiceRuns.HistoryAfterRun | src/service/model.rs:165-177 | with capacity K > 0 the history after a run is the last K of old history plus successful latencies; with 0 it is all of them |
| ServiceRuns.FailureRun | src/service/model.rs:132-164 | k failed probes from count c: both counters grow by k, history unchanged, UNHEALTHY; one fail alert iff configured, N > 0 and c <= N < c+k (exactly once per episode), otherwise none; no pass alert, no INFO line |
| ServiceRuns.FailAlertOnFailureAfterThreshold | src/service/model.rs:144-147 | from count 0, consecutive failures send the fail alert once iff their number exceeds N > 0; the first N failures send none, failure N+1 sends it |
| ServiceRuns.ThresholdZeroNeverSendsFailAlert | src/service/model.rs:145 | with N = 0 no run of any kind ever sends the fail alert |
| ServiceRuns.FailuresThenRecovery | src/service/model.rs:132-214 | from count 0, k >= 1 failures then a success: HEALTHY, count 0, total +k; one fail alert iff configured, N > 0 and k > N, else none; one pass alert iff configured and k >= N, else none; exactly one INFO line |
| ServiceRuns.PassAlertWithoutFailAlert | src/service/model.rs:197-200 | exactly N > 0 failures then a success: no fail alert but one pass alert |
| ServiceRuns.AlertedEpisodeSendsOneOfEach | src/service/model.rs:144-200 | more than N > 0 failures then a success: one fail alert and one pass alert |
| ServiceRuns.ShortEpisodeSendsNoAlert | src/service/model.rs:144-200 | fewer than N failures then a success: neither alert |
| ServiceRuns.ThresholdZeroRecoverySendsPassAlert | src/service/model.rs:198 | N = 0: any recovery after at least one failure sends the pass alert and no fail alert is ever sent |
| ServiceRuns.ThreeFailuresThenSuccessWithThresholdThree | src/service/model.rs:119-216 | N = 3 from a fresh service: after three failures UNHEALTHY with counts 3/3 and no alert of either kind; after a success HEALTHY, count 0, total 3, history [latency], one pass alert and no fail alert |
| CheckModel.Check.constructor | src/check/model.rs:21-30 | cron and check type stored verbatim, both counters 0 |
| CheckModel.Check.Exec | src/check/model.rs:32-38 | dispatches to the HTTP probe: the outcome is that reply's outcome, and nothing in the check changes |
| CheckHttp.AsStr | src/check/http.rs:17-25 | each method has its upper-case name, both directions |
| CheckHttp.AsStrInjective | src/check/http.rs:17-25 | different methods have different names |
| CheckHttp.HttpCheck.constructor | src/check/http.rs:28-37 | every field is stored verbatim |
| CheckHttp.HttpCheck.SetHttpSettings | src/check/http.rs:40-51 | method, url, timeout and headers become the arguments; is_insecure is unchanged |
| CheckHttp.HttpCheck.MethodAsStr | src/check/http.rs:53-55 | equals the name of the configured method |
| CheckHttp.ReplyOutcome | src/check/http.rs:80-104 | success iff a response with status 200 arrived; another status fails with "Request failed with status code: " and the code in decimal; a send failure fails with its message |
| CheckHttp.HttpCheck.Exec | src/check/http.rs:57-105 | changes nothing and returns the verdict ReplyOutcome gives on the reply (success iff the response code was exactly 200) |
| CheckHttp.OnlyTwoHundredOfOkCodesAccepted | src/check/http.rs:84-90 | of the codes 200-206, only 200 is accepted |
| ServiceStates.SharedState.constructor | src/service/state.rs:14 | the map holds the given entries |
| ServiceStates.WithStatus | src/service/state.rs:17-23 | same key set; a present uid's entry gets the new status and keeps its uid; all other keys unchanged; an absent uid leaves the map unchanged |
| ServiceStates.SetState | src/service/state.rs:17-23 | the shared map becomes WithStatus of the old map |
| ServiceStates.SetThenRead | src/service/state.rs:20-22 | reading a present uid after the update gives the new status; a second update overrides the first |
| Logging.LevelName | src/debugger/log.rs:15-25 | each level displays as DEBUG, INFO, WARN or ERROR, both directions |
| Logging.ShouldLog | src/debugger/log.rs:64-74 | the gate's table holds iff rank(level) >= rank(configured), with DEBUG < INFO < WARN < ERROR |
| Logging.ShouldLogMonotonic | src/debugger/log.rs:64-74 | if a level passes the gate, every higher level passes too |
| Logging.DebugGate | src/debugger/log.rs:66-72 | configured DEBUG logs every level; any other configured level never logs DEBUG messages |
| Logging.Log | src/debugger/log.rs:38-62 | something is written iff the gate holds; without a file the console gets "[" + level + "] " + message; with a file that path gets "[" + date + "] " + that line |
| Logging.ConsoleLineInjective | src/debugger/log.rs:42 | the console line determines both the level and the message |
| HelperHttp.ToString | src/helper/http.rs:14-24 | each method displays as its upper-case name, both directions |
| HelperHttp.FromStr | src/helper/http.rs:27-36 | POST, PUT, DELETE, PATCH iff the lower-cased text is "post", "put", "delete", "patch"; GET for everything else |
| HelperHttp.FromStrIgnoresCase | src/helper/http.rs:28 | parsing a text and parsing its lower-cased form agree |
| HelperHttp.RoundTrip | src/helper/http.rs:14-36 | parsing the displayed name of any method gives that method back |
| HelperHttp.OkCodesAreTwoHundredToSixAscending | src/helper/http.rs:12 | the OK-code table is the seven codes 200 + i for i < 7, strictly ascending |
| Text.ToLower | src/helper/http.rs:28 | same length, each character lower-cased (A-Z only) |
| Text.ToLowerIdempotent | src/helper/http.rs:28 | lower-casing twice is lower-casing once |
| Text.TrimStart | src/cli/input.rs:55 | the result is a suffix; the dropped characters are whitespace; it does not start with whitespace |
| Text.TrimEnd | src/cli/input.rs:55 | the result is a prefix; the dropped characters are whitespace; it does not end with whitespace |
| Text.Trim | src/cli/input.rs:55 | the result neither starts nor ends with whitespace |
| Text.TrimIsSlice | src/cli/input.rs:55 | what trim keeps is a contiguous piece of the input, starting where trim_start stops |
| Text.TrimDropsOnlyWhitespace | src/cli/input.rs:55 | everything trim drops, before and after the piece it keeps, is whitespace |
| Text.DecimalString | src/check/http.rs:87 | a non-empty string of decimal digits whose value (DecimalValue, most significant digit first) is the number, with no leading zero except for 0 itself |
| Format.InsertEverywhere | src/helper/format.rs:6 | replacing the empty pattern: length only, len + (len+1)*len(rep); the contents are stated by InsertEverywhereAt |
| Format.InsertEverywhereAt | src/helper/format.rs:6 | replacing the empty pattern puts `rep` at each of the len+1 positions: block i (width len(rep)+1, starting at Offset(i) = i*(len(rep)+1)) is `rep` followed by s[i], in order, and the result ends with `rep` |
| Format.InsertEverywhereFrom | src/helper/format.rs:6 | helper of InsertEverywhereAt: from block i on, the result is what s[i..] alone gives |
| Format.InsertEverywhereStart | src/helper/format.rs:6 | helper of InsertEverywhereAt: the result starts with `rep` and then s[0], and is `rep` alone for an empty input |
| Format.OffsetIsProduct | src/helper/format.rs:6 | helper of InsertEverywhereAt: the block offset is i*k |
| Format.ReplaceAll | src/helper/format.rs:6 | non-overlapping, left-to-right replace-all: for a non-empty pattern, a replacement no longer than the pattern never lengthens the text, and one of equal length keeps its length (contents in the lemmas below) |
| Format.ReplaceWithItself | src/helper/format.rs:6 | replacing a pattern by itself leaves any text unchanged |
| Format.InsertNothing | src/helper/format.rs:6 | replacing the empty pattern by the empty string changes nothing |
| Format.ReplaceAbsent | src/helper/format.rs:6 | a non-empty pattern that does not occur leaves the text unchanged |
| Format.ReplaceFirstOccurrence | src/helper/format.rs:6 | leftmost, non-overlapping replacement: for the text pre + pat + post with a non-empty pat occurring nowhere before the end of pre, the result is pre, then the replacement, then the replace-all of post |
| Format.FormatContents | src/helper/format.rs:3-9 | the loop's result is the left-to-right fold of replace-all over the pairs in iteration order |
| Format.EmptyMapKeepsText | src/helper/format.rs:4-8 | an empty map gives the contents back |
| Format.SinglePair | src/helper/format.rs:5-6 | with one pair the result is the contents with every occurrence of the key replaced |
| Format.IdentityPairsKeepText | src/helper/format.rs:5-7 | pairs whose values equal their keys leave the text unchanged |
| Format.AbsentKeyHasNoEffect | src/helper/format.rs:5-7 | a non-empty key that does not occur in the text produced so far does not change it |
| CliInput.Find | src/cli/input.rs:57 | nothing iff no entry has the command; otherwise the kind of an entry for that command |
| CliInput.Normalize | src/cli/input.rs:55 | the trimmed, lower-cased line: no longer than the input, no upper-case ASCII letter, and neither starting nor ending with whitespace |
| Text.ToLowerHasNoUpper | src/cli/input.rs:55 | no upper-case ASCII letter survives lower-casing |
| Text.LowerKeepsWhitespace | src/cli/input.rs:55 | lower-casing a character neither creates nor removes whitespace |
| CliInput.Lookup | src/cli/input.rs:25-30 | "list" iff ServiceList; "exit", "quit" or "q" iff Exit; anything else iff no command |
| CliInput.KeepRunning | src/cli/input.rs:55-69 | the reader stops iff the trimmed, lower-cased line is an Exit command; list, unknown and empty lines keep it running |
| CliInput.PaddedUpperCaseList | src/cli/input.rs:55-57 | " LIST\n" normalises to "list" and selects ServiceList |
| CliInput.QuitLineExits | src/cli/input.rs:55-64 | "Quit\n" normalises to "quit" and stops the reader |
| CliInput.UserInput.constructor | src/cli/input.rs:33-41 | empty buffer, no last input |
| CliInput.UserInput.Parse | src/cli/input.rs:43-70 | a failed flush returns its error; a failed read returns its error with the buffer cleared; a read line replaces the buffer (only the latest line) and the result is Ok(KeepRunning(line)) |
| Startup.DebugLevel | src/main.rs:42-48 | "debug", "warn", "error" iff DEBUG, WARN, ERROR; "info" and anything else give INFO |
| Startup.CheckMethod | src/main.rs:64-71 | exact upper-case names select their method, both directions; anything else gives GET |
| Startup.DebugLevelOfLowerName | src/main.rs:42-48 | each level's lower-cased display name selects that level |
| Startup.CheckMethodInvertsAsStr | src/main.rs:64-71 | the mapping inverts the check's method names |
| Startup.CheckMethodIsCaseSensitive | src/main.rs:64-70 | "post" gives GET here but POST through HttpMethod::from_str |

## Left out

- Networking: request building, TLS options, headers, timeouts and `reqwest` error classification (src/check/http.rs:58-80, 92-103) are foreign I/O. The probe result is an input, and a send failure carries its message as given.
- Alert delivery (src/alert/*.rs): executing an alert is an input outcome. `AlertType` keeps only the configuration fields.
- Scheduling and locking: `JobScheduler`, `Job::new_async`, `Arc`/`Mutex` and the job registration (src/service/model.rs:86-118, 217-236). A cycle holds the check lock throughout, so one cycle is one atomic method. Concurrent readers of the status are not modelled.
- The clock: `Instant::now`/`elapsed` is the `elapsedMs` input. Its `as u32` truncation is modelled as `elapsedMs % 2^32`.
- Output: console and log-file writes, file opening failures and the `chrono` timestamp (src/debugger/log.rs:41-60). The model produces the line to write; the date string is an input.
- Configuration loading, defaults and printing (src/config/*), the clap argument types (src/cli/arg.rs, src/cli/load.rs), the service listing printout (src/cli/service.rs) and the error wrapper types. They are library-driven parsing and printing with no logic of their own.
- The service-construction loop of src/main.rs:54-139 is orchestration over the pieces modelled here.
- `CliInput.UserInput.Parse`: the "Cmd: " prompt, the `list_services` printout and the "Invalid command" message are output; the flush and the read are inputs. A failed read is modelled as leaving the buffer empty, although the real `read_line` may leave a partial line in it.
- `ServiceModel.Service.RunCheckCycle`: does not model the u32 wrap-around or panic of `fails_cur += 1` and `fails_tot += 1`, because the counters are unbounded naturals.
- Callers of `set_status` (src/service/status.rs:27-29): none appears in the modelled source, so whether the healthy-implies-no-current-failures invariant survives outside the check cycle is not modelled. `ServiceModel.Service.SetStatus` states that it breaks when HEALTHY is set while failures are counted. After that, the early return at src/service/model.rs:186-187 would leave the stale count in place.
- `ServiceModel.Service.LatAvg`: does not model overflow of the `sum::<u32>()`; the sum is exact.
- `Text.ToLower`: lower-cases only A-Z. In Unicode the only non-ASCII characters whose lower case is ASCII are U+212A KELVIN SIGN ("k") and U+0130 ("i" + combining dot, which is not ASCII). So for every table the model matches against ("get", "post", "list", "quit", ...), deciding membership needs only ASCII lowering, except that a Kelvin sign would be read as "k", which appears in no table word.
- `Format.FormatContents`: the `HashMap` iteration order is unspecified, so the order is an input: a sequence listing each key once.
- The wording and classification of send-failure messages (src/check/http.rs:93-101) is not modelled; such a failure carries its message as given.
