# nba-vids scraper core, modelled in Dafny

This project models the decision and queue-management layer of `VideoScraper`
(`src/scraper.py`). The scraper fetches basketball play-by-play data, keeps the
events whose player and event type pass a filter, looks up each event's video,
reads the video's XML manifest and downloads the first 1080p file hosted on
turner.com. The work is held in one list of pending tasks, `self.tasks`. That
list is used as a stack. Each stage appends the tasks of the next stage, and
`run` pops and awaits them one at a time. If a task raises, `run` catches the
exception and keeps going.

Modules, one file each:

- `basics.dfy` (`Basics`): `Option`, `Result`, the exceptions that can reach
  the loop (`Error`), the scalar `Value` shared by parameters, rows and tasks,
  and `byte`.
- `query.dfy` (`Query`): the params dict as an ordered list of
  bindings, `validateParameters`, `getQueryString` and the part of `scrape` that
  runs before the network.
- `documents.dfy` (`Documents`): the decoded responses, reduced to the fields
  the stages read, and `Server`. `Server` stands in for the remote services:
  for each endpoint family, a function from the request URL to the decoded
  answer or to the error raised while fetching or decoding.
- `stages.dfy` (`Stages`): the stage tasks, the event filter, and each stage as
  a pure function `RunStage`. It gives the URLs requested, the tasks appended
  (in order), the file written and whether the stage returned or raised. The
  two loops that build successor lists are methods proved equal to functions:
  the row loop of `scrapePlayByPlay` and the nested loop of
  `scrapeVideoInfoXML`. So is the coroutine dispatch (`RunTask`).
- `scheduler.dfy` (`Scheduler`): the class `VideoScraper` with the task list and
  the `vids/` directory as fields. `Step` (one iteration of `run`) and
  `Run` (`fuel` iterations) are specified by the pure functions `Next`,
  `Iterate` and `Trace`; `Submit` appends one task. These take the stage runner as a parameter
  (`Runner`, a function from a task to its run); the scraper's runner is
  `Execute(server)`, which runs `RunStage`. Lemmas about those functions state
  the LIFO order, the depth-first draining and the fault containment.

Behaviour worth noting:

- A stage appends its successors as it goes. So when a row of 13 fields or
  fewer makes the filter raise partway through the play-by-play rows, the tasks
  already appended for earlier matching rows stay in the list. Every other
  stage appends only as its last action, so it appends nothing when it raises
  (`Stages.SuccessorsFollowPipeline`).
- With an empty list, `run` spins without yielding. An iteration on an empty
  list changes nothing (`Scheduler.IdleStaysIdle`).
- The scoreboard stage refers to an undefined name (`leagueId`), so it always
  raises `NameError` before any request.
- `scrape` does not check the HTTP status. An error page is decoded like any
  other body, or written into the `.mp4` file by the download stage.

## Model

| member | source | states |
|---|---|---|
| `Query.Lookup` | src/scraper.py:142 | dict lookup: no value exactly when no binding has the key; a value it returns is bound to the key |
| `Query.PresentIffBound` | src/scraper.py:142 | in a dict with unique keys, a name passes the check exactly when some binding gives it a non-None value |
| `Query.ValidateParameters` | src/scraper.py:140-145 | returns true iff every expected name is a key whose value is not None; an empty expected list always validates |
| `Query.NatToString` | src/scraper.py:151 | `str()` of a non-negative int: at least one decimal digit, with no leading zero |
| `Query.DecimalRoundTrip` | src/scraper.py:151 | reading back the digits `str()` writes gives the number |
| `Query.RenderIntRoundTrip` | src/scraper.py:151 | `'{}'.format` of an int is a numeral, signed exactly when the int is negative, that reads back as the int |
| `Query.PairSplits` | src/scraper.py:151 | `'{}={}'.format(p, params[p])` is the key, then `=`, then the rendered value |
| `Query.Joined` | src/scraper.py:150-153 | the joined pairs are empty exactly when there are no parameters |
| `Query.JoinedStartsWithFirst` | src/scraper.py:150-153 | the joined pairs start with the first parameter's pair |
| `Query.QueryString` | src/scraper.py:147-153 | the query string is empty exactly when there are no parameters, and otherwise starts with `?` |
| `Query.RequestUrl` | src/scraper.py:38-44 | fails with ValidationError exactly when validation fails; a success extends the base URL, and leaves it unchanged exactly when there are no parameters |
| `Query.TerminatedJoined` | src/scraper.py:147-153 | accumulating `k=v&` per parameter and dropping the last character gives the pairs joined by `&` |
| `Query.QueryStringSnoc` | src/scraper.py:150-153 | one more parameter adds exactly its pair at the end, after `?` if it is the first and after `&` otherwise, with no trailing `&` |
| `Query.GetQueryString` | src/scraper.py:147-153 | the loop yields `?` and the pairs in insertion order joined by `&`; the empty string for no parameters; otherwise it starts with `?` |
| `Query.Scrape` | src/scraper.py:38-44 | fails with ValidationError exactly when validation fails; otherwise gives the URL followed by the query string |
| `Query.NoParamsKeepsUrl` | src/scraper.py:105 | with no expected names and an empty dict, the URL is unchanged |
| `Query.ValidationExamples` | src/scraper.py:140-153 | names A, B: a missing B fails, a None B fails, A=1, B=2 gives `u?A=1&B=2` |
| `Stages.PlayByPlayFilter` | src/scraper.py:82-87 | raises IndexError iff the row has no field 13; otherwise true iff field 13 is in the player set and field 2 in the type set |
| `Stages.ScanAppend` | src/scraper.py:74-78 | the row loop over `a + b` goes on into `b` only if it got through `a`, and appends `a`'s tasks and then `b`'s |
| `Stages.ScanSnoc` | src/scraper.py:74-78 | a further row appends its video-event task at the end if it matches, nothing if it does not, and stops the loop if it is short |
| `Stages.ScanOkIff` | src/scraper.py:74-78 | the row loop finishes without raising iff every row has a field 13 |
| `Stages.ScanMembers` | src/scraper.py:74-78 | when the loop finishes, a task is appended iff it is `(gameEventId=play[1], gameId=play[0])` of some matching row |
| `Stages.ScanPlays` | src/scraper.py:74-78 | the row loop appends only video-event tasks, at most one per row |
| `Stages.StopsAtFirstShortRow` | src/scraper.py:74-78 | at the first short row the loop raises; the tasks of the matching rows before it stay appended |
| `Stages.ScanPlayByPlay` | src/scraper.py:74-78 | the loop with appends computes exactly the row-loop function |
| `Stages.PlayByPlayExample` | src/scraper.py:74-87 | a row of player 202695, type 3, event 77, game 0021800549 yields exactly one task (77, 0021800549); a row of player 999999 yields none |
| `Stages.SelectAppend` | src/scraper.py:113-118 | selecting accepted URLs distributes over concatenation, keeping order |
| `Stages.SelectMembers` | src/scraper.py:113-118 | a URL is collected iff it is a `#text` value containing both `turner.com` and `1080` |
| `Stages.SelectFirst` | src/scraper.py:113-121 | nothing is collected iff no text is accepted; otherwise the first collected URL is the first accepted text in iteration order |
| `Stages.OtherHostRefused` | src/scraper.py:117 | the URL filter (`Accepted`, the two substring tests of line 117) refuses `https://other.com/v_720.mp4` |
| `Stages.LowResolutionRefused` | src/scraper.py:117 | `https://pmd.cdn.turner.com/v_480.mp4` is refused |
| `Stages.AcceptanceExample` | src/scraper.py:117 | `https://pmd.cdn.turner.com/v_1080.mp4` is accepted |
| `Stages.ManifestExample` | src/scraper.py:113-121 | of those three URLs in that order, exactly the 1080 one is collected |
| `Stages.ItemTexts` | src/scraper.py:115-116 | a text is listed iff some element of the group has it as `#text` |
| `Stages.Texts` | src/scraper.py:114-116 | a text is listed iff some element of some group has it as `#text` |
| `Stages.Select` | src/scraper.py:116-118 | every selected URL is accepted, and there are no more of them than texts |
| `Stages.Mp4Urls` | src/scraper.py:113-118 | every collected URL is accepted and is one of the manifest's `#text` values |
| `Stages.CollectMp4Urls` | src/scraper.py:113-118 | the nested loop collects the accepted `#text` values in iteration order, and exactly those |
| `Stages.PlayByPlayStep` | src/scraper.py:72-80 | after its request, the play-by-play stage requests only that URL, writes nothing and appends only video-event tasks; a failed fetch appends nothing and raises its error |
| `Stages.VideoEventStep` | src/scraper.py:93-102 | after its request, at most one task is appended: a manifest task for the same game and event, and only when the stage returns |
| `Stages.ManifestStep` | src/scraper.py:105-126 | after its request, at most one task is appended: a download of an accepted URL for the same uuid, and only when the stage returns |
| `Stages.DownloadStep` | src/scraper.py:129-138 | the download requests its URL, appends nothing, and writes `vids/{uuid}.mp4` exactly when it connected |
| `Stages.RunStage` | src/scraper.py:66-138 | each stage makes at most one request, and only a video download writes a file |
| `Stages.ValidationGate` | src/scraper.py:38-44 | a play-by-play or video-event task requests nothing and raises ValidationError iff validation fails; otherwise it requests base URL + query string |
| `Stages.NullEventIdRefused` | src/scraper.py:90-93 | a video-event task with a None event id raises ValidationError without a request |
| `Stages.PlayByPlayStage` | src/scraper.py:70-80 | the stage appends the row loop's tasks even when a row raises; it returns iff all rows have field 13, and then the tasks are exactly those of the matching rows |
| `Stages.VideoEventStage` | src/scraper.py:90-102 | empty videoUrls: no task; otherwise one manifest task with element 0's uuid, or KeyError when that element has no uuid |
| `Stages.ManifestStage` | src/scraper.py:104-126 | requests the manifest URL unchanged; no task iff no text is accepted; otherwise one download task with the first accepted URL |
| `Stages.NonStringUuidRefused` | src/scraper.py:105 | a non-string uuid raises TypeError before any request |
| `Stages.DownloadStage` | src/scraper.py:128-138 | requests the file URL, appends nothing, writes `vids/{uuid}.mp4` once connected even if the stream breaks, returns iff the stream ends normally |
| `Stages.ScoreBoardAlwaysRaises` | src/scraper.py:66-68 | the scoreboard stage always raises NameError and requests nothing |
| `Stages.NeverReenqueued` | src/scraper.py:31-36 | a task of any stage, whatever its outcome, is never among the tasks its own run appends |
| `Stages.SuccessorsFollowPipeline` | src/scraper.py:70-126 | at most one request per task; appended tasks belong to the next stage; only downloads write; outside the row loop at most one task and none on failure |
| `Stages.RunTask` | src/scraper.py:66-138 | the coroutines, built from the validation, query, row and manifest loops, compute exactly `RunStage` |
| `Scheduler.Save` | src/scraper.py:134-137 | writing a file stores its data under its path and leaves every other file as it was |
| `Scheduler.IdleStaysIdle` | src/scraper.py:29-30 | with no task pending, any number of iterations changes nothing and runs nothing |
| `Scheduler.NextKeepsFiles` | src/scraper.py:28-36 | an iteration keeps every file already written |
| `Scheduler.FilesNeverRemoved` | src/scraper.py:28-36 | however many iterations run, no file is removed |
| `Scheduler.TraceBounded` | src/scraper.py:29-34 | each iteration runs at most one task |
| `Scheduler.TraceRunsNewest` | src/scraper.py:29-34 | while the list stays busy, the k-th task run is the newest one pending after k iterations |
| `Scheduler.NextPopsNewest` | src/scraper.py:28-36 | an iteration runs the most recently appended task; the tasks below stay and its appended tasks go on top |
| `Scheduler.FailedTaskDiscarded` | src/scraper.py:32-36 | a later-stage task that raises is not re-enqueued; exactly the tasks below it remain |
| `Scheduler.AppendedRunsNext` | src/scraper.py:28-34 | the last task a run appended is the next one run |
| `Scheduler.FaultIsolation` | src/scraper.py:28-36 | after the newest task raises, the loop goes on and runs the task submitted before it next |
| `Scheduler.NextOnTop` | src/scraper.py:31 | an iteration only touches the top part of the list |
| `Scheduler.DrainsDeepestFirst` | src/scraper.py:28-36 | until the tasks on top and their descendants drain, earlier tasks are neither run nor changed |
| `Scheduler.EveryBusyIterationRuns` | src/scraper.py:28-36 | while tasks are pending, every iteration runs one: a failure never ends the loop |
| `Scheduler.SameUuidLastWriterWins` | src/scraper.py:129-137 | two downloads of one uuid write the same file; the later data wins and other files are unchanged |
| `Scheduler.VideoScraper.constructor` | src/scraper.py:23-26 | a new scraper has an empty task list, and creating it leaves the files under vids/ as they were |
| `Scheduler.VideoScraper.Submit` | src/scraper.py:78 | `self.tasks.append(task)`: the task goes at the end, nothing else changes |
| `Scheduler.VideoScraper.Step` | src/scraper.py:29-36 | one iteration of run: the new state is `Next` of the old; returns the stage's run, or None when idle |
| `Scheduler.VideoScraper.Run` | src/scraper.py:28-36 | after `fuel` iterations the state is `Iterate` of the old one; the log holds the run of every task executed, failed ones included, in order |

## Left out

- HTTP through aiohttp: the session, GET, headers and cookie, timeouts and chunked streaming (src/scraper.py:46-51, 131-137). These are network I/O. `Server` gives each fetch's result as an input; a download is the bytes received and whether the stream broke.
- JSON and XML decoding (`parse`, src/scraper.py:55-64). These are library calls. A decoded document keeps only the fields the stages read. A decoding failure is `FetchFailed(DecodeError)`. Any failure to reach a field (KeyError, IndexError or TypeError in the source) is `KeyError`, except the short-row IndexError of the filter.
- Document shapes the stages do not expect are not modelled. For example, xmltodict gives a single child as a dict rather than a list, and a list element may be a plain string, where `'#text' in z` would be a substring test.
- Scheduler.NextPopsNewest, Scheduler.AppendedRunsNext and Scheduler.DrainsDeepestFirst hold for tasks read as deferred calls that run only when popped. In the source, `ensure_future` (src/scraper.py:77, 99, 123) starts each coroutine when it is created, so a task can run and append its successors before it is popped, and `asyncio.sleep(0.5)` (src/scraper.py:33) gives in-flight tasks time to do so. Both the execution order and the await order can then differ from `Next` and `Trace`: a play-by-play run appends A1 and A2, `run` pops A2, A2 appends B2 and then A1 appends B1, and `run` pops B1 next although A1 has not been popped. Only the pop from the end of the list is modelled as the source does it; the delay itself is ignored.
- Scheduler.VideoScraper.Run: the unbounded `while True` is bounded by `fuel`. Busy spinning on an empty list is an iteration that changes nothing.
- Stages.PlayByPlayFilter: the filter is a record, so a filter dict missing `'player'` or `'type'` is not modelled.
- Values are Python None, int and str. Floats, booleans and nested JSON values in rows or parameters are not modelled. `str()` of an int is its decimal form.
- `print`, traceback printing and the hard-coded cookie literal have no effect on the model.
- Each `Server` endpoint is a pure function of the URL. A service whose answers change during a run, or that answers one URL differently on a second request, is not modelled.
- Opening `vids/{uuid}.mp4` may fail, for example when the directory is missing. This is not modelled: a connected download always writes its file.
- The scoreboard constants (src/scraper.py:10-11) are never reached, because the scoreboard stage raises first.
- src/editor.py (video concatenation through moviepy and a directory listing) and src/app.py (entry point) are not part of this model. app.py's initial submission corresponds to `Submit`.
