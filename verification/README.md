# Verified model of flux-rest-server

flux-rest-server is a small single-threaded HTTP front-end for Flux. This project models its parts
in which order, time and signals matter, and proves what they promise:

- **The serve loop** (`src/cmd/flux-rest-server.py`, class `_Server`): stopping on a signal without
  cutting off a response, holding refused connections open for a linger under a cap, the idle exit,
  and the one timeout that serves the last two.
- **The TAP driver** (`config/tap-driver.sh`), whose verdict decides whether the test suite passes.
- **Response framing**, from `_send` and the early 403 to the reader in
  `t/scripts/stop_midrequest.py`.
- **The job URL**, from the Location of a submission back to the job id.

## How it is put together

| file | contents |
|---|---|
| `RefusedQueue.dfy` | the queue of refused connections, against the history of refusals |
| `ServeProtocol.dfy` | the serve loop as a step relation, with signals and time between any two steps |
| `ServeInvariants.dfy` | what every step keeps |
| `ServeTheorems.dfy` | what holds over whole runs |
| `ServeQuiescence.dfy` | that a server nobody connects to ends |
| `Server.dfy` | `_Server` as a class; its methods are proved to follow the step relation |
| `StopMidRequest.dfy` | a stop signal while a response is being sent, as the client sees it |
| `TapLine.dfy`, `TapStream.dfy` | one TAP line and its grammar; a stream and its verdict |
| `TapInput.dfy`, `TapDriver.dfy` | the input as text, and the scripts of sharness; the awk program as a class |
| `Framing.dfy`, `Responses.dfy` | printing and reading a response; the writers and a receiving client |
| `JobPath.dfy`, `Utf8.dfy` | base 58, percent-encoding and the job path; decoding with replacement |
| `Submission.dfy` | from the response to a submission back to the job |
| `Prelude.dfy`, `Digits.dfy` | options, results, decimal numerals |

`dafny verify dfyconfig.toml` checks everything.

The serve loop is modelled twice. `ServeProtocol` gives each program point of `serve`, of the hooks
that `_Server` overrides and of the standard library's `handle_request` between them; a step is
taken by the program, by the clock, by the network or by a signal. The theorems are about every run
of this relation. `Server.Server` has the fields of `_Server` and methods in the shape of the
source, where `Preempt` stands between any two statements for whatever the clock and other processes
may do. Its `Valid()` says that some run of the relation ends in the object's present state, so each
method's contract places the object in a state to which the theorems apply.

Assumptions of the serve loop: the clock is the monotonic one, does not go back, and counts whole
microseconds; a wait may end late but never early; an accepted socket is a new identity; the
listening socket has no timeout of its own; `_stop` runs to its end once entered, and so does the
`finally` clause of `serve`. A byte on the wire is a character of a `string` in the framing part; the
path part tells bytes from characters.

Where the code and its comments disagree, the model follows the code:

- Lines 387-391 of `flux-rest-server.py` say that `Handler.timeout` is None; line 237 sets it to 30
  seconds. The grace period is proved to bound the stop either way.
- The sign check on `--idle-timeout` (710-714) keeps out zero and negative values. Neither would keep
  `serve` from ending: once the last held deadline has passed it ends after a fixed number of steps,
  whatever the sign (`ServeQuiescence.QuietServeEndsAfterLingers`). What a negative value loses, and
  zero does not, is a bound on wake-ups until then that does not depend on how fast the program runs
  (`ServeQuiescence.BoundedAtAnySpeedExactlyWhenNotNegative`).
- With `TAP_DRIVER_QUIET` the console verdict (`tap-driver.sh:641-646`) is computed before the plan
  and the exit status are checked (650-669), so it can read SKIP or PASS for a test that is recorded
  as ERROR. `TapStream.QuietVerdictAgrees` says exactly when the two agree, and
  `TapStream.QuietVerdictCanDiffer` gives a stream for which they do not.
- The abort message "only one input line" (`tap-driver.sh:562`) is for no line at all: a single line
  is taken as the exit status.

## Model

| member | source | states |
|---|---|---|
| ServeTheorems.NoWaitOrAcceptAfterStop | src/cmd/flux-rest-server.py:458-487 | In every interleaving, once a stop signal has been delivered no further wait is started and no further connection accepted. |
| ServeTheorems.StopEndsServe | src/cmd/flux-rest-server.py:519-530 | After the first stop signal the program takes at most six more steps, the running handler counting as one, and having taken them is out of `serve`. |
| ServeTheorems.StoppingNeverBlocks | src/cmd/flux-rest-server.py:458-477 | A stopping server has a step of its own to take, or a request in flight with the grace timer armed. |
| ServeTheorems.SignalRaisesUnlessServing | src/cmd/flux-rest-server.py:473-487 | A signal unwinds the loop at once exactly when no request is in flight or a stop was already asked for, and uses the timer up if it is the timer's; otherwise it arms the timer and leaves the program where it is. |
| ServeTheorems.NoEarlyTruncation | src/cmd/flux-rest-server.py:458-477 | A request in flight is cut off only by a second delivery; with a single signal from outside that is the timer, at least the grace period after that signal. |
| ServeTheorems.GraceIsBounded | src/cmd/flux-rest-server.py:468-477 | While a stopping server still serves, the timer stands at the first signal plus the grace period, and its alarm ends the request. |
| ServeTheorems.TimerOnlyWhileStopping | src/cmd/flux-rest-server.py:519-530 | An armed timer implies a stop in progress; when `serve` is over it is disarmed. |
| ServeTheorems.RefusedIsLastSurviving | src/cmd/flux-rest-server.py:552-563 | In every reachable state at rest, `_refused` is the last sixteen of the refusals whose deadline lies after the latest reap, and a suffix of the refusal history. |
| ServeTheorems.NewestRefusalSurvives | src/cmd/flux-rest-server.py:552-580 | The connection just refused is still held after the eviction loop, so `shutdown_request` leaves it open. |
| ServeTheorems.TimeoutIsLeastLimit | src/cmd/flux-rest-server.py:489-501 | In every run deadlines are in order, and the timeout chosen from the head is the least over the idle timeout and all held lingers, past no held deadline, and not negative. |
| RefusedQueue.ServeTimeoutIsLeastLimit | src/cmd/flux-rest-server.py:489-501 | For any sorted queue the head alone gives the least limit, and there is no timeout only if there is no limit. |
| RefusedQueue.ExpiredIsPrefix | src/cmd/flux-rest-server.py:557-563 | On a sorted queue a reap drops exactly a prefix: the entries whose deadline has come. |
| ServeTheorems.LingerIsExact | src/cmd/flux-rest-server.py:384-385 | A refused connection has been closed exactly when a reap saw its deadline or sixteen later ones were refused; an early close is of the second kind. |
| ServeTheorems.ConnectionsConserved | src/cmd/flux-rest-server.py:532-600 | At the loop test every accepted connection is exactly one of served and shut down, held open, or refused and closed. |
| ServeTheorems.ClosedAtMostOnce | src/cmd/flux-rest-server.py:552-563 | At every point of every run, no refused connection has been closed twice. |
| ServeTheorems.RefusedLingersOneSecond | src/cmd/flux-rest-server.py:384-385 | From the step that refuses it, a connection is closed no earlier than a second later, unless sixteen more have been refused. |
| ServeTheorems.OnlyPermittedPeersProcessed | src/cmd/flux-rest-server.py:582-600 | With a permitted uid, every connection that reaches the handler is from exactly that uid, and every refused one from another or from one that cannot be read; without one nothing is refused. Every accepted connection goes one of the two ways. |
| ServeTheorems.IdleNeverEarly | src/cmd/flux-rest-server.py:449-456 | The idle flag is set only after one wait of the full idle timeout since which nothing was accepted; without an idle timeout never. |
| ServeInvariants.InvKept | src/cmd/flux-rest-server.py:439-600 | Every step keeps the invariant on signals, waits, the refused queue and the accepted connections. |
| ServeQuiescence.QuiescentServeEnds | src/cmd/flux-rest-server.py:489-530 | Without arrivals and signals `serve` takes a bounded number of steps, never waits without an end, and when they are used up has returned. |
| ServeQuiescence.QuietServeEndsAfterLingers | src/cmd/flux-rest-server.py:489-530 | Whatever the sign of the idle timeout, once the clock has passed the last held deadline a quiet `serve` takes at most a fixed number of steps more, never waits without an end, and when they are used up has returned. |
| ServeQuiescence.BoundedAtAnySpeedExactlyWhenNotNegative | src/cmd/flux-rest-server.py:710-714 | Some bound holds for the steps of all quiet stretches, however fast they are taken, if and only if the idle timeout is not negative. |
| ServeQuiescence.NegativeTimeoutSpins | src/cmd/flux-rest-server.py:489-501 | With a negative idle timeout there is no bound on wake-ups independent of execution speed: while a refused connection lingers the loop can wake up any number of times before the clock moves. |
| ServeQuiescence.IdleTimeoutPassedOn | src/cmd/flux-rest-server.py:710-714 | The option reaches the server as given; no option and infinity mean no timeout; exactly the durations that are not positive are errors. |
| ServeQuiescence.AcceptedTimeoutEnds | src/cmd/flux-rest-server.py:710-714 | Every idle timeout `main` accepts is positive and makes a quiescent `serve` take a bounded number of steps, after which it has returned, without ever waiting for nothing. |
| StopMidRequest.SignalledClientReadsWhole | src/cmd/flux-rest-server.py:458-487 | With at most one signal from outside, a client that keeps reading accepts the response and has its whole body if the handler ends with the response out or before the grace period is over; only the timer's alarm can make it otherwise. |
| StopMidRequest.InterruptedOnlyByTimer | src/cmd/flux-rest-server.py:473-477 | With at most one signal from outside, a running handler is unwound only by the timer, at or after the end of the grace period. |
| StopMidRequest.ClientVerdict | t/scripts/stop_midrequest.py:61-93 | However a part of a good response is cut up, the reader and the check together accept it exactly if it is the whole, and yield its body. |
| Server.Server.Stop | src/cmd/flux-rest-server.py:458-477 | The handler's whole new state, and that it raises exactly on a repeat or outside a request. |
| Server.Server.Preempt | src/cmd/flux-rest-server.py:461-466 | What can happen between two statements: time, signals and nothing to the queue; outside a request a signal cannot go unnoticed. |
| Server.Server.Reap | src/cmd/flux-rest-server.py:557-563 | Unless interrupted, leaves the entries whose deadline is after one clock reading taken during the call. |
| Server.Server.Refuse | src/cmd/flux-rest-server.py:532-555 | Unless interrupted, appends the connection with its deadline and leaves the last sixteen entries. |
| Server.Server.ShutdownRequest | src/cmd/flux-rest-server.py:576-580 | Shuts a connection down unless it is held in the refused queue. |
| Server.Server.VerifyRequest | src/cmd/flux-rest-server.py:582-600 | Lets through exactly a peer of the permitted uid, or anyone when none is set, and refuses the rest. |
| Server.Server.GetRequest | src/cmd/flux-rest-server.py:570-574 | Keeps the held connections whose deadline is after one clock reading taken during the call, then yields an accepted connection to be verified, or returns to the loop when accept fails. |
| Server.Server.ProcessRequest | src/cmd/flux-rest-server.py:479-487 | However the request ends, the in-request flag is down again; the connection is recorded as processed, and shut down if the handler returned, left to the clean-up if it failed. |
| Server.Server.HandleTimeout | src/cmd/flux-rest-server.py:449-456 | Goes idle exactly when nothing was held at the time, and otherwise keeps the connections whose deadline is after one clock reading taken during the call. |
| Server.Server.Serve | src/cmd/flux-rest-server.py:503-530 | The loop follows the step relation and starts one wait a turn; it returns only stopping or idle, is interrupted only when stopping, and leaves the timer disarmed. |
| TapStream.ExactVerdict | config/tap-driver.sh:230-277 | The verdict on every stream by what its lines say: none exactly if a needed exit status is none; ERROR exactly if something bailed out, a number or the plan is wrong or the status bad; otherwise FAIL if a result is not acceptable, SKIP if all were skipped, PASS if neither. |
| TapStream.OutcomeMeans | config/tap-driver.sh:258-277 | Which of the six outcomes a result line has, for every combination of ok, directive, number and --expect-failure. |
| TapStream.ResultRecorded | config/tap-driver.sh:202-277 | In any stream a result line adds one outcome: its own, or ERROR if the plan seen so far or its number forbids it. |
| TapStream.NothingAfterBailOut | config/tap-driver.sh:580-581 | The record ends with the ERROR of the bail-out, whatever lines and whatever exit status come after it. |
| TapStream.PlanPositionIrrelevant | config/tap-driver.sh:349-379 | Moving a lone plan line from first to last never changes the verdict. |
| TapStream.PassRecordsEveryResult | config/tap-driver.sh:319-346 | With or without --expect-failure, a PASS means the record is the outcome of each result line in order, as many as planned and at least one. |
| TapStream.RecordNeverEmpty | config/tap-driver.sh:650-661 | When the program finishes something has been recorded, so the verdict of an empty record cannot arise. |
| TapStream.RecheckMatchesVerdict | config/tap-driver.sh:212-243 | A test is marked for re-running exactly when its verdict is FAIL or ERROR. |
| TapStream.QuietVerdictAgrees | config/tap-driver.sh:641-669 | The quiet console verdict equals the recorded one if and only if there was a bail-out or an error already or the final checks pass. |
| TapStream.QuietVerdictCanDiffer | config/tap-driver.sh:641-669 | A script that prints nothing and exits 1 is summed up as SKIP and recorded as ERROR. |
| TapLine.EscapedExactlyWhenOdd | config/tap-driver.sh:451-463 | On every text, the directive found is discarded exactly when the maximal run of backslashes right before its '#' has odd length, and is the directive otherwise. |
| TapLine.DirectiveReadsBack | config/tap-driver.sh:438-471 | A directive at the end of the line or with a reason after it, with any blanks, is read back unless an odd number of backslashes escapes it. |
| TapLine.DirectiveLineReadsBack | config/tap-driver.sh:398-480 | A whole result line with number, text and directive, such as "ok 2 # skip no jq", is read back as that result, that number and that directive. |
| TapLine.KeywordInAnyCase | config/tap-driver.sh:438 | The two directives letter by letter, in either case. |
| TapLine.OtherCommentIsNoDirective | config/tap-driver.sh:438-447 | A '#' without one of these words after it, or with a longer word, is no directive. |
| TapLine.ClassifiedByForm | config/tap-driver.sh:583-627 | A line is a result, a plan, a skipped plan or a bail-out if and only if it has that form, and otherwise none of them. |
| TapLine.ResultClassified | config/tap-driver.sh:583-589 | "ok" or "not ok" at the start, alone or before a non-word character, is a result with that outcome. |
| TapLine.PlanClassified | config/tap-driver.sh:590-598 | "1..", digits and blanks are a plan of that number, leading zeros or not. |
| TapLine.SkipPlanClassified | config/tap-driver.sh:599-609 | "1..", zeros, blanks and '#' are a plan of none with what follows as its reason. |
| TapLine.BailOutClassified | config/tap-driver.sh:610-615 | "Bail out!" after any blanks bails out, whatever follows. |
| TapLine.SkipReasonReadsBack | config/tap-driver.sh:602-607 | The reason is read back without the word SKIP and the blanks around it. |
| TapLine.PlainReasonReadsBack | config/tap-driver.sh:602-607 | A reason that does not start with the word SKIP is read back whole. |
| TapLine.WordCharacters | config/tap-driver.sh:584 | The characters that continue a word. |
| TapLine.BackslashesIsMaximalRun | config/tap-driver.sh:458-460 | The number counted is the length of the maximal run of backslashes before a position. |
| TapLine.CountBackslashes | config/tap-driver.sh:458-460 | The counting loop computes that number. |
| TapLine.NumberedResultReadsBack | config/tap-driver.sh:398-434 | "ok N - text" and "not ok N - text" are read back as that result and number, for all texts without '#'. |
| TapLine.UnnumberedResultReadsBack | config/tap-driver.sh:398-434 | A result line whose text does not start with a number of its own is read back without one. |
| TapLine.PlanReadsBack | config/tap-driver.sh:590-598 | "1..N" is read back as a plan of N tests. |
| TapLine.StatusExactly | config/tap-driver.sh:482-487 | A line is read as exit status n exactly if it is the numeral of n, or zeros for zero. |
| TapInput.BailOutIsError | config/tap-driver.sh:610-627 | A "Bail out!" on any line but the last makes the verdict ERROR. |
| TapInput.ScriptVerdict | t/sharness.sh:271-295 | The verdict on what a sharness script prints, by how its tests came out (passed, failed, known breakage fixed or not, skipped) and its exit status. |
| TapInput.SkipAllVerdict | t/sharness.sh:755-757 | A script that skips all its tests is recorded as SKIP. |
| TapDriver.FindDirective | config/tap-driver.sh:436-480 | Finds the directive the line has, escapes taken into account. |
| TapDriver.Driver.AddTestResult | config/tap-driver.sh:202-209 | Appends the result and keeps the set of results seen equal to the elements of the list. |
| TapDriver.Driver.SetupResultObj | config/tap-driver.sh:398-434 | Number, directive and the unplanned flag of the result object, from the line and the plan seen so far. |
| TapDriver.Driver.HandleTapPlan | config/tap-driver.sh:349-379 | The new plan state and results; aborts exactly on a reason to skip a plan of some tests. |
| TapDriver.Driver.HandleLine | config/tap-driver.sh:578-634 | One line moves the variables as the stream's fold does, and never aborts. |
| TapDriver.Driver.ReadLoop | config/tap-driver.sh:550-576 | Every line but the last is handled once and in order, the last is kept as exit status, and only empty input aborts. |
| TapDriver.Driver.GetGlobalTestResult | config/tap-driver.sh:230-243 | The loop over the set computes the global result. |
| TapDriver.Driver.MustRecheck | config/tap-driver.sh:211-218 | The loop over the set finds an unacceptable outcome if there is one. |
| TapDriver.Driver.WriteTestResults | config/tap-driver.sh:508-516 | What is written: list, verdict, recheck exactly on failure, and copying exactly when something is not PASS. |
| TapDriver.Driver.FinishUp | config/tap-driver.sh:650-671 | The final checks and the file written, or an abort when the last line is no exit status. |
| TapDriver.Driver.Run | config/tap-driver.sh:552-673 | The recorded verdict of the whole program is the verdict of the stream of all lines but the last, with the last as exit status; ERROR if one of them bails out. |
| Framing.ReadsBack | t/scripts/stop_midrequest.py:74-91 | For every head without CR or LF in its parts and every body, the reader gives back status and body exactly when the last Content-Length is the body's length. |
| Framing.ReadsPrefix | t/scripts/stop_midrequest.py:74-91 | On any prefix of a response the reader first waits for the blank line, then judges by the part of the body it has. |
| Framing.EveryPrefixRejected | t/scripts/stop_midrequest.py:76-91 | Every proper prefix is rejected, as lacking the blank line or as a truncated body according to where it ends. |
| Framing.HeadersArrive | t/scripts/stop_midrequest.py:83-84 | Every header printed arrives as one line, in order, and nothing else does. |
| Framing.LengthExactly | t/scripts/stop_midrequest.py:83-87 | The declared length is none, an error, or the last one, according to which headers name it and hold numbers. |
| Framing.ReadIntOf | t/scripts/stop_midrequest.py:87 | A number is read with its sign from between white space. |
| Framing.ReadIntExactly | t/scripts/stop_midrequest.py:87 | A number is read from exactly these texts: white space, a sign or none, digits, white space. |
| Framing.SpaceCharacters | t/scripts/stop_midrequest.py:87 | What counts as white space in a byte string. |
| Framing.LowerExactly | t/scripts/stop_midrequest.py:86 | A header name is recognised in any case of letters and only then. |
| Framing.ContainsExactly | t/scripts/stop_midrequest.py:80 | The status code is found anywhere in the status line, and only there. |
| Framing.FindLength | t/scripts/stop_midrequest.py:83-87 | The loop over header lines finds the last Content-Length, and fails on one that is no number. |
| Framing.CheckResponse | t/scripts/stop_midrequest.py:74-93 | The step-by-step check computes the reader's judgement. |
| Responses.ForbiddenReadsBack | src/cmd/flux-rest-server.py:402-422 | The early 403 is a well-formed response with its body, and no proper prefix of it is. |
| Responses.SentReadsBack | src/cmd/flux-rest-server.py:343-352 | What `_send` prints, with any extra headers that name no length, is accepted whole and only whole. |
| Responses.SentHeadersArrive | src/cmd/flux-rest-server.py:346-351 | The header lines of a response are those it starts with, type, length, and every extra header, in this order and once each. |
| Responses.RefusalHeadersArrive | src/cmd/flux-rest-server.py:415-422 | The four header lines of the early 403. |
| Responses.RefusalIsBadStatus | t/scripts/stop_midrequest.py:79-81 | The early 403 is rejected for its status. |
| Responses.Handler.Send | src/cmd/flux-rest-server.py:343-354 | Either the whole response goes out, or a write has failed and a proper prefix has; a broken pipe is passed over, every other failure is passed on. |
| Responses.ReadAll | t/scripts/stop_midrequest.py:61-71 | Joins what arrives up to the end of the stream, and fails if the stream goes silent first. |
| Responses.SilenceTimesOut | t/scripts/stop_midrequest.py:65-68 | A stream that goes silent before it ends is a time-out, whatever has arrived. |
| Responses.ClientIsNeverMisled | t/scripts/stop_midrequest.py:61-91 | Whatever part of a response goes out and however it is cut into pieces, the client takes it for a response exactly when it is the whole, and then has status and body. |
| Responses.RefusedClientIsNeverMisled | src/cmd/flux-rest-server.py:402-422 | Whatever part of the early 403 goes out and however it is cut into pieces, the client takes it for a response exactly when it is the whole. |
| Responses.CheckAcceptsOnlyWhole | t/scripts/stop_midrequest.py:74-93 | The test's check accepts exactly a whole 200 response with a complete body. |
| JobPath.TextReachesDecoder | src/cmd/flux-rest-server.py:160-166 | A Unicode text encoded into a path reaches the id decoder unchanged, decoded once, exactly if it is not empty and has no '/'; no other text ever does, and a text encoded twice arrives encoded once. |
| JobPath.BytesReachDecoder | src/cmd/flux-rest-server.py:163 | Any percent-encoded bytes reach the id decoder as the text they decode to, and nothing is lost exactly when they are well-formed UTF-8. |
| JobPath.InvalidByteReplaced | src/cmd/flux-rest-server.py:163 | A byte that is no part of a character arrives as U+FFFD between the texts it stood between. |
| JobPath.EscapeOrPercent | src/cmd/flux-rest-server.py:163 | '%' and two hexadecimal digits are one byte; any other '%' is itself. |
| JobPath.HexDigits | src/cmd/flux-rest-server.py:163 | Hexadecimal digits count in either case. |
| JobPath.UnreservedExactly | src/cmd/flux-rest-server.py:137-139 | Which characters need no percent-encoding, at the edges of each range. |
| JobPath.NoEscapeNoChange | src/cmd/flux-rest-server.py:163 | A text without '%' is not changed. |
| JobPath.PrefixIsLiteral | src/cmd/flux-rest-server.py:160-162 | Only a path that starts with the prefix letter for letter is a job's. |
| JobPath.EncodedTextRoutes | src/cmd/flux-rest-server.py:239-251 | A text encoded into a path gets through the split at the query to the decoder, for every decoder: its answer, or malformed. |
| JobPath.EveryFormRoutes | src/cmd/flux-rest-server.py:137-140 | A 64-bit id in plain, fancy or decimal form, encoded into a path, leads back to the job, with or without a query. |
| JobPath.LocationRoundTrip | src/cmd/flux-rest-server.py:133-142 | For every 64-bit id the Location, with or without a query, parses back to that id, and encoding its id segment changes nothing. |
| JobPath.LocationsDiffer | src/cmd/flux-rest-server.py:141-142 | Different ids have different Locations. |
| JobPath.LocationIsGoodHeader | src/cmd/flux-rest-server.py:142 | A Location is free of CR and LF and its header declares no length, so the framing results cover it. |
| JobPath.AlphabetExactly | t/t1002-job-submit.t:38-41 | Which characters are base 58 digits, and that each has its place in the alphabet as value. |
| JobPath.AlphabetInOrder | t/t1002-job-submit.t:38-41 | The digit of every value. |
| JobPath.AlphabetAscends | t/t1002-job-submit.t:38-41 | Digits are ordered as their values are. |
| JobPath.PrintedShape | t/t1002-job-submit.t:38-41 | The printed forms: "f" or its hooked form and base 58 digits, or decimal digits. |
| JobPath.LocationExamples | src/cmd/flux-rest-server.py:141-142 | Four Locations in full. |
| Submission.SubmittedJobIsFound | src/cmd/flux-rest-server.py:141-142 | The Location read out of the response to a submission leads back to the job submitted. |
| JobPath.PrintedIdReadsBack | src/cmd/flux-rest-server.py:137-141 | An id printed in plain, fancy or decimal form is read back, exactly if it has 64 bits. |
| JobPath.PrintedIsPlain | src/cmd/flux-rest-server.py:137-141 | Of these forms only the fancy one has characters that a URL must percent-encode. |
| Utf8.CutCharReplacedOnce | src/cmd/flux-rest-server.py:163 | A character cut short before a text is replaced by a single U+FFFD. |
| Utf8.EncodingExamples | src/cmd/flux-rest-server.py:137-139 | The bytes of characters of one to four bytes, the hooked f of job ids among them. |
| Utf8.OrderPreserved | src/cmd/flux-rest-server.py:163 | Encodings are ordered as code points are. |
| Utf8.EncodeOfDecode | src/cmd/flux-rest-server.py:163 | Encoding a decoded byte string gives it back exactly when it is made of whole characters. |
| JobPath.EncodeOfDecode | t/t1002-job-submit.t:38-41 | A base 58 numeral is the printed form of its value exactly when it has no superfluous leading digit. |

## Left out

- Server.Server.Serve: follows at most a given number of turns of the loop, because the loop has no bound of its own; the number is arbitrary, so every finite part of an execution is covered.
- Server.Server.Preempt: a signal inside `_stop` itself or inside the `finally` clause of `serve` is not modelled; both are atomic.
- ServeQuiescence.QuiescentServeEnds: an integer clock, on which a wait that is over has ended at least one tick past its deadline; Python compares floating-point times.
- Framing.CheckResponse: the look into the JSON body is a parameter, and Python's underscores between digits are not accepted as part of a number.
- JobPath.PrintedIdReadsBack: hexadecimal and the other forms that flux-core knows are not read; `JobPath.EncodedTextRoutes` covers them by taking any decoder.
- TapInput.ScriptVerdict: the remarks of a sharness script, which start with '#', are not among its lines; they are of no kind (`TapLine.ClassifiedByForm`) and change nothing.
- TapLine.StatusExactly: other texts that awk compares equal to zero, such as "0.0", are taken for no status.
- Real sockets, systemd activation, address families and file modes: kernel behaviour. A connection has an identity and a peer uid that may be unreadable.
- SIGINT ignored by inheritance: a signal that is ignored is simply never delivered.
- `service_actions`: the same reap on a path that `serve` does not use.
- The steps of the serve loop do not track bytes; `StopMidRequest` adds what a handler has written when it ends.
- What the standard library does with a failure that `_send` passes on, beyond the loop's own clean-up.
- HTTP/0.9 requests, for which the standard library prints no headers, and the Date and Server values, which are parameters.
- Flux RPCs, job specifications, the branch tables of `do_GET`, `do_POST` and `do_DELETE`, JSON, logging and argument parsing.
- TAP descriptions, explanations, comments, colours and console wording: they do not affect the verdict.
- `flux-rest-server-ensure.py`, `jwt-auth.py`, the other scripts and all configuration.
