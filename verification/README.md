# VITOS: telemetry bus, AI engine, dashboard feeds, ghost approval and login sessions

VITOS watches students' lab sessions. Collectors publish one JSON line per event to the bus
daemon `vitos-busd`; the daemon appends each line to a rotating log and fans it out to its
subscribers. The AI engine, a subscriber, keeps a 60-second window per (student, session), scores
every event, logs alerts and isolates sessions; the dashboard, another subscriber, keeps a ring
of recent events per student and streams events and alerts to browsers. `vitosctl ghost` gates an
anonymising network mode behind two people, and the dashboard's login sessions gate every route.

The project proves properties of whole runs of these parts. `dafny verify dfyconfig.toml` checks
all of it.

| file | models |
|---|---|
| `Framing.dfy` | cutting byte streams into lines, in the engine and in the daemon's scanner |
| `Bus.dfy` | the bus daemon: a class with its critical sections, and the protocol of its goroutines |
| `Telemetry.dfy` | the parsed event |
| `Features.dfy`, `Anomaly.dfy`, `Scorer.dfy` | sliding window, learning, scoring |
| `Service.dfy`, `EngineTheorems.dfy` | the engine's loop, and its whole-run theorems |
| `EventHub.dfy`, `AlertTail.dfy` | the dashboard's event streams and alert stream |
| `Ghost.dfy` | dual approval, with commands atomic and with their file operations interleaved |
| `Sessions.dfy` | login sessions with lazily deleted rows |
| `Sorting.dfy`, `Flows.dfy`, `Roster.dfy`, `Udev.dfy` | the network table, the student roster, the USB collector |

Code that updates state is a class or a method with a loop. Its methods are proved equal to a
specification function on the old state; the theorems are about that function.

## How to read the model

- A run is a sequence of steps with the states between them; theorems about runs hold for every
  interleaving the `Enabled` predicates allow. `Bus.Step` has accept, read, hang-up, broadcast,
  shutdown and, inside a broadcast, failing appends, `Stat` calls, renames, reopens and writes.
- Connections, client queues and processes are numbers never used before; session ids are drawn
  fresh (`Sessions.FreshIds`). Clocks, group memberships and PAM's verdict are parameters.
- A JSON parser is an arbitrary function from a line to an event or to nothing. Events are
  objects with the expected field types; timestamps are integers and so comparable.
- The intent classifier is an arbitrary function of the command, a fitted model an arbitrary
  function to a real (the negation the source applies to `score_samples` is part of it), and
  fitting an arbitrary function of the baseline vectors.
- Scores and confidences are exact reals; `Scorer.Round` is Python's round-half-to-even.
- An append to a file is all or nothing, except where a lemma is about torn ones
  (`AlertTail.FollowsExactly`, `AlertTail.TornLineExactly`, `Ghost.InterleavedApproval`).

## What the proofs show about the code

- The AI engine as wired passes `is_baseline=False` and never commits a baseline session
  (`service.py:105`), though the design (`docs/superpowers/specs/2026-04-07-vitos-sp1-base-iso-design.md:222`)
  describes a learning phase: every anomaly score is 0 and no session is ever isolated
  (`EngineTheorems.ShippedWiringNeverIsolates`). The theorem on learning covers every wiring.
- Lite mode is documented as anomaly-only scoring (line 355 of the same design), but the code zeroes
  the anomaly too: no alert is ever raised (`EngineTheorems.LiteNeverAlerts`). Nor does a scope
  breach alone raise one while a student is untrained, as line 222 has it: it scores 10, and an
  alert needs a command (`EngineTheorems.OnlyCommandsAlert`).
- The classifier's confidence is used as it comes. Inside [0, 1] intent alone scores at most 28
  (`Scorer.IntentBoundExactly` says exactly when); outside, it reaches Warning
  (`Scorer.IntentAloneReachesWarning`), and under exactly the negative ones a riskier label can
  score lower (`Scorer.LabelMonotoneExactly`).
- The window is the filter of the history exactly while no arrival revives an outdated event or
  hides one behind a fresh one (`Features.WindowIsFilterExactly`); late events can do both.
- One failed reopen of the log ends logging until restart (`Bus.ReopenFailureEndsLogging`), and one
  over-long line ends its publisher (`Framing.ScanStopsAtOverlong`).
- Shutdown closes the log outside the mutex; a rotation in progress can reopen it and leave it open
  for later broadcasts (`StopLog` with `overtaken` in `Bus.Step`).
- A ghost id `user.profile` stands for one pair only when neither part has a dot
  (`Ghost.UnambiguousExactly`); `Ghost.DottedNamesShareToken` is a token that admits a pair nobody
  requested. A request that overtakes a running approve is unlinked unread (`Ghost.OvertakenRequest`); an
  approve unlinks what it approved exactly when the file was left, or put back, as it read it
  (`Ghost.UnlinksWhatItApprovedExactly`). The id `.` can be requested but never approved: its token
  path is the directory.
- An alert line that is read in pieces sends whatever pieces parse on their own, and is lost when
  none does (`AlertTail.TornLineExactly`).
- Lazy deletion of expired login rows shows only when the clock runs back
  (`Sessions.DeletionVisibleExactly`).
- A udev property whose key starts with `UDEV` is taken for a header (`Udev.PropertyKeptExactly`),
  and the last block is never emitted (`Udev.RoundTrip`).

## Model

| member | source | states |
|---|---|---|
| Framing.NextNL | vitos-v1/packages/vitos-monitor/ai/vitos_ai/service.py:92-93 | the split point is the first newline, or the end when there is none |
| Framing.JoinOfSplit | vitos-v1/packages/vitos-monitor/ai/vitos_ai/service.py:92-93 | the lines and the remainder, joined again, are the stream; no piece hides a newline |
| Framing.SplitOfJoin | vitos-v1/packages/vitos-monitor/ai/vitos_ai/service.py:92-93 | splitting joined lines gives exactly those lines and the unfinished remainder |
| Framing.CarryOver | vitos-v1/packages/vitos-monitor/ai/vitos_ai/service.py:86-93 | carrying the unfinished line over to the next chunk gives the same lines as reading both at once |
| Framing.PrefixOfStream | vitos-v1/packages/vitos-monitor/ai/vitos_ai/service.py:86-93 | having read only part of a stream yields a prefix of its lines |
| Framing.LinesOfWholeLines | vitos-v1/packages/vitos-monitor/ai/vitos_ai/service.py:92-93 | whole broadcast lines followed by a torn one split into exactly the whole ones |
| Framing.ScanGrows | vitos-v1/packages/vitos-monitor/busd/main.go:134-139 | what the scanner handed out stays handed out however more bytes arrive and end |
| Framing.ScanGivesWholeLines | vitos-v1/packages/vitos-monitor/busd/main.go:134-139 | every line handed to the broadcast ends in its only newline and fits the limit |
| Framing.LineForwarded | vitos-v1/packages/vitos-monitor/busd/main.go:134-139 | a line under 1 MiB goes through byte for byte unless it ends in a carriage return, of which one is taken off; a longer one does not go through |
| Framing.ScanExactly | vitos-v1/packages/vitos-monitor/busd/main.go:134-139 | for any input: the lines before the first over-long one, then at the end of input a legal unfinished rest, and nothing else |
| Framing.ScanOfLines | vitos-v1/packages/vitos-monitor/busd/main.go:134-139 | whole lines are all forwarded, in order, less one trailing carriage return, exactly when none is over-long |
| Framing.ScanKeepsBytes | vitos-v1/packages/vitos-monitor/busd/main.go:134-139 | a publisher of legal lines without trailing carriage returns is reproduced byte for byte, line by line |
| Framing.ScanStopsAtOverlong | vitos-v1/packages/vitos-monitor/busd/main.go:134-139 | wherever the first over-long line comes, everything before it is forwarded and nothing from it on |
| Bus.Daemon.constructor | vitos-v1/packages/vitos-monitor/busd/main.go:34-67 | no connections, an open log, and the files as an earlier run left them |
| Bus.Daemon.AcceptSub | vitos-v1/packages/vitos-monitor/busd/main.go:102-112 | the connection is subscribed from here on and has got nothing yet; nothing else changes |
| Bus.Daemon.AcceptPub | vitos-v1/packages/vitos-monitor/busd/main.go:114-125 | registers a publisher and nothing else |
| Bus.Daemon.ClosePub | vitos-v1/packages/vitos-monitor/busd/main.go:128-133 | deregisters a publisher and nothing else |
| Bus.Daemon.AppendAndRotate | vitos-v1/packages/vitos-monitor/busd/main.go:148-163 | the file contents and handle after append, rotation and their failures, including the rename that fails and the reopen that fails |
| Bus.Daemon.WriteToSubs | vitos-v1/packages/vitos-monitor/busd/main.go:164-170 | in any map order, every subscriber has the whole line or, dropped, a proper prefix |
| Bus.Daemon.Broadcast | vitos-v1/packages/vitos-monitor/busd/main.go:145-171 | log first, then every subscriber, in one critical section |
| Bus.Daemon.Stop | vitos-v1/packages/vitos-monitor/busd/main.go:77-100 | no registered connection remains, and the log handle is closed unless a rotation in progress replaces it meanwhile |
| Bus.StepWire | vitos-v1/packages/vitos-monitor/busd/main.go:145-171 | exactly what one step of the daemon adds to a connection, and exactly which steps drop it |
| Bus.TotalOrder | vitos-v1/packages/vitos-monitor/busd/main.go:102-171 | in every run what a subscriber got is a contiguous run of the one broadcast sequence from its registration to its leaving, then at most a torn prefix of the failing line |
| Bus.GoneForGood | vitos-v1/packages/vitos-monitor/busd/main.go:164-170 | a dropped connection never gets another byte |
| Bus.ShutdownSilences | vitos-v1/packages/vitos-monitor/busd/main.go:77-100 | shutdown ends every subscription made before it |
| Bus.EndToEnd | vitos-v1/packages/vitos-monitor/busd/main.go:134-171 | for any chunking of writes and reads, the lines a subscriber cuts out are a contiguous run of the broadcast lines: none merged, split or torn; all of them once it has read everything |
| Bus.SubscribersAgree | vitos-v1/packages/vitos-monitor/busd/main.go:145-171 | two subscribers that both got the k-th broadcast got the same line |
| Bus.PubsExactly | vitos-v1/packages/vitos-monitor/busd/main.go:114-133 | a publisher is registered exactly from its accept until its handler ends or shutdown |
| Bus.SubsExactly | vitos-v1/packages/vitos-monitor/busd/main.go:102-171 | a subscriber is registered exactly from its accept until a failed write to it or shutdown |
| Bus.HandlerReads | vitos-v1/packages/vitos-monitor/busd/main.go:127-139 | a handler's buffer is exactly what its publisher wrote so far |
| Bus.HandlerForwards | vitos-v1/packages/vitos-monitor/busd/main.go:134-139 | the lines broadcast for a publisher are the first ones of the scanner's reading, never revised |
| Bus.PublisherOrder | vitos-v1/packages/vitos-monitor/busd/main.go:127-143 | per publisher, what is broadcast is a prefix, and when its handler is done all, of the scanner's reading of everything it wrote |
| Bus.PublisherVerbatim | vitos-v1/packages/vitos-monitor/busd/main.go:127-143 | per publisher of such lines the broadcasts are its own lines, byte for byte, in order, and all of them when its handler is done |
| Bus.LineGetsThrough | vitos-v1/packages/vitos-monitor/busd/main.go:102-171 | from every start there is a run in which a published line reaches a subscriber and the log, or with it the rotated file |
| Bus.StepRetains | vitos-v1/packages/vitos-monitor/busd/main.go:148-163 | writing one line keeps the two files a whole-line suffix of what was logged, whatever fails |
| Bus.LogIsSuffix | vitos-v1/packages/vitos-monitor/busd/main.go:145-163 | after any run, rotated file followed by live file is a whole-line suffix of everything ever logged |
| Bus.LogOpenExactly | vitos-v1/packages/vitos-monitor/busd/main.go:97-163 | the log is open exactly while no close has reached it and no rotation failed to reopen it; failing appends, failing renames and a close overtaken by a rotation do not end logging |
| Bus.LoggedIsSent | vitos-v1/packages/vitos-monitor/busd/main.go:145-171 | until logging ends, and with appends succeeding, logged and broadcast sequences are the same |
| Bus.ClosedLogIsFrozen | vitos-v1/packages/vitos-monitor/busd/main.go:97-163 | once the handle is closed or nil, neither file changes again |
| Bus.ReopenFailureEndsLogging | vitos-v1/packages/vitos-monitor/busd/main.go:155-161 | a failed reopen ends logging for the rest of the run |
| Bus.FailingRenamesLoseNothing | vitos-v1/packages/vitos-monitor/busd/main.go:151-161 | until a rotation moves it away, whatever renames fail, the live log holds all that was logged and the rotated file stays |
| Bus.FailingStatsKeepLog | vitos-v1/packages/vitos-monitor/busd/main.go:148-163 | while no `Stat` succeeds nothing is rotated, and only shutdown ends logging |
| Bus.MovedExceedsLimit | vitos-v1/packages/vitos-monitor/busd/main.go:148-163 | once a rotation has moved the log, the rotated file exceeds the limit for good, whatever fails later |
| Bus.RotationBounds | vitos-v1/packages/vitos-monitor/busd/main.go:148-163 | with `Stat` and rename succeeding, live log within the limit after each step; rotated file as it was until the first rotation, then above the limit by at most one line |
| Bus.RecentBytesRetained | vitos-v1/packages/vitos-monitor/busd/main.go:148-163 | in every run, whatever fails and whatever an earlier run left, the two files are the end of all ever logged: everything until a rotation moves the log, more than `maxBytes` after, so always the latest `maxBytes` bytes |
| Features.FeatureExtractor.constructor | vitos-v1/packages/vitos-monitor/ai/vitos_ai/features.py:19-21 | starts with no windows |
| Features.FeatureExtractor.Ingest | vitos-v1/packages/vitos-monitor/ai/vitos_ai/features.py:23-36 | the popping loop leaves exactly the trimmed window of this event's session, others unchanged; untracked events and those without a timestamp change nothing |
| Features.FeatureExtractor.Snapshot | vitos-v1/packages/vitos-monitor/ai/vitos_ai/features.py:38-64 | one pass computes every count, sum and distinct count, each by its own definition over the window |
| Features.FeatureExtractor.Tally | vitos-v1/packages/vitos-monitor/ai/vitos_ai/features.py:43-61 | what one event of each kind contributes to each feature |
| Features.CountIsCardinality | vitos-v1/packages/vitos-monitor/ai/vitos_ai/features.py:45-61 | a counter is the number of window positions that qualify |
| Features.SummaryOfOne | vitos-v1/packages/vitos-monitor/ai/vitos_ai/features.py:43-64 | what one event alone amounts to, by its own kind and fields |
| Features.SummaryOfParts | vitos-v1/packages/vitos-monitor/ai/vitos_ai/features.py:38-64 | counters add up over the parts of a window, and a destination in both parts counts once |
| Features.RootIsSensitive | vitos-v1/packages/vitos-monitor/ai/vitos_ai/features.py:56-59 | every path that starts with `/root` is a sensitive read |
| Features.AcceptedExactly | vitos-v1/packages/vitos-monitor/ai/vitos_ai/features.py:23-33 | a session's history is exactly the events with a timestamp that name this student and this session, neither empty |
| Features.WindowIsSuffix | vitos-v1/packages/vitos-monitor/ai/vitos_ai/features.py:32-36 | for any arrival order a window is a suffix of its session's history, and each event gone is outdated by a later arrival |
| Features.FreshIsRetained | vitos-v1/packages/vitos-monitor/ai/vitos_ai/features.py:32-36 | no event at or after the newest timestamp minus the window is ever lost |
| Features.SlidingIsFilterExactly | vitos-v1/packages/vitos-monitor/ai/vitos_ai/features.py:32-36 | for one session's arrivals: the window is the filter of the history after each of them exactly when none revives an outdated event or hides one behind a fresh one |
| Features.WindowIsFilterExactly | vitos-v1/packages/vitos-monitor/ai/vitos_ai/features.py:23-36 | over any interleaving of sessions: a session's window is at every time the filter of its history exactly under that condition on its timestamps |
| Features.WindowSlides | vitos-v1/packages/vitos-monitor/ai/vitos_ai/features.py:23-36 | a session's window depends on that session's own accepted events only |
| Features.OrderedWindowIsFilter | vitos-v1/packages/vitos-monitor/ai/vitos_ai/features.py:32-36 | with timestamps in order the window is the filter of the whole history by the cutoff |
| Features.LateEventBreaksFilter | vitos-v1/packages/vitos-monitor/ai/vitos_ai/features.py:34-36 | three events, the last one late, that revive an outdated one, so that the window is not the filter |
| Scorer.Round | vitos-v1/packages/vitos-monitor/ai/vitos_ai/scorer.py:29 | within a half of its argument, and even at exact halves |
| Scorer.RoundUnique | vitos-v1/packages/vitos-monitor/ai/vitos_ai/scorer.py:29 | being nearest with ties to even leaves one integer |
| Scorer.RoundMonotone | vitos-v1/packages/vitos-monitor/ai/vitos_ai/scorer.py:29 | rounding never reverses an order |
| Scorer.Score | vitos-v1/packages/vitos-monitor/ai/vitos_ai/scorer.py:25-43 | score in 0..100; Critical exactly when all three signals hold, then at least 80; Normal exactly below 20; Suspicious exactly in 20..49 |
| Scorer.ScoreMeaning | vitos-v1/packages/vitos-monitor/ai/vitos_ai/scorer.py:25-43 | the score is the integer nearest to 60 times anomaly plus 30 times weight plus 10 for a breach, the nearer end outside 0..100, and never below the Critical floor |
| Scorer.ScoreMonotone | vitos-v1/packages/vitos-monitor/ai/vitos_ai/scorer.py:25-43 | riskier in any signal never lowers score or category |
| Scorer.LabelMonotoneExactly | vitos-v1/packages/vitos-monitor/ai/vitos_ai/scorer.py:25-43 | a riskier label never lowers the score, and never the category, exactly when the confidence is not negative |
| Scorer.NegativeConfidenceReverses | vitos-v1/packages/vitos-monitor/ai/vitos_ai/scorer.py:27 | one input with a negative confidence for which a riskier label scores lower |
| Scorer.IntentAloneBounded | vitos-v1/packages/vitos-monitor/ai/vitos_ai/intent.py:16-23 | with confidence in [0, 1] intent scores at most 28, with a breach 38, and stays Suspicious |
| Scorer.IntentBoundExactly | vitos-v1/packages/vitos-monitor/ai/vitos_ai/scorer.py:25-43 | for any confidence both bounds hold exactly while label risk times confidence is at most 0.95 |
| Scorer.IntentBoundsReached | vitos-v1/packages/vitos-monitor/ai/vitos_ai/intent.py:16-23 | both bounds are reached |
| Scorer.IntentAloneReachesWarning | vitos-v1/packages/vitos-monitor/ai/vitos_ai/scorer.py:13-43 | for any confidence intent alone never passes Warning, and is Warning exactly from a weight of 1.65 |
| Scorer.AlertWithoutAnomaly | vitos-v1/packages/vitos-monitor/ai/vitos_ai/scorer.py:25-43 | with no anomaly, an alert exactly when label risk times confidence reaches 0.65, or 19/60 with a breach |
| Scorer.LabelAloneAlerts | vitos-v1/packages/vitos-monitor/ai/vitos_ai/intent.py:16-23 | the exact confidence from which each label alone raises an alert |
| Scorer.AnomalyAlone | vitos-v1/packages/vitos-monitor/ai/vitos_ai/scorer.py:25-43 | an anomaly alone scores at most 60 and is a Warning exactly from 0.825 |
| Anomaly.AnomalyScore | vitos-v1/packages/vitos-monitor/ai/vitos_ai/anomaly.py:29-33 | always in [0, 1], and 0 until the student is trained |
| Anomaly.RawExactly | vitos-v1/packages/vitos-monitor/ai/vitos_ai/anomaly.py:29-33 | once trained, above 0.7 exactly for a raw score above 0.55, 0 exactly up to -0.5, 1 exactly from 1 |
| Anomaly.RawInProportion | vitos-v1/packages/vitos-monitor/ai/vitos_ai/anomaly.py:32-33 | between these ends the anomaly rises strictly and in proportion to the raw score |
| Anomaly.VectorTellsAll | vitos-v1/packages/vitos-monitor/ai/vitos_ai/anomaly.py:20-22 | the model sees all eight features in the order of their names, none merged |
| Anomaly.AnomalyModel.constructor | vitos-v1/packages/vitos-monitor/ai/vitos_ai/anomaly.py:13-18 | nothing observed, committed or trained |
| Anomaly.AnomalyModel.Score | vitos-v1/packages/vitos-monitor/ai/vitos_ai/anomaly.py:24-33 | a baseline call adds the vector and answers 0; any other call answers the model's clamped score and changes nothing |
| Anomaly.AnomalyModel.CommitBaselineSession | vitos-v1/packages/vitos-monitor/ai/vitos_ai/anomaly.py:35-42 | counts the session, and refits exactly when enough sessions and vectors are there |
| Anomaly.AnomalyModel.IsTrained | vitos-v1/packages/vitos-monitor/ai/vitos_ai/anomaly.py:44-45 | true exactly for students with a model |
| Anomaly.LearnerCounts | vitos-v1/packages/vitos-monitor/ai/vitos_ai/anomaly.py:24-37 | over any history the buffer is the student's baseline vectors and the counter the student's commits |
| Anomaly.TrainedExactly | vitos-v1/packages/vitos-monitor/ai/vitos_ai/anomaly.py:24-45 | trained exactly when some commit, at least the min-th, found ten vectors |
| Anomaly.ModelIsLastFit | vitos-v1/packages/vitos-monitor/ai/vitos_ai/anomaly.py:35-42 | the model is the fit at the last such commit on this student's own vectors before it |
| Anomaly.TrainedForGood | vitos-v1/packages/vitos-monitor/ai/vitos_ai/anomaly.py:35-45 | training never reverts |
| Service.IsScopeBreach | vitos-v1/packages/vitos-monitor/ai/vitos_ai/service.py:35-47 | only tools and flows breach; an empty list, a missing port or a listed value never does; without a breach the value is listed |
| Service.JoinArgs | vitos-v1/packages/vitos-monitor/ai/vitos_ai/service.py:109-110 | the joined command is empty, and so not classified, only for no argument or one empty one |
| Service.JoinOfParts | vitos-v1/packages/vitos-monitor/ai/vitos_ai/service.py:109 | joined arguments have exactly one space between any two parts |
| Service.CommandsAreClassified | vitos-v1/packages/vitos-monitor/ai/vitos_ai/service.py:107-113 | a shell command or tool execution is classified by its text, or without one by its joined arguments; lite mode and all other events are not classified |
| Service.AnomalyOfWindow | vitos-v1/packages/vitos-monitor/ai/vitos_ai/service.py:103-105 | the anomaly is that of the student's own model on the session's window, and 0 in lite mode or without one |
| Service.Round3Near | vitos-v1/packages/vitos-monitor/ai/vitos_ai/service.py:128-130 | the figures in an alert are the nearest thousandths |
| Service.OnlyTrackedCounts | vitos-v1/packages/vitos-monitor/ai/vitos_ai/service.py:98-102 | without student or session nothing happens; with both, the event is the newest of its session's window |
| Service.ParsedExactly | vitos-v1/packages/vitos-monitor/ai/vitos_ai/service.py:92-97 | exactly the lines that parse are handled, in order, each at its own time |
| Service.UntilEofStops | vitos-v1/packages/vitos-monitor/ai/vitos_ai/service.py:88-90 | everything before the first empty read is handled, nothing after |
| Service.EngineLoop.constructor | vitos-v1/packages/vitos-monitor/ai/vitos_ai/service.py:65-86 | a fresh engine with nothing observed and nothing output |
| Service.EngineLoop.Judge | vitos-v1/packages/vitos-monitor/ai/vitos_ai/service.py:98-116 | the event is ingested, and judged by its session's window with it in, the models unchanged |
| Service.EngineLoop.Handle | vitos-v1/packages/vitos-monitor/ai/vitos_ai/service.py:98-137 | the new windows, last-score table, alerts and isolation calls for one event |
| Service.EngineLoop.HandleLine | vitos-v1/packages/vitos-monitor/ai/vitos_ai/service.py:93-137 | a line that does not parse is skipped, any other takes the engine one event further |
| Service.EngineLoop.Drain | vitos-v1/packages/vitos-monitor/ai/vitos_ai/service.py:92-137 | the inner loop ends, having handled exactly the buffer's complete lines in order |
| Service.EngineLoop.Receive | vitos-v1/packages/vitos-monitor/ai/vitos_ai/service.py:88-93 | after each chunk the state is that of handling the lines of all bytes so far |
| Service.EngineLoop.Loop | vitos-v1/packages/vitos-monitor/ai/vitos_ai/service.py:85-137 | the outcome depends on the bytes before end of stream, not on their chunking |
| EngineTheorems.EngineFollowsBus | vitos-v1/packages/vitos-monitor/ai/vitos_ai/service.py:85-137 | an engine on the bus ends as if handed a contiguous run of the broadcast lines, all of them once it has read everything |
| EngineTheorems.NonInterference | vitos-v1/packages/vitos-monitor/ai/vitos_ai/service.py:85-137 | one session's alerts and isolation calls are those of running its own events and its student's training alone |
| EngineTheorems.OnlyExactly | vitos-v1/packages/vitos-monitor/ai/vitos_ai/service.py:98-102 | a session's own items are exactly its events and its student's training |
| EngineTheorems.DedupeIsTransparent | vitos-v1/packages/vitos-monitor/ai/vitos_ai/service.py:115-137 | the table entry is below 20 exactly when the session's latest scored event was Normal; outputs are one alert per non-Normal event, as if there were no table |
| EngineTheorems.AlertLogExact | vitos-v1/packages/vitos-monitor/ai/vitos_ai/service.py:123-137 | alerts are the non-Normal events in order, isolations the Critical ones in order |
| EngineTheorems.IsolationFollowsAlert | vitos-v1/packages/vitos-monitor/ai/vitos_ai/service.py:123-137 | in every run each isolation comes right after the Critical alert of its session, and each Critical alert has one |
| EngineTheorems.AlertsWithoutModelExactly | vitos-v1/packages/vitos-monitor/ai/vitos_ai/service.py:105-123 | without a model or in lite mode, an event is an alert exactly when label risk times confidence reaches 0.65, or 19/60 with a breach |
| EngineTheorems.OnlyCommandsAlert | vitos-v1/packages/vitos-monitor/ai/vitos_ai/service.py:105-123 | then an event that carries no command is never an alert and scores 10 with a breach, 0 without; so does every event in lite mode |
| EngineTheorems.LiteNeverAlerts | vitos-v1/packages/vitos-monitor/ai/vitos_ai/service.py:105-137 | in lite mode no run ever raises an alert |
| EngineTheorems.UntrainedCommandAlerts | vitos-v1/packages/vitos-monitor/ai/vitos_ai/service.py:98-137 | in any run, a command of an untrained student whose label risk times confidence reaches 0.65 raises one alert at once, with the event's and classifier's own fields |
| EngineTheorems.CriticalIsolates | vitos-v1/packages/vitos-monitor/ai/vitos_ai/service.py:98-137 | in any run, a malicious command out of scope with a raw score above 0.55 raises a Critical alert and isolates its session at once |
| EngineTheorems.NoIsolationBeforeTraining | vitos-v1/packages/vitos-monitor/ai/vitos_ai/service.py:105-137 | for any wiring of training, an untrained student is never isolated, gets alerts for commands only and, with calibrated confidence, never above Suspicious |
| EngineTheorems.ShippedWiringNeverIsolates | vitos-v1/packages/vitos-monitor/ai/vitos_ai/service.py:105-137 | without training calls no isolation is ever issued |
| EventHub.LiveHub.constructor | vitos-v1/packages/vitos-dashboard/backend/app/events.py:25-26 | no rings and no clients |
| EventHub.LiveHub.Accept | vitos-v1/packages/vitos-dashboard/backend/app/events.py:53-62 | the ring holds the last 1000, and every queue of that student with room gets the event; nothing else changes |
| EventHub.LiveHub.Enqueue | vitos-v1/packages/vitos-dashboard/backend/app/events.py:58-62 | a full queue drops the event for its own client only |
| EventHub.LiveHub.Register | vitos-v1/packages/vitos-dashboard/backend/app/events.py:93-95 | the new client is listed with an empty queue |
| EventHub.LiveHub.GetRecent | vitos-v1/packages/vitos-dashboard/backend/app/events.py:76-77 | Python's negative slice of the ring, for any limit |
| EventHub.LiveHub.Get | vitos-v1/packages/vitos-dashboard/backend/app/events.py:102-104 | takes the oldest queued event of this client |
| EventHub.LiveHub.Unregister | vitos-v1/packages/vitos-dashboard/backend/app/events.py:105-108 | the client is no longer listed, the others are |
| EventHub.TailSliceLeavesOut | vitos-v1/packages/vitos-dashboard/backend/app/events.py:76-77 | a positive limit leaves as many at the end, none leaves all, a negative one takes so many off the front |
| EventHub.LastIsTail | vitos-v1/packages/vitos-dashboard/backend/app/events.py:25-26 | the kept end is preceded by what is left out, and is as long as the bound allows |
| EventHub.RingIsLast | vitos-v1/packages/vitos-dashboard/backend/app/events.py:25-57 | after any run a ring is the last 1000 of that student's events, whatever others do |
| EventHub.RecentIsLastOfHistory | vitos-v1/packages/vitos-dashboard/backend/app/events.py:76-119 | a query with an admitted limit returns the last `limit` of the whole history |
| EventHub.EnqueuedAfterRegistration | vitos-v1/packages/vitos-dashboard/backend/app/events.py:56-95 | queued events came after registration, each once, in order |
| EventHub.StreamShape | vitos-v1/packages/vitos-dashboard/backend/app/events.py:93-104 | yielded, still to be replayed and queued events are the last 50 at the snapshot, then exactly what the queue took, in order; the queue waits for the replay |
| EventHub.QueuedUnlessFull | vitos-v1/packages/vitos-dashboard/backend/app/events.py:56-62 | an event after registration is queued exactly when the stream is open and its queue holds fewer than 256 |
| EventHub.NothingMissed | vitos-v1/packages/vitos-dashboard/backend/app/events.py:56-104 | with a queue never full, history at registration and queued events make up the whole history |
| EventHub.GapFree | vitos-v1/packages/vitos-dashboard/backend/app/events.py:93-104 | with a queue never full, a stream is the replay and then every event since registration |
| EventHub.DuplicatesAreInBetween | vitos-v1/packages/vitos-dashboard/backend/app/events.py:93-104 | an event both queued and replayable was accepted between registration and snapshot |
| EventHub.EventsReachClient | vitos-v1/packages/vitos-dashboard/backend/app/events.py:53-104 | there is a run in which a client gets an event from before it subscribed and one from after, each once |
| AlertTail.NextBreak | vitos-v1/packages/vitos-dashboard/backend/app/alerts.py:38 | the first line break of either kind |
| AlertTail.SplitLinesIsLines | vitos-v1/packages/vitos-dashboard/backend/app/alerts.py:38 | without carriage returns `splitlines` is splitting at newlines, an unfinished last line kept |
| AlertTail.SplitAtBreak | vitos-v1/packages/vitos-dashboard/backend/app/alerts.py:38 | a line ends at a newline, a carriage return, or the pair, which counts as one break |
| AlertTail.Tail.constructor | vitos-v1/packages/vitos-dashboard/backend/app/alerts.py:31 | starts at the beginning with nothing sent |
| AlertTail.Tail.Replay | vitos-v1/packages/vitos-dashboard/backend/app/alerts.py:31-40 | sends the non-blank ones of the window's last 50 lines and stands at the end of what was read |
| AlertTail.Tail.Poll | vitos-v1/packages/vitos-dashboard/backend/app/alerts.py:43-51 | consumes up to the next newline, sends it if it parses, and reports whether there was anything |
| AlertTail.Tail.NextLine | vitos-v1/packages/vitos-dashboard/backend/app/alerts.py:44 | the bytes up to and including the next newline, or all there are; none exactly at the end |
| AlertTail.WindowTearsOnlyFirst | vitos-v1/packages/vitos-dashboard/backend/app/alerts.py:33-38 | the window's lines are the file's last lines, the first possibly cut |
| AlertTail.ReplayIsLastLines | vitos-v1/packages/vitos-dashboard/backend/app/alerts.py:33-40 | the replay is the file's own last lines exactly unless the window opens mid-line and holds at most 50; then its first line is torn |
| AlertTail.ShortFileReplay | vitos-v1/packages/vitos-dashboard/backend/app/alerts.py:33-40 | a file no longer than the window at the seek, however it has grown by the read, replays its last 50 lines |
| AlertTail.ReplaySendsExactly | vitos-v1/packages/vitos-dashboard/backend/app/alerts.py:38-40 | a line is replayed exactly when it is among the window's last 50 and some byte of it is not white space |
| AlertTail.NonBlankOfParts | vitos-v1/packages/vitos-dashboard/backend/app/alerts.py:38-40 | dropping blank lines keeps the order and repetitions of the others |
| AlertTail.NonBlankKept | vitos-v1/packages/vitos-dashboard/backend/app/alerts.py:38-40 | lines that all have something in them are all replayed as they are |
| AlertTail.ReplayLooksBack | vitos-v1/packages/vitos-dashboard/backend/app/alerts.py:33-37 | the replay depends on the last 8192 bytes only |
| AlertTail.PollTakesNextLine | vitos-v1/packages/vitos-dashboard/backend/app/alerts.py:43-51 | a poll that finds nothing new or a newline takes exactly the next line |
| AlertTail.PollOnTimeExactly | vitos-v1/packages/vitos-dashboard/backend/app/alerts.py:43-51 | after any append a reader that is up to date stays so exactly when its poll finds nothing new or a newline |
| AlertTail.FollowsExactly | vitos-v1/packages/vitos-dashboard/backend/app/alerts.py:43-51 | on a file growing by arbitrary bytes, a reader is up to date after every poll exactly when every poll found nothing new or a newline |
| AlertTail.FollowDelivers | vitos-v1/packages/vitos-dashboard/backend/app/alerts.py:43-51 | for every interleaving of whole-line appends and reads, what was sent after the replay is the parsing lines consumed since, once each, in order |
| AlertTail.CaughtUpMissesNothing | vitos-v1/packages/vitos-dashboard/backend/app/alerts.py:43-51 | a reader at the end of the file has sent every appended line exactly once |
| AlertTail.PollStaysOnBoundary | vitos-v1/packages/vitos-dashboard/backend/app/alerts.py:44 | a read ends on a line boundary exactly when it finds nothing or a newline |
| AlertTail.TornAppend | vitos-v1/packages/vitos-dashboard/backend/app/alerts.py:44-51 | for a line read in two halves, exactly when it is lost and exactly when it comes through |
| AlertTail.TornLineExactly | vitos-v1/packages/vitos-dashboard/backend/app/alerts.py:44-51 | a line read in any number of pieces sends exactly the pieces that parse on their own; it is lost exactly when none does, and comes through exactly when at most its newline was cut off |
| Ghost.SameIdExactly | vitos-v1/packages/vitos-monitor/cli/vitosctl/main.py:175 | two requests share an id exactly when equal or cut at different dots |
| Ghost.UnambiguousExactly | vitos-v1/packages/vitos-monitor/cli/vitosctl/main.py:175 | an id names one pair exactly when neither part has a dot |
| Ghost.GhostStore.constructor | vitos-v1/packages/vitos-monitor/cli/vitosctl/main.py:145-146 | no requests and no tokens |
| Ghost.GhostStore.Enable | vitos-v1/packages/vitos-monitor/cli/vitosctl/main.py:164-187 | outcome and directories after a request, including refusal and bad names |
| Ghost.GhostStore.Approve | vitos-v1/packages/vitos-monitor/cli/vitosctl/main.py:192-214 | outcome and directories after an approval, including the three refusals and the one id whose token cannot be written |
| Ghost.GhostStore.Disable | vitos-v1/packages/vitos-monitor/cli/vitosctl/main.py:232-242 | outcome and directories after a revocation, for any file the argument names |
| Ghost.GhostStore.MayLaunch | vitos-v1/packages/vitos-ghost/usr/lib/vitos/ghost/launch.sh:20-21 | the launcher goes on exactly when a token file of that name is there |
| Ghost.ValidNameExactly | vitos-v1/packages/vitos-monitor/cli/vitosctl/main.py:171-174 | a name is accepted exactly when it has no slash of either kind and no two dots in a row |
| Ghost.DoneExactly | vitos-v1/packages/vitos-monitor/cli/vitosctl/main.py:161-242 | exactly when each command succeeds; one that does not changes nothing |
| Ghost.FailureExactly | vitos-v1/packages/vitos-monitor/cli/vitosctl/main.py:161-242 | which failure each command reports, in the order of its checks |
| Ghost.PendingExactly | vitos-v1/packages/vitos-monitor/cli/vitosctl/main.py:164-242 | a request is pending exactly when a then-administrator made it and nothing since replaced, approved or removed it; the file is that request |
| Ghost.PendingNamesAreSafe | vitos-v1/packages/vitos-monitor/cli/vitosctl/main.py:171-184 | every pending request is filed under its own user and profile, neither with a slash or two dots |
| Ghost.DualApproval | vitos-v1/packages/vitos-monitor/cli/vitosctl/main.py:161-242 | a token is active exactly when the latest request, by a then-administrator, was later approved by a then-approver other than the requester, with no disable since; it names both |
| Ghost.TokenTells | vitos-v1/packages/vitos-monitor/cli/vitosctl/main.py:177-212 | an active token holds the user, profile, requester and approver of the two commands behind it |
| Ghost.ApprovedIsActive | vitos-v1/packages/vitos-monitor/cli/vitosctl/main.py:192-242 | an approval not undone since is an active token with these two names |
| Ghost.ActiveWasApproved | vitos-v1/packages/vitos-monitor/cli/vitosctl/main.py:192-242 | every active token has such a request and approval behind it |
| Ghost.NoSelfApproval | vitos-v1/packages/vitos-monitor/cli/vitosctl/main.py:205-207 | in every state of every run, requester and approver of a token differ |
| Ghost.LaunchGuard | vitos-v1/packages/vitos-ghost/usr/lib/vitos/ghost/launch.sh:20-21 | a launch that passes has an approved request with the same id; without dots in it, for this very user and profile |
| Ghost.DottedNamesShareToken | vitos-v1/packages/vitos-ghost/usr/lib/vitos/ghost/launch.sh:20-21 | a token approved for one pair that admits another |
| Ghost.InterleavedApproval | vitos-v1/packages/vitos-monitor/cli/vitosctl/main.py:184-213 | for every interleaving of file operations, torn writes included, each readable token has requester and approver different, then-members, and about this id |
| Ghost.PresentIsBacked | vitos-v1/packages/vitos-monitor/cli/vitosctl/main.py:184-213 | under interleaving, every token file that is there, even torn or garbled, has such a request and approval behind it |
| Ghost.InterleavedLaunch | vitos-v1/packages/vitos-ghost/usr/lib/vitos/ghost/launch.sh:20-21 | under interleaving, a launch that passes has two different then-members behind it; without dots, for this very user and profile |
| Ghost.UnlinksWhatItApprovedExactly | vitos-v1/packages/vitos-monitor/cli/vitosctl/main.py:204-213 | the file an approve unlinks still holds the request it approved exactly when no step since its read touched it, or the last one that did wrote that request again |
| Ghost.OvertakenRequest | vitos-v1/packages/vitos-monitor/cli/vitosctl/main.py:204-213 | an example in which it does not: a newer request is unlinked unread and the token names the older requester |
| Ghost.EnableAlone | vitos-v1/packages/vitos-monitor/cli/vitosctl/main.py:164-187 | a successful enable whose file operations are not interleaved leaves exactly the files of the atomic command |
| Ghost.ApproveAlone | vitos-v1/packages/vitos-monitor/cli/vitosctl/main.py:192-214 | so does a successful approve |
| Ghost.RefusedAlone | vitos-v1/packages/vitos-monitor/cli/vitosctl/main.py:192-207 | an approve that finds no request, or its own, leaves the files as they were |
| Ghost.DisableAlone | vitos-v1/packages/vitos-monitor/cli/vitosctl/main.py:232-242 | a disable that runs alone leaves exactly the files of the atomic command, found or not |
| Sessions.SessionStore.constructor | vitos-v1/packages/vitos-dashboard/backend/app/auth.py:48-59 | no sessions |
| Sessions.SessionStore.IssueSession | vitos-v1/packages/vitos-dashboard/backend/app/auth.py:79-88 | a row for eight hours; an id already there is an error and changes nothing |
| Sessions.SessionStore.RevokeSession | vitos-v1/packages/vitos-dashboard/backend/app/auth.py:91-93 | this row is gone, the others stay |
| Sessions.SessionStore.LookupSession | vitos-v1/packages/vitos-dashboard/backend/app/auth.py:96-113 | the user of a live row, nothing otherwise, and an expired row is deleted |
| Sessions.SessionStore.Login | vitos-v1/packages/vitos-dashboard/backend/app/auth.py:119-135 | a session only for an authenticated member of the group; each refusal changes nothing |
| Sessions.SessionStore.Logout | vitos-v1/packages/vitos-dashboard/backend/app/auth.py:138-143 | revokes the cookie's session, if there is one |
| Sessions.SessionStore.CurrentAdmin | vitos-v1/packages/vitos-dashboard/backend/app/auth.py:157-161 | lets in exactly a live session of a named user |
| Sessions.DeletionSimulates | vitos-v1/packages/vitos-dashboard/backend/app/auth.py:96-113 | with a clock that never runs back, the table is the undeleted one less some expired rows |
| Sessions.LazyDeletionInvisible | vitos-v1/packages/vitos-dashboard/backend/app/auth.py:96-113 | deletion by lookups changes no later answer |
| Sessions.RowExactly | vitos-v1/packages/vitos-dashboard/backend/app/auth.py:79-93 | without deletion by lookups, a row is there exactly when issued and not revoked since |
| Sessions.LookupExactly | vitos-v1/packages/vitos-dashboard/backend/app/auth.py:79-113 | a user is returned exactly for an id issued to that user, not revoked since, at most eight hours old |
| Sessions.AcceptedExactly | vitos-v1/packages/vitos-dashboard/backend/app/auth.py:119-161 | an accepted request traces to a live admin login, and every live login of a named user is accepted |
| Sessions.RowsLeftExactly | vitos-v1/packages/vitos-dashboard/backend/app/auth.py:79-113 | for any clock, the rows left are those neither revoked nor found expired since |
| Sessions.DeletionVisibleExactly | vitos-v1/packages/vitos-dashboard/backend/app/auth.py:96-113 | for any clock, deletion changes an answer exactly when an earlier lookup had a clock past the expiry and this one has not |
| Sessions.ClockBackShowsDeletion | vitos-v1/packages/vitos-dashboard/backend/app/auth.py:108-110 | two commands after which it does |
| Sorting.SortedIsSorted | vitos-v1/packages/vitos-dashboard/web/src/pages/Network.tsx:39 | the sort returns an ordered permutation |
| Sorting.SortedMembers | vitos-v1/packages/vitos-dashboard/backend/app/students.py:39 | the sort neither loses nor invents an element |
| Sorting.SortedIsStable | vitos-v1/packages/vitos-dashboard/web/src/pages/Network.tsx:39 | elements that tie keep their order |
| Flows.KeyTextInjective | vitos-v1/packages/vitos-dashboard/web/src/pages/Network.tsx:30 | the text key stands for the pair, even for addresses with colons |
| Flows.DecimalInjective | vitos-v1/packages/vitos-dashboard/web/src/pages/Network.tsx:30 | a port is determined by its decimal text |
| Flows.FlowTable | vitos-v1/packages/vitos-dashboard/web/src/pages/Network.tsx:26-40 | the loop over the mutable map yields the sorted rows of the groups |
| Flows.GroupsAreExact | vitos-v1/packages/vitos-dashboard/web/src/pages/Network.tsx:28-38 | a group's row holds its own sums, and a group without a row has no events |
| Flows.GroupsConserve | vitos-v1/packages/vitos-dashboard/web/src/pages/Network.tsx:28-38 | bytes and flows over all groups equal those over all qualifying events |
| Flows.TableConserves | vitos-v1/packages/vitos-dashboard/web/src/pages/Network.tsx:26-40 | so do the totals of the sorted table |
| Flows.TableIsSorted | vitos-v1/packages/vitos-dashboard/web/src/pages/Network.tsx:39 | the table is a permutation of the groups, most bytes first, ties in order of first event |
| Flows.RowIsExact | vitos-v1/packages/vitos-dashboard/web/src/pages/Network.tsx:28-38 | each row's figures are the sums over exactly its destination and port |
| Flows.EveryEventShown | vitos-v1/packages/vitos-dashboard/web/src/pages/Network.tsx:28-38 | every qualifying event has a row with its own address and port |
| Flows.TableKeysDistinct | vitos-v1/packages/vitos-dashboard/web/src/pages/Network.tsx:30-38 | no destination and port has two rows |
| Flows.TableOfOne | vitos-v1/packages/vitos-dashboard/web/src/pages/Network.tsx:28-38 | one event's row names its own port and bytes, 0 where it has none; any other event has no row |
| Flows.TableOfTwo | vitos-v1/packages/vitos-dashboard/web/src/pages/Network.tsx:30-37 | two flows share a row exactly when address and port are the same |
| Roster.LatestAlertPerStudent | vitos-v1/packages/vitos-dashboard/backend/app/students.py:18-30 | the loop yields the insertion-ordered last-wins dictionary of the log |
| Roster.ListStudents | vitos-v1/packages/vitos-dashboard/backend/app/students.py:34-58 | one row per roster id, in order |
| Roster.AddAlertOnly | vitos-v1/packages/vitos-dashboard/backend/app/students.py:50-57 | appends the students not yet seen, in dictionary order |
| Roster.StrLeTotal | vitos-v1/packages/vitos-dashboard/backend/app/students.py:39 | names are totally ordered and tie only when equal |
| Roster.StrLeTransitive | vitos-v1/packages/vitos-dashboard/backend/app/students.py:39 | the order of names is transitive |
| Roster.StrLeExactly | vitos-v1/packages/vitos-dashboard/backend/app/students.py:39 | a name comes first exactly when it is a beginning of the other or has the smaller letter where they first differ |
| Roster.LastWins | vitos-v1/packages/vitos-dashboard/backend/app/students.py:22-29 | a student has an entry exactly when some alert names them, and it is their last one |
| Roster.NamelessIsSkipped | vitos-v1/packages/vitos-dashboard/backend/app/students.py:27-29 | an alert that names no student puts no one on the roster |
| Roster.OrderIsByFirstAlert | vitos-v1/packages/vitos-dashboard/backend/app/students.py:22-29 | the dictionary's order is that of first alerts, whatever is overwritten |
| Roster.RosterIsJoin | vitos-v1/packages/vitos-dashboard/backend/app/students.py:34-58 | everyone with a session or an alert exactly once and no one else, sessions first in name order, then by first alert |
| Roster.RowCarriesLastAlert | vitos-v1/packages/vitos-dashboard/backend/app/students.py:42-57 | a row has the fields of the last alert in the log, or the defaults when there is none |
| Udev.Collect | vitos-v1/packages/vitos-monitor/collectors/udev-tap.py:28-45 | the loop over the mutable dictionary leaves exactly the current block and the emitted records |
| Udev.RecordExactly | vitos-v1/packages/vitos-monitor/collectors/udev-tap.py:33-37 | an emitted record has the block's own fields, the time and type where the block has none, and no others |
| Udev.HeaderExactly | vitos-v1/packages/vitos-monitor/collectors/udev-tap.py:31-42 | a header emits the block before it, if it has any field, and starts one with its action and path, or an empty one when cut short |
| Udev.OtherLineExactly | vitos-v1/packages/vitos-monitor/collectors/udev-tap.py:43-45 | any other line emits nothing and sets at most the key before its first equals sign, stripped |
| Udev.StripExactly | vitos-v1/packages/vitos-monitor/collectors/udev-tap.py:30 | stripping takes off white space at both ends, all of it and nothing else |
| Udev.WordsExactly | vitos-v1/packages/vitos-monitor/collectors/udev-tap.py:39 | splitting loses nothing but white space, and no word has any |
| Udev.HeaderParses | vitos-v1/packages/vitos-monitor/collectors/udev-tap.py:30-42 | a printed header is recognised and splits into its five words |
| Udev.PropertyKeptExactly | vitos-v1/packages/vitos-monitor/collectors/udev-tap.py:31-45 | in any block, empty or not, a property line sets its key exactly when the key does not start like a header |
| Udev.PropsParse | vitos-v1/packages/vitos-monitor/collectors/udev-tap.py:43-45 | a printed list of properties ends up in the current block, `=` in values included |
| Udev.RoundTrip | vitos-v1/packages/vitos-monitor/collectors/udev-tap.py:28-45 | parsing printed blocks emits every block but the last, in order and unchanged, and holds the last |
| Udev.EmittedTellsBlocks | vitos-v1/packages/vitos-monitor/collectors/udev-tap.py:28-45 | of printed blocks, each emitted record tells its block: action, path, every property, time and type, nothing else |
| Udev.FieldsExact | vitos-v1/packages/vitos-monitor/collectors/udev-tap.py:41-45 | with distinct keys a block's fields are its header's and its properties, and no others |

## Left out

- Bus.Daemon.Stop: the unlocked read and close of the log handle are one step, before, after or overtaken by a broadcast; what a data race on the handle field itself would do is not modelled. That the subscriber set is empty afterwards is not claimed, since a connection may be accepted late.
- Bus.Daemon.AppendAndRotate: a short write to the log is not modelled; an append lands whole or not at all.
- Bus.PublisherOrder: a read error is not told apart from the end of input; both end the publisher.
- Service.EngineLoop.Loop: input that makes the engine raise (a line that is not UTF-8, a JSON value that is not an object, an unparsable number) is not modelled.
- Service.EngineLoop.Handle: the isolation call is an output; whether the subprocess succeeds is not modelled.
- Features.FeatureExtractor.Ingest: timestamps are integers; mixing zoned and unzoned ones, which raises in the source, is not modelled.
- Scorer.Score: exact reals instead of binary floating point, so a sum within rounding error of a half may round the other way in the source.
- Anomaly.AnomalyModel.CommitBaselineSession: the Isolation Forest itself; fitting is any function.
- Ghost.GhostStore.Disable: resolving the argument as a path is a parameter; of a target elsewhere in the file system only its kind is modelled, and that such a plain file is then gone is not.
- Ghost.InterleavedApproval: that the approved request is still the latest one is not claimed for interleaved commands, because it fails (`Ghost.OvertakenRequest`); `Ghost.UnlinksWhatItApprovedExactly` says exactly when the approve unlinks it.
- Ghost.GhostStore.Enable: names the file system refuses (too long, or holding a zero character) raise in the source and are not modelled.
- Ghost.DualApproval: the two time fields of a token are not modelled.
- Sessions.SessionStore.LookupSession: a stored expiry that does not parse, which the source answers with nothing, is not modelled.
- EventHub.StreamShape: a client that leaves before its generator first runs stays registered in the source and here is a stream that never closes.
- EventHub.LiveHub.GetRecent: it is one step here, though the source's plain routes run on a worker thread and may read a ring while it is appended to.
- AlertTail.Tail.Poll: heartbeats and the sleep between polls; a line that is not UTF-8.
- AlertTail.FollowsExactly: the alert file is assumed to be neither truncated nor replaced.
- Flows.FlowTable: JavaScript numbers are unbounded integers here; sums beyond 2^53 are not.
- Roster.LatestAlertPerStudent: line separators other than newline, at which Python's text `splitlines` also breaks, are not modelled; the log is given as its lines.
- Udev.Collect: only ASCII white space is stripped and split at.
- `ghost list`, the dashboard's `student_detail`, `list_buffered_students` and `me` routes, session control, reports, ttyd and websocket proxying: they read and show state.
- Sockets, permissions, deadlines, signals, reconnection, server-sent-event framing, JSON encoding, PAM, SQLite, cookies and TLS.
- The Ollama call and prompt, the eBPF programs and loader, and the fanotify and shell collectors.
- Installers, GRUB, nftables, the network part of `launch.sh`, live-build, retention, React rendering and the website.
