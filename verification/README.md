# FaceGateway: a verified model

FaceGateway opens a turnstile for the faces it knows. A daemon on the edge device turns
camera frames into access events, drives a servo and an LED, keeps unsent events in SQLite
and mirrors the backend's embeddings; a backend publishes those embeddings over MQTT and
answers analytics queries; a panel exports events and enrols faces. This project models the
parts of that system whose correctness is not visible in any one function, and proves what
they promise. `dafny verify dfyconfig.toml` checks everything.

## How the model is laid out

| file | what it models |
|---|---|
| `Streaks.dfy`, `MainLoop.dfy`, `Runs.dfy`, `Reactions.dfy`, `Spacing.dfy`, `Announcing.dfy` | the decision loop: the stabilisation gate, the block window and the deduplication; what every run satisfies, when each reaction occurs, when events keep their distance and when every grant is announced |
| `Turnstile.dfy`, `RgbLed.dfy`, `Gate.dfy` | the two actuator threads under every interleaving, and the loop's window against the turnstile's |
| `Storage.dfy`, `OfflineQueue.dfy`, `Departures.dfy` | the SQLite tables; the main loop, the heartbeat and the drainer around the queue of pending events; the order in which messages leave |
| `Vectors.dfy`, `Matcher.dfy`, `Cosines.dfy`, `Normalization.dfy` | cosine distance over the reals and what it measures, nearest neighbour, the in-memory cache, L2 normalisation and when it changes an answer |
| `Topics.dfy`, `Subscriber.dfy`, `Broker.dfy`, `Backend.dfy`, `Sync.dfy`, `Enrolment.dfy` | embedding replication from the backend's database through the broker to the edge's table and cache, and what becomes of one embedding |
| `Newest.dfy`, `Ranks.dfy`, `Pages.dfy`, `Ties.dfy`, `Export.dfy` | the panel's paginated export: the newest k of a collection, paging, what tied timestamps can do to it, merging |
| `Csv.dfy` | the CSV printer |
| `Delays.dfy`, `Presence.dfy` | two analytics queries |
| `Basics.dfy`, `Traces.dfy` | shared types, and runs of a transition relation |
| `EyeAlignment.dfy` | face alignment, on the edge and in the panel |

Code that works step by step is written as methods over fields or loop variables, and each
method is proved against a specification. The decision loop takes its clock readings,
detections and matches as inputs, with a clock that never goes back; its specification
(`MainLoop.Expected`) speaks only about the passes and reactions so far and has none of the
variables that the loop carries along. A thread is a set of atomic steps, and `Run` takes
any schedule of steps of all threads, so a claim about the end of `Run` is a claim about
every reachable state. The offline queue and the replication also have a transition
relation (`Next`) that their methods refine, and their claims hold in every state of every
run of that relation.

Failures are inputs: whether `publish` returns true, whether a SQL statement throws, when
the process crashes. A statement takes full effect or throws. The broker follows MQTT
3.1.1: sections 3.1.2.4 (clean session), 3.3.1.3 (retain) and 4.6 (ordering). Times on the
edge are nanoseconds of the steady clock. Reals stand for floats; a vector carries its
length as a witness s with s >= 0 and s * s equal to the sum of squares, and the infinite
distance is `None`.

Where code and comments disagree the model follows the code:

- `edge/src/pipeline/pipeline.cpp:248-249` says that an employee held in view stays silent.
  `Runs.RepeatIsSilentIff` gives the exact condition for one repetition.
  `Announcing.GrantsAreAnnouncedIff` gives the settings under which no run has a silent
  grant, the defaults (door held 5000 ms, idle reset 3 s) among them, and for all settings
  `Announcing.HeldInViewIsLetInAgain` has a run that lets one employee in twice.
- `edge/src/hardware/turnstile.cpp:181-182` says that an extension arriving while the door is
  open is picked up. It is, as long as the clock stays before the window's end that the
  worker read last (`Turnstiles.Turnstile.KeepsOpen`). One that is stored after that reading
  and before a check behind that end closes the door for 500 ms inside a granted window
  (`LateExtensionCloses`); the worker then waits (`Rests`) and opens again (`Opens`). The
  main loop's own grants never overlap (`Gate.GrantedWindowsAreDisjoint`).
- `edge/src/mqtt/mqtt_subscriber.hpp:13` promises a persistent session, the constructor asks
  for a clean one. `Brokers.OfflineTombstoneIsLost` is a run that loses a deletion because
  of it, and `Brokers.Converged` says exactly which entries can be left over.
- `backend/src/routes/analytics.rs:213` promises delays in (-12 h, +12 h]; the query yields
  [-12 h, +12 h). `Delays.DocumentedWindowHoldsUnlessHalfDay` says when they differ.
- Matches and events come at least hold plus stabilisation after an event, in all runs,
  exactly when the stabilisation is zero or both holds exceed the 300 ms streak grace
  (`Spacing.DistanceIsKeptIff`). For all other settings `Spacing.StreakBridgesShortHold` is
  a run whose second event comes right at the end of the hold.
- The page loop returns a choice of the newest rows, whatever the server makes of ties,
  exactly when no edge between two pages separates rows with the same timestamp
  (`Ties.FetchIsNewestIff`); the merged export exactly when no row behind such an edge is
  exported (`Export.ExportIsNewestIff`).
- There is no global first-in-first-out order of events: the main loop may publish directly
  while older rows wait (`Departures.NewerOvertakes`). `Departures.OrderIsKeptIff` says
  which steps a run must not have for its messages to leave in the order of their creation.
- Normalising a query can turn a rejection into a match (`Matching.NormalizationCanAdmit`).
  `Normalization.VerdictsAreKeptIff` and `Normalization.AnswersAreKeptIff` say for which
  galleries and queries it changes nothing.

## Model

| member | source | states |
|---|---|---|
| Streaks.GateDecidesStability | edge/src/pipeline/pipeline.cpp:190-203 | the test on streak_start passes exactly when the latest detection ends a run of detections with gaps of at most 300 ms that spans face_stabilization |
| Streaks.StreakStartIsEarliest | edge/src/pipeline/pipeline.cpp:191-197 | streak_start is no later than the start of any unbroken run that is still going on |
| Streaks.StableAfterSilence | edge/src/pipeline/pipeline.cpp:191-203 | after a silence longer than the grace, stability is earned from scratch |
| MainLoop.Stabilize | edge/src/pipeline/pipeline.cpp:186-203 | the gate settles exactly on stable detections and keeps its two variables accurate |
| MainLoop.Decide | edge/src/pipeline/pipeline.cpp:228-302 | an event is emitted exactly when it is due by the history: first match, absence beyond idle_reset, changed decision, or unknown throttle run out |
| MainLoop.Turn | edge/src/pipeline/pipeline.cpp:153-313 | one turn reacts as the history-based specification expects and keeps every carried variable accurate |
| MainLoop.MainLoop | edge/src/pipeline/pipeline.cpp:126-314 | for every finite run each reaction is the expected one |
| Runs.NewestEventNamesTheDecision | edge/src/pipeline/pipeline.cpp:228-302 | in every run the latest emitted event carries the decision of the latest match, announced or not |
| Runs.EventsReportTheirPass | edge/src/pipeline/pipeline.cpp:239-310 | a pass that reached the matcher saw a face, and its event, if due, reports that match |
| Reactions.GatedIff | edge/src/pipeline/pipeline.cpp:153-161 | a pass is gated exactly when it begins before the end of some earlier event's window, open_hold for a grant and denied_cooldown for an unknown face |
| Reactions.ReactionTellsSight | edge/src/pipeline/pipeline.cpp:164-226 | a pass that gets by the gate sees nothing exactly without a face, reports a fault exactly when a settled face has no embedding, and reaches the matcher exactly otherwise |
| Reactions.SettlesIff | edge/src/pipeline/pipeline.cpp:186-203 | a detected face only settles exactly when no unbroken row of passes with a face, one per 300 ms, has lasted face_stabilization up to it |
| Reactions.FirstMatchIsAnnounced | edge/src/pipeline/pipeline.cpp:248-257 | the first match of a run is announced |
| Reactions.MatchIsSilentIff | edge/src/pipeline/pipeline.cpp:228-302 | a match is silent exactly when the previous one saw the same face at most idle_reset ago and, for an unknown face, the latest event is younger than the throttle |
| Reactions.UnknownIsAnnouncedAgain | edge/src/pipeline/pipeline.cpp:280-291 | an unknown face matched at least the throttle after the latest event is announced, so one that stays in view is announced again and again |
| Reactions.UnknownIsReportedInTime | edge/src/pipeline/pipeline.cpp:228-302 | whenever an unknown face is matched, the newest event says so and is younger than the throttle |
| Reactions.EventTells | edge/src/pipeline/pipeline.cpp:257-297 | an event carries its pass's timestamp and the matched employee and distance, or an unknown face with neither |
| Runs.NothingInsideAnyWindow | edge/src/pipeline/pipeline.cpp:153-161 | no pass gets by the gate inside the block window of any earlier event |
| Runs.EventsKeepTheirDistance | edge/src/pipeline/pipeline.cpp:143-203 | a match after an event comes at least that event's hold later, and hold plus stabilisation later when the hold exceeds 300 ms |
| Spacing.DistanceIsKeptIff | edge/src/pipeline/pipeline.cpp:143-203 | in all runs all matches, and in all runs all events, come hold plus stabilisation after every earlier event, exactly when the stabilisation is zero or both holds exceed 300 ms |
| Spacing.StreakBridgesShortHold | edge/src/pipeline/pipeline.cpp:151-203 | for every positive stabilisation and either kind of event whose hold is at most 300 ms, a run whose next event comes right at the end of the hold |
| Runs.EventRateIsBounded | edge/src/pipeline/pipeline.cpp:265-297 | under the same condition any window W of any run holds at most 1 + W / (least hold + stabilisation) events |
| Runs.RepeatIsSilentIff | edge/src/pipeline/pipeline.cpp:248-257 | a repeated grant is silent exactly when it comes within idle_reset of the previous match |
| Runs.EveryGrantIsAnnounced | edge/src/pipeline/pipeline.cpp:229-271 | if the door holds the loop longer than idle_reset, every grant of every run is emitted |
| Announcing.GrantsAreAnnouncedIff | edge/src/pipeline/pipeline.cpp:229-271 | all runs announce every grant exactly when the hold, and the stabilisation if the hold exceeds 300 ms, add up to more than idle_reset |
| Announcing.HeldInView | edge/src/pipeline/pipeline.cpp:143-271 | for all settings and every pause of at least the hold, a run that grants one employee twice with the pause in between; the second grant is announced exactly when it comes later than idle_reset |
| Announcing.HeldInViewIsLetInAgain | edge/src/pipeline/pipeline.cpp:248-257 | for all settings there is a run with two announced grants of one employee |
| Gate.BlockCoversBarrier | edge/src/pipeline/pipeline.cpp:265-267 | given the same hold, the turnstile's window never ends after the block window at a loop head |
| Gate.NoCaptureWhileOpen | edge/src/pipeline/pipeline.cpp:153-164 | at no moment from the head of a pass that gets by the gate, so at no capture, is a window granted before it open |
| Gate.GrantedWindowsAreDisjoint | edge/src/pipeline/pipeline.cpp:257-267 | the windows that the loop grants never overlap |
| Turnstiles.OpenUntilIsMaximum | edge/src/hardware/turnstile.cpp:113-122 | the window's end bounds every grant's end and is one of them |
| Turnstiles.Turnstile.constructor | edge/src/hardware/turnstile.cpp:160-167 | the worker starts before a close phase, with the line low and no window |
| Turnstiles.Turnstile.GrantReads | edge/src/hardware/turnstile.cpp:113-114 | the caller's clock reading is taken before the lock |
| Turnstiles.Turnstile.GrantStores | edge/src/hardware/turnstile.cpp:115-122 | under the lock the window is extended to the later end, never shortened |
| Turnstiles.Turnstile.EmitClosePulses | edge/src/hardware/turnstile.cpp:138-144 | the close phase ends on the stop flag or after its full 500 ms, and the line follows the pulses |
| Turnstiles.Turnstile.EmitOpenPulses | edge/src/hardware/turnstile.cpp:183-189 | an open pulse is licensed by a clock reading inside a granted window, and the target is read again after it |
| Turnstiles.Turnstile.Await | edge/src/hardware/turnstile.cpp:169-179 | the line is low before the worker waits, and the wait ends exactly on stop or an open window, with that window's end as target |
| Turnstiles.Turnstile.Take | edge/src/hardware/turnstile.cpp:104-198 | one step of any thread: clock, stop flag, grants and callers change as the step says |
| Turnstiles.Turnstile.Work | edge/src/hardware/turnstile.cpp:160-198 | one step of the worker goes where pwm_loop goes, and keeps the invariant |
| Turnstiles.Turnstile.Run | edge/src/hardware/turnstile.cpp:104-198 | under every interleaving open_until_ is the maximum of grant plus hold, every open pulse lies in a granted window, and the worker waits only behind a full close phase with the line low, unless stopped |
| Turnstiles.Turnstile.Opens | edge/src/hardware/turnstile.cpp:169-189 | a waiting worker left alone raises the line with the open angle in four steps, whatever the clock readings before the window's end, and the pulse is dated inside a granted window |
| Turnstiles.Turnstile.KeepsOpen | edge/src/hardware/turnstile.cpp:183-189 | under any schedule of grants and worker steps whose clock stays before the end read last, the worker goes on pulsing, four steps to a pulse, and has read every extension granted before those steps |
| Turnstiles.Turnstile.LateExtensionCloses | edge/src/hardware/turnstile.cpp:181-189 | a grant stored after the end was read and before a check behind it: the worker turns to the closed angle inside a granted window |
| Turnstiles.Turnstile.Rests | edge/src/hardware/turnstile.cpp:160-198 | left alone with a clock that goes on, the worker reaches its wait from anywhere, with the line low and a full close phase behind it |
| RgbLeds.RgbLed.constructor | edge/src/hardware/rgb_led.cpp:49-84 | the LED starts off for either polarity |
| RgbLeds.RgbLed.Arm | edge/src/hardware/rgb_led.cpp:121-136 | target, deadline and dirty flag change together |
| RgbLeds.RgbLed.WriteLine | edge/src/hardware/rgb_led.cpp:138-155 | writing the next line extends the part of the colour already shown |
| RgbLeds.RgbLed.Await | edge/src/hardware/rgb_led.cpp:158-170 | the wait ends exactly on stop or a new command, which is taken over whole |
| RgbLeds.RgbLed.Show | edge/src/hardware/rgb_led.cpp:172-183 | a shown colour is held until its deadline, a new command or stop |
| RgbLeds.RgbLed.Clear | edge/src/hardware/rgb_led.cpp:185-190 | after the deadline, and after the loop, all lines go off |
| RgbLeds.RgbLed.Run | edge/src/hardware/rgb_led.cpp:121-191 | under every interleaving: waiting without a command means off, holding without one means the newest armed colour, and every arm was shown or superseded by then |
| RgbLeds.RgbLed.CatchUp | edge/src/hardware/rgb_led.cpp:157-191 | left alone, the worker shows the newest command after finitely many steps |
| RgbLeds.RgbLed.GoesOff | edge/src/hardware/rgb_led.cpp:157-191 | left alone with a clock that goes on, the worker shows or supersedes every command and ends up waiting with the lines off |
| Vectors.CauchySchwarz | edge/src/vision/matcher.cpp:16-26 | the Cauchy-Schwarz inequality for vectors of any length |
| Matching.CosineDistance | edge/src/vision/matcher.cpp:12-33 | the loop computes the distance defined by dot product and lengths, infinite below the guard |
| Matching.DistanceRange | edge/src/config/config.cpp:152-154 | every finite distance lies in [0, 2], the range accepted for thresholds |
| Matching.DistanceIgnoresLength | edge/src/vision/matcher.cpp:26-32 | positive scaling above the guard leaves the distance unchanged |
| Matching.MultiplesAreAtZero | edge/src/vision/matcher.cpp:26-32 | a vector is at distance 0 from its positive multiples |
| Cosines.DistanceIs | edge/src/vision/matcher.cpp:26-32 | the distance is infinite exactly when the product of lengths is below 1e-9, and otherwise the number d with (1 - d) times that product equal to the dot product |
| Cosines.LawOfCosines | edge/src/vision/matcher.cpp:26-32 | the squared gap between two vectors is the sum of their squared lengths less twice the product of lengths times 1 - d |
| Cosines.UnitGap | edge/src/vision/matcher.cpp:26-32 | for unit vectors the distance is d exactly when the squared gap is 2d |
| Cosines.OrthogonalAreAtOne | edge/src/vision/matcher.cpp:26-32 | above the guard, the distance is 1 exactly for orthogonal vectors |
| Cosines.OppositesAreAtTwo | edge/src/vision/matcher.cpp:26-32 | a vector is at distance 2 from its negative multiples above the guard |
| Cosines.MatchIsClosest | edge/src/vision/matcher.cpp:40-63 | among unit vectors a face is recognised exactly when some enrolled point is closer in space than the threshold allows, as the owner of the closest point |
| Matching.Matcher.FindMatch | edge/src/vision/matcher.cpp:40-63 | the result is the owner and distance of the earliest nearest entry, exactly when that distance is below the threshold |
| Matching.AnswerIsUnique | edge/src/vision/matcher.cpp:40-63 | cache, query and threshold determine the result |
| Matching.Matcher.BestDistance | edge/src/vision/matcher.cpp:70-87 | the result is the least distance, infinite if none is finite, none for an empty cache |
| Matching.AnswerAgreesWithBest | edge/src/vision/matcher.cpp:40-87 | find_match accepts exactly when best_distance is below the threshold, at that distance |
| Matching.AnswerIgnoresOrder | edge/src/vision/matcher.cpp:40-63 | acceptance and distance do not change when the cache is permuted |
| Matching.SameTableSameVerdict | edge/apps/facegate/main.cpp:132-140 | caches with the same table, such as before and after a restart, give the same acceptance and distance |
| Matching.ThresholdAfterwards | edge/apps/eval/main.cpp:434-438 | for thresholds up to 999, matching equals accepting all and filtering by distance afterwards |
| Matching.SentinelAcceptsAll | edge/apps/eval/main.cpp:434-438 | the sentinel rejects a query only if no entry is at a finite distance |
| Matching.NormalizationKeepsDistance | edge/src/vision/face_embedder.cpp:154-167 | normalising a query keeps a distance exactly when its product of lengths stays on its side of the guard |
| Matching.NormalizationKeepsAnswers | edge/src/vision/face_embedder.cpp:154-167 | for any one threshold, normalising a query changes no answer when no entry is moved across the guard |
| Normalization.BestIsKeptIff | edge/src/vision/matcher.cpp:70-87 | normalising a query keeps best_distance exactly when every entry moved across the guard has one that stays and is not farther |
| Normalization.VerdictsAreKeptIff | edge/src/vision/matcher.cpp:40-63 | under every threshold acceptance and distance are the same before and after normalisation, exactly on that condition |
| Normalization.AnswersAreKeptIff | edge/src/vision/matcher.cpp:26-63 | under every threshold the whole answer is the same, exactly on that condition and if entries tied for nearest before and after belong to one employee |
| Matching.NormalizationCanAdmit | edge/src/vision/matcher.cpp:26-29 | a one-entry gallery of a faint vector: as it is the query is rejected, normalised it is a perfect match |
| Matching.UnitEntriesStay | panel/src/app/core/vision/face-embedding.service.ts:236-244 | no unit entry is moved across the guard by a query that the embedder does not refuse |
| Matching.Normalize | edge/src/vision/face_embedder.cpp:154-169 | in place, the buffer becomes the unit vector, or stays as it was when its length is below the guard |
| Matching.Embed | panel/src/app/core/vision/face-embedding.service.ts:234-244 | the panel's copy yields the same unit vector, and null exactly for a wrong size or a tiny length |
| Matching.Matcher.Upsert | edge/src/vision/matcher.cpp:89-104 | read as a table the cache is updated at one id; the entry keeps its place or goes to the end |
| Matching.Matcher.Remove | edge/src/vision/matcher.cpp:106-118 | read as a table the cache loses one id; the rest keeps its order |
| Matching.TableHoldsEntries | edge/src/vision/matcher.cpp:89-118 | with unique ids the table holds exactly the entries of the cache |
| Storages.Storage.LoadAllEmbeddings | edge/src/storage/storage.cpp:60-98 | the loaded list has unique ids and is the table, unless the query throws |
| Storages.Storage.UpsertEmbedding | edge/src/storage/storage.cpp:126-156 | one row is inserted or replaced; id 0 and failures leave the table alone |
| Storages.Storage.DeleteEmbedding | edge/src/storage/storage.cpp:158-171 | one id is removed, or nothing when it throws |
| Storages.Storage.EnqueuePendingEvent | edge/src/storage/storage.cpp:188-207 | one row goes to the end under an id above all present ones |
| Storages.Storage.FetchPendingEvents | edge/src/storage/storage.cpp:209-240 | the oldest rows up to the limit, in id order |
| Storages.Storage.DeletePendingEvent | edge/src/storage/storage.cpp:242-255 | a row stays exactly if it was there and has another id, and the order is kept |
| Storages.DeleteOldest | edge/src/storage/storage.cpp:242-255 | deleting the id of the oldest row removes that row alone |
| OfflineQueue.RunsAreSafe | edge/src/pipeline/pipeline.cpp:109-368 | in every state of every run: no committed message leaves the table before it was sent, first sends are in commit order, repeats are counted by failed deletes and crashes, and a refused message is lost only to a throwing enqueue or a crash before it committed |
| OfflineQueue.NextKeeps | edge/src/pipeline/pipeline.cpp:109-368 | every step of every thread, failures and crashes included, keeps the invariant behind that |
| OfflineQueue.EventQueue.Run | edge/src/pipeline/pipeline.cpp:109-368 | the code's steps under any schedule are a run of the protocol, safe in every state |
| OfflineQueue.EventQueue.MainPublishes | edge/src/pipeline/pipeline.cpp:109-114 | a refused message is in the main loop's hands |
| OfflineQueue.EventQueue.MainEnqueues | edge/src/pipeline/pipeline.cpp:115-121 | it ends in the table or, if the statement threw, among the lost |
| OfflineQueue.EventQueue.HeartbeatPublishes | edge/src/pipeline/pipeline.cpp:338-346 | the same for the heartbeat thread |
| OfflineQueue.EventQueue.HeartbeatEnqueues | edge/src/pipeline/pipeline.cpp:338-346 | the same for the heartbeat thread's enqueue |
| OfflineQueue.EventQueue.Fetches | edge/src/pipeline/pipeline.cpp:348-350 | the drainer takes the 50 oldest rows when connected |
| OfflineQueue.EventQueue.Sends | edge/src/pipeline/pipeline.cpp:351-361 | the row published is the oldest in the table and the oldest committed message that has not left |
| OfflineQueue.EventQueue.Deletes | edge/src/pipeline/pipeline.cpp:357-365 | exactly the row just published goes; an exception abandons the batch |
| OfflineQueue.EventQueue.Crashes | edge/src/pipeline/pipeline.cpp:109-122 | only the table survives; messages in flight are counted as lost to the crash |
| OfflineQueue.EventQueue.DrainTick | edge/src/pipeline/pipeline.cpp:348-362 | a failure-free tick removes the min(50, n) oldest rows |
| OfflineQueue.EventQueue.DrainTicks | edge/src/pipeline/pipeline.cpp:323-366 | k rows are cleared by exactly ceil(k / 50) failure-free ticks |
| OfflineQueue.FirstSendsInOrder | edge/src/pipeline/pipeline.cpp:348-366 | before a message is sent, every message committed earlier has been sent |
| OfflineQueue.LeftOnlyAfterSend | edge/src/pipeline/pipeline.cpp:357-359 | a message that left the table had been sent |
| OfflineQueue.DeletionKeeps | edge/src/storage/storage.cpp:242-255 | with others enqueueing meanwhile, the rest of the batch stays the front of the table |
| Departures.OrderIsKeptIff | edge/src/pipeline/pipeline.cpp:109-366 | when every message of a run has left, they left in the order of their creation exactly if no direct publish succeeded while an older message waited and no thread enqueued while the other held an older one |
| Departures.OrderlyRunsKeepOrder | edge/src/pipeline/pipeline.cpp:109-366 | a run without such a step keeps the order also when messages are lost or still wait |
| Departures.NewerOvertakes | edge/src/pipeline/pipeline.cpp:109-122 | a run in which the main loop's direct publish leaves before an older message in the table |
| Topics.TopicsReadBack | edge/src/mqtt/mqtt_subscriber.cpp:39-55 | the edge parses from the backend's topic the id printed into it, and 0 for ids beyond 64 bits |
| Topics.NamedIdIsParsed | edge/src/mqtt/mqtt_subscriber.cpp:39-55 | every topic of prefix, spaces, sign, digits and anything but a digit yields the number if it is a 64-bit one, and 0 otherwise |
| Topics.ParsedIdIsNamed | edge/src/mqtt/mqtt_subscriber.cpp:39-55 | no other topic yields an id: foreign topics and names that are not numbers are dropped |
| Subscribers.LengthIsDetermined | edge/src/vision/matcher.cpp:26 | the length that stands for the square root is determined by the vector, so it adds nothing to a message |
| Subscribers.Subscriber.Boot | edge/apps/facegate/main.cpp:132-140 | a started daemon has a cache equal to its table |
| Subscribers.Subscriber.ReadVector | edge/src/mqtt/mqtt_subscriber.cpp:160-162 | all 512 items are read, or the message throws at one that is not a number |
| Subscribers.Subscriber.OnMessage | edge/src/mqtt/mqtt_subscriber.cpp:109-176 | an empty payload removes the topic's id, a good one leaves its embedding there, garbage and failures change neither table nor cache, no other id is touched, and the cache stays equal to the table |
| Subscribers.MessagesHaveTheirEffect | edge/src/mqtt/mqtt_subscriber.cpp:109-176 | the same of the meaning of a message, case by case and in both directions: a row comes or changes only by a good message, and goes only by an empty one |
| Subscribers.Subscriber.RemoveEverywhere | edge/src/mqtt/mqtt_subscriber.cpp:123-134 | table and cache lose the id together or not at all |
| Subscribers.Subscriber.UpsertEverywhere | edge/src/mqtt/mqtt_subscriber.cpp:157-168 | table and cache take the embedding together or not at all |
| Subscribers.Subscriber.Run | edge/src/mqtt/mqtt_subscriber.cpp:109-176 | after any traffic the cache has unique ids and equals the table, in which every id is as the last good message for it says, or as it was if there was none |
| Subscribers.ChangesAreExplained | edge/src/mqtt/mqtt_subscriber.cpp:109-176 | that about the fold of the messages: gone if the last good message was empty, else its employee and numbers are there |
| Brokers.PublishKeeps | backend/src/routes/embeddings.rs:84-93 | a retained publish keeps the invariant between log, retained messages, channel and edge |
| Brokers.ConnectKeeps | edge/src/mqtt/mqtt_subscriber.cpp:85-102 | subscribing replays every retained message once, in any order, and keeps the invariant |
| Brokers.DisconnectKeeps | edge/src/mqtt/mqtt_subscriber.cpp:72-76 | losing a clean session and all it had in flight keeps the invariant |
| Brokers.DeliverKeeps | edge/src/mqtt/mqtt_subscriber.cpp:109-176 | delivering the next message, with or without a failure, keeps the invariant |
| Brokers.InFlightCompletes | edge/src/mqtt/mqtt_subscriber.cpp:72-133 | while subscribed, folding the in-flight messages over the edge's table gives the retained table, on exactly the ids without an undelivered tombstone; apart from ids whose newest message threw and has no replay, carried out or on its way |
| Brokers.ReconnectionHeals | edge/src/mqtt/mqtt_subscriber.cpp:68-76 | after a reconnection and a failure-free delivery of the channel the edge agrees with the broker on every retained id, whatever failed before |
| Brokers.OfflineTombstoneIsLost | edge/src/mqtt/mqtt_subscriber.cpp:72-76 | a deletion published while the edge is offline is never delivered and the entry stays |
| Backends.Backend.Create | backend/src/routes/embeddings.rs:122-169 | the status by vector length, statement and employee, in this order; a new row under a new id, and the retained message or, when the publish fails, an id marked as unsent |
| Backends.Backend.Delete | backend/src/routes/employees.rs:252-288 | the employee and exactly their embeddings go, the other rows are as they were; the log goes on with tombstones for these embeddings only, and the ids whose publish fails stay retained and are marked as unsent |
| Backends.Backend.SendTombstones | backend/src/routes/employees.rs:282-284 | after the loop database and broker agree again, except on the ids whose last publish failed |
| Backends.TombstonesReach | backend/src/routes/employees.rs:282-284 | the loop clears exactly the retained messages of the ids not lost, and sends nothing else |
| Backends.TombstonesKeep | backend/src/routes/employees.rs:27-37 | each accepted tombstone repairs its id, and only the lost ones stay unsent |
| Sync.MessageReadsBack | edge/src/mqtt/mqtt_subscriber.cpp:109-168 | what the backend prints into topic and payload is what the edge carries out |
| Sync.NextKeeps | backend/src/routes/employees.rs:257-284 | every event keeps the invariant: database, broker, channel, edge table and cache fit together, failed publishes recorded |
| Sync.RunsKeepPromises | edge/src/mqtt/mqtt_subscriber.cpp:72-176 | in every state of every run of backend, broker and edge: cache equals table, in-flight messages complete the table to the retained one, broker and database agree apart from failed publishes, and a caught-up edge holds the database's row for every undisturbed id |
| Sync.SessionsHeal | edge/src/mqtt/mqtt_subscriber.cpp:85-102 | from a reconnection on, while the session lasts and deliveries succeed, a caught-up edge agrees with the broker on every retained id, whatever failed before and whatever the backend does meanwhile |
| Sync.Deployment.Deliver | edge/src/mqtt/mqtt_subscriber.cpp:109-176 | one delivery to the edge's table and cache |
| Sync.Deployment.Restart | edge/apps/facegate/main.cpp:132-165 | a restart loses the session and reloads the cache |
| Sync.Deployment.Run | edge/src/mqtt/mqtt_subscriber.cpp:72-176 | the code's steps under any events are a run of that relation, and every state keeps the promises |
| Enrolment.RowsStay | backend/src/routes/employees.rs:252-288 | in every step a row comes under a new id for the employee of the request, never changes, and goes only when its own employee is deleted |
| Enrolment.ChangesAreSent | backend/src/routes/embeddings.rs:84-93 | in every step the broker learns of an id exactly when its row comes or goes and the publish succeeds; the ids marked as unsent are those on which it failed |
| Enrolment.EmbeddingsStay | backend/src/routes/employees.rs:252-288 | over every run an embedding stays in the database, unchanged, until a deletion of its own employee |
| Enrolment.EdgeIsNeverWrong | edge/src/mqtt/mqtt_subscriber.cpp:109-176 | in every state of every run, connected or not, whatever failed: the edge's row of an id that is in the database is the database's row |
| Enrolment.Operate | edge/src/mqtt/mqtt_subscriber.cpp:109-176 | the code of a new installation, under any events, goes through such states only |
| Enrolment.EnrolledStays | edge/src/mqtt/mqtt_subscriber.cpp:109-176 | over every run the edge does not lose the row of an enrolled id, nor its content, before that employee is deleted |
| Newest.SortedTimesAgree | backend/src/routes/analytics.rs:148 | two arrangements of the same rows are sorted to the same timestamps, whatever becomes of ties |
| Newest.SortIgnoresOrder | panel/src/app/dashboard/dashboard.page.ts:547 | with distinct timestamps the sorted list depends on the contents only |
| Newest.CutsOfRowsAreNewest | panel/src/app/dashboard/dashboard.page.ts:547-548 | rows with the right timestamps are a choice of the newest k exactly when they are part of the collection |
| Newest.TopIsNewest | panel/src/app/dashboard/dashboard.page.ts:547-548 | sorting and slicing yields a choice of the newest k |
| Newest.PartsCountUpTo | panel/src/app/dashboard/dashboard.page.ts:537-545 | parts may be cut to their newest k before they are put together |
| Newest.TopOfParts | panel/src/app/dashboard/dashboard.page.ts:547-548 | with distinct timestamps cutting one part does not change the newest k of the whole |
| Ranks.SortPlaces | panel/src/app/dashboard/dashboard.page.ts:547 | the stable sort puts a row behind the newer ones and the equally old ones before it |
| Pages.PageSizes | backend/src/routes/analytics.rs:132-149 | a request gets the next rows behind its offset: 50 without a limit, else the limit brought into 1 to 200; a negative offset counts as 0 |
| Pages.PagesKeepTimes | backend/src/routes/analytics.rs:135-149 | every arrangement of the table gives pages with the same timestamps |
| Pages.PagesIgnoreOrder | backend/src/routes/analytics.rs:135-149 | with distinct timestamps every arrangement gives the same pages |
| Pages.FetchGrantedEvents | panel/src/app/dashboard/dashboard.page.ts:569-595 | for every table the loop returns the first min(K, n, 10000) places of the sorted list, each from the arrangement that answered its page; with distinct timestamps these are the newest rows |
| Pages.FetchedCuts | panel/src/app/dashboard/dashboard.page.ts:569-595 | whatever becomes of ties, the fetched timestamps are those of the newest rows |
| Pages.TwinsStraddleEdge | panel/src/app/dashboard/dashboard.page.ts:577-593 | a row fetched twice stands on two pages with a tied edge between them |
| Ties.SwapServerRepeats | backend/src/routes/analytics.rs:148-149 | at any tied edge a server that swaps the two rows on the later page makes one come twice |
| Ties.FetchIsNewestIff | panel/src/app/dashboard/dashboard.page.ts:569-595 | every server yields a choice of the newest min(K, 10000) rows exactly when no two rows at places 200j-1 and 200j within reach share a timestamp |
| Export.QueriesFind | panel/src/app/dashboard/dashboard.page.ts:531-585 | the queries find exactly the granted events inside the period, both ends included, of the selected employees, or of all if none is selected |
| Export.TargetsCoverTheQuestion | panel/src/app/dashboard/dashboard.page.ts:531-545 | querying distinct employees one by one finds each event asked for exactly once |
| Export.CutListsSuffice | panel/src/app/dashboard/dashboard.page.ts:537-548 | for every table and server the concatenated top-K lists have the timestamps that the newest K of all need |
| Export.CollectEvents | panel/src/app/dashboard/dashboard.page.ts:536-545 | the loop over the targets concatenates what each page loop fetched |
| Export.SubmitExport | panel/src/app/dashboard/dashboard.page.ts:517-555 | a reversed period is refused; whatever the selection, exported rows are granted, inside the period, of a selected employee and newest first, and none are found only if there are none; further the export is the newest K of what was collected, for K up to 10000 a choice of the newest asked for unless a tied edge is exported, and the only one with distinct timestamps |
| Export.ExportIsNewestIff | panel/src/app/dashboard/dashboard.page.ts:531-548 | every server yields a choice of the newest K asked for exactly when no exported row stands behind a page's edge that separates it from an equally old row |
| Export.MergedExport | panel/src/app/dashboard/dashboard.page.ts:531-548 | with distinct timestamps the merge of per-employee lists is the top-K of the union |
| Csv.FieldReadsBack | panel/src/app/dashboard/dashboard.page.ts:614-618 | a reader by section 2 of RFC 4180 recovers any printed field, whatever it contains |
| Csv.PlainFieldsStay | panel/src/app/dashboard/dashboard.page.ts:614-618 | a field is printed as it is exactly when it contains no delimiter, quote or line break |
| Csv.RoundTrip | panel/src/app/dashboard/dashboard.page.ts:620-636 | a printed table is read back whole exactly when it does not end, behind other rows, in a row of one empty cell |
| Csv.DashboardReadsBack | panel/src/app/dashboard/dashboard.page.ts:620-636 | behind its byte order mark the semicolon file is read back as the header and one row per event: id, name or Desconhecido, status, distance, time |
| Csv.ReportReadsBack | panel/src/app/features/reports/reports.page.ts:183-194 | the comma file is read back as the header and one row per event: id, time, status, name, distance |
| Delays.DividendIsPositive | backend/src/routes/analytics.rs:219-229 | MOD never sees a negative dividend |
| Delays.DelayIsNormalised | backend/src/routes/analytics.rs:219-230 | the delay is the one value in [-12 h, +12 h) congruent to the raw delta modulo a day |
| Delays.DelayIsLeast | backend/src/routes/analytics.rs:213-215 | no congruent value is closer to zero |
| Delays.OnTimeIff | backend/src/routes/analytics.rs:219-230 | the delay is 0 exactly at 8:00, 14:00 and 22:00 of the three shifts, and missing exactly for other shifts |
| Delays.DocumentedWindowHoldsUnlessHalfDay | backend/src/routes/analytics.rs:213-230 | the documented window holds exactly unless the entry is twelve hours from the start of the shift |
| Presence.PresenceIsReplay | backend/src/routes/analytics.rs:339-370 | an employee is listed, with the last entry time, exactly when replaying their events of the day in time order (in before out on ties) ends inside |
| Presence.PresentIff | backend/src/routes/analytics.rs:339-370 | an employee is listed exactly if some granted entry of today is later than every granted exit of today, and with the latest such time |
| Presence.PresentTodayIsReplay | backend/src/routes/analytics.rs:339-370 | the whole list is the outcome of putting each employee's day in time order and replaying it |
| EyeAlignment.ClosedFormAligns | edge/src/vision/face_embedder.cpp:35-58 | there is a transform exactly for eyes at least 1e-3 apart, and it is the one similarity that sends both to the canonical points |
| EyeAlignment.DistancesScale | edge/src/vision/face_embedder.cpp:51-57 | every squared distance is scaled by a^2 + b^2 |
| EyeAlignment.ScaleIsEyeRatio | panel/src/app/core/vision/face-embedding.service.ts:55-60 | that factor is the ratio of the squared eye distances |
| EyeAlignment.EdgeAndPanelAgree | panel/src/app/core/vision/face-embedding.service.ts:204-207 | the canvas transform, whose arguments go by columns, moves every point as the edge's matrix does |

## Left out

- Matching.NormalizationKeepsAnswers: a sufficient condition, but for one threshold at a time; the exact conditions of `Normalization` speak of all thresholds.
- Export.SubmitExport: what it says about the newest events is for distinct selected employees, which is what the panel's multiple selection yields, and for limits up to 10000 (the panel offers at most 1000); beyond that only what was collected is stated.
- Ties.FetchIsNewestIff: rows are taken to have a primary key, so that no row occurs twice in the table.
- Presence.PresenceIsReplay: the final ORDER BY of the list and the employee's name are not modelled.
- Turnstiles.Turnstile.EmitOpenPulses: a pulse is dated by the clock reading that licensed it, not by the later moment at which the line rises.
- Sync.Deployment.Run: the edge's table is empty at the start of a run, as on a new device; restarts are steps of the run.
- Float rounding, NaN and infinity arithmetic: the arithmetic is over the reals.
- JSON text: a payload is what the parser makes of it, and a bad member is one of the failure cases.
- Inference, image tensors, cameras, libgpiod calls, real-time scheduling and sleep jitter: detections, embeddings and clock readings are arbitrary inputs.
- The mock mode of turnstile and LED (GPIO disabled), where nothing is driven at all.
- The buzzer, which only delays the loop, and the stage profiler.
- The heartbeat's interval: the model lets a heartbeat come at any moment between drains.
- MQTT packet loss and redelivery inside one session: a channel delivers each message once, in order.
- End-to-end delivery of events into PostgreSQL: the backend logs and drops an event when its database fails, so no such claim is true.
- The race between creating an embedding and deleting its employee: each handler is one atomic step.
- The order in which PostgreSQL returns the ids to delete is an input of `Backends.Backend.Delete`.
- A match running between the table's update and the cache's: each message is one atomic step on both.
- The enroll tool that writes the same SQLite file while the daemon runs.
- The average and the first entry per day in avg_delay, the time zone, hour buckets, heat maps and the other analytics queries.
- Number and date formatting of exported cells: cells are arbitrary strings.
- HTTP errors during an export, panel pages, tokens and passwords, configuration files and Docker.
