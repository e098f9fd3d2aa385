# Wand gesture segmentation and spell dispatch, in Dafny

A model of the main loop of `HarryPotterWandcv.py`, a wand-tracking program. Each camera frame yields at most one
blob position and a clock reading. From these the loop decides when a gesture starts, when it is cancelled as a
reflection, and when it is complete, either because the wand came to rest or because it left the frame. A finished
gesture is handed to one classification worker at a time. The worker turns the predicted label into an "open" or
"close" feedback sequence, but only when the label asks for the opposite of the remembered `lastMove`.

The model has five files:

- `wand_state.dfy` (module `WandState`): the configuration constants, samples, the loop's globals as a `State` value,
  truncation of a coordinate (`int(x)`) and the blob's movement.
- `feedback.dfy` (module `SpellFeedback`): the spell gating `Feedback` and the worker's ending `Worker`.
- `segmentation.dfy` (module `Segmentation`): one pass of the loop as the function `Tick`, the invariant `Inv` of
  reachable states, and the per-tick properties.
- `dispatch.dfy` (module `Dispatcher`): the loop and its workers together, as a `System` that runs a stream of inputs.
  Each input is either a tick or the end of the running worker. This file holds the induction proofs: at most one
  inference is in flight, the cancel branch is never taken, and a wand held still ends its gesture on the 21st tick.
- `tracker.dfy` (module `Tracker`): the class `WandTracker`. Its fields are the program's globals, plus `exited`
  for a main loop that has left through its `finally`. Its methods update the fields in place the way the program
  does. The loop passes and the worker's end (`Step` and its parts, `FinishPrediction`, `Apply`, `Track`) are
  proved equal to the functions above; `Submit` and `EndGesture` state their updates directly, and the constructor
  yields the initial system.

Modelling choices:

- Coordinates are `Float = Finite(real) | NaN`. Clock readings are `real`.
- `math.hypot(dx, dy) > 6` and `< 6` are compared as `dx² + dy²` against 36. A comparison with NaN is false, as in
  Python, so a NaN movement resets the stillness counter.
- `int(x)` truncates toward zero (`Trunc`).
- `stillness_duration_threshold / 0.05` is the exact real number 20. Double-precision division gives the same value.
- `last_blob_time` is tested by Python truthiness, so a reading of `0.0` counts as absent (`Truthy`).
- `last_valid_output_frame` is modelled as the trace drawn on it (`Frame`). The classifier's mask is exactly that
  polyline.
- Launching a worker thread is modelled as the job frame carried by the completion event. The running workers are
  the list `jobs` of a `System` value, mirrored in `WandTracker` by a ghost field of the same name. A worker's end is a separate input (`Finish`, or `WandTracker.FinishPrediction`), and it
  clears `predicting` unconditionally.

Where the code differs from its evident design, the model follows the code:

- `points` is cleared only when a trace starts. It is not cleared when a trace is cancelled or completed.
- The cancel branch (lines 239-247) is unreachable. The stillness counter must exceed 20, and during a trace every
  still tick also appends a point. A still movement needs numeric coordinates, and the last position is always
  known while tracing. So the counter never exceeds the trace's length: `Inv` states this, and `NeverCancels`
  proves that no run cancels. A short still trace therefore completes instead of cancelling.
- Completion because the wand left the frame has no minimum point count. If the wand leaves right after the start
  tick of a later gesture, the worker is handed the frame kept from the previous gesture (`JobIsTrace`), so "the
  trace is non-empty when a gesture completes" does not hold in the code. If this happens on the first gesture,
  `last_valid_output_frame` is still `None`. `cv2.inRange` then raises at line 271, before any global changes, and
  the main loop, which has only a `try`/`finally`, exits. The model's event for this is `Crash`. After it the
  system is halted and takes no more samples, but a running worker still ends (`FirstGestureLeftEarlyHalts`,
  `HaltedIgnoresSamples`).
- The declaration comment says `lastMove` 0 means open. The gating treats 0 as "closed, may open": label "0" acts
  only when `lastMove` is 0 and then sets it to 1.

## Model

| member | source | states |
|---|---|---|
| `WandState.Trunc` | HarryPotterWandcv.py:224 | `int(x)` truncates toward zero: the result lies within one unit of `x`, between 0 and `x` |
| `WandState.MovementFrom` | HarryPotterWandcv.py:208-210 | the movement is 0 with no previous position; with numeric coordinates on both sides its square is `dx² + dy²`; it is NaN exactly when a previous position exists and a coordinate is NaN; its square is never negative |
| `WandState.MovementToSelf` | HarryPotterWandcv.py:208-210 | a numeric position has moved 0 from itself, so a wand held still is below the threshold |
| `WandState.PointOf` | HarryPotterWandcv.py:223-224 | a position contributes a point exactly when both coordinates are numbers |
| `WandState.Truthy` | HarryPotterWandcv.py:269 | Python's truth value of `last_blob_time`: true exactly for a recorded time other than 0.0; `None` and 0.0 are false |
| `WandState.MovedBeyond` | HarryPotterWandcv.py:216 | `blob_movement > 6`: false for a NaN movement, and never true together with `StillWithin` |
| `WandState.StillWithin` | HarryPotterWandcv.py:233 | `blob_movement < 6`: false for a NaN movement, true for the 0 movement of a missing previous position |
| `WandState.HypotCompare` | HarryPotterWandcv.py:210-233 | comparing the squared distance with 36 decides exactly as comparing `math.hypot`, the non-negative root, with 6, for both `>` and `<` |
| `SpellFeedback.Feedback` | HarryPotterWandcv.py:175-184 | Open only for label "0" with `lastMove` 0, then `lastMove` becomes 1; Close only for "1" with `lastMove` 1, then `lastMove` becomes 0; otherwise no action and `lastMove` unchanged |
| `SpellFeedback.FeedbackActsIff` | HarryPotterWandcv.py:175-184 | an action is taken if and only if the label asks for the state opposite to `lastMove` |
| `SpellFeedback.FeedbackToggles` | HarryPotterWandcv.py:179-184 | `lastMove` stays in {0, 1}; it flips exactly when an action is taken |
| `SpellFeedback.FeedbackDebounce` | HarryPotterWandcv.py:175-184 | the same label again, after its own feedback, never acts |
| `SpellFeedback.TwoOpenSpells` | HarryPotterWandcv.py:66 | from the initial `lastMove` of 0, two "0" labels give one Open and then no action, ending with `lastMove` = 1 |
| `SpellFeedback.Worker` | HarryPotterWandcv.py:171-187 | a worker's end clears `predicting` whatever the outcome; a failure takes no action; a label goes through `Feedback`; nothing else changes |
| `Segmentation.Submit` | HarryPotterWandcv.py:253-256 | a worker is launched with the frame if and only if none was in flight; afterwards the flag is set |
| `Segmentation.EndGesture` | HarryPotterWandcv.py:257-260 | as also at lines 241-244 and 276-279, the start flag, the presence timer, the last position and the counter are reset, and every other global is kept |
| `Segmentation.Tick` | HarryPotterWandcv.py:205-283 | the loop never changes `lastMove`; the flag becomes set only on a completion, and a completion launches a worker if and only if none was in flight; a Crash happens only on a blobless tick while tracing with no frame kept, and changes no global |
| `Segmentation.PresentTick` | HarryPotterWandcv.py:212-221 | a tick with a blob: while idle it can only start a trace or do nothing; while tracing it can only cancel, complete or do nothing; it never changes `lastMove` |
| `Segmentation.IdleTick` | HarryPotterWandcv.py:213-220 | a blob seen while not tracing starts the presence timer if none runs, or starts the trace; a tick that does not start changes nothing but the presence timer, the last position and the last time; it records the position and time, and never touches the kept frame, the counter, the flag or `lastMove` |
| `Segmentation.Draw` | HarryPotterWandcv.py:222-236 | appends the point exactly when it is numeric, keeps the frame with the whole trace drawn, and sets the counter to 0 or one more; every other global is kept |
| `Segmentation.TracingTick` | HarryPotterWandcv.py:221-266 | a blob seen while tracing adds at most one point, and one exactly when it is numeric; the kept frame is the trace; the gesture ends (cancel or complete) if and only if the new counter exceeds 20, and then the counter is 0; a tick that does not end the gesture is `Draw` plus the recorded position and time, and changes nothing else |
| `Segmentation.AbsentTick` | HarryPotterWandcv.py:267-283 | a tick without a blob never touches the trace, the kept frame, the last time or `lastMove`; it ends in no event, a wand-left completion or a Crash, the latter two only while tracing; tracing stops exactly on the completion |
| `Segmentation.InitInv` | HarryPotterWandcv.py:66-80 | the initial globals satisfy the reachable-state invariant |
| `Segmentation.StillMeansFinite` | HarryPotterWandcv.py:208-210 | with a previous position, a movement below the threshold implies the new position has numeric coordinates |
| `Segmentation.TickPreservesInv` | HarryPotterWandcv.py:205-283 | every tick keeps the invariant: stillness counter ≤ 20, counter ≤ number of points and a known last position while tracing, counter 0 when not tracing, `lastMove` in {0, 1}, and, while tracing with at least one point, the kept frame is the drawn trace |
| `Segmentation.TickNeverCancels` | HarryPotterWandcv.py:239-247 | from a state satisfying the invariant, no tick cancels |
| `Segmentation.FirstSightingRecordsTime` | HarryPotterWandcv.py:213-215 | a detection while idle with no presence timer sets the presence timer, the last position and the last time to this tick, and changes no other global; no event |
| `Segmentation.StartIff` | HarryPotterWandcv.py:213-220 | a trace starts if and only if: detected, not tracing, timer set, more than 0.6 s elapsed, and movement > 6; the start empties `points` and leaves the counter and flag alone |
| `Segmentation.NoPreviousPositionNoStart` | HarryPotterWandcv.py:208-216 | with no previous position the movement is 0, so no start |
| `Segmentation.TracingAppends` | HarryPotterWandcv.py:223-224 | while tracing, a numeric position is appended truncated; a NaN position appends nothing |
| `Segmentation.PointsOnlyGrow` | HarryPotterWandcv.py:219-224 | apart from a start, the old trace is always a prefix of the new one |
| `Segmentation.StillnessCounts` | HarryPotterWandcv.py:233-236 | on a tracing tick that does not end the gesture, the counter goes up by 1 if the movement is below 6 and to 0 otherwise; the position and time are recorded |
| `Segmentation.EndsOnTwentyFirstStillTick` | HarryPotterWandcv.py:239-250 | from a reachable tracing state, a still tick ends the gesture if and only if 20 still ticks preceded it |
| `Segmentation.CancelIff` | HarryPotterWandcv.py:238-247 | the tick cancels if and only if it is tracing with fewer than 10 points and the counter is above 20; cancel resets the start flag, the timer, the position and the counter, shows "Canceled." and leaves `predicting` alone |
| `Segmentation.CancelBoundary` | HarryPotterWandcv.py:239-250 | when the counter passes 20, a still trace ends in Cancel with 9 points and in Complete with 10; the states it starts from break `Inv` (a counter of 20 needs 20 points), so the program never reaches them, and `TickNeverCancels` shows the cancel test never fires |
| `Segmentation.CompleteIff` | HarryPotterWandcv.py:249-263 | completion by stillness happens if and only if the counter is above 20 with at least 10 points; the worker receives the drawing of the trace exactly when none was in flight; the gesture is reset and the status is Ready |
| `Segmentation.WandLeftIff` | HarryPotterWandcv.py:267-283 | with no blob, while tracing, with a truthy last time more than 1.0 s old: the gesture completes if and only if a frame was kept, and the tick is a Crash, changing no global, if and only if none was; in any other blobless tick only the presence timer is cleared |
| `Segmentation.JobIsTrace` | HarryPotterWandcv.py:230-275 | from a reachable state, the frame handed to a worker is the drawing of the traced points, or the previously kept frame when no point was traced; it is never a missing frame |
| `Dispatcher.Launched` | HarryPotterWandcv.py:253-275 | a completion event launches at most one worker, and exactly one when it carries a job |
| `Dispatcher.SysStep` | HarryPotterWandcv.py:185-191 | a worker's end removes it and clears the flag; a tick never removes a running worker; once halted, a sample changes nothing; the system is halted exactly when it was or the tick crashed |
| `Dispatcher.Run` | HarryPotterWandcv.py:190-191 | every input yields exactly one output |
| `Dispatcher.InitSysInv` | HarryPotterWandcv.py:79-81 | at start-up no worker runs and the flag is clear |
| `Dispatcher.SysStepPreservesInv` | HarryPotterWandcv.py:185-187 | every input keeps: at most one worker, flag set exactly while one runs, and the loop invariant |
| `Dispatcher.RunPreservesInv` | HarryPotterWandcv.py:253-256 | the system invariant holds after any stream of inputs |
| `Dispatcher.AtMostOneInference` | HarryPotterWandcv.py:253-256 | after every run from start-up, at most one classification is in flight, and the flag is set exactly while one is |
| `Dispatcher.BusyDropsSubmissions` | HarryPotterWandcv.py:272-275 | while a worker runs and only samples arrive, every completion is dropped: no new worker, and the flag stays set |
| `Dispatcher.NeverCancels` | HarryPotterWandcv.py:239-247 | no run from a reachable system ever outputs a Cancel |
| `Dispatcher.HaltedIgnoresSamples` | HarryPotterWandcv.py:298-305 | once the loop has exited, the system stays halted, every later sample gives `Stopped`, and a stream of samples alone changes nothing |
| `Dispatcher.FirstGestureLeftEarlyHalts` | HarryPotterWandcv.py:269-271 | seen, started, then gone for more than 1 s before any point was traced: the first gesture crashes with no worker launched, and a later sample is not looked at |
| `Dispatcher.RunAppend` | HarryPotterWandcv.py:190-191 | running two streams one after the other equals running their concatenation |
| `Dispatcher.HoldStill` | HarryPotterWandcv.py:205-207 | a stream of samples of one position at the given times |
| `Dispatcher.HoldStillCounts` | HarryPotterWandcv.py:233-236 | while the counter stays within 20, each tick of a still wand adds 1 to the counter and one point, with no event |
| `Dispatcher.HeldStillCompletesOnTwentyFirstTick` | HarryPotterWandcv.py:249-263 | a wand held still from counter 0 has 20 quiet ticks and then completes on the 21st, never cancelling; a worker starts exactly when none was in flight |
| `Dispatcher.StillTickCompletes` | HarryPotterWandcv.py:249-263 | from a reachable tracing state with the counter at 20, one more still tick completes the gesture, with a job exactly when no worker was in flight, and leaves the flag set |
| `Tracker.WandTracker.constructor` | HarryPotterWandcv.py:66-80 | the object starts as the program's initial globals, with no worker |
| `Tracker.WandTracker.Submit` | HarryPotterWandcv.py:253-256 | sets `predicting`; it records and returns the kept frame as a new job if and only if the flag was clear |
| `Tracker.WandTracker.EndGesture` | HarryPotterWandcv.py:257-260 | clears the start flag, the presence timer, the last position and the counter |
| `Tracker.WandTracker.Step` | HarryPotterWandcv.py:205-283 | one in-place pass of the running loop leaves exactly the state and event of `Tick`, records the exit on a Crash, and keeps the system invariant |
| `Tracker.WandTracker.StepIdle` | HarryPotterWandcv.py:213-220 | a blob seen while not tracing updates the fields in place exactly as `IdleTick`, and launches no worker |
| `Tracker.WandTracker.DrawPoint` | HarryPotterWandcv.py:222-236 | appending the point, keeping the frame and counting stillness in place leaves exactly the state of `Draw` |
| `Tracker.WandTracker.StepTracing` | HarryPotterWandcv.py:221-266 | a blob seen while tracing updates the fields in place exactly as `TracingTick`; the only worker it may add is its completion's job |
| `Tracker.WandTracker.StepAbsent` | HarryPotterWandcv.py:267-283 | a tick without a blob updates the fields in place exactly as `AbsentTick`, including the Crash that changes nothing; the only worker it may add is its completion's job |
| `Tracker.WandTracker.FinishPrediction` | HarryPotterWandcv.py:175-187 | the worker's end updates `lastMove` and the action as `Worker` does, clears `predicting` and keeps the invariant |
| `Dispatcher.RunAdvance` | HarryPotterWandcv.py:190-191 | taking the next input of a stream gives the next output of the whole run and leaves the rest of the run unchanged |
| `Tracker.WandTracker.Apply` | HarryPotterWandcv.py:190-191 | one input (a pass of the loop while it has not exited, or the end of the running worker when one runs) leaves the state and output of `SysStep` |
| `Tracker.WandTracker.Track` | HarryPotterWandcv.py:190-191 | the loop over a stream of inputs ends in the state and outputs of `Run` |

## Left out

- Camera capture, frame flipping and blob detection (lines 193-203): the first blob's position is the tick's input.
- OpenCV drawing, mask extraction, preprocessing and image writing (lines 165-169, 225-230, 252, 271, 286-292): a frame
  is modelled as the trace drawn on it. The text and rectangle overlays, and the window, are left out. The one error
  of mask extraction that the loop can reach, `inRange` on the `None` frame, is modelled as `Crash`.
- The classifier (line 172 and `HarryPotterWandsklearn.py`): its label is an input to the worker's end.
- Servo motion, LED animation and audio (lines 84-159): these are drivers, floating point, `random` and `sleep`.
  They appear only as the `Open`/`Close` action.
- `Tracker.WandTracker.FinishPrediction`: an exception raised during the sound or servo sequence, after the
  decision and before `lastMove` is assigned, is not modelled. Only a failure before the decision (`Failed`) is.
- `SpellFeedback.Worker`: likewise, a worker that raises after the spell decision, so that the action is decided
  but `lastMove` is never assigned, is not modelled. Its `Outcome` is either a failure before the decision or a label.
- The cleanup after the loop exits (lines 298-305: windows, servo detach, lights off, music stop) has no state in
  the model; a worker that ends after it is modelled as if the drivers were still attached.
- Real threads and the lock (lines 9, 81, 253-256, 272-275, 186): the lock's atomicity is assumed. Ticks and worker
  ends interleave one at a time.
- `time.sleep` pacing (lines 246, 262, 281) and the `q` key: the clock reading of each sample carries what the pacing
  does to time.
- The second clock reading of the wand-left test (line 269): the model uses the tick's reading for both.
- Floating-point rounding of coordinates, distances and times, and infinite coordinates (for which `int()` raises),
  are not modelled. Coordinates are exact reals or NaN.
- `DatasetCreation/` (dataset drawing, conversion and training): offline tools outside the tracking loop.
