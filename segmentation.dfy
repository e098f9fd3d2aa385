/**
 * One tick of the tracking loop (HarryPotterWandcv.py:205-283) as a function
 * of the globals and the tick's sample, the invariant every reachable state
 * keeps, and the one-tick properties of start, stillness, cancel and
 * completion.
 */
module Segmentation {
  import opened WandState

  datatype TickResult = TickResult(next: State, event: Event)
  datatype SubmitResult = SubmitResult(predicting: bool, job: Option<Frame>)

  /**
   * `with prediction_lock: if not predicting: predicting = True; Thread(...)`:
   * a worker is launched with the frame only when none is in flight, and
   * afterwards one always is.
   */
  function Submit(predicting: bool, frame: Frame): (r: SubmitResult)
    ensures r.predicting
    ensures r.job.Some? <==> !predicting
    ensures r.job.Some? ==> r.job.value == frame
  {
    if predicting then SubmitResult(true, None) else SubmitResult(true, Some(frame))
  }

  /** The resets shared by cancel and both completions; every other global is kept. */
  function EndGesture(st: State): (r: State)
    ensures !r.traceStarted && r.traceStartTime.None? && r.lastBlobPosition.None? && r.stillnessTimer == 0
    ensures r.(traceStarted := st.traceStarted, traceStartTime := st.traceStartTime,
               lastBlobPosition := st.lastBlobPosition, stillnessTimer := st.stillnessTimer) == st
  {
    st.(traceStarted := false, traceStartTime := None, lastBlobPosition := None, stillnessTimer := 0)
  }

  /** The body of the main loop for one sample (HarryPotterWandcv.py:205-283). */
  function Tick(st: State, s: Sample): (r: TickResult)
    ensures r.next.lastMove == st.lastMove
    ensures r.next.predicting ==> st.predicting || r.event.Complete? || r.event.CompleteWandLeft?
    ensures (r.event.Complete? || r.event.CompleteWandLeft?) ==>
      r.next.predicting && (r.event.job.Some? <==> !st.predicting)
    ensures r.event == Crash ==> s.pos.None? && st.traceStarted && st.lastFrame == NoFrame && r.next == st
  {
    match s.pos
    case Some(p) => PresentTick(st, p, s.now)
    case None => AbsentTick(st, s.now)
  }

  /**
   * A tick on which a blob was detected (HarryPotterWandcv.py:205-266): the
   * `if not trace_started` split. Only an idle tick can start a trace, and a
   * detection never ends a gesture by the wand leaving.
   */
  function PresentTick(st: State, p: Position, now: real): (r: TickResult)
    ensures !st.traceStarted ==> r.event == NoEvent || r.event == Start
    ensures st.traceStarted ==> r.event == NoEvent || r.event == Cancel || r.event.Complete?
    ensures r.next.lastMove == st.lastMove
  {
    if !st.traceStarted then IdleTick(st, p, now) else TracingTick(st, p, now)
  }

  /** A blob seen while not tracing: record the presence timer, or start (HarryPotterWandcv.py:213-220). */
  function IdleTick(st: State, p: Position, now: real): (r: TickResult)
    ensures r.event == NoEvent || r.event == Start
    ensures r.next.lastBlobPosition == Some(p) && r.next.lastBlobTime == Some(now)
    ensures r.next.traceStartTime == if st.traceStartTime.None? then Some(now) else st.traceStartTime
    ensures r.event == NoEvent ==> r.next.traceStarted == st.traceStarted && r.next.points == st.points
    ensures r.event == NoEvent ==>
      r.next == st.(traceStartTime := r.next.traceStartTime, lastBlobPosition := Some(p), lastBlobTime := Some(now))
    ensures r.next.lastFrame == st.lastFrame && r.next.stillnessTimer == st.stillnessTimer
    ensures r.next.predicting == st.predicting && r.next.lastMove == st.lastMove
  {
    var movement := MovementFrom(st.lastBlobPosition, p);
    var seen := st.(lastBlobPosition := Some(p), lastBlobTime := Some(now));
    if st.traceStartTime.None? then
      TickResult(seen.(traceStartTime := Some(now)), NoEvent)
    else if now - st.traceStartTime.value > PRESENCE_DURATION_THRESHOLD && MovedBeyond(movement) then
      TickResult(seen.(traceStarted := true, points := [], status := Tracing), Start)
    else
      TickResult(seen, NoEvent)
  }

  /** A blob seen while tracing: append, count stillness, cancel or complete (HarryPotterWandcv.py:221-266). */
  function TracingTick(st: State, p: Position, now: real): (r: TickResult)
    ensures r.event == NoEvent || r.event == Cancel || r.event.Complete?
    ensures st.points <= r.next.points && |r.next.points| <= |st.points| + 1
    ensures |r.next.points| == |st.points| + 1 <==> PointOf(p).Some?
    ensures r.next.lastFrame == Drawn(r.next.points)
    ensures r.event == NoEvent ==> r.next.traceStarted == st.traceStarted && r.next.lastBlobPosition == Some(p)
    ensures r.event == NoEvent ==>
      r.next.(lastBlobPosition := st.lastBlobPosition, lastBlobTime := st.lastBlobTime) == Draw(st, p)
    ensures r.event != NoEvent ==> !r.next.traceStarted && r.next.stillnessTimer == 0
    ensures r.event != NoEvent <==>
      (if StillWithin(MovementFrom(st.lastBlobPosition, p)) then st.stillnessTimer + 1 else 0) as real > STILLNESS_LIMIT
  {
    var drawn := Draw(st, p);
    var points, timer := drawn.points, drawn.stillnessTimer;
    if |points| < MIN_TRACE_POINTS && timer as real > STILLNESS_LIMIT then
      TickResult(EndGesture(drawn).(status := Canceled), Cancel)
    else if timer as real > STILLNESS_LIMIT then
      var sub := Submit(drawn.predicting, drawn.lastFrame);
      TickResult(EndGesture(drawn).(predicting := sub.predicting, status := Ready), Complete(sub.job))
    else
      TickResult(drawn.(lastBlobPosition := Some(p), lastBlobTime := Some(now)), NoEvent)
  }

  /**
   * The first part of a tracing tick (HarryPotterWandcv.py:222-235): append
   * the truncated point unless a coordinate is NaN, keep the frame with the
   * trace drawn, and count the tick as still or reset the counter.
   */
  function Draw(st: State, p: Position): (r: State)
    ensures r.points == st.points + (if PointOf(p).Some? then [PointOf(p).value] else [])
    ensures r.lastFrame == Drawn(r.points)
    ensures r.stillnessTimer == 0 || r.stillnessTimer == st.stillnessTimer + 1
    ensures r.(points := st.points, lastFrame := st.lastFrame, stillnessTimer := st.stillnessTimer) == st
  {
    var points := match PointOf(p) case Some(q) => st.points + [q] case None => st.points;
    var timer := if StillWithin(MovementFrom(st.lastBlobPosition, p)) then st.stillnessTimer + 1 else 0;
    st.(points := points, lastFrame := Drawn(points), stillnessTimer := timer)
  }

  /**
   * A tick without a blob (HarryPotterWandcv.py:267-283). When the wand left
   * a trace before any frame was kept, `cv2.inRange` gets `None` and raises,
   * before any global changes.
   */
  function AbsentTick(st: State, now: real): (r: TickResult)
    ensures r.event == NoEvent || r.event.CompleteWandLeft? || r.event == Crash
    ensures r.next.points == st.points && r.next.lastFrame == st.lastFrame
    ensures r.next.lastBlobTime == st.lastBlobTime && r.next.lastMove == st.lastMove
    ensures r.event != NoEvent ==> st.traceStarted
    ensures r.next.traceStarted != st.traceStarted <==> r.event.CompleteWandLeft?
  {
    if st.traceStarted && Truthy(st.lastBlobTime) && now - st.lastBlobTime.value > STILLNESS_DURATION_THRESHOLD then
      if st.lastFrame == NoFrame then TickResult(st, Crash)
      else
      var sub := Submit(st.predicting, st.lastFrame);
      TickResult(EndGesture(st).(predicting := sub.predicting, status := Ready), CompleteWandLeft(sub.job))
    else
      TickResult(st.(traceStartTime := None), NoEvent)
  }

  /**
   * What holds of every state the loop reaches from INIT. The key clause is
   * `stillnessTimer <= |points|` while tracing: every still tick adds a point.
   */
  ghost predicate Inv(st: State) {
    && (st.lastMove == 0 || st.lastMove == 1)
    && (!st.traceStarted ==> st.stillnessTimer == 0)
    && st.stillnessTimer as real <= STILLNESS_LIMIT
    && (st.traceStarted ==> st.lastBlobPosition.Some? && st.stillnessTimer <= |st.points|)
    && (st.traceStarted && st.points != [] ==> st.lastFrame == Drawn(st.points))
  }

  lemma InitInv()
    ensures Inv(INIT)
  {
  }

  /** A still movement from a known position means both positions are numbers. */
  lemma StillMeansFinite(last: Option<Position>, p: Position)
    requires last.Some? && StillWithin(MovementFrom(last, p))
    ensures PointOf(p).Some?
  {
  }

  lemma TickPreservesInv(st: State, s: Sample)
    requires Inv(st)
    ensures Inv(Tick(st, s).next)
  {
    if s.pos.Some? && st.traceStarted {
      var p := s.pos.value;
      if StillWithin(MovementFrom(st.lastBlobPosition, p)) {
        StillMeansFinite(st.lastBlobPosition, p);
      }
    }
  }

  /**
   * From a reachable state no tick cancels: a stillness counter above 20
   * needs 21 still ticks, each of which added a point, so the trace never
   * has fewer than MIN_TRACE_POINTS points when the counter runs out.
   */
  lemma TickNeverCancels(st: State, s: Sample)
    requires Inv(st)
    ensures Tick(st, s).event != Cancel
  {
    if s.pos.Some? && st.traceStarted {
      var p := s.pos.value;
      if StillWithin(MovementFrom(st.lastBlobPosition, p)) {
        StillMeansFinite(st.lastBlobPosition, p);
      }
    }
  }

  /**
   * A detection while not tracing and with no presence timer only records
   * the time: no start, no point.
   */
  lemma FirstSightingRecordsTime(st: State, p: Position, now: real)
    requires !st.traceStarted && st.traceStartTime.None?
    ensures var r := Tick(st, Sample(Some(p), now));
      r.event == NoEvent &&
      r.next == st.(traceStartTime := Some(now), lastBlobPosition := Some(p), lastBlobTime := Some(now))
  {
  }

  /**
   * A trace starts exactly when a blob is seen while not tracing, a presence
   * timer exists, more than 0.6 s have passed since it, and the blob moved
   * more than the threshold; the start clears the points and adds none.
   */
  lemma StartIff(st: State, s: Sample)
    ensures var r := Tick(st, s);
      r.event == Start <==>
        s.pos.Some? && !st.traceStarted && st.traceStartTime.Some? &&
        s.now - st.traceStartTime.value > PRESENCE_DURATION_THRESHOLD &&
        MovedBeyond(MovementFrom(st.lastBlobPosition, s.pos.value))
    ensures var r := Tick(st, s);
      r.event == Start ==>
        r.next.traceStarted && r.next.points == [] && r.next.status == Tracing &&
        r.next.stillnessTimer == st.stillnessTimer && r.next.predicting == st.predicting
  {
  }

  /** With no previous position the movement is 0, so the tick cannot start a trace. */
  lemma NoPreviousPositionNoStart(st: State, s: Sample)
    requires st.lastBlobPosition.None?
    ensures Tick(st, s).event != Start
  {
  }

  /**
   * While tracing, a detected position with numeric coordinates is appended
   * truncated; a NaN position appends nothing.
   */
  lemma TracingAppends(st: State, p: Position, now: real)
    requires st.traceStarted
    ensures var r := Tick(st, Sample(Some(p), now));
      r.next.points == if p.x.Finite? && p.y.Finite? then st.points + [Point(Trunc(p.x.v), Trunc(p.y.v))] else st.points
  {
  }

  /** Outside a start, no tick removes points: the old trace is a prefix of the new one. */
  lemma PointsOnlyGrow(st: State, s: Sample)
    ensures var r := Tick(st, s);
      r.event == Start || st.points <= r.next.points
  {
  }

  /**
   * On a tracing tick that neither cancels nor completes, the stillness
   * counter goes up by one when the movement is below the threshold and to
   * zero otherwise (NaN movement included); the position and time are kept.
   */
  lemma StillnessCounts(st: State, p: Position, now: real)
    requires st.traceStarted
    requires Tick(st, Sample(Some(p), now)).event == NoEvent
    ensures var r := Tick(st, Sample(Some(p), now));
      r.next.stillnessTimer ==
        (if StillWithin(MovementFrom(st.lastBlobPosition, p)) then st.stillnessTimer + 1 else 0) &&
      r.next.traceStarted && r.next.lastBlobPosition == Some(p) && r.next.lastBlobTime == Some(now)
  {
  }

  /**
   * The stillness limit compares strictly with 20: from a reachable tracing
   * state a still tick ends the gesture exactly when 20 still ticks came
   * before it, i.e. on the 21st.
   */
  lemma EndsOnTwentyFirstStillTick(st: State, p: Position, now: real)
    requires Inv(st) && st.traceStarted
    requires StillWithin(MovementFrom(st.lastBlobPosition, p))
    ensures var r := Tick(st, Sample(Some(p), now));
      (r.event != NoEvent) <==> st.stillnessTimer == 20
  {
  }

  /**
   * Cancel: exactly when a tracing tick leaves fewer than MIN_TRACE_POINTS
   * points with the counter above the limit. It resets the gesture, shows
   * "Canceled." and never touches the in-flight flag.
   */
  lemma CancelIff(st: State, s: Sample)
    ensures var r := Tick(st, s);
      r.event == Cancel <==>
        s.pos.Some? && st.traceStarted &&
        |r.next.points| < MIN_TRACE_POINTS &&
        (if StillWithin(MovementFrom(st.lastBlobPosition, s.pos.value)) then st.stillnessTimer + 1 else 0) as real > STILLNESS_LIMIT
    ensures var r := Tick(st, s);
      r.event == Cancel ==>
        !r.next.traceStarted && r.next.traceStartTime.None? && r.next.lastBlobPosition.None? &&
        r.next.stillnessTimer == 0 && r.next.status == Canceled && r.next.predicting == st.predicting
  {
  }

  /**
   * Threshold boundary of the cancel test on its own: on the tick that takes
   * a still trace's counter past the limit, nine points cancel and ten
   * complete. The states this lemma starts from break Inv (a counter of 20
   * needs at least 20 points), so the program never reaches them; the lemma
   * pins down the `< 10` comparison, and TickNeverCancels shows it never fires.
   */
  lemma CancelBoundary(st: State, p: Position, now: real)
    requires st.traceStarted && st.stillnessTimer == 20
    requires StillWithin(MovementFrom(st.lastBlobPosition, p)) && PointOf(p).Some?
    requires |st.points| == 8 || |st.points| == 9
    ensures var r := Tick(st, Sample(Some(p), now));
      if |st.points| == 8 then r.event == Cancel else r.event.Complete?
  {
  }

  /**
   * Complete by stillness: the counter passes the limit with at least
   * MIN_TRACE_POINTS points. A worker gets the frame of the whole trace if
   * none was in flight; the gesture is reset and the status is Ready.
   */
  lemma CompleteIff(st: State, s: Sample)
    ensures var r := Tick(st, s);
      r.event.Complete? <==>
        s.pos.Some? && st.traceStarted &&
        |r.next.points| >= MIN_TRACE_POINTS &&
        (if StillWithin(MovementFrom(st.lastBlobPosition, s.pos.value)) then st.stillnessTimer + 1 else 0) as real > STILLNESS_LIMIT
    ensures var r := Tick(st, s);
      r.event.Complete? ==>
        r.event.job == (if st.predicting then None else Some(Drawn(r.next.points))) &&
        r.next.predicting && !r.next.traceStarted && r.next.traceStartTime.None? &&
        r.next.lastBlobPosition.None? && r.next.stillnessTimer == 0 && r.next.status == Ready
  {
  }

  /**
   * The wand left the frame: no blob, tracing, and more than 1.0 s since the
   * last blob (a last time of 0.0 counts as none). With a frame kept this
   * completes; with none kept yet the mask computation raises and the loop
   * stops, the globals as they were. Any other blobless tick only clears the
   * presence timer.
   */
  lemma WandLeftIff(st: State, now: real)
    ensures var r := Tick(st, Sample(None, now));
      var left := st.traceStarted && Truthy(st.lastBlobTime) &&
        now - st.lastBlobTime.value > STILLNESS_DURATION_THRESHOLD;
      (r.event.CompleteWandLeft? <==> left && st.lastFrame != NoFrame) &&
      (r.event == Crash <==> left && st.lastFrame == NoFrame) &&
      (!left ==> r.event == NoEvent && r.next == st.(traceStartTime := None))
    ensures var r := Tick(st, Sample(None, now));
      r.event.CompleteWandLeft? ==>
        r.event.job == (if st.predicting then None else Some(st.lastFrame)) &&
        r.next == EndGesture(st).(predicting := true, status := Ready)
    ensures var r := Tick(st, Sample(None, now));
      r.event == Crash ==> r.next == st
  {
  }

  /**
   * From a reachable state, a worker handed a frame gets the drawing of the
   * points traced, except when the wand leaves before any point was traced:
   * then it gets the frame kept from an earlier gesture. It is never handed
   * a missing frame.
   */
  lemma JobIsTrace(st: State, s: Sample)
    requires Inv(st)
    ensures var r := Tick(st, s);
      (r.event.Complete? || r.event.CompleteWandLeft?) && r.event.job.Some? ==>
        r.event.job.value == (if r.next.points == [] then st.lastFrame else Drawn(r.next.points)) &&
        r.event.job.value.Drawn?
  {
  }
}
