/**
 * The values the wand tracker works on: configuration constants, one camera
 * sample per tick, the module-level state of the tracking loop, and the two
 * numeric helpers the loop uses (truncation of a coordinate to an integer
 * and the frame-to-frame movement of the blob).
 */
module WandState {

  // Configuration (HarryPotterWandcv.py:74-76 and the literals of lines 239, 250).
  const PRESENCE_DURATION_THRESHOLD: real := 0.6
  const STILLNESS_DURATION_THRESHOLD: real := 1.0
  const MOVEMENT_THRESHOLD: real := 6.0
  /** The tick period the stillness arithmetic assumes; the loop itself is not paced by it. */
  const TICK_PERIOD: real := 0.05
  const MIN_TRACE_POINTS: nat := 10
  /** `stillness_duration_threshold / 0.05`: the stillness counter must exceed this. */
  const STILLNESS_LIMIT: real := STILLNESS_DURATION_THRESHOLD / TICK_PERIOD

  datatype Option<+T> = None | Some(value: T)

  /** A coordinate as the blob detector reports it: a finite number or NaN. */
  datatype Float = Finite(v: real) | NaN

  datatype Position = Position(x: Float, y: Float)

  /** One tick's input: the first detected blob, if any, and the clock reading. */
  datatype Sample = Sample(pos: Option<Position>, now: real)

  /** A point of the trace, after truncation to integers. */
  datatype Point = Point(x: int, y: int)

  /** The blob's movement since the last tick, kept squared; NaN when a coordinate is NaN. */
  datatype Movement = Distance2(d2: real) | Undefined

  /**
   * The last annotated camera frame kept while tracing (`last_valid_output_frame`),
   * abstracted to the trace drawn on it: the classifier's mask is exactly the
   * polyline through these points.
   */
  datatype Frame = NoFrame | Drawn(trace: seq<Point>)

  /** The status line shown on screen. */
  datatype Status = Ready | Tracing | Canceled

  /**
   * What one tick does. A completion carries the frame handed to a new
   * classification worker, or None when one was already in flight. `Crash`
   * is the wand-left completion with no frame kept yet: computing the mask of
   * the missing frame raises, and the main loop leaves through its `finally`.
   */
  datatype Event =
    | NoEvent
    | Start
    | Cancel
    | Complete(job: Option<Frame>)
    | CompleteWandLeft(job: Option<Frame>)
    | Crash

  /** The feedback sequence a classification triggers (sound, servo and lights). */
  datatype Action = NoAction | Open | Close

  /** How a classification worker ends: with a predicted label, or by raising before the feedback decision. */
  datatype Outcome = Failed | Predicted(prediction: string)

  /** The module-level globals of the tracking loop. */
  datatype State = State(
    traceStarted: bool,
    traceStartTime: Option<real>,
    lastBlobTime: Option<real>,
    lastBlobPosition: Option<Position>,
    stillnessTimer: nat,
    points: seq<Point>,
    lastFrame: Frame,
    status: Status,
    predicting: bool,
    lastMove: int)

  /** The globals as the program initialises them (HarryPotterWandcv.py:66-80). */
  const INIT: State := State(false, None, None, None, 0, [], NoFrame, Ready, false, 0)

  /** Python's `int(x)` on a finite float: truncation toward zero. */
  function Trunc(r: real): (n: int)
    ensures 0.0 <= r ==> 0 <= n && n as real <= r < n as real + 1.0
    ensures r < 0.0 ==> n <= 0 && n as real - 1.0 < r <= n as real
  {
    if r >= 0.0 then r.Floor else -((-r).Floor)
  }

  /** Python's truth value of `last_blob_time`: None and 0.0 are false. */
  function Truthy(t: Option<real>): (b: bool)
    ensures b ==> t.Some?
    ensures t == Some(0.0) ==> !b
    ensures t.Some? && t.value != 0.0 ==> b
  {
    t.Some? && t.value != 0.0
  }

  /**
   * `blob_movement`: 0 when there is no previous position, otherwise the
   * distance to it, here squared; NaN propagates through the distance.
   */
  function MovementFrom(last: Option<Position>, p: Position): (m: Movement)
    ensures m.Distance2? ==> m.d2 >= 0.0
    ensures last.None? ==> m == Distance2(0.0)
    ensures last.Some? && last.value.x.Finite? && last.value.y.Finite? && p.x.Finite? && p.y.Finite? ==>
      var dx := p.x.v - last.value.x.v; var dy := p.y.v - last.value.y.v;
      m == Distance2(dx * dx + dy * dy)
    ensures m.Undefined? <==>
      last.Some? && (last.value.x.NaN? || last.value.y.NaN? || p.x.NaN? || p.y.NaN?)
  {
    match last
    case None => Distance2(0.0)
    case Some(q) =>
      if q.x.Finite? && q.y.Finite? && p.x.Finite? && p.y.Finite? then
        var dx := p.x.v - q.x.v;
        var dy := p.y.v - q.y.v;
        assert dx * dx >= 0.0 && dy * dy >= 0.0;
        Distance2(dx * dx + dy * dy)
      else
        Undefined
  }

  /** A numeric position has moved 0 from itself. */
  lemma MovementToSelf(p: Position)
    requires p.x.Finite? && p.y.Finite?
    ensures MovementFrom(Some(p), p) == Distance2(0.0)
  {
    var dx := p.x.v - p.x.v;
    var dy := p.y.v - p.y.v;
    assert dx == 0.0 && dy == 0.0;
    assert dx * dx + dy * dy == 0.0;
  }

  /** `blob_movement > movement_threshold`; false for NaN. */
  function MovedBeyond(m: Movement): (b: bool)
    ensures m.Undefined? ==> !b
    ensures b ==> !StillWithin(m)
  {
    m.Distance2? && m.d2 > MOVEMENT_THRESHOLD * MOVEMENT_THRESHOLD
  }

  /** `blob_movement < movement_threshold`; false for NaN. */
  function StillWithin(m: Movement): (b: bool)
    ensures m.Undefined? ==> !b
    ensures m == Distance2(0.0) ==> b
  {
    m.Distance2? && m.d2 < MOVEMENT_THRESHOLD * MOVEMENT_THRESHOLD
  }

  /**
   * Comparing the squared distance against 36 decides the same as comparing
   * `math.hypot` (the non-negative root `h` of the squared distance) against 6.
   */
  lemma HypotCompare(h: real, d2: real)
    requires h >= 0.0 && h * h == d2
    ensures MovedBeyond(Distance2(d2)) <==> h > MOVEMENT_THRESHOLD
    ensures StillWithin(Distance2(d2)) <==> h < MOVEMENT_THRESHOLD
  {
    if h > MOVEMENT_THRESHOLD {
      SquareIncreasing(MOVEMENT_THRESHOLD, h);
    } else if h < MOVEMENT_THRESHOLD {
      SquareIncreasing(h, MOVEMENT_THRESHOLD);
    }
  }

  /** Squaring is strictly increasing on the non-negative reals. */
  lemma SquareIncreasing(a: real, b: real)
    requires 0.0 <= a < b
    ensures a * a < b * b
  {
    assert b * b - a * a == (b - a) * (b + a);
    ProductPositive(b - a, b + a);
  }

  lemma ProductPositive(a: real, b: real)
    requires a > 0.0 && b > 0.0
    ensures a * b > 0.0
  {
  }

  /** The point a position adds to the trace, when both coordinates are numbers. */
  function PointOf(p: Position): (r: Option<Point>)
    ensures r.Some? <==> p.x.Finite? && p.y.Finite?
  {
    if p.x.Finite? && p.y.Finite? then Some(Point(Trunc(p.x.v), Trunc(p.y.v))) else None
  }
}
