/**
 * The tracking loop's globals as an object whose methods update them the way
 * the program does: `Step` is one pass of the main loop, `Submit` the
 * guarded worker launch, and `FinishPrediction` the end of the worker thread.
 * Each is proved against the functions of Segmentation, SpellFeedback and
 * Dispatcher; `jobs` is the ghost record of the workers launched.
 */
module Tracker {
  import opened WandState
  import opened SpellFeedback
  import opened Segmentation
  import opened Dispatcher

  class WandTracker {
    var traceStarted: bool
    var traceStartTime: Option<real>
    var lastBlobTime: Option<real>
    var lastBlobPosition: Option<Position>
    var stillnessTimer: nat
    var points: seq<Point>
    var lastValidFrame: Frame
    var status: Status
    var predicting: bool
    var lastMove: int
    /** The main loop has left through its `finally`. */
    var exited: bool
    /** The frames of the classification workers launched and not yet finished. */
    ghost var jobs: seq<Frame>

    /** The globals as a State value. */
    ghost function Wand(): State
      reads this
    {
      State(traceStarted, traceStartTime, lastBlobTime, lastBlobPosition, stillnessTimer,
            points, lastValidFrame, status, predicting, lastMove)
    }

    ghost function Model(): System
      reads this
    {
      System(Wand(), jobs, exited)
    }

    ghost predicate Valid()
      reads this
    {
      SysInv(Model())
    }

    constructor ()
      ensures Valid() && Model() == INIT_SYSTEM
    {
      lastMove := 0;
      points := [];
      traceStarted := false;
      traceStartTime := None;
      lastBlobTime := None;
      lastBlobPosition := None;
      stillnessTimer := 0;
      status := Ready;
      lastValidFrame := NoFrame;
      predicting := false;
      exited := false;
      jobs := [];
    }

    /** Launch a worker on the kept frame unless one is in flight (HarryPotterWandcv.py:253-256). */
    method Submit() returns (job: Option<Frame>)
      modifies this`predicting, this`jobs
      ensures predicting
      ensures job == (if old(predicting) then None else Some(lastValidFrame))
      ensures jobs == old(jobs) + (if old(predicting) then [] else [lastValidFrame])
    {
      if !predicting {
        predicting := true;
        job := Some(lastValidFrame);
        jobs := jobs + [lastValidFrame];
      } else {
        job := None;
      }
    }

    /** The resets after cancel and completion. */
    method EndGesture()
      modifies this`traceStarted, this`traceStartTime, this`lastBlobPosition, this`stillnessTimer
      ensures !traceStarted && traceStartTime.None? && lastBlobPosition.None? && stillnessTimer == 0
    {
      traceStarted := false;
      traceStartTime := None;
      lastBlobPosition := None;
      stillnessTimer := 0;
    }

    /** One pass of the main loop on one sample (HarryPotterWandcv.py:205-283). */
    method Step(s: Sample) returns (ev: Event)
      requires Valid() && !exited
      modifies this
      ensures Valid()
      ensures var r := SysStep(old(Model()), Sense(s)); Model() == r.sys && Sensed(ev) == r.out
    {
      SysStepPreservesInv(Model(), Sense(s));
      match s.pos {
        case Some(p) =>
          if !traceStarted {
            ev := StepIdle(p, s.now);
          } else {
            ev := StepTracing(p, s.now);
          }
        case None =>
          ev := StepAbsent(s.now);
      }
      if ev == Crash {
        exited := true;
      }
    }

    /** A blob seen while not tracing (HarryPotterWandcv.py:205-220, 265-266). */
    method StepIdle(p: Position, now: real) returns (ev: Event)
      requires !traceStarted
      modifies this
      ensures var r := IdleTick(old(Wand()), p, now); Wand() == r.next && ev == r.event
      ensures jobs == old(jobs)
      ensures exited == old(exited)
    {
      var movement := MovementFrom(lastBlobPosition, p);
      if traceStartTime.None? {
        traceStartTime := Some(now);
        ev := NoEvent;
      } else if now - traceStartTime.value > PRESENCE_DURATION_THRESHOLD && MovedBeyond(movement) {
        traceStarted := true;
        points := [];
        status := Tracing;
        ev := Start;
      } else {
        ev := NoEvent;
      }
      lastBlobPosition := Some(p);
      lastBlobTime := Some(now);
    }

    /** A blob seen while tracing (HarryPotterWandcv.py:221-266). */
    method StepTracing(p: Position, now: real) returns (ev: Event)
      requires traceStarted
      modifies this
      ensures var r := TracingTick(old(Wand()), p, now); Wand() == r.next && ev == r.event
      ensures jobs == old(jobs) + Launched(ev)
      ensures exited == old(exited)
    {
      DrawPoint(p);
      if |points| < MIN_TRACE_POINTS && stillnessTimer as real > STILLNESS_LIMIT {
        EndGesture();
        status := Canceled;
        ev := Cancel;
      } else if stillnessTimer as real > STILLNESS_LIMIT {
        var job := Submit();
        EndGesture();
        status := Ready;
        ev := Complete(job);
      } else {
        lastBlobPosition := Some(p);
        lastBlobTime := Some(now);
        ev := NoEvent;
      }
    }

    /** Append the point, keep the drawn frame, count stillness (HarryPotterWandcv.py:222-235). */
    method DrawPoint(p: Position)
      modifies this`points, this`lastValidFrame, this`stillnessTimer
      ensures Wand() == Draw(old(Wand()), p)
    {
      var movement := MovementFrom(lastBlobPosition, p);
      if p.x.Finite? && p.y.Finite? {
        points := points + [Point(Trunc(p.x.v), Trunc(p.y.v))];
      }
      lastValidFrame := Drawn(points);
      if StillWithin(movement) {
        stillnessTimer := stillnessTimer + 1;
      } else {
        stillnessTimer := 0;
      }
    }

    /** A tick without a blob (HarryPotterWandcv.py:267-283). */
    method StepAbsent(now: real) returns (ev: Event)
      modifies this
      ensures var r := AbsentTick(old(Wand()), now); Wand() == r.next && ev == r.event
      ensures jobs == old(jobs) + Launched(ev)
      ensures exited == old(exited)
    {
      if traceStarted && Truthy(lastBlobTime) && now - lastBlobTime.value > STILLNESS_DURATION_THRESHOLD {
        if lastValidFrame == NoFrame {
          ev := Crash;
          return;
        }
        var job := Submit();
        EndGesture();
        status := Ready;
        ev := CompleteWandLeft(job);
      } else {
        traceStartTime := None;
        ev := NoEvent;
      }
    }

    /**
     * The running worker ends (HarryPotterWandcv.py:171-187): its label goes
     * through the spell gating, and `predicting` is cleared in any case.
     */
    method FinishPrediction(outcome: Outcome) returns (action: Action)
      requires Valid() && jobs != []
      modifies this
      ensures Valid()
      ensures var r := SysStep(old(Model()), Finish(outcome)); Model() == r.sys && Finished(action) == r.out
    {
      SysStepPreservesInv(Model(), Finish(outcome));
      action := NoAction;
      if outcome.Predicted? {
        var f := Feedback(outcome.prediction, lastMove);
        action, lastMove := f.action, f.lastMove;
      }
      predicting := false;
      jobs := jobs[1..];
    }

    /**
     * One input: a pass of the loop, or the end of the running worker when
     * there is one.
     */
    method Apply(input: Input) returns (out: Output)
      requires Valid()
      modifies this
      ensures Valid()
      ensures var r := SysStep(old(Model()), input); Model() == r.sys && out == r.out
    {
      match input {
        case Sense(s) =>
          if exited {
            out := Stopped;
          } else {
            var ev := Step(s);
            out := Sensed(ev);
          }
        case Finish(o) =>
          if predicting {
            var a := FinishPrediction(o);
            out := Finished(a);
          } else {
            out := NoWorker;
          }
      }
    }

    /**
     * The main loop over a finite stream of inputs: each sample is one pass,
     * and a worker's end, when one is running, is taken between passes.
     */
    method Track(inputs: seq<Input>) returns (outs: seq<Output>)
      requires Valid()
      modifies this
      ensures Valid()
      ensures var r := Run(old(Model()), inputs); Model() == r.sys && outs == r.outs
    {
      ghost var total := Run(Model(), inputs);
      outs := [];
      var i := 0;
      assert inputs[0..] == inputs && total.outs[0..] == total.outs;
      while i < |inputs|
        invariant 0 <= i <= |inputs| == |total.outs|
        invariant Valid()
        invariant outs == total.outs[..i]
        invariant Run(Model(), inputs[i..]) == RunResult(total.sys, total.outs[i..])
      {
        RunAdvance(Model(), inputs, i, total);
        var out := Apply(inputs[i]);
        assert total.outs[..i + 1] == total.outs[..i] + [total.outs[i]];
        outs := outs + [out];
        i := i + 1;
      }
      assert inputs[i..] == [] && total.outs[..i] == total.outs;
    }
  }
}
