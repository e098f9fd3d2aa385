/**
 * The tracking loop together with its classification workers, run one input
 * at a time: a tick of the loop or the end of the running worker. `jobs`
 * holds the frames of the workers launched and not yet finished; the lock
 * around `predicting` is what keeps it at most one long. `halted` records
 * that the loop has left through its `finally` after a Crash: it takes no
 * more samples, while a worker already running still ends.
 */
module Dispatcher {
  import opened WandState
  import opened SpellFeedback
  import opened Segmentation

  datatype System = System(wand: State, jobs: seq<Frame>, halted: bool)

  /** What happens next: the loop takes a sample, or the oldest worker ends. */
  datatype Input = Sense(sample: Sample) | Finish(outcome: Outcome)

  /**
   * What an input produced; `NoWorker` when a worker's end was offered but
   * none runs, `Stopped` when a sample comes after the loop has exited.
   */
  datatype Output = Sensed(event: Event) | Finished(action: Action) | NoWorker | Stopped

  datatype StepResult = StepResult(sys: System, out: Output)
  datatype RunResult = RunResult(sys: System, outs: seq<Output>)

  const INIT_SYSTEM: System := System(INIT, [], false)

  /** The frame a tick hands to a new worker, as a list of zero or one. */
  function Launched(ev: Event): (r: seq<Frame>)
    ensures |r| <= 1
    ensures |r| == 1 <==> (ev.Complete? || ev.CompleteWandLeft?) && ev.job.Some?
  {
    match ev
    case Complete(Some(f)) => [f]
    case CompleteWandLeft(Some(f)) => [f]
    case _ => []
  }

  function SysStep(sys: System, input: Input): (r: StepResult)
    ensures input.Finish? && sys.jobs != [] ==> !r.sys.wand.predicting && r.sys.jobs == sys.jobs[1..]
    ensures input.Sense? ==> sys.jobs <= r.sys.jobs
    ensures input.Sense? && sys.halted ==> r == StepResult(sys, Stopped)
    ensures r.sys.halted <==> sys.halted || r.out == Sensed(Crash)
  {
    match input
    case Sense(s) =>
      if sys.halted then StepResult(sys, Stopped)
      else
        var t := Tick(sys.wand, s);
        StepResult(System(t.next, sys.jobs + Launched(t.event), t.event == Crash), Sensed(t.event))
    case Finish(o) =>
      if sys.jobs == [] then StepResult(sys, NoWorker)
      else
        var w := Worker(sys.wand, o);
        StepResult(sys.(wand := w.next, jobs := sys.jobs[1..]), Finished(w.action))
  }

  function Run(sys: System, inputs: seq<Input>): (r: RunResult)
    ensures |r.outs| == |inputs|
    decreases |inputs|
  {
    if inputs == [] then RunResult(sys, [])
    else
      var first := SysStep(sys, inputs[0]);
      var rest := Run(first.sys, inputs[1..]);
      RunResult(rest.sys, [first.out] + rest.outs)
  }

  /** One unfolding of Run. */
  lemma RunCons(sys: System, inputs: seq<Input>)
    requires inputs != []
    ensures var first := SysStep(sys, inputs[0]); var rest := Run(first.sys, inputs[1..]);
      Run(sys, inputs) == RunResult(rest.sys, [first.out] + rest.outs)
  {
  }

  /**
   * Taking one more input off the front of the remaining stream: if the rest
   * of the run from `sys` is the tail of `total`, the step gives the next
   * output of `total` and leaves the tail after it.
   */
  lemma RunAdvance(sys: System, inputs: seq<Input>, i: nat, total: RunResult)
    requires i < |inputs| == |total.outs|
    requires Run(sys, inputs[i..]) == RunResult(total.sys, total.outs[i..])
    ensures var first := SysStep(sys, inputs[i]);
      first.out == total.outs[i] &&
      Run(first.sys, inputs[i + 1..]) == RunResult(total.sys, total.outs[i + 1..])
  {
    RunCons(sys, inputs[i..]);
    assert inputs[i..][0] == inputs[i] && inputs[i..][1..] == inputs[i + 1..];
    assert total.outs[i..] == [total.outs[i]] + total.outs[i + 1..];
  }

  /** At most one worker, and `predicting` says whether there is one. */
  ghost predicate SysInv(sys: System) {
    Inv(sys.wand) && |sys.jobs| <= 1 && (sys.wand.predicting <==> |sys.jobs| == 1)
  }

  lemma InitSysInv()
    ensures SysInv(INIT_SYSTEM)
  {
  }

  lemma SysStepPreservesInv(sys: System, input: Input)
    requires SysInv(sys)
    ensures SysInv(SysStep(sys, input).sys)
  {
    match input
    case Sense(s) => TickPreservesInv(sys.wand, s);
    case Finish(o) =>
  }

  lemma {:induction false} RunPreservesInv(sys: System, inputs: seq<Input>)
    requires SysInv(sys)
    ensures SysInv(Run(sys, inputs).sys)
    decreases |inputs|
  {
    if inputs != [] {
      SysStepPreservesInv(sys, inputs[0]);
      RunPreservesInv(SysStep(sys, inputs[0]).sys, inputs[1..]);
    }
  }

  /**
   * At every point of every run from INIT_SYSTEM at most one classification
   * is in flight, and the flag is set exactly while one is.
   */
  lemma AtMostOneInference(inputs: seq<Input>)
    ensures var r := Run(INIT_SYSTEM, inputs);
      |r.sys.jobs| <= 1 && (r.sys.wand.predicting <==> |r.sys.jobs| == 1)
  {
    InitSysInv();
    RunPreservesInv(INIT_SYSTEM, inputs);
  }

  /**
   * While a worker runs and only the loop moves, every gesture completed is
   * dropped: no new worker, the running one unchanged, the flag still set.
   */
  lemma {:induction false} BusyDropsSubmissions(sys: System, inputs: seq<Input>)
    requires SysInv(sys) && |sys.jobs| == 1
    requires forall i :: 0 <= i < |inputs| ==> inputs[i].Sense?
    ensures var r := Run(sys, inputs);
      r.sys.jobs == sys.jobs && r.sys.wand.predicting &&
      forall i :: 0 <= i < |r.outs| ==>
        r.outs[i] == Stopped || (r.outs[i].Sensed? && Launched(r.outs[i].event) == [])
    decreases |inputs|
  {
    if inputs != [] {
      var first := SysStep(sys, inputs[0]);
      SysStepPreservesInv(sys, inputs[0]);
      BusyDropsSubmissions(first.sys, inputs[1..]);
      var rest := Run(first.sys, inputs[1..]);
      assert forall i :: 0 < i < |inputs| ==> ([first.out] + rest.outs)[i] == rest.outs[i - 1];
    }
  }

  /**
   * The cancel branch of the loop is never taken from a state that satisfies
   * SysInv, which includes INIT_SYSTEM and every state a run reaches from it.
   */
  lemma {:induction false} NeverCancels(sys: System, inputs: seq<Input>)
    requires SysInv(sys)
    ensures Sensed(Cancel) !in Run(sys, inputs).outs
    decreases |inputs|
  {
    if inputs != [] {
      var first := SysStep(sys, inputs[0]);
      if inputs[0].Sense? {
        TickNeverCancels(sys.wand, inputs[0].sample);
      }
      SysStepPreservesInv(sys, inputs[0]);
      NeverCancels(first.sys, inputs[1..]);
    }
  }

  /**
   * Once the loop has exited, every later sample is ignored and the system
   * stays halted; only a running worker's end still changes anything.
   */
  lemma {:induction false} HaltedIgnoresSamples(sys: System, inputs: seq<Input>)
    requires sys.halted
    ensures var r := Run(sys, inputs);
      r.sys.halted &&
      (forall i :: 0 <= i < |inputs| && inputs[i].Sense? ==> r.outs[i] == Stopped) &&
      ((forall i :: 0 <= i < |inputs| ==> inputs[i].Sense?) ==> r.sys == sys)
    decreases |inputs|
  {
    if inputs != [] {
      var first := SysStep(sys, inputs[0]);
      HaltedIgnoresSamples(first.sys, inputs[1..]);
      var rest := Run(first.sys, inputs[1..]);
      assert forall i :: 0 < i < |inputs| ==> ([first.out] + rest.outs)[i] == rest.outs[i - 1];
      assert forall i :: 0 < i < |inputs| ==> inputs[1..][i - 1] == inputs[i];
    }
  }

  /**
   * The first gesture starts and the wand leaves before any point is traced:
   * no frame has been kept, so the mask cannot be computed, the loop exits
   * with no worker launched, and a later sample is not looked at.
   */
  lemma FirstGestureLeftEarlyHalts()
    ensures var r := Run(INIT_SYSTEM, [
        Sense(Sample(Some(Position(Finite(0.0), Finite(0.0))), 0.0)),
        Sense(Sample(Some(Position(Finite(10.0), Finite(0.0))), 1.0)),
        Sense(Sample(None, 2.5)),
        Sense(Sample(Some(Position(Finite(10.0), Finite(0.0))), 3.0))]);
      r.outs == [Sensed(NoEvent), Sensed(Start), Sensed(Crash), Stopped] &&
      r.sys.halted && r.sys.jobs == [] && r.sys.wand.traceStarted
  {
  }

  /** Running two input streams one after the other is running their concatenation. */
  lemma {:induction false} RunAppend(sys: System, a: seq<Input>, b: seq<Input>)
    ensures var first := Run(sys, a); var second := Run(first.sys, b);
      Run(sys, a + b) == RunResult(second.sys, first.outs + second.outs)
    decreases |a|
  {
    if a != [] {
      assert (a + b)[0] == a[0] && (a + b)[1..] == a[1..] + b;
      var step := SysStep(sys, a[0]);
      RunAppend(step.sys, a[1..], b);
      var tail := Run(step.sys, a[1..]);
      var second := Run(tail.sys, b);
      assert [step.out] + (tail.outs + second.outs) == ([step.out] + tail.outs) + second.outs;
    } else {
      assert a + b == b;
    }
  }

  /** The wand held at `p` for one tick per clock reading in `times`. */
  function HoldStill(p: Position, times: seq<real>): (r: seq<Input>)
    ensures |r| == |times|
    ensures forall i :: 0 <= i < |times| ==> r[i] == Sense(Sample(Some(p), times[i]))
  {
    seq(|times|, i requires 0 <= i < |times| => Sense(Sample(Some(p), times[i])))
  }

  /**
   * While the counter stays within the limit, each tick of a wand held still
   * at a numeric position adds one to the stillness counter and one point,
   * and nothing happens.
   */
  lemma {:induction false} HoldStillCounts(sys: System, p: Position, times: seq<real>)
    requires SysInv(sys) && !sys.halted && sys.wand.traceStarted && sys.wand.lastBlobPosition == Some(p)
    requires p.x.Finite? && p.y.Finite?
    requires sys.wand.stillnessTimer + |times| <= 20
    ensures var r := Run(sys, HoldStill(p, times));
      SysInv(r.sys) && !r.sys.halted && r.sys.wand.traceStarted && r.sys.wand.lastBlobPosition == Some(p) &&
      r.sys.wand.stillnessTimer == sys.wand.stillnessTimer + |times| &&
      |r.sys.wand.points| == |sys.wand.points| + |times| && r.sys.jobs == sys.jobs &&
      forall i :: 0 <= i < |r.outs| ==> r.outs[i] == Sensed(NoEvent)
    decreases |times|
  {
    if times != [] {
      var inputs := HoldStill(p, times);
      assert inputs[1..] == HoldStill(p, times[1..]);
      var first := SysStep(sys, inputs[0]);
      MovementToSelf(p);
      SysStepPreservesInv(sys, inputs[0]);
      HoldStillCounts(first.sys, p, times[1..]);
      var rest := Run(first.sys, inputs[1..]);
      assert forall i :: 0 < i < |inputs| ==> ([first.out] + rest.outs)[i] == rest.outs[i - 1];
    }
  }

  /**
   * A wand held still from the start of its stillness count completes the
   * gesture on the 21st tick, never cancels, and dispatches a classification
   * exactly when none was in flight.
   */
  lemma HeldStillCompletesOnTwentyFirstTick(sys: System, p: Position, times: seq<real>)
    requires SysInv(sys) && !sys.halted && sys.wand.traceStarted && sys.wand.lastBlobPosition == Some(p)
    requires p.x.Finite? && p.y.Finite?
    requires sys.wand.stillnessTimer == 0 && |times| == 21
    ensures var r := Run(sys, HoldStill(p, times));
      (forall i :: 0 <= i < 20 ==> r.outs[i] == Sensed(NoEvent)) &&
      r.outs[20].Sensed? && r.outs[20].event.Complete? &&
      (r.outs[20].event.job.Some? <==> !sys.wand.predicting) &&
      !r.sys.wand.traceStarted && r.sys.wand.predicting
  {
    var inputs := HoldStill(p, times);
    assert inputs == HoldStill(p, times[..20]) + HoldStill(p, times[20..]);
    RunAppend(sys, HoldStill(p, times[..20]), HoldStill(p, times[20..]));
    HoldStillCounts(sys, p, times[..20]);
    var mid := Run(sys, HoldStill(p, times[..20])).sys;
    var last := Sense(Sample(Some(p), times[20]));
    assert HoldStill(p, times[20..]) == [last];
    StillTickCompletes(mid, p, times[20]);
    RunCons(mid, [last]);
  }

  /** The still tick that takes the counter from 20 past the limit completes the gesture. */
  lemma StillTickCompletes(sys: System, p: Position, now: real)
    requires SysInv(sys) && !sys.halted && sys.wand.traceStarted && sys.wand.lastBlobPosition == Some(p)
    requires p.x.Finite? && p.y.Finite?
    requires sys.wand.stillnessTimer == 20
    ensures var r := SysStep(sys, Sense(Sample(Some(p), now)));
      r.out.Sensed? && r.out.event.Complete? &&
      (r.out.event.job.Some? <==> !sys.wand.predicting) &&
      !r.sys.wand.traceStarted && r.sys.wand.predicting
  {
    MovementToSelf(p);
  }
}
