/**
 * The spell gating of the classification worker (`threaded_predict`): a
 * predicted label turns into a feedback action only when it asks for the
 * opposite of the remembered `lastMove`, and the in-flight flag is cleared
 * however the worker ends.
 *
 * `lastMove` is an int in the program. Although its declaration comment reads
 * "0=open", the gating treats 0 as "closed, may open": label "0" opens only
 * when `lastMove` is 0 and then sets it to 1.
 */
module SpellFeedback {
  import opened WandState

  datatype FeedbackResult = FeedbackResult(action: Action, lastMove: int)

  /** The prediction/state decision of HarryPotterWandcv.py:175-184. */
  function Feedback(prediction: string, lastMove: int): (r: FeedbackResult)
    ensures r.action == NoAction ==> r.lastMove == lastMove
    ensures r.action == Open ==> prediction == "0" && lastMove == 0 && r.lastMove == 1
    ensures r.action == Close ==> prediction == "1" && lastMove == 1 && r.lastMove == 0
  {
    if prediction == "0" && lastMove == 0 then FeedbackResult(Open, 1)
    else if prediction == "1" && lastMove == 1 then FeedbackResult(Close, 0)
    else FeedbackResult(NoAction, lastMove)
  }

  /** An action is taken exactly when the prediction asks for the other state. */
  lemma FeedbackActsIff(prediction: string, lastMove: int)
    ensures Feedback(prediction, lastMove).action != NoAction <==>
      (prediction == "0" && lastMove == 0) || (prediction == "1" && lastMove == 1)
  {
  }

  /** An action toggles `lastMove` between 0 and 1; no action leaves it alone. */
  lemma FeedbackToggles(prediction: string, lastMove: int)
    requires lastMove == 0 || lastMove == 1
    ensures var r := Feedback(prediction, lastMove);
      (r.lastMove == 0 || r.lastMove == 1) &&
      (r.action != NoAction <==> r.lastMove == 1 - lastMove)
  {
  }

  /** Debounce: the same label a second time never fires again. */
  lemma FeedbackDebounce(prediction: string, lastMove: int)
    ensures Feedback(prediction, Feedback(prediction, lastMove).lastMove).action == NoAction
  {
  }

  /**
   * Two open spells from the initial `lastMove` of 0 give exactly one Open,
   * and `lastMove` ends at 1.
   */
  lemma TwoOpenSpells()
    ensures var first := Feedback("0", INIT.lastMove);
      var second := Feedback("0", first.lastMove);
      first.action == Open && second.action == NoAction && second.lastMove == 1
  {
  }

  datatype WorkerResult = WorkerResult(next: State, action: Action)

  /**
   * The end of a classification worker (HarryPotterWandcv.py:171-187): a
   * prediction goes through Feedback; a worker that raised takes no action; in
   * both cases the `finally` clears `predicting`, and nothing else changes.
   */
  function Worker(st: State, outcome: Outcome): (r: WorkerResult)
    ensures !r.next.predicting
    ensures r.next.(predicting := st.predicting, lastMove := st.lastMove) == st
    ensures outcome.Failed? ==> r.action == NoAction && r.next.lastMove == st.lastMove
    ensures outcome.Predicted? ==>
      FeedbackResult(r.action, r.next.lastMove) == Feedback(outcome.prediction, st.lastMove)
  {
    match outcome
    case Failed => WorkerResult(st.(predicting := false), NoAction)
    case Predicted(prediction) =>
      var f := Feedback(prediction, st.lastMove);
      WorkerResult(st.(lastMove := f.lastMove, predicting := false), f.action)
  }
}
