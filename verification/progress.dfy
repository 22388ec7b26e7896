/** The progress display of the deletion saga (`SessionKeyTrashProgress`):
    a step index, a label, a percentage and a reset button, each a pure
    function of the manager's `deletionState`. */
module TrashProgress {
  import opened Outcomes
  import opened Sorting
  import opened Provider
  import opened SessionKeyStore
  import opened SessionKeyManager

  /** The step labels, in the order the bar fills. */
  const Steps: seq<string> := ["Withdrawing funds", "Removing key", "Clearing data", "Session Closed Successfully"]

  /** `getCurrentStepIndex()`: -1 when no step is under way. */
  function StepIndex(d: DeletionState): (r: int)
    ensures -1 <= r < |Steps| && r != 2
    ensures r == -1 <==> d == Idle || d == Error
  {
    match d
    case Idle => -1
    case Active => 0
    case Withdrawing => 0
    case Deleting => 1
    case Completed => 3
    case Error => -1
  }

  /** `getCurrentStep()`: the label of the current step, if there is one. */
  function CurrentStep(d: DeletionState): (r: Option<string>)
    ensures r.None? <==> d == Idle || d == Error
    ensures r.Some? ==> r.value in Steps && r.value != "Clearing data"
  {
    var i := StepIndex(d);
    if i == -1 then None else Some(Steps[i])
  }

  /** `getProgressPercentage()`: `(index + 1) / steps.length * 100`, or 0
      when no step is under way. Every value it takes is a whole number, so
      integer arithmetic gives the same result as the code's. */
  function ProgressPercentage(d: DeletionState): (r: int)
    ensures r == 0 || r == 25 || r == 50 || r == 100
    ensures r == 0 <==> d == Idle || d == Error
    ensures r == 100 <==> d == Completed
  {
    var i := StepIndex(d);
    if i == -1 then 0 else (i + 1) * 100 / |Steps|
  }

  /** `showResetButton`: once the saga has ended, either way. */
  predicate ShowResetButton(d: DeletionState)
    ensures ShowResetButton(d) <==> ProgressPercentage(d) == 100 || (ProgressPercentage(d) == 0 && d != Idle)
  {
    d == Completed || d == Error
  }

  /** The button's action brings the display back to its starting point:
      no step, no progress, no button. */
  lemma ResetReturnsToIdle(m: Manager)
    requires ShowResetButton(m.deletionState)
    ensures var d := ResetDeletionState(m).deletionState;
      d == Idle && CurrentStep(d).None? && ProgressPercentage(d) == 0 && !ShowResetButton(d)
  {
  }

  /** The percentages the saga shows, snapshot by snapshot. */
  function Shown(published: seq<Manager>): (r: seq<int>)
    ensures |r| == |published|
    ensures forall i :: 0 <= i < |r| ==> r[i] == ProgressPercentage(published[i].deletionState)
  {
    seq(|published|, i requires 0 <= i < |published| => ProgressPercentage(published[i].deletionState))
  }

  /** The percentages of the three ways the saga can run: the bar never
      moves back along the completed run, and is emptied when the saga
      fails. */
  lemma SagaRunProgress(published: seq<Manager>)
    requires DeletionStates(published) in {[Active, Withdrawing, Error], [Active, Withdrawing, Deleting, Error],
                                           [Active, Withdrawing, Deleting, Completed]}
    ensures var p := Shown(published);
      var last := published[|published| - 1].deletionState;
      && ShowResetButton(last)
      && (last == Completed ==> p == [25, 25, 50, 100] && forall i, j :: 0 <= i <= j < |p| ==> p[i] <= p[j])
      && (last == Error ==> p[|p| - 1] == 0)
  {
    var states := DeletionStates(published);
    assert |states| == |published|;
    assert forall i :: 0 <= i < |states| ==> states[i] == published[i].deletionState;
  }

  /** Along a saga that completes, the bar never moves back, and it ends
      full; a saga that fails ends with the bar emptied. Either way it ends
      with the reset button shown. */
  lemma SagaProgressMonotone(s: Session, m: Manager, env: Env, later: Env, address: string)
    requires address != ""
    ensures var r := ConfirmDeleteSession(s, m, env, later, true, address, true);
      var p := Shown(r.published);
      && ShowResetButton(r.manager.deletionState)
      && (r.manager.deletionState == Completed ==>
            p == [25, 25, 50, 100] && forall i, j :: 0 <= i <= j < |p| ==> p[i] <= p[j])
      && (r.manager.deletionState == Error ==> p[|p| - 1] == 0)
  {
    var r := ConfirmDeleteSession(s, m, env, later, true, address, true);
    SagaRunProgress(r.published);
  }
}
