/** The states a tracker goes through. */
module CycleStates {

  datatype CycleState =
    | NotStarted
    | Executing
    | ExecutingChildren
    | NeedsAnotherRun
    | CompletedSuccessfully
    | Failed
  {
    predicate IsComplete() { CompletedSuccessfully? || Failed? }

    predicate IsOpen() { !NotStarted? && !IsComplete() }
  }
}
