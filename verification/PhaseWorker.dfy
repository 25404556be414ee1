module PhaseWorker {
  /** What a returned worker may do next in its phase, given the reconciliation decision. */

  import opened Wrappers
  import opened PhaseStatuses
  import opened PhasePolicy

  datatype Input = Input(
    phaseNumber: int,
    phaseStatus: PhaseStatus,
    decision: Decision,
    hasDurableProgress: bool,
    blocker: Option<string>,
    recoveryAttempt: int,
    safetyCap: int)

  datatype Continuation = Continue(nextTaskId: string) | PhaseCompleted | FailClosed

  /** A boundary is crossed when the phase is done and the reconciler has moved past it. */
  predicate MovedOn(decision: Decision, phaseNumber: int) {
    decision.AllTerminal? || (decision.Select? && decision.phase != phaseNumber)
  }

  function Evaluate(i: Input): Continuation {
    if i.phaseStatus.Completed? && MovedOn(i.decision, i.phaseNumber) then PhaseCompleted
    else if i.recoveryAttempt >= i.safetyCap then FailClosed
    else if i.blocker.Some? && i.blocker.value != "" then FailClosed
    else if !i.phaseStatus.InProgress? then FailClosed
    else if !i.hasDurableProgress then FailClosed
    else if !i.decision.Select? || i.decision.phase != i.phaseNumber then FailClosed
    else Continue(i.decision.taskId)
  }

  /** Which answer is given when: completion first, then everything that stops, then the next task. */
  lemma {:induction false} AnswerIff(i: Input)
    ensures var selectsHere := i.decision.Select? && i.decision.phase == i.phaseNumber;
      var passed := i.phaseStatus.Completed?
        && (i.decision.AllTerminal? || (i.decision.Select? && i.decision.phase != i.phaseNumber));
      var clear := i.recoveryAttempt < i.safetyCap && (i.blocker == None || i.blocker == Some(""));
      && (Evaluate(i) == PhaseCompleted <==> passed)
      && (Evaluate(i).Continue? <==> clear && i.phaseStatus.InProgress? && i.hasDurableProgress && selectsHere)
      && (Evaluate(i).Continue? ==> Evaluate(i).nextTaskId == i.decision.taskId)
      && (Evaluate(i) == FailClosed <==>
            !passed && !(clear && i.phaseStatus.InProgress? && i.hasDurableProgress && selectsHere))
  {
  }

  /** The input speaks of the same durable phase the reconciler saw. */
  ghost predicate Consistent(i: Input, phases: seq<Phase>, k: nat) {
    && k < |phases|
    && i.phaseNumber == phases[k].number
    && i.phaseStatus == phases[k].documentStatus
    && i.decision == Reconcile(phases)
  }

  /**
   * A "continue" never dispatches a checked task again: the task is the first unchecked one of the
   * very phase the worker returned from, and that phase is the earliest unfinished one.
   */
  lemma {:induction false} ContinueIsFresh(i: Input, phases: seq<Phase>, k: nat) returns (t: Task)
    requires Consistent(i, phases, k) && Evaluate(i).Continue?
    ensures Earliest(phases, phases[k])
    ensures phases[k].tasks.Some? && t.id == Evaluate(i).nextTaskId
    ensures SelectsFirstUnchecked(phases[k].tasks.value, t)
  {
    var p := CurrentPhase(phases);
    t := SelectInPhase(p);
    var j :| 0 <= j < |phases| && phases[j] == p;
    if j != k {
      assert Number(phases[j]) != Number(phases[k]) by {
        assert j < k || k < j;
      }
    }
  }
}
