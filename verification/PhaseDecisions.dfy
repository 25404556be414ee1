module PhaseDecisions {
  /**
   * Each decision of the phase reconciler, exactly: what the earliest unfinished phase must show to be
   * promoted, worked on, initialized or blocked, with its four gates by name.
   */

  import opened Wrappers
  import opened Sorting
  import opened PhaseStatuses
  import opened PhasePolicy
  import opened PhaseLiveness

  // ---------------------------------------------------------------------------
  // The phase a decision is about
  // ---------------------------------------------------------------------------

  /** No number occurs twice, and no completed phase has an unchecked task. */
  ghost predicate Unobstructed(input: seq<Phase>) {
    && (forall i, j :: 0 <= i < j < |input| ==> input[i].number != input[j].number)
    && (forall p :: p in input && p.documentStatus == Completed && p.tasks.Some? ==> forall t :: t in p.tasks.value ==> t.checked)
  }

  /** Not completed or skipped, while everything with a smaller number is. */
  ghost predicate Current(input: seq<Phase>, p: Phase) {
    && p in input && p.documentStatus != Completed && p.documentStatus != Skipped
    && forall q :: q in input && q.number < p.number ==> q.documentStatus == Completed || q.documentStatus == Skipped
  }

  lemma {:induction false} UnobstructedIff(input: seq<Phase>)
    ensures Unobstructed(input) <==> DistinctBy(input, Number) && forall p :: p in input ==> !HidesWork(p)
  {
    assert DistinctBy(input, Number) <==> forall i, j :: 0 <= i < j < |input| ==> input[i].number != input[j].number by {
      assert forall i :: 0 <= i < |input| ==> Number(input[i]) == input[i].number;
    }
    forall p | p in input && p.tasks.Some?
      ensures (exists i :: 0 <= i < |p.tasks.value| && !p.tasks.value[i].checked) <==> !(forall t :: t in p.tasks.value ==> t.checked)
    {
    }
  }

  /** The decision is about the current phase, of which there is one at most. */
  lemma {:induction false} DecidedAbout(input: seq<Phase>, p: Phase)
    requires Unobstructed(input) && Current(input, p)
    ensures Reconcile(input) == ReconcilePhase(p)
  {
    UnobstructedIff(input);
    NoDuplicatesIff(input);
    NoneHidesIff(input);
    EarliestIsCurrent(input, p);
  }

  // ---------------------------------------------------------------------------
  // The decisions
  // ---------------------------------------------------------------------------

  predicate Readable(p: Phase) {
    p.documentExists && p.documentStatus != NoStatus && p.featureTasksStatus != NoStatus
  }

  predicate HasLedger(p: Phase) {
    p.tasks.Some? && p.tasks.value != []
  }

  ghost predicate EveryTaskChecked(p: Phase) {
    p.tasks.Some? && forall t :: t in p.tasks.value ==> t.checked
  }

  /** The status table agrees with the document, lags behind it, or is ahead of a fully checked ledger. */
  ghost predicate StatusesAgree(p: Phase) {
    || p.documentStatus == p.featureTasksStatus
    || p.featureTasksStatus == Pending || p.featureTasksStatus .InProgress?
    || ((p.featureTasksStatus == Completed || p.featureTasksStatus == Skipped) && EveryTaskChecked(p))
  }

  predicate AwaitsReview(p: Phase) {
    p.documentStatus == AwaitingReview || p.documentStatus == AwaitingRerun
  }

  /** A readable phase with a ledger and gates, whose statuses agree. */
  ghost predicate Workable(p: Phase) {
    Readable(p) && HasLedger(p) && p.gates.Some? && StatusesAgree(p)
  }

  predicate Persisted(t: Task, status: RunStatus) {
    t.persisted == Some(status)
  }

  /**
   * The unchecked task of least index, with nothing of a larger index checked, started or finished and
   * no unchecked task finished.
   */
  ghost predicate NextTask(tasks: seq<Task>, t: Task) {
    && t in tasks && !t.checked
    && (forall u :: u in tasks && !u.checked ==> t.index <= u.index && !Persisted(u, RunCompleted) && !Persisted(u, RunSkipped))
    && (forall u :: u in tasks && u.index > t.index ==>
          !u.checked && !Persisted(u, RunStatus.InProgress) && !Persisted(u, RunCompleted) && !Persisted(u, RunSkipped))
  }

  /** The task ids in index order. */
  ghost predicate IdsInOrder(tasks: seq<Task>, ids: seq<string>) {
    exists ordered: seq<Task> ::
      && multiset(ordered) == multiset(tasks) && |ids| == |ordered|
      && (forall i :: 0 <= i < |ordered| ==> ids[i] == ordered[i].id)
      && forall i, j :: 0 <= i < j < |ordered| ==> ordered[i].index <= ordered[j].index
  }

  lemma {:induction false} InitializeWhen(p: Phase)
    requires p.documentStatus != Completed && p.documentStatus != Skipped
    ensures ReconcilePhase(p) == Initialize(p.number) <==>
      && Readable(p) && !HasLedger(p)
      && (p.featureTasksStatus == Pending || p.featureTasksStatus .InProgress?)
      && (p.documentStatus == Pending || (p.documentStatus .InProgress? && p.taskRunCount == 0))
    ensures ReconcilePhase(p).Initialize? ==> ReconcilePhase(p).phase == p.number
  {
  }

  lemma {:induction false} AgreeIff(p: Phase)
    requires p.documentStatus != Completed && p.documentStatus != Skipped
    ensures StatusesAgree(p) <==>
      !(Contradictory(p.documentStatus, p.featureTasksStatus)
        && !(TerminalStatus(p.featureTasksStatus) && !TerminalStatus(p.documentStatus) && EveryTaskChecked(p)))
  {
  }

  /** Without a readable document, a ledger and gates nothing is promoted or selected. */
  lemma {:induction false} LedgerDecides(p: Phase)
    ensures if Readable(p) && HasLedger(p) && p.gates.Some? then
        SortBy(p.tasks.value, Index) != [] &&
        ReconcilePhase(p)
          == ReconcileLedger(p, p.documentStatus, p.featureTasksStatus, SortBy(p.tasks.value, Index), p.gates.value)
      else !ReconcilePhase(p).Promote? && !ReconcilePhase(p).Select?
  {
    if HasLedger(p) {
      var ordered := LedgerOrder(p);
      assert p.tasks.value[0] in ordered;
    }
  }

  /** What the sorted ledger leads to. */
  lemma {:induction false} SortedDecides(p: Phase, ordered: seq<Task>, gates: seq<Gate>, agree: bool)
    requires ordered != []
    requires agree == !(Contradictory(p.documentStatus, p.featureTasksStatus)
      && !(TerminalStatus(p.featureTasksStatus) && !TerminalStatus(p.documentStatus) && FirstIndex(ordered, Unchecked) == |ordered|))
    ensures var d := ReconcileLedger(p, p.documentStatus, p.featureTasksStatus, ordered, gates);
      var first := FirstIndex(ordered, Unchecked);
      var clear := agree && FirstIndex(ordered, StoreConflict) == |ordered|;
      && (d.Promote? <==> clear && first == |ordered| && GatesSettled(gates) && (AwaitsReview(p) ==> p.reviewRequired == Some(false)))
      && (d.Promote? ==> d == Promote(p.number, Ids(ordered)))
      && (d.Select? <==> (
            && clear
            && if first == |ordered| then AwaitsReview(p) && !(p.reviewRequired == Some(false) && GatesSettled(gates))
               else forall i :: 0 <= i < |ordered| && ordered[i].index > ordered[first].index ==> !HasState(ordered[i])))
      && (d.Select? ==> d.phase == p.number)
  {
  }

  lemma {:induction false} PromoteWhen(p: Phase)
    requires p.documentStatus != Completed && p.documentStatus != Skipped
    ensures ReconcilePhase(p).Promote? <==>
      && Workable(p) && EveryTaskChecked(p) && FourGates(p.gates.value)
      && (AwaitsReview(p) ==> p.reviewRequired == Some(false))
    ensures ReconcilePhase(p).Promote? ==> ReconcilePhase(p).phase == p.number && IdsInOrder(p.tasks.value, ReconcilePhase(p).taskIds)
  {
    LedgerDecides(p);
    if Readable(p) && HasLedger(p) && p.gates.Some? {
      var ordered := LedgerOrder(p);
      AgreeIff(p);
      SortedDecides(p, ordered, p.gates.value, StatusesAgree(p));
      FourGatesIff(p.gates.value);
      NoConflictIff(p);
      SortSorts(p.tasks.value, Index);
      SortedIsInOrder(p.tasks.value, ordered);
    }
  }

  lemma {:induction false} SortedIsInOrder(tasks: seq<Task>, ordered: seq<Task>)
    requires multiset(ordered) == multiset(tasks) && SortedBy(ordered, Index)
    ensures IdsInOrder(tasks, Ids(ordered))
  {
    forall i, j | 0 <= i < j < |ordered| ensures ordered[i].index <= ordered[j].index {
      assert Index(ordered[i]) <= Index(ordered[j]);
    }
  }

  lemma {:induction false} NextTaskIff(p: Phase, t: Task)
    requires p.tasks.Some?
    ensures NextTask(p.tasks.value, t) <==>
      SelectsFirstUnchecked(p.tasks.value, t) && forall u :: u in p.tasks.value ==> !StoreConflict(u)
  {
    if NextTask(p.tasks.value, t) {
      forall u | u in p.tasks.value ensures !StoreConflict(u) && (u.index < t.index ==> u.checked) && (u.index > t.index ==> !HasState(u)) {
        assert u.persisted.Some? ==> (
          || u.persisted.value == NotStarted || u.persisted.value.InProgress?
          || u.persisted.value == RunCompleted || u.persisted.value == RunSkipped);
      }
    }
  }

  lemma {:induction false} NextTaskExistsIff(p: Phase)
    requires p.tasks.Some?
    ensures (exists t :: NextTask(p.tasks.value, t)) <==>
      InOrder(p.tasks.value) && forall u :: u in p.tasks.value ==> !StoreConflict(u)
  {
    forall t ensures NextTask(p.tasks.value, t) <==>
      SelectsFirstUnchecked(p.tasks.value, t) && forall u :: u in p.tasks.value ==> !StoreConflict(u)
    {
      NextTaskIff(p, t);
    }
  }

  /** Work goes on with the next task; a fully checked phase that awaits its review is handed over with its last task. */
  lemma {:induction false} SelectWhen(p: Phase)
    requires p.documentStatus != Completed && p.documentStatus != Skipped
    ensures ReconcilePhase(p).Select? <==>
      && Workable(p)
      && if EveryTaskChecked(p) then AwaitsReview(p) && !(p.reviewRequired == Some(false) && FourGates(p.gates.value))
         else exists t :: NextTask(p.tasks.value, t)
    ensures ReconcilePhase(p).Select? ==> ReconcilePhase(p).phase == p.number
  {
    LedgerDecides(p);
    if Readable(p) && HasLedger(p) && p.gates.Some? {
      var ordered := LedgerOrder(p);
      AgreeIff(p);
      SortedDecides(p, ordered, p.gates.value, StatusesAgree(p));
      FourGatesIff(p.gates.value);
      NoConflictIff(p);
      NextTaskExistsIff(p);
      if !EveryTaskChecked(p) {
        InOrderIff(p);
      }
    }
  }

  /** The selected task is the next one; at a review it is one of the largest index. */
  lemma {:induction false} SelectedTask(p: Phase) returns (t: Task)
    requires ReconcilePhase(p).Select?
    ensures p.tasks.Some? && t in p.tasks.value && t.id == ReconcilePhase(p).taskId
    ensures if EveryTaskChecked(p) then forall u :: u in p.tasks.value ==> u.index <= t.index else NextTask(p.tasks.value, t)
  {
    var ordered := LedgerOrder(p);
    NoConflictIff(p);
    if EveryTaskChecked(p) {
      t := ordered[|ordered| - 1];
      assert t in ordered;
      forall u | u in p.tasks.value ensures u.index <= t.index {
        assert u in ordered;
        var i :| 0 <= i < |ordered| && ordered[i] == u;
        assert Index(ordered[i]) <= Index(ordered[|ordered| - 1]);
      }
    } else {
      t := SelectInPhase(p);
      NextTaskIff(p, t);
    }
  }

  // ---------------------------------------------------------------------------
  // Main results
  // ---------------------------------------------------------------------------

  /**
   * The earliest unfinished phase is promoted exactly when its document, statuses and ledger are in
   * order, every task is checked, no review is outstanding, and changed_files, tests, gherkin_e2e and
   * code_review each are settled with a justification; its tasks are listed in index order.
   */
  lemma {:induction false} PromotedIff(input: seq<Phase>, p: Phase)
    requires Unobstructed(input) && Current(input, p)
    ensures Reconcile(input).Promote? <==>
      && Workable(p) && EveryTaskChecked(p) && FourGates(p.gates.value)
      && (AwaitsReview(p) ==> p.reviewRequired == Some(false))
    ensures Reconcile(input).Promote? ==> Reconcile(input).phase == p.number && IdsInOrder(p.tasks.value, Reconcile(input).taskIds)
  {
    DecidedAbout(input, p);
    PromoteWhen(p);
  }

  /** The earliest unfinished phase is initialized exactly when it has no ledger to lose and its statuses say it may begin. */
  lemma {:induction false} InitializedIff(input: seq<Phase>, p: Phase)
    requires Unobstructed(input) && Current(input, p)
    ensures Reconcile(input).Initialize? <==>
      && Readable(p) && !HasLedger(p)
      && (p.featureTasksStatus == Pending || p.featureTasksStatus .InProgress?)
      && (p.documentStatus == Pending || (p.documentStatus .InProgress? && p.taskRunCount == 0))
    ensures Reconcile(input).Initialize? ==> Reconcile(input).phase == p.number
  {
    DecidedAbout(input, p);
    InitializeWhen(p);
  }

  /** A task is selected exactly when it is the next one, or when a fully checked phase awaits its review. */
  lemma {:induction false} SelectedIff(input: seq<Phase>, p: Phase)
    requires Unobstructed(input) && Current(input, p)
    ensures Reconcile(input).Select? <==>
      && Workable(p)
      && if EveryTaskChecked(p) then AwaitsReview(p) && !(p.reviewRequired == Some(false) && FourGates(p.gates.value))
         else exists t :: NextTask(p.tasks.value, t)
    ensures Reconcile(input).Select? ==>
      && Reconcile(input).phase == p.number
      && exists t :: t in p.tasks.value && t.id == Reconcile(input).taskId
           && if EveryTaskChecked(p) then forall u :: u in p.tasks.value ==> u.index <= t.index else NextTask(p.tasks.value, t)
  {
    DecidedAbout(input, p);
    SelectWhen(p);
    if Reconcile(input).Select? {
      var t := SelectedTask(p);
    }
  }

  /** Without a current phase everything is finished; and nothing else is answered so. */
  lemma {:induction false} FinishedIff(input: seq<Phase>)
    ensures Reconcile(input).AllTerminal? <==>
      Unobstructed(input) && forall p :: p in input ==> p.documentStatus == Completed || p.documentStatus == Skipped
  {
    AllTerminalIff(input);
    UnobstructedIff(input);
  }

  /** What the current phase must show for the engine not to block. */
  ghost predicate GoesOn(p: Phase) {
    && Readable(p)
    && if !HasLedger(p) then
         && (p.featureTasksStatus == Pending || p.featureTasksStatus.InProgress?)
         && (p.documentStatus == Pending || (p.documentStatus.InProgress? && p.taskRunCount == 0))
       else
         && p.gates.Some? && StatusesAgree(p)
         && if EveryTaskChecked(p) then AwaitsReview(p) || FourGates(p.gates.value)
            else exists t :: NextTask(p.tasks.value, t)
  }

  lemma {:induction false} PhaseBlockedWhen(p: Phase)
    requires p.documentStatus != Completed && p.documentStatus != Skipped
    ensures ReconcilePhase(p).Blocked? <==> !GoesOn(p)
  {
    InitializeWhen(p);
    PromoteWhen(p);
    SelectWhen(p);
    PhaseIsNotAllTerminal(p);
  }

  /** The engine blocks exactly when the list is obstructed or its current phase cannot go on. */
  lemma {:induction false} BlocksIff(input: seq<Phase>)
    ensures Reconcile(input).Blocked? <==> !Unobstructed(input) || exists p :: Current(input, p) && !GoesOn(p)
  {
    UnobstructedIff(input);
    BlockedIff(input);
    forall p | Current(input, p) ensures !GoesOn(p) <==> !Moves(p) {
      PhaseBlockedWhen(p);
      PhaseMovesIff(p);
    }
    assert forall p :: Current(input, p) <==> Earliest(input, p);
  }
}
