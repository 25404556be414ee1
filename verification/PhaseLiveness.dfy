module PhaseLiveness {
  /**
   * When the phase engine does not block, exactly; and evidence under which a whole run never blocks,
   * and so ends with every phase finished.
   */

  import opened Sorting
  import TextOrder
  import opened PhasePolicy
  import opened PhaseRun

  // ---------------------------------------------------------------------------
  // One decision
  // ---------------------------------------------------------------------------

  /** Checked tasks come before unchecked ones, and no task of a larger index than the first unchecked one was started. */
  ghost predicate InOrder(tasks: seq<Task>) {
    exists t :: SelectsFirstUnchecked(tasks, t)
  }

  ghost predicate LedgerMoves(p: Phase, tasks: seq<Task>, gates: seq<Gate>) {
    && (Contradictory(p.documentStatus, p.featureTasksStatus) ==> TerminalStatus(p.featureTasksStatus) && AllChecked(p))
    && (forall t :: t in tasks ==> !StoreConflict(t))
    && (if AllChecked(p) then AwaitingStatus(p.documentStatus) || FourGates(gates) else InOrder(tasks))
  }

  /** What an unfinished phase must show for the engine to go on with it. */
  ghost predicate Moves(p: Phase) {
    && p.documentExists && !p.documentStatus.NoStatus? && !p.featureTasksStatus.NoStatus?
    && if p.tasks.None? || p.tasks.value == [] then
         && ActiveStatus(p.featureTasksStatus)
         && (p.documentStatus.Pending? || (p.documentStatus.InProgress? && p.taskRunCount == 0))
       else p.gates.Some? && LedgerMoves(p, p.tasks.value, p.gates.value)
  }

  lemma {:induction false} NoConflictIff(p: Phase)
    requires p.tasks.Some?
    ensures var ordered := SortBy(p.tasks.value, Index);
      FirstIndex(ordered, StoreConflict) == |ordered| <==> forall t :: t in p.tasks.value ==> !StoreConflict(t)
  {
    var ordered := LedgerOrder(p);
    var k := FirstIndex(ordered, StoreConflict);
    if k < |ordered| {
      assert ordered[k] in p.tasks.value;
    } else {
      forall t | t in p.tasks.value ensures !StoreConflict(t) {
        var i :| 0 <= i < |ordered| && ordered[i] == t;
      }
    }
  }

  /** Whatever the policy tests about tasks after the first unchecked one is a property of the ledger, in any order. */
  lemma {:induction false} InOrderIff(p: Phase)
    requires p.tasks.Some? && !AllChecked(p)
    ensures var ordered := SortBy(p.tasks.value, Index); var first := FirstIndex(ordered, Unchecked);
      && first < |ordered|
      && (InOrder(p.tasks.value)
          <==> forall i :: 0 <= i < |ordered| && ordered[i].index > ordered[first].index ==> !HasState(ordered[i]))
  {
    var ordered := LedgerOrder(p);
    var first := FirstIndex(ordered, Unchecked);
    if forall i :: 0 <= i < |ordered| && ordered[i].index > ordered[first].index ==> !HasState(ordered[i]) {
      assert forall i :: 0 <= i < first ==> !Unchecked(ordered[i]);
      SortSorts(p.tasks.value, Index);
      FirstUncheckedLeads(p.tasks.value, ordered, first);
    }
    if t :| SelectsFirstUnchecked(p.tasks.value, t) {
      FirstUncheckedIsLeast(p.tasks.value, ordered, first, t);
    }
  }

  lemma {:induction false} FirstUncheckedIsLeast(tasks: seq<Task>, ordered: seq<Task>, first: nat, t: Task)
    requires SortedBy(ordered, Index) && forall u :: u in ordered <==> u in tasks
    requires first < |ordered| && !ordered[first].checked && forall i :: 0 <= i < first ==> !Unchecked(ordered[i])
    requires SelectsFirstUnchecked(tasks, t)
    ensures ordered[first].index == t.index
    ensures forall i :: 0 <= i < |ordered| && ordered[i].index > ordered[first].index ==> !HasState(ordered[i])
  {
    assert t in ordered;
    var j :| 0 <= j < |ordered| && ordered[j] == t;
    assert Unchecked(ordered[j]) && j >= first;
    assert Index(ordered[first]) <= Index(ordered[j]);
    assert ordered[first] in tasks;
    forall i | 0 <= i < |ordered| && ordered[i].index > ordered[first].index ensures !HasState(ordered[i]) {
      assert ordered[i] in tasks;
    }
  }

  lemma {:induction false} LedgerMovesIff(p: Phase)
    requires !Terminal(p) && p.tasks.Some? && p.tasks.value != [] && p.gates.Some?
    ensures var ordered := SortBy(p.tasks.value, Index);
      ordered != [] &&
      (ReconcileLedger(p, p.documentStatus, p.featureTasksStatus, ordered, p.gates.value).Blocked?
       <==> !LedgerMoves(p, p.tasks.value, p.gates.value))
  {
    var ordered := LedgerOrder(p);
    assert p.tasks.value[0] in ordered;
    NoConflictIff(p);
    FourGatesIff(p.gates.value);
    if !AllChecked(p) {
      InOrderIff(p);
    }
  }

  lemma {:induction false} PhaseMovesIff(p: Phase)
    requires !Terminal(p)
    ensures ReconcilePhase(p).Blocked? <==> !Moves(p)
  {
    if p.tasks.Some? && p.tasks.value != [] && p.gates.Some? {
      LedgerMovesIff(p);
    }
  }

  lemma {:induction false} NoneHidesIff(input: seq<Phase>)
    ensures var phases := SortBy(input, Number);
      FirstIndex(phases, HidesWork) == |phases| <==> forall p :: p in input ==> !HidesWork(p)
  {
    var phases := SortBy(input, Number);
    forall p ensures p in phases <==> p in input {
      TextOrder.SameElements(phases, input, p);
    }
    var hidden := FirstIndex(phases, HidesWork);
    if hidden < |phases| {
      assert phases[hidden] in phases;
    } else {
      forall p | p in input ensures !HidesWork(p) {
        var i :| 0 <= i < |phases| && phases[i] == p;
      }
    }
  }

  /** In number order, with distinct numbers, an earliest unfinished phase is the first unfinished one. */
  lemma {:induction false} EarliestIsFirst(phases: seq<Phase>, p: Phase)
    requires SortedBy(phases, Number) && DistinctBy(phases, Number) && Earliest(phases, p)
    ensures var current := FirstIndex(phases, NonTerminal);
      current < |phases| && phases[current] == p
  {
    var current := FirstIndex(phases, NonTerminal);
    var i :| 0 <= i < |phases| && phases[i] == p;
    assert NonTerminal(phases[i]) && current <= i && phases[current] in phases;
    assert Number(phases[current]) <= Number(phases[i]);
  }

  /** With distinct numbers there is one earliest unfinished phase, and it is the one decided about. */
  lemma {:induction false} EarliestIsCurrent(input: seq<Phase>, p: Phase)
    requires DistinctBy(input, Number) && Earliest(input, p)
    ensures var phases := SortBy(input, Number); var current := FirstIndex(phases, NonTerminal);
      current < |phases| && phases[current] == p
  {
    var phases := SortBy(input, Number);
    SortSorts(input, Number);
    DistinctWhenSorted(input, Number);
    forall q ensures q in phases <==> q in input {
      TextOrder.SameElements(phases, input, q);
    }
    EarliestIsFirst(phases, p);
  }

  ghost predicate EarliestMoves(input: seq<Phase>) {
    forall p :: Earliest(input, p) ==> Moves(p)
  }

  /**
   * The engine blocks exactly when a phase number repeats, a completed phase has an unchecked task, or
   * the earliest unfinished phase does not show what going on with it asks for.
   */
  lemma {:induction false} BlockedIff(input: seq<Phase>)
    ensures Reconcile(input).Blocked? <==>
      !(DistinctBy(input, Number) && (forall p :: p in input ==> !HidesWork(p)) && EarliestMoves(input))
  {
    NoDuplicatesIff(input);
    NoneHidesIff(input);
    var phases := SortBy(input, Number);
    var current := FirstIndex(phases, NonTerminal);
    FirstNonTerminalIsEarliest(input);
    if DistinctBy(input, Number) {
      forall p | Earliest(input, p) ensures current < |phases| && phases[current] == p {
        EarliestIsCurrent(input, p);
      }
    }
    if current < |phases| {
      PhaseMovesIff(phases[current]);
    }
  }

  // ---------------------------------------------------------------------------
  // Favourable runs
  // ---------------------------------------------------------------------------

  ghost predicate Untouched(tasks: seq<Task>) {
    forall t :: t in tasks && !t.checked ==> !HasState(t)
  }

  /** The gates are settled, the status table says that work may go on, and a new ledger starts untouched. */
  ghost predicate Favourable(e: Evidence) {
    && e.gates.Some? && FourGates(e.gates.value)
    && ActiveStatus(e.featureTasksStatus)
    && Untouched(e.ledger)
  }

  /** An unfinished phase from which favourable evidence leads to its end. */
  ghost predicate Ready(p: Phase) {
    && p.documentExists && ActiveStatus(p.featureTasksStatus)
    && if p.tasks.None? || p.tasks.value == [] then
         p.documentStatus.Pending? || (p.documentStatus.InProgress? && p.taskRunCount == 0)
       else
         && p.gates.Some? && Untouched(p.tasks.value)
         && (AllChecked(p) && !Awaiting(p) ==> FourGates(p.gates.value))
  }

  ghost predicate ReadyOrFinished(p: Phase) {
    if Terminal(p) then !HidesWork(p) else Ready(p)
  }

  ghost predicate AllReady(phases: seq<Phase>) {
    forall i :: 0 <= i < |phases| ==> ReadyOrFinished(phases[i])
  }

  /** The unchecked task of least index, as long as there is one. */
  lemma {:induction false} OrderedWhenUntouched(p: Phase)
    requires p.tasks.Some? && GoodLedger(p.tasks.value) && Untouched(p.tasks.value) && !AllChecked(p)
    ensures InOrder(p.tasks.value)
  {
    var ordered := LedgerOrder(p);
    var first := FirstIndex(ordered, Unchecked);
    assert ordered[first] in p.tasks.value;
    forall i | 0 <= i < |ordered| && ordered[i].index > ordered[first].index ensures !HasState(ordered[i]) {
      assert ordered[i] in p.tasks.value;
    }
    InOrderIff(p);
  }

  lemma {:induction false} ReadyMoves(p: Phase)
    requires GoodPhase(p) && !Terminal(p) && Ready(p)
    ensures Moves(p)
  {
    if p.tasks.Some? && p.tasks.value != [] {
      if !AllChecked(p) {
        OrderedWhenUntouched(p);
      }
      assert LedgerMoves(p, p.tasks.value, p.gates.value);
    }
  }

  /** Phases that are ready are never blocked. */
  lemma {:induction false} ReadyNeverBlocks(phases: seq<Phase>)
    requires Good(phases) && AllReady(phases)
    ensures !Reconcile(phases).Blocked?
  {
    BlockedIff(phases);
    forall p | p in phases ensures !HidesWork(p) && (!Terminal(p) ==> Moves(p)) {
      var i :| 0 <= i < |phases| && phases[i] == p;
      assert ReadyOrFinished(phases[i]) && GoodPhase(phases[i]);
      if !Terminal(p) {
        ReadyMoves(p);
      }
    }
  }

  lemma {:induction false} CheckKeepsUntouched(tasks: seq<Task>, id: string)
    requires Untouched(tasks)
    ensures Untouched(CheckTask(tasks, id))
  {
    forall t | t in CheckTask(tasks, id) && !t.checked ensures !HasState(t) {
      var i :| 0 <= i < |tasks| && CheckTask(tasks, id)[i] == t;
      assert tasks[i] in tasks;
    }
  }

  lemma {:induction false} ActKeepsReady(p: Phase, e: Evidence)
    requires GoodPhase(p) && !Terminal(p) && Ready(p) && GoodEvidence(e) && Favourable(e) && !Stopped(ReconcilePhase(p))
    ensures ReadyOrFinished(Act(p, ReconcilePhase(p), e))
  {
    var d := ReconcilePhase(p);
    if d.Select? {
      var t := SelectedOrReviewed(p);
      if UncheckedCount(p.tasks.value) > 0 {
        CheckKeepsUntouched(p.tasks.value, d.taskId);
      }
    } else if d.Promote? {
      PromotedIsChecked(p);
    }
  }

  lemma {:induction false} PromotedIsChecked(p: Phase)
    requires ReconcilePhase(p).Promote?
    ensures AllChecked(p)
  {
    var ordered := LedgerOrder(p);
  }

  lemma {:induction false} RoundKeepsReady(phases: seq<Phase>, e: Evidence)
    requires Good(phases) && AllReady(phases) && GoodEvidence(e) && Favourable(e)
    ensures AllReady(Round(phases, e))
  {
    if !Stopped(Reconcile(phases)) {
      var k := RoundReplaces(phases, e);
      assert ReadyOrFinished(phases[k]);
      ActKeepsReady(phases[k], e);
    }
  }

  lemma {:induction false} RoundsKeepReady(phases: seq<Phase>, es: seq<Evidence>)
    requires Good(phases) && AllReady(phases) && AllGood(es)
    requires forall i :: 0 <= i < |es| ==> Favourable(es[i])
    ensures AllReady(Rounds(phases, es))
    decreases |es|
  {
    if es != [] {
      RoundKeepsReady(phases, es[0]);
      RoundKeepsGood(phases, es[0]);
      RoundsKeepReady(Round(phases, es[0]), es[1..]);
    }
  }

  /** Under favourable evidence no round ever finds a block: a run can only stop with every phase finished. */
  lemma {:induction false} FavourableNeverBlocks(phases: seq<Phase>, es: seq<Evidence>)
    requires Good(phases) && AllReady(phases) && AllGood(es)
    requires forall i :: 0 <= i < |es| ==> Favourable(es[i])
    ensures !Reconcile(Rounds(phases, es)).Blocked?
  {
    RoundsKeepReady(phases, es);
    RoundsKeepGood(phases, es);
    ReadyNeverBlocks(Rounds(phases, es));
  }

  /** Under favourable evidence every run ends with all phases terminal and no work hidden in them. */
  lemma {:induction false} RunsFinish(phases: seq<Phase>, world: nat -> Evidence) returns (n: nat)
    requires Good(phases) && AllReady(phases)
    requires forall i: nat :: GoodEvidence(world(i)) && Favourable(world(i))
    ensures var last := Rounds(phases, Prefix(world, 0, n));
      Reconcile(last).AllTerminal? && |last| == |phases| && forall p :: p in last ==> Finished(p)
  {
    n := RunsStopEventually(phases, world, 0);
    FavourableNeverBlocks(phases, Prefix(world, 0, n));
    AllTerminalIff(Rounds(phases, Prefix(world, 0, n)));
    RoundsKeepLength(phases, Prefix(world, 0, n));
  }

  /** The number of rounds that is enough when every phase has its ledger. */
  lemma {:induction false} RunsFinishWithin(phases: seq<Phase>, es: seq<Evidence>)
    requires Good(phases) && AllReady(phases) && AllGood(es) && MissingLedgers(phases) == 0
    requires |es| >= Remaining(phases) && forall i :: 0 <= i < |es| ==> Favourable(es[i])
    ensures Reconcile(Rounds(phases, es)).AllTerminal?
  {
    RunsStop(phases, es);
    FavourableNeverBlocks(phases, es);
  }
}
