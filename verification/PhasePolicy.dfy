module PhasePolicy {
  /**
   * The phase-state reconciliation policy: from durable facts about numbered phases to one
   * decision.  Reason texts are dropped; kind, phase number and task ids are kept.
   */

  import opened Wrappers
  import opened Sorting
  import TextOrder
  import opened PhaseStatuses
  import Text
  import opened Spelling

  datatype GateStatus = Satisfied | NotApplicable | Waived | Missing | Unknown

  datatype Gate = Gate(name: string, status: GateStatus, justification: Option<string>)

  datatype RunStatus = NotStarted | InProgress | RunCompleted | RunSkipped {
    predicate Terminal() {
      RunCompleted? || RunSkipped?
    }
  }

  datatype Task = Task(id: string, index: int, checked: bool, persisted: Option<RunStatus>)

  /** None for tasks, gates or a status means that the document has none. */
  datatype Phase = Phase(
    number: int,
    documentExists: bool,
    documentStatus: PhaseStatus,
    featureTasksStatus: PhaseStatus,
    tasks: Option<seq<Task>>,
    taskRunCount: nat,
    gates: Option<seq<Gate>>,
    reviewRequired: Option<bool>)

  datatype Decision =
    | Promote(phase: int, taskIds: seq<string>)
    | Initialize(phase: int)
    | Select(phase: int, taskId: string)
    | Blocked(phase: int)
    | AllTerminal

  predicate TerminalStatus(s: PhaseStatus) {
    s.Completed? || s.Skipped?
  }

  predicate ActiveStatus(s: PhaseStatus) {
    s.Pending? || s.InProgress?
  }

  predicate AwaitingStatus(s: PhaseStatus) {
    s.AwaitingReview? || s.AwaitingRerun?
  }

  predicate Terminal(p: Phase) {
    TerminalStatus(p.documentStatus)
  }

  // ---------------------------------------------------------------------------
  // The policy
  // ---------------------------------------------------------------------------

  /** The first position where p holds, or the length. */
  function FirstIndex<T>(xs: seq<T>, p: T -> bool): (n: nat)
    ensures n <= |xs|
    ensures forall i :: 0 <= i < n ==> !p(xs[i])
    ensures n < |xs| ==> p(xs[n])
    decreases |xs|
  {
    if xs == [] || p(xs[0]) then 0 else 1 + FirstIndex(xs[1..], p)
  }

  function Number(p: Phase): int {
    p.number
  }

  function Index(t: Task): int {
    t.index
  }

  predicate Unchecked(t: Task) {
    !t.checked
  }

  predicate NonTerminal(p: Phase) {
    !Terminal(p)
  }

  /** A completed phase that still has an unchecked task. */
  predicate HidesWork(p: Phase) {
    p.documentStatus.Completed? && p.tasks.Some? && exists i :: 0 <= i < |p.tasks.value| && !p.tasks.value[i].checked
  }

  /** The first position whose number repeats the one before it, or the length. */
  function FirstDuplicate(numbers: seq<int>): (n: nat)
    ensures n <= |numbers|
    ensures forall i :: 1 <= i < n ==> numbers[i] != numbers[i - 1]
    ensures n < |numbers| ==> n > 0 && numbers[n] == numbers[n - 1]
  {
    FirstDuplicateFrom(numbers, 1)
  }

  function FirstDuplicateFrom(numbers: seq<int>, from: nat): (n: nat)
    requires from >= 1
    ensures n <= |numbers|
    ensures forall i :: from <= i < n ==> numbers[i] != numbers[i - 1]
    ensures n < |numbers| ==> n >= from && numbers[n] == numbers[n - 1]
    decreases |numbers| - from
  {
    if from >= |numbers| then |numbers|
    else if numbers[from] == numbers[from - 1] then from
    else FirstDuplicateFrom(numbers, from + 1)
  }

  function Reconcile(input: seq<Phase>): Decision {
    Decide(SortBy(input, Number))
  }

  /** The decision about phases already in number order. */
  function Decide(phases: seq<Phase>): Decision {
    var duplicate := FirstDuplicate(KeysOf(phases, Number));
    if duplicate < |phases| then Blocked(phases[duplicate].number)
    else
      var hidden := FirstIndex(phases, HidesWork);
      if hidden < |phases| then Blocked(phases[hidden].number)
      else
        var current := FirstIndex(phases, NonTerminal);
        if current == |phases| then AllTerminal else ReconcilePhase(phases[current])
  }

  /** The decision about the earliest non-terminal phase. */
  function ReconcilePhase(p: Phase): Decision {
    var document, featureTasks := p.documentStatus, p.featureTasksStatus;
    if !p.documentExists || document.NoStatus? || featureTasks.NoStatus? then Blocked(p.number)
    else if p.tasks.None? || p.tasks.value == [] then
      if ActiveStatus(featureTasks)
        && (document.Pending? || (document.InProgress? && p.taskRunCount == 0))
      then Initialize(p.number)
      else Blocked(p.number)
    else if p.gates.None? then Blocked(p.number)
    else ReconcileLedger(p, document, featureTasks, SortBy(p.tasks.value, Index), p.gates.value)
  }

  predicate Contradictory(document: PhaseStatus, featureTasks: PhaseStatus) {
    document != featureTasks && !ActiveStatus(featureTasks)
  }

  predicate StoreConflict(t: Task) {
    !t.checked && t.persisted.Some? && t.persisted.value.Terminal()
  }

  predicate HasState(t: Task) {
    t.checked || (t.persisted.Some? && !t.persisted.value.NotStarted?)
  }

  function ReconcileLedger(
    p: Phase, document: PhaseStatus, featureTasks: PhaseStatus, ordered: seq<Task>, gates: seq<Gate>): Decision
    requires ordered != []
  {
    var first := FirstIndex(ordered, Unchecked);
    var allChecked := first == |ordered|;
    if Contradictory(document, featureTasks) && !(TerminalStatus(featureTasks) && !TerminalStatus(document) && allChecked)
    then Blocked(p.number)
    else if FirstIndex(ordered, StoreConflict) < |ordered| then Blocked(p.number)
    else if !allChecked then
      if exists i :: 0 <= i < |ordered| && ordered[i].index > ordered[first].index && HasState(ordered[i])
      then Blocked(p.number)
      else Select(p.number, ordered[first].id)
    else if AwaitingStatus(document) then
      if p.reviewRequired == Some(false) && GatesSettled(gates) then Promote(p.number, Ids(ordered))
      else Select(p.number, ordered[|ordered| - 1].id)
    else if !GatesSettled(gates) then Blocked(p.number)
    else Promote(p.number, Ids(ordered))
  }

  function Ids(tasks: seq<Task>): (r: seq<string>)
    ensures |r| == |tasks| && forall i :: 0 <= i < |tasks| ==> r[i] == tasks[i].id
    decreases |tasks|
  {
    if tasks == [] then [] else [tasks[0].id] + Ids(tasks[1..])
  }

  const REQUIRED_GATES: seq<string> := ["changed_files", "tests", "gherkin_e2e", "code_review"]

  /** The last gate of that name, as a map built in order keeps it. */
  function LastGate(gates: seq<Gate>, name: string): (r: Option<Gate>)
    ensures r.Some? ==> r.value in gates && r.value.name == name
    decreases |gates|
  {
    if gates == [] then None
    else if gates[|gates| - 1].name == name then Some(gates[|gates| - 1])
    else LastGate(gates[..|gates| - 1], name)
  }

  predicate Settled(gate: Option<Gate>) {
    && gate.Some?
    && (gate.value.status.Satisfied? || gate.value.status.NotApplicable? || gate.value.status.Waived?)
    && gate.value.justification.Some?
    && Text.Trim(gate.value.justification.value) != ""
  }

  predicate GatesSettled(gates: seq<Gate>) {
    forall name :: name in REQUIRED_GATES ==> Settled(LastGate(gates, name))
  }

  // ---------------------------------------------------------------------------
  // The four gates by name
  // ---------------------------------------------------------------------------

  /** The gate at this position, the last of its name, is satisfied, not applicable or waived, with a justification. */
  ghost predicate HoldsAt(gates: seq<Gate>, name: string, i: nat) {
    && i < |gates| && gates[i].name == name && (forall j :: i < j < |gates| ==> gates[j].name != name)
    && (gates[i].status == Satisfied || gates[i].status == NotApplicable || gates[i].status == Waived)
    && gates[i].justification.Some? && NotBlank(gates[i].justification.value)
  }

  ghost predicate GateHolds(gates: seq<Gate>, name: string) {
    exists i: nat :: HoldsAt(gates, name, i)
  }

  ghost predicate FourGates(gates: seq<Gate>) {
    && GateHolds(gates, "changed_files") && GateHolds(gates, "tests")
    && GateHolds(gates, "gherkin_e2e") && GateHolds(gates, "code_review")
  }

  lemma {:induction false} LastGateIff(gates: seq<Gate>, name: string, i: nat)
    requires i < |gates| && gates[i].name == name && forall j :: i < j < |gates| ==> gates[j].name != name
    ensures LastGate(gates, name) == Some(gates[i])
    decreases |gates|
  {
    if i < |gates| - 1 {
      LastGateIff(gates[..|gates| - 1], name, i);
    }
  }

  lemma {:induction false} LastGatePosition(gates: seq<Gate>, name: string) returns (i: nat)
    requires LastGate(gates, name).Some?
    ensures i < |gates| && gates[i].name == name && forall j :: i < j < |gates| ==> gates[j].name != name
    decreases |gates|
  {
    if gates[|gates| - 1].name == name {
      i := |gates| - 1;
    } else {
      i := LastGatePosition(gates[..|gates| - 1], name);
    }
  }

  lemma {:induction false} SettledIff(gates: seq<Gate>, name: string)
    ensures Settled(LastGate(gates, name)) <==> GateHolds(gates, name)
  {
    if LastGate(gates, name).Some? {
      var i := LastGatePosition(gates, name);
      LastGateIff(gates, name, i);
      if gates[i].justification.Some? {
        NotBlankIff(gates[i].justification.value);
      }
      assert Settled(LastGate(gates, name)) ==> HoldsAt(gates, name, i);
    }
    if k: nat :| HoldsAt(gates, name, k) {
      LastGateIff(gates, name, k);
      NotBlankIff(gates[k].justification.value);
    }
  }

  lemma {:induction false} FourGatesIff(gates: seq<Gate>)
    ensures GatesSettled(gates) <==> FourGates(gates)
  {
    SettledIff(gates, "changed_files");
    SettledIff(gates, "tests");
    SettledIff(gates, "gherkin_e2e");
    SettledIff(gates, "code_review");
    assert "changed_files" in REQUIRED_GATES && "tests" in REQUIRED_GATES
      && "gherkin_e2e" in REQUIRED_GATES && "code_review" in REQUIRED_GATES by {
      assert REQUIRED_GATES[0] == "changed_files" && REQUIRED_GATES[1] == "tests";
      assert REQUIRED_GATES[2] == "gherkin_e2e" && REQUIRED_GATES[3] == "code_review";
    }
  }

  // ---------------------------------------------------------------------------
  // What each decision means
  // ---------------------------------------------------------------------------

  /** The phase is in the input, not terminal, and every phase with a smaller number is terminal. */
  ghost predicate Earliest(input: seq<Phase>, p: Phase) {
    && p in input
    && !Terminal(p)
    && forall q :: q in input && q.number < p.number ==> Terminal(q)
  }

  lemma {:induction false} DuplicateFreeIsDistinct(ks: seq<int>)
    requires Ascending(ks)
    ensures FirstDuplicate(ks) == |ks| <==> DistinctInts(ks)
  {
    if FirstDuplicate(ks) == |ks| {
      forall i, j | 0 <= i < j < |ks| ensures ks[i] != ks[j] {
        assert ks[j - 1] != ks[j];
      }
    }
  }

  lemma {:induction false} NoDuplicatesIff(input: seq<Phase>)
    ensures var phases := SortBy(input, Number);
      FirstDuplicate(KeysOf(phases, Number)) == |phases| <==> DistinctBy(input, Number)
  {
    var phases := SortBy(input, Number);
    SortKeys(input, Number);
    DuplicateFreeIsDistinct(KeysOf(phases, Number));
    DistinctKeysOf(phases, Number);
    DistinctWhenSorted(input, Number);
  }

  /** In sorted order, whatever stands below the first unfinished phase is finished. */
  lemma {:induction false} BelowIsTerminal(phases: seq<Phase>, current: nat, q: Phase)
    requires SortedBy(phases, Number) && current < |phases| && q in phases && q.number < phases[current].number
    requires forall i :: 0 <= i < current ==> !NonTerminal(phases[i])
    ensures Terminal(q)
  {
    var i :| 0 <= i < |phases| && phases[i] == q;
    assert i >= current ==> Number(phases[current]) <= Number(phases[i]);
  }

  lemma {:induction false} FirstNonTerminalIsEarliest(input: seq<Phase>)
    ensures var phases := SortBy(input, Number); var current := FirstIndex(phases, NonTerminal);
      current < |phases| ==> Earliest(input, phases[current])
  {
    var phases := SortBy(input, Number);
    var current := FirstIndex(phases, NonTerminal);
    if current < |phases| {
      var p := phases[current];
      TextOrder.SameElements(input, phases, p);
      SortSorts(input, Number);
      forall q | q in input && q.number < p.number ensures Terminal(q) {
        TextOrder.SameElements(input, phases, q);
        BelowIsTerminal(phases, current, q);
      }
    }
  }

  /** The phase a decision about an unfinished phase is made for. */
  lemma {:induction false} CurrentPhase(input: seq<Phase>) returns (p: Phase)
    requires !Reconcile(input).Blocked? && !Reconcile(input).AllTerminal?
    ensures Earliest(input, p)
    ensures Reconcile(input) == ReconcilePhase(p)
    ensures DistinctBy(input, Number)
  {
    p := SortBy(input, Number)[FirstIndex(SortBy(input, Number), NonTerminal)];
    FirstNonTerminalIsEarliest(input);
    NoDuplicatesIff(input);
  }

  ghost predicate AllChecked(p: Phase) {
    p.tasks.Some? && forall t :: t in p.tasks.value ==> t.checked
  }

  lemma {:induction false} LedgerOrder(p: Phase) returns (ordered: seq<Task>)
    requires p.tasks.Some?
    ensures ordered == SortBy(p.tasks.value, Index)
    ensures forall t :: t in ordered <==> t in p.tasks.value
    ensures SortedBy(ordered, Index)
    ensures FirstIndex(ordered, Unchecked) == |ordered| <==> AllChecked(p)
  {
    ordered := SortBy(p.tasks.value, Index);
    SortSorts(p.tasks.value, Index);
    forall t ensures t in ordered <==> t in p.tasks.value {
      TextOrder.SameElements(ordered, p.tasks.value, t);
    }
    var first := FirstIndex(ordered, Unchecked);
    if first < |ordered| {
      assert ordered[first] in p.tasks.value;
    } else {
      forall t | t in p.tasks.value ensures t.checked {
        var i :| 0 <= i < |ordered| && ordered[i] == t;
        assert !Unchecked(ordered[i]);
      }
    }
  }

  /**
   * Only the earliest non-terminal phase is ever promoted, only with every task checked and all
   * four required gates settled with a justification, and with its task ids in index order.
   */
  lemma {:induction false} PromoteSound(input: seq<Phase>) returns (p: Phase)
    requires Reconcile(input).Promote?
    ensures Earliest(input, p) && p.number == Reconcile(input).phase
    ensures AllChecked(p) && p.tasks.value != []
    ensures p.gates.Some? && GatesSettled(p.gates.value) && FourGates(p.gates.value)
    ensures Reconcile(input).taskIds == Ids(SortBy(p.tasks.value, Index))
    ensures AwaitingStatus(p.documentStatus) ==> p.reviewRequired == Some(false)
  {
    p := CurrentPhase(input);
    var ordered := LedgerOrder(p);
    FourGatesIff(p.gates.value);
  }

  ghost predicate SelectsFirstUnchecked(tasks: seq<Task>, t: Task) {
    && t in tasks
    && !t.checked
    && forall u :: u in tasks ==> (u.index < t.index ==> u.checked) && (u.index > t.index ==> !HasState(u))
  }

  lemma {:induction false} FirstUncheckedLeads(tasks: seq<Task>, ordered: seq<Task>, first: nat)
    requires multiset(ordered) == multiset(tasks) && SortedBy(ordered, Index)
    requires first < |ordered| && !ordered[first].checked
    requires forall i :: 0 <= i < first ==> ordered[i].checked
    requires forall i :: 0 <= i < |ordered| && ordered[i].index > ordered[first].index ==> !HasState(ordered[i])
    ensures SelectsFirstUnchecked(tasks, ordered[first])
  {
    var t := ordered[first];
    TextOrder.SameElements(ordered, tasks, t);
    forall u | u in tasks
      ensures (u.index < t.index ==> u.checked) && (u.index > t.index ==> !HasState(u))
    {
      TextOrder.SameElements(ordered, tasks, u);
      var i :| 0 <= i < |ordered| && ordered[i] == u;
      assert i >= first ==> Index(ordered[first]) <= Index(ordered[i]);
    }
  }

  lemma {:induction false} SelectInPhase(p: Phase) returns (t: Task)
    requires ReconcilePhase(p).Select?
    ensures ReconcilePhase(p).phase == p.number && t.id == ReconcilePhase(p).taskId
    ensures p.tasks.Some? && t in p.tasks.value
    ensures SelectsFirstUnchecked(p.tasks.value, t) || (AwaitingStatus(p.documentStatus) && AllChecked(p))
  {
    var ordered := LedgerOrder(p);
    var first := FirstIndex(ordered, Unchecked);
    if first == |ordered| {
      t := ordered[|ordered| - 1];
      assert t in ordered;
    } else {
      t := ordered[first];
      assert forall i :: 0 <= i < first ==> !Unchecked(ordered[i]);
      FirstUncheckedLeads(p.tasks.value, ordered, first);
    }
  }

  /**
   * A selected task belongs to the earliest non-terminal phase.  It is the first unchecked task,
   * with every task of smaller index checked and none of larger index started; or the phase
   * awaits its review with every task checked.
   */
  lemma {:induction false} SelectSound(input: seq<Phase>) returns (p: Phase, t: Task)
    requires Reconcile(input).Select?
    ensures Earliest(input, p) && p.number == Reconcile(input).phase
    ensures p.tasks.Some? && t in p.tasks.value && t.id == Reconcile(input).taskId
    ensures SelectsFirstUnchecked(p.tasks.value, t) || (AwaitingStatus(p.documentStatus) && AllChecked(p))
  {
    p := CurrentPhase(input);
    t := SelectInPhase(p);
  }

  /** Initialization is offered only to an earliest phase that has no ledger to lose. */
  lemma {:induction false} InitializeSound(input: seq<Phase>) returns (p: Phase)
    requires Reconcile(input).Initialize?
    ensures Earliest(input, p) && p.number == Reconcile(input).phase
    ensures p.tasks.None? || p.tasks.value == []
    ensures ActiveStatus(p.documentStatus) && ActiveStatus(p.featureTasksStatus)
    ensures p.documentStatus.InProgress? ==> p.taskRunCount == 0
  {
    p := CurrentPhase(input);
    InitializeInPhase(p);
  }

  lemma {:induction false} InitializeInPhase(p: Phase)
    requires ReconcilePhase(p).Initialize?
    ensures ReconcilePhase(p).phase == p.number
    ensures p.tasks.None? || p.tasks.value == []
    ensures ActiveStatus(p.documentStatus) && ActiveStatus(p.featureTasksStatus)
    ensures p.documentStatus.InProgress? ==> p.taskRunCount == 0
  {
  }

  ghost predicate Finished(p: Phase) {
    Terminal(p) && !HidesWork(p)
  }

  lemma {:induction false} AllFinishedIff(input: seq<Phase>)
    ensures var phases := SortBy(input, Number);
      (FirstIndex(phases, HidesWork) == |phases| && FirstIndex(phases, NonTerminal) == |phases|)
      <==> forall p :: p in input ==> Finished(p)
  {
    var phases := SortBy(input, Number);
    forall p ensures p in phases <==> p in input {
      TextOrder.SameElements(phases, input, p);
    }
    var hidden, open := FirstIndex(phases, HidesWork), FirstIndex(phases, NonTerminal);
    if hidden == |phases| && open == |phases| {
      forall p | p in input ensures Finished(p) {
        var i :| 0 <= i < |phases| && phases[i] == p;
        assert !NonTerminal(phases[i]) && !HidesWork(phases[i]);
      }
    } else if hidden < |phases| {
      assert phases[hidden] in phases;
    } else {
      assert phases[open] in phases;
    }
  }

  /** "All terminal" is said exactly when numbers are distinct, every phase is terminal, and none hides work. */
  lemma {:induction false} AllTerminalIff(input: seq<Phase>)
    ensures Reconcile(input).AllTerminal? <==>
      DistinctBy(input, Number) && forall p :: p in input ==> Finished(p)
  {
    AllFinishedIff(input);
    NoDuplicatesIff(input);
    SaysAllTerminal(input);
  }

  lemma {:induction false} PhaseIsNotAllTerminal(p: Phase)
    ensures !ReconcilePhase(p).AllTerminal?
  {
  }

  lemma {:induction false} SaysAllTerminal(input: seq<Phase>)
    ensures Reconcile(input).AllTerminal? <==>
      (var phases := SortBy(input, Number);
       && FirstDuplicate(KeysOf(phases, Number)) == |phases|
       && FirstIndex(phases, HidesWork) == |phases|
       && FirstIndex(phases, NonTerminal) == |phases|)
  {
    var phases := SortBy(input, Number);
    var current := FirstIndex(phases, NonTerminal);
    if current < |phases| {
      PhaseIsNotAllTerminal(phases[current]);
    }
  }
}
