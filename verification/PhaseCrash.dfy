module PhaseCrash {
  /**
   * Promotions that stop half way.  The writes come in a fixed order, task runs, document, row, and
   * what a stop leaves behind depends on whether the document was written.
   */

  import opened Wrappers
  import opened Sorting
  import TextOrder
  import opened PhaseStatuses
  import opened PhasePolicy
  import opened PhaseInvariance
  import opened PhaseRun
  import opened PhaseAdapter
  import Text

  // ---------------------------------------------------------------------------
  // What a decision is about
  // ---------------------------------------------------------------------------

  /** Any decision but "all terminal" is about a phase that is unfinished, or hides unfinished work. */
  lemma {:induction false} DecisionIsAbout(input: seq<Phase>) returns (p: Phase)
    requires DistinctBy(input, Number) && !Reconcile(input).AllTerminal?
    ensures p in input && p.number == Reconcile(input).phase && !Finished(p)
  {
    var phases := SortBy(input, Number);
    NoDuplicatesIff(input);
    var hidden, current := FirstIndex(phases, HidesWork), FirstIndex(phases, NonTerminal);
    if hidden < |phases| {
      p := phases[hidden];
    } else {
      p := phases[current];
      PhaseNamesItself(p);
    }
    TextOrder.SameElements(input, phases, p);
  }

  // ---------------------------------------------------------------------------
  // Stopping after some writes
  // ---------------------------------------------------------------------------

  /** The phase can be promoted, and k is its document. */
  ghost predicate Promotable(s: State, k: nat) {
    Decided(s).Promote? && k < |s.documents| && s.documents[k].number == Decided(s).phase
  }

  /** Every task of the ledger is checked. */
  ghost predicate Ticked(d: Document) {
    d.exists_ && forall i :: 0 <= i < |d.tasks| ==> d.tasks[i].checked
  }

  lemma {:induction false} PromotedPhase(facts: seq<Phase>, k: nat)
    requires Reconcile(facts).Promote? && k < |facts| && facts[k].number == Reconcile(facts).phase
    ensures DistinctBy(facts, Number) && AllChecked(facts[k])
  {
    var current := CurrentPhase(facts);
    var p := PromoteSound(facts);
    var j :| 0 <= j < |facts| && facts[j] == p;
    if j != k {
      NumbersDiffer(facts, j, k);
    }
  }

  lemma {:induction false} CheckedIsTicked(runs: Runs, rows: Rows, d: Document)
    requires AllChecked(Facts(runs, rows, d))
    ensures Ticked(d)
  {
    var tasks := TaskFacts(runs, d.number, d.tasks);
    forall i | 0 <= i < |d.tasks| ensures d.tasks[i].checked {
      assert tasks[i] in tasks;
    }
  }

  lemma {:induction false} PromotedFacts(s: State, k: nat)
    requires Promotable(s, k)
    ensures DistinctBy(FactsOf(s), Number)
    ensures Ticked(s.documents[k])
  {
    PromotedPhase(FactsOf(s), k);
    CheckedIsTicked(s.runs, s.rows, s.documents[k]);
  }

  lemma {:induction false} NumbersKept(s: State, known: set<int>, k: nat, n: nat)
    requires k < |s.documents| && DistinctBy(FactsOf(s), Number)
    ensures DistinctBy(FactsOf(Interrupted(s, known, k, n)), Number)
  {
    var before, after := FactsOf(s), FactsOf(Interrupted(s, known, k, n));
    forall i | 0 <= i < |after| ensures Number(after[i]) == Number(before[i]) {
    }
  }

  lemma {:induction false} CompletedIsFinished(runs: Runs, rows: Rows, d: Document)
    requires Ticked(d) && d.status.Completed?
    ensures Finished(Facts(runs, rows, d))
  {
    var tasks := TaskFacts(runs, d.number, d.tasks);
    assert forall i :: 0 <= i < |tasks| ==> tasks[i].checked;
  }

  /** Once its document is written, the phase is finished for every later decision. */
  lemma {:induction false} WrittenIsFinished(s: State, known: set<int>, k: nat, n: nat)
    requires Promotable(s, k) && |s.documents[k].tasks| < n
    ensures DistinctBy(FactsOf(Interrupted(s, known, k, n)), Number)
    ensures Finished(FactsOf(Interrupted(s, known, k, n))[k])
  {
    var t := Interrupted(s, known, k, n);
    PromotedFacts(s, k);
    NumbersKept(s, known, k, n);
    CompletedIsFinished(t.runs, t.rows, t.documents[k]);
  }

  /** No decision is about a finished phase. */
  lemma {:induction false} FinishedIsNotDecided(input: seq<Phase>, k: nat)
    requires DistinctBy(input, Number) && k < |input| && Finished(input[k])
    ensures Reconcile(input).AllTerminal? || Reconcile(input).phase != input[k].number
  {
    if !Reconcile(input).AllTerminal? && Reconcile(input).phase == input[k].number {
      var p := DecisionIsAbout(input);
      var j :| 0 <= j < |input| && input[j] == p;
      if j != k {
        NumbersDiffer(input, j, k);
      }
    }
  }

  lemma {:induction false} WrittenIsNotDecided(s: State, known: set<int>, k: nat, n: nat)
    requires Promotable(s, k) && n > |s.documents[k].tasks|
    ensures var d := Decided(Interrupted(s, known, k, n)); d.AllTerminal? || d.phase != Decided(s).phase
  {
    var after := FactsOf(Interrupted(s, known, k, n));
    WrittenIsFinished(s, known, k, n);
    FinishedIsNotDecided(after, k);
    assert after[k].number == s.documents[k].number;
  }

  /**
   * A promotion that stops after n of its writes is decided again, the same, exactly when it stopped
   * before the document was written; after that no decision is about the phase any more.
   */
  lemma {:induction false} PromotionRepeatsIff(s: State, known: set<int>, k: nat, n: nat)
    requires Promotable(s, k)
    ensures Decided(Interrupted(s, known, k, n)) == Decided(s) <==> n <= |s.documents[k].tasks|
    ensures n > |s.documents[k].tasks| ==>
      var d := Decided(Interrupted(s, known, k, n)); d.AllTerminal? || d.phase != Decided(s).phase
  {
    if n <= |s.documents[k].tasks| {
      InterruptedWritesRepeat(s.runs, s.rows, s.documents, k, n);
    } else {
      WrittenIsNotDecided(s, known, k, n);
    }
  }

  // ---------------------------------------------------------------------------
  // The row that is left behind
  // ---------------------------------------------------------------------------

  /** Every document of the phase is there and says that the phase is over. */
  ghost predicate PhaseOver(s: State, number: int) {
    forall i :: 0 <= i < |s.documents| && s.documents[i].number == number ==>
      s.documents[i].exists_ && TerminalStatus(s.documents[i].status)
  }

  ghost predicate SameRow(s: State, t: State, number: int) {
    (number in s.rows <==> number in t.rows) && (number in s.rows ==> s.rows[number] == t.rows[number])
  }

  /** Any other step that keeps the phase over and its row as it is. */
  ghost predicate ElsewhereOnly(s: State, t: State, number: int) {
    PhaseOver(t, number) && SameRow(s, t, number)
  }

  lemma {:induction false} OverIsNotPromoted(s: State, number: int)
    requires PhaseOver(s, number) && Decided(s).Promote?
    ensures Decided(s).phase != number
  {
    var facts := FactsOf(s);
    var p := PromoteSound(facts);
    var j :| 0 <= j < |facts| && facts[j] == p;
    assert s.documents[j].number == p.number;
  }

  lemma {:induction false} PromotionLeavesRow(s: State, known: set<int>, k: nat, n: nat, number: int)
    requires k < |s.documents| && s.documents[k].number != number && PhaseOver(s, number)
    ensures PhaseOver(Interrupted(s, known, k, n), number) && SameRow(s, Interrupted(s, known, k, n), number)
  {
  }

  lemma {:induction false} ReconcilingLeavesRow(s: State, t: State, known: set<int>, number: int)
    requires Reconciled(s, t, known) && PhaseOver(s, number)
    ensures PhaseOver(t, number) && SameRow(s, t, number)
  {
    if AllHealthy(s.runs, s.documents) && Decided(s).Promote? {
      var k := DocumentOf(s.documents, Decided(s).phase);
      OverIsNotPromoted(s, number);
      PromotionLeavesRow(s, known, k, |s.documents[k].tasks| + 2, number);
    }
  }

  /** State i came from the one before it by a reconciliation, or by a step that leaves the row alone. */
  ghost predicate StepTo(states: seq<State>, known: set<int>, number: int, i: nat) {
    0 < i < |states|
    && (Reconciled(states[i - 1], states[i], known) || ElsewhereOnly(states[i - 1], states[i], number))
  }

  ghost predicate LaterStates(states: seq<State>, known: set<int>, number: int) {
    states != [] && forall i: nat :: 0 < i < |states| ==> StepTo(states, known, number, i)
  }

  /** However often it runs, reconciliation never touches the row of a phase that is over. */
  lemma {:induction false} RowStaysBehind(states: seq<State>, known: set<int>, number: int, n: nat)
    requires LaterStates(states, known, number) && PhaseOver(states[0], number) && n < |states|
    ensures PhaseOver(states[n], number) && SameRow(states[0], states[n], number)
    decreases n
  {
    if n > 0 {
      RowStaysBehind(states, known, number, n - 1);
      assert StepTo(states, known, number, n);
      if Reconciled(states[n - 1], states[n], known) {
        ReconcilingLeavesRow(states[n - 1], states[n], known, number);
      }
    }
  }

  /**
   * A promotion that stops between the document and the row: no later reconciliation ever repairs the
   * row.  As long as nobody else edits it, it says what it said before the promotion.
   */
  lemma {:induction false} LostRow(s: State, known: set<int>, k: nat, states: seq<State>, n: nat)
    requires Promotable(s, k) && LaterStates(states, known, Decided(s).phase) && n < |states|
    requires states[0] == Interrupted(s, known, k, |s.documents[k].tasks| + 1)
    ensures PhaseOver(states[n], Decided(s).phase) && SameRow(s, states[n], Decided(s).phase)
  {
    PromotedFacts(s, k);
    WrittenIsOver(s, known, k);
    RowStaysBehind(states, known, Decided(s).phase, n);
  }

  lemma {:induction false} OnlyDocument(s: State, k: nat)
    requires k < |s.documents| && DistinctBy(FactsOf(s), Number)
    ensures forall i :: 0 <= i < |s.documents| && i != k ==> s.documents[i].number != s.documents[k].number
  {
    var facts := FactsOf(s);
    forall i | 0 <= i < |s.documents| && i != k ensures s.documents[i].number != s.documents[k].number {
      NumbersDiffer(facts, i, k);
    }
  }

  lemma {:induction false} WrittenIsOver(s: State, known: set<int>, k: nat)
    requires k < |s.documents| && DistinctBy(FactsOf(s), Number) && s.documents[k].exists_
    ensures PhaseOver(Interrupted(s, known, k, |s.documents[k].tasks| + 1), s.documents[k].number)
  {
    OnlyDocument(s, k);
  }

  // ---------------------------------------------------------------------------
  // One disk on which the row is lost
  // ---------------------------------------------------------------------------

  function SettledGate(name: string): Gate {
    Gate(name, Satisfied, Some("evidence"))
  }

  function FourGates(): seq<Gate> {
    [SettledGate("changed_files"), SettledGate("tests"), SettledGate("gherkin_e2e"), SettledGate("code_review")]
  }

  lemma {:induction false} LastGateAt(gates: seq<Gate>, i: nat)
    requires i < |gates| && forall j :: i < j < |gates| ==> gates[j].name != gates[i].name
    ensures LastGate(gates, gates[i].name) == Some(gates[i])
    decreases |gates|
  {
    if i < |gates| - 1 {
      LastGateAt(gates[..|gates| - 1], i);
    }
  }

  lemma {:induction false} FourGatesSettle()
    ensures GatesSettled(FourGates())
  {
    var gates := FourGates();
    assert |"evidence"| == 8 && Text.Trimmed("evidence");
    Text.TrimTrimmed("evidence");
    assert |"changed_files"| == 13 && |"tests"| == 5 && |"gherkin_e2e"| == 11 && |"code_review"| == 11;
    assert "gherkin_e2e"[0] != "code_review"[0];
    LastGateAt(gates, 0);
    LastGateAt(gates, 1);
    LastGateAt(gates, 2);
    LastGateAt(gates, 3);
  }

  /** One phase in progress with one checked task, and its row. */
  function OnePhase(number: int, id: string, gates: seq<Gate>): State {
    State([Document(number, true, PhaseStatus.InProgress, [DiskTask(id, 0, true)], Some(gates), None)], map[], map[number := PhaseStatus.InProgress])
  }

  lemma {:induction false} SortOne<T>(x: T, key: T -> int)
    ensures SortBy([x], key) == [x]
  {
    assert multiset(SortBy([x], key)) == multiset{x};
    assert SortBy([x], key)[0] in multiset(SortBy([x], key));
  }

  lemma {:induction false} OnePhaseLedger(p: Phase, t: Task, gates: seq<Gate>)
    requires p.tasks == Some([t]) && t.checked && p.gates == Some(gates) && GatesSettled(gates)
    requires p.documentExists && p.documentStatus.InProgress? && p.featureTasksStatus.InProgress?
    ensures ReconcilePhase(p) == Promote(p.number, [t.id])
  {
    SortOne(t, Index);
    assert Ids([t]) == [t.id];
  }

  lemma {:induction false} OneIsDecided(p: Phase)
    requires !HidesWork(p)
    ensures Reconcile([p]) == if Terminal(p) then AllTerminal else ReconcilePhase(p)
  {
    SortOne(p, Number);
    assert FirstIndex([p][1..], HidesWork) == 0 && FirstIndex([p][1..], NonTerminal) == 0;
  }

  /**
   * The promotion of this phase, stopped before the row: the document says COMPLETED, the row says
   * IN_PROGRESS, and the next decision is that everything is finished.
   */
  lemma {:induction false} RowIsLost(number: int, id: string, known: set<int>)
    ensures var s := OnePhase(number, id, FourGates());
      && Promotable(s, 0)
      && var t := Interrupted(s, known, 0, 2);
      && t.documents[0].status.Completed? && t.rows == map[number := PhaseStatus.InProgress] && Decided(t) == AllTerminal
  {
    var s := OnePhase(number, id, FourGates());
    FourGatesSettle();
    OnePromotes(s, number, id);
    OneStops(s, known, number);
  }

  lemma {:induction false} OnePromotes(s: State, number: int, id: string)
    requires s == OnePhase(number, id, FourGates()) && GatesSettled(FourGates())
    ensures Promotable(s, 0)
  {
    var p := Facts(s.runs, s.rows, s.documents[0]);
    var t := Task(id, 0, true, RunOf(s.runs, number, id));
    assert TaskFacts(s.runs, number, s.documents[0].tasks) == [t];
    assert FactsOf(s) == [p];
    OneIsDecided(p);
    OnePhaseLedger(p, t, FourGates());
  }

  lemma {:induction false} OneStops(s: State, known: set<int>, number: int)
    requires |s.documents| == 1 && |s.documents[0].tasks| == 1 && Ticked(s.documents[0])
    ensures Decided(Interrupted(s, known, 0, 2)) == AllTerminal
  {
    var t := Interrupted(s, known, 0, 2);
    var p := Facts(t.runs, t.rows, t.documents[0]);
    CompletedIsFinished(t.runs, t.rows, t.documents[0]);
    assert FactsOf(t) == [p];
    OneIsDecided(p);
  }
}
