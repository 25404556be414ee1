module PhaseAdapter {
  /**
   * The disk and store side of reconciliation: facts are collected document by document, a stale
   * task-run mirror is healed before any decision, and a promotion is written task runs first,
   * then the phase document, then the FeatureTasks row.
   */

  import opened Wrappers
  import opened Sorting
  import TextOrder
  import opened PhaseStatuses
  import opened PhasePolicy
  import opened PhaseInvariance
  import opened PhaseRun

  datatype DiskTask = DiskTask(id: string, index: int, checked: bool)

  /** A phase document; tasks are what the ledger reader returns for an existing document. */
  datatype Document = Document(
    number: int,
    exists_: bool,
    status: PhaseStatus,
    tasks: seq<DiskTask>,
    gates: Option<seq<Gate>>,
    reviewRequired: Option<bool>)

  type Runs = map<(int, string), RunStatus>

  type Rows = map<int, PhaseStatus>

  function RunOf(runs: Runs, number: int, id: string): Option<RunStatus> {
    if (number, id) in runs then Some(runs[(number, id)]) else None
  }

  /** The ledger says unchecked, the mirror says done. */
  predicate Stale(runs: Runs, number: int, t: DiskTask) {
    !t.checked && RunOf(runs, number, t.id).Some? && RunOf(runs, number, t.id).value.Terminal()
  }

  function TaskFacts(runs: Runs, number: int, tasks: seq<DiskTask>): (r: seq<Task>)
    ensures |r| == |tasks|
    ensures forall i :: 0 <= i < |tasks| ==>
      r[i] == Task(tasks[i].id, tasks[i].index, tasks[i].checked, RunOf(runs, number, tasks[i].id))
    decreases |tasks|
  {
    if tasks == [] then []
    else [Task(tasks[0].id, tasks[0].index, tasks[0].checked, RunOf(runs, number, tasks[0].id))]
         + TaskFacts(runs, number, tasks[1..])
  }

  function RunCount(runs: Runs, number: int): nat {
    |KeysOfPhase(runs, number)|
  }

  function KeysOfPhase(runs: Runs, number: int): set<(int, string)> {
    set key: (int, string) | key in runs && key.0 == number
  }

  function Facts(runs: Runs, rows: Rows, d: Document): Phase {
    Phase(
      d.number,
      d.exists_,
      if d.exists_ then d.status else NoStatus,
      if d.number in rows then rows[d.number] else NoStatus,
      if d.exists_ then Some(TaskFacts(runs, d.number, d.tasks)) else None,
      if d.exists_ then RunCount(runs, d.number) else 0,
      if d.exists_ then d.gates else None,
      d.reviewRequired)
  }

  function AllFacts(runs: Runs, rows: Rows, documents: seq<Document>): (r: seq<Phase>)
    ensures |r| == |documents| && forall i :: 0 <= i < |documents| ==> r[i] == Facts(runs, rows, documents[i])
    decreases |documents|
  {
    if documents == [] then [] else [Facts(runs, rows, documents[0])] + AllFacts(runs, rows, documents[1..])
  }

  lemma {:induction false} AllFactsAppend(runs: Runs, rows: Rows, documents: seq<Document>, d: Document)
    ensures AllFacts(runs, rows, documents + [d]) == AllFacts(runs, rows, documents) + [Facts(runs, rows, d)]
  {
  }

  /** The first stale task of a ledger, or its length. */
  function FirstStale(runs: Runs, number: int, tasks: seq<DiskTask>): (n: nat)
    ensures n <= |tasks|
    ensures forall i :: 0 <= i < n ==> !Stale(runs, number, tasks[i])
    ensures n < |tasks| ==> Stale(runs, number, tasks[n])
    decreases |tasks|
  {
    if tasks == [] || Stale(runs, number, tasks[0]) then 0 else 1 + FirstStale(runs, number, tasks[1..])
  }

  predicate Healthy(runs: Runs, d: Document) {
    d.exists_ ==> FirstStale(runs, d.number, d.tasks) == |d.tasks|
  }

  /** The runs after recording completion for the checked tasks of a ledger, in ledger order. */
  function Recorded(runs: Runs, number: int, tasks: seq<DiskTask>): Runs
    decreases |tasks|
  {
    if tasks == [] then runs
    else
      var last := tasks[|tasks| - 1];
      var before := Recorded(runs, number, tasks[..|tasks| - 1]);
      if last.checked then before[(number, last.id) := RunCompleted] else before
  }

  // ---------------------------------------------------------------------------
  // The adapter
  // ---------------------------------------------------------------------------

  class Disk {
    var documents: seq<Document>
    var runs: Runs
    var rows: Rows
    /** Phases with exactly one row in the FeatureTasks inventory. */
    const replaceableRows: set<int>

    constructor (documents: seq<Document>, runs: Runs, rows: Rows, replaceableRows: set<int>)
      ensures this.documents == documents && this.runs == runs && this.rows == rows
      ensures this.replaceableRows == replaceableRows
    {
      this.documents, this.runs, this.rows := documents, runs, rows;
      this.replaceableRows := replaceableRows;
    }

    /** Collects facts until a stale mirror is found; resets that mirror and stops there. */
    method Collect() returns (facts: seq<Phase>, healed: Option<int>)
      modifies this`runs
      ensures healed.None? ==>
        runs == old(runs) && facts == AllFacts(runs, rows, documents) && AllHealthy(runs, documents)
      ensures healed.Some? ==> HealedFirst(old(runs), runs, documents, healed.value)
    {
      facts, healed := [], None;
      var i := 0;
      while i < |documents|
        invariant 0 <= i <= |documents|
        invariant runs == old(runs)
        invariant facts == AllFacts(runs, rows, documents[..i])
        invariant forall h :: 0 <= h < i ==> Healthy(runs, documents[h])
      {
        var d := documents[i];
        if d.exists_ {
          var j := FirstStale(runs, d.number, d.tasks);
          if j < |d.tasks| {
            runs := runs[(d.number, d.tasks[j].id) := NotStarted];
            healed := Some(d.number);
            assert HealedAt(old(runs), runs, documents, i);
            return;
          }
        }
        AllFactsAppend(runs, rows, documents[..i], d);
        assert documents[..i + 1] == documents[..i] + [d];
        facts := facts + [Facts(runs, rows, d)];
        i := i + 1;
      }
      assert documents[..i] == documents;
    }

    /** Records completion for every checked task of the ledger that is not recorded yet. */
    method RecordCompleted(number: int, tasks: seq<DiskTask>)
      modifies this`runs
      ensures runs == Recorded(old(runs), number, tasks)
    {
      var i := 0;
      while i < |tasks|
        invariant 0 <= i <= |tasks|
        invariant runs == Recorded(old(runs), number, tasks[..i])
      {
        var t := tasks[i];
        assert tasks[..i + 1][..i] == tasks[..i];
        if t.checked && RunOf(runs, number, t.id) != Some(RunCompleted) {
          runs := runs[(number, t.id) := RunCompleted];
        } else if t.checked {
          assert runs == runs[(number, t.id) := RunCompleted];
        }
        i := i + 1;
      }
      assert tasks[..i] == tasks;
    }

    /** The three writes of a promotion, in their order. */
    method WritePromotion(k: nat)
      requires k < |documents|
      modifies this
      ensures Now() == Interrupted(old(Now()), replaceableRows, k, |old(documents)[k].tasks| + 2)
    {
      var number, tasks := documents[k].number, documents[k].tasks;
      RecordCompleted(number, tasks);
      documents := documents[k := documents[k].(status := Completed)];
      if number in replaceableRows {
        rows := rows[number := Completed];
      }
      assert tasks[..|tasks|] == tasks;
    }

    /**
     * One reconciliation.  Either one stale mirror was healed, or the decision is the policy's
     * over all facts; only a promotion writes, and it writes exactly the promoted phase.
     */
    method Reconcile() returns (decision: Decision, changed: bool)
      modifies this
      ensures Reconciled(old(Now()), Now(), replaceableRows)
      ensures AllHealthy(old(runs), old(documents)) ==>
        decision == Decided(old(Now())) && (changed <==> decision.Promote?)
      ensures !AllHealthy(old(runs), old(documents)) ==> decision.Initialize? && changed
    {
      var facts, healed := Collect();
      changed := healed.Some?;
      if healed.Some? {
        HealingLowersStaleCount(old(runs), runs, documents, healed.value);
        decision := Initialize(healed.value);
        return;
      }
      decision := PhasePolicy.Reconcile(facts);
      if decision.Promote? {
        PromotedDocument(runs, rows, documents);
        WritePromotion(DocumentOf(documents, decision.phase));
        changed := true;
      }
    }

    function Now(): State
      reads this
    {
      State(documents, runs, rows)
    }
  }

  datatype State = State(documents: seq<Document>, runs: Runs, rows: Rows)

  function FactsOf(s: State): seq<Phase> {
    AllFacts(s.runs, s.rows, s.documents)
  }

  function Decided(s: State): Decision {
    PhasePolicy.Reconcile(FactsOf(s))
  }

  /**
   * The state when the promotion of document k stops after n of its writes: one for each task of the
   * ledger, then the document, then the row.
   */
  function Interrupted(s: State, known: set<int>, k: nat, n: nat): State
    requires k < |s.documents|
  {
    var d := s.documents[k];
    State(
      if n > |d.tasks| then s.documents[k := d.(status := Completed)] else s.documents,
      Recorded(s.runs, d.number, if n <= |d.tasks| then d.tasks[..n] else d.tasks),
      if n > |d.tasks| + 1 && d.number in known then s.rows[d.number := Completed] else s.rows)
  }

  /** What one reconciliation makes of the disk and the store. */
  ghost predicate Reconciled(s: State, t: State, known: set<int>) {
    if !AllHealthy(s.runs, s.documents) then
      t.documents == s.documents && t.rows == s.rows && StaleCount(t.runs, t.documents) < StaleCount(s.runs, s.documents)
    else if Decided(s).Promote? then
      var k := DocumentOf(s.documents, Decided(s).phase);
      k < |s.documents| && t == Interrupted(s, known, k, |s.documents[k].tasks| + 2)
    else t == s
  }

  /** The first document of a phase number, or the length. */
  function DocumentOf(documents: seq<Document>, number: int): (k: nat)
    ensures k <= |documents|
    ensures k < |documents| ==> documents[k].number == number
    ensures forall i :: 0 <= i < k ==> documents[i].number != number
    decreases |documents|
  {
    if documents == [] || documents[0].number == number then 0 else 1 + DocumentOf(documents[1..], number)
  }

  lemma {:induction false} PromotedDocument(runs: Runs, rows: Rows, documents: seq<Document>)
    requires PhasePolicy.Reconcile(AllFacts(runs, rows, documents)).Promote?
    ensures DocumentOf(documents, PhasePolicy.Reconcile(AllFacts(runs, rows, documents)).phase) < |documents|
  {
    var facts := AllFacts(runs, rows, documents);
    var p := PromoteSound(facts);
    var j :| 0 <= j < |facts| && facts[j] == p;
    assert documents[j].number == p.number;
  }

  ghost predicate AllHealthy(runs: Runs, documents: seq<Document>) {
    forall i :: 0 <= i < |documents| ==> Healthy(runs, documents[i])
  }

  /** The first stale mirror of document k, all earlier documents being healthy, was reset. */
  ghost predicate HealedAt(before: Runs, after: Runs, documents: seq<Document>, k: nat) {
    && k < |documents|
    && documents[k].exists_
    && (forall i :: 0 <= i < k ==> Healthy(before, documents[i]))
    && var j := FirstStale(before, documents[k].number, documents[k].tasks);
    && j < |documents[k].tasks|
    && after == before[(documents[k].number, documents[k].tasks[j].id) := NotStarted]
  }

  ghost predicate HealedFirst(before: Runs, after: Runs, documents: seq<Document>, number: int) {
    exists k: nat :: HealedAt(before, after, documents, k) && documents[k].number == number
  }

  lemma {:induction false} HealingLowersStaleCount(before: Runs, after: Runs, documents: seq<Document>, number: int)
    requires HealedFirst(before, after, documents, number)
    ensures StaleCount(after, documents) < StaleCount(before, documents)
    ensures !AllHealthy(before, documents)
  {
    var k: nat :| HealedAt(before, after, documents, k) && documents[k].number == number;
    ResetLowersStaleCount(before, documents, k, FirstStale(before, documents[k].number, documents[k].tasks));
    assert !Healthy(before, documents[k]);
  }

  // ---------------------------------------------------------------------------
  // Healing terminates
  // ---------------------------------------------------------------------------

  function StaleIn(runs: Runs, number: int, tasks: seq<DiskTask>): nat
    decreases |tasks|
  {
    if tasks == [] then 0
    else (if Stale(runs, number, tasks[0]) then 1 else 0) + StaleIn(runs, number, tasks[1..])
  }

  /** How many unchecked tasks have a mirror that claims they are done. */
  function StaleCount(runs: Runs, documents: seq<Document>): nat
    decreases |documents|
  {
    if documents == [] then 0
    else (if documents[0].exists_ then StaleIn(runs, documents[0].number, documents[0].tasks) else 0)
         + StaleCount(runs, documents[1..])
  }

  lemma {:induction false} ResetNeverRaises(runs: Runs, key: (int, string), number: int, tasks: seq<DiskTask>)
    ensures StaleIn(runs[key := NotStarted], number, tasks) <= StaleIn(runs, number, tasks)
    decreases |tasks|
  {
    if tasks != [] {
      ResetNeverRaises(runs, key, number, tasks[1..]);
    }
  }

  lemma {:induction false} ResetLowers(runs: Runs, number: int, tasks: seq<DiskTask>, j: nat)
    requires j < |tasks| && Stale(runs, number, tasks[j])
    ensures StaleIn(runs[(number, tasks[j].id) := NotStarted], number, tasks) < StaleIn(runs, number, tasks)
    decreases |tasks|
  {
    if j > 0 {
      ResetLowers(runs, number, tasks[1..], j - 1);
    } else {
      ResetNeverRaises(runs, (number, tasks[0].id), number, tasks[1..]);
    }
  }

  lemma {:induction false} ResetNeverRaisesCount(runs: Runs, key: (int, string), documents: seq<Document>)
    ensures StaleCount(runs[key := NotStarted], documents) <= StaleCount(runs, documents)
    decreases |documents|
  {
    if documents != [] {
      ResetNeverRaises(runs, key, documents[0].number, documents[0].tasks);
      ResetNeverRaisesCount(runs, key, documents[1..]);
    }
  }

  /** Each reset removes at least one stale mirror and adds none, so resets cannot go on for ever. */
  lemma {:induction false} ResetLowersStaleCount(runs: Runs, documents: seq<Document>, k: nat, j: nat)
    requires k < |documents| && documents[k].exists_ && j < |documents[k].tasks|
    requires Stale(runs, documents[k].number, documents[k].tasks[j])
    ensures StaleCount(runs[(documents[k].number, documents[k].tasks[j].id) := NotStarted], documents)
      < StaleCount(runs, documents)
    decreases |documents|
  {
    var key := (documents[k].number, documents[k].tasks[j].id);
    if k > 0 {
      ResetNeverRaises(runs, key, documents[0].number, documents[0].tasks);
      ResetLowersStaleCount(runs, documents[1..], k - 1, j);
    } else {
      ResetLowers(runs, documents[0].number, documents[0].tasks, j);
      ResetNeverRaisesCount(runs, key, documents[1..]);
    }
  }

  // ---------------------------------------------------------------------------
  // The conflict block is unreachable, and interrupted promotions repeat
  // ---------------------------------------------------------------------------

  /** Once nothing is stale, no fact the policy sees has an unchecked task with a finished mirror. */
  lemma {:induction false} ConflictBlockUnreachable(runs: Runs, rows: Rows, d: Document)
    requires Healthy(runs, d)
    ensures var p := Facts(runs, rows, d);
      p.tasks.Some? ==>
        FirstIndex(SortBy(p.tasks.value, Index), StoreConflict) == |SortBy(p.tasks.value, Index)|
  {
    if d.exists_ {
      var tasks := TaskFacts(runs, d.number, d.tasks);
      var ordered := SortBy(tasks, Index);
      forall c | 0 <= c < |ordered| ensures !StoreConflict(ordered[c]) {
        TextOrder.SameElements(tasks, ordered, ordered[c]);
        var i :| 0 <= i < |tasks| && tasks[i] == ordered[c];
        assert !Stale(runs, d.number, d.tasks[i]);
      }
    }
  }

  lemma {:induction false} RecordedElsewhere(runs: Runs, number: int, tasks: seq<DiskTask>, other: int, id: string)
    requires other != number
    ensures RunOf(Recorded(runs, number, tasks), other, id) == RunOf(runs, other, id)
    decreases |tasks|
  {
    if tasks != [] {
      RecordedElsewhere(runs, number, tasks[..|tasks| - 1], other, id);
    }
  }

  lemma {:induction false} RecordedElsewhereCount(runs: Runs, number: int, tasks: seq<DiskTask>, other: int)
    requires other != number
    ensures RunCount(Recorded(runs, number, tasks), other) == RunCount(runs, other)
    decreases |tasks|
  {
    if tasks != [] {
      var before := Recorded(runs, number, tasks[..|tasks| - 1]);
      var last := tasks[|tasks| - 1];
      RecordedElsewhereCount(runs, number, tasks[..|tasks| - 1], other);
      var after := before[(number, last.id) := RunCompleted];
      assert KeysOfPhase(after, other) == KeysOfPhase(before, other);
    }
  }

  lemma {:induction false} RecordedLeavesOthers(runs: Runs, rows: Rows, number: int, tasks: seq<DiskTask>, d: Document)
    requires d.number != number
    ensures Facts(Recorded(runs, number, tasks), rows, d) == Facts(runs, rows, d)
  {
    RecordedElsewhereCount(runs, number, tasks, d.number);
    var after := Recorded(runs, number, tasks);
    forall i | 0 <= i < |d.tasks|
      ensures TaskFacts(after, d.number, d.tasks)[i] == TaskFacts(runs, d.number, d.tasks)[i]
    {
      RecordedElsewhere(runs, number, tasks, d.number, d.tasks[i].id);
    }
    assert TaskFacts(after, d.number, d.tasks) == TaskFacts(runs, d.number, d.tasks);
  }

  /**
   * A promotion that stopped after any number of its task-run writes is decided again as the
   * same promotion, with nothing stale in between for the promoted phase.
   */
  lemma {:induction false} InterruptedWritesRepeat(runs: Runs, rows: Rows, documents: seq<Document>, k: nat, written: nat)
    requires PhasePolicy.Reconcile(AllFacts(runs, rows, documents)).Promote?
    requires k < |documents| && documents[k].number == PhasePolicy.Reconcile(AllFacts(runs, rows, documents)).phase
    requires written <= |documents[k].tasks|
    ensures var runs' := Recorded(runs, documents[k].number, documents[k].tasks[..written]);
      PhasePolicy.Reconcile(AllFacts(runs', rows, documents)) == PhasePolicy.Reconcile(AllFacts(runs, rows, documents))
  {
    var runs' := Recorded(runs, documents[k].number, documents[k].tasks[..written]);
    var before, after := AllFacts(runs, rows, documents), AllFacts(runs', rows, documents);
    var q := Facts(runs', rows, documents[k]);
    PromotedExists(before, k);
    forall i | 0 <= i < |documents| && i != k ensures after[i] == before[i] {
      NumbersDiffer(before, i, k);
      RecordedLeavesOthers(runs, rows, documents[k].number, documents[k].tasks[..written], documents[i]);
    }
    assert after == before[k := q];
    assert SameDocument(before[k], q);
    InterruptedPromotionRepeats(before, k, q);
  }

  lemma {:induction false} PromotedExists(phases: seq<Phase>, k: nat)
    requires PhasePolicy.Reconcile(phases).Promote?
    requires k < |phases| && phases[k].number == PhasePolicy.Reconcile(phases).phase
    ensures DistinctBy(phases, Number) && phases[k].tasks.Some?
  {
    var current := CurrentPhase(phases);
    var p := PromoteSound(phases);
    var i :| 0 <= i < |phases| && phases[i] == p;
    if i != k {
      NumbersDiffer(phases, i, k);
    }
  }
}
