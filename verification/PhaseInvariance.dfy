/**
 * What the reconciliation decision does not depend on: the order in which phases and tasks are
 * listed, and the mirrored task-run state of a phase whose tasks are all checked.
 */
module PhaseInvariance {
  import opened Wrappers
  import opened Sorting
  import TextOrder
  import opened PhasePolicy

  /** The phase with its task ledger in index order. */
  function Ordered(p: Phase): Phase {
    if p.tasks.None? then p else p.(tasks := Some(SortBy(p.tasks.value, Index)))
  }

  function OrderedAll(phases: seq<Phase>): (r: seq<Phase>)
    ensures |r| == |phases| && forall i :: 0 <= i < |phases| ==> r[i] == Ordered(phases[i])
    decreases |phases|
  {
    if phases == [] then [] else [Ordered(phases[0])] + OrderedAll(phases[1..])
  }

  ghost predicate IndexesDistinct(p: Phase) {
    p.tasks.Some? ==> DistinctBy(p.tasks.value, Index)
  }

  /** The same phases, listed in any order, each with the same tasks, listed in any order. */
  ghost predicate Relisted(xs: seq<Phase>, ys: seq<Phase>) {
    && multiset(OrderedAll(xs)) == multiset(OrderedAll(ys))
    && (forall p :: p in xs ==> IndexesDistinct(p))
    && (forall p :: p in ys ==> IndexesDistinct(p))
  }

  /** What a decision about sorted phases is a function of. */
  lemma {:induction false} DecideCongruence(a: seq<Phase>, b: seq<Phase>)
    requires |a| == |b| && KeysOf(a, Number) == KeysOf(b, Number)
    requires FirstIndex(a, HidesWork) == FirstIndex(b, HidesWork)
    requires FirstIndex(a, NonTerminal) == FirstIndex(b, NonTerminal)
    requires FirstIndex(a, NonTerminal) < |a| ==>
      ReconcilePhase(a[FirstIndex(a, NonTerminal)]) == ReconcilePhase(b[FirstIndex(b, NonTerminal)])
    ensures Decide(a) == Decide(b)
  {
    forall i | 0 <= i < |a| ensures a[i].number == b[i].number {
      assert KeysOf(a, Number)[i] == KeysOf(b, Number)[i];
      assert Number(a[i]) == Number(b[i]);
    }
  }

  lemma {:induction false} SortTwice(tasks: seq<Task>)
    requires DistinctBy(tasks, Index)
    ensures SortBy(SortBy(tasks, Index), Index) == SortBy(tasks, Index)
  {
    SortAgrees(tasks, SortBy(tasks, Index), Index);
  }

  /** With documents, statuses, tasks and gates there, the ledger decides. */
  lemma {:induction false} DecidesByLedger(p: Phase, ordered: seq<Task>)
    requires p.tasks.Some? && p.tasks.value != [] && p.gates.Some? && ordered == SortBy(p.tasks.value, Index)
    ensures ReconcilePhase(p) == if !p.documentExists || p.documentStatus.NoStatus? || p.featureTasksStatus.NoStatus?
      then Blocked(p.number)
      else ReconcileLedger(p, p.documentStatus, p.featureTasksStatus, ordered, p.gates.value)
  {
  }

  lemma {:induction false} NoGatesDecides(p: Phase)
    requires p.tasks.Some? && p.tasks.value != [] && p.gates.None?
    ensures ReconcilePhase(p) == Blocked(p.number)
  {
  }

  lemma {:induction false} OrderedLedgerDecides(p: Phase)
    requires p.tasks.Some? && p.tasks.value != [] && p.gates.Some? && DistinctBy(p.tasks.value, Index)
    ensures ReconcilePhase(Ordered(p)) == ReconcilePhase(p)
  {
    var ordered := SortBy(p.tasks.value, Index);
    SortTwice(p.tasks.value);
    LedgerIgnoresListing(p, ordered);
    DecidesByLedger(p, ordered);
    DecidesByLedger(Ordered(p), ordered);
  }

  lemma {:induction false} OrderedPhaseDecides(p: Phase)
    requires IndexesDistinct(p)
    ensures ReconcilePhase(Ordered(p)) == ReconcilePhase(p)
  {
    if p.tasks.None? || p.tasks.value == [] {
      assert Ordered(p) == p;
    } else if p.gates.None? {
      NoGatesDecides(p);
      NoGatesDecides(Ordered(p));
    } else {
      OrderedLedgerDecides(p);
    }
  }

  lemma {:induction false} LedgerIgnoresListing(p: Phase, ordered: seq<Task>)
    requires ordered != [] && p.gates.Some?
    ensures ReconcileLedger(Ordered(p), p.documentStatus, p.featureTasksStatus, ordered, p.gates.value)
      == ReconcileLedger(p, p.documentStatus, p.featureTasksStatus, ordered, p.gates.value)
  {
  }

  lemma {:induction false} OrderedKeepsHiding(p: Phase)
    ensures HidesWork(Ordered(p)) == HidesWork(p)
    ensures NonTerminal(Ordered(p)) == NonTerminal(p)
  {
    if p.tasks.Some? {
      var tasks, ordered := p.tasks.value, SortBy(p.tasks.value, Index);
      forall t ensures t in tasks <==> t in ordered {
        TextOrder.SameElements(tasks, ordered, t);
      }
      if i :| 0 <= i < |tasks| && !tasks[i].checked {
        assert tasks[i] in ordered;
      }
      if i :| 0 <= i < |ordered| && !ordered[i].checked {
        assert ordered[i] in tasks;
      }
    }
  }

  lemma {:induction false} InsertOrdered(p: Phase, phases: seq<Phase>)
    ensures InsertBy(Ordered(p), OrderedAll(phases), Number) == OrderedAll(InsertBy(p, phases, Number))
    decreases |phases|
  {
    if phases != [] && Number(phases[0]) < Number(p) {
      InsertOrdered(p, phases[1..]);
      OrderedAllCons(phases[0], InsertBy(p, phases[1..], Number));
      assert OrderedAll(phases)[1..] == OrderedAll(phases[1..]);
    } else {
      OrderedAllCons(p, phases);
    }
  }

  lemma {:induction false} OrderedAllCons(p: Phase, phases: seq<Phase>)
    ensures OrderedAll([p] + phases) == [Ordered(p)] + OrderedAll(phases)
  {
    assert ([p] + phases)[1..] == phases;
  }

  lemma {:induction false} SortOrdered(phases: seq<Phase>)
    ensures SortBy(OrderedAll(phases), Number) == OrderedAll(SortBy(phases, Number))
    decreases |phases|
  {
    if phases != [] {
      SortOrdered(phases[1..]);
      InsertOrdered(phases[0], SortBy(phases[1..], Number));
    }
  }

  lemma {:induction false} FirstIndexOrdered(phases: seq<Phase>)
    ensures FirstIndex(OrderedAll(phases), HidesWork) == FirstIndex(phases, HidesWork)
    ensures FirstIndex(OrderedAll(phases), NonTerminal) == FirstIndex(phases, NonTerminal)
    decreases |phases|
  {
    if phases != [] {
      OrderedKeepsHiding(phases[0]);
      FirstIndexOrdered(phases[1..]);
    }
  }

  lemma {:induction false} OrderedNumbers(phases: seq<Phase>)
    ensures KeysOf(OrderedAll(phases), Number) == KeysOf(phases, Number)
  {
  }

  /** Listing each ledger in index order first changes nothing. */
  lemma {:induction false} TaskListingIgnored(input: seq<Phase>)
    requires forall p :: p in input ==> IndexesDistinct(p)
    ensures Reconcile(OrderedAll(input)) == Reconcile(input)
  {
    var phases := SortBy(input, Number);
    SortOrdered(input);
    OrderedNumbers(phases);
    FirstIndexOrdered(phases);
    var current := FirstIndex(phases, NonTerminal);
    if current < |phases| {
      TextOrder.SameElements(input, phases, phases[current]);
      OrderedPhaseDecides(phases[current]);
    }
    DecideCongruence(OrderedAll(phases), phases);
  }

  /** Listing the phases in another order changes nothing, repeated numbers included. */
  lemma {:induction false} PhaseListingIgnored(xs: seq<Phase>, ys: seq<Phase>)
    requires multiset(xs) == multiset(ys)
    ensures Reconcile(xs) == Reconcile(ys)
  {
    PermutedKeys(xs, ys, Number);
    SortedKeysAgree(xs, ys, Number);
    NoDuplicatesIff(xs);
    if DistinctBy(xs, Number) {
      SortAgrees(xs, ys, Number);
    } else {
      var a, b := SortBy(xs, Number), SortBy(ys, Number);
      var d := FirstDuplicate(KeysOf(a, Number));
      assert KeysOf(a, Number)[d] == KeysOf(b, Number)[d];
      assert a[d].number == Number(a[d]) && b[d].number == Number(b[d]);
      DuplicateBlocks(xs, d);
      DuplicateBlocks(ys, d);
    }
  }

  lemma {:induction false} DuplicateBlocks(xs: seq<Phase>, d: nat)
    requires var phases := SortBy(xs, Number); d < |phases| && FirstDuplicate(KeysOf(phases, Number)) == d
    ensures Reconcile(xs) == Blocked(SortBy(xs, Number)[d].number)
  {
  }

  /** The decision is the same for every listing order of phases and of tasks. */
  lemma {:induction false} ListingOrderIgnored(xs: seq<Phase>, ys: seq<Phase>)
    requires Relisted(xs, ys)
    ensures Reconcile(xs) == Reconcile(ys)
  {
    TaskListingIgnored(xs);
    TaskListingIgnored(ys);
    PhaseListingIgnored(OrderedAll(xs), OrderedAll(ys));
  }

  // ---------------------------------------------------------------------------
  // Interrupted promotions
  // ---------------------------------------------------------------------------

  /** The same phase apart from the mirrored task-run state. */
  ghost predicate SameDocument(p: Phase, q: Phase) {
    && q == p.(tasks := q.tasks, taskRunCount := q.taskRunCount)
    && p.tasks.Some? && q.tasks.Some? && |p.tasks.value| == |q.tasks.value|
    && forall i :: 0 <= i < |p.tasks.value| ==>
         q.tasks.value[i] == p.tasks.value[i].(persisted := q.tasks.value[i].persisted)
  }

  ghost predicate SameTasks(a: seq<Task>, b: seq<Task>) {
    |a| == |b| && forall i :: 0 <= i < |a| ==> b[i] == a[i].(persisted := b[i].persisted)
  }

  lemma {:induction false} SameTasksCons(x: Task, y: Task, a: seq<Task>, b: seq<Task>)
    requires SameTasks(a, b) && y == x.(persisted := y.persisted)
    ensures SameTasks([x] + a, [y] + b)
  {
  }

  lemma {:induction false} InsertSameTasks(x: Task, y: Task, a: seq<Task>, b: seq<Task>)
    requires SameTasks(a, b) && y == x.(persisted := y.persisted)
    ensures SameTasks(InsertBy(x, a, Index), InsertBy(y, b, Index))
    decreases |a|
  {
    if a != [] && Index(a[0]) < Index(x) {
      InsertSameTasks(x, y, a[1..], b[1..]);
      assert Index(b[0]) == Index(a[0]) && Index(y) == Index(x);
      SameTasksCons(a[0], b[0], InsertBy(x, a[1..], Index), InsertBy(y, b[1..], Index));
    } else if a != [] {
      assert Index(b[0]) == Index(a[0]) && Index(y) == Index(x);
      SameTasksCons(x, y, a, b);
    }
  }

  lemma {:induction false} SortSameTasks(a: seq<Task>, b: seq<Task>)
    requires SameTasks(a, b)
    ensures SameTasks(SortBy(a, Index), SortBy(b, Index))
    decreases |a|
  {
    if a != [] {
      SortSameTasks(a[1..], b[1..]);
      InsertSameTasks(a[0], b[0], SortBy(a[1..], Index), SortBy(b[1..], Index));
    }
  }

  /** With every task checked, the mirrored task runs do not enter the decision. */
  lemma {:induction false} RunsIgnoredWhenChecked(p: Phase, q: Phase)
    requires SameDocument(p, q) && AllChecked(p) && p.tasks.value != []
    ensures ReconcilePhase(q) == ReconcilePhase(p)
  {
    var a, b := SortBy(p.tasks.value, Index), SortBy(q.tasks.value, Index);
    SortSameTasks(p.tasks.value, q.tasks.value);
    forall t | t in q.tasks.value ensures t.checked {
      var i :| 0 <= i < |q.tasks.value| && q.tasks.value[i] == t;
      assert p.tasks.value[i] in p.tasks.value;
    }
    var a' := LedgerOrder(p);
    var b' := LedgerOrder(q);
    if p.gates.Some? {
      CheckedLedgersAgree(p, q, a, b, p.gates.value);
    }
  }

  lemma {:induction false} CheckedLedgersAgree(p: Phase, q: Phase, a: seq<Task>, b: seq<Task>, gates: seq<Gate>)
    requires SameDocument(p, q) && SameTasks(a, b) && a != []
    requires FirstIndex(a, Unchecked) == |a| && FirstIndex(b, Unchecked) == |b|
    ensures ReconcileLedger(q, q.documentStatus, q.featureTasksStatus, b, gates)
      == ReconcileLedger(p, p.documentStatus, p.featureTasksStatus, a, gates)
  {
    assert Ids(a) == Ids(b);
    var ca, cb := FirstIndex(a, StoreConflict), FirstIndex(b, StoreConflict);
    assert forall i :: 0 <= i < |a| ==> !Unchecked(a[i]) && !StoreConflict(a[i]);
    assert forall i :: 0 <= i < |b| ==> !Unchecked(b[i]) && !StoreConflict(b[i]);
  }

  /**
   * A promotion interrupted after any of its task-run writes is decided again identically:
   * whatever task-run state the promoted phase has by then, the decision is the same.
   */
  lemma {:induction false} InterruptedPromotionRepeats(before: seq<Phase>, k: nat, q: Phase)
    requires k < |before| && Reconcile(before).Promote? && before[k].number == Reconcile(before).phase
    requires SameDocument(before[k], q)
    ensures Reconcile(before[k := q]) == Reconcile(before)
  {
    var p := CurrentPhase(before);
    var promoted := PromoteSound(before);
    var i :| 0 <= i < |before| && before[i] == promoted;
    assert i == k by {
      assert Number(before[i]) == Number(before[k]);
    }
    var j :| 0 <= j < |before| && before[j] == p;
    PhaseNamesItself(p);
    assert j == k by {
      assert Number(before[j]) == Number(before[k]);
    }
    RunsIgnoredWhenChecked(p, q);
    ReplaceInSorted(before, k, q);
  }

  lemma {:induction false} PhaseNamesItself(p: Phase)
    ensures ReconcilePhase(p).phase == p.number
  {
  }

  lemma {:induction false} InsertReplaced(x: Phase, y: Phase, a: seq<Phase>, b: seq<Phase>, p: Phase, q: Phase)
    requires SameButFor(a, b, p, q) && (y == x || (x == p && y == q)) && p.number == q.number
    ensures SameButFor(InsertBy(x, a, Number), InsertBy(y, b, Number), p, q)
    decreases |a|
  {
    if a != [] && Number(a[0]) < Number(x) {
      InsertReplaced(x, y, a[1..], b[1..], p, q);
      ReplacedCons(a[0], b[0], InsertBy(x, a[1..], Number), InsertBy(y, b[1..], Number), p, q);
    } else if a != [] {
      ReplacedCons(x, y, a, b, p, q);
    }
  }

  lemma {:induction false} ReplacedCons(x: Phase, y: Phase, a: seq<Phase>, b: seq<Phase>, p: Phase, q: Phase)
    requires SameButFor(a, b, p, q) && (y == x || (x == p && y == q))
    ensures SameButFor([x] + a, [y] + b, p, q)
  {
  }

  /** The two listings agree except that some occurrences of p have become q. */
  ghost predicate SameButFor(a: seq<Phase>, b: seq<Phase>, p: Phase, q: Phase) {
    |a| == |b| && forall i :: 0 <= i < |a| ==> b[i] == a[i] || (a[i] == p && b[i] == q)
  }

  lemma {:induction false} SortReplaced(a: seq<Phase>, b: seq<Phase>, p: Phase, q: Phase)
    requires SameButFor(a, b, p, q) && p.number == q.number
    ensures SameButFor(SortBy(a, Number), SortBy(b, Number), p, q)
    decreases |a|
  {
    if a != [] {
      SortReplaced(a[1..], b[1..], p, q);
      InsertReplaced(a[0], b[0], SortBy(a[1..], Number), SortBy(b[1..], Number), p, q);
    }
  }

  lemma {:induction false} FirstReplaced(a: seq<Phase>, b: seq<Phase>, p: Phase, q: Phase)
    requires SameButFor(a, b, p, q) && !Terminal(p) && !Terminal(q)
    ensures FirstIndex(a, HidesWork) == FirstIndex(b, HidesWork)
    ensures FirstIndex(a, NonTerminal) == FirstIndex(b, NonTerminal)
    decreases |a|
  {
    if a != [] {
      FirstReplaced(a[1..], b[1..], p, q);
    }
  }

  /** Replacing an unfinished phase by one that is decided alike leaves the decision alone. */
  lemma {:induction false} ReplaceInSorted(before: seq<Phase>, k: nat, q: Phase)
    requires k < |before| && !Terminal(before[k]) && !Terminal(q) && q.number == before[k].number
    requires ReconcilePhase(q) == ReconcilePhase(before[k])
    ensures Reconcile(before[k := q]) == Reconcile(before)
  {
    var after := before[k := q];
    var a, b := SortBy(before, Number), SortBy(after, Number);
    SortReplaced(before, after, before[k], q);
    FirstReplaced(a, b, before[k], q);
    ReplacedNumbers(a, b, before[k], q);
    DecideCongruence(a, b);
  }

  lemma {:induction false} ReplacedNumbers(a: seq<Phase>, b: seq<Phase>, p: Phase, q: Phase)
    requires SameButFor(a, b, p, q) && p.number == q.number
    ensures KeysOf(a, Number) == KeysOf(b, Number)
  {
  }
}
