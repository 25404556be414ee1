module PhaseQueue {
  /**
   * From an accepted contract to the work that is done: the scanned phases in contract order, and
   * the task queue of a phase.
   */

  import opened Wrappers
  import opened ContractReading
  import opened PhaseContract
  import O = OrderedTasks
  import TextOrder

  // ---------------------------------------------------------------------------
  // Scanned phases in contract order
  // ---------------------------------------------------------------------------

  /** A phase document found on disk, under its path relative to the feature folder. */
  datatype Scanned = Scanned(document: string, content: string)

  /** The scanned phase under a path: a later phase with the same path replaces an earlier one. */
  function ByDocument(phases: seq<Scanned>, document: string): (r: Option<Scanned>)
    ensures r.Some? ==> r.value in phases && r.value.document == document
    ensures r == None <==> forall p :: p in phases ==> p.document != document
    decreases |phases|
  {
    if phases == [] then None
    else
      var last := phases[|phases| - 1];
      assert phases == phases[..|phases| - 1] + [last];
      if last.document == document then Some(last) else ByDocument(phases[..|phases| - 1], document)
  }

  predicate Matches(contract: seq<Phase>, phases: seq<Scanned>) {
    && (forall i :: 0 <= i < |contract| ==> ByDocument(phases, contract[i].document).Some?)
    && (forall p :: p in phases ==> exists i :: 0 <= i < |contract| && contract[i].document == p.document)
  }

  /** Err stands for the interface mismatch error. */
  function OrderByContract(contract: Option<seq<Phase>>, phases: seq<Scanned>): Result<seq<Scanned>, ()> {
    if contract == None then Ok(phases)
    else if !Matches(contract.value, phases) then Err(())
    else Ok(seq(|contract.value|, i requires 0 <= i < |contract.value| => ByDocument(phases, contract.value[i].document).value))
  }

  ghost predicate DistinctDocuments(phases: seq<Scanned>) {
    forall i, j :: 0 <= i < j < |phases| ==> phases[i].document != phases[j].document
  }

  lemma {:induction false} CountAtMostOne(phases: seq<Scanned>, p: Scanned)
    requires DistinctDocuments(phases)
    ensures multiset(phases)[p] == if p in phases then 1 else 0
    decreases |phases|
  {
    if phases != [] {
      var last := phases[|phases| - 1];
      var rest := phases[..|phases| - 1];
      assert phases == rest + [last];
      CountAtMostOne(rest, p);
      assert multiset(phases)[p] == multiset(rest)[p] + if p == last then 1 else 0;
      assert last !in rest;
    }
  }

  lemma {:induction false} ByDocumentUnique(phases: seq<Scanned>, p: Scanned)
    requires DistinctDocuments(phases) && p in phases
    ensures ByDocument(phases, p.document) == Some(p)
  {
    var q := ByDocument(phases, p.document);
    var i :| 0 <= i < |phases| && phases[i] == p;
    var j :| 0 <= j < |phases| && Some(phases[j]) == q;
  }

  ghost predicate DocumentsOf(contract: seq<Phase>) {
    forall i, j :: 0 <= i < j < |contract| ==> contract[i].document != contract[j].document
  }

  lemma {:induction false} EveryPhaseOrdered(contract: seq<Phase>, phases: seq<Scanned>, p: Scanned)
    requires OrderByContract(Some(contract), phases).Ok? && DistinctDocuments(phases)
    ensures p in OrderByContract(Some(contract), phases).value <==> p in phases
  {
    var r := OrderByContract(Some(contract), phases).value;
    if p in phases {
      var i :| 0 <= i < |contract| && contract[i].document == p.document;
      ByDocumentUnique(phases, p);
      assert r[i] == p;
    }
  }

  /**
   * Position i of the result is the document the contract names there.  Every scanned phase is kept
   * exactly when the scanned paths are distinct; of two phases with the same path only the later one is.
   */
  lemma {:induction false} OrderPermutesIff(contract: seq<Phase>, phases: seq<Scanned>)
    requires DocumentsOf(contract) && OrderByContract(Some(contract), phases).Ok?
    ensures var r := OrderByContract(Some(contract), phases).value;
      |r| == |contract| && forall i :: 0 <= i < |r| ==> r[i].document == contract[i].document && r[i] in phases
    ensures multiset(OrderByContract(Some(contract), phases).value) == multiset(phases) <==> DistinctDocuments(phases)
  {
    var r := OrderByContract(Some(contract), phases).value;
    assert DistinctDocuments(r);
    if DistinctDocuments(phases) {
      forall p ensures multiset(r)[p] == multiset(phases)[p] {
        EveryPhaseOrdered(contract, phases, p);
        CountAtMostOne(r, p);
        CountAtMostOne(phases, p);
      }
    }
    if multiset(r) == multiset(phases) {
      forall i, j | 0 <= i < j < |phases| ensures phases[i].document != phases[j].document {
        SameDocumentCounts(r, phases, i, j);
      }
    }
  }

  lemma {:induction false} SameDocumentCounts(r: seq<Scanned>, phases: seq<Scanned>, i: nat, j: nat)
    requires DistinctDocuments(r) && multiset(r) == multiset(phases) && i < j < |phases|
    ensures phases[i].document != phases[j].document
  {
    assert phases[i] in multiset(phases) && phases[j] in multiset(phases);
    var a :| 0 <= a < |r| && r[a] == phases[i];
    var b :| 0 <= b < |r| && r[b] == phases[j];
    CountAtMostOne(r, phases[i]);
    if phases[i] == phases[j] {
      TextOrder.TwoCounted(phases, i, j);
    }
  }

  /** Scanned phase k is the last one with this path. */
  ghost predicate LastWith(phases: seq<Scanned>, document: string, k: nat) {
    k < |phases| && phases[k].document == document && forall j :: k < j < |phases| ==> phases[j].document != document
  }

  ghost predicate LastUnder(phases: seq<Scanned>, document: string, p: Scanned) {
    exists k: nat :: LastWith(phases, document, k) && p == phases[k]
  }

  lemma {:induction false} LastPosition(phases: seq<Scanned>, document: string) returns (k: nat)
    requires ByDocument(phases, document).Some?
    ensures LastWith(phases, document, k) && ByDocument(phases, document) == Some(phases[k])
    decreases |phases|
  {
    var last := |phases| - 1;
    var rest := phases[..last];
    if phases[last].document == document {
      k := last;
    } else {
      k := LastPosition(rest, document);
      assert rest[k] == phases[k];
      forall j | k < j < |phases| ensures phases[j].document != document {
        if j < last {
          assert rest[j] == phases[j];
        }
      }
    }
  }

  ghost predicate Found(phases: seq<Scanned>, document: string) {
    exists k :: 0 <= k < |phases| && phases[k].document == document
  }

  ghost predicate Contracted(contract: seq<Phase>, document: string) {
    exists i :: 0 <= i < |contract| && contract[i].document == document
  }

  lemma {:induction false} FoundIff(phases: seq<Scanned>, document: string)
    ensures ByDocument(phases, document).Some? <==> Found(phases, document)
  {
    if Found(phases, document) {
      var k :| 0 <= k < |phases| && phases[k].document == document;
      assert phases[k] in phases;
    }
  }

  /** Contract and scan name the same documents. */
  ghost predicate SameDocuments(contract: seq<Phase>, phases: seq<Scanned>) {
    && (forall i :: 0 <= i < |contract| ==> Found(phases, contract[i].document))
    && (forall k :: 0 <= k < |phases| ==> Contracted(contract, phases[k].document))
  }

  lemma {:induction false} MatchesIff(contract: seq<Phase>, phases: seq<Scanned>)
    ensures Matches(contract, phases) <==> SameDocuments(contract, phases)
  {
    forall i | 0 <= i < |contract| ensures ByDocument(phases, contract[i].document).Some? <==> Found(phases, contract[i].document) {
      FoundIff(phases, contract[i].document);
    }
    if Matches(contract, phases) {
      forall k | 0 <= k < |phases| ensures Contracted(contract, phases[k].document) {
        assert phases[k] in phases;
      }
    }
  }

  /**
   * Without a contract the scan stays as it is; with one, contract and scan must name the same documents,
   * and each position gets the last phase scanned under its path.
   */
  lemma {:induction false} OrderIff(contract: seq<Phase>, phases: seq<Scanned>)
    ensures OrderByContract(None, phases) == Ok(phases)
    ensures OrderByContract(Some(contract), phases).Ok? <==> SameDocuments(contract, phases)
    ensures OrderByContract(Some(contract), phases).Ok? ==>
      var r := OrderByContract(Some(contract), phases).value;
      |r| == |contract| && forall i :: 0 <= i < |r| ==> LastUnder(phases, contract[i].document, r[i])
  {
    MatchesIff(contract, phases);
    if OrderByContract(Some(contract), phases).Ok? {
      forall i | 0 <= i < |contract|
        ensures LastUnder(phases, contract[i].document, ByDocument(phases, contract[i].document).value)
      {
        var k := LastPosition(phases, contract[i].document);
      }
    }
  }

  // ---------------------------------------------------------------------------
  // The task queue of a phase
  // ---------------------------------------------------------------------------

  function MapTaskExecutor(kind: Kind): O.Executor {
    match kind
    case CodeReview => O.CodeReview
    case Verification => O.Verification
    case DevelopmentValidation => O.Verification
    case FinalValidation => O.Verification
    case GitCommit => O.GitCommit
    case GitPush => O.GitPush
    case Agent => O.Agent
    case Work => O.Agent
  }

  predicate ReviewApplies(task: TaskEntry, productionCodeChanged: bool) {
    task.condition == Some(Always) || (task.condition == Some(ProductionCodeChanges) && productionCodeChanged)
  }

  function ToOrderedTasks(tasks: seq<TaskEntry>, productionCodeChanged: bool): seq<O.Task>
    decreases |tasks|
  {
    if tasks == [] then []
    else
      (if tasks[0].kind != CodeReview || ReviewApplies(tasks[0], productionCodeChanged)
       then [O.Task(tasks[0].id, MapTaskExecutor(tasks[0].kind), tasks[0].required)]
       else [])
      + ToOrderedTasks(tasks[1..], productionCodeChanged)
  }

  /** Everything but a review is queued; a review only under its condition. */
  predicate Admitted(t: TaskEntry, changed: bool) {
    || t.kind != CodeReview
    || t.condition == Some(Always)
    || (t.condition == Some(ProductionCodeChanges) && changed)
  }

  /** The queue entry of a contract task: its id, its required flag, and the executor of its kind. */
  predicate EntryOf(q: O.Task, t: TaskEntry) {
    && q.id == t.id && q.required == t.required
    && (q.executor == O.CodeReview <==> t.kind == CodeReview)
    && (q.executor == O.Verification <==>
          t.kind == Verification || t.kind == DevelopmentValidation || t.kind == FinalValidation)
    && (q.executor == O.GitCommit <==> t.kind == GitCommit)
    && (q.executor == O.GitPush <==> t.kind == GitPush)
    && (q.executor == O.Agent <==> t.kind == Agent || t.kind == Work)
  }

  /** Queue position i holds contract task at[i]; the positions rise, and hit exactly the admitted tasks. */
  ghost predicate Follows(queue: seq<O.Task>, tasks: seq<TaskEntry>, changed: bool, at: seq<nat>) {
    && |at| == |queue|
    && (forall i :: 0 <= i < |at| ==> at[i] < |tasks| && EntryOf(queue[i], tasks[at[i]]))
    && (forall i, j :: 0 <= i < j < |at| ==> at[i] < at[j])
    && (forall k :: 0 <= k < |tasks| ==> (Admitted(tasks[k], changed) <==> k in at))
  }

  /** The same for the tasks from a position on. */
  ghost predicate FollowsFrom(queue: seq<O.Task>, tasks: seq<TaskEntry>, changed: bool, at: seq<nat>, from: nat) {
    && |at| == |queue|
    && (forall i :: 0 <= i < |at| ==> from <= at[i] < |tasks| && EntryOf(queue[i], tasks[at[i]]))
    && (forall i, j :: 0 <= i < j < |at| ==> at[i] < at[j])
    && (forall k :: from <= k < |tasks| ==> (Admitted(tasks[k], changed) <==> k in at))
  }

  lemma {:induction false} FollowsPrepend(queue: seq<O.Task>, q: O.Task, tasks: seq<TaskEntry>, changed: bool, at: seq<nat>, from: nat)
    requires FollowsFrom(queue, tasks, changed, at, from + 1) && from < |tasks|
    requires Admitted(tasks[from], changed) && EntryOf(q, tasks[from])
    ensures FollowsFrom([q] + queue, tasks, changed, [from] + at, from)
  {
    forall k | from < k < |tasks| ensures k in [from] + at <==> k in at {
    }
  }

  lemma {:induction false} FollowsSkip(queue: seq<O.Task>, tasks: seq<TaskEntry>, changed: bool, at: seq<nat>, from: nat)
    requires FollowsFrom(queue, tasks, changed, at, from + 1) && from < |tasks| && !Admitted(tasks[from], changed)
    ensures FollowsFrom(queue, tasks, changed, at, from)
  {
  }

  lemma {:induction false} QueueFollowsFrom(tasks: seq<TaskEntry>, changed: bool, from: nat) returns (at: seq<nat>)
    requires from <= |tasks|
    ensures FollowsFrom(ToOrderedTasks(tasks[from..], changed), tasks, changed, at, from)
    decreases |tasks| - from
  {
    at := [];
    if from < |tasks| {
      var t := tasks[from];
      at := QueueFollowsFrom(tasks, changed, from + 1);
      var queue := ToOrderedTasks(tasks[from + 1..], changed);
      assert tasks[from..][0] == t && tasks[from..][1..] == tasks[from + 1..];
      if Admitted(t, changed) {
        FollowsPrepend(queue, O.Task(t.id, MapTaskExecutor(t.kind), t.required), tasks, changed, at, from);
        at := [from] + at;
      } else {
        FollowsSkip(queue, tasks, changed, at, from);
        assert [] + queue == queue;
      }
    }
  }

  /** The queue holds the admitted tasks of the contract, in contract order, each with its id, executor and required flag. */
  lemma {:induction false} QueueFollowsContract(tasks: seq<TaskEntry>, changed: bool) returns (at: seq<nat>)
    ensures Follows(ToOrderedTasks(tasks, changed), tasks, changed, at)
  {
    at := QueueFollowsFrom(tasks, changed, 0);
    assert tasks[0..] == tasks;
  }

  /** The state of a contract task after a run of the phase's queue. */
  function StateAfter(tasks: seq<TaskEntry>, changed: bool, events: seq<O.Event>, k: nat): O.TaskState
    requires k < |tasks|
  {
    O.StateOf(O.Run(ToOrderedTasks(tasks, changed), events), tasks[k].id)
  }

  /**
   * After any events, the settled tasks are a prefix of the admitted tasks of the contract, in contract
   * order; what is selected or blocked is the first one that is not settled, nothing after it was touched,
   * and the phase is complete exactly when all are settled.
   */
  lemma {:induction false} ContractTasksSettleInOrder(tasks: seq<TaskEntry>, changed: bool, events: seq<O.Event>)
    requires DistinctTaskIds(tasks)
    ensures forall j: nat, k: nat ::
      (j < k < |tasks| && Admitted(tasks[j], changed) && Admitted(tasks[k], changed)
       && O.Settled(StateAfter(tasks, changed, events, k))) ==> O.Settled(StateAfter(tasks, changed, events, j))
    ensures var queue := ToOrderedTasks(tasks, changed);
      var next := O.SelectNext(queue, O.Run(queue, events));
      if next == O.PhaseComplete then
        forall k: nat :: k < |tasks| && Admitted(tasks[k], changed) ==> O.Settled(StateAfter(tasks, changed, events, k))
      else exists k: nat :: CurrentTask(tasks, changed, events, next, k)
  {
    var queue := ToOrderedTasks(tasks, changed);
    var states := O.Run(queue, events);
    var n := O.Frontier(queue, events);
    var at := QueueFollowsContract(tasks, changed);
    QueueIdsDistinct(tasks, changed);
    O.SettledIsPrefix(queue, events);
    O.SelectsFirstUnsettled(queue, states, n);
    forall k: nat | k < |tasks| && Admitted(tasks[k], changed)
      ensures exists i: nat :: i < |queue| && at[i] == k && queue[i].id == tasks[k].id
    {
      var i :| 0 <= i < |at| && at[i] == k;
    }
    if n < |queue| {
      StandsAt(tasks, changed, events, at, n);
    }
  }

  /** The selected or blocked task stands at position k of the contract; everything admitted before it is settled, after it untouched. */
  ghost predicate CurrentTask(tasks: seq<TaskEntry>, changed: bool, events: seq<O.Event>, next: O.Selection, k: nat) {
    && k < |tasks| && Admitted(tasks[k], changed) && !next.PhaseComplete? && EntryOf(next.task, tasks[k])
    && !O.Settled(StateAfter(tasks, changed, events, k))
    && (next.BlockedOn? <==> StateAfter(tasks, changed, events, k) == O.Blocked)
    && (forall j: nat :: j < k && Admitted(tasks[j], changed) ==> O.Settled(StateAfter(tasks, changed, events, j)))
    && (forall j: nat :: k < j < |tasks| && Admitted(tasks[j], changed) ==> StateAfter(tasks, changed, events, j) == O.NotStarted)
  }

  lemma {:induction false} StandsAt(tasks: seq<TaskEntry>, changed: bool, events: seq<O.Event>, at: seq<nat>, n: nat)
    requires var queue := ToOrderedTasks(tasks, changed);
      Follows(queue, tasks, changed, at) && n < |queue| && O.At(queue, O.Run(queue, events), n)
    ensures var queue := ToOrderedTasks(tasks, changed);
      CurrentTask(tasks, changed, events, O.SelectionAt(queue, O.Run(queue, events), n), at[n])
  {
    forall j: nat | j < |tasks| && Admitted(tasks[j], changed)
      ensures j < at[n] ==> O.Settled(StateAfter(tasks, changed, events, j))
      ensures j > at[n] ==> StateAfter(tasks, changed, events, j) == O.NotStarted
    {
      var i :| 0 <= i < |at| && at[i] == j;
    }
  }

  lemma {:induction false} QueueComesFrom(tasks: seq<TaskEntry>, changed: bool, q: O.Task)
    ensures q in ToOrderedTasks(tasks, changed) <==>
      exists t :: t in tasks && (t.kind != CodeReview || ReviewApplies(t, changed))
                  && q == O.Task(t.id, MapTaskExecutor(t.kind), t.required)
    decreases |tasks|
  {
    if tasks != [] {
      QueueComesFrom(tasks[1..], changed, q);
      assert tasks == [tasks[0]] + tasks[1..];
    }
  }

  /** The parser's unique task ids are what the queue needs. */
  lemma {:induction false} QueueIdsDistinct(tasks: seq<TaskEntry>, changed: bool)
    requires DistinctTaskIds(tasks)
    ensures O.DistinctIds(ToOrderedTasks(tasks, changed))
    decreases |tasks|
  {
    if tasks != [] {
      var rest := tasks[1..];
      assert forall i :: 0 <= i < |rest| ==> rest[i] == tasks[i + 1];
      QueueIdsDistinct(rest, changed);
      var queue := ToOrderedTasks(rest, changed);
      forall j | 0 <= j < |queue| ensures queue[j].id != tasks[0].id {
        QueueComesFrom(rest, changed, queue[j]);
      }
    }
  }

  predicate UsesOrderedExecutors(phase: Phase) {
    exists t :: t in phase.tasks && t.kind in {Agent, CodeReview, Verification, GitCommit, GitPush}
  }

  function FirstRequiredReview(tasks: seq<TaskEntry>): (r: Option<TaskEntry>)
    ensures r.Some? ==> r.value in tasks && r.value.kind == CodeReview && r.value.required
    decreases |tasks|
  {
    if tasks == [] then None
    else if tasks[0].kind == CodeReview && tasks[0].required then Some(tasks[0])
    else FirstRequiredReview(tasks[1..])
  }

  predicate PhaseRequiresCodeReview(phase: Phase, productionCodeChanged: bool) {
    var review := FirstRequiredReview(phase.tasks);
    if review.Some? then ReviewApplies(review.value, productionCodeChanged)
    else if UsesOrderedExecutors(phase) then false
    else phase.codeReview == WhenProductionCodeChanges && productionCodeChanged
  }

  /** The first required review task stands at position k. */
  ghost predicate FirstReviewAt(tasks: seq<TaskEntry>, k: nat) {
    && k < |tasks| && tasks[k].kind == CodeReview && tasks[k].required
    && forall j :: 0 <= j < k ==> !(tasks[j].kind == CodeReview && tasks[j].required)
  }

  lemma {:induction false} FirstReviewIff(tasks: seq<TaskEntry>, k: nat)
    ensures FirstReviewAt(tasks, k) ==> FirstRequiredReview(tasks) == Some(tasks[k])
    ensures FirstRequiredReview(tasks) == None <==> forall j :: 0 <= j < |tasks| ==> !(tasks[j].kind == CodeReview && tasks[j].required)
    decreases |tasks|
  {
    if tasks != [] {
      FirstReviewIff(tasks[1..], if k > 0 then k - 1 else 0);
      if FirstReviewAt(tasks, k) && k > 0 {
        assert FirstReviewAt(tasks[1..], k - 1);
      }
      assert forall j :: 0 < j < |tasks| ==> tasks[j] == tasks[1..][j - 1];
    }
  }

  /** No task of the phase belongs to the ordered executors. */
  ghost predicate OldKindsOnly(phase: Phase) {
    forall t :: t in phase.tasks ==> t.kind == Work || t.kind == DevelopmentValidation || t.kind == FinalValidation
  }

  /**
   * Whether a phase must be reviewed is said by its first required review task; without one only a phase
   * of the old kinds may need a review, by its policy, when production code changed.
   */
  lemma {:induction false} ReviewRequiredIff(phase: Phase, changed: bool)
    ensures forall k: nat :: FirstReviewAt(phase.tasks, k) ==>
      (PhaseRequiresCodeReview(phase, changed) <==>
         phase.tasks[k].condition == Some(Always) || (phase.tasks[k].condition == Some(ProductionCodeChanges) && changed))
    ensures (forall k: nat :: !FirstReviewAt(phase.tasks, k)) ==>
      (PhaseRequiresCodeReview(phase, changed) <==>
         OldKindsOnly(phase) && phase.codeReview == WhenProductionCodeChanges && changed)
  {
    forall k: nat | FirstReviewAt(phase.tasks, k) ensures FirstRequiredReview(phase.tasks) == Some(phase.tasks[k]) {
      FirstReviewIff(phase.tasks, k);
    }
    if FirstRequiredReview(phase.tasks).Some? {
      var k := FirstReviewPosition(phase.tasks);
    }
    assert OldKindsOnly(phase) <==> !UsesOrderedExecutors(phase);
  }

  lemma {:induction false} FirstReviewPosition(tasks: seq<TaskEntry>) returns (k: nat)
    requires FirstRequiredReview(tasks).Some?
    ensures FirstReviewAt(tasks, k)
    decreases |tasks|
  {
    if tasks[0].kind == CodeReview && tasks[0].required {
      k := 0;
    } else {
      k := FirstReviewPosition(tasks[1..]);
      assert forall j :: 0 < j < |tasks| ==> tasks[j] == tasks[1..][j - 1];
      k := k + 1;
    }
  }

  /** Some required review task of the queue was approved, or deferred, while it was the selected task. */
  ghost predicate Reviewed(queue: seq<O.Task>, events: seq<O.Event>) {
    exists i: nat, k: nat, state ::
      && O.SettledAt(queue, events, i, k, state)
      && queue[i].executor == O.CodeReview && queue[i].required
      && (events[k] == O.Reports(O.Approved) || events[k] == O.Defers)
  }

  /**
   * A phase that must be reviewed cannot run out of tasks without its review: no other outcome, and
   * in particular no success of the fixer, completes the review task.
   */
  lemma {:induction false} ReviewedBeforeComplete(phase: Phase, changed: bool, events: seq<O.Event>)
    requires DistinctTaskIds(phase.tasks) && UsesOrderedExecutors(phase) && PhaseRequiresCodeReview(phase, changed)
    requires O.SelectNext(ToOrderedTasks(phase.tasks, changed), O.Run(ToOrderedTasks(phase.tasks, changed), events))
          == O.PhaseComplete
    ensures Reviewed(ToOrderedTasks(phase.tasks, changed), events)
  {
    var queue := ToOrderedTasks(phase.tasks, changed);
    var review := FirstRequiredReview(phase.tasks).value;
    var q := O.Task(review.id, O.CodeReview, true);
    QueueComesFrom(phase.tasks, changed, q);
    var i: nat :| i < |queue| && queue[i] == q;
    QueueIdsDistinct(phase.tasks, changed);
    O.PhaseCompleteIff(queue, events);
    assert O.SettledInTurn(queue, events, i);
    var k: nat, state :| O.Settled(state) && O.SettledAt(queue, events, i, k, state);
    ReviewSettles(queue, events, i, k, state);
  }

  lemma {:induction false} ReviewSettles(queue: seq<O.Task>, events: seq<O.Event>, i: nat, k: nat, state: O.TaskState)
    requires O.Settled(state) && O.SettledAt(queue, events, i, k, state)
    requires queue[i].executor == O.CodeReview && queue[i].required
    ensures Reviewed(queue, events)
  {
    assert events[k] == O.Reports(O.Approved) || events[k] == O.Defers;
  }

  /** A review the contract does not ask for under the circumstances never enters the queue. */
  lemma {:induction false} NoUnwantedReview(tasks: seq<TaskEntry>, changed: bool, q: O.Task)
    requires q in ToOrderedTasks(tasks, changed) && q.executor == O.CodeReview
    ensures exists t :: t in tasks && t.id == q.id && t.kind == CodeReview && ReviewApplies(t, changed)
  {
    QueueComesFrom(tasks, changed, q);
  }
}
