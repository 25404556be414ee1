module OrderedTasks {
  /**
   * The ordered task queue of a phase: the selector takes the first unresolved task, and an outcome
   * is judged only for the task that is selected.
   */

  type Id = string

  datatype Executor = Agent | CodeReview | Verification | GitCommit | GitPush

  datatype Task = Task(id: Id, executor: Executor, required: bool)

  datatype TaskState = NotStarted | InProgress | Completed | Skipped | Blocked

  type States = map<Id, TaskState>

  datatype Selection = ExecuteTask(task: Task) | PhaseComplete | BlockedOn(task: Task)

  datatype Outcome = Succeeded | FixerSucceeded | RecoverableFailure | NeedsChanges | Approved | Passed | BlockedOutcome

  datatype Worker = AgentWorker | ReviewerWorker | FixerWorker | CheckpointRepairWorker

  datatype Transition = CompleteCurrentTask | RetryCurrentTask(worker: Worker) | BlockedTransition

  function StateOf(states: States, id: Id): TaskState {
    if id in states then states[id] else NotStarted
  }

  predicate Settled(state: TaskState) {
    state == Completed || state == Skipped
  }

  function SelectNext(tasks: seq<Task>, states: States): Selection
    decreases |tasks|
  {
    if tasks == [] then PhaseComplete
    else
      var state := StateOf(states, tasks[0].id);
      if state == Blocked then BlockedOn(tasks[0])
      else if !Settled(state) then ExecuteTask(tasks[0])
      else SelectNext(tasks[1..], states)
  }

  function SelectTransition(task: Task, outcome: Outcome): Transition {
    if outcome == BlockedOutcome then BlockedTransition
    else if task.executor == CodeReview then
      if outcome == Approved then CompleteCurrentTask
      else if outcome == FixerSucceeded then RetryCurrentTask(ReviewerWorker)
      else RetryCurrentTask(FixerWorker)
    else if task.executor == Verification then
      if outcome == Passed || outcome == Succeeded then CompleteCurrentTask
      else RetryCurrentTask(CheckpointRepairWorker)
    else if outcome == Succeeded then CompleteCurrentTask
    else RetryCurrentTask(AgentWorker)
  }

  /** What counts as done, executor by executor. */
  function CompletingOutcomes(executor: Executor): set<Outcome> {
    match executor
    case CodeReview => {Approved}
    case Verification => {Passed, Succeeded}
    case Agent => {Succeeded}
    case GitCommit => {Succeeded}
    case GitPush => {Succeeded}
  }

  /**
   * What follows a report: a blocker blocks; an approval completes a review, a pass or success a
   * verification, a success anything else; and otherwise a fixed review goes back to its reviewer,
   * another review to the fixer, a verification to repair, and other work to its agent.
   */
  lemma {:induction false} TransitionIff(task: Task, outcome: Outcome)
    ensures var next := SelectTransition(task, outcome);
      var review, verification := task.executor == CodeReview, task.executor == Verification;
      && (next == BlockedTransition <==> outcome == BlockedOutcome)
      && (next == CompleteCurrentTask <==>
            if review then outcome == Approved
            else outcome == Succeeded || (verification && outcome == Passed))
      && (next == RetryCurrentTask(ReviewerWorker) <==> review && outcome == FixerSucceeded)
      && (next == RetryCurrentTask(FixerWorker) <==>
            review && outcome != Approved && outcome != FixerSucceeded && outcome != BlockedOutcome)
      && (next == RetryCurrentTask(CheckpointRepairWorker) <==>
            verification && outcome != Passed && outcome != Succeeded && outcome != BlockedOutcome)
      && (next == RetryCurrentTask(AgentWorker) <==>
            !review && !verification && outcome != Succeeded && outcome != BlockedOutcome)
  {
  }

  // ---------------------------------------------------------------------------
  // Runs
  // ---------------------------------------------------------------------------

  /** The selected task reports an outcome, or is deferred to manual testing and skipped. */
  datatype Event = Reports(outcome: Outcome) | Defers

  function Settlement(task: Task, e: Event): TaskState {
    match e
    case Defers => Skipped
    case Reports(outcome) =>
      match SelectTransition(task, outcome)
      case CompleteCurrentTask => Completed
      case RetryCurrentTask(_) => InProgress
      case BlockedTransition => Blocked
  }

  function Step(tasks: seq<Task>, states: States, e: Event): States {
    var selection := SelectNext(tasks, states);
    if selection.ExecuteTask? then states[selection.task.id := Settlement(selection.task, e)] else states
  }

  /** From nothing done. */
  function Run(tasks: seq<Task>, events: seq<Event>): States
    decreases |events|
  {
    if events == [] then map[]
    else Step(tasks, Run(tasks, events[..|events| - 1]), events[|events| - 1])
  }

  ghost predicate DistinctIds(tasks: seq<Task>) {
    forall i, j :: 0 <= i < j < |tasks| ==> tasks[i].id != tasks[j].id
  }

  /** The first n tasks are settled, the next one is current, and no later one was touched. */
  ghost predicate At(tasks: seq<Task>, states: States, n: nat) {
    && n <= |tasks|
    && (forall i :: 0 <= i < n ==> Settled(StateOf(states, tasks[i].id)))
    && (n < |tasks| ==> !Settled(StateOf(states, tasks[n].id)))
    && (forall i :: n < i < |tasks| ==> StateOf(states, tasks[i].id) == NotStarted)
  }

  ghost function SelectionAt(tasks: seq<Task>, states: States, n: nat): Selection
    requires n <= |tasks|
  {
    if n == |tasks| then PhaseComplete
    else if StateOf(states, tasks[n].id) == Blocked then BlockedOn(tasks[n])
    else ExecuteTask(tasks[n])
  }

  lemma {:induction false} SelectsFirstUnsettled(tasks: seq<Task>, states: States, n: nat)
    requires n <= |tasks|
    requires forall i :: 0 <= i < n ==> Settled(StateOf(states, tasks[i].id))
    requires n < |tasks| ==> !Settled(StateOf(states, tasks[n].id))
    ensures SelectNext(tasks, states) == SelectionAt(tasks, states, n)
    decreases n
  {
    if n > 0 {
      var rest := tasks[1..];
      assert forall i :: 0 <= i < |rest| ==> rest[i] == tasks[i + 1];
      SelectsFirstUnsettled(rest, states, n - 1);
    }
  }

  /** One event moves the frontier by at most one task. */
  function NextFrontier(tasks: seq<Task>, states: States, n: nat, e: Event): nat
    requires n <= |tasks|
  {
    if n < |tasks| && StateOf(states, tasks[n].id) != Blocked && Settled(Settlement(tasks[n], e)) then n + 1 else n
  }

  lemma {:induction false} StepMovesFrontier(tasks: seq<Task>, states: States, n: nat, e: Event)
    requires DistinctIds(tasks) && At(tasks, states, n)
    ensures At(tasks, Step(tasks, states, e), NextFrontier(tasks, states, n, e))
  {
    SelectsFirstUnsettled(tasks, states, n);
  }

  function Frontier(tasks: seq<Task>, events: seq<Event>): (n: nat)
    ensures n <= |tasks|
    decreases |events|
  {
    if events == [] then 0
    else
      var before := events[..|events| - 1];
      var n := Frontier(tasks, before);
      NextFrontier(tasks, Run(tasks, before), n, events[|events| - 1])
  }

  /** After any events at all, what is settled is a prefix of the declared queue. */
  lemma {:induction false} SettledIsPrefix(tasks: seq<Task>, events: seq<Event>)
    requires DistinctIds(tasks)
    ensures At(tasks, Run(tasks, events), Frontier(tasks, events))
    decreases |events|
  {
    if events != [] {
      var before := events[..|events| - 1];
      SettledIsPrefix(tasks, before);
      StepMovesFrontier(tasks, Run(tasks, before), Frontier(tasks, before), events[|events| - 1]);
    }
  }

  // ---------------------------------------------------------------------------
  // How each task came to be settled
  // ---------------------------------------------------------------------------

  /** The state an event leaves the selected task in. */
  ghost predicate Leaves(task: Task, e: Event, state: TaskState) {
    match state
    case NotStarted => false
    case Skipped => e == Defers
    case Blocked => e == Reports(BlockedOutcome)
    case Completed => e.Reports? && e.outcome in CompletingOutcomes(task.executor)
    case InProgress => e.Reports? && e.outcome != BlockedOutcome && e.outcome !in CompletingOutcomes(task.executor)
  }

  lemma {:induction false} LeavesIff(task: Task, e: Event, state: TaskState)
    ensures Leaves(task, e, state) <==> Settlement(task, e) == state
  {
  }

  /** Event k found task i selected, and left it in the given state. */
  ghost predicate SettledAt(tasks: seq<Task>, events: seq<Event>, i: nat, k: nat, state: TaskState) {
    && i < |tasks| && k < |events|
    && SelectNext(tasks, Run(tasks, events[..k])) == ExecuteTask(tasks[i])
    && Leaves(tasks[i], events[k], state)
  }

  lemma {:induction false} SettledAtEarlier(tasks: seq<Task>, events: seq<Event>, shorter: seq<Event>, i: nat, k: nat, state: TaskState)
    requires shorter <= events && SettledAt(tasks, shorter, i, k, state)
    ensures SettledAt(tasks, events, i, k, state)
  {
    assert shorter[..k] == events[..k];
  }

  /** An event does not touch a task the frontier has passed. */
  lemma {:induction false} PassedStays(tasks: seq<Task>, before: seq<Event>, e: Event, i: nat)
    requires DistinctIds(tasks) && i < Frontier(tasks, before)
    ensures StateOf(Step(tasks, Run(tasks, before), e), tasks[i].id) == StateOf(Run(tasks, before), tasks[i].id)
  {
    SettledIsPrefix(tasks, before);
    SelectsFirstUnsettled(tasks, Run(tasks, before), Frontier(tasks, before));
  }

  /** An event that moves the frontier over a task found it selected and settled it. */
  lemma {:induction false} PassingSettles(tasks: seq<Task>, before: seq<Event>, e: Event)
    requires DistinctIds(tasks)
    requires NextFrontier(tasks, Run(tasks, before), Frontier(tasks, before), e) > Frontier(tasks, before)
    ensures var i := Frontier(tasks, before);
      i < |tasks| && SelectNext(tasks, Run(tasks, before)) == ExecuteTask(tasks[i])
      && Leaves(tasks[i], e, StateOf(Step(tasks, Run(tasks, before), e), tasks[i].id))
  {
    LeavesIff(tasks[Frontier(tasks, before)], e, Settlement(tasks[Frontier(tasks, before)], e));
    SettledIsPrefix(tasks, before);
    SelectsFirstUnsettled(tasks, Run(tasks, before), Frontier(tasks, before));
  }

  /** The frontier passed task i at the last event. */
  lemma {:induction false} PassedNow(tasks: seq<Task>, events: seq<Event>, i: nat)
    requires DistinctIds(tasks) && events != [] && Frontier(tasks, events[..|events| - 1]) <= i < Frontier(tasks, events)
    ensures Frontier(tasks, events[..|events| - 1]) == i && Frontier(tasks, events) == i + 1
    ensures SettledAt(tasks, events, i, |events| - 1, StateOf(Run(tasks, events), tasks[i].id))
  {
    PassingSettles(tasks, events[..|events| - 1], events[|events| - 1]);
  }

  lemma {:induction false} PassedEarlier(tasks: seq<Task>, events: seq<Event>, i: nat, k: nat)
    requires DistinctIds(tasks) && events != [] && i < Frontier(tasks, events[..|events| - 1]) && k < |events| - 1
    requires SettledAt(tasks, events[..|events| - 1], i, k, StateOf(Run(tasks, events[..|events| - 1]), tasks[i].id))
    ensures SettledAt(tasks, events, i, k, StateOf(Run(tasks, events), tasks[i].id))
  {
    var before := events[..|events| - 1];
    PassedStays(tasks, before, events[|events| - 1], i);
    SettledAtEarlier(tasks, events, before, i, k, StateOf(Run(tasks, before), tasks[i].id));
  }

  /** When the frontier passed task i. */
  lemma {:induction false} WhenPassed(tasks: seq<Task>, events: seq<Event>, i: nat) returns (k: nat)
    requires DistinctIds(tasks) && i < Frontier(tasks, events)
    ensures k < |events|
    ensures Frontier(tasks, events[..k]) == i && Frontier(tasks, events[..k + 1]) == i + 1
    ensures SettledAt(tasks, events, i, k, StateOf(Run(tasks, events), tasks[i].id))
    decreases |events|
  {
    var before := events[..|events| - 1];
    if i < Frontier(tasks, before) {
      k := WhenPassed(tasks, before, i);
      PassedEarlier(tasks, events, i, k);
      assert before[..k] == events[..k] && before[..k + 1] == events[..k + 1];
    } else {
      PassedNow(tasks, events, i);
      k := |events| - 1;
      assert events[..k] == before && events[..k + 1] == events;
    }
  }

  lemma {:induction false} FrontierGrows(tasks: seq<Task>, events: seq<Event>, j: nat, k: nat)
    requires j <= k <= |events|
    ensures Frontier(tasks, events[..j]) <= Frontier(tasks, events[..k])
    decreases k - j
  {
    if j < k {
      FrontierGrows(tasks, events, j, k - 1);
      assert events[..k][..k - 1] == events[..k - 1];
    }
  }

  /** The events that settle a task are fixed: the one found there when the frontier stood at it. */
  lemma {:induction false} SettledAtPasses(tasks: seq<Task>, events: seq<Event>, i: nat, k: nat, state: TaskState)
    requires DistinctIds(tasks) && SettledAt(tasks, events, i, k, state) && Settled(state)
    ensures Frontier(tasks, events[..k]) == i && Frontier(tasks, events[..k + 1]) == i + 1
    ensures StateOf(Run(tasks, events[..k + 1]), tasks[i].id) == state
  {
    SettledIsPrefix(tasks, events[..k]);
    SelectsFirstUnsettled(tasks, Run(tasks, events[..k]), Frontier(tasks, events[..k]));
    LeavesIff(tasks[i], events[k], state);
    var n := Frontier(tasks, events[..k]);
    assert tasks[n] == tasks[i];
    assert events[..k + 1][..k] == events[..k];
  }

  /** Once settled, a task keeps its state. */
  lemma {:induction false} SettledStays(tasks: seq<Task>, events: seq<Event>, i: nat, j: nat)
    requires DistinctIds(tasks) && j <= |events| && i < Frontier(tasks, events[..j])
    ensures StateOf(Run(tasks, events), tasks[i].id) == StateOf(Run(tasks, events[..j]), tasks[i].id)
    decreases |events| - j
  {
    if j == |events| {
      assert events[..j] == events;
    } else {
      SettledIsPrefix(tasks, events[..j]);
      SelectsFirstUnsettled(tasks, Run(tasks, events[..j]), Frontier(tasks, events[..j]));
      assert events[..j + 1][..j] == events[..j];
      SettledStays(tasks, events, i, j + 1);
    }
  }

  /**
   * A task ends up completed exactly when, at some moment, it was the selected task and reported
   * an outcome that completes its own executor; skipped exactly when it was deferred while selected.
   */
  lemma {:induction false} CompletedIff(tasks: seq<Task>, events: seq<Event>, i: nat)
    requires DistinctIds(tasks) && i < |tasks|
    ensures StateOf(Run(tasks, events), tasks[i].id) == Completed
       <==> exists k: nat :: SettledAt(tasks, events, i, k, Completed)
    ensures StateOf(Run(tasks, events), tasks[i].id) == Skipped
       <==> exists k: nat :: SettledAt(tasks, events, i, k, Skipped)
  {
    SettledIsPrefix(tasks, events);
    var state := StateOf(Run(tasks, events), tasks[i].id);
    if Settled(state) {
      assert i < Frontier(tasks, events);
      var k := WhenPassed(tasks, events, i);
    }
    forall k: nat, reached | SettledAt(tasks, events, i, k, reached) && Settled(reached) ensures state == reached {
      SettledAtPasses(tasks, events, i, k, reached);
      SettledStays(tasks, events, i, k + 1);
    }
  }

  // ---------------------------------------------------------------------------
  // The state of each task
  // ---------------------------------------------------------------------------

  ghost predicate Finds(tasks: seq<Task>, events: seq<Event>, i: nat, k: nat)
    requires i < |tasks|
  {
    k < |events| && SelectNext(tasks, Run(tasks, events[..k])) == ExecuteTask(tasks[i])
  }

  /** The events that found task i selected. */
  ghost function Turns(tasks: seq<Task>, events: seq<Event>, i: nat): set<nat>
    requires i < |tasks|
  {
    set k: nat | k < |events| && Finds(tasks, events, i, k)
  }

  lemma {:induction false} SelectedIsDeclared(tasks: seq<Task>, states: States)
    requires SelectNext(tasks, states).ExecuteTask?
    ensures SelectNext(tasks, states).task in tasks
    decreases |tasks|
  {
    if Settled(StateOf(states, tasks[0].id)) {
      SelectedIsDeclared(tasks[1..], states);
    }
  }

  /** An event changes the state of the task it found selected, and of no other. */
  lemma {:induction false} StepMoves(tasks: seq<Task>, states: States, e: Event, i: nat, state: TaskState)
    requires DistinctIds(tasks) && i < |tasks|
    ensures StateOf(Step(tasks, states, e), tasks[i].id) == state <==>
      if SelectNext(tasks, states) == ExecuteTask(tasks[i]) then Leaves(tasks[i], e, state)
      else StateOf(states, tasks[i].id) == state
  {
    LeavesIff(tasks[i], e, state);
    if SelectNext(tasks, states).ExecuteTask? {
      SelectedIsDeclared(tasks, states);
    }
  }

  /** The state of a task: what the last of its turns left it in, or not started without any. */
  ghost predicate StateFrom(task: Task, events: seq<Event>, turns: set<nat>, state: TaskState) {
    || (turns == {} && state == NotStarted)
    || exists k: nat :: k in turns && (forall m: nat :: m in turns ==> m <= k) && k < |events| && Leaves(task, events[k], state)
  }

  lemma {:induction false} TurnsStep(tasks: seq<Task>, events: seq<Event>, i: nat)
    requires i < |tasks| && events != []
    ensures var m: nat := |events| - 1;
      Turns(tasks, events, i)
        == Turns(tasks, events[..m], i) + if SelectNext(tasks, Run(tasks, events[..m])) == ExecuteTask(tasks[i]) then {m} else {}
  {
    var before := events[..|events| - 1];
    forall k: nat | k < |before| ensures before[..k] == events[..k] {
    }
  }

  lemma {:induction false} LaterTurn(task: Task, events: seq<Event>, turns: set<nat>, state: TaskState)
    requires events != [] && forall k: nat :: k in turns ==> k < |events| - 1
    ensures StateFrom(task, events, turns, state) <==> StateFrom(task, events[..|events| - 1], turns, state)
    ensures StateFrom(task, events, turns + {|events| - 1}, state) <==> Leaves(task, events[|events| - 1], state)
  {
    var m: nat := |events| - 1;
    assert m in turns + {m};
    forall k: nat | k in turns + {m} && forall l: nat :: l in turns + {m} ==> l <= k ensures k == m {
    }
  }

  /** After any events each task is in the state that the last event that found it selected left it in. */
  lemma {:induction false} StateIff(tasks: seq<Task>, events: seq<Event>, i: nat, state: TaskState)
    requires DistinctIds(tasks) && i < |tasks|
    ensures StateOf(Run(tasks, events), tasks[i].id) == state <==> StateFrom(tasks[i], events, Turns(tasks, events, i), state)
    decreases |events|
  {
    if events == [] {
      assert Turns(tasks, events, i) == {};
    } else {
      var before := events[..|events| - 1];
      StateIff(tasks, before, i, state);
      TurnsStep(tasks, events, i);
      LaterTurn(tasks[i], events, Turns(tasks, before, i), state);
      StepMoves(tasks, Run(tasks, before), events[|events| - 1], i, state);
    }
  }

  /** Some event settled task i while it was the selected one. */
  ghost predicate SettledInTurn(tasks: seq<Task>, events: seq<Event>, i: nat) {
    exists k: nat, state :: Settled(state) && SettledAt(tasks, events, i, k, state)
  }

  /** phase_complete is reached exactly when every declared task was settled, each while selected. */
  lemma {:induction false} PhaseCompleteIff(tasks: seq<Task>, events: seq<Event>)
    requires DistinctIds(tasks)
    ensures SelectNext(tasks, Run(tasks, events)) == PhaseComplete
       <==> forall i: nat :: i < |tasks| ==> SettledInTurn(tasks, events, i)
  {
    SettledIsPrefix(tasks, events);
    var n := Frontier(tasks, events);
    SelectsFirstUnsettled(tasks, Run(tasks, events), n);
    if n == |tasks| {
      forall i: nat | i < |tasks| ensures SettledInTurn(tasks, events, i) {
        var k := WhenPassed(tasks, events, i);
      }
    }
    if n < |tasks| {
      CompletedIff(tasks, events, n);
      assert !SettledInTurn(tasks, events, n);
    }
  }

  /** Tasks are settled one after the other, in declared order. */
  lemma {:induction false} SettledInOrder(tasks: seq<Task>, events: seq<Event>, i: nat, j: nat, ki: nat, kj: nat, si: TaskState, sj: TaskState)
    requires DistinctIds(tasks) && Settled(si) && Settled(sj)
    requires SettledAt(tasks, events, i, ki, si) && SettledAt(tasks, events, j, kj, sj)
    ensures i < j <==> ki < kj
  {
    SettledAtPasses(tasks, events, i, ki, si);
    SettledAtPasses(tasks, events, j, kj, sj);
    if ki < kj {
      FrontierGrows(tasks, events, ki + 1, kj);
    }
    if kj < ki {
      FrontierGrows(tasks, events, kj + 1, ki);
    }
  }

  /** A blocked task stops the queue for good. */
  lemma {:induction false} BlockedIsFinal(tasks: seq<Task>, events: seq<Event>, more: seq<Event>)
    requires SelectNext(tasks, Run(tasks, events)).BlockedOn?
    ensures Run(tasks, events + more) == Run(tasks, events)
    decreases |more|
  {
    if more == [] {
      assert events + more == events;
    } else {
      var before := more[..|more| - 1];
      BlockedIsFinal(tasks, events, before);
      assert (events + more)[..|events + more| - 1] == events + before;
    }
  }
}
