module PhaseRun {
  /**
   * Whole runs of the phase engine: reconcile, let a worker or the review act on exactly what was
   * decided, reconcile again.
   */

  import opened Wrappers
  import opened Sorting
  import opened PhaseStatuses
  import opened PhasePolicy

  /**
   * What the world contributes to one round: gate evidence, a new ledger, the status a worker leaves
   * and the one a review leaves, and whether a review is still asked for.
   */
  datatype Evidence = Evidence(
    gates: Option<seq<Gate>>,
    ledger: seq<Task>,
    documentStatus: PhaseStatus,
    reviewedStatus: PhaseStatus,
    featureTasksStatus: PhaseStatus,
    taskRunCount: nat,
    reviewRequired: Option<bool>)

  ghost predicate DistinctIds(tasks: seq<Task>) {
    forall i, j :: 0 <= i < j < |tasks| ==> tasks[i].id != tasks[j].id
  }

  /** Checked tasks come first by index. */
  ghost predicate CheckedPrefix(tasks: seq<Task>) {
    forall t, u :: t in tasks && u in tasks && t.checked && !u.checked ==> t.index < u.index
  }

  ghost predicate GoodLedger(tasks: seq<Task>) {
    DistinctIds(tasks) && DistinctBy(tasks, Index) && CheckedPrefix(tasks)
  }

  predicate OpenStatus(s: PhaseStatus) {
    ActiveStatus(s) || AwaitingStatus(s)
  }

  /**
   * A worker creates a non-empty ledger of unchecked tasks, and leaves the phase in work or waiting
   * for its review; a review that was settled leaves it in work.
   */
  ghost predicate GoodEvidence(e: Evidence) {
    && e.ledger != []
    && GoodLedger(e.ledger)
    && (forall t :: t in e.ledger ==> !t.checked)
    && OpenStatus(e.documentStatus)
    && ActiveStatus(e.reviewedStatus)
  }

  /** A phase of a run: in work or waiting for its review, with an ordered ledger, or finished. */
  ghost predicate GoodPhase(p: Phase) {
    && (OpenStatus(p.documentStatus) || Terminal(p))
    && (!Terminal(p) && p.tasks.Some? ==> GoodLedger(p.tasks.value))
  }

  ghost predicate Good(phases: seq<Phase>) {
    DistinctBy(phases, Number) && forall i :: 0 <= i < |phases| ==> GoodPhase(phases[i])
  }

  function CheckTask(tasks: seq<Task>, id: string): (r: seq<Task>)
    ensures |r| == |tasks|
    ensures forall i :: 0 <= i < |tasks| ==>
      r[i] == if tasks[i].id == id then tasks[i].(checked := true, persisted := Some(RunCompleted)) else tasks[i]
    decreases |tasks|
  {
    if tasks == [] then []
    else
      [if tasks[0].id == id then tasks[0].(checked := true, persisted := Some(RunCompleted)) else tasks[0]]
      + CheckTask(tasks[1..], id)
  }

  /** The effect of one round on the phase that was decided about. */
  function Act(p: Phase, d: Decision, e: Evidence): Phase {
    match d
    case Select(_, taskId) =>
      if p.tasks.None? then p
      else if UncheckedCount(p.tasks.value) == 0 then Review(p, e)
      else p.(tasks := Some(CheckTask(p.tasks.value, taskId)), gates := e.gates,
              documentStatus := e.documentStatus, featureTasksStatus := e.featureTasksStatus,
              taskRunCount := e.taskRunCount, reviewRequired := e.reviewRequired)
    case Promote(_, _) => p.(documentStatus := Completed, featureTasksStatus := Completed)
    case Initialize(_) =>
      p.(tasks := Some(e.ledger), gates := e.gates,
         documentStatus := e.documentStatus, featureTasksStatus := e.featureTasksStatus,
         taskRunCount := e.taskRunCount)
    case Blocked(_) => p
    case AllTerminal => p
  }

  /** The review of a phase with nothing left to check is settled. */
  function Review(p: Phase, e: Evidence): Phase {
    p.(gates := e.gates, documentStatus := e.reviewedStatus, featureTasksStatus := e.featureTasksStatus,
       taskRunCount := e.taskRunCount, reviewRequired := e.reviewRequired)
  }

  /** The first position of a phase number, or the length. */
  function Position(phases: seq<Phase>, number: int): (k: nat)
    ensures k <= |phases|
    ensures k < |phases| ==> phases[k].number == number
    ensures forall i :: 0 <= i < k ==> phases[i].number != number
    decreases |phases|
  {
    if phases == [] || phases[0].number == number then 0 else 1 + Position(phases[1..], number)
  }

  predicate Stopped(d: Decision) {
    d.Blocked? || d.AllTerminal?
  }

  /** One round: the decision, then its effect; a stopped engine stays where it is. */
  function Round(phases: seq<Phase>, e: Evidence): seq<Phase> {
    var d := Reconcile(phases);
    if Stopped(d) then phases
    else
      var k := Position(phases, d.phase);
      if k == |phases| then phases else phases[k := Act(phases[k], d, e)]
  }

  // ---------------------------------------------------------------------------
  // The measure
  // ---------------------------------------------------------------------------

  function UncheckedCount(tasks: seq<Task>): nat
    decreases |tasks|
  {
    if tasks == [] then 0 else (if tasks[0].checked then 0 else 1) + UncheckedCount(tasks[1..])
  }

  predicate Uninitialized(p: Phase) {
    !Terminal(p) && (p.tasks.None? || p.tasks.value == [])
  }

  /** Phases whose ledger has yet to be created. */
  function MissingLedgers(phases: seq<Phase>): nat
    decreases |phases|
  {
    if phases == [] then 0 else (if Uninitialized(phases[0]) then 1 else 0) + MissingLedgers(phases[1..])
  }

  function OpenWorkOf(p: Phase): nat {
    if Terminal(p) then 0
    else 1 + if p.tasks.Some? then UncheckedCount(p.tasks.value) else 0
  }

  /** Unchecked tasks of unfinished phases, plus the unfinished phases themselves. */
  function OpenWork(phases: seq<Phase>): nat
    decreases |phases|
  {
    if phases == [] then 0 else OpenWorkOf(phases[0]) + OpenWork(phases[1..])
  }

  predicate Awaiting(p: Phase) {
    AwaitingStatus(p.documentStatus)
  }

  /** Phases that wait for their review. */
  function Reviews(phases: seq<Phase>): nat
    decreases |phases|
  {
    if phases == [] then 0 else (if Awaiting(phases[0]) then 1 else 0) + Reviews(phases[1..])
  }

  /** Checking a task may ask for one review, so it counts for two. */
  function Remaining(phases: seq<Phase>): nat {
    2 * OpenWork(phases) + Reviews(phases)
  }

  lemma {:induction false} UpdateMeasure(phases: seq<Phase>, k: nat, p: Phase)
    requires k < |phases|
    ensures OpenWork(phases[k := p]) == OpenWork(phases) - OpenWorkOf(phases[k]) + OpenWorkOf(p)
    ensures Reviews(phases[k := p])
      == Reviews(phases) - (if Awaiting(phases[k]) then 1 else 0) + (if Awaiting(p) then 1 else 0)
    ensures MissingLedgers(phases[k := p])
      == MissingLedgers(phases) - (if Uninitialized(phases[k]) then 1 else 0) + (if Uninitialized(p) then 1 else 0)
    decreases |phases|
  {
    if k > 0 {
      assert phases[k := p][1..] == phases[1..][k - 1 := p];
      UpdateMeasure(phases[1..], k - 1, p);
    } else {
      assert phases[k := p][1..] == phases[1..];
    }
  }

  lemma {:induction false} CheckFreshTask(tasks: seq<Task>, id: string)
    requires forall i :: 0 <= i < |tasks| ==> tasks[i].id != id
    ensures CheckTask(tasks, id) == tasks
  {
  }

  /** Checking one unchecked task lowers the count by exactly one. */
  lemma {:induction false} CheckLowersCount(tasks: seq<Task>, t: Task)
    requires DistinctIds(tasks) && t in tasks && !t.checked
    ensures UncheckedCount(CheckTask(tasks, t.id)) + 1 == UncheckedCount(tasks)
    decreases |tasks|
  {
    if tasks[0] == t {
      CheckFreshTask(tasks[1..], t.id);
    } else {
      assert t in tasks[1..];
      var i :| 0 <= i < |tasks[1..]| && tasks[1..][i] == t;
      assert tasks[0].id != tasks[i + 1].id;
      CheckLowersCount(tasks[1..], t);
    }
  }

  lemma {:induction false} CheckKeepsIndexes(tasks: seq<Task>, id: string)
    requires DistinctBy(tasks, Index)
    ensures DistinctBy(CheckTask(tasks, id), Index)
  {
    var after := CheckTask(tasks, id);
    forall i, j | 0 <= i < j < |after| ensures Index(after[i]) != Index(after[j]) {
      assert Index(tasks[i]) != Index(tasks[j]);
    }
  }

  /** Checking the first unchecked task keeps the checked tasks a prefix by index. */
  lemma {:induction false} CheckKeepsPrefix(tasks: seq<Task>, k: nat)
    requires DistinctIds(tasks) && DistinctBy(tasks, Index) && CheckedPrefix(tasks)
    requires k < |tasks| && SelectsFirstUnchecked(tasks, tasks[k])
    ensures CheckedPrefix(CheckTask(tasks, tasks[k].id))
  {
    var after := CheckTask(tasks, tasks[k].id);
    forall a, b | a in after && b in after && a.checked && !b.checked ensures a.index < b.index {
      var i :| 0 <= i < |after| && after[i] == a;
      var j :| 0 <= j < |after| && after[j] == b;
      CheckKeepsPair(tasks, k, i, j);
    }
  }

  lemma {:induction false} CheckKeepsPair(tasks: seq<Task>, k: nat, i: nat, j: nat)
    requires DistinctIds(tasks) && DistinctBy(tasks, Index) && CheckedPrefix(tasks)
    requires k < |tasks| && SelectsFirstUnchecked(tasks, tasks[k])
    requires i < |tasks| && j < |tasks|
    requires tasks[i].checked || tasks[i].id == tasks[k].id
    requires !tasks[j].checked && tasks[j].id != tasks[k].id
    ensures tasks[i].index < tasks[j].index
  {
    assert tasks[i] in tasks && tasks[j] in tasks;
    if !tasks[i].checked {
      assert i == k;
      IndexesDiffer(tasks, j, k);
    }
  }

  lemma {:induction false} IndexesDiffer(tasks: seq<Task>, i: nat, j: nat)
    requires DistinctBy(tasks, Index) && i < |tasks| && j < |tasks| && i != j
    ensures tasks[i].index != tasks[j].index
  {
    assert Index(tasks[i]) != Index(tasks[j]) by {
      assert i < j || j < i;
    }
  }

  lemma {:induction false} CheckKeepsLedger(tasks: seq<Task>, t: Task)
    requires GoodLedger(tasks) && SelectsFirstUnchecked(tasks, t)
    ensures GoodLedger(CheckTask(tasks, t.id))
  {
    var k :| 0 <= k < |tasks| && tasks[k] == t;
    CheckKeepsIndexes(tasks, t.id);
    CheckKeepsPrefix(tasks, k);
  }

  // ---------------------------------------------------------------------------
  // One round
  // ---------------------------------------------------------------------------

  /** Where the decided phase stands. */
  lemma {:induction false} DecidedPhase(phases: seq<Phase>) returns (k: nat)
    requires Good(phases) && !Stopped(Reconcile(phases))
    ensures k < |phases| && k == Position(phases, Reconcile(phases).phase)
    ensures Earliest(phases, phases[k])
    ensures Reconcile(phases) == ReconcilePhase(phases[k])
  {
    var p := CurrentPhase(phases);
    PhaseDecidesItself(p);
    k :| 0 <= k < |phases| && phases[k] == p;
    forall i | 0 <= i < |phases| && i != k ensures phases[i].number != p.number {
      NumbersDiffer(phases, i, k);
    }
  }

  lemma {:induction false} NumbersDiffer(phases: seq<Phase>, i: nat, j: nat)
    requires DistinctBy(phases, Number) && i < |phases| && j < |phases| && i != j
    ensures phases[i].number != phases[j].number
  {
    assert Number(phases[i]) != Number(phases[j]) by {
      assert i < j || j < i;
    }
  }

  lemma {:induction false} PhaseDecidesItself(p: Phase)
    ensures ReconcilePhase(p).phase == p.number
  {
  }

  lemma {:induction false} RoundReplaces(phases: seq<Phase>, e: Evidence) returns (k: nat)
    requires Good(phases) && !Stopped(Reconcile(phases))
    ensures k < |phases| && k == Position(phases, Reconcile(phases).phase)
    ensures Round(phases, e) == phases[k := Act(phases[k], Reconcile(phases), e)]
    ensures Earliest(phases, phases[k])
    ensures Reconcile(phases) == ReconcilePhase(phases[k])
  {
    k := DecidedPhase(phases);
  }

  lemma {:induction false} NoneUncheckedIff(tasks: seq<Task>)
    ensures UncheckedCount(tasks) == 0 <==> forall t :: t in tasks ==> t.checked
    decreases |tasks|
  {
    if tasks != [] {
      NoneUncheckedIff(tasks[1..]);
      assert tasks == [tasks[0]] + tasks[1..];
    }
  }

  /** A selected task is the first unchecked one; or there is none, and the phase waits for its review. */
  lemma {:induction false} SelectedOrReviewed(p: Phase) returns (t: Task)
    requires ReconcilePhase(p).Select?
    ensures p.tasks.Some? && t.id == ReconcilePhase(p).taskId
    ensures if UncheckedCount(p.tasks.value) == 0 then Awaiting(p) else SelectsFirstUnchecked(p.tasks.value, t)
  {
    t := SelectInPhase(p);
    NoneUncheckedIff(p.tasks.value);
  }

  lemma {:induction false} ActKeepsGood(p: Phase, e: Evidence)
    requires GoodPhase(p) && !Terminal(p) && GoodEvidence(e)
    ensures GoodPhase(Act(p, ReconcilePhase(p), e))
    ensures Act(p, ReconcilePhase(p), e).number == p.number
  {
    var d := ReconcilePhase(p);
    if d.Select? {
      var t := SelectedOrReviewed(p);
      if UncheckedCount(p.tasks.value) > 0 {
        CheckKeepsLedger(p.tasks.value, t);
      }
    }
  }

  /** What a round does to the phase it is about. */
  ghost predicate Lowers(p: Phase, q: Phase) {
    && (Uninitialized(q) ==> Uninitialized(p))
    && (OpenWorkOf(q) < OpenWorkOf(p) || (OpenWorkOf(q) == OpenWorkOf(p) && Awaiting(p) && !Awaiting(q)))
  }

  lemma {:induction false} ActLowersMeasure(p: Phase, e: Evidence)
    requires GoodPhase(p) && !Terminal(p) && GoodEvidence(e) && !Stopped(ReconcilePhase(p))
    ensures var q := Act(p, ReconcilePhase(p), e);
      if ReconcilePhase(p).Initialize? then Uninitialized(p) && !Uninitialized(q) else Lowers(p, q)
  {
    var d := ReconcilePhase(p);
    if d.Select? {
      var t := SelectedOrReviewed(p);
      if UncheckedCount(p.tasks.value) > 0 {
        CheckLowersCount(p.tasks.value, t);
      }
    } else if d.Initialize? {
      InitializeInPhase(p);
    }
  }

  lemma {:induction false} ReplaceKeepsGood(phases: seq<Phase>, k: nat, p: Phase)
    requires Good(phases) && k < |phases| && GoodPhase(p) && p.number == phases[k].number
    ensures Good(phases[k := p])
  {
    var after := phases[k := p];
    forall i, j | 0 <= i < j < |after| ensures Number(after[i]) != Number(after[j]) {
      assert Number(phases[i]) != Number(phases[j]);
    }
  }

  /** Every round keeps checked tasks a prefix by index in every unfinished phase. */
  lemma {:induction false} RoundKeepsGood(phases: seq<Phase>, e: Evidence)
    requires Good(phases) && GoodEvidence(e)
    ensures Good(Round(phases, e))
  {
    if !Stopped(Reconcile(phases)) {
      var k := RoundReplaces(phases, e);
      ActKeepsGood(phases[k], e);
      ReplaceKeepsGood(phases, k, Act(phases[k], Reconcile(phases), e));
    }
  }

  /**
   * Until the engine stops, each round goes down lexicographically: an initialization creates one
   * missing ledger; any other round lowers unchecked tasks plus unfinished phases, or keeps them and
   * settles a review.
   */
  lemma {:induction false} RoundLowersMeasure(phases: seq<Phase>, e: Evidence)
    requires Good(phases) && GoodEvidence(e) && !Stopped(Reconcile(phases))
    ensures var next := Round(phases, e);
      if Reconcile(phases).Initialize? then MissingLedgers(next) < MissingLedgers(phases)
      else
        && MissingLedgers(next) <= MissingLedgers(phases)
        && (OpenWork(next) < OpenWork(phases) || (OpenWork(next) == OpenWork(phases) && Reviews(next) < Reviews(phases)))
        && Remaining(next) < Remaining(phases)
  {
    var k := RoundReplaces(phases, e);
    ActLowersMeasure(phases[k], e);
    UpdateMeasure(phases, k, Act(phases[k], Reconcile(phases), e));
  }

  // ---------------------------------------------------------------------------
  // Whole runs
  // ---------------------------------------------------------------------------

  function Rounds(phases: seq<Phase>, es: seq<Evidence>): seq<Phase>
    decreases |es|
  {
    if es == [] then phases else Rounds(Round(phases, es[0]), es[1..])
  }

  ghost predicate AllGood(es: seq<Evidence>) {
    forall i :: 0 <= i < |es| ==> GoodEvidence(es[i])
  }

  lemma {:induction false} RoundsKeepGood(phases: seq<Phase>, es: seq<Evidence>)
    requires Good(phases) && AllGood(es)
    ensures Good(Rounds(phases, es))
    decreases |es|
  {
    if es != [] {
      RoundKeepsGood(phases, es[0]);
      RoundsKeepGood(Round(phases, es[0]), es[1..]);
    }
  }

  /**
   * With phases that all have their ledgers, at most two rounds for each unchecked task and unfinished
   * phase, and one for each awaited review, lead to "all terminal" or to a block.
   */
  lemma {:induction false} RunsStop(phases: seq<Phase>, es: seq<Evidence>)
    requires Good(phases) && AllGood(es) && MissingLedgers(phases) == 0
    requires |es| >= Remaining(phases)
    ensures Stopped(Reconcile(Rounds(phases, es)))
    decreases |es|
  {
    if Stopped(Reconcile(phases)) {
      StoppedStays(phases, es);
    } else {
      InitializeNeedsMissingLedger(phases);
      RoundLowersMeasure(phases, es[0]);
      RoundKeepsGood(phases, es[0]);
      RunsStop(Round(phases, es[0]), es[1..]);
    }
  }

  lemma {:induction false} StoppedStays(phases: seq<Phase>, es: seq<Evidence>)
    requires Stopped(Reconcile(phases))
    ensures Rounds(phases, es) == phases
    decreases |es|
  {
    if es != [] {
      StoppedStays(phases, es[1..]);
    }
  }

  lemma {:induction false} MissingLedgersAt(phases: seq<Phase>, k: nat)
    requires k < |phases| && Uninitialized(phases[k])
    ensures MissingLedgers(phases) > 0
    decreases |phases|
  {
    if k > 0 {
      MissingLedgersAt(phases[1..], k - 1);
    }
  }

  lemma {:induction false} InitializeNeedsMissingLedger(phases: seq<Phase>)
    requires Good(phases) && !Stopped(Reconcile(phases)) && MissingLedgers(phases) == 0
    ensures !Reconcile(phases).Initialize? && OpenWork(phases) > 0
  {
    var k := DecidedPhase(phases);
    if Reconcile(phases).Initialize? {
      InitializeInPhase(phases[k]);
      MissingLedgersAt(phases, k);
    }
    OpenWorkAt(phases, k);
  }

  lemma {:induction false} OpenWorkAt(phases: seq<Phase>, k: nat)
    requires k < |phases| && !Terminal(phases[k])
    ensures OpenWork(phases) > 0
    decreases |phases|
  {
    if k > 0 {
      OpenWorkAt(phases[1..], k - 1);
    }
  }

  function Prefix(world: nat -> Evidence, from: nat, n: nat): (es: seq<Evidence>)
    ensures |es| == n && forall i :: 0 <= i < n ==> es[i] == world(from + i)
  {
    seq(n, i requires 0 <= i < n => world(from + i))
  }

  /** Whatever the world contributes, ledgers of any length included, every run stops. */
  lemma {:induction false} RunsStopEventually(phases: seq<Phase>, world: nat -> Evidence, from: nat) returns (n: nat)
    requires Good(phases) && forall i: nat :: GoodEvidence(world(i))
    ensures Stopped(Reconcile(Rounds(phases, Prefix(world, from, n))))
    decreases MissingLedgers(phases), Remaining(phases)
  {
    if Stopped(Reconcile(phases)) {
      n := 0;
    } else {
      RoundLowersMeasure(phases, world(from));
      RoundKeepsGood(phases, world(from));
      var m := RunsStopEventually(Round(phases, world(from)), world, from + 1);
      n := m + 1;
      OneMoreRound(phases, world, from, m);
    }
  }

  lemma {:induction false} OneMoreRound(phases: seq<Phase>, world: nat -> Evidence, from: nat, m: nat)
    ensures Rounds(phases, Prefix(world, from, m + 1)) == Rounds(Round(phases, world(from)), Prefix(world, from + 1, m))
  {
    assert Prefix(world, from, m + 1)[1..] == Prefix(world, from + 1, m);
  }

  /** A finished phase is never touched again. */
  lemma {:induction false} RoundKeepsTerminal(phases: seq<Phase>, e: Evidence, i: nat)
    requires Good(phases) && i < |phases| && Terminal(phases[i])
    ensures |Round(phases, e)| == |phases| && Round(phases, e)[i] == phases[i]
  {
    if !Stopped(Reconcile(phases)) {
      var k := RoundReplaces(phases, e);
    }
  }

  lemma {:induction false} RoundsKeepTerminal(phases: seq<Phase>, es: seq<Evidence>, i: nat)
    requires Good(phases) && AllGood(es) && i < |phases| && Terminal(phases[i])
    ensures |Rounds(phases, es)| == |phases| && Rounds(phases, es)[i] == phases[i]
    decreases |es|
  {
    if es != [] {
      RoundKeepsTerminal(phases, es[0], i);
      RoundKeepsGood(phases, es[0]);
      RoundsKeepTerminal(Round(phases, es[0]), es[1..], i);
    }
  }

  lemma {:induction false} RoundsKeepLength(phases: seq<Phase>, es: seq<Evidence>)
    ensures |Rounds(phases, es)| == |phases|
    decreases |es|
  {
    if es != [] {
      RoundsKeepLength(Round(phases, es[0]), es[1..]);
    }
  }

  lemma {:induction false} RoundsKeepNumbers(phases: seq<Phase>, es: seq<Evidence>, i: nat)
    requires Good(phases) && AllGood(es) && i < |phases|
    ensures |Rounds(phases, es)| == |phases| && Rounds(phases, es)[i].number == phases[i].number
    decreases |es|
  {
    if es != [] {
      RoundKeepsGood(phases, es[0]);
      if !Stopped(Reconcile(phases)) {
        var k := RoundReplaces(phases, es[0]);
        ActKeepsGood(phases[k], es[0]);
      }
      RoundsKeepNumbers(Round(phases, es[0]), es[1..], i);
    }
  }

  /** After a promotion, every phase of that number or less is finished. */
  lemma {:induction false} PromotionFinishesBelow(phases: seq<Phase>, e: Evidence, i: nat)
    requires Good(phases) && GoodEvidence(e) && Reconcile(phases).Promote?
    requires i < |phases| && phases[i].number <= Reconcile(phases).phase
    ensures |Round(phases, e)| == |phases| && Terminal(Round(phases, e)[i])
  {
    var k := RoundReplaces(phases, e);
    PhaseDecidesItself(phases[k]);
    if i != k {
      NumbersDiffer(phases, i, k);
      assert phases[i] in phases;
    }
  }

  /** The phase a later round decides about was unfinished right after this one. */
  lemma {:induction false} LaterDecisionIsUnfinished(phases: seq<Phase>, e: Evidence, es: seq<Evidence>) returns (j: nat)
    requires Good(phases) && GoodEvidence(e) && AllGood(es)
    requires Reconcile(Rounds(Round(phases, e), es)).Promote?
    ensures |Round(phases, e)| == |phases| && j < |phases|
    ensures phases[j].number == Reconcile(Rounds(Round(phases, e), es)).phase && !Terminal(Round(phases, e)[j])
  {
    var next := Round(phases, e);
    var last := Rounds(next, es);
    RoundKeepsGood(phases, e);
    RoundsKeepGood(next, es);
    j := DecidedPhase(last);
    PhaseDecidesItself(last[j]);
    assert Rounds(phases, [e]) == next by {
      assert Rounds(next, [e][1..]) == next;
    }
    RoundsKeepLength(phases, [e]);
    RoundsKeepLength(next, es);
    RoundsKeepNumbers(next, es, j);
    RoundsKeepNumbers(phases, [e], j);
    if Terminal(next[j]) {
      RoundsKeepTerminal(next, es, j);
    }
  }

  /**
   * Phases are promoted in increasing number: whatever happens between two promotions, the later
   * one is of a larger phase.
   */
  lemma {:induction false} PromotionsIncrease(phases: seq<Phase>, e: Evidence, es: seq<Evidence>)
    requires Good(phases) && GoodEvidence(e) && AllGood(es)
    requires Reconcile(phases).Promote? && Reconcile(Rounds(Round(phases, e), es)).Promote?
    ensures Reconcile(phases).phase < Reconcile(Rounds(Round(phases, e), es)).phase
  {
    var j := LaterDecisionIsUnfinished(phases, e, es);
    if phases[j].number <= Reconcile(phases).phase {
      PromotionFinishesBelow(phases, e, j);
    }
  }
}
