module DebtOutcomes {
  /**
   * Which triage actions are accepted, with which refusal the others end, and where each leads: said
   * operation by operation, of one action and of whole runs.
   */

  import opened Wrappers
  import opened DebtPolicy
  import opened DebtRows
  import opened DebtRegister

  // ---------------------------------------------------------------------------
  // One action
  // ---------------------------------------------------------------------------

  predicate Addressed(h: Hygiene, aggregate: Aggregate, actorId: string, a: Action) {
    && h.aggregate(aggregate) && h.identifier(actorId)
    && h.identifier(a.projectId) && h.recordId(a.recordId) && h.text(a.reason) && h.timestamp(a.occurredAt)
  }

  /** The keys besides the common six, and the values under them. */
  predicate Fits(h: Hygiene, a: Action) {
    match a.operation
    case Confirm =>
      && a.keys == {"operation", "projectId", "recordId", "expectedVersion", "reason", "occurredAt",
                    "ownerId", "rationale", "risk", "architecturalBoundary", "priority", "futureTouchTrigger"}
      && h.identifier(a.ownerId) && h.text(a.rationale) && h.text(a.risk) && h.identifier(a.boundary) && h.trigger(a.trigger)
      && (a.priority == "P0" || a.priority == "P1" || a.priority == "P2" || a.priority == "P3")
    case Reassign =>
      && a.keys == {"operation", "projectId", "recordId", "expectedVersion", "reason", "occurredAt", "ownerId"}
      && h.identifier(a.ownerId)
    case PlanLink =>
      && a.keys == {"operation", "projectId", "recordId", "expectedVersion", "reason", "occurredAt", "featureId", "phaseTask"}
      && h.identifier(a.featureId) && h.identifier(a.phaseTask)
    case AcceptRisk =>
      && a.keys == {"operation", "projectId", "recordId", "expectedVersion", "reason", "occurredAt", "reviewTrigger"}
      && h.identifier(a.reviewTrigger)
    case Close =>
      && a.keys == {"operation", "projectId", "recordId", "expectedVersion", "reason", "occurredAt", "closureEvidence"}
      && h.text(a.closureEvidence)
    case Reject => a.keys == {"operation", "projectId", "recordId", "expectedVersion", "reason", "occurredAt"}
    case Defer => a.keys == {"operation", "projectId", "recordId", "expectedVersion", "reason", "occurredAt"}
    case _ =>
      && a.keys == {"operation", "projectId", "recordId", "expectedVersion", "reason", "occurredAt", "targetAggregate"}
      && a.targetAggregate.Some? && h.aggregate(a.targetAggregate.value)
  }

  /** The target of a merge or supersession: another, open record of the project that does not point back. */
  predicate Replaces(aggregate: Aggregate, target: Aggregate) {
    && target.projectId == aggregate.projectId && target.recordId != aggregate.recordId
    && !target.state.Closed? && !target.state.Rejected? && !target.state.Merged? && !target.state.Superseded?
    && target.duplicateOf != Some(aggregate.recordId) && target.supersededBy != Some(aggregate.recordId)
  }

  /** The answer to an action: accepted exactly when every test passes, otherwise the refusal of the first that fails. */
  lemma {:induction false} AcceptedIff(h: Hygiene, aggregate: Aggregate, actorId: string, a: Action)
    ensures var outcome := Evaluate(h, aggregate, actorId, a);
      var own := a.projectId == aggregate.projectId && a.recordId == aggregate.recordId;
      var current := a.expectedVersion == aggregate.eventVersion;
      var admitted := Admits(a.operation, aggregate.state);
      var replaced := a.operation.Merge? || a.operation.Supersede? ==>
        a.targetAggregate.Some? && Replaces(aggregate, a.targetAggregate.value);
      && (outcome == Err(ForeignIdentity) <==> Addressed(h, aggregate, actorId, a) && !own)
      && (outcome == Err(StaleVersion) <==> Addressed(h, aggregate, actorId, a) && own && !current)
      && (outcome == Err(InvalidTransition) <==> Addressed(h, aggregate, actorId, a) && own && current && !admitted)
      && (outcome == Err(InvalidTarget) <==>
            Addressed(h, aggregate, actorId, a) && own && current && admitted && Fits(h, a) && !replaced)
      && (outcome.Ok? <==> Addressed(h, aggregate, actorId, a) && own && current && admitted && Fits(h, a) && replaced)
  {
    AdmitsAllowed(a.operation, aggregate.state);
    FitsValid(h, a);
  }

  lemma {:induction false} AdmitsAllowed(operation: Operation, state: DebtState)
    ensures TransitionAllowed(state, operation) <==> Admits(operation, state)
  {
  }

  lemma {:induction false} FitsValid(h: Hygiene, a: Action)
    ensures a.keys == ActionKeys(a.operation) && PayloadValid(h, a) <==> Fits(h, a)
  {
    if a.operation.Confirm? {
      assert ActionKeys(a.operation) == {"operation", "projectId", "recordId", "expectedVersion", "reason", "occurredAt",
        "ownerId", "rationale", "risk", "architecturalBoundary", "priority", "futureTouchTrigger"};
    }
  }

  // ---------------------------------------------------------------------------
  // Whole runs
  // ---------------------------------------------------------------------------

  /** After any run, every triage of a record started from a state that admits it and led where it leads. */
  lemma {:induction false} EveryTriageLeads(r: Register, commands: seq<Command>, id: string, k: nat)
    requires Init(r) && id in Run(r, commands).records
    requires id in Run(r, commands).events && k < |Run(r, commands).events[id]|
    requires Run(r, commands).events[id][k].kind.TriageRow?
    ensures var rows := Run(r, commands).events[id];
      k > 0 && Admits(rows[k].kind.event.operation, rows[k - 1].state)
      && Leads(rows[k].kind.event.operation, rows[k - 1].state, rows[k].state)
  {
    RecordsStayConsistent(r, commands, id);
    var rows := Run(r, commands).events[id];
    RowLeads(rows, Run(r, commands).records[id], k);
  }

  lemma {:induction false} RowLeads(rows: seq<EventRow>, a: Aggregate, k: nat)
    requires Chain(rows, a) && k < |rows| && rows[k].kind.TriageRow?
    ensures k > 0 && Admits(rows[k].kind.event.operation, rows[k - 1].state)
    ensures Leads(rows[k].kind.event.operation, rows[k - 1].state, rows[k].state)
  {
    assert RowFits(rows, a.recordId, k);
    AdmitsAllowed(rows[k].kind.event.operation, rows[k - 1].state);
  }

  /** The last triage besides reassignments. */
  function LastDecision(rows: seq<EventRow>): Option<Operation>
    decreases |rows|
  {
    if rows == [] then None
    else
      var kind := rows[|rows| - 1].kind;
      if kind.TriageRow? && !kind.event.operation.Reassign? then Some(kind.event.operation)
      else LastDecision(rows[..|rows| - 1])
  }

  /** The state that stands for a decision. */
  predicate StandsFor(state: DebtState, decision: Option<Operation>) {
    && (state.PendingTriage? <==> decision == None)
    && (state.Confirmed? <==> decision == Some(Confirm))
    && (state.Deferred? <==> decision == Some(Defer))
    && (state.AcceptedRisk? <==> decision == Some(AcceptRisk))
    && (state.Planned? <==> decision == Some(PlanLink))
    && (state.Closed? <==> decision == Some(Close))
    && (state.Rejected? <==> decision == Some(Reject))
    && (state.Merged? <==> decision == Some(Merge))
    && (state.Superseded? <==> decision == Some(Supersede))
  }

  lemma {:induction false} RowsStandFor(rows: seq<EventRow>, a: Aggregate, n: nat)
    requires Chain(rows, a) && 0 < n <= |rows| && rows[0].state.PendingTriage?
    ensures StandsFor(rows[n - 1].state, LastDecision(rows[..n]))
    decreases n
  {
    assert rows[..n][..n - 1] == rows[..n - 1];
    assert RowFits(rows, a.recordId, n - 1);
    if n > 1 {
      RowsStandFor(rows, a, n - 1);
      if rows[n - 1].kind.TriageRow? {
        RowLeads(rows, a, n - 1);
      }
    } else {
      assert LastDecision(rows[..0]) == None;
    }
  }

  lemma {:induction false} StartsPending(base: Aggregate, rows: seq<EventRow>, observed: nat)
    requires Replay(base, rows, observed).Some?
    ensures rows != [] && rows[0].state.PendingTriage?
    decreases |rows|
  {
    if |rows| > 1 {
      StartsPending(base, rows[..|rows| - 1], observed);
    }
  }

  /** After any run, the state of a record is that of its last triage besides reassignments, or pending when there was none. */
  lemma {:induction false} StateIsLastDecision(r: Register, commands: seq<Command>, id: string)
    requires Init(r) && id in Run(r, commands).records
    ensures var t := Run(r, commands);
      id in t.events && StandsFor(t.records[id].state, LastDecision(t.events[id]))
  {
    RecordsStayConsistent(r, commands, id);
    var t := Run(r, commands);
    var rows := t.events[id];
    StartsPending(t.roots[id].base, rows, |t.observations[id]|);
    RowsStandFor(rows, t.records[id], |rows|);
    assert rows[..|rows|] == rows;
  }
}
