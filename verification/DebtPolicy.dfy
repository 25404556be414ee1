module DebtPolicy {
  /**
   * The architecture-debt triage policy: one version-bound action on one record.
   *
   * Text hygiene (length limits, control characters, secret-like patterns, timestamps) is a
   * parameter; everything else follows the policy branch by branch.
   */

  import opened Wrappers

  datatype DebtState =
    | PendingTriage | Confirmed | Deferred | AcceptedRisk | Planned
    | Closed | Rejected | Merged | Superseded

  datatype Operation =
    | Confirm | Reject | Merge | Reassign | Defer | AcceptRisk | PlanLink | Close | Supersede

  datatype Trigger = Trigger(triggerId: string, name: string, paths: seq<string>, symbols: seq<string>, ruleTags: seq<string>)

  datatype Location = Location(locationId: string, relativePath: string, symbol: Option<string>, ruleTags: seq<string>)

  datatype Aggregate = Aggregate(
    recordId: string,
    projectId: string,
    eventVersion: nat,
    state: DebtState,
    ownerId: string,
    rationale: string,
    risk: string,
    boundary: string,
    priority: string,
    stewardConfirmed: bool,
    trigger: Trigger,
    locations: seq<Location>,
    duplicateOf: Option<string>,
    supersededBy: Option<string>)
  {
    /** Retired records point at the record that replaces them. */
    predicate Retired() {
      state.Merged? || state.Superseded?
    }

    predicate Open() {
      state.PendingTriage? || state.Confirmed? || state.Deferred? || state.AcceptedRisk? || state.Planned?
    }

    predicate PointerFree() {
      duplicateOf.None? && supersededBy.None?
    }

    function Pointer(): Option<string> {
      if duplicateOf.Some? then duplicateOf else supersededBy
    }

    /** The lifecycle state and the pointers tell the same story. */
    predicate PointersMatchState() {
      && (state.Merged? <==> duplicateOf.Some?)
      && (state.Superseded? <==> supersededBy.Some?)
    }
  }

  /** An action as received: the keys it carries, and the values under them. */
  datatype Action = Action(
    keys: set<string>,
    operation: Operation,
    projectId: string,
    recordId: string,
    expectedVersion: nat,
    reason: string,
    occurredAt: string,
    ownerId: string,
    rationale: string,
    risk: string,
    boundary: string,
    priority: string,
    trigger: Trigger,
    targetAggregate: Option<Aggregate>,
    featureId: string,
    phaseTask: string,
    reviewTrigger: string,
    closureEvidence: string)

  /** The text predicates of the policy, left uninterpreted. */
  datatype Hygiene = Hygiene(
    text: string -> bool,
    identifier: string -> bool,
    recordId: string -> bool,
    timestamp: string -> bool,
    trigger: Trigger -> bool,
    aggregate: Aggregate -> bool)

  datatype Event = Event(
    operation: Operation,
    projectId: string,
    recordId: string,
    actorId: string,
    expectedVersion: nat,
    resultingVersion: nat,
    target: Option<string>)

  datatype RefusalCode =
    | InvalidInput | StaleVersion | ForeignIdentity | InvalidTransition | InvalidTarget

  datatype Accepted = Accepted(event: Event, next: Aggregate)

  const BASE_KEYS: set<string> := {"operation", "projectId", "recordId", "expectedVersion", "reason", "occurredAt"}

  const PRIORITIES: set<string> := {"P0", "P1", "P2", "P3"}

  /** The exact key set the policy demands of an action. */
  function ActionKeys(operation: Operation): set<string> {
    BASE_KEYS + match operation
      case Confirm => {"ownerId", "rationale", "risk", "architecturalBoundary", "priority", "futureTouchTrigger"}
      case Reassign => {"ownerId"}
      case Merge => {"targetAggregate"}
      case Supersede => {"targetAggregate"}
      case PlanLink => {"featureId", "phaseTask"}
      case AcceptRisk => {"reviewTrigger"}
      case Close => {"closureEvidence"}
      case Reject => {}
      case Defer => {}
  }

  function AllowedOperations(state: DebtState): set<Operation> {
    match state
    case PendingTriage => {Confirm, Reject, Merge, Reassign, Defer, AcceptRisk, PlanLink, Supersede}
    case Confirmed => {Merge, Reassign, Defer, AcceptRisk, PlanLink, Close, Supersede}
    case Deferred => {Confirm, Merge, Reassign, AcceptRisk, PlanLink, Close, Supersede}
    case AcceptedRisk => {Confirm, Reassign, PlanLink, Close, Supersede}
    case Planned => {Reassign, Defer, AcceptRisk, Close, Supersede}
    case _ => {}
  }

  predicate TransitionAllowed(state: DebtState, operation: Operation) {
    operation in AllowedOperations(state)
  }

  function NextState(operation: Operation, state: DebtState): DebtState {
    match operation
    case Confirm => Confirmed
    case Reject => Rejected
    case Merge => Merged
    case Reassign => state
    case Defer => Deferred
    case AcceptRisk => AcceptedRisk
    case PlanLink => Planned
    case Close => Closed
    case Supersede => Superseded
  }

  predicate SameTargetProject(source: Aggregate, candidate: Aggregate) {
    source.projectId == candidate.projectId && source.recordId != candidate.recordId && candidate.Open()
  }

  predicate TargetCreatesCycle(source: Aggregate, candidate: Aggregate) {
    candidate.duplicateOf == Some(source.recordId) || candidate.supersededBy == Some(source.recordId)
  }

  predicate ActionBase(h: Hygiene, a: Action) {
    h.identifier(a.projectId) && h.recordId(a.recordId) && h.text(a.reason) && h.timestamp(a.occurredAt)
  }

  /** The payload values an operation needs, once its keys are right. */
  predicate PayloadValid(h: Hygiene, a: Action) {
    match a.operation
    case Confirm =>
      && h.identifier(a.ownerId) && h.text(a.rationale) && h.text(a.risk) && h.identifier(a.boundary)
      && a.priority in PRIORITIES && h.trigger(a.trigger)
    case Reassign => h.identifier(a.ownerId)
    case Merge => a.targetAggregate.Some? && h.aggregate(a.targetAggregate.value)
    case Supersede => a.targetAggregate.Some? && h.aggregate(a.targetAggregate.value)
    case PlanLink => h.identifier(a.featureId) && h.identifier(a.phaseTask)
    case AcceptRisk => h.identifier(a.reviewTrigger)
    case Close => h.text(a.closureEvidence)
    case Reject => true
    case Defer => true
  }

  /** Evaluates one independently authorised, version-bound triage action. */
  function Evaluate(h: Hygiene, aggregate: Aggregate, actorId: string, a: Action): Result<Accepted, RefusalCode> {
    if !h.aggregate(aggregate) || !h.identifier(actorId) || !ActionBase(h, a) then Err(InvalidInput)
    else if a.projectId != aggregate.projectId || a.recordId != aggregate.recordId then Err(ForeignIdentity)
    else if a.expectedVersion != aggregate.eventVersion then Err(StaleVersion)
    else if !TransitionAllowed(aggregate.state, a.operation) then Err(InvalidTransition)
    else if a.keys != ActionKeys(a.operation) || !PayloadValid(h, a) then Err(InvalidInput)
    else
      var version := aggregate.eventVersion + 1;
      var base := aggregate.(state := NextState(a.operation, aggregate.state), eventVersion := version);
      var event := Event(a.operation, aggregate.projectId, aggregate.recordId, actorId, aggregate.eventVersion, version, None);
      match a.operation
      case Confirm =>
        Ok(Accepted(event, base.(
          ownerId := a.ownerId, rationale := a.rationale, risk := a.risk, boundary := a.boundary,
          priority := a.priority, stewardConfirmed := true, trigger := a.trigger)))
      case Reassign => Ok(Accepted(event, base.(ownerId := a.ownerId)))
      case Merge =>
        var t := a.targetAggregate.value;
        if !SameTargetProject(aggregate, t) || TargetCreatesCycle(aggregate, t) then Err(InvalidTarget)
        else Ok(Accepted(event.(target := Some(t.recordId)), base.(duplicateOf := Some(t.recordId))))
      case Supersede =>
        var t := a.targetAggregate.value;
        if !SameTargetProject(aggregate, t) || TargetCreatesCycle(aggregate, t) then Err(InvalidTarget)
        else Ok(Accepted(event.(target := Some(t.recordId)), base.(supersededBy := Some(t.recordId))))
      case _ => Ok(Accepted(event, base))
  }

  /** The states from which an operation may be taken. */
  predicate Admits(operation: Operation, state: DebtState) {
    match operation
    case Reject => state.PendingTriage?
    case Confirm => state.PendingTriage? || state.Deferred? || state.AcceptedRisk?
    case Merge => state.PendingTriage? || state.Confirmed? || state.Deferred?
    case Defer => state.PendingTriage? || state.Confirmed? || state.Planned?
    case PlanLink => state.PendingTriage? || state.Confirmed? || state.Deferred? || state.AcceptedRisk?
    case AcceptRisk => state.PendingTriage? || state.Confirmed? || state.Deferred? || state.Planned?
    case Close => state.Confirmed? || state.Deferred? || state.AcceptedRisk? || state.Planned?
    case Reassign =>
      state.PendingTriage? || state.Confirmed? || state.Deferred? || state.AcceptedRisk? || state.Planned?
    case Supersede =>
      state.PendingTriage? || state.Confirmed? || state.Deferred? || state.AcceptedRisk? || state.Planned?
  }

  /** A state is reached by its own operation only, or kept by a reassignment. */
  predicate Leads(operation: Operation, from: DebtState, to: DebtState) {
    && (to.Confirmed? <==> operation.Confirm? || (operation.Reassign? && from.Confirmed?))
    && (to.Rejected? <==> operation.Reject? || (operation.Reassign? && from.Rejected?))
    && (to.Merged? <==> operation.Merge? || (operation.Reassign? && from.Merged?))
    && (to.Superseded? <==> operation.Supersede? || (operation.Reassign? && from.Superseded?))
    && (to.Deferred? <==> operation.Defer? || (operation.Reassign? && from.Deferred?))
    && (to.AcceptedRisk? <==> operation.AcceptRisk? || (operation.Reassign? && from.AcceptedRisk?))
    && (to.Planned? <==> operation.PlanLink? || (operation.Reassign? && from.Planned?))
    && (to.Closed? <==> operation.Close? || (operation.Reassign? && from.Closed?))
    && (to.PendingTriage? <==> operation.Reassign? && from.PendingTriage?)
  }

  /** The fields that only a confirmation sets; a reassignment sets the owner. */
  ghost predicate FieldsSet(aggregate: Aggregate, a: Action, next: Aggregate) {
    && next.ownerId == (if a.operation.Confirm? || a.operation.Reassign? then a.ownerId else aggregate.ownerId)
    && next.rationale == (if a.operation.Confirm? then a.rationale else aggregate.rationale)
    && next.risk == (if a.operation.Confirm? then a.risk else aggregate.risk)
    && next.boundary == (if a.operation.Confirm? then a.boundary else aggregate.boundary)
    && next.priority == (if a.operation.Confirm? then a.priority else aggregate.priority)
    && next.trigger == (if a.operation.Confirm? then a.trigger else aggregate.trigger)
    && next.stewardConfirmed == (a.operation.Confirm? || aggregate.stewardConfirmed)
    && next.locations == aggregate.locations
  }

  /** The event is that of this very step, by this actor. */
  ghost predicate EventRecords(aggregate: Aggregate, actorId: string, a: Action, event: Event) {
    && event.operation == a.operation
    && event.projectId == aggregate.projectId && event.recordId == aggregate.recordId
    && event.actorId == actorId
    && event.expectedVersion == aggregate.eventVersion && event.resultingVersion == aggregate.eventVersion + 1
    && event.target == (if (a.operation.Merge? || a.operation.Supersede?) && a.targetAggregate.Some?
                        then Some(a.targetAggregate.value.recordId) else None)
  }

  /** What an accepted action does, for every operation. */
  ghost predicate Effect(aggregate: Aggregate, actorId: string, a: Action, accepted: Accepted) {
    var next := accepted.next;
    && a.recordId == aggregate.recordId && a.projectId == aggregate.projectId
    && a.expectedVersion == aggregate.eventVersion
    && TransitionAllowed(aggregate.state, a.operation)
    && next.recordId == aggregate.recordId && next.projectId == aggregate.projectId
    && next.eventVersion == aggregate.eventVersion + 1
    && next.state == NextState(a.operation, aggregate.state)
    && (if a.operation.Merge? || a.operation.Supersede? then
          && a.targetAggregate.Some?
          && SameTargetProject(aggregate, a.targetAggregate.value)
          && (if a.operation.Merge?
              then next.duplicateOf == Some(a.targetAggregate.value.recordId) && next.supersededBy == aggregate.supersededBy
              else next.supersededBy == Some(a.targetAggregate.value.recordId) && next.duplicateOf == aggregate.duplicateOf)
        else next.duplicateOf == aggregate.duplicateOf && next.supersededBy == aggregate.supersededBy)
    && FieldsSet(aggregate, a, next)
    && EventRecords(aggregate, actorId, a, accepted.event)
  }

  lemma {:induction false} EvaluateEffect(h: Hygiene, aggregate: Aggregate, actorId: string, a: Action)
    requires Evaluate(h, aggregate, actorId, a).Ok?
    ensures Effect(aggregate, actorId, a, Evaluate(h, aggregate, actorId, a).value)
    ensures Admits(a.operation, aggregate.state)
    ensures Leads(a.operation, aggregate.state, Evaluate(h, aggregate, actorId, a).value.next.state)
  {
  }

  /** Only open records ever move, and retiring is exactly being merged or superseded. */
  lemma {:induction false} EffectKeepsPointers(aggregate: Aggregate, actorId: string, a: Action, accepted: Accepted)
    requires aggregate.PointersMatchState() && Effect(aggregate, actorId, a, accepted)
    ensures aggregate.Open() && accepted.next.PointersMatchState()
    ensures accepted.next.Retired() <==> a.operation.Merge? || a.operation.Supersede?
    ensures accepted.next.Retired() ==> accepted.next.Pointer() == Some(a.targetAggregate.value.recordId)
  {
  }

  /** The reverse-pointer test never decides: an open candidate whose pointers match its state has none. */
  lemma {:induction false} OpenTargetImpliesNoCycle(source: Aggregate, candidate: Aggregate)
    requires candidate.PointersMatchState() && SameTargetProject(source, candidate)
    ensures !TargetCreatesCycle(source, candidate)
  {
  }

  // ---------------------------------------------------------------------------
  // The confirmed-action service in front of the policy
  // ---------------------------------------------------------------------------

  /** The payload keys the service admits for a triage action. */
  function ServicePayloadKeys(operation: Operation): set<string> {
    match operation
    case Confirm => {"ownerId", "rationale", "risk", "architecturalBoundary", "priority", "futureTouchTrigger"}
    case Merge => {"targetRecordId"}
    case Supersede => {"targetRecordId"}
    case Reassign => {"ownerId"}
    case AcceptRisk => {"reviewTrigger"}
    case PlanLink => {"featureId", "phaseTask"}
    case Close => {"closureEvidence"}
    case Reject => {}
    case Defer => {}
  }

  /** The keys of the action the service hands to the policy: base, spread payload, resolved target. */
  function ServiceActionKeys(operation: Operation): set<string> {
    BASE_KEYS + ServicePayloadKeys(operation) + (if operation.Merge? || operation.Supersede? then {"targetAggregate"} else {})
  }

  /**
   * The service spreads targetRecordId beside targetAggregate, and the policy demands exact keys:
   * the two key sets agree for every operation except MERGE and SUPERSEDE.
   */
  lemma {:induction false} ServiceKeysAgreeIff(operation: Operation)
    ensures ServiceActionKeys(operation) == ActionKeys(operation) <==> !operation.Merge? && !operation.Supersede?
  {
    if operation.Merge? || operation.Supersede? {
      assert "targetRecordId" in ServiceActionKeys(operation);
      assert |"targetRecordId"| == 14;
      assert forall key :: key in ActionKeys(operation) ==> |key| != 14;
    }
  }

  /** Hence no MERGE or SUPERSEDE sent through the confirmed-action service is ever accepted. */
  lemma {:induction false} ServiceNeverMerges(h: Hygiene, aggregate: Aggregate, actorId: string, a: Action)
    requires a.keys == ServiceActionKeys(a.operation)
    requires a.operation.Merge? || a.operation.Supersede?
    ensures Evaluate(h, aggregate, actorId, a).Err?
    ensures h.aggregate(aggregate) && h.identifier(actorId) && ActionBase(h, a)
      && a.projectId == aggregate.projectId && a.recordId == aggregate.recordId
      && a.expectedVersion == aggregate.eventVersion && TransitionAllowed(aggregate.state, a.operation)
      ==> Evaluate(h, aggregate, actorId, a) == Err(InvalidInput)
  {
    ServiceKeysAgreeIff(a.operation);
  }
}
