module WorkflowRunner {
  /**
   * Running the nodes of a feature workflow: calls of runNode may overlap, and each one passes the
   * dependency check, the recorder, the operation and the completion mark as separate steps.
   */

  import opened WorkflowSpec

  datatype Stage = Recording | Operating | Finished | Failed

  datatype Call = Call(node: Node, stage: Stage)

  /** completed keeps insertion order, as a JavaScript Set does. */
  datatype State = State(completed: seq<Id>, calls: seq<Call>)

  datatype Event = Start(id: Id) | Recorded(call: nat, ok: bool) | Operated(call: nat, ok: bool)

  datatype Admission = UnknownNode | Missing(ids: seq<Id>) | Admitted(node: Node)

  function MissingOf(dependsOn: seq<Id>, completed: seq<Id>): (r: seq<Id>)
    ensures forall d :: d in r <==> d in dependsOn && d !in completed
    decreases |dependsOn|
  {
    if dependsOn == [] then []
    else
      assert dependsOn == [dependsOn[0]] + dependsOn[1..];
      (if dependsOn[0] in completed then [] else [dependsOn[0]]) + MissingOf(dependsOn[1..], completed)
  }

  /** The synchronous part of runNode, up to the first await. */
  function Admit(nodes: seq<Node>, completed: seq<Id>, id: Id): Admission {
    var k := Position(nodes, id);
    if k == |nodes| then UnknownNode
    else
      var missing := MissingOf(nodes[k].dependsOn, completed);
      if missing != [] then Missing(missing) else Admitted(nodes[k])
  }

  function Added(completed: seq<Id>, id: Id): seq<Id> {
    if id in completed then completed else completed + [id]
  }

  function Step(nodes: seq<Node>, s: State, e: Event): State {
    match e
    case Start(id) =>
      var admission := Admit(nodes, s.completed, id);
      if admission.Admitted? then s.(calls := s.calls + [Call(admission.node, Recording)]) else s
    case Recorded(k, ok) =>
      if k < |s.calls| && s.calls[k].stage == Recording
      then s.(calls := s.calls[k := s.calls[k].(stage := if ok then Operating else Failed)])
      else s
    case Operated(k, ok) =>
      if k < |s.calls| && s.calls[k].stage == Operating
      then State(if ok then Added(s.completed, s.calls[k].node.id) else s.completed,
                 s.calls[k := s.calls[k].(stage := if ok then Finished else Failed)])
      else s
  }

  /** Node j is the first one with the id, and everything it depends on is completed. */
  ghost predicate MayStart(nodes: seq<Node>, completed: seq<Id>, id: Id, j: nat) {
    && j < |nodes| && nodes[j].id == id && (forall i :: 0 <= i < j ==> nodes[i].id != id)
    && forall d :: d in nodes[j].dependsOn ==> d in completed
  }

  /** The stage of a call after an event: a recorder's report is heard while recording, an operation's while operating. */
  ghost predicate StageAfter(e: Event, k: nat, before: Stage, after: Stage) {
    if before == Recording && e == Recorded(k, true) then after == Operating
    else if before == Recording && e == Recorded(k, false) then after == Failed
    else if before == Operating && e == Operated(k, true) then after == Finished
    else if before == Operating && e == Operated(k, false) then after == Failed
    else after == before
  }

  ghost predicate CallMoves(s: State, t: State, e: Event, k: nat) {
    k < |s.calls| && k < |t.calls| && t.calls[k].node == s.calls[k].node && StageAfter(e, k, s.calls[k].stage, t.calls[k].stage)
  }

  lemma {:induction false} StartIff(nodes: seq<Node>, completed: seq<Id>, id: Id, j: nat)
    requires MayStart(nodes, completed, id, j)
    ensures Admit(nodes, completed, id) == Admitted(nodes[j])
  {
    assert Position(nodes, id) == j;
    NoneMissing(nodes[j].dependsOn, completed);
  }

  lemma {:induction false} RefusedIff(nodes: seq<Node>, completed: seq<Id>, id: Id)
    ensures Admit(nodes, completed, id).Admitted? ==> MayStart(nodes, completed, id, Position(nodes, id))
  {
    var k := Position(nodes, id);
    if k < |nodes| && MissingOf(nodes[k].dependsOn, completed) == [] {
      forall d | d in nodes[k].dependsOn ensures d in completed {
        assert d !in MissingOf(nodes[k].dependsOn, completed);
      }
    }
  }

  /**
   * What one event does: a start adds one call, for a known node with its dependencies completed; a
   * report moves the one call it is about; and a node is completed by its operation alone, in its turn.
   */
  lemma {:induction false} StepIs(nodes: seq<Node>, s: State, e: Event)
    ensures var t := Step(nodes, s, e);
      && (forall k: nat :: k < |s.calls| ==> CallMoves(s, t, e, k))
      && (forall j: nat :: e.Start? && MayStart(nodes, s.completed, e.id, j) ==> t.calls == s.calls + [Call(nodes[j], Recording)])
      && (!e.Start? || (forall j: nat :: !MayStart(nodes, s.completed, e.id, j)) ==> |t.calls| == |s.calls|)
      && (if e.Operated? && e.ok && e.call < |s.calls| && s.calls[e.call].stage == Operating
             && s.calls[e.call].node.id !in s.completed
          then t.completed == s.completed + [s.calls[e.call].node.id] else t.completed == s.completed)
  {
    if e.Start? {
      RefusedIff(nodes, s.completed, e.id);
      forall j: nat | MayStart(nodes, s.completed, e.id, j) ensures Admit(nodes, s.completed, e.id) == Admitted(nodes[j]) {
        StartIff(nodes, s.completed, e.id, j);
      }
    }
  }

  function Run(nodes: seq<Node>, s: State, events: seq<Event>): State
    decreases |events|
  {
    if events == [] then s
    else Step(nodes, Run(nodes, s, events[..|events| - 1]), events[|events| - 1])
  }

  function Init(completed: seq<Id>): State {
    State(completed, [])
  }

  // ---------------------------------------------------------------------------
  // Safety over every interleaving
  // ---------------------------------------------------------------------------

  ghost predicate Ready(n: Node, completed: seq<Id>) {
    forall d :: d in n.dependsOn ==> d in completed
  }

  /** Every id marked after the first ones names a node whose dependencies were marked before it. */
  ghost predicate Topological(nodes: seq<Node>, completed: seq<Id>, start: nat) {
    forall i :: start <= i < |completed| ==>
      exists n :: n in nodes && n.id == completed[i] && Ready(n, completed[..i])
  }

  ghost predicate CallSound(nodes: seq<Node>, completed: seq<Id>, c: Call) {
    c.node in nodes && Ready(c.node, completed) && (c.stage == Finished ==> c.node.id in completed)
  }

  ghost predicate Inv(nodes: seq<Node>, initial: seq<Id>, s: State) {
    && initial <= s.completed
    && Topological(nodes, s.completed, |initial|)
    && forall k :: 0 <= k < |s.calls| ==> CallSound(nodes, s.completed, s.calls[k])
  }

  lemma {:induction false} AdmitIsSound(nodes: seq<Node>, completed: seq<Id>, id: Id)
    ensures var a := Admit(nodes, completed, id);
      a.Admitted? ==> a.node in nodes && a.node.id == id && Ready(a.node, completed)
  {
    var k := Position(nodes, id);
    if k < |nodes| && MissingOf(nodes[k].dependsOn, completed) == [] {
      assert forall d :: d in nodes[k].dependsOn && d !in completed ==> d in MissingOf(nodes[k].dependsOn, completed);
    }
  }

  lemma {:induction false} AddedStaysTopological(nodes: seq<Node>, completed: seq<Id>, start: nat, n: Node)
    requires Topological(nodes, completed, start) && n in nodes && Ready(n, completed)
    ensures Topological(nodes, Added(completed, n.id), start)
  {
    var next := Added(completed, n.id);
    forall i | start <= i < |next|
      ensures exists m :: m in nodes && m.id == next[i] && Ready(m, next[..i])
    {
      if i < |completed| {
        assert next[..i] == completed[..i];
      } else {
        assert next[..i] == completed && Ready(n, next[..i]);
      }
    }
  }

  lemma {:induction false} StartKeepsInv(nodes: seq<Node>, initial: seq<Id>, s: State, id: Id)
    requires Inv(nodes, initial, s)
    ensures Inv(nodes, initial, Step(nodes, s, Start(id)))
  {
    AdmitIsSound(nodes, s.completed, id);
  }

  lemma {:induction false} OperatedKeepsInv(nodes: seq<Node>, initial: seq<Id>, s: State, k: nat, ok: bool)
    requires Inv(nodes, initial, s)
    ensures Inv(nodes, initial, Step(nodes, s, Operated(k, ok)))
  {
    if k < |s.calls| && s.calls[k].stage == Operating && ok {
      AddedStaysTopological(nodes, s.completed, |initial|, s.calls[k].node);
    }
  }

  lemma {:induction false} StepKeepsInv(nodes: seq<Node>, initial: seq<Id>, s: State, e: Event)
    requires Inv(nodes, initial, s)
    ensures Inv(nodes, initial, Step(nodes, s, e))
  {
    match e
    case Start(id) => StartKeepsInv(nodes, initial, s, id);
    case Recorded(k, ok) =>
    case Operated(k, ok) => OperatedKeepsInv(nodes, initial, s, k, ok);
  }

  /** Whatever overlaps and whatever fails: a started node has all its dependencies completed. */
  lemma {:induction false} RunKeepsInv(nodes: seq<Node>, initial: seq<Id>, events: seq<Event>)
    ensures Inv(nodes, initial, Run(nodes, Init(initial), events))
    decreases |events|
  {
    if events != [] {
      var before := events[..|events| - 1];
      RunKeepsInv(nodes, initial, before);
      StepKeepsInv(nodes, initial, Run(nodes, Init(initial), before), events[|events| - 1]);
    }
  }

  lemma {:induction false} StartedMeansReady(nodes: seq<Node>, initial: seq<Id>, events: seq<Event>, k: nat)
    requires k < |Run(nodes, Init(initial), events).calls|
    ensures var s := Run(nodes, Init(initial), events);
      s.calls[k].node in nodes && forall d :: d in s.calls[k].node.dependsOn ==> d in s.completed
  {
    RunKeepsInv(nodes, initial, events);
  }

  // ---------------------------------------------------------------------------
  // Dependency-closed completion
  // ---------------------------------------------------------------------------

  ghost predicate ClosedFor(nodes: seq<Node>, completed: seq<Id>, ids: seq<Id>) {
    forall n :: n in nodes && n.id in ids ==> Ready(n, completed)
  }

  /**
   * The completed set is closed under dependencies after a run exactly when the ids the run was
   * resumed with have their dependencies completed by then; resuming from a closed set keeps it closed.
   */
  lemma {:induction false} ClosedAfterIff(nodes: seq<Node>, initial: seq<Id>, events: seq<Event>)
    requires UniqueIds(nodes)
    ensures var done := Run(nodes, Init(initial), events).completed;
      && (ClosedFor(nodes, done, done) <==> ClosedFor(nodes, done, initial))
      && (ClosedFor(nodes, initial, initial) ==> ClosedFor(nodes, done, done))
  {
    RunKeepsInv(nodes, initial, events);
    var done := Run(nodes, Init(initial), events).completed;
    assert initial <= done;
    assert forall i :: 0 <= i < |initial| ==> done[i] == initial[i] && done[i] in initial;
    forall n | n in nodes && n.id in done && n.id !in initial ensures Ready(n, done) {
      var i :| 0 <= i < |done| && done[i] == n.id;
      var m :| m in nodes && m.id == done[i] && Ready(m, done[..i]);
      assert m == n;
    }
    forall id | id in initial ensures id in done {
      var i :| 0 <= i < |initial| && initial[i] == id;
      assert done[i] == id;
    }
  }

  /** From an empty start the order of completion is a topological order of what completed. */
  lemma {:induction false} CompletionOrder(nodes: seq<Node>, events: seq<Event>, n: Node, i: nat, d: Id)
    requires UniqueIds(nodes) && n in nodes && d in n.dependsOn
    requires i < |Run(nodes, Init([]), events).completed| && Run(nodes, Init([]), events).completed[i] == n.id
    ensures d in Run(nodes, Init([]), events).completed[..i]
  {
    RunKeepsInv(nodes, [], events);
    var done := Run(nodes, Init([]), events).completed;
    var m :| m in nodes && m.id == done[i] && Ready(m, done[..i]);
    assert m == n;
  }

  // ---------------------------------------------------------------------------
  // File order never fails
  // ---------------------------------------------------------------------------

  function FileOrderEvents(nodes: seq<Node>, count: nat): (r: seq<Event>)
    requires count <= |nodes|
    decreases count
  {
    if count == 0 then []
    else FileOrderEvents(nodes, count - 1)
         + [Start(nodes[count - 1].id)] + [Recorded(count - 1, true)] + [Operated(count - 1, true)]
  }

  lemma {:induction false} RunSnoc(nodes: seq<Node>, s: State, events: seq<Event>, e: Event)
    ensures Run(nodes, s, events + [e]) == Step(nodes, Run(nodes, s, events), e)
  {
    assert (events + [e])[..|events|] == events;
  }

  lemma {:induction false} RunThree(nodes: seq<Node>, s: State, events: seq<Event>, a: Event, b: Event, c: Event)
    ensures Run(nodes, s, events + [a] + [b] + [c])
         == Step(nodes, Step(nodes, Step(nodes, Run(nodes, s, events), a), b), c)
  {
    RunSnoc(nodes, s, events, a);
    RunSnoc(nodes, s, events + [a], b);
    RunSnoc(nodes, s, events + [a] + [b], c);
  }

  ghost predicate RanTo(nodes: seq<Node>, initial: seq<Id>, count: nat, s: State)
    requires count <= |nodes|
  {
    && |s.calls| == count
    && (forall k :: 0 <= k < count ==> s.calls[k] == Call(nodes[k], Finished))
    && (forall id :: id in s.completed <==> id in initial || Earlier(nodes, count, id))
  }

  lemma {:induction false} NoneMissing(dependsOn: seq<Id>, completed: seq<Id>)
    requires forall d :: d in dependsOn ==> d in completed
    ensures MissingOf(dependsOn, completed) == []
    decreases |dependsOn|
  {
    if dependsOn != [] {
      assert dependsOn[0] in dependsOn;
      NoneMissing(dependsOn[1..], completed);
    }
  }

  lemma {:induction false} AdmittedInOrder(nodes: seq<Node>, initial: seq<Id>, count: nat, s: State)
    requires Accepted(nodes) && count < |nodes| && RanTo(nodes, initial, count, s)
    ensures Admit(nodes, s.completed, nodes[count].id) == Admitted(nodes[count])
  {
    assert Position(nodes, nodes[count].id) == count;
    assert DependsOnEarlier(nodes, count);
    NoneMissing(nodes[count].dependsOn, s.completed);
  }

  lemma {:induction false} OneMore(nodes: seq<Node>, initial: seq<Id>, count: nat, s: State)
    requires Accepted(nodes) && count < |nodes| && RanTo(nodes, initial, count, s)
    ensures RanTo(nodes, initial, count + 1,
      Step(nodes, Step(nodes, Step(nodes, s, Start(nodes[count].id)), Recorded(count, true)), Operated(count, true)))
  {
    AdmittedInOrder(nodes, initial, count, s);
    var id := nodes[count].id;
    forall x ensures x in Added(s.completed, id) <==> x in initial || Earlier(nodes, count + 1, x) {
      assert Earlier(nodes, count, x) ==> Earlier(nodes, count + 1, x);
      assert Earlier(nodes, count + 1, id);
    }
  }

  /** Running an accepted workflow in file order starts and finishes every node, wherever it resumes from. */
  lemma {:induction false} FileOrderNeverFails(nodes: seq<Node>, initial: seq<Id>, count: nat)
    requires Accepted(nodes) && count <= |nodes|
    ensures RanTo(nodes, initial, count, Run(nodes, Init(initial), FileOrderEvents(nodes, count)))
    decreases count
  {
    if count > 0 {
      FileOrderNeverFails(nodes, initial, count - 1);
      var before := FileOrderEvents(nodes, count - 1);
      OneMore(nodes, initial, count - 1, Run(nodes, Init(initial), before));
      RunThree(nodes, Init(initial), before,
               Start(nodes[count - 1].id), Recorded(count - 1, true), Operated(count - 1, true));
    }
  }

  // ---------------------------------------------------------------------------
  // The runner object
  // ---------------------------------------------------------------------------

  datatype RunResult = Refused(reason: Admission) | RecorderFailed | OperationFailed | Returned

  class Runner {
    const nodes: seq<Node>
    var completedNodes: seq<Id>

    constructor (nodes: seq<Node>, completedNodeIds: seq<Id>)
      ensures this.nodes == nodes && completedNodes == completedNodeIds
    {
      this.nodes := nodes;
      completedNodes := completedNodeIds;
    }

    /** A call with nothing interleaved is the run of its three steps. */
    method RunNode(nodeId: Id, recorderOk: bool, operationOk: bool) returns (r: RunResult)
      modifies this
      ensures completedNodes == Run(nodes, Init(old(completedNodes)),
        [Start(nodeId)] + [Recorded(0, recorderOk)] + [Operated(0, operationOk)]).completed
      ensures r.Refused? <==> !Admit(nodes, old(completedNodes), nodeId).Admitted?
      ensures r.Refused? ==> r.reason == Admit(nodes, old(completedNodes), nodeId)
      ensures r.RecorderFailed? <==> Admit(nodes, old(completedNodes), nodeId).Admitted? && !recorderOk
      ensures r.Returned? <==> Admit(nodes, old(completedNodes), nodeId).Admitted? && recorderOk && operationOk
      ensures r.Returned? ==> nodeId in completedNodes
      ensures !r.Returned? ==> completedNodes == old(completedNodes)
    {
      RunThree(nodes, Init(completedNodes), [], Start(nodeId), Recorded(0, recorderOk), Operated(0, operationOk));
      assert [] + [Start(nodeId)] == [Start(nodeId)];
      AdmitIsSound(nodes, completedNodes, nodeId);
      var admission := Admit(nodes, completedNodes, nodeId);
      if !admission.Admitted? {
        return Refused(admission);
      }
      if !recorderOk {
        return RecorderFailed;
      }
      if !operationOk {
        return OperationFailed;
      }
      completedNodes := Added(completedNodes, admission.node.id);
      return Returned;
    }
  }
}
