module DebtRegister {
  /**
   * The architecture-debt register over whole runs: records, their append-only events, and the
   * graph of MERGED and SUPERSEDED pointers that triage builds between records.
   */

  import opened Wrappers
  import opened DebtPolicy
  import opened DebtRows

  /** The text tests on a linked observation and its time, left uninterpreted. */
  datatype ObservationHygiene = ObservationHygiene(reference: Observation -> bool, timestamp: string -> bool)

  /** Each record as it is read, with its root row, its event rows and its observation rows. */
  datatype Register = Register(
    records: map<string, Aggregate>,
    roots: map<string, Root>,
    events: map<string, seq<EventRow>>,
    observations: map<string, seq<Observation>>)

  /**
   * CreatePending registers a new record with the observation it was discovered by; LinkObservation
   * attaches one more observation; Triage is one policy action whose merge or supersede target is
   * read from the same register.
   */
  datatype Command =
    | CreatePending(aggregate: Aggregate, discovery: Observation)
    | LinkObservation(o: ObservationHygiene, projectId: string, recordId: string, expectedVersion: nat, observation: Observation)
    | Triage(h: Hygiene, actorId: string, action: Action, targetId: string)

  /** A read is by project and record: a foreign record reads as absent. */
  function Lookup(r: Register, projectId: string, recordId: string): Option<Aggregate> {
    if recordId in r.records && r.records[recordId].projectId == projectId then Some(r.records[recordId]) else None
  }

  function RowsOf(r: Register, id: string): seq<EventRow> {
    if id in r.events then r.events[id] else []
  }

  function Seen(r: Register, id: string): seq<Observation> {
    if id in r.observations then r.observations[id] else []
  }

  function Append(r: Register, root: Root, next: Aggregate, row: EventRow, seen: seq<Observation>): Register {
    Register(
      r.records[next.recordId := next],
      r.roots[next.recordId := root],
      r.events[next.recordId := RowsOf(r, next.recordId) + [row]],
      r.observations[next.recordId := seen])
  }

  /** The append stands only when the record can be read back; otherwise it is rolled back. */
  function Commit(r: Register, root: Root, next: Aggregate, row: EventRow, seen: seq<Observation>): Register {
    if Reconstruct(root, RowsOf(r, next.recordId) + [row], seen).Some? then Append(r, root, next, row, seen) else r
  }

  /** The action the policy sees: the target aggregate comes from the register, never from the caller. */
  function Resolve(r: Register, action: Action, targetId: string): Action {
    action.(targetAggregate := if action.operation.Merge? || action.operation.Supersede?
                               then Lookup(r, action.projectId, targetId) else None)
  }

  /** One command, applied in one transaction; a refused command changes nothing. */
  function Apply(r: Register, c: Command): Register {
    match c
    case CreatePending(a, discovery) =>
      if a.recordId in r.records || a.eventVersion != 0 || !a.state.PendingTriage? || !a.PointerFree() then r
      else Commit(r, Root(a, discovery), a, EventRow(0, CreateRow, PendingTriage), [discovery])
    case LinkObservation(o, projectId, recordId, expectedVersion, x) =>
      var existing := Lookup(r, projectId, recordId);
      if !o.reference(x) || !o.timestamp(x.linkedAt) || existing.None? || recordId !in r.roots
        || existing.value.eventVersion != expectedVersion then r
      else if HashSeen(Seen(r, recordId), x.contentHash) || ArtifactSeen(Seen(r, recordId), x) then r
      else Commit(r, r.roots[recordId], Linked(existing.value), LinkEntry(existing.value), Seen(r, recordId) + [x])
    case Triage(h, actorId, action, targetId) =>
      var existing := Lookup(r, action.projectId, action.recordId);
      if existing.None? then r
      else
        var outcome := Evaluate(h, existing.value, actorId, Resolve(r, action, targetId));
        if outcome.Err? then r
        else CommitTriage(r, outcome.value)
  }

  function Linked(a: Aggregate): Aggregate {
    a.(eventVersion := a.eventVersion + 1)
  }

  function LinkEntry(a: Aggregate): EventRow {
    EventRow(a.eventVersion + 1, LinkRow, a.state)
  }

  function TriageEntry(r: Register, accepted: Accepted): EventRow {
    EventRow(accepted.next.eventVersion,
             TriageRow(accepted.event, accepted.next, |Seen(r, accepted.next.recordId)|),
             accepted.next.state)
  }

  function CommitTriage(r: Register, accepted: Accepted): Register {
    var id := accepted.next.recordId;
    if id !in r.roots then r else Commit(r, r.roots[id], accepted.next, TriageEntry(r, accepted), Seen(r, id))
  }

  function Run(r: Register, commands: seq<Command>): Register
    decreases |commands|
  {
    if commands == [] then r else Run(Apply(r, commands[0]), commands[1..])
  }

  /** Event rows are numbered 0, 1, 2, ... and each triage event records exactly its own step. */
  ghost predicate Chain(rows: seq<EventRow>, a: Aggregate) {
    && |rows| == a.eventVersion + 1
    && rows[a.eventVersion].state == a.state
    && forall k :: 0 <= k < |rows| ==> RowFits(rows, a.recordId, k)
  }

  ghost predicate RowFits(rows: seq<EventRow>, recordId: string, k: nat)
    requires k < |rows|
  {
    && rows[k].version == k
    && (rows[k].kind.CreateRow? <==> k == 0)
    && (rows[k].kind.TriageRow? ==>
          && rows[k].kind.event.resultingVersion == k
          && rows[k].kind.event.expectedVersion + 1 == k
          && rows[k].kind.event.recordId == recordId
          && TransitionAllowed(rows[k - 1].state, rows[k].kind.event.operation)
          && rows[k].state == NextState(rows[k].kind.event.operation, rows[k - 1].state))
    && (rows[k].kind.LinkRow? ==> k > 0 && rows[k].state == rows[k - 1].state)
  }

  /** Records are consistent with their own rows. */
  ghost predicate RecordInv(r: Register) {
    && r.records.Keys == r.roots.Keys == r.events.Keys == r.observations.Keys
    && forall id :: id in r.records ==> Consistent(id, r.records[id], r.roots[id], r.events[id], r.observations[id])
  }

  /** The record is what its rows are read back as, and its discovery is the first observation. */
  ghost predicate Consistent(id: string, a: Aggregate, root: Root, rows: seq<EventRow>, seen: seq<Observation>) {
    && a.recordId == id && a.PointersMatchState() && Chain(rows, a)
    && Reconstruct(root, rows, seen) == Some(a) && First(seen) == root.discovery
  }

  ghost predicate Distinct(retired: seq<string>) {
    forall i, j :: 0 <= i < j < |retired| ==> retired[i] != retired[j]
  }

  ghost predicate ListsRetired(r: Register, retired: seq<string>) {
    forall id :: id in retired <==> id in r.records && r.records[id].Retired()
  }

  ghost predicate TargetsExist(r: Register) {
    forall id :: id in r.records && r.records[id].Pointer().Some? ==>
      && r.records[id].Pointer().value in r.records
      && r.records[r.records[id].Pointer().value].projectId == r.records[id].projectId
  }

  ghost predicate PointsForward(r: Register, retired: seq<string>) {
    forall i, j :: 0 <= j <= i < |retired| && retired[i] in r.records ==>
      r.records[retired[i]].Pointer() != Some(retired[j])
  }

  /** Records are kept under their own id, and their pointers match their states. */
  ghost predicate PointersAgree(r: Register) {
    forall id :: id in r.records ==> r.records[id].recordId == id && r.records[id].PointersMatchState()
  }

  /** Every pointer leads to another record of the same project that was retired later, or never. */
  ghost predicate GraphInv(r: Register, retired: seq<string>) {
    PointersAgree(r) && Distinct(retired) && ListsRetired(r, retired) && TargetsExist(r) && PointsForward(r, retired)
  }

  ghost predicate Inv(r: Register, retired: seq<string>) {
    RecordInv(r) && GraphInv(r, retired)
  }

  /** Consistent records that have never been merged or superseded. */
  ghost predicate Init(r: Register) {
    RecordInv(r) && forall id :: id in r.records ==> !r.records[id].Retired()
  }

  /** What a change of one existing record can look like. */
  ghost predicate Moves(r: Register, old': Aggregate, next: Aggregate, row: EventRow) {
    && old'.recordId in r.records && r.records[old'.recordId] == old'
    && next.recordId == old'.recordId && next.projectId == old'.projectId
    && next.eventVersion == old'.eventVersion + 1
    && row.version == next.eventVersion && row.state == next.state
    && next.PointersMatchState()
    && !row.kind.CreateRow?
    && (row.kind.LinkRow? ==> next == old'.(eventVersion := next.eventVersion))
    && (row.kind.TriageRow? ==>
          && row.kind.event.recordId == next.recordId
          && row.kind.event.expectedVersion == old'.eventVersion
          && row.kind.event.resultingVersion == next.eventVersion
          && old'.Open()
          && TransitionAllowed(old'.state, row.kind.event.operation)
          && next.state == NextState(row.kind.event.operation, old'.state)
          && (next.Retired() ==>
                && next.Pointer().Some?
                && next.Pointer().value in r.records
                && next.Pointer().value != next.recordId
                && r.records[next.Pointer().value].Open()
                && r.records[next.Pointer().value].projectId == next.projectId))
  }

  /** With the new row and these observations the record is read back as next. */
  ghost predicate ReadsAs(root: Root, rows: seq<EventRow>, seen: seq<Observation>, next: Aggregate) {
    Reconstruct(root, rows, seen) == Some(next) && First(seen) == root.discovery
  }

  ghost predicate Advances(r: Register, old': Aggregate, next: Aggregate, row: EventRow, seen: seq<Observation>) {
    && Moves(r, old', next, row)
    && old'.recordId in r.roots
    && ReadsAs(r.roots[old'.recordId], RowsOf(r, old'.recordId) + [row], seen, next)
  }

  lemma {:induction false} ChainGrows(r: Register, rows: seq<EventRow>, old': Aggregate, next: Aggregate, row: EventRow)
    requires Chain(rows, old') && Moves(r, old', next, row)
    ensures Chain(rows + [row], next)
  {
    var after := rows + [row];
    assert forall k :: 0 <= k < |rows| ==> after[k] == rows[k];
    assert after[|rows|] == row && after[|rows| - 1] == rows[old'.eventVersion];
    forall k: nat | k < |rows| ensures RowFits(after, next.recordId, k) {
      assert RowFits(rows, old'.recordId, k);
    }
    assert RowFits(after, next.recordId, |rows|);
  }

  lemma {:induction false} AdvancedConsistent(r: Register, old': Aggregate, next: Aggregate, row: EventRow, seen: seq<Observation>)
    requires RecordInv(r) && Advances(r, old', next, row, seen)
    ensures Consistent(next.recordId, next, r.roots[next.recordId], RowsOf(r, next.recordId) + [row], seen)
  {
    var id := next.recordId;
    assert Consistent(id, r.records[id], r.roots[id], r.events[id], r.observations[id]);
    ChainGrows(r, r.events[id], old', next, row);
  }

  /** A test on a record and its rows holds for every record. */
  ghost predicate AllPass(r: Register, test: (string, Aggregate, Root, seq<EventRow>, seq<Observation>) -> bool) {
    && r.records.Keys == r.roots.Keys == r.events.Keys == r.observations.Keys
    && forall id :: id in r.records ==> test(id, r.records[id], r.roots[id], r.events[id], r.observations[id])
  }

  /** Changing one record leaves the test on the others alone. */
  lemma {:induction false} AppendKeepsPassing(r: Register, root: Root, next: Aggregate, row: EventRow, seen: seq<Observation>,
                                              test: (string, Aggregate, Root, seq<EventRow>, seq<Observation>) -> bool)
    requires AllPass(r, test) && test(next.recordId, next, root, RowsOf(r, next.recordId) + [row], seen)
    ensures AllPass(Append(r, root, next, row, seen), test)
  {
    var t := Append(r, root, next, row, seen);
    assert t.records.Keys == t.roots.Keys == t.events.Keys == t.observations.Keys;
  }

  lemma {:induction false} AppendKeepsRecords(r: Register, root: Root, next: Aggregate, row: EventRow, seen: seq<Observation>)
    requires RecordInv(r) && Consistent(next.recordId, next, root, RowsOf(r, next.recordId) + [row], seen)
    ensures RecordInv(Append(r, root, next, row, seen))
  {
    var test := (id: string, a: Aggregate, o: Root, rows: seq<EventRow>, xs: seq<Observation>) => Consistent(id, a, o, rows, xs);
    AppendKeepsPassing(r, root, next, row, seen, test);
  }

  /** The retirement order after a change. */
  function Retire(retired: seq<string>, old': Aggregate, next: Aggregate): seq<string> {
    if next.Retired() && !old'.Retired() then retired + [next.recordId] else retired
  }

  lemma {:induction false} AdvanceKeepsList(r: Register, t: Register, retired: seq<string>, old': Aggregate, next: Aggregate, row: EventRow)
    requires PointersAgree(r) && Distinct(retired) && ListsRetired(r, retired) && Moves(r, old', next, row)
    requires t.records == r.records[next.recordId := next]
    ensures Distinct(Retire(retired, old', next))
    ensures ListsRetired(t, Retire(retired, old', next))
  {
    var order := Retire(retired, old', next);
    assert forall id :: id in order <==> id in retired || (next.Retired() && id == next.recordId);
  }

  lemma {:induction false} AdvanceKeepsTargets(r: Register, t: Register, old': Aggregate, next: Aggregate, row: EventRow)
    requires PointersAgree(r) && TargetsExist(r) && Moves(r, old', next, row)
    requires t.records == r.records[next.recordId := next]
    ensures TargetsExist(t) && PointersAgree(t)
  {
  }

  lemma {:induction false} AdvanceKeepsForward(r: Register, t: Register, retired: seq<string>, old': Aggregate, next: Aggregate, row: EventRow)
    requires PointersAgree(r) && ListsRetired(r, retired) && PointsForward(r, retired) && Moves(r, old', next, row)
    requires t.records == r.records[next.recordId := next]
    ensures PointsForward(t, Retire(retired, old', next))
  {
    if next.Retired() && !old'.Retired() {
      assert forall j :: 0 <= j < |retired| ==> retired[j] != next.Pointer().value;
      assert forall i :: 0 <= i < |retired| ==> retired[i] != next.recordId;
    }
  }

  lemma {:induction false} AdvanceKeepsGraph(r: Register, t: Register, retired: seq<string>, old': Aggregate, next: Aggregate, row: EventRow)
    requires GraphInv(r, retired) && Moves(r, old', next, row)
    requires t.records == r.records[next.recordId := next]
    ensures GraphInv(t, Retire(retired, old', next))
  {
    AdvanceKeepsList(r, t, retired, old', next, row);
    AdvanceKeepsTargets(r, t, old', next, row);
    AdvanceKeepsForward(r, t, retired, old', next, row);
  }

  /** The register with a fresh record. */
  function Created(r: Register, a: Aggregate, discovery: Observation): Register {
    Append(r, Root(a, discovery), a, EventRow(0, CreateRow, PendingTriage), [discovery])
  }

  ghost predicate Fresh(r: Register, a: Aggregate) {
    a.recordId !in r.records && a.eventVersion == 0 && a.state.PendingTriage? && a.PointerFree()
  }

  lemma {:induction false} FreshConsistent(a: Aggregate, discovery: Observation)
    requires a.eventVersion == 0 && a.state.PendingTriage? && a.PointerFree() && WithinLimits(a, 1)
    ensures Consistent(a.recordId, a, Root(a, discovery), [EventRow(0, CreateRow, PendingTriage)], [discovery])
  {
    CreateReconstructsIff(Root(a, discovery));
    assert RowFits([EventRow(0, CreateRow, PendingTriage)], a.recordId, 0);
    assert First([discovery]) == discovery;
  }

  lemma {:induction false} CreateKeepsGraph(r: Register, retired: seq<string>, a: Aggregate, discovery: Observation)
    requires GraphInv(r, retired) && Fresh(r, a)
    ensures GraphInv(Created(r, a, discovery), retired)
  {
    var t := Created(r, a, discovery);
    assert t.records == r.records[a.recordId := a];
    assert ListsRetired(t, retired);
    assert TargetsExist(t);
    assert PointsForward(t, retired);
  }

  lemma {:induction false} CreateIsAppend(r: Register, a: Aggregate, discovery: Observation)
    requires RecordInv(r) && Apply(r, CreatePending(a, discovery)) != r
    ensures Fresh(r, a) && WithinLimits(a, 1) && RowsOf(r, a.recordId) == []
    ensures Apply(r, CreatePending(a, discovery)) == Created(r, a, discovery)
  {
    assert RowsOf(r, a.recordId) == [];
    assert [] + [EventRow(0, CreateRow, PendingTriage)] == [EventRow(0, CreateRow, PendingTriage)];
    CreateReconstructsIff(Root(a, discovery));
  }

  lemma {:induction false} CreateKeepsInv(r: Register, retired: seq<string>, a: Aggregate, discovery: Observation)
    requires Inv(r, retired) && Fresh(r, a) && WithinLimits(a, 1) && RowsOf(r, a.recordId) == []
    ensures Inv(Created(r, a, discovery), retired)
  {
    var row := EventRow(0, CreateRow, PendingTriage);
    assert [] + [row] == [row];
    FreshConsistent(a, discovery);
    AppendKeepsRecords(r, Root(a, discovery), a, row, [discovery]);
    CreateKeepsGraph(r, retired, a, discovery);
  }

  lemma {:induction false} EffectAdvances(r: Register, old': Aggregate, actorId: string, action: Action, targetId: string, accepted: Accepted)
    requires RecordInv(r) && action.recordId in r.records && old' == r.records[action.recordId]
    requires Effect(old', actorId, Resolve(r, action, targetId), accepted)
    requires old'.Open() && accepted.next.PointersMatchState()
    requires var retires := action.operation.Merge? || action.operation.Supersede?;
      && (accepted.next.Retired() <==> retires)
      && (retires ==> accepted.next.Pointer() == Some(Resolve(r, action, targetId).targetAggregate.value.recordId))
    requires ReadsAs(r.roots[old'.recordId], RowsOf(r, old'.recordId) + [TriageEntry(r, accepted)], Seen(r, old'.recordId), accepted.next)
    ensures Advances(r, old', accepted.next, TriageEntry(r, accepted), Seen(r, old'.recordId))
  {
  }

  /** A triage payload carries the observations of the moment, so its record reads back. */
  lemma {:induction false} TriageReadsBack(r: Register, id: string, actorId: string, a: Action, accepted: Accepted)
    requires RecordInv(r) && id in r.records && Effect(r.records[id], actorId, a, accepted)
    ensures ReadsAs(r.roots[id], RowsOf(r, id) + [TriageEntry(r, accepted)], Seen(r, id), accepted.next)
  {
    assert Consistent(id, r.records[id], r.roots[id], r.events[id], r.observations[id]);
    TriageReconstructs(r.roots[id], r.events[id], r.observations[id], TriageEntry(r, accepted));
  }

  lemma {:induction false} TriageAdvances(r: Register, h: Hygiene, actorId: string, action: Action, targetId: string)
    requires RecordInv(r) && action.recordId in r.records
    requires Evaluate(h, r.records[action.recordId], actorId, Resolve(r, action, targetId)).Ok?
    ensures var accepted := Evaluate(h, r.records[action.recordId], actorId, Resolve(r, action, targetId)).value;
      && accepted.next.recordId == action.recordId
      && Advances(r, r.records[action.recordId], accepted.next, TriageEntry(r, accepted), Seen(r, action.recordId))
  {
    var old' := r.records[action.recordId];
    var resolved := Resolve(r, action, targetId);
    var accepted := Evaluate(h, old', actorId, resolved).value;
    assert Consistent(action.recordId, old', r.roots[action.recordId], r.events[action.recordId], r.observations[action.recordId]);
    EvaluateEffect(h, old', actorId, resolved);
    EffectKeepsPointers(old', actorId, resolved, accepted);
    TriageReadsBack(r, action.recordId, actorId, resolved, accepted);
    EffectAdvances(r, old', actorId, action, targetId, accepted);
  }

  lemma {:induction false} AdvanceKeepsInv(r: Register, retired: seq<string>, old': Aggregate, next: Aggregate, row: EventRow, seen: seq<Observation>)
    requires Inv(r, retired) && Advances(r, old', next, row, seen)
    ensures Inv(Append(r, r.roots[next.recordId], next, row, seen), Retire(retired, old', next))
  {
    var root := r.roots[next.recordId];
    AdvancedConsistent(r, old', next, row, seen);
    AppendKeepsRecords(r, root, next, row, seen);
    AdvanceKeepsGraph(r, Append(r, root, next, row, seen), retired, old', next, row);
  }

  /** Every command that changes the register creates a record or advances one. */
  lemma {:induction false} TriageIsAdvance(r: Register, c: Command) returns (next: Aggregate, row: EventRow, seen: seq<Observation>)
    requires RecordInv(r) && c.Triage? && Apply(r, c) != r
    ensures c.action.recordId in r.records && Advances(r, r.records[c.action.recordId], next, row, seen)
    ensures Apply(r, c) == Append(r, r.roots[next.recordId], next, row, seen)
  {
    var old' := r.records[c.action.recordId];
    var accepted := Evaluate(c.h, old', c.actorId, Resolve(r, c.action, c.targetId)).value;
    TriageAdvances(r, c.h, c.actorId, c.action, c.targetId);
    next, row, seen := accepted.next, TriageEntry(r, accepted), Seen(r, c.action.recordId);
  }

  lemma {:induction false} LinkIsAdvance(r: Register, c: Command) returns (next: Aggregate, row: EventRow, seen: seq<Observation>)
    requires RecordInv(r) && c.LinkObservation? && Apply(r, c) != r
    ensures c.recordId in r.records && Advances(r, r.records[c.recordId], next, row, seen)
    ensures Apply(r, c) == Append(r, r.roots[next.recordId], next, row, seen)
  {
    var id := c.recordId;
    var old' := r.records[id];
    next, row, seen := Linked(old'), LinkEntry(old'), Seen(r, id) + [c.observation];
    assert Consistent(id, old', r.roots[id], r.events[id], r.observations[id]);
    LinkReconstructsIff(r.roots[id], r.events[id], r.observations[id], c.observation, old'.state);
    FirstGrows(r.observations[id], c.observation);
  }

  lemma {:induction false} ApplyKeepsInv(r: Register, retired: seq<string>, c: Command) returns (retired': seq<string>)
    requires Inv(r, retired)
    ensures Inv(Apply(r, c), retired')
  {
    retired' := retired;
    if Apply(r, c) != r {
      match c
      case CreatePending(a, discovery) =>
        CreateIsAppend(r, a, discovery);
        CreateKeepsInv(r, retired, a, discovery);
      case LinkObservation(_, _, recordId, _, _) =>
        var next, row, seen := LinkIsAdvance(r, c);
        AdvanceKeepsInv(r, retired, r.records[recordId], next, row, seen);
        retired' := Retire(retired, r.records[recordId], next);
      case Triage(_, _, action, _) =>
        var next, row, seen := TriageIsAdvance(r, c);
        AdvanceKeepsInv(r, retired, r.records[action.recordId], next, row, seen);
        retired' := Retire(retired, r.records[action.recordId], next);
    }
  }

  lemma {:induction false} RunKeepsInv(r: Register, retired: seq<string>, commands: seq<Command>)
    returns (retired': seq<string>)
    requires Inv(r, retired)
    ensures Inv(Run(r, commands), retired')
    decreases |commands|
  {
    if commands == [] {
      retired' := retired;
    } else {
      var next := ApplyKeepsInv(r, retired, commands[0]);
      retired' := RunKeepsInv(Apply(r, commands[0]), next, commands[1..]);
    }
  }

  lemma {:induction false} RunFromInit(r: Register, commands: seq<Command>) returns (retired: seq<string>)
    requires Init(r)
    ensures Inv(Run(r, commands), retired)
  {
    assert Inv(r, []);
    retired := RunKeepsInv(r, [], commands);
  }

  // ---------------------------------------------------------------------------
  // Main results
  // ---------------------------------------------------------------------------

  /** The record n pointers further on, if the chain is that long. */
  function Follow(r: Register, id: string, n: nat): Option<string>
    decreases n
  {
    if n == 0 then Some(id)
    else if id !in r.records || r.records[id].Pointer().None? then None
    else Follow(r, r.records[id].Pointer().value, n - 1)
  }

  lemma {:induction false} FollowMovesForward(r: Register, retired: seq<string>, i: nat, n: nat)
    requires GraphInv(r, retired) && i < |retired|
    requires n > 0 && Follow(r, retired[i], n).Some?
    ensures forall j :: 0 <= j <= i ==> Follow(r, retired[i], n).value != retired[j]
    ensures n <= |retired| - i
    decreases n
  {
    var next := r.records[retired[i]].Pointer().value;
    assert Follow(r, retired[i], n) == Follow(r, next, n - 1);
    if n > 1 {
      assert r.records[next].Pointer().Some?;
      var j :| 0 <= j < |retired| && retired[j] == next;
      assert i < j;
      FollowMovesForward(r, retired, j, n - 1);
    }
  }

  /** No chain of pointers ever returns to a record it has left. */
  lemma {:induction false} PointersAcyclic(r: Register, commands: seq<Command>, id: string, n: nat)
    requires Init(r) && n > 0
    ensures Follow(Run(r, commands), id, n) != Some(id)
  {
    var t := Run(r, commands);
    var retired := RunFromInit(r, commands);
    if Follow(t, id, n) == Some(id) {
      assert t.records[id].Retired();
      var i :| 0 <= i < |retired| && retired[i] == id;
      FollowMovesForward(t, retired, i, n);
    }
  }

  function Survivor(r: Register, id: string, fuel: nat): string
    decreases fuel
  {
    if fuel == 0 || id !in r.records || r.records[id].Pointer().None? then id
    else Survivor(r, r.records[id].Pointer().value, fuel - 1)
  }

  lemma {:induction false} SurvivorFollows(r: Register, retired: seq<string>, id: string, fuel: nat, i: nat)
    requires GraphInv(r, retired) && id in r.records && i <= |retired|
    requires id in retired ==> id in retired[i..]
    requires fuel >= |retired| - i
    ensures Survivor(r, id, fuel) in r.records
    ensures !r.records[Survivor(r, id, fuel)].Retired()
    ensures r.records[Survivor(r, id, fuel)].projectId == r.records[id].projectId
    decreases fuel
  {
    if id in retired {
      var k :| 0 <= k < |retired[i..]| && retired[i..][k] == id;
      var next := r.records[id].Pointer().value;
      if next in retired {
        var j :| 0 <= j < |retired| && retired[j] == next;
        assert j > i + k;
        assert retired[i + k + 1..][j - (i + k + 1)] == next;
      }
      SurvivorFollows(r, retired, next, fuel - 1, i + k + 1);
    }
  }

  lemma {:induction false} DistinctKeysFit(retired: seq<string>, keys: set<string>)
    requires forall i, j :: 0 <= i < j < |retired| ==> retired[i] != retired[j]
    requires forall id :: id in retired ==> id in keys
    ensures |retired| <= |keys|
    decreases |retired|
  {
    if retired != [] {
      var last := retired[|retired| - 1];
      assert last in retired;
      forall id | id in retired[..|retired| - 1] ensures id in keys - {last} {
        assert id in retired;
      }
      DistinctKeysFit(retired[..|retired| - 1], keys - {last});
    }
  }

  /**
   * Following pointers from any record reaches, within as many steps as there are records, a
   * record of the same project that is neither MERGED nor SUPERSEDED.
   */
  lemma {:induction false} PointersResolve(r: Register, commands: seq<Command>, id: string)
    requires Init(r) && id in Run(r, commands).records
    ensures var t := Run(r, commands); var last := Survivor(t, id, |t.records|);
      && last in t.records
      && !t.records[last].Retired()
      && t.records[last].projectId == t.records[id].projectId
  {
    var t := Run(r, commands);
    var retired := RunFromInit(r, commands);
    DistinctKeysFit(retired, t.records.Keys);
    assert retired[0..] == retired;
    SurvivorFollows(t, retired, id, |t.records|, 0);
  }

  /**
   * State and pointers agree, versions form a gap-free chain of allowed transitions, and the rows are
   * read back as exactly this record, with its discovery as the first observation.
   */
  lemma {:induction false} RecordsStayConsistent(r: Register, commands: seq<Command>, id: string)
    requires Init(r) && id in Run(r, commands).records
    ensures var t := Run(r, commands);
      && t.records[id].PointersMatchState()
      && id in t.roots && id in t.events && id in t.observations
      && Chain(t.events[id], t.records[id])
      && Reconstruct(t.roots[id], t.events[id], t.observations[id]) == Some(t.records[id])
      && First(t.observations[id]) == t.roots[id].discovery
  {
    var retired := RunFromInit(r, commands);
    var t := Run(r, commands);
    assert Consistent(id, t.records[id], t.roots[id], t.events[id], t.observations[id]);
  }

  /** What linking an observation asks for, all of it known before the call. */
  ghost predicate Linkable(r: Register, o: ObservationHygiene, projectId: string, id: string, version: nat, x: Observation) {
    && o.reference(x) && o.timestamp(x.linkedAt)
    && id in r.records && r.records[id].projectId == projectId && r.records[id].eventVersion == version
    && id in r.roots && id in r.events && id in r.observations
    && !HashSeen(r.observations[id], x.contentHash) && !ArtifactSeen(r.observations[id], x)
    && |r.observations[id]| < LIST_LIMIT
    && !LinkedBefore(x, r.roots[id].discovery)
    && !EverTriaged(r.events[id])
  }

  lemma {:induction false} LinkAppliesIff(r: Register, o: ObservationHygiene, projectId: string, id: string, version: nat, x: Observation)
    requires RecordInv(r)
    ensures Apply(r, LinkObservation(o, projectId, id, version, x))
         == if Linkable(r, o, projectId, id, version, x)
            then Append(r, r.roots[id], Linked(r.records[id]), LinkEntry(r.records[id]), r.observations[id] + [x]) else r
  {
    if id in r.records {
      assert Consistent(id, r.records[id], r.roots[id], r.events[id], r.observations[id]);
      if !HashSeen(r.observations[id], x.contentHash) {
        LinkReconstructsIff(r.roots[id], r.events[id], r.observations[id], x, r.records[id].state);
      }
    }
  }

  /**
   * After any run, an observation is linked exactly when it and its time are valid, its record is
   * there at the expected version, neither its content nor its artifact is linked already, there are
   * fewer than 128 observations, it does not sort before the discovery, and no triage was ever
   * recorded; after the first triage every link is rolled back.
   */
  lemma {:induction false} LinkCommitsIff(r: Register, commands: seq<Command>, o: ObservationHygiene, projectId: string, id: string, version: nat, x: Observation)
    requires Init(r)
    ensures var t := Run(r, commands);
      Apply(t, LinkObservation(o, projectId, id, version, x)) != t <==> Linkable(t, o, projectId, id, version, x)
  {
    var t := Run(r, commands);
    var retired := RunFromInit(r, commands);
    LinkAppliesIff(t, o, projectId, id, version, x);
    if Linkable(t, o, projectId, id, version, x) {
      assert Append(t, t.roots[id], Linked(t.records[id]), LinkEntry(t.records[id]), t.observations[id] + [x]).records[t.records[id].recordId]
        == Linked(t.records[id]);
      assert Consistent(id, t.records[id], t.roots[id], t.events[id], t.observations[id]);
    }
  }

  /** In every reachable register the reverse-pointer test of the policy is implied by its open-target test. */
  lemma {:induction false} CycleTestIsImplied(r: Register, commands: seq<Command>, source: string, candidate: string)
    requires Init(r)
    requires source in Run(r, commands).records && candidate in Run(r, commands).records
    ensures var t := Run(r, commands);
      SameTargetProject(t.records[source], t.records[candidate])
      ==> !TargetCreatesCycle(t.records[source], t.records[candidate])
  {
    var retired := RunFromInit(r, commands);
    var t := Run(r, commands);
    if SameTargetProject(t.records[source], t.records[candidate]) {
      OpenTargetImpliesNoCycle(t.records[source], t.records[candidate]);
    }
  }

  lemma {:induction false} MoveKeepsTerminal(r: Register, t: Register, old': Aggregate, next: Aggregate, row: EventRow, id: string)
    requires Moves(r, old', next, row) && t.records == r.records[next.recordId := next]
    requires id in r.records && !r.records[id].Open()
    ensures id in t.records && t.records[id] == r.records[id].(eventVersion := t.records[id].eventVersion)
  {
  }

  lemma {:induction false} ApplyKeepsTerminal(r: Register, c: Command, id: string)
    requires RecordInv(r) && id in r.records && !r.records[id].Open()
    ensures id in Apply(r, c).records
    ensures Apply(r, c).records[id] == r.records[id].(eventVersion := Apply(r, c).records[id].eventVersion)
  {
    var t := Apply(r, c);
    if t != r {
      match c
      case Triage(_, _, action, _) =>
        var next, row, seen := TriageIsAdvance(r, c);
        MoveKeepsTerminal(r, t, r.records[action.recordId], next, row, id);
      case LinkObservation(_, _, recordId, _, _) =>
        var next, row, seen := LinkIsAdvance(r, c);
        MoveKeepsTerminal(r, t, r.records[recordId], next, row, id);
      case CreatePending(a, discovery) =>
        CreateIsAppend(r, a, discovery);
    }
  }

  /** Closed, rejected, merged and superseded records keep their state and pointers for ever. */
  lemma {:induction false} TerminalStaysPut(r: Register, retired: seq<string>, commands: seq<Command>, id: string)
    requires Inv(r, retired) && id in r.records && !r.records[id].Open()
    ensures var t := Run(r, commands);
      && id in t.records
      && t.records[id] == r.records[id].(eventVersion := t.records[id].eventVersion)
    decreases |commands|
  {
    if commands != [] {
      var next := ApplyKeepsInv(r, retired, commands[0]);
      ApplyKeepsTerminal(r, commands[0], id);
      TerminalStaysPut(Apply(r, commands[0]), next, commands[1..], id);
    }
  }

  // ---------------------------------------------------------------------------
  // The store the service writes to
  // ---------------------------------------------------------------------------

  /** What one triage call reports. */
  datatype TriageResult = TriageCommitted(aggregate: Aggregate) | TriageRefused

  lemma {:induction false} EvaluateMoves(h: Hygiene, aggregate: Aggregate, actorId: string, a: Action)
    requires Evaluate(h, aggregate, actorId, a).Ok?
    ensures a.expectedVersion == aggregate.eventVersion
    ensures var next := Evaluate(h, aggregate, actorId, a).value.next;
      next.recordId == a.recordId && next.eventVersion == aggregate.eventVersion + 1
  {
    EvaluateEffect(h, aggregate, actorId, a);
  }

  /** The late half of a triage command: what the policy accepted is committed. */
  lemma {:induction false} TriageIsCommit(r: Register, h: Hygiene, actorId: string, action: Action, targetId: string)
    requires action.recordId in r.records && r.records[action.recordId].projectId == action.projectId
    ensures var outcome := Evaluate(h, r.records[action.recordId], actorId, Resolve(r, action, targetId));
      Apply(r, Triage(h, actorId, action, targetId)) == if outcome.Ok? then CommitTriage(r, outcome.value) else r
  {
  }

  class Store {
    var records: map<string, Aggregate>
    var roots: map<string, Root>
    var events: map<string, seq<EventRow>>
    var observations: map<string, seq<Observation>>

    constructor ()
      ensures View() == Register(map[], map[], map[], map[])
    {
      records, roots, events, observations := map[], map[], map[], map[];
    }

    function View(): Register
      reads this
    {
      Register(records, roots, events, observations)
    }

    /**
     * Reads the record and its target, evaluates the policy and appends one event, all or nothing.
     * A read-back that fails before the commit rolls the append back.
     */
    method RecordTriage(h: Hygiene, actorId: string, action: Action, targetId: string, readBackOk: bool)
      returns (result: TriageResult)
      modifies this
      ensures View() == if readBackOk then Apply(old(View()), Triage(h, actorId, action, targetId)) else old(View())
      ensures result.TriageCommitted? <==> View() != old(View())
      ensures result.TriageCommitted? ==>
        && action.recordId in old(records) && action.recordId in records
        && records[action.recordId] == result.aggregate
        && result.aggregate.eventVersion == old(records)[action.recordId].eventVersion + 1
        && action.expectedVersion == old(records)[action.recordId].eventVersion
    {
      result := TriageRefused;
      if action.recordId !in records || records[action.recordId].projectId != action.projectId {
        return;
      }
      var target: Option<Aggregate> := None;
      if (action.operation.Merge? || action.operation.Supersede?)
        && targetId in records && records[targetId].projectId == action.projectId {
        target := Some(records[targetId]);
      }
      var resolved := action.(targetAggregate := target);
      var outcome := Evaluate(h, records[action.recordId], actorId, resolved);
      TriageIsCommit(View(), h, actorId, action, targetId);
      if outcome.Err? || !readBackOk {
        return;
      }
      EvaluateMoves(h, records[action.recordId], actorId, resolved);
      var committed := CommitRows(outcome.value);
      if !committed {
        return;
      }
      result := TriageCommitted(outcome.value.next);
    }

    /** Appends the event row of an accepted triage, unless the record could not be read back with it. */
    method CommitRows(accepted: Accepted) returns (committed: bool)
      modifies this
      ensures View() == CommitTriage(old(View()), accepted)
      ensures committed ==> accepted.next.recordId in records && records[accepted.next.recordId] == accepted.next
      ensures !committed ==> View() == old(View())
    {
      var id, next, row := accepted.next.recordId, accepted.next, TriageEntry(View(), accepted);
      var rows, seen := RowsOf(View(), id) + [row], Seen(View(), id);
      committed := id in roots && Reconstruct(roots[id], rows, seen).Some?;
      if committed {
        events := events[id := rows];
        roots := roots[id := roots[id]];
        records := records[id := next];
        observations := observations[id := seen];
      }
    }
  }
}
