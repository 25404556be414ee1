/** What each command of the debt register does to its tables: when it is carried out, and with which rows. */
module DebtCommands {
  import opened Wrappers
  import opened DebtPolicy
  import opened DebtRows
  import opened DebtReading
  import opened DebtRegister

  /** The rows under an id, none when there is no such id. */
  ghost predicate Under<T>(table: map<string, seq<T>>, id: string, rows: seq<T>) {
    if id in table then rows == table[id] else rows == []
  }

  /** One table row was replaced or added under the id, and the event row appended; nothing else changed. */
  ghost predicate Recorded(r: Register, t: Register, root: Root, next: Aggregate, row: EventRow, seen: seq<Observation>) {
    var id := next.recordId;
    && t.records == r.records[id := next] && t.roots == r.roots[id := root] && t.observations == r.observations[id := seen]
    && exists rows :: Under(r.events, id, rows) && t.events == r.events[id := rows + [row]]
  }

  ghost predicate ReadsBack(r: Register, root: Root, id: string, row: EventRow, seen: seq<Observation>) {
    exists rows, a :: Under(r.events, id, rows) && Readable(root, rows + [row], seen, a)
  }

  lemma {:induction false} CommitIff(r: Register, root: Root, next: Aggregate, row: EventRow, seen: seq<Observation>)
    ensures var t := Commit(r, root, next, row, seen);
      if ReadsBack(r, root, next.recordId, row, seen) then Recorded(r, t, root, next, row, seen) else t == r
  {
    var rows := RowsOf(r, next.recordId);
    assert Under(r.events, next.recordId, rows);
    var read := Reconstruct(root, rows + [row], seen);
    if read.Some? {
      ReadBackIff(root, rows + [row], seen, read.value);
    }
    if ReadsBack(r, root, next.recordId, row, seen) {
      var others, a :| Under(r.events, next.recordId, others) && Readable(root, others + [row], seen, a);
      ReadBackIff(root, rows + [row], seen, a);
    }
  }

  /** A new record, awaiting triage and without pointers, under an id that is not taken. */
  ghost predicate IsNewRecord(r: Register, a: Aggregate) {
    a.recordId !in r.records && a.eventVersion == 0 && a.state == PendingTriage && a.duplicateOf == None && a.supersededBy == None
  }

  lemma {:induction false} CreateApplies(r: Register, a: Aggregate, discovery: Observation)
    ensures Apply(r, CreatePending(a, discovery))
         == if IsNewRecord(r, a) then Commit(r, Root(a, discovery), a, EventRow(0, CreateRow, PendingTriage), [discovery]) else r
  {
  }

  /** A record is created with its discovery when it is new and can be read back. */
  lemma {:induction false} CreateIff(r: Register, a: Aggregate, discovery: Observation)
    ensures var t, root, row := Apply(r, CreatePending(a, discovery)), Root(a, discovery), EventRow(0, CreateRow, PendingTriage);
      if IsNewRecord(r, a) && ReadsBack(r, root, a.recordId, row, [discovery]) then Recorded(r, t, root, a, row, [discovery])
      else t == r
  {
    CreateApplies(r, a, discovery);
    CommitIff(r, Root(a, discovery), a, EventRow(0, CreateRow, PendingTriage), [discovery]);
  }

  /** The record under the id, in its project. */
  ghost predicate Holds(r: Register, projectId: string, id: string, a: Aggregate) {
    id in r.records && r.records[id] == a && a.projectId == projectId
  }

  /** The observation is new to the observations: by its content, and by its artifact id with its path. */
  ghost predicate IsNew(seen: seq<Observation>, x: Observation) {
    forall i :: 0 <= i < |seen| ==>
      seen[i].contentHash != x.contentHash && !(seen[i].artifactId == x.artifactId && seen[i].relativePath == x.relativePath)
  }

  ghost predicate MayLink(r: Register, o: ObservationHygiene, projectId: string, id: string, version: nat, x: Observation,
                          a: Aggregate, seen: seq<Observation>) {
    && o.reference(x) && o.timestamp(x.linkedAt) && Holds(r, projectId, id, a) && a.recordId == id && a.eventVersion == version
    && id in r.roots && Under(r.observations, id, seen) && IsNew(seen, x)
    && ReadsBack(r, r.roots[id], id, EventRow(version + 1, LinkRow, a.state), seen + [x])
  }

  lemma {:induction false} LinkApplies(r: Register, o: ObservationHygiene, projectId: string, id: string, version: nat, x: Observation)
    requires id in r.records && id in r.roots
    ensures Apply(r, LinkObservation(o, projectId, id, version, x))
         == if o.reference(x) && o.timestamp(x.linkedAt) && r.records[id].projectId == projectId
               && r.records[id].eventVersion == version && IsNew(Seen(r, id), x)
            then Commit(r, r.roots[id], Linked(r.records[id]), LinkEntry(r.records[id]), Seen(r, id) + [x]) else r
  {
    assert IsNew(Seen(r, id), x) <==> !HashSeen(Seen(r, id), x.contentHash) && !ArtifactSeen(Seen(r, id), x);
  }

  /** A linked observation comes last; the record moves on by one version and keeps its state. */
  lemma {:induction false} LinkIff(r: Register, o: ObservationHygiene, projectId: string, id: string, version: nat, x: Observation)
    requires id in r.records ==> r.records[id].recordId == id
    ensures var t := Apply(r, LinkObservation(o, projectId, id, version, x));
      && (forall a, seen :: MayLink(r, o, projectId, id, version, x, a, seen) ==>
            Recorded(r, t, r.roots[id], a.(eventVersion := version + 1), EventRow(version + 1, LinkRow, a.state), seen + [x]))
      && ((forall a, seen :: !MayLink(r, o, projectId, id, version, x, a, seen)) ==> t == r)
  {
    if id in r.records && id in r.roots {
      var a, seen := r.records[id], Seen(r, id);
      assert Under(r.observations, id, seen);
      LinkApplies(r, o, projectId, id, version, x);
      CommitIff(r, r.roots[id], Linked(a), LinkEntry(a), seen + [x]);
      forall b, others | MayLink(r, o, projectId, id, version, x, b, others) ensures b == a && others == seen {
      }
      assert MayLink(r, o, projectId, id, version, x, a, seen) <==>
        o.reference(x) && o.timestamp(x.linkedAt) && a.projectId == projectId && a.eventVersion == version && IsNew(seen, x)
        && ReadsBack(r, r.roots[id], id, EventRow(version + 1, LinkRow, a.state), seen + [x]);
    }
  }

  /** A merge or supersession is given the record of its project under the target id, any other action no record. */
  ghost predicate Given(r: Register, action: Action, targetId: string, given: Action) {
    && given == action.(targetAggregate := given.targetAggregate)
    && if (action.operation == Merge || action.operation == Supersede) && targetId in r.records
            && r.records[targetId].projectId == action.projectId
       then given.targetAggregate == Some(r.records[targetId]) else given.targetAggregate == None
  }

  lemma {:induction false} ResolveIff(r: Register, action: Action, targetId: string, given: Action)
    ensures Resolve(r, action, targetId) == given <==> Given(r, action, targetId, given)
  {
  }

  /** The policy accepts the action with its target, and the record is read back with the row of it. */
  ghost predicate MayTriage(r: Register, h: Hygiene, actorId: string, action: Action, targetId: string,
                            given: Action, a: Aggregate, accepted: Accepted, seen: seq<Observation>) {
    var next := accepted.next;
    && Holds(r, action.projectId, action.recordId, a) && Given(r, action, targetId, given)
    && Evaluate(h, a, actorId, given) == Ok(accepted) && next.recordId in r.roots && Under(r.observations, next.recordId, seen)
    && ReadsBack(r, r.roots[next.recordId], next.recordId,
                 EventRow(next.eventVersion, TriageRow(accepted.event, next, |seen|), next.state), seen)
  }

  ghost predicate Triaged(r: Register, t: Register, accepted: Accepted, seen: seq<Observation>) {
    var next := accepted.next;
    && next.recordId in r.roots
    && Recorded(r, t, r.roots[next.recordId], next,
                EventRow(next.eventVersion, TriageRow(accepted.event, next, |seen|), next.state), seen)
  }

  /** An accepted action is recorded with its whole payload; any other changes nothing. */
  lemma {:induction false} TriageIff(r: Register, h: Hygiene, actorId: string, action: Action, targetId: string)
    ensures var t := Apply(r, Triage(h, actorId, action, targetId));
      && (forall given, a, accepted, seen :: MayTriage(r, h, actorId, action, targetId, given, a, accepted, seen) ==>
            Triaged(r, t, accepted, seen))
      && ((forall given, a, accepted, seen :: !MayTriage(r, h, actorId, action, targetId, given, a, accepted, seen)) ==> t == r)
  {
    var existing := Lookup(r, action.projectId, action.recordId);
    forall given ensures Resolve(r, action, targetId) == given <==> Given(r, action, targetId, given) {
      ResolveIff(r, action, targetId, given);
    }
    if existing.Some? {
      var given := Resolve(r, action, targetId);
      var outcome := Evaluate(h, existing.value, actorId, given);
      if outcome.Ok? && outcome.value.next.recordId in r.roots {
        var accepted := outcome.value;
        var id := accepted.next.recordId;
        var seen := Seen(r, id);
        assert Under(r.observations, id, seen);
        CommitIff(r, r.roots[id], accepted.next, TriageEntry(r, accepted), seen);
        assert ReadsBack(r, r.roots[id], id, TriageEntry(r, accepted), seen) ==>
          MayTriage(r, h, actorId, action, targetId, given, existing.value, accepted, seen);
      }
    }
  }
}
