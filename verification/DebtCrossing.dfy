module DebtCrossing {
  /**
   * Two fresh records of one project, and two processes that merge each into the other: the case in
   * which the pointers become a cycle does arise.
   */

  import opened Wrappers
  import opened DebtPolicy
  import opened DebtRows
  import opened DebtRegister
  import opened DebtLinks
  import opened DebtRace

  /** What both processes send, besides the two records. */
  datatype Request = Request(h: Hygiene, actorId: string, reason: string, occurredAt: string)

  /** Merging a record that was just created into another one. */
  function Merging(q: Request, source: Aggregate, target: Aggregate): Command {
    Triage(q.h, q.actorId,
           Action(ActionKeys(Merge), Merge, source.projectId, source.recordId, 0, q.reason, q.occurredAt,
                  "", "", "", "", "", Trigger("", "", [], [], []), None, "", "", "", ""),
           target.recordId)
  }

  ghost predicate Sendable(q: Request, a: Aggregate) {
    && q.h.aggregate(a) && q.h.identifier(a.projectId) && q.h.recordId(a.recordId)
    && q.h.identifier(q.actorId) && q.h.text(q.reason) && q.h.timestamp(q.occurredAt)
  }

  function Pair(a: Aggregate, b: Aggregate, d: Observation, e: Observation): Register {
    Run(Empty(), [CreatePending(a, d), CreatePending(b, e)])
  }

  lemma {:induction false} RunTwo(r: Register, c: Command, c': Command)
    ensures Run(r, [c, c']) == Apply(Apply(r, c), c')
  {
    OneMoreCommand(r, [c], c');
    OneMoreCommand(r, [], c);
    assert [c] + [c'] == [c, c'] && [] + [c] == [c];
  }

  lemma {:induction false} PairHolds(a: Aggregate, b: Aggregate, d: Observation, e: Observation)
    requires Creatable(a) && Creatable(b) && a.recordId != b.recordId
    ensures var r := Pair(a, b, d, e);
      && RecordInv(r)
      && a.recordId in r.records && r.records[a.recordId] == a
      && b.recordId in r.records && r.records[b.recordId] == b
  {
    RunTwo(Empty(), CreatePending(a, d), CreatePending(b, e));
    CreatedAlone(a, d);
    CreatedNext(Created(Empty(), a, d), b, e);
  }

  lemma {:induction false} CreatedNext(r: Register, b: Aggregate, e: Observation)
    requires RecordInv(r) && Creatable(b) && b.recordId !in r.records
    ensures Apply(r, CreatePending(b, e)) == Created(r, b, e) && RecordInv(Created(r, b, e))
  {
    var row := EventRow(0, CreateRow, PendingTriage);
    assert [] + [row] == [row];
    CreateReconstructsIff(Root(b, e));
    FreshConsistent(b, e);
    AppendKeepsRecords(r, Root(b, e), b, row, [e]);
  }

  lemma {:induction false} MergeAccepted(q: Request, source: Aggregate, target: Aggregate, a: Action)
    requires Creatable(source) && Creatable(target) && Sendable(q, source) && Sendable(q, target)
    requires source.projectId == target.projectId && source.recordId != target.recordId
    requires a == Merging(q, source, target).action.(targetAggregate := Some(target))
    ensures Evaluate(q.h, source, q.actorId, a).Ok?
  {
  }

  lemma {:induction false} AdvanceCommits(r: Register, source: Aggregate, accepted: Accepted)
    requires Advances(r, source, accepted.next, TriageEntry(r, accepted), Seen(r, source.recordId))
    ensures CommitTriage(r, accepted) != r
  {
    assert CommitTriage(r, accepted).records[source.recordId] == accepted.next;
  }

  lemma {:induction false} AcceptedApplies(r: Register, q: Request, action: Action, targetId: string)
    requires RecordInv(r) && action.recordId in r.records && r.records[action.recordId].projectId == action.projectId
    requires Evaluate(q.h, r.records[action.recordId], q.actorId, Resolve(r, action, targetId)).Ok?
    ensures Apply(r, Triage(q.h, q.actorId, action, targetId)) != r
  {
    var source := r.records[action.recordId];
    TriageAdvances(r, q.h, q.actorId, action, targetId);
    TriageIsCommit(r, q.h, q.actorId, action, targetId);
    AdvanceCommits(r, source, Evaluate(q.h, source, q.actorId, Resolve(r, action, targetId)).value);
  }

  lemma {:induction false} MergeApplies(r: Register, q: Request, source: Aggregate, target: Aggregate)
    requires RecordInv(r) && Creatable(source) && Creatable(target) && Sendable(q, source) && Sendable(q, target)
    requires source.projectId == target.projectId && source.recordId != target.recordId
    requires source.recordId in r.records && r.records[source.recordId] == source
    requires target.recordId in r.records && r.records[target.recordId] == target
    ensures Apply(r, Merging(q, source, target)) != r
  {
    var c := Merging(q, source, target);
    MergeAccepted(q, source, target, Resolve(r, c.action, c.targetId));
    AcceptedApplies(r, q, c.action, c.targetId);
  }

  lemma {:induction false} AppliedMerges(r: Register, q: Request, source: Aggregate, target: Aggregate)
    requires RecordInv(r) && source.recordId in r.records && source.recordId != target.recordId
    requires Apply(r, Merging(q, source, target)) != r
    ensures MergesInto(r, Merging(q, source, target), source.recordId, target.recordId)
  {
    PromptIsAtomic(r, Merging(q, source, target));
  }

  /** Any two fresh records of one project, merged into each other by two processes at once, end in a cycle. */
  lemma {:induction false} FreshPairCycles(q: Request, a: Aggregate, b: Aggregate, d: Observation, e: Observation)
    requires Creatable(a) && Creatable(b) && Sendable(q, a) && Sendable(q, b)
    requires a.projectId == b.projectId && a.recordId != b.recordId
    ensures var r, x, y := Pair(a, b, d, e), Merging(q, a, b), Merging(q, b, a);
      && RecordInv(r) && MergesInto(r, x, a.recordId, b.recordId) && MergesInto(r, y, b.recordId, a.recordId)
      && Follow(ApplyLate(r, ApplyLate(r, r, x), y), a.recordId, 2) == Some(a.recordId)
  {
    var r := Pair(a, b, d, e);
    PairHolds(a, b, d, e);
    MergeApplies(r, q, a, b);
    MergeApplies(r, q, b, a);
    AppliedMerges(r, q, a, b);
    AppliedMerges(r, q, b, a);
    CrossedMergesCycle(r, Merging(q, a, b), Merging(q, b, a), a.recordId, b.recordId);
  }

  function Record(recordId: string): Aggregate {
    Aggregate(recordId, "project", 0, PendingTriage, "owner", "rationale", "risk", "boundary", "P2", false,
              Trigger("trigger", "name", [], [], []), [Location("location", "src/main.ts", None, [])], None, None)
  }

  /** There are such records and such a request. */
  lemma {:induction false} FreshPairExists()
    ensures var q := Request(Hygiene(_ => true, _ => true, _ => true, _ => true, _ => true, _ => true), "actor", "reason", "now");
      var a, b := Record("ARCH-DEBT-1"), Record("ARCH-DEBT-2");
      && Creatable(a) && Creatable(b) && Sendable(q, a) && Sendable(q, b)
      && a.projectId == b.projectId && a.recordId != b.recordId
  {
    assert "ARCH-DEBT-1"[10] != "ARCH-DEBT-2"[10];
  }
}
