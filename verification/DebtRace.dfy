module DebtRace {
  /**
   * Triage by several processes.  A process evaluates the policy on the register as it read it; the
   * commit looks only at the version of the acting record.  What that leaves of acyclicity, exactly.
   */

  import opened Wrappers
  import opened DebtPolicy
  import opened DebtRows
  import opened DebtRegister

  // ---------------------------------------------------------------------------
  // One late commit
  // ---------------------------------------------------------------------------

  /** What the policy made of a triage on the register that was read. */
  function Prepared(past: Register, c: Command): Option<Accepted>
    requires c.Triage?
  {
    var existing := Lookup(past, c.action.projectId, c.action.recordId);
    if existing.None? then None
    else
      var outcome := Evaluate(c.h, existing.value, c.actorId, Resolve(past, c.action, c.targetId));
      if outcome.Ok? then Some(outcome.value) else None
  }

  /** The commit: the acting record must still be there at the version that was read. */
  function CommitLate(r: Register, accepted: Accepted): Register {
    var existing := Lookup(r, accepted.event.projectId, accepted.event.recordId);
    if existing.None? || existing.value.eventVersion != accepted.event.expectedVersion then r
    else CommitTriage(r, accepted)
  }

  function ApplyLate(past: Register, r: Register, c: Command): Register {
    if !c.Triage? then Apply(r, c)
    else if Prepared(past, c).None? then r
    else CommitLate(r, Prepared(past, c).value)
  }

  /** Nothing in between: the late commit is the atomic command. */
  lemma {:induction false} PromptIsAtomic(r: Register, c: Command)
    requires RecordInv(r)
    ensures ApplyLate(r, r, c) == Apply(r, c)
  {
    if c.Triage? && Prepared(r, c).Some? {
      var old' := r.records[c.action.recordId];
      EvaluateEffect(c.h, old', c.actorId, Resolve(r, c.action, c.targetId));
    }
  }

  // ---------------------------------------------------------------------------
  // Cycles
  // ---------------------------------------------------------------------------

  ghost predicate Acyclic(r: Register) {
    forall id, n: nat :: n > 0 ==> Follow(r, id, n) != Some(id)
  }

  /** Some number of pointers leads from one record to another. */
  ghost predicate Reaches(r: Register, from: string, to: string) {
    exists n: nat :: Follow(r, from, n) == Some(to)
  }

  lemma {:induction false} FollowSum(r: Register, id: string, m: nat, n: nat)
    requires Follow(r, id, m).Some?
    ensures Follow(r, id, m + n) == Follow(r, Follow(r, id, m).value, n)
    decreases m
  {
    if m > 0 {
      FollowSum(r, r.records[id].Pointer().value, m - 1, n);
    }
  }

  lemma {:induction false} FollowShorter(r: Register, id: string, k: nat, n: nat)
    requires k <= n && Follow(r, id, n).Some?
    ensures Follow(r, id, k).Some?
    decreases k
  {
    if k > 0 {
      FollowShorter(r, r.records[id].Pointer().value, k - 1, n - 1);
    }
  }

  /** The registers differ in the record s alone, which had no pointer. */
  ghost predicate PointsAnew(r: Register, t: Register, s: string) {
    && (s !in r.records || r.records[s].Pointer().None?)
    && forall id :: id != s ==>
         (id in r.records <==> id in t.records) && (id in r.records ==> r.records[id].Pointer() == t.records[id].Pointer())
  }

  /** A path that does not pass s is the same in both. */
  lemma {:induction false} SamePath(r: Register, t: Register, s: string, id: string, n: nat)
    requires PointsAnew(r, t, s)
    requires forall k: nat :: k < n ==> Follow(r, id, k) != Some(s)
    ensures Follow(t, id, n) == Follow(r, id, n)
    decreases n
  {
    if n > 0 {
      assert Follow(r, id, 0) == Some(id);
      if id in r.records && r.records[id].Pointer().Some? {
        var next := r.records[id].Pointer().value;
        forall k: nat | k < n - 1 ensures Follow(r, next, k) != Some(s) {
          assert Follow(r, id, k + 1) == Follow(r, next, k);
        }
        SamePath(r, t, s, next, n - 1);
      }
    }
  }

  /** A path that ends at s did not pass it before. */
  lemma {:induction false} EndsAtOnce(r: Register, s: string, id: string, n: nat, k: nat)
    requires s !in r.records || r.records[s].Pointer().None?
    requires Follow(r, id, n) == Some(s) && k < n
    ensures Follow(r, id, k) != Some(s)
  {
    if Follow(r, id, k) == Some(s) {
      FollowSum(r, id, k, n - k);
    }
  }

  lemma {:induction false} CycleThroughEnd(r: Register, s: string, target: string, t: Register)
    requires PointsAnew(r, t, s) && s in t.records && t.records[s].Pointer() == Some(target)
    requires Reaches(r, target, s)
    ensures !Acyclic(t)
  {
    var n: nat :| Follow(r, target, n) == Some(s);
    forall k: nat | k < n ensures Follow(r, target, k) != Some(s) {
      EndsAtOnce(r, s, target, n, k);
    }
    SamePath(r, t, s, target, n);
    assert Follow(t, s, n + 1) == Follow(t, target, n);
  }

  /** Unless the target reaches s, no path from it passes s. */
  lemma {:induction false} NoCycleWithout(r: Register, s: string, target: string, t: Register, id: string, n: nat)
    requires Acyclic(r) && PointsAnew(r, t, s) && s in t.records && t.records[s].Pointer() == Some(target)
    requires !Reaches(r, target, s) && n > 0
    ensures Follow(t, id, n) != Some(id)
  {
    if Follow(t, id, n) == Some(id) {
      if k: nat :| k < n && Follow(r, id, k) == Some(s) {
        PathFromMeeting(r, t, s, id, k, n);
        assert Follow(t, s, n) == Follow(t, target, n - 1);
        forall j: nat | j < n - 1 ensures Follow(r, target, j) != Some(s) {
        }
        SamePath(r, t, s, target, n - 1);
      } else {
        SamePath(r, t, s, id, n);
      }
    }
  }

  /** A cycle through id that meets s is a cycle through s. */
  lemma {:induction false} PathFromMeeting(r: Register, t: Register, s: string, id: string, k: nat, n: nat)
    requires PointsAnew(r, t, s) && Follow(r, id, k) == Some(s) && Follow(t, id, n) == Some(id)
    ensures Follow(t, s, n) == Some(s)
  {
    forall j: nat | j < k ensures Follow(r, id, j) != Some(s) {
      EndsAtOnce(r, s, id, k, j);
    }
    SamePath(r, t, s, id, k);
    FollowSum(t, id, k, n);
    FollowSum(t, id, n, k);
  }

  /** A new pointer from s closes a cycle exactly when its target reached s already. */
  lemma {:induction false} NewPointerIff(r: Register, s: string, target: string, t: Register)
    requires Acyclic(r) && PointsAnew(r, t, s) && s in t.records && t.records[s].Pointer() == Some(target)
    ensures Acyclic(t) <==> !Reaches(r, target, s)
  {
    if Reaches(r, target, s) {
      CycleThroughEnd(r, s, target, t);
    } else {
      forall id, n: nat | n > 0 ensures Follow(t, id, n) != Some(id) {
        NoCycleWithout(r, s, target, t, id, n);
      }
    }
  }

  // ---------------------------------------------------------------------------
  // One late command
  // ---------------------------------------------------------------------------

  /** Records never disappear, and change only with their version. */
  ghost predicate Grows(r: Register, t: Register) {
    forall id :: id in r.records ==>
      id in t.records && (t.records[id] == r.records[id] || t.records[id].eventVersion > r.records[id].eventVersion)
  }

  lemma {:induction false} GrowsOn(r: Register, s: Register, t: Register)
    requires Grows(r, s) && Grows(s, t)
    ensures Grows(r, t)
  {
  }

  /** What a late triage commits, when it commits: the acting record is as it was read. */
  ghost predicate Commits(past: Register, r: Register, c: Command, accepted: Accepted) {
    && c.Triage? && Prepared(past, c) == Some(accepted) && ApplyLate(past, r, c) != r
    && ApplyLate(past, r, c) == CommitTriage(r, accepted)
    && c.action.recordId in past.records && c.action.recordId in r.records
    && r.records[c.action.recordId] == past.records[c.action.recordId]
    && Effect(r.records[c.action.recordId], c.actorId, Resolve(past, c.action, c.targetId), accepted)
  }

  lemma {:induction false} LateCommit(past: Register, r: Register, c: Command) returns (accepted: Accepted)
    requires c.Triage? && ApplyLate(past, r, c) != r && Grows(past, r) && PointersAgree(past)
    ensures Commits(past, r, c, accepted)
  {
    accepted := Prepared(past, c).value;
    EvaluateEffect(c.h, past.records[c.action.recordId], c.actorId, Resolve(past, c.action, c.targetId));
  }

  lemma {:induction false} CommitKeepsRecords(r: Register, root: Root, next: Aggregate, row: EventRow, seen: seq<Observation>)
    requires PointersAgree(r) && next.PointersMatchState()
    requires next.recordId in r.records ==> next.eventVersion > r.records[next.recordId].eventVersion
    ensures PointersAgree(Commit(r, root, next, row, seen)) && Grows(r, Commit(r, root, next, row, seen))
  {
  }

  lemma {:induction false} AtomicKeepsRecords(r: Register, c: Command)
    requires PointersAgree(r) && !c.Triage?
    ensures PointersAgree(Apply(r, c)) && Grows(r, Apply(r, c))
  {
    if Apply(r, c) != r {
      match c
      case CreatePending(a, discovery) =>
        CommitKeepsRecords(r, Root(a, discovery), a, EventRow(0, CreateRow, PendingTriage), [discovery]);
      case LinkObservation(_, _, recordId, _, x) =>
        var old' := r.records[recordId];
        CommitKeepsRecords(r, r.roots[recordId], Linked(old'), LinkEntry(old'), Seen(r, recordId) + [x]);
    }
  }

  lemma {:induction false} LateKeepsRecords(past: Register, r: Register, c: Command)
    requires Grows(past, r) && PointersAgree(past) && PointersAgree(r)
    ensures PointersAgree(ApplyLate(past, r, c)) && Grows(r, ApplyLate(past, r, c))
  {
    if !c.Triage? {
      AtomicKeepsRecords(r, c);
    } else if ApplyLate(past, r, c) != r {
      var accepted := LateCommit(past, r, c);
      EffectKeepsPointers(r.records[c.action.recordId], c.actorId, Resolve(past, c.action, c.targetId), accepted);
      CommitKeepsRecords(r, r.roots[accepted.next.recordId], accepted.next, TriageEntry(r, accepted), Seen(r, accepted.next.recordId));
    }
  }

  /** The command would retire its record into one whose pointers lead back to it. */
  ghost predicate ClosesCycle(past: Register, r: Register, c: Command) {
    && c.Triage? && ApplyLate(past, r, c) != r
    && (c.action.operation.Merge? || c.action.operation.Supersede?)
    && Reaches(r, c.targetId, c.action.recordId)
  }

  /** A command that retires nothing leaves every pointer alone. */
  lemma {:induction false} OtherKeepsPointers(past: Register, r: Register, c: Command)
    requires Grows(past, r) && PointersAgree(past) && PointersAgree(r)
    requires !(c.Triage? && (c.action.operation.Merge? || c.action.operation.Supersede?))
    ensures SamePointers(r, ApplyLate(past, r, c))
  {
    if c.Triage? && ApplyLate(past, r, c) != r {
      var accepted := LateCommit(past, r, c);
    }
  }

  ghost predicate SamePointers(r: Register, t: Register) {
    forall id :: PointerAt(r, id) == PointerAt(t, id)
  }

  function PointerAt(r: Register, id: string): Option<string> {
    if id in r.records then r.records[id].Pointer() else None
  }

  lemma {:induction false} SamePointersFollow(r: Register, t: Register, id: string, n: nat)
    requires SamePointers(r, t)
    ensures Follow(r, id, n) == Follow(t, id, n)
    decreases n
  {
    if n > 0 {
      assert PointerAt(r, id) == PointerAt(t, id);
      if PointerAt(r, id).Some? {
        SamePointersFollow(r, t, PointerAt(r, id).value, n - 1);
      }
    }
  }

  lemma {:induction false} SamePointersAcyclic(r: Register, t: Register)
    requires SamePointers(r, t) && Acyclic(r)
    ensures Acyclic(t)
  {
    forall id, n: nat | n > 0 ensures Follow(t, id, n) != Some(id) {
      SamePointersFollow(r, t, id, n);
    }
  }

  lemma {:induction false} RetiringPointsAnew(past: Register, r: Register, c: Command)
    requires Grows(past, r) && PointersAgree(past) && PointersAgree(r)
    requires c.Triage? && (c.action.operation.Merge? || c.action.operation.Supersede?) && ApplyLate(past, r, c) != r
    ensures var t, s := ApplyLate(past, r, c), c.action.recordId;
      PointsAnew(r, t, s) && s in t.records && t.records[s].Pointer() == Some(c.targetId)
  {
    var accepted := LateCommit(past, r, c);
    EffectKeepsPointers(r.records[c.action.recordId], c.actorId, Resolve(past, c.action, c.targetId), accepted);
  }

  /** A late command keeps the pointers acyclic exactly when it does not close a cycle. */
  lemma {:induction false} LateKeepsAcyclicIff(past: Register, r: Register, c: Command)
    requires Grows(past, r) && PointersAgree(past) && PointersAgree(r) && Acyclic(r)
    ensures Acyclic(ApplyLate(past, r, c)) <==> !ClosesCycle(past, r, c)
  {
    if c.Triage? && (c.action.operation.Merge? || c.action.operation.Supersede?) && ApplyLate(past, r, c) != r {
      RetiringPointsAnew(past, r, c);
      NewPointerIff(r, c.action.recordId, c.targetId, ApplyLate(past, r, c));
    } else if ApplyLate(past, r, c) != r {
      OtherKeepsPointers(past, r, c);
      SamePointersAcyclic(r, ApplyLate(past, r, c));
    }
  }

  // ---------------------------------------------------------------------------
  // Interleaved runs
  // ---------------------------------------------------------------------------

  /** A command evaluated on the register after readAt steps, and committed now. */
  datatype Step = Step(c: Command, readAt: nat)

  /** Step i reads the register that was there after readAt steps, and commits on the one after i steps. */
  ghost predicate StepAt(rs: seq<Register>, steps: seq<Step>, i: nat) {
    && i < |steps| && |rs| == |steps| + 1 && steps[i].readAt <= i
    && rs[i + 1] == ApplyLate(rs[steps[i].readAt], rs[i], steps[i].c)
  }

  /** The registers of an interleaved run, before the first step and after each. */
  ghost predicate Interleaving(rs: seq<Register>, steps: seq<Step>) {
    |rs| == |steps| + 1 && forall i: nat :: i < |steps| ==> StepAt(rs, steps, i)
  }

  lemma {:induction false} StepStays(rs: seq<Register>, steps: seq<Step>, next: Register, last: Step, i: nat)
    requires StepAt(rs, steps, i)
    ensures StepAt(rs + [next], steps + [last], i)
  {
  }

  lemma {:induction false} StepAdded(rs: seq<Register>, steps: seq<Step>, last: Step)
    requires |rs| == |steps| + 1 && last.readAt <= |steps|
    ensures StepAt(rs + [ApplyLate(rs[last.readAt], rs[|steps|], last.c)], steps + [last], |steps|)
  {
  }

  lemma {:induction false} InterleavingExtends(before: seq<Register>, steps: seq<Step>, last: Step) returns (rs: seq<Register>)
    requires Interleaving(before, steps) && last.readAt <= |steps|
    ensures Interleaving(rs, steps + [last]) && rs[0] == before[0]
  {
    var next := ApplyLate(before[last.readAt], before[|steps|], last.c);
    rs := before + [next];
    forall i: nat | i < |steps| ensures StepAt(rs, steps + [last], i) {
      StepStays(before, steps, next, last, i);
    }
    StepAdded(before, steps, last);
  }

  /** Whatever register it starts from and whenever each step reads, there is such a run. */
  lemma {:induction false} InterleavingExists(r: Register, steps: seq<Step>) returns (rs: seq<Register>)
    requires forall i :: 0 <= i < |steps| ==> steps[i].readAt <= i
    ensures Interleaving(rs, steps) && rs[0] == r
    decreases |steps|
  {
    rs := [r];
    if steps != [] {
      var n := |steps| - 1;
      var before := InterleavingExists(r, steps[..n]);
      rs := InterleavingExtends(before, steps[..n], steps[n]);
      assert steps[..n] + [steps[n]] == steps;
    }
  }

  ghost predicate Later(past: Register, now: Register) {
    PointersAgree(past) && PointersAgree(now) && Grows(past, now)
  }

  /** A step from a register read earlier leads to a later one. */
  lemma {:induction false} NextIsLater(rs: seq<Register>, steps: seq<Step>, i: nat)
    requires Interleaving(rs, steps) && i < |steps|
    ensures steps[i].readAt <= i && (Later(rs[steps[i].readAt], rs[i]) ==> Later(rs[i], rs[i + 1]))
  {
    assert StepAt(rs, steps, i);
    if Later(rs[steps[i].readAt], rs[i]) {
      LateKeepsRecords(rs[steps[i].readAt], rs[i], steps[i].c);
    }
  }

  lemma {:induction false} LaterThroughout(rs: seq<Register>, readAt: seq<nat>, m: nat, n: nat)
    requires m <= n < |rs| && n <= |readAt| && PointersAgree(rs[0])
    requires forall i :: 0 <= i < n ==> readAt[i] <= i && (Later(rs[readAt[i]], rs[i]) ==> Later(rs[i], rs[i + 1]))
    ensures Later(rs[m], rs[n])
    decreases n, m
  {
    if n > 0 {
      LaterThroughout(rs, readAt, readAt[n - 1], n - 1);
      if m < n {
        LaterThroughout(rs, readAt, m, n - 1);
        GrowsOn(rs[m], rs[n - 1], rs[n]);
      }
    }
  }

  lemma {:induction false} RegistersGrow(rs: seq<Register>, steps: seq<Step>, m: nat, n: nat)
    requires Interleaving(rs, steps) && m <= n <= |steps| && PointersAgree(rs[0])
    ensures Later(rs[m], rs[n])
  {
    var readAt := seq(|steps|, i requires 0 <= i < |steps| => steps[i].readAt);
    forall i | 0 <= i < n ensures readAt[i] <= i && (Later(rs[readAt[i]], rs[i]) ==> Later(rs[i], rs[i + 1])) {
      NextIsLater(rs, steps, i);
    }
    LaterThroughout(rs, readAt, m, n);
  }

  ghost predicate ClosesAt(rs: seq<Register>, steps: seq<Step>, i: nat)
    requires Interleaving(rs, steps) && i < |steps|
  {
    assert StepAt(rs, steps, i);
    ClosesCycle(rs[steps[i].readAt], rs[i], steps[i].c)
  }

  lemma {:induction false} AcyclicStepIff(rs: seq<Register>, steps: seq<Step>, i: nat)
    requires Interleaving(rs, steps) && i < |steps| && PointersAgree(rs[0]) && Acyclic(rs[i])
    ensures Acyclic(rs[i + 1]) <==> !ClosesAt(rs, steps, i)
  {
    assert StepAt(rs, steps, i);
    RegistersGrow(rs, steps, steps[i].readAt, i);
    LateKeepsAcyclicIff(rs[steps[i].readAt], rs[i], steps[i].c);
  }

  ghost predicate AcyclicThroughout(rs: seq<Register>, n: nat)
    requires n < |rs|
  {
    forall i: nat :: i <= n ==> Acyclic(rs[i])
  }

  ghost predicate NoneCloses(rs: seq<Register>, steps: seq<Step>, n: nat)
    requires Interleaving(rs, steps) && n <= |steps|
  {
    forall i: nat :: i < n ==> !ClosesAt(rs, steps, i)
  }

  lemma {:induction false} OneMoreStep(rs: seq<Register>, steps: seq<Step>, n: nat)
    requires Interleaving(rs, steps) && n < |steps|
    ensures AcyclicThroughout(rs, n + 1) <==> AcyclicThroughout(rs, n) && Acyclic(rs[n + 1])
    ensures NoneCloses(rs, steps, n + 1) <==> NoneCloses(rs, steps, n) && !ClosesAt(rs, steps, n)
  {
    if NoneCloses(rs, steps, n) && !ClosesAt(rs, steps, n) {
      forall i: nat | i < n + 1 ensures !ClosesAt(rs, steps, i) {
      }
    }
  }

  /**
   * Whatever the interleaving, the pointers stay acyclic throughout exactly when no merge or
   * supersede is committed into a record whose pointers, by then, lead back to its own.
   */
  lemma {:induction false} InterleavedAcyclicIff(rs: seq<Register>, steps: seq<Step>, n: nat)
    requires Interleaving(rs, steps) && n <= |steps| && PointersAgree(rs[0]) && Acyclic(rs[0])
    ensures AcyclicThroughout(rs, n) <==> NoneCloses(rs, steps, n)
    decreases n
  {
    if n > 0 {
      InterleavedAcyclicIff(rs, steps, n - 1);
      OneMoreStep(rs, steps, n - 1);
      if AcyclicThroughout(rs, n - 1) {
        AcyclicStepIff(rs, steps, n - 1);
      }
    }
  }

  /** Re-reading the target at the commit is enough: one that is still open leads nowhere. */
  lemma {:induction false} OpenTargetClosesNothing(past: Register, r: Register, c: Command)
    requires c.Triage? && PointersAgree(r) && c.targetId != c.action.recordId
    requires c.targetId in r.records && r.records[c.targetId].Open()
    ensures !ClosesCycle(past, r, c)
  {
    forall n: nat ensures Follow(r, c.targetId, n) != Some(c.action.recordId) {
    }
  }

  // ---------------------------------------------------------------------------
  // Two processes
  // ---------------------------------------------------------------------------

  /** The triage is accepted on this register, as a merge of one record into the other. */
  ghost predicate MergesInto(r: Register, c: Command, source: string, target: string) {
    && c.Triage? && c.action.operation.Merge? && c.action.recordId == source && c.targetId == target
    && source != target && source in r.records && ApplyLate(r, r, c) != r
  }

  /** Two processes that read the same register and merge two records into each other both commit. */
  lemma {:induction false} CrossedMergesCycle(r: Register, a: Command, b: Command, x: string, y: string)
    requires RecordInv(r) && MergesInto(r, a, x, y) && MergesInto(r, b, y, x)
    ensures var t := ApplyLate(r, ApplyLate(r, r, a), b);
      Follow(t, x, 2) == Some(x) && !Acyclic(t)
  {
    PromptIsAtomic(r, a);
    PromptIsAtomic(r, b);
    assert PointersAgree(r) by {
      forall id | id in r.records ensures r.records[id].recordId == id && r.records[id].PointersMatchState() {
        assert Consistent(id, r.records[id], r.roots[id], r.events[id], r.observations[id]);
      }
    }
    var s := ApplyLate(r, r, a);
    RetiringPointsAnew(r, r, a);
    LateKeepsRecords(r, r, a);
    SecondMergeCommits(r, s, a, b, x, y);
    var t := ApplyLate(r, s, b);
    RetiringPointsAnew(r, s, b);
    assert Follow(t, x, 2) == Follow(t, y, 1) == Follow(t, x, 0);
  }

  /** Both registers hold the same rows of the record. */
  ghost predicate SameRows(r: Register, s: Register, y: string) {
    && y in r.records && y in s.records
    && (y in r.roots <==> y in s.roots) && (y in r.roots ==> r.roots[y] == s.roots[y])
    && RowsOf(s, y) == RowsOf(r, y) && Seen(s, y) == Seen(r, y)
  }

  lemma {:induction false} SameRowsCommit(r: Register, s: Register, accepted: Accepted, y: string)
    requires accepted.next.recordId == y && SameRows(r, s, y) && CommitTriage(r, accepted) != r
    requires s.records[y].eventVersion != accepted.next.eventVersion
    ensures CommitTriage(s, accepted) != s
  {
    assert CommitTriage(s, accepted).records[y] == accepted.next;
  }

  lemma {:induction false} UntouchedElsewhere(r: Register, accepted: Accepted, y: string)
    requires accepted.next.recordId != y && y in r.records
    ensures var s := CommitTriage(r, accepted);
      SameRows(r, s, y) && s.records[y] == r.records[y]
  {
  }

  /** The acting record is still as it was read, so the commit goes ahead. */
  lemma {:induction false} StillCommits(r: Register, s: Register, c: Command, accepted: Accepted)
    requires Commits(r, r, c, accepted)
    requires c.action.recordId in s.records && s.records[c.action.recordId] == r.records[c.action.recordId]
    ensures ApplyLate(r, s, c) == CommitTriage(s, accepted)
    ensures accepted.next.recordId == c.action.recordId
    ensures s.records[c.action.recordId].eventVersion != accepted.next.eventVersion
  {
  }

  /** The first merge leaves the other acting record alone, so the second one still commits. */
  lemma {:induction false} SecondMergeCommits(r: Register, s: Register, a: Command, b: Command, x: string, y: string)
    requires PointersAgree(r) && MergesInto(r, a, x, y) && MergesInto(r, b, y, x) && s == ApplyLate(r, r, a)
    ensures ApplyLate(r, s, b) != s && Grows(r, s) && PointersAgree(s)
  {
    var first := LateCommit(r, r, a);
    var second := LateCommit(r, r, b);
    LateKeepsRecords(r, r, a);
    UntouchedElsewhere(r, first, y);
    StillCommits(r, s, b, second);
    SameRowsCommit(r, s, second, y);
  }
}
