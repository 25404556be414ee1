module IngressLimits {
  /**
   * What the ingress protocol does not promise, and exactly when it does.
   *
   * Leases are per publication path, not per hash, and a process may reuse a file that its
   * creator still is entitled to clean up.  Both gaps are characterised here from an empty
   * store: the first by requests agreeing on the path of a hash, the second by requests
   * being pairwise different.
   */

  import opened Ingress

  /** Nothing on disk and no rows. */
  ghost predicate Clear(s: State) {
    Init(s) && s.files == map[] && s.leases == {} && s.rows == map[]
  }

  /** Equal hashes are published at equal paths. */
  ghost predicate HashesAgree(procs: map<nat, Process>) {
    forall p, q :: p in procs && q in procs
      && procs[p].request.path.hash == procs[q].request.path.hash
      ==> procs[p].request.path == procs[q].request.path
  }

  /** A process about to unlink sees its hash uncommitted. */
  ghost predicate HashUncommittedAtUnlink(s: State) {
    forall p :: p in s.procs && s.procs[p].pc.ReadyToUnlink? ==> s.procs[p].request.path.hash !in s.rows
  }

  lemma {:induction false} TransitionKeepsHashFree(s: State, t: State, p: nat)
    requires LeaseInv(s) && HashesAgree(s.procs) && HashUncommittedAtUnlink(s) && Transition(s, t, p)
    ensures HashesAgree(t.procs) && HashUncommittedAtUnlink(t)
  {
    forall a, b | a in t.procs && b in t.procs
      && t.procs[a].request.path.hash == t.procs[b].request.path.hash
      ensures t.procs[a].request.path == t.procs[b].request.path
    {
      assert t.procs[a].request == s.procs[a].request && t.procs[b].request == s.procs[b].request;
    }
    forall q | q in t.procs && t.procs[q].pc.ReadyToUnlink?
      ensures t.procs[q].request.path.hash !in t.rows
    {
      if q != p && t.rows != s.rows {
        assert Holding(s.procs[p].pc) && Holding(s.procs[q].pc);
      }
    }
  }

  lemma {:induction false} AgreementSuffices(s: State, schedule: Schedule)
    requires Inv(s) && HashesAgree(s.procs) && HashUncommittedAtUnlink(s)
    ensures HashUncommittedAtUnlink(Run(s, schedule))
    decreases |schedule|
  {
    if schedule != [] {
      var t := Step(s, schedule[0].0, schedule[0].1);
      StepKeepsInv(s, schedule[0].0, schedule[0].1);
      StepIsTransition(s, schedule[0].0, schedule[0].1);
      if t != s {
        TransitionKeepsHashFree(s, t, schedule[0].0);
      }
      AgreementSuffices(t, schedule[1..]);
    }
  }

  // ---------------------------------------------------------------------------
  // Driving one process alone
  // ---------------------------------------------------------------------------

  /** The process is fresh and nothing is in its way. */
  predicate CanGo(s: State, p: nat) {
    && p in s.procs
    && s.procs[p].pc.Start?
    && s.procs[p].request.path !in s.files
    && s.procs[p].request.path !in s.leases
    && s.procs[p].request.path.hash !in s.rows
  }

  function Repeat(p: nat, n: nat): Schedule {
    seq(n, _ => (p, Proceed))
  }

  lemma {:induction false} RunOne(s: State, x: (nat, Choice))
    ensures Run(s, [x]) == Step(s, x.0, x.1)
  {
    assert Run(Step(s, x.0, x.1), [x][1..]) == Step(s, x.0, x.1);
  }

  lemma {:induction false} RunSnoc(s: State, schedule: Schedule, x: (nat, Choice))
    ensures Run(s, schedule + [x]) == Step(Run(s, schedule), x.0, x.1)
  {
    RunConcat(s, schedule, [x]);
    RunOne(Run(s, schedule), x);
  }

  function LeasedState(s: State, p: nat): State
    requires p in s.procs
  {
    var r := s.procs[p].request;
    State(s.files[r.path := r.bytes], s.leases + {r.path}, s.rows, s.procs[p := Process(r, Leased(true))])
  }

  /** Left alone, a process takes its lease over its own fresh publication. */
  lemma {:induction false} DriveToLease(s: State, p: nat)
    requires CanGo(s, p)
    ensures Run(s, Repeat(p, 4)) == LeasedState(s, p)
  {
    var r := s.procs[p].request;
    var s1 := Goto(s, p, Unseen);
    var s2 := Goto(s.(files := s.files[r.path := r.bytes]), p, Linked);
    var s3 := Goto(s2, p, Published(true));
    RunSnoc(s, [], (p, Proceed));
    assert [(p, Proceed)] == Repeat(p, 1) == [] + [(p, Proceed)];
    assert Step(s, p, Proceed) == s1;
    RunSnoc(s, Repeat(p, 1), (p, Proceed));
    assert Repeat(p, 2) == Repeat(p, 1) + [(p, Proceed)];
    assert Step(s1, p, Proceed) == s2;
    RunSnoc(s, Repeat(p, 2), (p, Proceed));
    assert Repeat(p, 3) == Repeat(p, 2) + [(p, Proceed)];
    assert Step(s2, p, Proceed) == s3;
    RunSnoc(s, Repeat(p, 3), (p, Proceed));
    assert Repeat(p, 4) == Repeat(p, 3) + [(p, Proceed)];
  }

  /** A leased process whose transaction is refused proceeds to the brink of its unlink. */
  lemma {:induction false} DriveToUnlink(s: State, p: nat)
    requires p in s.procs && s.procs[p].pc == Leased(true)
    requires var r := s.procs[p].request; FileMatches(s, r.path, r.bytes) && r.path.hash !in s.rows
    ensures Run(s, [(p, Refuse(IngestFailed))] + Repeat(p, 3)) == Goto(s, p, ReadyToUnlink(PersistenceFailed))
  {
    var s1 := Goto(s, p, Refused(true, PersistenceFailed));
    var s2 := Goto(s, p, AbsenceSeen(PersistenceFailed));
    var s3 := Goto(s, p, BytesSeen(PersistenceFailed));
    var go: Schedule := [(p, Refuse(IngestFailed))];
    RunOne(s, go[0]);
    assert Step(s, p, go[0].1) == s1;
    RunSnoc(s, go, (p, Proceed));
    assert Step(s1, p, Proceed) == s2;
    RunSnoc(s, go + [(p, Proceed)], (p, Proceed));
    assert Step(s2, p, Proceed) == s3;
    RunSnoc(s, go + [(p, Proceed)] + [(p, Proceed)], (p, Proceed));
    assert Step(s3, p, Proceed) == Goto(s, p, ReadyToUnlink(PersistenceFailed));
    assert go + Repeat(p, 3) == go + [(p, Proceed)] + [(p, Proceed)] + [(p, Proceed)];
  }

  lemma {:induction false} DisagreementBreaks(s: State, p: nat, q: nat) returns (schedule: Schedule)
    requires Clear(s) && p in s.procs && q in s.procs && p != q
    requires s.procs[p].request.path.hash == s.procs[q].request.path.hash
    requires s.procs[p].request.path != s.procs[q].request.path
    ensures !HashUncommittedAtUnlink(Run(s, schedule))
  {
    var first := Repeat(p, 4);
    var refuse := [(p, Refuse(IngestFailed))] + Repeat(p, 3);
    DriveToLease(s, p);
    DriveToUnlink(Run(s, first), p);
    RunConcat(s, first, refuse);
    var brink := Run(s, first + refuse);
    DriveToLease(brink, q);
    RunConcat(s, first + refuse, Repeat(q, 4));
    schedule := first + refuse + Repeat(q, 4) + [(q, Proceed)];
    RunSnoc(s, first + refuse + Repeat(q, 4), (q, Proceed));
    var end := Run(s, schedule);
    assert end.procs[p].pc.ReadyToUnlink? && end.procs[p].request.path.hash in end.rows;
  }

  /**
   * "An unlink never happens while its hash is committed" holds in every interleaving from an
   * empty store exactly when requests for one hash agree on the publication path.
   */
  lemma {:induction false} HashFreeAtUnlinkIff(s: State)
    requires Clear(s)
    ensures (forall schedule :: HashUncommittedAtUnlink(Run(s, schedule))) <==> HashesAgree(s.procs)
  {
    if HashesAgree(s.procs) {
      forall schedule ensures HashUncommittedAtUnlink(Run(s, schedule)) {
        AgreementSuffices(s, schedule);
      }
    } else {
      var p, q :| p in s.procs && q in s.procs
        && s.procs[p].request.path.hash == s.procs[q].request.path.hash
        && s.procs[p].request.path != s.procs[q].request.path;
      var schedule := DisagreementBreaks(s, p, q);
      assert !HashUncommittedAtUnlink(Run(s, schedule));
    }
  }

  // ---------------------------------------------------------------------------
  // Rows without files
  // ---------------------------------------------------------------------------

  ghost predicate EveryRowHasFile(s: State) {
    forall h :: h in s.rows ==> FileMatches(s, s.rows[h].path, s.rows[h].bytes)
  }

  ghost predicate RequestsDiffer(procs: map<nat, Process>) {
    forall p, q :: p in procs && q in procs && p != q ==> procs[p].request != procs[q].request
  }

  /** The process made its file and has not unlinked it. */
  predicate Owns(pc: Pc) {
    || pc.Linked?
    || pc.Committed? || pc.RowRead? || pc.FileRead?
    || pc.AbsenceSeen? || pc.BytesSeen? || pc.ReadyToUnlink?
    || ((pc.Published? || pc.Leased? || pc.Refused?) && pc.created)
  }

  predicate Reused(pc: Pc) {
    (pc.Published? || pc.Leased? || pc.Refused?) && !pc.created
  }

  predicate Fresh(pc: Pc) {
    pc.Start? || pc.Unseen?
  }

  ghost predicate OwnersHaveFiles(s: State) {
    forall p :: p in s.procs && Owns(s.procs[p].pc) ==>
      FileMatches(s, s.procs[p].request.path, s.procs[p].request.bytes)
  }

  ghost predicate NoReuse(s: State) {
    forall p :: p in s.procs ==> !Reused(s.procs[p].pc)
  }

  predicate Made(s: State, p: nat, path: Path) {
    path in s.files && p in s.procs && s.procs[p].request == Request(path, s.files[path]) && !Fresh(s.procs[p].pc)
  }

  ghost predicate FilesHaveMakers(s: State) {
    forall path :: path in s.files ==> exists p :: Made(s, p, path)
  }

  /** With pairwise different requests, every live file has one owner, and nobody reuses a file. */
  ghost predicate OwnerInv(s: State) {
    && RequestsDiffer(s.procs)
    && OwnersHaveFiles(s)
    && NoReuse(s)
    && FilesHaveMakers(s)
    && (forall h :: h in s.rows ==> s.rows[h].path.hash == h)
    && EveryRowHasFile(s)
  }

  /** The ownership side of one operation. */
  ghost predicate Custody(s: State, t: State, p: nat) {
    && p in s.procs
    && p in t.procs
    && t.procs == s.procs[p := t.procs[p]]
    && t.procs[p].request == s.procs[p].request
    && var r := s.procs[p].request;
    && var from, to := s.procs[p].pc, t.procs[p].pc;
    && (|| (t.files == s.files && (Owns(to) ==> Owns(from) || from == Leased(false)))
        || (Fresh(from) && !Fresh(to) && r.path !in s.files && t.files == s.files[r.path := r.bytes])
        || (from.ReadyToUnlink? && !Owns(to) && t.files == s.files - {r.path}))
    && (Fresh(to) ==> Fresh(from))
    && (Reused(to) ==> Reused(from) || (Fresh(from) && FileMatches(s, r.path, r.bytes)))
    && (|| t.rows == s.rows
        || (from.Leased? && t.files == s.files && t.rows == s.rows[r.path.hash := Row(r.path, r.bytes, p)]))
  }

  lemma {:induction false} PublishCustody(s: State, p: nat, c: Choice)
    requires p in s.procs && Publishing(s.procs[p].pc)
    ensures Custody(s, StepPublish(s, p, c), p)
  {
  }

  lemma {:induction false} CommitCustody(s: State, p: nat, c: Choice)
    requires p in s.procs && !Publishing(s.procs[p].pc) && !Cleaning(s.procs[p].pc) && !Ended(s.procs[p].pc)
    ensures Custody(s, StepCommit(s, p, c), p)
  {
  }

  lemma {:induction false} CleanCustody(s: State, p: nat, c: Choice)
    requires p in s.procs && Cleaning(s.procs[p].pc)
    ensures Custody(s, StepClean(s, p, c), p)
  {
  }

  lemma {:induction false} StepCustody(s: State, p: nat, c: Choice)
    ensures Step(s, p, c) == s || Custody(s, Step(s, p, c), p)
  {
    if p in s.procs && !Ended(s.procs[p].pc) && !c.Crash? {
      if Publishing(s.procs[p].pc) {
        PublishCustody(s, p, c);
      } else if Cleaning(s.procs[p].pc) {
        CleanCustody(s, p, c);
      } else {
        CommitCustody(s, p, c);
      }
    }
  }

  lemma {:induction false} CustodyKeepsMakers(s: State, t: State, p: nat)
    requires FilesHaveMakers(s) && Custody(s, t, p)
    ensures FilesHaveMakers(t)
  {
    forall path | path in t.files
      ensures exists q :: Made(t, q, path)
    {
      if path in s.files && t.files[path] == s.files[path] {
        var q :| Made(s, q, path);
        assert Made(t, q, path);
      } else {
        assert Made(t, p, path);
      }
    }
  }

  lemma {:induction false} CustodyKeepsNoReuse(s: State, t: State, p: nat)
    requires RequestsDiffer(s.procs) && FilesHaveMakers(s) && NoReuse(s) && Custody(s, t, p)
    ensures NoReuse(t) && RequestsDiffer(t.procs)
  {
    assert forall q :: q in t.procs ==> t.procs[q].request == s.procs[q].request;
    var r := s.procs[p].request;
    forall q | Made(s, q, r.path) && Fresh(s.procs[p].pc)
      ensures s.files[r.path] != r.bytes
    {
    }
  }

  lemma {:induction false} CustodyKeepsOwned(s: State, t: State, p: nat)
    requires RequestsDiffer(s.procs) && OwnersHaveFiles(s) && NoReuse(s) && Custody(s, t, p)
    ensures OwnersHaveFiles(t)
  {
    forall q | q in t.procs && Owns(t.procs[q].pc)
      ensures FileMatches(t, t.procs[q].request.path, t.procs[q].request.bytes)
    {
      if q != p {
        assert s.procs[q].request != s.procs[p].request;
      }
    }
  }

  lemma {:induction false} CustodyKeepsRowFiles(s: State, t: State, p: nat)
    requires RowInv(s) && OwnerInv(s) && Custody(s, t, p)
    ensures EveryRowHasFile(t) && forall h :: h in t.rows ==> t.rows[h].path.hash == h
  {
  }

  lemma {:induction false} CustodyKeepsOwners(s: State, t: State, p: nat)
    requires RowInv(s) && OwnerInv(s) && Custody(s, t, p)
    ensures OwnerInv(t)
  {
    CustodyKeepsMakers(s, t, p);
    CustodyKeepsNoReuse(s, t, p);
    CustodyKeepsOwned(s, t, p);
    CustodyKeepsRowFiles(s, t, p);
  }

  lemma {:induction false} DifferenceSuffices(s: State, schedule: Schedule)
    requires Inv(s) && OwnerInv(s)
    ensures EveryRowHasFile(Run(s, schedule))
    decreases |schedule|
  {
    if schedule != [] {
      var t := Step(s, schedule[0].0, schedule[0].1);
      StepKeepsInv(s, schedule[0].0, schedule[0].1);
      StepCustody(s, schedule[0].0, schedule[0].1);
      if t != s {
        CustodyKeepsOwners(s, t, schedule[0].0);
      }
      DifferenceSuffices(t, schedule[1..]);
    }
  }

  lemma {:induction false} RunTwo(s: State, x: (nat, Choice), y: (nat, Choice))
    ensures Run(s, [x, y]) == Step(Step(s, x.0, x.1), y.0, y.1)
  {
    RunOne(s, x);
    RunSnoc(s, [x], y);
    assert [x, y] == [x] + [y];
  }

  /** A second process that finds the same bytes published reuses them. */
  lemma {:induction false} DriveReuse(s: State, q: nat)
    requires q in s.procs && s.procs[q].pc.Start?
    requires var r := s.procs[q].request; FileMatches(s, r.path, r.bytes) && r.path.hash !in s.rows
    ensures Run(s, Repeat(q, 2)) == Goto(s, q, Published(false))
  {
    RunTwo(s, (q, Proceed), (q, Proceed));
    assert Repeat(q, 2) == [(q, Proceed), (q, Proceed)];
    assert Step(s, q, Proceed) == Goto(s, q, Unseen);
    assert Step(Goto(s, q, Unseen), q, Proceed) == Goto(s, q, Published(false));
  }

  lemma {:induction false} DriveUnlinkAndRelease(s: State, p: nat, code: RefusalCode)
    requires p in s.procs && s.procs[p].pc == ReadyToUnlink(code)
    ensures var path := s.procs[p].request.path;
      Run(s, Repeat(p, 2))
        == Goto(s.(files := s.files - {path}, leases := s.leases - {path}), p, Done(Refusal(code)))
  {
    var path := s.procs[p].request.path;
    RunTwo(s, (p, Proceed), (p, Proceed));
    assert Repeat(p, 2) == [(p, Proceed), (p, Proceed)];
    assert Step(s, p, Proceed) == Goto(s.(files := s.files - {path}), p, Finishing(Refusal(code)));
  }

  lemma {:induction false} DriveCommit(s: State, q: nat)
    requires q in s.procs && s.procs[q].pc == Published(false)
    requires var path := s.procs[q].request.path; path !in s.leases && path.hash !in s.rows
    ensures var r := s.procs[q].request; var t := Run(s, Repeat(q, 2));
      t.files == s.files && r.path.hash in t.rows && t.rows[r.path.hash].path == r.path
  {
    var path := s.procs[q].request.path;
    RunTwo(s, (q, Proceed), (q, Proceed));
    assert Repeat(q, 2) == [(q, Proceed), (q, Proceed)];
    assert Step(s, q, Proceed) == Goto(s.(leases := s.leases + {path}), q, Leased(false));
  }

  /** The second of two equal requests reuses the file, loses it to the cleanup of the first, then commits. */
  lemma {:induction false} EqualRequestsBreak(s: State, p: nat, q: nat) returns (schedule: Schedule)
    requires Clear(s) && p in s.procs && q in s.procs && p != q
    requires s.procs[p].request == s.procs[q].request
    ensures !EveryRowHasFile(Run(s, schedule))
  {
    var path := s.procs[p].request.path;
    schedule := Repeat(p, 4);
    DriveToLease(s, p);
    var leased := LeasedState(s, p);
    DriveReuse(leased, q);
    RunConcat(s, schedule, Repeat(q, 2));
    schedule := schedule + Repeat(q, 2);
    var reused := Goto(leased, q, Published(false));
    DriveToUnlink(reused, p);
    RunConcat(s, schedule, [(p, Refuse(IngestFailed))] + Repeat(p, 3));
    schedule := schedule + ([(p, Refuse(IngestFailed))] + Repeat(p, 3));
    var brink := Goto(reused, p, ReadyToUnlink(PersistenceFailed));
    DriveUnlinkAndRelease(brink, p, PersistenceFailed);
    RunConcat(s, schedule, Repeat(p, 2));
    schedule := schedule + Repeat(p, 2);
    var released := Run(s, schedule);
    assert path !in released.files && path !in released.leases && path.hash !in released.rows;
    assert released.procs[q] == Process(s.procs[q].request, Published(false));
    DriveCommit(released, q);
    RunConcat(s, schedule, Repeat(q, 2));
    schedule := schedule + Repeat(q, 2);
  }

  /**
   * "Every committed row has its file" holds in every interleaving from an empty store exactly
   * when no two invocations carry the same request.
   */
  lemma {:induction false} EveryRowHasFileIff(s: State)
    requires Clear(s)
    ensures (forall schedule :: EveryRowHasFile(Run(s, schedule))) <==> RequestsDiffer(s.procs)
  {
    if RequestsDiffer(s.procs) {
      forall schedule ensures EveryRowHasFile(Run(s, schedule)) {
        DifferenceSuffices(s, schedule);
      }
    } else {
      var p, q :| p in s.procs && q in s.procs && p != q && s.procs[p].request == s.procs[q].request;
      var schedule := EqualRequestsBreak(s, p, q);
      assert !EveryRowHasFile(Run(s, schedule));
    }
  }
}
