module Ingress {
  /**
   * The content-addressed ingress protocol.
   *
   * Every ingress process runs the same text: duplicate check, no-replace publication,
   * exclusive lease, transactional commit, read-back, and - when nothing was committed -
   * a conditional cleanup of the file it created, then lease release.  Processes interleave
   * one operation at a time over the files, the lease files and the append-only rows, and
   * may fail or crash at every operation.
   */

  /** Where an artifact is published; its lease file lives beside it and carries the same hash. */
  datatype Path = Path(root: string, kind: string, hash: string)

  type Bytes = seq<nat>

  /** One append-only row; owner is the invocation whose transaction inserted it. */
  datatype Row = Row(path: Path, bytes: Bytes, owner: nat)

  datatype Request = Request(path: Path, bytes: Bytes)

  datatype RefusalCode =
    | InvalidInput | DuplicateArtifact | StoreUnavailable | PersistenceFailed | PresentationFailed

  /** Refusals of the transactional ingestion service. */
  datatype IngestionRefusal =
    | IngestInvalidInput | IngestRejected | IngestScopeMismatch
    | IngestDuplicate | IngestFailed | IngestStoreUnavailable

  datatype Answer = Persisted | PersistedNonAuthoritative | Refusal(code: RefusalCode) {
    predicate Durable() {
      Persisted? || PersistedNonAuthoritative?
    }
  }

  /** The next operation of a process. */
  datatype Pc =
    | Start
    | Unseen
    | Linked
    | Published(created: bool)
    | Leased(created: bool)
    | Committed
    | RowRead
    | FileRead
    | Refused(created: bool, code: RefusalCode)
    | AbsenceSeen(code: RefusalCode)
    | BytesSeen(code: RefusalCode)
    | ReadyToUnlink(code: RefusalCode)
    | Finishing(answer: Answer)
    | Done(answer: Answer)
    | Crashed

  datatype Process = Process(request: Request, pc: Pc)

  /** How the environment lets one operation end. */
  datatype Choice = Proceed | Refuse(refusal: IngestionRefusal) | Throw | Crash

  datatype State = State(
    files: map<Path, Bytes>,
    leases: set<Path>,
    rows: map<string, Row>,
    procs: map<nat, Process>)

  function MapRefusal(refusal: IngestionRefusal): RefusalCode {
    match refusal
    case IngestDuplicate => DuplicateArtifact
    case IngestStoreUnavailable => StoreUnavailable
    case IngestInvalidInput => InvalidInput
    case _ => PersistenceFailed
  }

  function FileMatches(s: State, path: Path, bytes: Bytes): bool {
    path in s.files && s.files[path] == bytes
  }

  function Insert(s: State, p: nat, r: Request): State {
    if r.path.hash in s.rows then s
    else s.(rows := s.rows[r.path.hash := Row(r.path, r.bytes, p)])
  }

  function Goto(s: State, p: nat, pc: Pc): State
    requires p in s.procs
  {
    s.(procs := s.procs[p := s.procs[p].(pc := pc)])
  }

  /** One operation of process p; a process that has ended, or is unknown, does nothing. */
  function Step(s: State, p: nat, c: Choice): State {
    if p !in s.procs || s.procs[p].pc.Done? || s.procs[p].pc.Crashed? then s
    else if c.Crash? then Goto(s, p, Crashed)
    else if Publishing(s.procs[p].pc) then StepPublish(s, p, c)
    else if Cleaning(s.procs[p].pc) then StepClean(s, p, c)
    else StepCommit(s, p, c)
  }

  predicate Publishing(pc: Pc) {
    pc.Start? || pc.Unseen? || pc.Linked? || pc.Published?
  }

  predicate Cleaning(pc: Pc) {
    pc.Refused? || pc.AbsenceSeen? || pc.BytesSeen? || pc.ReadyToUnlink? || pc.Finishing?
  }

  predicate Ended(pc: Pc) {
    pc.Done? || pc.Crashed?
  }

  /** Duplicate check, no-replace publication with its re-verification, lease acquisition. */
  function StepPublish(s: State, p: nat, c: Choice): State
    requires p in s.procs && Publishing(s.procs[p].pc)
  {
    var Request(path, bytes) := s.procs[p].request;
    match s.procs[p].pc
    case Start =>
      if c.Refuse? then Goto(s, p, Done(Refusal(InvalidInput)))
      else if c.Throw? then Goto(s, p, Done(Refusal(PersistenceFailed)))
      else if path.hash in s.rows then Goto(s, p, Done(Refusal(DuplicateArtifact)))
      else Goto(s, p, Unseen)
    case Unseen =>
      if !c.Proceed? then Goto(s, p, Done(Refusal(PersistenceFailed)))
      else if path !in s.files then Goto(s.(files := s.files[path := bytes]), p, Linked)
      else if s.files[path] == bytes then Goto(s, p, Published(false))
      else Goto(s, p, Done(Refusal(PersistenceFailed)))
    case Linked =>
      if c.Proceed? && FileMatches(s, path, bytes) then Goto(s, p, Published(true))
      else Goto(s, p, Done(Refusal(PersistenceFailed)))
    case Published(created) =>
      if c.Proceed? && path !in s.leases
      then Goto(s.(leases := s.leases + {path}), p, Leased(created))
      else Goto(s, p, Done(Refusal(PersistenceFailed)))
  }

  /**
   * The transaction and the read-back.  Throw at Leased is the ambiguous case: the row may
   * be durable although the call failed, so the caller does not know that it committed.
   */
  function StepCommit(s: State, p: nat, c: Choice): State
    requires p in s.procs && !Publishing(s.procs[p].pc) && !Cleaning(s.procs[p].pc) && !Ended(s.procs[p].pc)
  {
    var Request(path, bytes) := s.procs[p].request;
    match s.procs[p].pc
    case Leased(created) =>
      if c.Refuse? then Goto(s, p, Refused(created, MapRefusal(c.refusal)))
      else if c.Throw? then Goto(Insert(s, p, s.procs[p].request), p, Refused(created, PersistenceFailed))
      else if path.hash in s.rows then Goto(s, p, Refused(created, DuplicateArtifact))
      else Goto(Insert(s, p, s.procs[p].request), p, Committed)
    case Committed =>
      if c.Proceed? && path.hash in s.rows then Goto(s, p, RowRead)
      else Goto(s, p, Finishing(Refusal(PersistenceFailed)))
    case RowRead =>
      if c.Proceed? && path.hash in s.rows && FileMatches(s, s.rows[path.hash].path, s.rows[path.hash].bytes)
      then Goto(s, p, FileRead)
      else Goto(s, p, Finishing(Refusal(PersistenceFailed)))
    case FileRead =>
      if c.Refuse? then Goto(s, p, Finishing(Refusal(PresentationFailed)))
      else if c.Throw? then Goto(s, p, Finishing(Refusal(PersistenceFailed)))
      else Goto(s, p, Finishing(if path.kind == "debt_observation" then PersistedNonAuthoritative else Persisted))
  }

  /** Cleanup of an uncommitted publication, operation by operation, then the lease release. */
  function StepClean(s: State, p: nat, c: Choice): State
    requires p in s.procs && Cleaning(s.procs[p].pc)
  {
    var Request(path, bytes) := s.procs[p].request;
    match s.procs[p].pc
    case Refused(created, code) =>
      if created && c.Proceed? && path.hash !in s.rows then Goto(s, p, AbsenceSeen(code))
      else Goto(s, p, Finishing(Refusal(code)))
    case AbsenceSeen(code) =>
      if c.Proceed? && FileMatches(s, path, bytes) then Goto(s, p, BytesSeen(code))
      else Goto(s, p, Finishing(Refusal(code)))
    case BytesSeen(code) =>
      if c.Proceed? && path.hash !in s.rows then Goto(s, p, ReadyToUnlink(code))
      else Goto(s, p, Finishing(Refusal(code)))
    case ReadyToUnlink(code) =>
      if c.Proceed? then Goto(s.(files := s.files - {path}), p, Finishing(Refusal(code)))
      else Goto(s, p, Finishing(Refusal(code)))
    case Finishing(answer) =>
      if c.Proceed? then Goto(s.(leases := s.leases - {path}), p, Done(answer))
      else Goto(s, p, Done(answer))
  }

  /** An interleaving: which process moves, and how its operation ends. */
  type Schedule = seq<(nat, Choice)>

  function Run(s: State, schedule: Schedule): State
    decreases |schedule|
  {
    if schedule == [] then s
    else Run(Step(s, schedule[0].0, schedule[0].1), schedule[1..])
  }

  /** Any files, rows and (stale) lease files may exist; no process has begun. */
  ghost predicate Init(s: State) {
    forall p :: p in s.procs ==> s.procs[p].pc.Start?
  }

  /** The process is inside its lease. */
  predicate Holding(pc: Pc) {
    !Publishing(pc) && !Ended(pc)
  }

  /** The process knows that its own transaction committed. */
  predicate KnowsCommit(pc: Pc) {
    || pc.Committed? || pc.RowRead? || pc.FileRead?
    || (pc.Finishing? && pc.answer.Durable())
    || (pc.Done? && pc.answer.Durable())
  }

  /** The process has read the committed file back. */
  predicate KnowsFile(pc: Pc) {
    KnowsCommit(pc) && !pc.Committed? && !pc.RowRead?
  }

  predicate CommittedAt(s: State, path: Path) {
    path.hash in s.rows && s.rows[path.hash].path == path
  }

  /** The row and the matching file are both there. */
  predicate Stored(s: State, path: Path) {
    CommittedAt(s, path) && FileMatches(s, path, s.rows[path.hash].bytes)
  }

  ghost predicate LeaseInv(s: State) {
    && (forall p :: p in s.procs && Holding(s.procs[p].pc) ==> s.procs[p].request.path in s.leases)
    && (forall p, q :: p in s.procs && q in s.procs && p != q
          && Holding(s.procs[p].pc) && Holding(s.procs[q].pc)
          ==> s.procs[p].request.path != s.procs[q].request.path)
  }

  ghost predicate RowInv(s: State) {
    && (forall p :: p in s.procs && KnowsCommit(s.procs[p].pc) ==>
          && s.procs[p].request.path.hash in s.rows
          && s.rows[s.procs[p].request.path.hash] == Row(s.procs[p].request.path, s.procs[p].request.bytes, p))
    && (forall p :: p in s.procs && s.procs[p].pc.ReadyToUnlink? ==> !CommittedAt(s, s.procs[p].request.path))
  }

  ghost predicate FileInv(s: State) {
    forall p :: p in s.procs && KnowsFile(s.procs[p].pc) ==>
      FileMatches(s, s.procs[p].request.path, s.procs[p].request.bytes)
  }

  ghost predicate Inv(s: State) {
    LeaseInv(s) && RowInv(s) && FileInv(s)
  }

  /** What any one operation can change: the whole protocol in six clauses. */
  ghost predicate Transition(s: State, t: State, p: nat) {
    && p in s.procs
    && p in t.procs
    && t.procs == s.procs[p := t.procs[p]]
    && t.procs[p].request == s.procs[p].request
    && var r := s.procs[p].request;
    && var from, to := s.procs[p].pc, t.procs[p].pc;
    && (|| t.files == s.files
        || (r.path !in s.files && t.files == s.files[r.path := r.bytes])
        || (from.ReadyToUnlink? && t.files == s.files - {r.path}))
    && (|| (t.leases == s.leases && (Holding(to) ==> Holding(from)))
        || (!Holding(from) && r.path !in s.leases && t.leases == s.leases + {r.path})
        || (Holding(from) && !Holding(to) && t.leases == s.leases - {r.path}))
    && (|| (t.rows == s.rows && (KnowsCommit(to) ==> KnowsCommit(from)))
        || (&& Holding(from) && r.path.hash !in s.rows
            && t.rows == s.rows[r.path.hash := Row(r.path, r.bytes, p)]))
    && (KnowsFile(to) && !KnowsFile(from) ==>
          && KnowsCommit(from) && r.path.hash in s.rows
          && FileMatches(s, s.rows[r.path.hash].path, s.rows[r.path.hash].bytes))
    && (KnowsFile(to) && !KnowsFile(from) ==> t.files == s.files)
    && (to.ReadyToUnlink? ==> Holding(from) && r.path.hash !in t.rows)
  }

  lemma {:induction false} PublishIsTransition(s: State, p: nat, c: Choice)
    requires p in s.procs && Publishing(s.procs[p].pc)
    ensures Transition(s, StepPublish(s, p, c), p)
  {
  }

  lemma {:induction false} CommitIsTransition(s: State, p: nat, c: Choice)
    requires p in s.procs && !Publishing(s.procs[p].pc) && !Cleaning(s.procs[p].pc) && !Ended(s.procs[p].pc)
    ensures Transition(s, StepCommit(s, p, c), p)
  {
  }

  lemma {:induction false} CleanIsTransition(s: State, p: nat, c: Choice)
    requires p in s.procs && Cleaning(s.procs[p].pc)
    ensures Transition(s, StepClean(s, p, c), p)
  {
  }

  lemma {:induction false} StepIsTransition(s: State, p: nat, c: Choice)
    ensures Step(s, p, c) == s || Transition(s, Step(s, p, c), p)
  {
    if p in s.procs && !Ended(s.procs[p].pc) {
      if c.Crash? {
        CrashIsTransition(s, p);
      } else if Publishing(s.procs[p].pc) {
        PublishIsTransition(s, p, c);
      } else if Cleaning(s.procs[p].pc) {
        CleanIsTransition(s, p, c);
      } else {
        CommitIsTransition(s, p, c);
      }
    }
  }

  lemma {:induction false} CrashIsTransition(s: State, p: nat)
    requires p in s.procs && !Ended(s.procs[p].pc)
    ensures Transition(s, Goto(s, p, Crashed), p)
  {
  }

  lemma {:induction false} TransitionKeepsLeases(s: State, t: State, p: nat)
    requires LeaseInv(s) && Transition(s, t, p)
    ensures LeaseInv(t)
  {
  }

  lemma {:induction false} TransitionKeepsRows(s: State, t: State, p: nat)
    requires LeaseInv(s) && RowInv(s) && Transition(s, t, p)
    ensures RowInv(t)
  {
    forall q | q in t.procs && t.procs[q].pc.ReadyToUnlink?
      ensures !CommittedAt(t, t.procs[q].request.path)
    {
      if q != p && t.rows != s.rows {
        assert Holding(s.procs[p].pc) && Holding(s.procs[q].pc);
      }
    }
  }

  lemma {:induction false} TransitionKeepsFiles(s: State, t: State, p: nat)
    requires Inv(s) && Transition(s, t, p)
    ensures FileInv(t)
  {
    forall q | q in t.procs && KnowsFile(t.procs[q].pc)
      ensures FileMatches(t, t.procs[q].request.path, t.procs[q].request.bytes)
    {
      assert KnowsCommit(s.procs[q].pc);
      assert CommittedAt(s, s.procs[q].request.path);
    }
  }

  lemma {:induction false} StepKeepsInv(s: State, p: nat, c: Choice)
    requires Inv(s)
    ensures Inv(Step(s, p, c))
  {
    var t := Step(s, p, c);
    StepIsTransition(s, p, c);
    if t != s {
      TransitionKeepsLeases(s, t, p);
      TransitionKeepsRows(s, t, p);
      TransitionKeepsFiles(s, t, p);
    }
  }

  lemma {:induction false} RunKeepsInv(s: State, schedule: Schedule)
    requires Inv(s)
    ensures Inv(Run(s, schedule))
    decreases |schedule|
  {
    if schedule != [] {
      StepKeepsInv(s, schedule[0].0, schedule[0].1);
      RunKeepsInv(Step(s, schedule[0].0, schedule[0].1), schedule[1..]);
    }
  }

  lemma {:induction false} RunConcat(s: State, first: Schedule, second: Schedule)
    ensures Run(s, first + second) == Run(Run(s, first), second)
    decreases |first|
  {
    if first == [] {
      assert first + second == second;
    } else {
      assert (first + second)[1..] == first[1..] + second;
      RunConcat(Step(s, first[0].0, first[0].1), first[1..], second);
    }
  }

  /** At most one process at a time is between taking and releasing the lease of a path. */
  lemma {:induction false} LeaseIsExclusive(s: State, schedule: Schedule, p: nat, q: nat)
    requires Init(s)
    requires var t := Run(s, schedule);
      && p in t.procs && q in t.procs && p != q
      && Holding(t.procs[p].pc) && Holding(t.procs[q].pc)
    ensures var t := Run(s, schedule); t.procs[p].request.path != t.procs[q].request.path
  {
    RunKeepsInv(s, schedule);
  }

  /** No process is ever about to unlink the file of a committed row. */
  lemma {:induction false} UnlinkSparesCommitted(s: State, schedule: Schedule, p: nat)
    requires Init(s)
    requires var t := Run(s, schedule); p in t.procs && t.procs[p].pc.ReadyToUnlink?
    ensures var t := Run(s, schedule); !CommittedAt(t, t.procs[p].request.path)
  {
    RunKeepsInv(s, schedule);
  }

  lemma {:induction false} StepKeepsStored(s: State, p: nat, c: Choice, path: Path)
    requires Inv(s) && Stored(s, path)
    ensures Stored(Step(s, p, c), path)
    ensures Step(s, p, c).rows[path.hash] == s.rows[path.hash]
  {
    StepIsTransition(s, p, c);
  }

  lemma {:induction false} RunKeepsStored(s: State, schedule: Schedule, path: Path)
    requires Inv(s) && Stored(s, path)
    ensures Stored(Run(s, schedule), path)
    ensures Run(s, schedule).rows[path.hash] == s.rows[path.hash]
    decreases |schedule|
  {
    if schedule != [] {
      var t := Step(s, schedule[0].0, schedule[0].1);
      StepKeepsStored(s, schedule[0].0, schedule[0].1, path);
      StepKeepsInv(s, schedule[0].0, schedule[0].1);
      RunKeepsStored(t, schedule[1..], path);
    }
  }

  /** A file present together with its row is never removed, whatever any process does afterwards. */
  lemma {:induction false} StoredForever(s: State, before: Schedule, after: Schedule, path: Path)
    requires Init(s) && Stored(Run(s, before), path)
    ensures Stored(Run(s, before + after), path)
    ensures Run(s, before + after).rows[path.hash] == Run(s, before).rows[path.hash]
  {
    RunKeepsInv(s, before);
    RunKeepsStored(Run(s, before), after, path);
    RunConcat(s, before, after);
  }

  /** The file was read back, or the answer is durable already. */
  ghost predicate ReadBack(pc: Pc) {
    || pc == FileRead || pc == Finishing(Persisted) || pc == Finishing(PersistedNonAuthoritative)
    || pc == Done(Persisted) || pc == Done(PersistedNonAuthoritative)
  }

  /**
   * A process that has read its evidence back - and so any process that answers "persisted" -
   * has its own row and the matching file in place at that moment and at every later one.
   */
  lemma {:induction false} PersistedMeansStored(s: State, before: Schedule, after: Schedule, p: nat)
    requires Init(s)
    requires p in Run(s, before).procs && ReadBack(Run(s, before).procs[p].pc)
    ensures var r := Run(s, before).procs[p].request; var t := Run(s, before + after);
      && r.path.hash in t.rows && t.rows[r.path.hash] == Row(r.path, r.bytes, p)
      && r.path in t.files && t.files[r.path] == r.bytes
  {
    RunKeepsInv(s, before);
    StoredForever(s, before, after, Run(s, before).procs[p].request.path);
  }

  /** A duplicate is never a second success: two processes never both report the same hash as stored. */
  lemma {:induction false} OneWinnerPerHash(s: State, schedule: Schedule, p: nat, q: nat)
    requires Init(s)
    requires var t := Run(s, schedule);
      && p in t.procs && q in t.procs
      && KnowsCommit(t.procs[p].pc) && KnowsCommit(t.procs[q].pc)
      && t.procs[p].request.path.hash == t.procs[q].request.path.hash
    ensures p == q
  {
    RunKeepsInv(s, schedule);
  }

}
