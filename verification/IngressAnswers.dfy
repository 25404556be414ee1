module IngressAnswers {
  /**
   * What an invocation answers, under every interleaving, said of its own operations alone: how each
   * of them ended, and what was on disk when it did.
   */

  import opened Ingress
  import opened IngressLimits

  /** How an operation ended, and the state it was done on. */
  type Operation = (Choice, State)

  /** The operations of process p in a schedule. */
  function Own(s: State, schedule: Schedule, p: nat): seq<Operation>
    decreases |schedule|
  {
    if schedule == [] then []
    else
      (if schedule[0].0 == p then [(schedule[0].1, s)] else [])
      + Own(Step(s, schedule[0].0, schedule[0].1), schedule[1..], p)
  }

  // ---------------------------------------------------------------------------
  // How far an invocation gets
  // ---------------------------------------------------------------------------

  ghost predicate Checked(r: Request, ops: seq<Operation>) {
    |ops| > 0 && ops[0].0.Proceed? && r.path.hash !in ops[0].1.rows
  }

  /** Published after n operations: two over a file with the same bytes, three over a new file that was verified. */
  ghost predicate PublishedAt(r: Request, ops: seq<Operation>, n: nat) {
    && Checked(r, ops) && n <= |ops|
    && (|| (n == 2 && ops[1].0.Proceed? && r.path in ops[1].1.files && ops[1].1.files[r.path] == r.bytes)
        || (n == 3 && ops[1].0.Proceed? && r.path !in ops[1].1.files
            && ops[2].0.Proceed? && r.path in ops[2].1.files && ops[2].1.files[r.path] == r.bytes))
  }

  ghost predicate LeasedAt(r: Request, ops: seq<Operation>, n: nat) {
    PublishedAt(r, ops, n) && n < |ops| && ops[n].0.Proceed? && r.path !in ops[n].1.leases
  }

  /** The transaction succeeded. */
  ghost predicate CommitsAt(r: Request, ops: seq<Operation>, n: nat) {
    LeasedAt(r, ops, n) && n + 1 < |ops| && ops[n + 1].0.Proceed? && r.path.hash !in ops[n + 1].1.rows
  }

  ghost predicate RowReadAt(r: Request, ops: seq<Operation>, n: nat) {
    CommitsAt(r, ops, n) && n + 2 < |ops| && ops[n + 2].0.Proceed? && r.path.hash in ops[n + 2].1.rows
  }

  /** The row and its matching file were read back. */
  ghost predicate ReadBackAt(r: Request, ops: seq<Operation>, n: nat) {
    && RowReadAt(r, ops, n) && n + 3 < |ops| && ops[n + 3].0.Proceed?
    && r.path.hash in ops[n + 3].1.rows
    && var row := ops[n + 3].1.rows[r.path.hash];
    && row.path in ops[n + 3].1.files && ops[n + 3].1.files[row.path] == row.bytes
  }

  ghost predicate RenderedAt(r: Request, ops: seq<Operation>, n: nat) {
    ReadBackAt(r, ops, n) && n + 4 < |ops| && ops[n + 4].0.Proceed?
  }

  ghost predicate Succeeds(r: Request, ops: seq<Operation>) {
    exists n: nat :: RenderedAt(r, ops, n)
  }

  ghost predicate RenderingRefused(r: Request, ops: seq<Operation>) {
    exists n: nat :: ReadBackAt(r, ops, n) && n + 4 < |ops| && ops[n + 4].0.Refuse?
  }

  /** The transaction was refused, with this reason. */
  ghost predicate IngestRefused(r: Request, ops: seq<Operation>, refusal: IngestionRefusal) {
    exists n: nat :: LeasedAt(r, ops, n) && n + 1 < |ops| && ops[n + 1].0 == Refuse(refusal)
  }

  /** The hash was found committed, before the publication or by the transaction. */
  ghost predicate HashTaken(r: Request, ops: seq<Operation>) {
    || (|ops| > 0 && ops[0].0.Proceed? && r.path.hash in ops[0].1.rows)
    || exists n: nat :: LeasedAt(r, ops, n) && n + 1 < |ops| && ops[n + 1].0.Proceed? && r.path.hash in ops[n + 1].1.rows
  }

  /** The answer, case by case; PersistenceFailed is what is left. */
  ghost predicate Answers(r: Request, ops: seq<Operation>, answer: Answer) {
    && (answer == Persisted <==> Succeeds(r, ops) && r.path.kind != "debt_observation")
    && (answer == PersistedNonAuthoritative <==> Succeeds(r, ops) && r.path.kind == "debt_observation")
    && (answer == Refusal(PresentationFailed) <==> RenderingRefused(r, ops))
    && (answer == Refusal(StoreUnavailable) <==> IngestRefused(r, ops, IngestStoreUnavailable))
    && (answer == Refusal(InvalidInput) <==> (|ops| > 0 && ops[0].0.Refuse?) || IngestRefused(r, ops, IngestInvalidInput))
    && (answer == Refusal(DuplicateArtifact) <==> HashTaken(r, ops) || IngestRefused(r, ops, IngestDuplicate))
  }

  // ---------------------------------------------------------------------------
  // The program counter along the own operations
  // ---------------------------------------------------------------------------

  ghost predicate At(s: State, p: nat, r: Request, pc: Pc) {
    p in s.procs && s.procs[p] == Process(r, pc)
  }

  /** The operation takes the process from one program counter to the next. */
  ghost predicate Moves(x: Operation, p: nat, r: Request, pc: Pc, next: Pc) {
    At(x.1, p, r, pc) && At(Step(x.1, p, x.0), p, r, next)
  }

  /** Before operation i the process is at pcs[i], and after it at pcs[i + 1]. */
  ghost predicate Traced(ops: seq<Operation>, pcs: seq<Pc>, p: nat, r: Request) {
    |pcs| == |ops| + 1 && forall i :: 0 <= i < |ops| ==> Moves(ops[i], p, r, pcs[i], pcs[i + 1])
  }

  lemma {:induction false} OthersStay(s: State, q: nat, c: Choice, p: nat)
    requires p in s.procs && p != q
    ensures p in Step(s, q, c).procs && Step(s, q, c).procs[p] == s.procs[p]
  {
    StepIsTransition(s, q, c);
  }

  lemma {:induction false} RequestStays(s: State, p: nat, c: Choice)
    requires p in s.procs
    ensures p in Step(s, p, c).procs && Step(s, p, c).procs[p].request == s.procs[p].request
  {
    StepIsTransition(s, p, c);
  }

  lemma {:induction false} OwnTraced(s: State, schedule: Schedule, p: nat) returns (pcs: seq<Pc>)
    requires p in s.procs
    ensures Traced(Own(s, schedule, p), pcs, p, s.procs[p].request)
    ensures pcs[0] == s.procs[p].pc
    ensures At(Run(s, schedule), p, s.procs[p].request, pcs[|pcs| - 1])
    decreases |schedule|
  {
    pcs := [s.procs[p].pc];
    if schedule != [] {
      var (q, c) := schedule[0];
      var next := Step(s, q, c);
      if q == p {
        RequestStays(s, p, c);
        var rest := OwnTraced(next, schedule[1..], p);
        pcs := pcs + rest;
        TracedFromFront(s, c, Own(next, schedule[1..], p), rest, p, s.procs[p].request);
      } else {
        OthersStay(s, q, c, p);
        pcs := OwnTraced(next, schedule[1..], p);
        assert [] + Own(next, schedule[1..], p) == Own(next, schedule[1..], p);
      }
    }
  }

  lemma {:induction false} TracedFromFront(s: State, c: Choice, ops: seq<Operation>, pcs: seq<Pc>, p: nat, r: Request)
    requires Traced(ops, pcs, p, r) && p in s.procs && s.procs[p].request == r && At(Step(s, p, c), p, r, pcs[0])
    ensures Traced([(c, s)] + ops, [s.procs[p].pc] + pcs, p, r)
  {
  }

  // ---------------------------------------------------------------------------
  // What each program counter means
  // ---------------------------------------------------------------------------

  /** What it means to be at a program counter after i operations. */
  ghost predicate Means(r: Request, ops: seq<Operation>, i: nat, pc: Pc) {
    match pc
    case Start => i == 0
    case Unseen => i == 1 && Checked(r, ops)
    case Linked => i == 2 && Checked(r, ops) && |ops| > 1 && ops[1].0.Proceed? && r.path !in ops[1].1.files
    case Published(created) => PublishedAt(r, ops, i) && (created <==> i == 3)
    case Leased(created) => i > 0 && LeasedAt(r, ops, i - 1) && (created <==> i - 1 == 3)
    case Committed => i > 1 && CommitsAt(r, ops, i - 2)
    case RowRead => i > 2 && RowReadAt(r, ops, i - 3)
    case FileRead => i > 3 && ReadBackAt(r, ops, i - 4)
    case Refused(_, code) => Answers(r, ops, Refusal(code))
    case AbsenceSeen(code) => Answers(r, ops, Refusal(code))
    case BytesSeen(code) => Answers(r, ops, Refusal(code))
    case ReadyToUnlink(code) => Answers(r, ops, Refusal(code))
    case Finishing(answer) => Answers(r, ops, answer)
    case Done(answer) => Answers(r, ops, answer)
    case Crashed => true
  }

  /** The publication is over after one number of operations only. */
  lemma {:induction false} OnePublication(r: Request, ops: seq<Operation>, n: nat, m: nat)
    requires PublishedAt(r, ops, n) && PublishedAt(r, ops, m)
    ensures n == m
  {
  }

  /** Without a publication nothing later happens. */
  lemma {:induction false} NothingLater(r: Request, ops: seq<Operation>)
    requires forall n: nat :: !LeasedAt(r, ops, n)
    ensures !Succeeds(r, ops) && !RenderingRefused(r, ops)
    ensures forall refusal :: !IngestRefused(r, ops, refusal)
    ensures HashTaken(r, ops) <==> |ops| > 0 && ops[0].0.Proceed? && r.path.hash in ops[0].1.rows
  {
  }

  lemma {:induction false} PublishMeans(r: Request, ops: seq<Operation>, i: nat, p: nat, pc: Pc, next: Pc)
    requires i < |ops| && Moves(ops[i], p, r, pc, next)
    requires Means(r, ops, i, pc) && Publishing(pc)
    ensures Means(r, ops, i + 1, next)
  {
    if Ended(next) && !next.Crashed? {
      forall n: nat ensures !LeasedAt(r, ops, n) {
        if pc.Published? && LeasedAt(r, ops, n) {
          OnePublication(r, ops, n, i);
        }
      }
      NothingLater(r, ops);
    }
  }

  /** Once the lease is held after n operations, everything later is said of this n. */
  lemma {:induction false} AllOf(r: Request, ops: seq<Operation>, n: nat)
    requires LeasedAt(r, ops, n)
    ensures Succeeds(r, ops) <==> RenderedAt(r, ops, n)
    ensures RenderingRefused(r, ops) <==> ReadBackAt(r, ops, n) && n + 4 < |ops| && ops[n + 4].0.Refuse?
    ensures forall refusal :: IngestRefused(r, ops, refusal) <==> n + 1 < |ops| && ops[n + 1].0 == Refuse(refusal)
    ensures HashTaken(r, ops) <==> n + 1 < |ops| && ops[n + 1].0.Proceed? && r.path.hash in ops[n + 1].1.rows
    ensures !ops[0].0.Refuse?
  {
    forall m: nat | LeasedAt(r, ops, m) ensures m == n {
      OnePublication(r, ops, n, m);
    }
  }

  lemma {:induction false} LeasedMeans(r: Request, ops: seq<Operation>, i: nat, p: nat, pc: Pc, next: Pc)
    requires i < |ops| && Moves(ops[i], p, r, pc, next) && Means(r, ops, i, pc) && pc.Leased?
    ensures Means(r, ops, i + 1, next)
  {
    AllOf(r, ops, i - 1);
  }

  lemma {:induction false} CommittedMeans(r: Request, ops: seq<Operation>, i: nat, p: nat, pc: Pc, next: Pc)
    requires i < |ops| && Moves(ops[i], p, r, pc, next) && Means(r, ops, i, pc) && pc.Committed?
    ensures Means(r, ops, i + 1, next)
  {
    AllOf(r, ops, i - 2);
  }

  lemma {:induction false} RowReadMeans(r: Request, ops: seq<Operation>, i: nat, p: nat, pc: Pc, next: Pc)
    requires i < |ops| && Moves(ops[i], p, r, pc, next) && Means(r, ops, i, pc) && pc.RowRead?
    ensures Means(r, ops, i + 1, next)
  {
    AllOf(r, ops, i - 3);
  }

  lemma {:induction false} FileReadMeans(r: Request, ops: seq<Operation>, i: nat, p: nat, pc: Pc, next: Pc)
    requires i < |ops| && Moves(ops[i], p, r, pc, next) && Means(r, ops, i, pc) && pc.FileRead?
    ensures Means(r, ops, i + 1, next)
  {
    AllOf(r, ops, i - 4);
  }

  lemma {:induction false} CleanMeans(r: Request, ops: seq<Operation>, i: nat, p: nat, pc: Pc, next: Pc)
    requires i < |ops| && Moves(ops[i], p, r, pc, next)
    requires Means(r, ops, i, pc) && (Cleaning(pc) || Ended(pc))
    ensures Means(r, ops, i + 1, next)
  {
  }

  lemma {:induction false} TraceMeans(r: Request, ops: seq<Operation>, pcs: seq<Pc>, p: nat, i: nat)
    requires Traced(ops, pcs, p, r) && pcs[0] == Start && i < |pcs|
    ensures Means(r, ops, i, pcs[i])
    decreases i
  {
    if i > 0 {
      TraceMeans(r, ops, pcs, p, i - 1);
      if Publishing(pcs[i - 1]) {
        PublishMeans(r, ops, i - 1, p, pcs[i - 1], pcs[i]);
      } else if Cleaning(pcs[i - 1]) || Ended(pcs[i - 1]) {
        CleanMeans(r, ops, i - 1, p, pcs[i - 1], pcs[i]);
      } else {
        match pcs[i - 1]
        case Leased(_) => LeasedMeans(r, ops, i - 1, p, pcs[i - 1], pcs[i]);
        case Committed => CommittedMeans(r, ops, i - 1, p, pcs[i - 1], pcs[i]);
        case RowRead => RowReadMeans(r, ops, i - 1, p, pcs[i - 1], pcs[i]);
        case FileRead => FileReadMeans(r, ops, i - 1, p, pcs[i - 1], pcs[i]);
      }
    }
  }

  /**
   * Whatever the others do, an invocation that ends with an answer ends with the one its own operations
   * call for: durable exactly when the transaction succeeded, row and file were read back, and the
   * rendering succeeded.
   */
  lemma {:induction false} AnswerIff(s: State, schedule: Schedule, p: nat)
    requires p in s.procs && s.procs[p].pc == Start
    ensures var t := Run(s, schedule);
      p in t.procs && (t.procs[p].pc.Done? ==> Answers(s.procs[p].request, Own(s, schedule, p), t.procs[p].pc.answer))
  {
    var pcs := OwnTraced(s, schedule, p);
    TraceMeans(s.procs[p].request, Own(s, schedule, p), pcs, p, |pcs| - 1);
  }

  // ---------------------------------------------------------------------------
  // Every invocation that does not crash ends
  // ---------------------------------------------------------------------------

  /** How many operations are left at most. */
  function Left(pc: Pc): nat {
    match pc
    case Start => 10
    case Unseen => 9
    case Linked => 8
    case Published(_) => 7
    case Leased(_) => 6
    case Refused(_, _) => 5
    case Committed => 4
    case AbsenceSeen(_) => 4
    case RowRead => 3
    case BytesSeen(_) => 3
    case FileRead => 2
    case ReadyToUnlink(_) => 2
    case Finishing(_) => 1
    case _ => 0
  }

  lemma {:induction false} StepLowersLeft(s: State, p: nat, c: Choice)
    requires p in s.procs && !c.Crash? && !s.procs[p].pc.Crashed?
    ensures p in Step(s, p, c).procs && !Step(s, p, c).procs[p].pc.Crashed?
    ensures Left(Step(s, p, c).procs[p].pc) < Left(s.procs[p].pc) || s.procs[p].pc.Done?
    ensures s.procs[p].pc.Done? ==> Step(s, p, c) == s
  {
  }

  lemma {:induction false} TraceEnds(ops: seq<Operation>, pcs: seq<Pc>, p: nat, r: Request, i: nat)
    requires Traced(ops, pcs, p, r) && pcs[0] == Start && i < |pcs|
    requires forall j :: 0 <= j < i ==> !ops[j].0.Crash?
    ensures !pcs[i].Crashed? && (pcs[i].Done? || Left(pcs[i]) + i <= 10)
    decreases i
  {
    if i > 0 {
      TraceEnds(ops, pcs, p, r, i - 1);
      assert Moves(ops[i - 1], p, r, pcs[i - 1], pcs[i]);
      StepLowersLeft(ops[i - 1].1, p, ops[i - 1].0);
    }
  }

  lemma {:induction false} EndedStays(ops: seq<Operation>, pcs: seq<Pc>, p: nat, r: Request, i: nat, j: nat)
    requires Traced(ops, pcs, p, r) && i <= j < |pcs| && Ended(pcs[i])
    ensures pcs[j] == pcs[i]
    decreases j
  {
    if i < j {
      EndedStays(ops, pcs, p, r, i, j - 1);
      assert Moves(ops[j - 1], p, r, pcs[j - 1], pcs[j]);
    }
  }

  /** After ten operations of its own, none of which is a crash, an invocation has its answer. */
  lemma {:induction false} TenOperationsEnd(s: State, schedule: Schedule, p: nat)
    requires p in s.procs && s.procs[p].pc == Start
    requires var ops := Own(s, schedule, p); |ops| >= 10 && forall i :: 0 <= i < 10 ==> !ops[i].0.Crash?
    ensures p in Run(s, schedule).procs && Run(s, schedule).procs[p].pc.Done?
  {
    var pcs := OwnTraced(s, schedule, p);
    var ops, r := Own(s, schedule, p), s.procs[p].request;
    TraceEnds(ops, pcs, p, r, 10);
    if !pcs[10].Done? {
      LeftIsZero(pcs[10]);
    }
    EndedStays(ops, pcs, p, r, 10, |pcs| - 1);
  }

  lemma {:induction false} LeftIsZero(pc: Pc)
    requires Left(pc) == 0
    ensures Ended(pc)
  {
  }

  // ---------------------------------------------------------------------------
  // Success
  // ---------------------------------------------------------------------------

  lemma {:induction false} PublicationMoves(x: Operation, p: nat, r: Request, pc: Pc, next: Pc)
    requires Moves(x, p, r, pc, next) && x.0.Proceed?
    ensures pc.Start? && r.path.hash !in x.1.rows ==> next == Unseen
    ensures pc.Unseen? && r.path !in x.1.files ==> next == Linked
    ensures pc.Unseen? && r.path in x.1.files && x.1.files[r.path] == r.bytes ==> next == Published(false)
    ensures pc.Linked? && r.path in x.1.files && x.1.files[r.path] == r.bytes ==> next == Published(true)
    ensures pc.Published? && r.path !in x.1.leases ==> next == Leased(pc.created)
  {
  }

  lemma {:induction false} CommitMoves(x: Operation, p: nat, r: Request, pc: Pc, next: Pc)
    requires Moves(x, p, r, pc, next) && x.0.Proceed?
    ensures pc.Leased? && r.path.hash !in x.1.rows ==> next == Committed
    ensures pc.Committed? && r.path.hash in x.1.rows ==> next == RowRead
    ensures (pc.RowRead? && r.path.hash in x.1.rows
             && FileMatches(x.1, x.1.rows[r.path.hash].path, x.1.rows[r.path.hash].bytes)) ==> next == FileRead
    ensures pc.FileRead? ==> next.Finishing?
  {
  }

  lemma {:induction false} LeasedTrace(r: Request, ops: seq<Operation>, pcs: seq<Pc>, p: nat, n: nat)
    requires Traced(ops, pcs, p, r) && pcs[0] == Start && LeasedAt(r, ops, n)
    ensures pcs[n + 1].Leased?
  {
    PublicationMoves(ops[0], p, r, pcs[0], pcs[1]);
    PublicationMoves(ops[1], p, r, pcs[1], pcs[2]);
    PublicationMoves(ops[n - 1], p, r, pcs[n - 1], pcs[n]);
    PublicationMoves(ops[n], p, r, pcs[n], pcs[n + 1]);
  }

  /** The process is on its way to a durable answer. */
  lemma {:induction false} RenderedTrace(r: Request, ops: seq<Operation>, pcs: seq<Pc>, p: nat, n: nat)
    requires Traced(ops, pcs, p, r) && pcs[0] == Start && RenderedAt(r, ops, n)
    ensures pcs[n + 5].Finishing?
  {
    LeasedTrace(r, ops, pcs, p, n);
    CommitMoves(ops[n + 1], p, r, pcs[n + 1], pcs[n + 2]);
    CommitMoves(ops[n + 2], p, r, pcs[n + 2], pcs[n + 3]);
    CommitMoves(ops[n + 3], p, r, pcs[n + 3], pcs[n + 4]);
    CommitMoves(ops[n + 4], p, r, pcs[n + 4], pcs[n + 5]);
  }

  /** A durable answer is there exactly when every stage succeeded and the invocation lived to release its lease. */
  lemma {:induction false} DurableIff(s: State, schedule: Schedule, p: nat)
    requires p in s.procs && s.procs[p].pc == Start
    ensures var t, r, ops := Run(s, schedule), s.procs[p].request, Own(s, schedule, p);
      && p in t.procs
      && ((t.procs[p].pc == Done(Persisted) || t.procs[p].pc == Done(PersistedNonAuthoritative))
          <==> exists n: nat :: RenderedAt(r, ops, n) && n + 5 < |ops| && !ops[n + 5].0.Crash?)
  {
    var r, ops := s.procs[p].request, Own(s, schedule, p);
    var pcs := OwnTraced(s, schedule, p);
    var last := |pcs| - 1;
    TraceMeans(r, ops, pcs, p, last);
    if n: nat :| RenderedAt(r, ops, n) {
      RenderedTrace(r, ops, pcs, p, n);
      if n + 5 < |ops| {
        ReleaseMoves(ops[n + 5], p, r, pcs[n + 5], pcs[n + 6]);
        EndedStays(ops, pcs, p, r, n + 6, last);
      }
    }
  }

  lemma {:induction false} ReleaseMoves(x: Operation, p: nat, r: Request, pc: Pc, next: Pc)
    requires Moves(x, p, r, pc, next) && pc.Finishing?
    ensures next == if x.0.Crash? then Crashed else Done(pc.answer)
  {
  }

  // ---------------------------------------------------------------------------
  // Left alone
  // ---------------------------------------------------------------------------

  /** Left alone with nothing in its way, an invocation answers durably, with its row and file stored and its lease released. */
  lemma {:induction false} AloneItSucceeds(s: State, p: nat)
    requires CanGo(s, p)
    ensures var r, t := s.procs[p].request, Run(s, Repeat(p, 9));
      && p in t.procs
      && t.procs[p].pc == Done(if r.path.kind == "debt_observation" then PersistedNonAuthoritative else Persisted)
      && t.files == s.files[r.path := r.bytes]
      && t.rows == s.rows[r.path.hash := Row(r.path, r.bytes, p)]
      && t.leases == s.leases
  {
    var r := s.procs[p].request;
    DriveToLease(s, p);
    DriveToAnswer(LeasedState(s, p), p);
    RunConcat(s, Repeat(p, 4), Repeat(p, 5));
    assert Repeat(p, 4) + Repeat(p, 5) == Repeat(p, 9);
    assert s.leases + {r.path} - {r.path} == s.leases;
  }

  lemma {:induction false} DriveReads(s: State, p: nat)
    requires p in s.procs && s.procs[p].pc.Committed?
    requires var r := s.procs[p].request;
      r.path.hash in s.rows && FileMatches(s, s.rows[r.path.hash].path, s.rows[r.path.hash].bytes)
    ensures Run(s, Repeat(p, 2)) == Goto(s, p, FileRead)
  {
    RunTwo(s, (p, Proceed), (p, Proceed));
    assert Repeat(p, 2) == [(p, Proceed), (p, Proceed)];
    assert Step(s, p, Proceed) == Goto(s, p, RowRead);
    assert Step(Goto(s, p, RowRead), p, Proceed) == Goto(s, p, FileRead);
  }

  lemma {:induction false} DriveRender(s: State, p: nat)
    requires p in s.procs && s.procs[p].pc.FileRead?
    ensures var r := s.procs[p].request;
      Run(s, Repeat(p, 2)) == Goto(s.(leases := s.leases - {r.path}), p,
        Done(if r.path.kind == "debt_observation" then PersistedNonAuthoritative else Persisted))
  {
    var r := s.procs[p].request;
    var answer := if r.path.kind == "debt_observation" then PersistedNonAuthoritative else Persisted;
    RunTwo(s, (p, Proceed), (p, Proceed));
    assert Repeat(p, 2) == [(p, Proceed), (p, Proceed)];
    assert Step(s, p, Proceed) == Goto(s, p, Finishing(answer));
  }

  lemma {:induction false} DriveToAnswer(s: State, p: nat)
    requires p in s.procs && s.procs[p].pc.Leased?
    requires var r := s.procs[p].request; FileMatches(s, r.path, r.bytes) && r.path.hash !in s.rows
    ensures var r, t := s.procs[p].request, Run(s, Repeat(p, 5));
      && p in t.procs
      && t.procs[p].pc == Done(if r.path.kind == "debt_observation" then PersistedNonAuthoritative else Persisted)
      && t.files == s.files && t.rows == s.rows[r.path.hash := Row(r.path, r.bytes, p)] && t.leases == s.leases - {r.path}
  {
    var s1 := Goto(Insert(s, p, s.procs[p].request), p, Committed);
    RunOne(s, (p, Proceed));
    DriveReads(s1, p);
    DriveRender(Goto(s1, p, FileRead), p);
    RunConcat(s, Repeat(p, 1), Repeat(p, 2));
    RunConcat(s, Repeat(p, 3), Repeat(p, 2));
    assert Repeat(p, 1) == [(p, Proceed)];
    assert Repeat(p, 1) + Repeat(p, 2) == Repeat(p, 3) && Repeat(p, 3) + Repeat(p, 2) == Repeat(p, 5);
  }
}
