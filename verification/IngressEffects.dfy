module IngressEffects {
  /**
   * What each operation of an invocation does to files and rows under every interleaving: when it
   * links its file, when it commits its row, and when its cleanup unlinks the file again.
   */

  import opened Ingress
  import opened IngressAnswers

  /** The lease was taken by operation n, and the transaction after it did not report a commit. */
  ghost predicate RefusedAt(r: Request, ops: seq<Operation>, n: nat) {
    LeasedAt(r, ops, n) && n + 1 < |ops| && !ops[n + 1].0.Crash? && !CommitsAt(r, ops, n)
  }

  /** After a new file was published and refused: the hash was absent, the bytes were still its own, and the hash still absent. */
  ghost predicate AbsentAt(r: Request, ops: seq<Operation>) {
    RefusedAt(r, ops, 3) && 5 < |ops| && ops[5].0.Proceed? && r.path.hash !in ops[5].1.rows
  }

  ghost predicate SameAt(r: Request, ops: seq<Operation>) {
    AbsentAt(r, ops) && 6 < |ops| && ops[6].0.Proceed? && r.path in ops[6].1.files && ops[6].1.files[r.path] == r.bytes
  }

  ghost predicate ClearedAt(r: Request, ops: seq<Operation>) {
    SameAt(r, ops) && 7 < |ops| && ops[7].0.Proceed? && r.path.hash !in ops[7].1.rows
  }

  /** How the cleanup got where it is after i operations. */
  ghost predicate Backs(r: Request, ops: seq<Operation>, i: nat, pc: Pc) {
    match pc
    case Refused(created, _) => i > 1 && RefusedAt(r, ops, i - 2) && (created <==> i - 2 == 3)
    case AbsenceSeen(_) => i == 6 && AbsentAt(r, ops)
    case BytesSeen(_) => i == 7 && SameAt(r, ops)
    case ReadyToUnlink(_) => i == 8 && ClearedAt(r, ops)
    case _ => true
  }

  lemma {:induction false} LeasedBacks(r: Request, ops: seq<Operation>, i: nat, p: nat, pc: Pc, next: Pc)
    requires i < |ops| && Moves(ops[i], p, r, pc, next) && Means(r, ops, i, pc) && pc.Leased?
    ensures Backs(r, ops, i + 1, next)
  {
  }

  lemma {:induction false} CleaningBacks(r: Request, ops: seq<Operation>, i: nat, p: nat, pc: Pc, next: Pc)
    requires i < |ops| && Moves(ops[i], p, r, pc, next) && Backs(r, ops, i, pc) && Cleaning(pc)
    ensures Backs(r, ops, i + 1, next)
  {
  }

  lemma {:induction false} OthersBack(r: Request, ops: seq<Operation>, i: nat, p: nat, pc: Pc, next: Pc)
    requires i < |ops| && Moves(ops[i], p, r, pc, next) && !Cleaning(pc) && !pc.Leased?
    ensures Backs(r, ops, i + 1, next)
  {
    assert next.Finishing? || !Cleaning(next);
  }

  lemma {:induction false} TraceBacks(r: Request, ops: seq<Operation>, pcs: seq<Pc>, p: nat, i: nat)
    requires Traced(ops, pcs, p, r) && pcs[0] == Start && i < |pcs|
    ensures Backs(r, ops, i, pcs[i])
    decreases i
  {
    if i > 0 {
      TraceBacks(r, ops, pcs, p, i - 1);
      TraceMeans(r, ops, pcs, p, i - 1);
      if pcs[i - 1].Leased? {
        LeasedBacks(r, ops, i - 1, p, pcs[i - 1], pcs[i]);
      } else if Cleaning(pcs[i - 1]) {
        CleaningBacks(r, ops, i - 1, p, pcs[i - 1], pcs[i]);
      } else {
        OthersBack(r, ops, i - 1, p, pcs[i - 1], pcs[i]);
      }
    }
  }

  lemma {:induction false} RefusalMoves(x: Operation, p: nat, r: Request, pc: Pc, next: Pc)
    requires Moves(x, p, r, pc, next) && pc.Leased? && !x.0.Crash? && !(x.0.Proceed? && r.path.hash !in x.1.rows)
    ensures next.Refused? && next.created == pc.created
  {
  }

  lemma {:induction false} CleanMoves(x: Operation, p: nat, r: Request, pc: Pc, next: Pc)
    requires Moves(x, p, r, pc, next) && x.0.Proceed?
    ensures pc.Refused? && pc.created && r.path.hash !in x.1.rows ==> next.AbsenceSeen?
    ensures pc.AbsenceSeen? && r.path in x.1.files && x.1.files[r.path] == r.bytes ==> next.BytesSeen?
    ensures pc.BytesSeen? && r.path.hash !in x.1.rows ==> next.ReadyToUnlink?
  {
  }

  lemma {:induction false} ClearedTrace(r: Request, ops: seq<Operation>, pcs: seq<Pc>, p: nat)
    requires Traced(ops, pcs, p, r) && pcs[0] == Start && ClearedAt(r, ops)
    ensures pcs[8].ReadyToUnlink?
  {
    LeasedTrace(r, ops, pcs, p, 3);
    TraceMeans(r, ops, pcs, p, 4);
    RefusalMoves(ops[4], p, r, pcs[4], pcs[5]);
    CleanMoves(ops[5], p, r, pcs[5], pcs[6]);
    CleanMoves(ops[6], p, r, pcs[6], pcs[7]);
    CleanMoves(ops[7], p, r, pcs[7], pcs[8]);
  }

  lemma {:induction false} PublishingIsOver(x: Operation, p: nat, r: Request, pc: Pc, next: Pc)
    requires Moves(x, p, r, pc, next) && !Publishing(pc)
    ensures !Publishing(next)
  {
  }

  lemma {:induction false} LeasedIsOver(r: Request, ops: seq<Operation>, pcs: seq<Pc>, p: nat, j: nat, i: nat)
    requires Traced(ops, pcs, p, r) && j <= i < |pcs| && !Publishing(pcs[j])
    ensures !Publishing(pcs[i])
    decreases i - j
  {
    if j < i {
      LeasedIsOver(r, ops, pcs, p, j, i - 1);
      PublishingIsOver(ops[i - 1], p, r, pcs[i - 1], pcs[i]);
    }
  }

  ghost predicate WasLeased(r: Request, ops: seq<Operation>, i: nat) {
    exists n: nat :: n < i && LeasedAt(r, ops, n)
  }

  lemma {:induction false} HoldingMoves(x: Operation, p: nat, r: Request, pc: Pc, next: Pc)
    requires Moves(x, p, r, pc, next) && !Publishing(next) && !Ended(next)
    ensures (next.Leased? && pc.Published?) || (!Publishing(pc) && !Ended(pc))
  {
  }

  /** A process inside its lease took it by one of its operations. */
  lemma {:induction false} HoldingWasLeased(r: Request, ops: seq<Operation>, pcs: seq<Pc>, p: nat, i: nat)
    requires Traced(ops, pcs, p, r) && pcs[0] == Start && i < |pcs| && !Publishing(pcs[i]) && !Ended(pcs[i])
    ensures WasLeased(r, ops, i)
    decreases i
  {
    if i > 0 {
      HoldingMoves(ops[i - 1], p, r, pcs[i - 1], pcs[i]);
      if pcs[i].Leased? {
        TraceMeans(r, ops, pcs, p, i);
      } else {
        HoldingWasLeased(r, ops, pcs, p, i - 1);
      }
    }
  }

  /** Operation i ends an invocation that holds its lease, and does not fail to release it. */
  ghost predicate Releases(r: Request, ops: seq<Operation>, p: nat, i: nat) {
    && i < |ops| && WasLeased(r, ops, i) && ops[i].0.Proceed? && p in ops[i].1.procs && !ops[i].1.procs[p].pc.Done?
    && var t := Step(ops[i].1, p, ops[i].0); p in t.procs && t.procs[p].pc.Done?
  }

  lemma {:induction false} LeaseEffectOf(x: Operation, p: nat, r: Request, pc: Pc, next: Pc)
    requires Moves(x, p, r, pc, next)
    ensures Step(x.1, p, x.0).leases ==
      if pc.Published? && x.0.Proceed? && r.path !in x.1.leases then x.1.leases + {r.path}
      else if pc.Finishing? && x.0.Proceed? then x.1.leases - {r.path} else x.1.leases
    ensures next.Done? && !pc.Done? && !Publishing(pc) ==> pc.Finishing?
    ensures pc.Finishing? && x.0.Proceed? ==> next.Done?
  {
  }

  /** Each operation of an invocation takes and releases its lease exactly so, whatever the others do in between. */
  lemma {:induction false} LeasesAre(s: State, schedule: Schedule, p: nat, i: nat)
    requires p in s.procs && s.procs[p].pc == Start && i < |Own(s, schedule, p)|
    ensures var r, ops := s.procs[p].request, Own(s, schedule, p);
      Step(ops[i].1, p, ops[i].0).leases ==
        if LeasedAt(r, ops, i) then ops[i].1.leases + {r.path}
        else if Releases(r, ops, p, i) then ops[i].1.leases - {r.path} else ops[i].1.leases
  {
    var r, ops := s.procs[p].request, Own(s, schedule, p);
    var pcs := OwnTraced(s, schedule, p);
    TraceMeans(r, ops, pcs, p, i);
    LeaseEffectOf(ops[i], p, r, pcs[i], pcs[i + 1]);
    if LeasedAt(r, ops, i) {
      LeasedTrace(r, ops, pcs, p, i);
      LeasingFrom(ops[i], p, r, pcs[i], pcs[i + 1]);
    } else if Releases(r, ops, p, i) {
      var n: nat :| n < i && LeasedAt(r, ops, n);
      LeasedTrace(r, ops, pcs, p, n);
      LeasedIsOver(r, ops, pcs, p, n + 1, i);
    } else if pcs[i].Finishing? {
      HoldingWasLeased(r, ops, pcs, p, i);
    }
  }

  lemma {:induction false} LeasingFrom(x: Operation, p: nat, r: Request, pc: Pc, next: Pc)
    requires Moves(x, p, r, pc, next) && next.Leased?
    ensures pc.Published?
  {
  }

  lemma {:induction false} EffectOf(x: Operation, p: nat, r: Request, pc: Pc, next: Pc)
    requires Moves(x, p, r, pc, next)
    ensures var s, t, goes := x.1, Step(x.1, p, x.0), x.0.Proceed?;
      && t.files == (if pc.Unseen? && goes && r.path !in s.files then s.files[r.path := r.bytes]
                     else if pc.ReadyToUnlink? && goes then s.files - {r.path} else s.files)
      && t.rows == (if pc.Leased? && (goes || x.0.Throw?) && r.path.hash !in s.rows
                    then s.rows[r.path.hash := Row(r.path, r.bytes, p)] else s.rows)
  {
  }

  /** Operation i links the new file. */
  ghost predicate Links(r: Request, ops: seq<Operation>, i: nat) {
    i == 1 && Checked(r, ops) && i < |ops| && ops[i].0.Proceed? && r.path !in ops[i].1.files
  }

  /** Operation i unlinks the file again. */
  ghost predicate Unlinks(r: Request, ops: seq<Operation>, i: nat) {
    i == 8 && ClearedAt(r, ops) && i < |ops| && ops[i].0.Proceed?
  }

  /** Operation i inserts the row; its report may be lost. */
  ghost predicate Inserts(r: Request, ops: seq<Operation>, i: nat) {
    0 < i < |ops| && LeasedAt(r, ops, i - 1) && (ops[i].0.Proceed? || ops[i].0.Throw?) && r.path.hash !in ops[i].1.rows
  }

  /** Each operation of an invocation changes files and rows exactly so, whatever the others do in between. */
  lemma {:induction false} EffectsAre(s: State, schedule: Schedule, p: nat, i: nat)
    requires p in s.procs && s.procs[p].pc == Start && i < |Own(s, schedule, p)|
    ensures var r, ops := s.procs[p].request, Own(s, schedule, p);
      var before, after := ops[i].1, Step(ops[i].1, p, ops[i].0);
      && after.files == (if Links(r, ops, i) then before.files[r.path := r.bytes]
                         else if Unlinks(r, ops, i) then before.files - {r.path} else before.files)
      && after.rows == (if Inserts(r, ops, i) then before.rows[r.path.hash := Row(r.path, r.bytes, p)] else before.rows)
  {
    var r, ops := s.procs[p].request, Own(s, schedule, p);
    var pcs := OwnTraced(s, schedule, p);
    TraceMeans(r, ops, pcs, p, i);
    TraceBacks(r, ops, pcs, p, i);
    EffectOf(ops[i], p, r, pcs[i], pcs[i + 1]);
    if Links(r, ops, i) {
      PublicationMoves(ops[0], p, r, pcs[0], pcs[1]);
    }
    if Unlinks(r, ops, i) {
      ClearedTrace(r, ops, pcs, p);
    }
    if Inserts(r, ops, i) {
      LeasedTrace(r, ops, pcs, p, i - 1);
    }
  }
}
