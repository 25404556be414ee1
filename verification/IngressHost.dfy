module IngressHost {
  /**
   * The sequential text of one ingress process, over mutable files, leases and rows.
   *
   * Every operation is proved to be one step of the protocol, and the whole invocation a run
   * of its own process, so the theorems about interleavings apply to this text.
   */

  import opened Ingress
  import opened IngressLimits

  /** How the environment ends each operation of one invocation. */
  datatype Environment = Environment(
    check: Choice, publish: Choice, verify: Choice, lease: Choice, ingest: Choice,
    readRow: Choice, readFile: Choice, render: Choice,
    absence: Choice, bytes: Choice, recheck: Choice, unlink: Choice, release: Choice)
  {
    predicate NoCrash() {
      && !check.Crash? && !publish.Crash? && !verify.Crash? && !lease.Crash? && !ingest.Crash?
      && !readRow.Crash? && !readFile.Crash? && !render.Crash?
      && !absence.Crash? && !bytes.Crash? && !recheck.Crash? && !unlink.Crash? && !release.Crash?
    }
  }

  /** Only process p moves, and it does not crash. */
  ghost predicate Solo(p: nat, schedule: Schedule) {
    forall i :: 0 <= i < |schedule| ==> schedule[i].0 == p && !schedule[i].1.Crash?
  }

  /** From this store the invocation gets its lease: nothing is committed, the file is its own or the same, and the lease is free. */
  ghost predicate Leases(s: State, r: Request, env: Environment) {
    && env.check.Proceed? && r.path.hash !in s.rows
    && env.publish.Proceed? && (if r.path in s.files then s.files[r.path] == r.bytes else env.verify.Proceed?)
    && env.lease.Proceed? && r.path !in s.leases
  }

  /** Its transaction succeeds, and row and file are read back. */
  ghost predicate Reads(s: State, r: Request, env: Environment) {
    Leases(s, r, env) && env.ingest.Proceed? && env.readRow.Proceed? && env.readFile.Proceed?
  }

  /** The answer, case by case; PersistenceFailed is what is left. */
  ghost predicate Answers(s: State, r: Request, env: Environment, answer: Answer) {
    && (answer == Persisted <==> Reads(s, r, env) && env.render.Proceed? && r.path.kind != "debt_observation")
    && (answer == PersistedNonAuthoritative <==> Reads(s, r, env) && env.render.Proceed? && r.path.kind == "debt_observation")
    && (answer == Refusal(PresentationFailed) <==> Reads(s, r, env) && env.render.Refuse?)
    && (answer == Refusal(StoreUnavailable) <==> Leases(s, r, env) && env.ingest == Refuse(IngestStoreUnavailable))
    && (answer == Refusal(InvalidInput) <==>
          env.check.Refuse? || (Leases(s, r, env) && env.ingest == Refuse(IngestInvalidInput)))
    && (answer == Refusal(DuplicateArtifact) <==>
          (env.check.Proceed? && r.path.hash in s.rows) || (Leases(s, r, env) && env.ingest == Refuse(IngestDuplicate)))
  }

  /** What the invocation of process p leaves behind when nobody else moves. */
  ghost predicate LeavesBehind(s: State, r: Request, env: Environment, p: nat, t: State) {
    && t.rows == (if Leases(s, r, env) && !env.ingest.Refuse?
                  then s.rows[r.path.hash := Row(r.path, r.bytes, p)] else s.rows)
    && t.leases == (if Leases(s, r, env) && !env.release.Proceed? then s.leases + {r.path} else s.leases)
    && t.files == (if Creates(s, r, env) && !(Leases(s, r, env) && env.ingest.Refuse? && CleansUp(env))
                   then s.files[r.path := r.bytes] else s.files)
  }

  /** The publication creates the file. */
  ghost predicate Creates(s: State, r: Request, env: Environment) {
    env.check.Proceed? && r.path.hash !in s.rows && env.publish.Proceed? && r.path !in s.files
  }

  predicate CleansUp(env: Environment) {
    env.absence.Proceed? && env.bytes.Proceed? && env.recheck.Proceed? && env.unlink.Proceed?
  }

  /** The answer once the lease is held over the matching file of an uncommitted hash. */
  ghost predicate UnderLeaseAnswers(s: State, r: Request, env: Environment, answer: Answer) {
    r.path.hash !in s.rows && r.path in s.files && s.files[r.path] == r.bytes ==>
      var read := env.ingest.Proceed? && env.readRow.Proceed? && env.readFile.Proceed?;
      && (answer == Persisted <==> read && env.render.Proceed? && r.path.kind != "debt_observation")
      && (answer == PersistedNonAuthoritative <==> read && env.render.Proceed? && r.path.kind == "debt_observation")
      && (answer == Refusal(PresentationFailed) <==> read && env.render.Refuse?)
      && (answer == Refusal(StoreUnavailable) <==> env.ingest == Refuse(IngestStoreUnavailable))
      && (answer == Refusal(InvalidInput) <==> env.ingest == Refuse(IngestInvalidInput))
      && (answer == Refusal(DuplicateArtifact) <==> env.ingest == Refuse(IngestDuplicate))
  }

  datatype Publication = NotPublished | PublishedFile(created: bool)

  class Host {
    var files: map<Path, Bytes>
    var leases: set<Path>
    var rows: map<string, Row>
    ghost var procs: map<nat, Process>

    constructor (ghost initial: map<nat, Process>)
      ensures View() == State(map[], {}, map[], initial)
    {
      files, leases, rows, procs := map[], {}, map[], initial;
    }

    ghost function View(): State
      reads this
    {
      State(files, leases, rows, procs)
    }

    ghost predicate At(p: nat, request: Request, pc: Pc)
      reads this
    {
      p in procs && procs[p] == Process(request, pc)
    }

    /** The no-replace publication with its re-verification; NotPublished stands for a throw. */
    method Publish(p: nat, request: Request, publish: Choice, verify: Choice)
      returns (publication: Publication, ghost steps: Schedule)
      requires At(p, request, Unseen) && !publish.Crash? && !verify.Crash?
      modifies this
      ensures View() == Run(old(View()), steps) && Solo(p, steps)
      ensures publication.PublishedFile? ==> At(p, request, Published(publication.created))
      ensures publication.NotPublished? ==> At(p, request, Done(Refusal(PersistenceFailed)))
      ensures rows == old(rows) && leases == old(leases)
      ensures files == if publish.Proceed? && request.path !in old(files)
                       then old(files)[request.path := request.bytes] else old(files)
      ensures publication ==
        if publish.Proceed? && request.path in old(files) && old(files)[request.path] == request.bytes then PublishedFile(false)
        else if publish.Proceed? && request.path !in old(files) && verify.Proceed? then PublishedFile(true)
        else NotPublished
    {
      ghost var before := View();
      steps := [(p, publish)];
      RunOne(before, (p, publish));
      if publish.Proceed? && request.path !in files {
        files := files[request.path := request.bytes];
        procs := procs[p := Process(request, Linked)];
        assert View() == Step(before, p, publish);
        RunTwo(before, (p, publish), (p, verify));
        steps := [(p, publish), (p, verify)];
        publication := if verify.Proceed? then PublishedFile(true) else NotPublished;
      } else {
        publication := if publish.Proceed? && files[request.path] == request.bytes then PublishedFile(false) else NotPublished;
      }
      procs := procs[p := Process(request,
        if publication.PublishedFile? then Published(publication.created) else Done(Refusal(PersistenceFailed)))];
    }

    /** Creates the lease file exclusively. */
    method AcquireLease(p: nat, request: Request, created: bool, c: Choice) returns (acquired: bool)
      requires At(p, request, Published(created)) && !c.Crash?
      modifies this
      ensures View() == Step(old(View()), p, c)
      ensures acquired <==> c.Proceed? && request.path !in old(leases)
      ensures files == old(files) && rows == old(rows)
      ensures leases == if acquired then old(leases) + {request.path} else old(leases)
      ensures At(p, request, if acquired then Leased(created) else Done(Refusal(PersistenceFailed)))
    {
      acquired := c.Proceed? && request.path !in leases;
      if acquired {
        leases := leases + {request.path};
      }
      procs := procs[p := Process(request, if acquired then Leased(created) else Done(Refusal(PersistenceFailed)))];
    }

    /** The transaction; the caller learns only whether the call returned success. */
    method Ingest(p: nat, request: Request, created: bool, c: Choice) returns (committed: bool, code: RefusalCode)
      requires At(p, request, Leased(created)) && !c.Crash?
      modifies this
      ensures View() == Step(old(View()), p, c)
      ensures At(p, request, if committed then Committed else Refused(created, code))
      ensures files == old(files) && leases == old(leases)
      ensures rows == if c.Refuse? || request.path.hash in old(rows) then old(rows)
                      else old(rows)[request.path.hash := Row(request.path, request.bytes, p)]
      ensures committed <==> c.Proceed? && request.path.hash !in old(rows)
      ensures !committed ==>
        && (code == DuplicateArtifact <==> c == Refuse(IngestDuplicate) || c.Proceed?)
        && (code == StoreUnavailable <==> c == Refuse(IngestStoreUnavailable))
        && (code == InvalidInput <==> c == Refuse(IngestInvalidInput))
        && code != PresentationFailed
    {
      committed, code := false, PersistenceFailed;
      if c.Refuse? {
        code := MapRefusal(c.refusal);
      } else if request.path.hash in rows {
        code := if c.Throw? then PersistenceFailed else DuplicateArtifact;
      } else {
        rows := rows[request.path.hash := Row(request.path, request.bytes, p)];
        committed := c.Proceed?;
      }
      procs := procs[p := Process(request, if committed then Committed else Refused(created, code))];
    }

    /** The rendering, once the file has been seen, and the answer it leads to. */
    method Render(p: nat, request: Request, c: Choice) returns (answer: Answer)
      requires At(p, request, FileRead) && !c.Crash?
      modifies this`procs
      ensures View() == Step(old(View()), p, c)
      ensures At(p, request, Finishing(answer))
      ensures answer == Persisted <==> c.Proceed? && request.path.kind != "debt_observation"
      ensures answer == PersistedNonAuthoritative <==> c.Proceed? && request.path.kind == "debt_observation"
      ensures answer == Refusal(PresentationFailed) <==> c.Refuse?
      ensures answer == Refusal(PersistenceFailed) <==> c.Throw?
    {
      answer := match c
        case Refuse(_) => Refusal(PresentationFailed)
        case Throw => Refusal(PersistenceFailed)
        case _ => if request.path.kind == "debt_observation" then PersistedNonAuthoritative else Persisted;
      procs := procs[p := Process(request, Finishing(answer))];
    }

    /** The committed row and its matching file are there to be read back. */
    ghost predicate CanReadBack(request: Request, env: Environment)
      reads this
    {
      && env.readRow.Proceed? && request.path.hash in rows && env.readFile.Proceed?
      && var row := rows[request.path.hash]; row.path in files && files[row.path] == row.bytes
    }

    /** Read the row and its file back, then render; nothing is written. */
    method ReadBack(p: nat, request: Request, env: Environment) returns (answer: Answer, ghost steps: Schedule)
      requires At(p, request, Committed) && env.NoCrash()
      modifies this`procs
      ensures View() == Run(old(View()), steps) && Solo(p, steps)
      ensures At(p, request, Finishing(answer))
      ensures answer == Persisted <==> CanReadBack(request, env) && env.render.Proceed? && request.path.kind != "debt_observation"
      ensures answer == PersistedNonAuthoritative <==>
        CanReadBack(request, env) && env.render.Proceed? && request.path.kind == "debt_observation"
      ensures answer == Refusal(PresentationFailed) <==> CanReadBack(request, env) && env.render.Refuse?
      ensures answer.Refusal? ==> answer.code == PresentationFailed || answer.code == PersistenceFailed
    {
      ghost var before := View();
      answer := Refusal(PersistenceFailed);
      steps := [(p, env.readRow)];
      RunOne(before, (p, env.readRow));
      if env.readRow.Proceed? && request.path.hash in rows {
        var row := rows[request.path.hash];
        procs := procs[p := Process(request, RowRead)];
        ghost var rowRead := View();
        RunTwo(before, (p, env.readRow), (p, env.readFile));
        steps := [(p, env.readRow), (p, env.readFile)];
        if env.readFile.Proceed? && row.path in files && files[row.path] == row.bytes {
          procs := procs[p := Process(request, FileRead)];
          assert View() == Step(rowRead, p, env.readFile);
          RunSnoc(before, steps, (p, env.render));
          steps := steps + [(p, env.render)];
          answer := Render(p, request, env.render);
          return;
        }
      }
      procs := procs[p := Process(request, Finishing(answer))];
    }

    /** The first absence check and the byte check of an invocation-owned file. */
    method SeeOwnOrphan(p: nat, request: Request, created: bool, code: RefusalCode, absence: Choice, bytes: Choice)
      returns (orphan: bool, ghost steps: Schedule)
      requires At(p, request, Refused(created, code)) && !absence.Crash? && !bytes.Crash?
      modifies this`procs
      ensures View() == Run(old(View()), steps) && Solo(p, steps)
      ensures orphan <==> (created && absence.Proceed? && request.path.hash !in rows
                           && bytes.Proceed? && request.path in files && files[request.path] == request.bytes)
      ensures At(p, request, if orphan then BytesSeen(code) else Finishing(Refusal(code)))
    {
      ghost var before := View();
      steps := [(p, absence)];
      RunOne(before, (p, absence));
      orphan := false;
      if created && absence.Proceed? && request.path.hash !in rows {
        procs := procs[p := Process(request, AbsenceSeen(code))];
        assert View() == Step(before, p, absence);
        RunTwo(before, (p, absence), (p, bytes));
        steps := [(p, absence), (p, bytes)];
        orphan := bytes.Proceed? && request.path in files && files[request.path] == request.bytes;
      }
      procs := procs[p := Process(request, if orphan then BytesSeen(code) else Finishing(Refusal(code)))];
    }

    /** The second absence check and the unlink. */
    method UnlinkOrphan(p: nat, request: Request, code: RefusalCode, recheck: Choice, unlink: Choice)
      returns (ghost steps: Schedule)
      requires At(p, request, BytesSeen(code)) && !recheck.Crash? && !unlink.Crash?
      modifies this`files, this`procs
      ensures View() == Run(old(View()), steps) && Solo(p, steps)
      ensures At(p, request, Finishing(Refusal(code)))
      ensures files == if recheck.Proceed? && request.path.hash !in rows && unlink.Proceed?
                       then old(files) - {request.path} else old(files)
    {
      ghost var before := View();
      steps := [(p, recheck)];
      RunOne(before, (p, recheck));
      if recheck.Proceed? && request.path.hash !in rows {
        procs := procs[p := Process(request, ReadyToUnlink(code))];
        assert View() == Step(before, p, recheck);
        RunTwo(before, (p, recheck), (p, unlink));
        steps := [(p, recheck), (p, unlink)];
        if unlink.Proceed? {
          files := files - {request.path};
        }
      }
      procs := procs[p := Process(request, Finishing(Refusal(code)))];
    }

    /** Removes an uncommitted, invocation-owned publication after two absence checks and a byte check. */
    method Reconcile(p: nat, request: Request, created: bool, code: RefusalCode, env: Environment)
      returns (ghost steps: Schedule)
      requires At(p, request, Refused(created, code)) && env.NoCrash()
      modifies this`files, this`procs
      ensures View() == Run(old(View()), steps) && Solo(p, steps)
      ensures At(p, request, Finishing(Refusal(code)))
      ensures files ==
        if created && CleansUp(env) && request.path.hash !in rows
          && request.path in old(files) && old(files)[request.path] == request.bytes
        then old(files) - {request.path} else old(files)
    {
      var orphan;
      orphan, steps := SeeOwnOrphan(p, request, created, code, env.absence, env.bytes);
      if orphan {
        ghost var rest := UnlinkOrphan(p, request, code, env.recheck, env.unlink);
        RunConcat(old(View()), steps, rest);
        steps := steps + rest;
      }
    }

    /** Removes the lease file; failing to do so leaves a stale lease that refuses later ingress. */
    method Release(p: nat, request: Request, answer: Answer, c: Choice)
      requires At(p, request, Finishing(answer)) && !c.Crash?
      modifies this`leases, this`procs
      ensures View() == Step(old(View()), p, c)
      ensures At(p, request, Done(answer))
      ensures leases == if c.Proceed? then old(leases) - {request.path} else old(leases)
    {
      if c.Proceed? {
        leases := leases - {request.path};
      }
      procs := procs[p := Process(request, Done(answer))];
    }

    /** The publication and the lease over it. */
    method TakeLease(p: nat, request: Request, env: Environment) returns (leased: bool, created: bool, ghost steps: Schedule)
      requires At(p, request, Unseen) && env.NoCrash()
      modifies this
      ensures View() == Run(old(View()), steps) && Solo(p, steps)
      ensures At(p, request, if leased then Leased(created) else Done(Refusal(PersistenceFailed)))
      ensures leased <==> (&& env.publish.Proceed?
                           && (if request.path in old(files) then old(files)[request.path] == request.bytes else env.verify.Proceed?)
                           && env.lease.Proceed? && request.path !in old(leases))
      ensures leased ==> (created <==> request.path !in old(files)) && request.path in files && files[request.path] == request.bytes
      ensures rows == old(rows) && leases == if leased then old(leases) + {request.path} else old(leases)
      ensures files == if env.publish.Proceed? && request.path !in old(files)
                       then old(files)[request.path := request.bytes] else old(files)
    {
      ghost var before := View();
      var publication;
      publication, steps := Publish(p, request, env.publish, env.verify);
      leased, created := false, false;
      if publication.PublishedFile? {
        RunSnoc(before, steps, (p, env.lease));
        steps := steps + [(p, env.lease)];
        created := publication.created;
        leased := AcquireLease(p, request, created, env.lease);
      }
    }

    /**
     * One whole invocation is a run of its own process, and ends with the answer it returns: durable
     * exactly when the transaction succeeded, row and file were read back, and the rendering succeeded.
     */
    method PersistAndRender(p: nat, request: Request, env: Environment)
      returns (answer: Answer, ghost schedule: Schedule)
      requires At(p, request, Start) && env.NoCrash()
      modifies this
      ensures View() == Run(old(View()), schedule) && Solo(p, schedule)
      ensures At(p, request, Done(answer))
      ensures Answers(old(View()), request, env, answer)
      ensures LeavesBehind(old(View()), request, env, p, View())
    {
      ghost var before := View();
      schedule := [(p, env.check)];
      RunOne(before, (p, env.check));
      if !env.check.Proceed? || request.path.hash in rows {
        answer := Refusal(if env.check.Refuse? then InvalidInput
                          else if env.check.Throw? then PersistenceFailed else DuplicateArtifact);
        procs := procs[p := Process(request, Done(answer))];
        return;
      }
      procs := procs[p := Process(request, Unseen)];
      var leased, created;
      ghost var steps;
      leased, created, steps := TakeLease(p, request, env);
      RunConcat(before, schedule, steps);
      schedule := schedule + steps;
      if !leased {
        answer := Refusal(PersistenceFailed);
        return;
      }
      ghost var inner;
      answer, inner := UnderLease(p, request, created, env);
      RunConcat(before, schedule, inner);
      schedule := schedule + inner;
    }

    /** Everything that happens while the lease is held, including the cleanup and the release. */
    method UnderLease(p: nat, request: Request, created: bool, env: Environment)
      returns (answer: Answer, ghost schedule: Schedule)
      requires At(p, request, Leased(created)) && env.NoCrash()
      modifies this
      ensures View() == Run(old(View()), schedule) && Solo(p, schedule)
      ensures At(p, request, Done(answer))
      ensures UnderLeaseAnswers(old(View()), request, env, answer)
      ensures rows == if env.ingest.Refuse? || request.path.hash in old(rows) then old(rows)
                      else old(rows)[request.path.hash := Row(request.path, request.bytes, p)]
      ensures leases == if env.release.Proceed? then old(leases) - {request.path} else old(leases)
      ensures files == if created && env.ingest.Refuse? && CleansUp(env) && request.path.hash !in old(rows)
                         && request.path in old(files) && old(files)[request.path] == request.bytes
                       then old(files) - {request.path} else old(files)
    {
      ghost var before := View();
      schedule := [(p, env.ingest)];
      RunOne(before, (p, env.ingest));
      var committed, code := Ingest(p, request, created, env.ingest);
      ghost var steps;
      if committed {
        answer, steps := ReadBack(p, request, env);
      } else {
        steps := Reconcile(p, request, created, code, env);
        answer := Refusal(code);
      }
      RunConcat(before, schedule, steps);
      schedule := schedule + steps;
      RunSnoc(before, schedule, (p, env.release));
      schedule := schedule + [(p, env.release)];
      Release(p, request, answer, env.release);
    }
  }
}
