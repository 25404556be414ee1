/** What an execution contract must say, phase by phase and task by task, in the words of the document. */
module ContractRules {
  import opened Wrappers
  import opened Text
  import opened Spelling
  import opened ContractReading
  import opened PhaseContract
  import opened PhaseNumbers

  // ---------------------------------------------------------------------------
  // Tasks
  // ---------------------------------------------------------------------------

  /** Every version takes agent work, reviews and verifications; the second also Git, the first also its own kinds. */
  predicate Takes(version: Version, kind: Kind) {
    || kind == Agent || kind == CodeReview || kind == Verification
    || ((kind == GitCommit || kind == GitPush) && version != V3)
    || ((kind == Work || kind == DevelopmentValidation || kind == FinalValidation) && version == V1)
  }

  ghost predicate SoundTask(version: Version, raw: RawTask) {
    && raw.RawTask? && raw.id.Some? && NotBlank(raw.id.value) && raw.required.Some? && raw.kind.Some?
    && Takes(version, raw.kind.value)
    && (raw.kind.value == Verification ==> raw.profile.Some?)
    && (raw.kind.value == CodeReview ==> raw.condition.Some?)
  }

  /** The task an entry becomes; its id stays as it is written. */
  predicate BecomesTask(raw: RawTask, task: TaskEntry) {
    && raw.RawTask? && raw.id == Some(task.id) && raw.kind == Some(task.kind) && raw.required == Some(task.required)
    && raw.profile == task.profile && raw.condition == task.condition
  }

  lemma {:induction false} TaskReadIff(raw: RawTask, task: TaskEntry)
    ensures ReadTask(raw) == Some(task) <==> BecomesTask(raw, task) && NotBlank(task.id)
  {
    if raw.RawTask? && raw.id.Some? {
      NotBlankIff(raw.id.value);
      NotBlankIff(task.id);
      TrimTrimmed(raw.id.value);
    }
  }

  lemma {:induction false} SoundTaskIff(version: Version, raw: RawTask)
    ensures TaskFine(version, ReadTask(raw)) <==> SoundTask(version, raw)
    ensures ReadTask(raw).Some? ==> raw.RawTask? && raw.id == Some(ReadTask(raw).value.id) && raw.kind == Some(ReadTask(raw).value.kind)
  {
    if raw.RawTask? && raw.id.Some? {
      NotBlankIff(raw.id.value);
    }
  }

  /** Every task sound, and no id written twice. */
  ghost predicate SoundTasks(version: Version, raws: seq<RawTask>) {
    && (forall t :: 0 <= t < |raws| ==> SoundTask(version, raws[t]))
    && (forall s, t :: 0 <= s < t < |raws| ==> raws[s].RawTask? && raws[t].RawTask? ==> raws[s].id != raws[t].id)
  }

  lemma {:induction false} SoundTasksIff(version: Version, raws: seq<RawTask>)
    ensures TasksFine(version, ReadTasks(raws)) <==> SoundTasks(version, raws)
  {
    var tasks := ReadTasks(raws);
    forall t | 0 <= t < |raws|
      ensures TaskFine(version, tasks[t]) <==> SoundTask(version, raws[t])
      ensures tasks[t].Some? ==> raws[t].RawTask? && raws[t].id == Some(tasks[t].value.id)
    {
      SoundTaskIff(version, raws[t]);
    }
    if forall t :: 0 <= t < |raws| ==> SoundTask(version, raws[t]) {
      forall s, t | 0 <= s < t < |raws| ensures tasks[s].value.id != tasks[t].value.id <==> raws[s].id != raws[t].id {
        assert TaskFine(version, tasks[s]) && TaskFine(version, tasks[t]);
      }
    }
  }

  ghost predicate IsFinal(raw: RawTask) {
    raw.RawTask? && raw.kind == Some(FinalValidation)
  }

  /** No two tasks are final validations. */
  ghost predicate OneFinal(raws: seq<RawTask>) {
    forall s, t :: 0 <= s < t < |raws| ==> !(IsFinal(raws[s]) && IsFinal(raws[t]))
  }

  lemma {:induction false} FinalCount(version: Version, raws: seq<RawTask>)
    requires SoundTasks(version, raws)
    ensures FinalEntries(ReadTasks(raws)) == 0 <==> forall t :: 0 <= t < |raws| ==> !IsFinal(raws[t])
    ensures FinalEntries(ReadTasks(raws)) <= 1 <==> OneFinal(raws)
    decreases |raws|
  {
    if raws != [] {
      var rest := raws[1..];
      assert forall t :: 0 <= t < |rest| ==> rest[t] == raws[t + 1];
      FinalCount(version, rest);
      assert ReadTasks(raws)[1..] == ReadTasks(rest);
      SoundTaskIff(version, raws[0]);
      assert forall t :: 0 < t < |raws| ==> raws[t] == rest[t - 1];
    }
  }

  // ---------------------------------------------------------------------------
  // Phases
  // ---------------------------------------------------------------------------

  /** A text that is not blank, without the white space around it. */
  ghost predicate Says(value: Option<string>, text: string) {
    value.Some? && text != "" && IsTrimmed(value.value, text)
  }

  lemma {:induction false} SaysIff(value: Option<string>, text: string)
    ensures ReadNonEmptyString(value) == Some(text) <==> Says(value, text)
  {
    if value.Some? {
      TrimIff(value.value, text);
    }
  }

  lemma {:induction false} SaysSomething(value: Option<string>)
    ensures ReadNonEmptyString(value).Some? <==> exists text :: Says(value, text)
  {
    if ReadNonEmptyString(value).Some? {
      SaysIff(value, ReadNonEmptyString(value).value);
    }
    if text :| Says(value, text) {
      SaysIff(value, text);
    }
  }

  ghost predicate Named(raw: RawPhase, id: string) {
    raw.RawPhase? && Says(raw.id, id)
  }

  /** The document is there, and is numbered as the phase is ordered. */
  ghost predicate Documented(raw: RawPhase, document: string, n: nat) {
    raw.RawPhase? && Says(raw.document, document) && raw.order == Some(n) && DocumentNumbered(document, n)
  }

  ghost predicate SoundPhase(version: Version, raw: RawPhase) {
    && raw.RawPhase?
    && (exists id :: Named(raw, id))
    && (exists document, n :: Documented(raw, document, n))
    && raw.role.Some? && raw.developmentValidation.Some? && raw.codeReview.Some? && raw.finalValidation.Some?
    && raw.repairAndRerun && (version == V3 ==> raw.commitAndPush)
    && raw.tasks.Some? && raw.tasks.value != [] && SoundTasks(version, raw.tasks.value)
  }

  lemma {:induction false} DocumentedIff(raw: RawPhase)
    requires raw.RawPhase?
    ensures (exists document, n :: Documented(raw, document, n)) <==>
      var path := ReadNonEmptyString(raw.document);
      path.Some? && ReadNumber(path).Some? && raw.order == Some(ReadNumber(path).value)
  {
    var path := ReadNonEmptyString(raw.document);
    if path.Some? && ReadNumber(path).Some? && raw.order == Some(ReadNumber(path).value) {
      SaysIff(raw.document, path.value);
      DocumentNumberIff(path.value, ReadNumber(path).value);
      assert Documented(raw, path.value, ReadNumber(path).value);
    }
    if document, n :| Documented(raw, document, n) {
      SaysIff(raw.document, document);
      DocumentNumberIff(document, n);
    }
  }

  lemma {:induction false} NamedIff(raw: RawPhase)
    requires raw.RawPhase?
    ensures (exists id :: Named(raw, id)) <==> ReadNonEmptyString(raw.id).Some?
  {
    SaysSomething(raw.id);
    if text :| Says(raw.id, text) {
      assert Named(raw, text);
    }
  }

  lemma {:induction false} IdentityIff(raw: RawPhase)
    requires raw.RawPhase?
    ensures IdentityFine(ReadPhase(raw).value) <==> (exists id :: Named(raw, id)) && exists document, n :: Documented(raw, document, n)
  {
    NamedIff(raw);
    DocumentedIff(raw);
  }

  lemma {:induction false} FieldsIff(version: Version, raw: RawPhase)
    requires raw.RawPhase?
    ensures FieldsFine(version, ReadPhase(raw).value.fields) <==>
      && raw.role.Some? && raw.developmentValidation.Some? && raw.codeReview.Some? && raw.finalValidation.Some?
      && raw.repairAndRerun && (version == V3 ==> raw.commitAndPush)
  {
  }

  lemma {:induction false} SoundPhaseIff(version: Version, raw: RawPhase)
    ensures PhaseFine(version, ReadPhase(raw)) <==> SoundPhase(version, raw)
  {
    if raw.RawPhase? {
      IdentityIff(raw);
      FieldsIff(version, raw);
      if raw.tasks.Some? {
        SoundTasksIff(version, raw.tasks.value);
      }
      PhasePartsIff(version, raw, ReadPhase(raw).value);
    }
  }

  lemma {:induction false} PhasePartsIff(version: Version, raw: RawPhase, entry: Entry)
    requires raw.RawPhase? && ReadPhase(raw) == Some(entry)
    requires IdentityFine(entry) <==> (exists id :: Named(raw, id)) && exists document, n :: Documented(raw, document, n)
    requires raw.tasks.Some? ==> (TasksFine(version, ReadTasks(raw.tasks.value)) <==> SoundTasks(version, raw.tasks.value))
    ensures PhaseFine(version, Some(entry)) <==> SoundPhase(version, raw)
  {
    FieldsIff(version, raw);
    assert raw.tasks.Some? <==> entry.tasks.Some?;
    assert raw.tasks.Some? ==> entry.tasks.value == ReadTasks(raw.tasks.value);
  }

  // ---------------------------------------------------------------------------
  // The contract
  // ---------------------------------------------------------------------------

  ghost predicate SameName(a: RawPhase, b: RawPhase) {
    exists id :: Named(a, id) && Named(b, id)
  }

  /** Every phase sound, no id and no order twice, every order below the number of phases, and one final validation a phase. */
  ghost predicate Accepted(version: Version, raws: seq<RawPhase>) {
    && (forall k :: 0 <= k < |raws| ==> SoundPhase(version, raws[k]))
    && (forall i, j :: 0 <= i < j < |raws| ==> !SameName(raws[i], raws[j]))
    && (forall i, j :: 0 <= i < j < |raws| ==> raws[i].RawPhase? && raws[j].RawPhase? ==> raws[i].order != raws[j].order)
    && (forall k :: 0 <= k < |raws| ==> raws[k].RawPhase? && raws[k].order.Some? ==> raws[k].order.value < |raws|)
    && (forall k :: 0 <= k < |raws| ==> raws[k].RawPhase? && raws[k].tasks.Some? ==> OneFinal(raws[k].tasks.value))
  }

  lemma {:induction false} SameNameIff(a: RawPhase, b: RawPhase)
    requires a.RawPhase? && b.RawPhase? && ReadNonEmptyString(a.id).Some? && ReadNonEmptyString(b.id).Some?
    ensures SameName(a, b) <==> ReadNonEmptyString(a.id) == ReadNonEmptyString(b.id)
  {
    SaysIff(a.id, ReadNonEmptyString(a.id).value);
    SaysIff(b.id, ReadNonEmptyString(b.id).value);
    if ReadNonEmptyString(a.id) == ReadNonEmptyString(b.id) {
      assert Named(a, ReadNonEmptyString(a.id).value) && Named(b, ReadNonEmptyString(a.id).value);
    }
    if id :| Named(a, id) && Named(b, id) {
      SaysIff(a.id, id);
      SaysIff(b.id, id);
    }
  }

  lemma {:induction false} SoundParts(version: Version, raw: RawPhase)
    requires SoundPhase(version, raw)
    ensures var e := ReadPhase(raw);
      && raw.RawPhase? && e.Some? && e.value.id.Some? && e.value.id == ReadNonEmptyString(raw.id)
      && e.value.order.Some? && e.value.order == raw.order && e.value.tasks.Some? && raw.tasks.Some?
      && e.value.tasks.value == ReadTasks(raw.tasks.value)
      && (FinalEntries(e.value.tasks.value) <= 1 <==> OneFinal(raw.tasks.value))
  {
    SoundPhaseIff(version, raw);
    FinalCount(version, raw.tasks.value);
  }

  /** A contract is accepted exactly under these rules. */
  lemma {:induction false} AcceptedIff(version: Version, raws: seq<RawPhase>)
    ensures Acceptable(version, ReadPhases(raws)) <==> Accepted(version, raws)
  {
    var entries := ReadPhases(raws);
    forall k | 0 <= k < |raws| ensures PhaseFine(version, entries[k]) <==> SoundPhase(version, raws[k]) {
      SoundPhaseIff(version, raws[k]);
    }
    if forall k :: 0 <= k < |raws| ==> SoundPhase(version, raws[k]) {
      AcceptedOfSound(version, raws);
    }
  }

  lemma {:induction false} AcceptedOfSound(version: Version, raws: seq<RawPhase>)
    requires forall k :: 0 <= k < |raws| ==> SoundPhase(version, raws[k]) && PhaseFine(version, ReadPhases(raws)[k])
    ensures Acceptable(version, ReadPhases(raws)) <==> Accepted(version, raws)
  {
    var entries := ReadPhases(raws);
    forall k | 0 <= k < |raws|
      ensures raws[k].RawPhase? && entries[k].Some? && entries[k].value.order == raws[k].order && raws[k].order.Some?
      ensures entries[k].value.id.Some? && entries[k].value.id == ReadNonEmptyString(raws[k].id)
      ensures raws[k].tasks.Some? && entries[k].value.tasks.Some?
      ensures FinalEntries(entries[k].value.tasks.value) <= 1 <==> OneFinal(raws[k].tasks.value)
    {
      SoundParts(version, raws[k]);
    }
    forall i, j | 0 <= i < j < |raws| ensures entries[i].value.id != entries[j].value.id <==> !SameName(raws[i], raws[j]) {
      SameNameIff(raws[i], raws[j]);
    }
  }

  /** The phase an entry becomes. */
  ghost predicate Becomes(raw: RawPhase, phase: Phase) {
    && raw.RawPhase? && Says(raw.id, phase.id) && raw.order == Some(phase.order)
    && Says(raw.document, phase.document) && DocumentNumbered(phase.document, phase.number)
    && raw.role == Some(phase.role) && raw.developmentValidation == Some(phase.developmentValidation)
    && raw.codeReview == Some(phase.codeReview) && raw.finalValidation == Some(phase.finalValidation)
    && raw.commitAndPush == phase.commitAndPush
    && raw.tasks.Some? && |phase.tasks| == |raw.tasks.value|
    && forall t :: 0 <= t < |phase.tasks| ==> BecomesTask(raw.tasks.value[t], phase.tasks[t])
  }

  /** Phase i of an accepted contract is what the entry of order i became. */
  lemma {:induction false} CarriedIsBecome(raw: RawPhase, phase: Phase)
    requires Carries(ReadPhase(raw), phase)
    ensures Becomes(raw, phase)
  {
    SaysIff(raw.id, phase.id);
    SaysIff(raw.document, phase.document);
    DocumentNumberIff(phase.document, phase.number);
    forall t | 0 <= t < |phase.tasks| ensures BecomesTask(raw.tasks.value[t], phase.tasks[t]) {
      TaskReadIff(raw.tasks.value[t], phase.tasks[t]);
    }
  }
}
