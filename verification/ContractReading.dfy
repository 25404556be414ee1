/** Reading the fields of a decoded execution contract, before anything is judged. */
module ContractReading {
  import opened Wrappers
  import Text
  import PhaseDocuments

  datatype Role = EntryGate | Planning | Implementation | EvidenceOnly | Integration | FinalCheckpoint

  datatype Profile = NoProfile | Focused | Full

  datatype ReviewPolicy = Never | WhenProductionCodeChanges

  datatype Condition = Always | ProductionCodeChanges

  datatype Kind = Agent | CodeReview | Verification | GitCommit | GitPush | Work | DevelopmentValidation | FinalValidation

  /** JSON as decoded: a field the source tests with typeof or against a set is an Option. */
  datatype RawTask =
    | TaskNotObject
    | RawTask(id: Option<string>, kind: Option<Kind>, required: Option<bool>, profile: Option<Profile>,
              condition: Option<Condition>)

  /** order is None unless it is an integer. */
  datatype RawPhase =
    | PhaseNotObject
    | RawPhase(id: Option<string>, order: Option<int>, document: Option<string>, role: Option<Role>,
               tasks: Option<seq<RawTask>>, developmentValidation: Option<Profile>, codeReview: Option<ReviewPolicy>,
               finalValidation: Option<Profile>, repairAndRerun: bool, commitAndPush: bool)

  datatype TaskEntry = TaskEntry(id: string, kind: Kind, required: bool, profile: Option<Profile>, condition: Option<Condition>)

  datatype Fields = Fields(role: Option<Role>, developmentValidation: Option<Profile>, codeReview: Option<ReviewPolicy>,
                           finalValidation: Option<Profile>, repairAndRerun: bool, commitAndPush: bool)

  /** A task is None when it is no object, or its id, kind or required flag is missing. */
  datatype Entry = Entry(id: Option<string>, order: Option<int>, document: Option<string>, number: Option<nat>,
                         fields: Fields, tasks: Option<seq<Option<TaskEntry>>>)

  function ReadNonEmptyString(value: Option<string>): Option<string> {
    if value.Some? && Text.Trim(value.value) != "" then Some(Text.Trim(value.value)) else None
  }

  /** A task id is tested trimmed and kept as written. */
  function ReadTask(raw: RawTask): Option<TaskEntry> {
    if raw.RawTask? && ReadNonEmptyString(raw.id).Some? && raw.required.Some? && raw.kind.Some?
    then Some(TaskEntry(raw.id.value, raw.kind.value, raw.required.value, raw.profile, raw.condition))
    else None
  }

  function ReadTasks(raws: seq<RawTask>): (r: seq<Option<TaskEntry>>)
    ensures |r| == |raws|
    ensures forall t :: 0 <= t < |raws| ==> r[t] == ReadTask(raws[t])
  {
    seq(|raws|, t requires 0 <= t < |raws| => ReadTask(raws[t]))
  }

  function ReadNumber(document: Option<string>): Option<nat> {
    if document.Some? then PhaseDocuments.ReadPhaseDocumentNumber(document.value) else None
  }

  function ReadPhase(raw: RawPhase): Option<Entry> {
    match raw
    case PhaseNotObject => None
    case RawPhase(id, order, document, role, tasks, development, review, final, repair, commit) =>
      var path := ReadNonEmptyString(document);
      Some(Entry(ReadNonEmptyString(id), order, path,
                 ReadNumber(path),
                 Fields(role, development, review, final, repair, commit),
                 if tasks.Some? then Some(ReadTasks(tasks.value)) else None))
  }

  function ReadPhases(raws: seq<RawPhase>): (r: seq<Option<Entry>>)
    ensures |r| == |raws|
    ensures forall k :: 0 <= k < |raws| ==> r[k] == ReadPhase(raws[k])
  {
    seq(|raws|, k requires 0 <= k < |raws| => ReadPhase(raws[k]))
  }
}
