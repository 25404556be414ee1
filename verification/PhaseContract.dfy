/** The phase execution contract: what the parser accepts, and what an accepted contract is worth. */
module PhaseContract {
  import opened Wrappers
  import opened Sorting
  import TextOrder
  import opened ContractReading

  datatype Version = V1 | V2 | V3

  datatype Phase = Phase(id: string, order: int, document: string, number: nat, role: Role, tasks: seq<TaskEntry>,
                         developmentValidation: Profile, codeReview: ReviewPolicy, finalValidation: Profile,
                         commitAndPush: bool)

  datatype Code =
    | NotObject | BadId | BadOrder | BadDocument | NumberMismatch | BadRole | BadDevelopmentValidation
    | BadFinalValidation | BadCodeReview | BadFailurePolicy | BadGitCheckpoint | NoTasks
    | BadTask | DuplicateTask | TaskKindNotAllowed | ProfileMissing | ConditionMissing
    | NotContiguous | TooManyFinalValidations

  datatype Diagnostic = Diagnostic(phase: Option<nat>, task: Option<nat>, code: Code)

  // ---------------------------------------------------------------------------
  // Tasks of one phase
  // ---------------------------------------------------------------------------

  predicate KindAllowed(version: Version, kind: Kind) {
    match version
    case V1 => true
    case V2 => kind in {Agent, CodeReview, Verification, GitCommit, GitPush}
    case V3 => kind in {Agent, CodeReview, Verification}
  }

  predicate TaskFine(version: Version, task: Option<TaskEntry>) {
    && task.Some?
    && KindAllowed(version, task.value.kind)
    && (task.value.kind == Verification ==> task.value.profile.Some?)
    && (task.value.kind == CodeReview ==> task.value.condition.Some?)
  }

  /** The first t tasks are fine on their own, and no two of them share an id. */
  ghost predicate TasksFineTo(version: Version, tasks: seq<Option<TaskEntry>>, t: nat)
    requires t <= |tasks|
  {
    && (forall s :: 0 <= s < t ==> TaskFine(version, tasks[s]))
    && (forall r, s :: 0 <= r < s < t ==> tasks[r].value.id != tasks[s].value.id)
  }

  ghost predicate TasksFine(version: Version, tasks: seq<Option<TaskEntry>>) {
    TasksFineTo(version, tasks, |tasks|)
  }

  ghost predicate Projects(tasks: seq<Option<TaskEntry>>, out: seq<TaskEntry>, t: nat)
    requires t <= |tasks|
  {
    |out| == t && forall s :: 0 <= s < t ==> tasks[s] == Some(out[s])
  }

  /** The verdict on one task, given the ids already used in the phase. */
  method CheckTask(version: Version, task: Option<TaskEntry>, used: set<string>)
    returns (code: Option<Code>, taken: set<string>)
    ensures code == None <==> TaskFine(version, task) && task.value.id !in used
    ensures taken == if task.Some? then used + {task.value.id} else used
  {
    taken := used;
    if task == None {
      return Some(BadTask), taken;
    }
    if task.value.id in used {
      return Some(DuplicateTask), taken;
    }
    taken := taken + {task.value.id};
    if !KindAllowed(version, task.value.kind) {
      return Some(TaskKindNotAllowed), taken;
    }
    if task.value.kind == Verification && task.value.profile == None {
      return Some(ProfileMissing), taken;
    }
    if task.value.kind == CodeReview && task.value.condition == None {
      return Some(ConditionMissing), taken;
    }
    return None, taken;
  }

  ghost predicate UsedTo(tasks: seq<Option<TaskEntry>>, t: nat, used: set<string>)
    requires t <= |tasks|
  {
    && (forall s :: 0 <= s < t && tasks[s].Some? ==> tasks[s].value.id in used)
    && (forall x :: x in used ==> exists s :: 0 <= s < t && tasks[s].Some? && tasks[s].value.id == x)
  }

  lemma {:induction false} UsedOneMore(tasks: seq<Option<TaskEntry>>, t: nat, used: set<string>)
    requires t < |tasks| && UsedTo(tasks, t, used)
    ensures UsedTo(tasks, t + 1, if tasks[t].Some? then used + {tasks[t].value.id} else used)
  {
  }

  lemma {:induction false} TasksOneMore(version: Version, tasks: seq<Option<TaskEntry>>, t: nat, used: set<string>)
    requires t < |tasks| && UsedTo(tasks, t, used)
    ensures TasksFineTo(version, tasks, t + 1)
       <==> TasksFineTo(version, tasks, t) && TaskFine(version, tasks[t]) && tasks[t].value.id !in used
  {
  }

  method CheckTasks(version: Version, phase: nat, tasks: seq<Option<TaskEntry>>)
    returns (out: seq<TaskEntry>, found: seq<Diagnostic>)
    ensures found == [] <==> TasksFine(version, tasks)
    ensures found == [] ==> Projects(tasks, out, |tasks|)
  {
    out, found := [], [];
    var used: set<string> := {};
    var t: nat := 0;
    while t < |tasks|
      invariant t <= |tasks| && UsedTo(tasks, t, used)
      invariant found == [] <==> TasksFineTo(version, tasks, t)
      invariant found == [] ==> Projects(tasks, out, t)
    {
      TasksOneMore(version, tasks, t, used);
      UsedOneMore(tasks, t, used);
      var code;
      code, used := CheckTask(version, tasks[t], used);
      if code.Some? {
        found := found + [Diagnostic(Some(phase), Some(t), code.value)];
      } else {
        out := out + [tasks[t].value];
      }
      t := t + 1;
    }
  }

  // ---------------------------------------------------------------------------
  // One phase
  // ---------------------------------------------------------------------------

  predicate FieldsFine(version: Version, fields: Fields) {
    && fields.role.Some? && fields.developmentValidation.Some? && fields.codeReview.Some?
    && fields.finalValidation.Some? && fields.repairAndRerun && (version == V3 ==> fields.commitAndPush)
  }

  predicate IdentityFine(entry: Entry) {
    && entry.id.Some? && entry.order.Some? && entry.order.value >= 0
    && entry.document.Some? && entry.number.Some? && entry.number.value == entry.order.value
  }

  /** What one phase must be on its own. */
  ghost predicate PhaseFine(version: Version, entry: Option<Entry>) {
    && entry.Some? && IdentityFine(entry.value) && FieldsFine(version, entry.value.fields)
    && entry.value.tasks.Some? && entry.value.tasks.value != [] && TasksFine(version, entry.value.tasks.value)
  }

  /** The phase carries everything the entry says. */
  ghost predicate Carries(entry: Option<Entry>, phase: Phase) {
    && entry.Some? && entry.value.tasks.Some?
    && entry.value.id == Some(phase.id) && entry.value.order == Some(phase.order)
    && entry.value.document == Some(phase.document) && entry.value.number == Some(phase.number)
    && entry.value.fields.role == Some(phase.role)
    && entry.value.fields.developmentValidation == Some(phase.developmentValidation)
    && entry.value.fields.codeReview == Some(phase.codeReview)
    && entry.value.fields.finalValidation == Some(phase.finalValidation)
    && entry.value.fields.commitAndPush == phase.commitAndPush
    && Projects(entry.value.tasks.value, phase.tasks, |entry.value.tasks.value|)
  }

  /** The sets the parser has filled so far. */
  datatype Seen = Seen(ids: set<string>, orders: set<int>, documents: set<string>)

  predicate Unused(entry: Entry, seen: Seen) {
    && (entry.id.Some? ==> entry.id.value !in seen.ids)
    && (entry.order.Some? ==> entry.order.value !in seen.orders)
    && (entry.document.Some? ==> entry.document.value !in seen.documents)
  }

  function With<T>(s: set<T>, x: Option<T>): set<T> {
    if x.Some? then s + {x.value} else s
  }

  function Noted(entry: Entry, seen: Seen): Seen {
    Seen(With(seen.ids, entry.id), With(seen.orders, entry.order), With(seen.documents, entry.document))
  }

  /** id, order and document, on their own and against the phases before. */
  method CheckIdentity(k: nat, entry: Entry, seen: Seen) returns (found: seq<Diagnostic>)
    ensures found == [] <==> IdentityFine(entry) && Unused(entry, seen)
  {
    found := [];
    if entry.id == None || entry.id.value in seen.ids {
      found := found + [Diagnostic(Some(k), None, BadId)];
    }
    if entry.order == None || entry.order.value < 0 || entry.order.value in seen.orders {
      found := found + [Diagnostic(Some(k), None, BadOrder)];
    }
    if entry.document == None || entry.number == None || entry.document.value in seen.documents {
      found := found + [Diagnostic(Some(k), None, BadDocument)];
    } else if entry.order == None || entry.number.value != entry.order.value {
      found := found + [Diagnostic(Some(k), None, NumberMismatch)];
    }
  }

  method CheckFields(version: Version, k: nat, fields: Fields) returns (found: seq<Diagnostic>)
    ensures found == [] <==> FieldsFine(version, fields)
  {
    found := [];
    if fields.role == None {
      found := found + [Diagnostic(Some(k), None, BadRole)];
    }
    if fields.developmentValidation == None {
      found := found + [Diagnostic(Some(k), None, BadDevelopmentValidation)];
    }
    if fields.finalValidation == None {
      found := found + [Diagnostic(Some(k), None, BadFinalValidation)];
    }
    if fields.codeReview == None {
      found := found + [Diagnostic(Some(k), None, BadCodeReview)];
    }
    if !fields.repairAndRerun {
      found := found + [Diagnostic(Some(k), None, BadFailurePolicy)];
    }
    if version == V3 && !fields.commitAndPush {
      found := found + [Diagnostic(Some(k), None, BadGitCheckpoint)];
    }
  }

  /** The phase the source builds when every field it reads is there, whatever was diagnosed. */
  function Built(entry: Entry, tasks: seq<TaskEntry>): Option<Phase> {
    var f := entry.fields;
    if && entry.id.Some? && entry.order.Some? && entry.document.Some? && entry.number.Some? && f.role.Some?
       && f.developmentValidation.Some? && f.finalValidation.Some? && f.codeReview.Some? && f.repairAndRerun && tasks != []
    then Some(Phase(entry.id.value, entry.order.value, entry.document.value, entry.number.value, f.role.value, tasks,
                    f.developmentValidation.value, f.codeReview.value, f.finalValidation.value, f.commitAndPush))
    else None
  }

  method CheckPhase(version: Version, k: nat, entry: Option<Entry>, seen: Seen)
    returns (found: seq<Diagnostic>, phase: Option<Phase>, noted: Seen)
    ensures found == [] <==> PhaseFine(version, entry) && Unused(entry.value, seen)
    ensures found == [] ==> phase.Some? && Carries(entry, phase.value)
    ensures noted == if entry.Some? then Noted(entry.value, seen) else seen
  {
    if entry == None {
      return [Diagnostic(Some(k), None, NotObject)], None, seen;
    }
    found := CheckIdentity(k, entry.value, seen);
    var more := CheckFields(version, k, entry.value.fields);
    found := found + more;
    var tasks: seq<TaskEntry> := [];
    if entry.value.tasks == None || entry.value.tasks.value == [] {
      found := found + [Diagnostic(Some(k), None, NoTasks)];
    } else {
      tasks, more := CheckTasks(version, k, entry.value.tasks.value);
      found := found + more;
    }
    noted := Noted(entry.value, seen);
    phase := Built(entry.value, tasks);
  }

  // ---------------------------------------------------------------------------
  // The loop over the phases
  // ---------------------------------------------------------------------------

  ghost predicate AllFineTo(version: Version, entries: seq<Option<Entry>>, k: nat)
    requires k <= |entries|
  {
    forall j :: 0 <= j < k ==> PhaseFine(version, entries[j])
  }

  function IdAt(entry: Option<Entry>): Option<string> {
    if entry.Some? then entry.value.id else None
  }

  function OrderAt(entry: Option<Entry>): Option<int> {
    if entry.Some? then entry.value.order else None
  }

  function DocumentAt(entry: Option<Entry>): Option<string> {
    if entry.Some? then entry.value.document else None
  }

  /** What the first k entries give. */
  ghost function Given<T>(entries: seq<Option<Entry>>, k: nat, field: Option<Entry> -> Option<T>): (r: set<T>)
    requires k <= |entries|
    decreases k
  {
    if k == 0 then {} else With(Given(entries, k - 1, field), field(entries[k - 1]))
  }

  lemma {:induction false} GivenEarlier<T>(entries: seq<Option<Entry>>, k: nat, field: Option<Entry> -> Option<T>, x: T)
    requires k <= |entries|
    ensures x in Given(entries, k, field) <==> exists j :: 0 <= j < k && field(entries[j]) == Some(x)
    decreases k
  {
    if k > 0 {
      GivenEarlier(entries, k - 1, field, x);
      assert field(entries[k - 1]).Some? ==> field(entries[k - 1]) == Some(field(entries[k - 1]).value);
    }
  }

  /** What entry k gives, if anything, no earlier entry gives. */
  ghost predicate NewAt<T(!new)>(entries: seq<Option<Entry>>, k: nat, field: Option<Entry> -> Option<T>)
    requires k < |entries|
  {
    field(entries[k]).Some? ==> forall j :: 0 <= j < k ==> field(entries[j]) != field(entries[k])
  }

  ghost predicate DistinctTo<T(!new)>(entries: seq<Option<Entry>>, k: nat, field: Option<Entry> -> Option<T>)
    requires k <= |entries|
  {
    forall j: nat :: j < k ==> NewAt(entries, j, field)
  }

  lemma {:induction false} NewIff<T(!new)>(entries: seq<Option<Entry>>, k: nat, field: Option<Entry> -> Option<T>)
    requires k < |entries|
    ensures NewAt(entries, k, field)
       <==> (field(entries[k]).Some? ==> field(entries[k]).value !in Given(entries, k, field))
  {
    if field(entries[k]).Some? {
      GivenEarlier(entries, k, field, field(entries[k]).value);
    }
  }

  lemma {:induction false} DistinctOneMore<T(!new)>(entries: seq<Option<Entry>>, k: nat, field: Option<Entry> -> Option<T>)
    requires k < |entries|
    ensures DistinctTo(entries, k + 1, field)
       <==> DistinctTo(entries, k, field) && (field(entries[k]).Some? ==> field(entries[k]).value !in Given(entries, k, field))
  {
    NewIff(entries, k, field);
  }

  ghost function SeenTo(entries: seq<Option<Entry>>, k: nat): Seen
    requires k <= |entries|
  {
    Seen(Given(entries, k, IdAt), Given(entries, k, OrderAt), Given(entries, k, DocumentAt))
  }

  lemma {:induction false} SeenOneMore(entries: seq<Option<Entry>>, k: nat)
    requires k < |entries|
    ensures SeenTo(entries, k + 1) == if entries[k].Some? then Noted(entries[k].value, SeenTo(entries, k)) else SeenTo(entries, k)
  {
  }

  ghost predicate AllDifferentTo(entries: seq<Option<Entry>>, k: nat)
    requires k <= |entries|
  {
    DistinctTo(entries, k, IdAt) && DistinctTo(entries, k, OrderAt) && DistinctTo(entries, k, DocumentAt)
  }

  lemma {:induction false} DifferentOneMore(entries: seq<Option<Entry>>, k: nat)
    requires k < |entries| && entries[k].Some?
    ensures AllDifferentTo(entries, k + 1) <==> AllDifferentTo(entries, k) && Unused(entries[k].value, SeenTo(entries, k))
  {
    DistinctOneMore(entries, k, IdAt);
    DistinctOneMore(entries, k, OrderAt);
    DistinctOneMore(entries, k, DocumentAt);
  }

  ghost predicate AllCarriedTo(entries: seq<Option<Entry>>, phases: seq<Phase>, k: nat)
    requires k <= |entries|
  {
    |phases| == k && forall j :: 0 <= j < k ==> Carries(entries[j], phases[j])
  }

  ghost predicate CleanTo(version: Version, entries: seq<Option<Entry>>, k: nat)
    requires k <= |entries|
  {
    AllFineTo(version, entries, k) && AllDifferentTo(entries, k)
  }

  lemma {:induction false} CleanOneMore(version: Version, entries: seq<Option<Entry>>, k: nat)
    requires k < |entries|
    ensures CleanTo(version, entries, k + 1)
       <==> CleanTo(version, entries, k) && PhaseFine(version, entries[k]) && Unused(entries[k].value, SeenTo(entries, k))
  {
    if entries[k].Some? {
      DifferentOneMore(entries, k);
    } else {
      assert !PhaseFine(version, entries[k]);
    }
  }

  lemma {:induction false} CarriedOneMore(entries: seq<Option<Entry>>, phases: seq<Phase>, k: nat, phase: Phase)
    requires k < |entries| && AllCarriedTo(entries, phases, k) && Carries(entries[k], phase)
    ensures AllCarriedTo(entries, phases + [phase], k + 1)
  {
  }

  method CheckPhases(version: Version, entries: seq<Option<Entry>>) returns (phases: seq<Phase>, found: seq<Diagnostic>)
    ensures found == [] <==> CleanTo(version, entries, |entries|)
    ensures found == [] ==> AllCarriedTo(entries, phases, |entries|)
  {
    phases, found := [], [];
    var seen := Seen({}, {}, {});
    var k: nat := 0;
    while k < |entries|
      invariant k <= |entries| && seen == SeenTo(entries, k)
      invariant found == [] <==> CleanTo(version, entries, k)
      invariant found == [] ==> AllCarriedTo(entries, phases, k)
    {
      CleanOneMore(version, entries, k);
      SeenOneMore(entries, k);
      var more, phase;
      more, phase, seen := CheckPhase(version, k, entries[k], seen);
      found := found + more;
      if phase.Some? {
        if found == [] {
          CarriedOneMore(entries, phases, k, phase.value);
        }
        phases := phases + [phase.value];
      }
      k := k + 1;
    }
  }

  // ---------------------------------------------------------------------------
  // The whole contract
  // ---------------------------------------------------------------------------

  function OrderOf(phase: Phase): int {
    phase.order
  }

  function FinalValidations(tasks: seq<TaskEntry>): nat
    decreases |tasks|
  {
    if tasks == [] then 0 else (if tasks[0].kind == FinalValidation then 1 else 0) + FinalValidations(tasks[1..])
  }

  predicate Contiguous(ordered: seq<Phase>) {
    forall i :: 0 <= i < |ordered| ==> ordered[i].order == i
  }

  predicate OneFinalValidation(ordered: seq<Phase>) {
    forall i :: 0 <= i < |ordered| ==> FinalValidations(ordered[i].tasks) <= 1
  }

  lemma {:induction false} SortedMembers(phases: seq<Phase>)
    ensures forall p :: p in SortBy(phases, OrderOf) <==> p in phases
  {
    forall p ensures p in SortBy(phases, OrderOf) <==> p in phases {
      TextOrder.SameElements(SortBy(phases, OrderOf), phases, p);
    }
  }

  lemma {:induction false} AtLeastIndex(ordered: seq<Phase>, i: nat)
    requires SortedBy(ordered, OrderOf) && DistinctBy(ordered, OrderOf)
    requires forall k :: 0 <= k < |ordered| ==> 0 <= ordered[k].order
    requires i < |ordered|
    ensures i <= ordered[i].order
  {
    if i > 0 {
      AtLeastIndex(ordered, i - 1);
      assert OrderOf(ordered[i - 1]) <= OrderOf(ordered[i]) && OrderOf(ordered[i - 1]) != OrderOf(ordered[i]);
    }
  }

  lemma {:induction false} AtMostIndex(ordered: seq<Phase>, i: nat)
    requires SortedBy(ordered, OrderOf) && DistinctBy(ordered, OrderOf)
    requires forall k :: 0 <= k < |ordered| ==> ordered[k].order < |ordered|
    requires i < |ordered|
    ensures ordered[i].order <= i
    decreases |ordered| - i
  {
    if i + 1 < |ordered| {
      AtMostIndex(ordered, i + 1);
      assert OrderOf(ordered[i]) <= OrderOf(ordered[i + 1]) && OrderOf(ordered[i]) != OrderOf(ordered[i + 1]);
    }
  }

  /** Distinct orders from zero up leave no gap once sorted exactly when none is too large. */
  lemma {:induction false} ContiguousIff(phases: seq<Phase>)
    requires DistinctBy(phases, OrderOf) && forall k :: 0 <= k < |phases| ==> 0 <= phases[k].order
    ensures Contiguous(SortBy(phases, OrderOf)) <==> forall k :: 0 <= k < |phases| ==> phases[k].order < |phases|
  {
    var ordered := SortBy(phases, OrderOf);
    SortSorts(phases, OrderOf);
    DistinctWhenSorted(phases, OrderOf);
    SortedMembers(phases);
    if forall k :: 0 <= k < |phases| ==> phases[k].order < |phases| {
      forall i | 0 <= i < |ordered| ensures ordered[i].order == i {
        assert forall k :: 0 <= k < |ordered| ==> ordered[k] in phases;
        AtLeastIndex(ordered, i);
        AtMostIndex(ordered, i);
      }
    }
    if Contiguous(ordered) {
      forall k | 0 <= k < |phases| ensures phases[k].order < |phases| {
        assert phases[k] in ordered;
      }
    }
  }

  lemma {:induction false} FinalTestAgrees(phases: seq<Phase>)
    ensures OneFinalValidation(SortBy(phases, OrderOf)) <==> OneFinalValidation(phases)
  {
    var ordered := SortBy(phases, OrderOf);
    SortedMembers(phases);
    assert forall i :: 0 <= i < |ordered| ==> ordered[i] in phases;
    assert forall i :: 0 <= i < |phases| ==> phases[i] in ordered;
  }

  /** How many of the tasks are final validations, before the tasks are built. */
  function FinalEntries(tasks: seq<Option<TaskEntry>>): nat
    decreases |tasks|
  {
    if tasks == [] then 0
    else (if tasks[0].Some? && tasks[0].value.kind == FinalValidation then 1 else 0) + FinalEntries(tasks[1..])
  }

  lemma {:induction false} FinalEntriesAgree(tasks: seq<Option<TaskEntry>>, out: seq<TaskEntry>)
    requires Projects(tasks, out, |tasks|)
    ensures FinalEntries(tasks) == FinalValidations(out)
    decreases |tasks|
  {
    if tasks != [] {
      FinalEntriesAgree(tasks[1..], out[1..]);
    }
  }

  /** What the parser accepts, in terms of the input alone. */
  ghost predicate Acceptable(version: Version, entries: seq<Option<Entry>>) {
    && AllFineTo(version, entries, |entries|)
    && (forall i, j :: 0 <= i < j < |entries| ==> entries[i].value.id != entries[j].value.id)
    && (forall i, j :: 0 <= i < j < |entries| ==> entries[i].value.order != entries[j].value.order)
    && (forall k :: 0 <= k < |entries| ==> entries[k].value.order.value < |entries|)
    && (forall k :: 0 <= k < |entries| ==> FinalEntries(entries[k].value.tasks.value) <= 1)
  }

  ghost predicate SameNumberIfSameDocument(a: Option<Entry>, b: Option<Entry>) {
    a.Some? && b.Some? && a.value.document == b.value.document ==> a.value.number == b.value.number
  }

  /** Equal documents have equal numbers: the number is read off the document. */
  ghost predicate NumbersReadOff(entries: seq<Option<Entry>>) {
    forall i, j :: 0 <= i < |entries| && 0 <= j < |entries| ==> SameNumberIfSameDocument(entries[i], entries[j])
  }

  /** The document test adds nothing: documents with different numbers are different documents. */
  lemma {:induction false} DocumentTestIsImplied(version: Version, entries: seq<Option<Entry>>)
    requires AllFineTo(version, entries, |entries|) && NumbersReadOff(entries)
    requires DistinctTo(entries, |entries|, OrderAt)
    ensures DistinctTo(entries, |entries|, DocumentAt)
  {
    forall k: nat | k < |entries| ensures NewAt(entries, k, DocumentAt) {
      assert NewAt(entries, k, OrderAt) && PhaseFine(version, entries[k]);
      forall j | 0 <= j < k ensures DocumentAt(entries[j]) != DocumentAt(entries[k]) {
        assert PhaseFine(version, entries[j]);
        assert OrderAt(entries[j]) != OrderAt(entries[k]);
        assert SameNumberIfSameDocument(entries[j], entries[k]);
      }
    }
  }

  lemma {:induction false} DistinctMeans<T(!new)>(entries: seq<Option<Entry>>, field: Option<Entry> -> Option<T>)
    requires forall k :: 0 <= k < |entries| ==> field(entries[k]).Some?
    ensures DistinctTo(entries, |entries|, field)
       <==> forall i, j :: 0 <= i < j < |entries| ==> field(entries[i]) != field(entries[j])
  {
    if DistinctTo(entries, |entries|, field) {
      forall i, j | 0 <= i < j < |entries| ensures field(entries[i]) != field(entries[j]) {
        assert NewAt(entries, j, field);
      }
    }
  }

  lemma {:induction false} CleanIff(version: Version, entries: seq<Option<Entry>>)
    requires AllFineTo(version, entries, |entries|) && NumbersReadOff(entries)
    ensures CleanTo(version, entries, |entries|) <==>
      && (forall i, j :: 0 <= i < j < |entries| ==> IdAt(entries[i]) != IdAt(entries[j]))
      && (forall i, j :: 0 <= i < j < |entries| ==> OrderAt(entries[i]) != OrderAt(entries[j]))
  {
    forall k | 0 <= k < |entries| ensures IdAt(entries[k]).Some? && OrderAt(entries[k]).Some? {
      assert PhaseFine(version, entries[k]);
    }
    DistinctMeans(entries, IdAt);
    DistinctMeans(entries, OrderAt);
    if DistinctTo(entries, |entries|, OrderAt) {
      DocumentTestIsImplied(version, entries);
    }
  }

  lemma {:induction false} CarriedFacts(version: Version, entries: seq<Option<Entry>>, phases: seq<Phase>, k: nat)
    requires AllFineTo(version, entries, |entries|) && AllCarriedTo(entries, phases, |entries|) && k < |entries|
    ensures OrderAt(entries[k]) == Some(phases[k].order) && 0 <= phases[k].order
    ensures phases[k].number == phases[k].order
    ensures entries[k].Some? && entries[k].value.tasks.Some?
    ensures FinalEntries(entries[k].value.tasks.value) == FinalValidations(phases[k].tasks)
  {
    assert PhaseFine(version, entries[k]) && Carries(entries[k], phases[k]);
    FinalEntriesAgree(entries[k].value.tasks.value, phases[k].tasks);
  }

  /** The two tests on the sorted phases, in terms of the input. */
  lemma {:induction false} WholeTestsIff(version: Version, entries: seq<Option<Entry>>, phases: seq<Phase>)
    requires CleanTo(version, entries, |entries|) && NumbersReadOff(entries) && AllCarriedTo(entries, phases, |entries|)
    ensures Acceptable(version, entries)
       <==> Contiguous(SortBy(phases, OrderOf)) && OneFinalValidation(SortBy(phases, OrderOf))
  {
    CleanIff(version, entries);
    forall k | 0 <= k < |entries|
      ensures OrderAt(entries[k]) == Some(phases[k].order) && 0 <= phases[k].order
      ensures FinalEntries(entries[k].value.tasks.value) == FinalValidations(phases[k].tasks)
    {
      CarriedFacts(version, entries, phases, k);
    }
    FinalTestAgrees(phases);
    assert DistinctBy(phases, OrderOf);
    ContiguousIff(phases);
  }

  lemma {:induction false} NumbersAreReadOff(raws: seq<RawPhase>)
    ensures NumbersReadOff(ReadPhases(raws))
  {
    var entries := ReadPhases(raws);
    forall i, j | 0 <= i < |entries| && 0 <= j < |entries|
      ensures SameNumberIfSameDocument(entries[i], entries[j])
    {
      NumberReadOff(raws[i]);
      NumberReadOff(raws[j]);
    }
  }

  lemma {:induction false} NumberReadOff(raw: RawPhase)
    ensures var e := ReadPhase(raw);
      e.Some? ==> e.value.number == ReadNumber(e.value.document)
  {
  }

  lemma {:induction false} NotClean(version: Version, entries: seq<Option<Entry>>)
    requires !CleanTo(version, entries, |entries|) && NumbersReadOff(entries)
    ensures !Acceptable(version, entries)
  {
    if AllFineTo(version, entries, |entries|) {
      CleanIff(version, entries);
      assert forall k :: 0 <= k < |entries| ==> PhaseFine(version, entries[k]);
    }
  }

  ghost predicate DistinctTaskIds(tasks: seq<TaskEntry>) {
    forall s, t :: 0 <= s < t < |tasks| ==> tasks[s].id != tasks[t].id
  }

  /**
   * What an accepted contract is worth: no phase is dropped or invented, phase i has order i and a
   * document numbered i, and ids, documents and the task ids of each phase are unique.
   */
  ghost predicate Accepts(version: Version, entries: seq<Option<Entry>>, contract: seq<Phase>) {
    && |contract| == |entries|
    && (forall k :: 0 <= k < |entries| ==>
          entries[k].Some? && entries[k].value.order.Some? && 0 <= entries[k].value.order.value < |contract|
          && Carries(entries[k], contract[entries[k].value.order.value]))
    && (forall i :: 0 <= i < |contract| ==> contract[i].order == i && contract[i].number == i)
    && (forall i, j :: 0 <= i < j < |contract| ==> contract[i].id != contract[j].id && contract[i].document != contract[j].document)
    && (forall i :: 0 <= i < |contract| ==> contract[i].tasks != [] && DistinctTaskIds(contract[i].tasks))
  }

  lemma {:induction false} CarriedPhase(version: Version, entry: Option<Entry>, phase: Phase)
    requires PhaseFine(version, entry) && Carries(entry, phase)
    ensures phase.number == phase.order && phase.tasks != [] && DistinctTaskIds(phase.tasks)
  {
    var tasks := entry.value.tasks.value;
    assert forall t :: 0 <= t < |tasks| ==> tasks[t] == Some(phase.tasks[t]);
  }

  /** The sorted contract holds phase k of the input at its own order. */
  lemma {:induction false} AtOwnOrder(phases: seq<Phase>, k: nat)
    requires k < |phases| && Contiguous(SortBy(phases, OrderOf))
    ensures 0 <= phases[k].order < |phases| && SortBy(phases, OrderOf)[phases[k].order] == phases[k]
  {
    SortedMembers(phases);
    var ordered := SortBy(phases, OrderOf);
    assert phases[k] in ordered;
    var i :| 0 <= i < |ordered| && ordered[i] == phases[k];
  }

  lemma {:induction false} ComesFrom(phases: seq<Phase>, i: nat) returns (k: nat)
    requires i < |phases|
    ensures k < |phases| && SortBy(phases, OrderOf)[i] == phases[k]
  {
    SortedMembers(phases);
    var ordered := SortBy(phases, OrderOf);
    assert ordered[i] in phases;
    k :| k < |phases| && phases[k] == ordered[i];
  }

  lemma {:induction false} DifferentInContract(version: Version, entries: seq<Option<Entry>>, phases: seq<Phase>, i: nat, j: nat)
    requires CleanTo(version, entries, |entries|) && AllCarriedTo(entries, phases, |entries|)
    requires Contiguous(SortBy(phases, OrderOf)) && i < j < |phases|
    ensures var ordered := SortBy(phases, OrderOf);
      ordered[i].id != ordered[j].id && ordered[i].document != ordered[j].document
  {
    var a := ComesFrom(phases, i);
    var b := ComesFrom(phases, j);
    assert Carries(entries[a], phases[a]) && Carries(entries[b], phases[b]);
    assert a != b;
    var later := if a < b then b else a;
    assert NewAt(entries, later, IdAt) && NewAt(entries, later, DocumentAt);
  }

  lemma {:induction false} AcceptedContract(version: Version, entries: seq<Option<Entry>>, phases: seq<Phase>)
    requires CleanTo(version, entries, |entries|) && AllCarriedTo(entries, phases, |entries|)
    requires Contiguous(SortBy(phases, OrderOf))
    ensures Accepts(version, entries, SortBy(phases, OrderOf))
  {
    var ordered := SortBy(phases, OrderOf);
    forall k | 0 <= k < |entries|
      ensures entries[k].Some? && entries[k].value.order.Some? && 0 <= entries[k].value.order.value < |ordered|
      ensures Carries(entries[k], ordered[entries[k].value.order.value])
    {
      assert Carries(entries[k], phases[k]);
      AtOwnOrder(phases, k);
    }
    forall i | 0 <= i < |ordered|
      ensures ordered[i].number == i && ordered[i].tasks != [] && DistinctTaskIds(ordered[i].tasks)
    {
      var k := ComesFrom(phases, i);
      assert PhaseFine(version, entries[k]) && Carries(entries[k], phases[k]);
      CarriedPhase(version, entries[k], phases[k]);
    }
    forall i, j | 0 <= i < j < |ordered|
      ensures ordered[i].id != ordered[j].id && ordered[i].document != ordered[j].document
    {
      DifferentInContract(version, entries, phases, i, j);
    }
  }

  /** A contract comes out exactly when the input is acceptable. */
  method ParsePhaseExecutionContract(version: Version, raws: seq<RawPhase>)
    returns (contract: Option<seq<Phase>>, diagnostics: seq<Diagnostic>)
    ensures contract.Some? <==> diagnostics == []
    ensures contract.Some? <==> Acceptable(version, ReadPhases(raws))
    ensures contract.Some? ==> Accepts(version, ReadPhases(raws), contract.value)
  {
    var entries := ReadPhases(raws);
    NumbersAreReadOff(raws);
    var phases: seq<Phase>;
    phases, diagnostics := CheckPhases(version, entries);
    if diagnostics == [] {
      WholeTestsIff(version, entries, phases);
    } else {
      NotClean(version, entries);
    }
    var ordered := SortBy(phases, OrderOf);
    if !Contiguous(ordered) {
      diagnostics := diagnostics + [Diagnostic(None, None, NotContiguous)];
    }
    if !OneFinalValidation(ordered) {
      diagnostics := diagnostics + [Diagnostic(None, None, TooManyFinalValidations)];
    }
    if diagnostics == [] {
      AcceptedContract(version, entries, phases);
      contract := Some(ordered);
    } else {
      contract := None;
    }
  }
}
