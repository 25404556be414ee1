module LedgerRules {
  /** The ledger of a phase document for its two readers, in the words of the document. */

  import opened Wrappers
  import opened Spelling
  import opened LedgerLines
  import opened LedgerGrammar
  import opened ContractReading
  import opened PhaseContract
  import opened PhaseQueue
  import opened PhaseLedger

  // ---------------------------------------------------------------------------
  // The parity test
  // ---------------------------------------------------------------------------

  /** From the first ledger title up to the next second-level heading, or to the end. */
  ghost predicate Section(lines: seq<string>, h: nat, e: nat) {
    && h < e <= |lines| && IsTitle(lines[h]) && (forall i :: 0 <= i < h ==> !IsTitle(lines[i]))
    && (forall i :: h < i < e ==> !IsSecondLevel(lines[i])) && (e < |lines| ==> IsSecondLevel(lines[e]))
  }

  ghost predicate Ticked(line: string) {
    exists text: string :: IsTick(line, text)
  }

  ghost function TickedLines(lines: seq<string>): set<nat> {
    set q: nat | q < |lines| && Ticked(lines[q])
  }

  /** The members of marked from i up to e, in order, none left out. */
  ghost predicate Lists(marked: set<nat>, i: nat, e: nat, at: seq<nat>) {
    && (forall j, k :: 0 <= j < k < |at| ==> at[j] < at[k])
    && (forall k :: 0 <= k < |at| ==> i <= at[k] < e && at[k] in marked)
    && (forall q: nat :: i <= q < e && q in marked ==> q in at)
  }

  /** The word for the executor of a task. */
  ghost predicate WordFor(kind: Kind, word: string) {
    match kind
    case CodeReview => word == "code_review"
    case Verification => word == "verification"
    case DevelopmentValidation => word == "verification"
    case FinalValidation => word == "verification"
    case GitCommit => word == "git_commit"
    case GitPush => word == "git_push"
    case Agent => word == "agent"
    case Work => word == "agent"
  }

  /** The line is a checkbox that begins with the task's id and, where the phase is ordered, its executor. */
  ghost predicate Projects(line: string, task: TaskEntry, ordered: bool) {
    exists text: string :: IsTick(line, text) && MarksTask(text, task.id)
      && (ordered ==> exists word: string :: WordFor(task.kind, word) && NamesExecutor(text, |task.id| + 11, word))
  }

  /** The checkboxes of the section are the tasks of the phase, one for one and in order. */
  ghost predicate GoodLedger(lines: seq<string>, phase: Phase, h: nat, e: nat, at: seq<nat>) {
    && Section(lines, h, e) && Lists(TickedLines(lines), h + 1, e, at) && |at| == |phase.tasks|
    && forall k :: 0 <= k < |at| && at[k] < |lines| ==> Projects(lines[at[k]], phase.tasks[k], !OldKindsOnly(phase))
  }

  ghost predicate ItemStands(lines: seq<string>, q: nat, item: LedgerItem) {
    q < |lines| && ParityMarks(lines[q]).Some? && item == ItemOf(q, ParityMarks(lines[q]).value)
  }

  /** The items of a section stand at its checkboxes, with their markers. */
  ghost predicate ItemsAt(lines: seq<string>, at: seq<nat>, ledger: seq<LedgerItem>) {
    |at| == |ledger| && forall k :: 0 <= k < |at| ==> ItemStands(lines, at[k], ledger[k])
  }

  lemma {:induction false} TickedIff(line: string)
    ensures ParityBox(line).Some? <==> Ticked(line)
  {
    if ParityBox(line).Some? {
      TickIff(line, ParityBox(line).value);
    }
    if Ticked(line) {
      var text: string :| IsTick(line, text);
      TickIff(line, text);
    }
  }

  lemma {:induction false} ListsStep(marked: set<nat>, i: nat, e: nat, at: seq<nat>)
    requires i < e && Lists(marked, i + 1, e, at)
    ensures Lists(marked, i, e, if i in marked then [i] + at else at)
  {
    var all := if i in marked then [i] + at else at;
    forall q: nat | i <= q < e && q in marked ensures q in all {
      assert q > i ==> q in at;
    }
  }

  lemma {:induction false} SectionItemsAt(lines: seq<string>, i: nat, e: nat) returns (at: seq<nat>)
    requires i <= e <= |lines| && (forall k :: i <= k < e ==> !SecondLevel(lines[k])) && (e < |lines| ==> SecondLevel(lines[e]))
    ensures Lists(TickedLines(lines), i, e, at) && ItemsAt(lines, at, SectionItems(PageOf(lines), i))
    decreases e - i
  {
    if i < |lines| {
      PageAt(lines, i);
    }
    at := [];
    if i < e {
      TickedIff(lines[i]);
      var rest := SectionItems(PageOf(lines), i + 1);
      at := SectionItemsAt(lines, i + 1, e);
      ListsStep(TickedLines(lines), i, e, at);
      if i in TickedLines(lines) {
        var item := ItemOf(i, ParityMarks(lines[i]).value);
        ItemsStep(lines, i, item, at, rest);
        at := [i] + at;
      } else {
        assert [] + rest == rest;
      }
    }
  }

  lemma {:induction false} ItemsStep(lines: seq<string>, i: nat, item: LedgerItem, at: seq<nat>, rest: seq<LedgerItem>)
    requires ItemStands(lines, i, item) && ItemsAt(lines, at, rest)
    ensures ItemsAt(lines, [i] + at, [item] + rest)
  {
  }

  lemma {:induction false} TitlesRead(lines: seq<string>, h: nat)
    requires h < |lines|
    ensures FirstTitle(PageOf(lines).titles) == h <==> IsTitle(lines[h]) && forall i :: 0 <= i < h ==> !IsTitle(lines[i])
  {
    forall i | 0 <= i < |lines| ensures PageOf(lines).titles[i] <==> IsTitle(lines[i]) {
      PageAt(lines, i);
      TitleIff(lines[i]);
    }
  }

  /** The test reads the section of the first title. */
  lemma {:induction false} SectionRead(lines: seq<string>, h: nat, e: nat) returns (at: seq<nat>)
    requires Section(lines, h, e)
    ensures Lists(TickedLines(lines), h + 1, e, at) && ParityLedger(lines).Some? && ItemsAt(lines, at, ParityLedger(lines).value)
  {
    forall i | 0 <= i < |lines| ensures SecondLevel(lines[i]) <==> IsSecondLevel(lines[i]) {
      TitleIff(lines[i]);
    }
    TitlesRead(lines, h);
    at := SectionItemsAt(lines, h + 1, e);
  }

  lemma {:induction false} SectionPlace(lines: seq<string>) returns (h: nat, e: nat)
    requires ParityLedger(lines).Some?
    ensures Section(lines, h, e)
  {
    h := FirstTitle(PageOf(lines).titles);
    TitlesRead(lines, h);
    e := h + 1;
    while e < |lines| && !IsSecondLevel(lines[e])
      invariant h < e <= |lines| && forall i :: h < i < e ==> !IsSecondLevel(lines[i])
    {
      e := e + 1;
    }
  }

  lemma {:induction false} ListsLast(marked: set<nat>, i: nat, e: nat, a: seq<nat>, b: seq<nat>)
    requires Lists(marked, i, e, a) && Lists(marked, i, e, b) && a != []
    ensures b != [] && a[|a| - 1] <= b[|b| - 1]
  {
    assert a[|a| - 1] in b;
    var k :| 0 <= k < |b| && b[k] == a[|a| - 1];
  }

  /** There is one such list. */
  lemma {:induction false} OneList(marked: set<nat>, i: nat, e: nat, a: seq<nat>, b: seq<nat>)
    requires Lists(marked, i, e, a) && Lists(marked, i, e, b)
    ensures a == b
    decreases |a|
  {
    if b != [] {
      ListsLast(marked, i, e, b, a);
    }
    if a != [] {
      ListsLast(marked, i, e, a, b);
      ListsFront(marked, i, e, a);
      ListsFront(marked, i, e, b);
      OneList(marked, i, a[|a| - 1], a[..|a| - 1], b[..|b| - 1]);
    }
  }

  lemma {:induction false} ListsFront(marked: set<nat>, i: nat, e: nat, a: seq<nat>)
    requires Lists(marked, i, e, a) && a != []
    ensures Lists(marked, i, a[|a| - 1], a[..|a| - 1])
  {
    var m := |a| - 1;
    forall q: nat | i <= q < a[m] && q in marked ensures q in a[..m] {
      var k :| 0 <= k < |a| && a[k] == q;
      assert a[..m][k] == q;
    }
  }

  ghost predicate ItemFits(item: LedgerItem, task: TaskEntry, ordered: bool) {
    && item.taskId == Some(task.id)
    && (ordered ==> item.executor == Some(ExecutorName(MapTaskExecutor(task.kind))))
  }

  lemma {:induction false} WordIff(kind: Kind, word: string)
    ensures WordFor(kind, word) <==> word == ExecutorName(MapTaskExecutor(kind))
  {
  }

  /** A checkbox fits a task exactly when it projects it. */
  lemma {:induction false} FitsIff(line: string, at: nat, task: TaskEntry, ordered: bool)
    requires ParityMarks(line).Some?
    ensures ItemFits(ItemOf(at, ParityMarks(line).value), task, ordered) <==> Projects(line, task, ordered)
  {
    var text := ParityBox(line).value;
    var word := ExecutorName(MapTaskExecutor(task.kind));
    TickIff(line, text);
    MarksTaskIff(text, task.id);
    WordIff(task.kind, word);
    if MarksTask(text, task.id) {
      NamesExecutorIff(text, |task.id| + 11, word);
    }
    if Projects(line, task, ordered) {
      var other: string :| IsTick(line, other) && MarksTask(other, task.id)
        && (ordered ==> exists w: string :: WordFor(task.kind, w) && NamesExecutor(other, |task.id| + 11, w));
      TickIff(line, other);
      if ordered {
        var w: string :| WordFor(task.kind, w) && NamesExecutor(other, |task.id| + 11, w);
        WordIff(task.kind, w);
      }
    }
  }

  ghost predicate AllFit(ledger: seq<LedgerItem>, phase: Phase) {
    |ledger| == |phase.tasks| && forall k :: 0 <= k < |ledger| ==> ItemFits(ledger[k], phase.tasks[k], !OldKindsOnly(phase))
  }

  lemma {:induction false} NamedItems(ledger: seq<LedgerItem>, tasks: seq<TaskEntry>)
    requires DistinctTaskIds(tasks) && |ledger| == |tasks| && forall k :: 0 <= k < |ledger| ==> ledger[k].taskId == Some(tasks[k].id)
    ensures ExecutorsFine(ledger, tasks)
       <==> forall k :: 0 <= k < |tasks| ==> ledger[k].executor == Some(ExecutorName(MapTaskExecutor(tasks[k].kind)))
  {
    forall k | 0 <= k < |tasks|
      ensures ExecutorFine(ledger, tasks[k]) <==> ledger[k].executor == Some(ExecutorName(MapTaskExecutor(tasks[k].kind)))
    {
      FindIsAt(ledger, k);
    }
  }

  lemma {:induction false} ReportIff(lines: seq<string>, phase: Phase)
    requires DistinctTaskIds(phase.tasks) && ParityLedger(lines).Some?
    ensures InParity(lines, phase) <==> AllFit(ParityLedger(lines).value, phase)
  {
    var ledger := ParityLedger(lines).value;
    assert OldKindsOnly(phase) <==> !UsesOrderedExecutors(phase);
    assert AllMarked(ledger) && SameQueue(ledger, phase.tasks) <==>
      |ledger| == |phase.tasks| && forall k :: 0 <= k < |ledger| ==> ledger[k].taskId == Some(phase.tasks[k].id);
    if AllMarked(ledger) && SameQueue(ledger, phase.tasks) {
      NamedItems(ledger, phase.tasks);
    }
  }

  /**
   * The report is empty exactly when a ledger title stands in the document and the checkboxes of its
   * section, in order, begin with the markers of the phase's tasks.
   */
  lemma {:induction false} ParityIff(lines: seq<string>, phase: Phase)
    requires DistinctTaskIds(phase.tasks)
    ensures InParity(lines, phase) <==> exists h: nat, e: nat, at: seq<nat> :: GoodLedger(lines, phase, h, e, at)
  {
    if InParity(lines, phase) {
      var h, e := SectionPlace(lines);
      var at := SectionRead(lines, h, e);
      ReportIff(lines, phase);
      forall k | 0 <= k < |at| ensures Projects(lines[at[k]], phase.tasks[k], !OldKindsOnly(phase)) {
        FitsIff(lines[at[k]], at[k], phase.tasks[k], !OldKindsOnly(phase));
      }
      assert GoodLedger(lines, phase, h, e, at);
    }
    if h: nat, e: nat, at: seq<nat> :| GoodLedger(lines, phase, h, e, at) {
      var read := SectionRead(lines, h, e);
      OneList(TickedLines(lines), h + 1, e, at, read);
      forall k | 0 <= k < |at| ensures ItemFits(ParityLedger(lines).value[k], phase.tasks[k], !OldKindsOnly(phase)) {
        FitsIff(lines[at[k]], at[k], phase.tasks[k], !OldKindsOnly(phase));
      }
      ReportIff(lines, phase);
    }
  }

  // ---------------------------------------------------------------------------
  // The queue
  // ---------------------------------------------------------------------------

  /** The headings after line g and before line q have no title and are deeper than level. */
  ghost predicate OnlyDeeper(lines: seq<string>, g: nat, q: nat, level: nat) {
    forall i, lv: nat, title: string :: g < i < q && i < |lines| && IsHeading(lines[i], lv, title) ==> title == "" && lv > level
  }

  /** Line g is a ledger heading of its level and governs line q. */
  ghost predicate HeadingOver(lines: seq<string>, g: nat, level: nat, q: nat) {
    && g < q <= |lines| && OnlyDeeper(lines, g, q, level)
    && exists title: string :: IsHeading(lines[g], level, title) && Spells(title, "phase task ledger")
  }

  ghost predicate UnderLedger(lines: seq<string>, q: nat) {
    exists g: nat, level: nat :: HeadingOver(lines, g, level, q)
  }

  /** The line is a checkbox of which text is kept. */
  ghost predicate Keeps(line: string, state: BoxState, text: string) {
    exists all: string :: IsCheckbox(line, state, all) && CutTo(all, text)
  }

  /** A checkbox under a ledger heading whose kept text first marks the task. */
  ghost predicate Asks(lines: seq<string>, q: nat, id: string) {
    q < |lines| && UnderLedger(lines, q) && exists state: BoxState, text: string :: Keeps(lines[q], state, text) && FirstMarks(text, id)
  }

  ghost predicate AsksLast(lines: seq<string>, q: nat, id: string) {
    Asks(lines, q, id) && forall later: nat :: q < later ==> !Asks(lines, later, id)
  }

  lemma {:induction false} KeepsIff(line: string, state: BoxState, text: string)
    ensures CutBox(line) == Some(Box(state, text)) <==> Keeps(line, state, text)
  {
    if CutBox(line) == Some(Box(state, text)) {
      CheckboxIff(line, state, BoxOf(line).value.text);
      CutIff(BoxOf(line).value.text, text);
    }
    if Keeps(line, state, text) {
      var all: string :| IsCheckbox(line, state, all) && CutTo(all, text);
      CheckboxIff(line, state, all);
      CutIff(all, text);
    }
  }

  lemma {:induction false} FoundIff(line: string, id: string)
    ensures FoundAt(line) == Some(id) <==> exists state: BoxState, text: string :: Keeps(line, state, text) && FirstMarks(text, id)
  {
    if CutBox(line).Some? {
      KeepsIff(line, CutBox(line).value.state, CutBox(line).value.text);
      FirstMarksIff(CutBox(line).value.text, id);
    }
    forall state: BoxState, text: string | Keeps(line, state, text) ensures CutBox(line) == Some(Box(state, text)) {
      KeepsIff(line, state, text);
    }
  }

  /** A line is one heading at most, read as it is written. */
  lemma {:induction false} HeadingRead(line: string, level: nat, title: string)
    ensures IsHeading(line, level, title) <==>
      HeadingOf(line).Some? && HeadingOf(line).value.level == level && HeadingOf(line).value.title == title
    ensures IsHeading(line, level, title) ==> (HeadingOf(line).value.ledger <==> Spells(title, "phase task ledger"))
  {
    HeadingIff(line, level, title);
    if HeadingOf(line).Some? && HeadingOf(line).value.level == level && HeadingOf(line).value.title == title {
      HeadingStands(line);
      LedgerTitleIff(title);
    }
  }

  lemma {:induction false} DeeperIff(lines: seq<string>, g: nat, q: nat, level: nat)
    requires q <= |lines|
    ensures OnlyDeeper(lines, g, q, level) <==>
      forall i :: g < i < q && HeadingOf(lines[i]).Some? ==> HeadingOf(lines[i]).value.title == "" && HeadingOf(lines[i]).value.level > level
  {
    forall i, lv: nat, title: string | g < i < q && IsHeading(lines[i], lv, title)
      ensures HeadingOf(lines[i]).Some? && HeadingOf(lines[i]).value.level == lv && HeadingOf(lines[i]).value.title == title
    {
      HeadingRead(lines[i], lv, title);
    }
    forall i | g < i < q && HeadingOf(lines[i]).Some?
      ensures IsHeading(lines[i], HeadingOf(lines[i]).value.level, HeadingOf(lines[i]).value.title)
    {
      HeadingStands(lines[i]);
    }
  }

  lemma {:induction false} OverIff(lines: seq<string>, g: nat, q: nat)
    requires q <= |lines|
    ensures GovernedBy(ViewOf(lines).headings, g, q) <==> exists level: nat :: HeadingOver(lines, g, level, q)
  {
    forall i | 0 <= i < |lines| ensures ViewOf(lines).headings[i] == HeadingOf(lines[i]) {
      ViewAt(lines, i);
    }
    if GovernedBy(ViewOf(lines).headings, g, q) {
      HeadingStands(lines[g]);
      HeadingRead(lines[g], HeadingOf(lines[g]).value.level, HeadingOf(lines[g]).value.title);
      DeeperIff(lines, g, q, HeadingOf(lines[g]).value.level);
      assert HeadingOver(lines, g, HeadingOf(lines[g]).value.level, q);
    }
    if level: nat :| HeadingOver(lines, g, level, q) {
      var title: string :| IsHeading(lines[g], level, title) && Spells(title, "phase task ledger");
      HeadingRead(lines[g], level, title);
      DeeperIff(lines, g, q, level);
    }
  }

  lemma {:induction false} UnderIff(lines: seq<string>, q: nat)
    requires q <= |lines|
    ensures Governed(ViewOf(lines).headings, q) <==> UnderLedger(lines, q)
  {
    if g: nat :| GovernedBy(ViewOf(lines).headings, g, q) {
      OverIff(lines, g, q);
    }
    if g: nat, level: nat :| HeadingOver(lines, g, level, q) {
      OverIff(lines, g, q);
    }
  }

  lemma {:induction false} AsksIff(lines: seq<string>, q: nat, id: string)
    ensures Claims(ViewOf(lines), q, id) <==> Asks(lines, q, id)
  {
    if q < |lines| {
      ViewAt(lines, q);
      FoundIff(lines[q], id);
      UnderIff(lines, q);
    }
  }

  /** The picked items are the ones found from a position on, in order; of says at which positions. */
  ghost predicate Picks(found: seq<Option<Item>>, from: nat, picked: seq<Item>, of: seq<nat>) {
    && |of| == |picked| && (forall j, k :: 0 <= j < k < |of| ==> of[j] < of[k])
    && (forall j :: 0 <= j < |of| ==> from <= of[j] < |found| && found[of[j]] == Some(picked[j]))
    && (forall k: nat :: from <= k < |found| && found[k].Some? ==> k in of)
  }

  lemma {:induction false} PicksNone(found: seq<Option<Item>>, from: nat, picked: seq<Item>, of: seq<nat>)
    requires from < |found| && Picks(found, from + 1, picked, of) && found[from].None?
    ensures Picks(found, from, picked, of)
  {
  }

  lemma {:induction false} PicksSome(found: seq<Option<Item>>, from: nat, picked: seq<Item>, of: seq<nat>)
    requires from < |found| && Picks(found, from + 1, picked, of) && found[from].Some?
    ensures Picks(found, from, [found[from].value] + picked, [from] + of)
  {
    forall k: nat | from <= k < |found| && found[k].Some? ensures k in [from] + of {
      assert k > from ==> k in of;
    }
  }

  ghost function FoundFor(items: seq<Item>, key: Item -> Option<string>, ids: seq<string>): (r: seq<Option<Item>>)
    ensures |r| == |ids| && forall k :: 0 <= k < |ids| ==> r[k] == LastItem(items, key, ids[k])
  {
    seq(|ids|, k requires 0 <= k < |ids| => LastItem(items, key, ids[k]))
  }

  lemma {:induction false} PicksInOrder(items: seq<Item>, key: Item -> Option<string>, ids: seq<string>, from: nat)
    returns (of: seq<nat>)
    requires from <= |ids|
    ensures Picks(FoundFor(items, key, ids), from, SelectDeclared(items, key, ids[from..]), of)
    decreases |ids| - from
  {
    of := [];
    if from < |ids| {
      var found, rest := FoundFor(items, key, ids), SelectDeclared(items, key, ids[from + 1..]);
      of := PicksInOrder(items, key, ids, from + 1);
      assert ids[from..][1..] == ids[from + 1..];
      if found[from].Some? {
        PicksSome(found, from, rest, of);
        of := [from] + of;
      } else {
        PicksNone(found, from, rest, of);
        assert [] + rest == rest;
      }
    }
  }

  /** A task's item is at the last line that asks for it, and there is none when no line does. */
  lemma {:induction false} ItemIsLast(lines: seq<string>, id: string)
    ensures var item := LastItem(Extracted(lines), KeyOf, id);
      if item.Some? then AsksLast(lines, item.value.line, id) && Keeps(lines[item.value.line], item.value.state, item.value.text)
      else forall q: nat :: !Asks(lines, q, id)
  {
    var v := ViewOf(lines);
    var item := LastItem(Extracted(lines), KeyOf, id);
    ViewIsValid(lines);
    forall q: nat ensures Claims(v, q, id) <==> Asks(lines, q, id) {
      AsksIff(lines, q, id);
    }
    if HasLedger(v) {
      LastClaim(v, id);
      if item.Some? {
        ViewAt(lines, item.value.line);
        KeepsIff(lines[item.value.line], item.value.state, item.value.text);
      }
    } else {
      assert forall q: nat :: !Governed(v.headings, q);
      if item.Some? {
        ItemsHaveLines(v, false, |lines|, item.value);
        NoLedgerSection(v, item.value.line);
      }
    }
  }

  /**
   * The queue holds, for the tasks that some checkbox under a ledger heading asks for and in the order
   * of the contract, the last checkbox that does, with its state and its kept text.
   */
  lemma {:induction false} QueueFollows(lines: seq<string>, phase: Phase) returns (of: seq<nat>)
    ensures var queue := Projection(lines, phase);
      && |of| == |queue| && (forall j, k :: 0 <= j < k < |of| ==> of[j] < of[k])
      && (forall j :: 0 <= j < |of| ==> of[j] < |phase.tasks| && AsksLast(lines, queue[j].line, phase.tasks[of[j]].id))
      && (forall j :: 0 <= j < |of| ==> queue[j].line < |lines| && Keeps(lines[queue[j].line], queue[j].state, queue[j].text))
      && (forall k: nat, q: nat :: k < |phase.tasks| && Asks(lines, q, phase.tasks[k].id) ==> k in of)
  {
    of := PicksInOrder(Extracted(lines), KeyOf, TaskIds(phase.tasks), 0);
    assert TaskIds(phase.tasks)[0..] == TaskIds(phase.tasks);
    forall k: nat | k < |phase.tasks|
      ensures var item := LastItem(Extracted(lines), KeyOf, phase.tasks[k].id);
        if item.Some?
        then AsksLast(lines, item.value.line, phase.tasks[k].id)
          && Keeps(lines[item.value.line], item.value.state, item.value.text)
        else forall q: nat :: !Asks(lines, q, phase.tasks[k].id)
    {
      ItemIsLast(lines, phase.tasks[k].id);
    }
  }
}
