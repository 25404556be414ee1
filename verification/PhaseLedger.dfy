module PhaseLedger {
  /**
   * The Markdown ledger of a phase document.  The parity test and the extractor each read the
   * document in their own way, and the queue that is worked on is the extractor's items projected
   * onto the declared task ids.
   */

  import opened Wrappers
  import opened Text
  import opened LedgerLines
  import opened ContractReading
  import opened PhaseContract
  import opened PhaseQueue
  import O = OrderedTasks

  // ---------------------------------------------------------------------------
  // The parity test
  // ---------------------------------------------------------------------------

  /** A checkbox of the ledger section, with the markers its text begins with. */
  datatype LedgerItem = LedgerItem(line: nat, taskId: Option<string>, executor: Option<string>)

  datatype ParityProblem = NoLedger | Unmarked(line: nat) | WrongQueue | WrongExecutor(taskId: string)

  const MISSING_ID := "<missing-contract-id>"

  /** A document as the parity test sees it, line by line. */
  datatype Page = Page(titles: seq<bool>, ends: seq<bool>, boxes: seq<Option<Marks>>)

  ghost predicate ValidPage(p: Page) {
    |p.titles| == |p.ends| == |p.boxes|
  }

  /** What f says of each line. */
  function EachLine<T>(f: string -> T, lines: seq<string>): (r: seq<T>)
    ensures |r| == |lines|
    decreases |lines|
  {
    if lines == [] then [] else EachLine(f, lines[..|lines| - 1]) + [f(lines[|lines| - 1])]
  }

  lemma {:induction false} EachLineAt<T>(f: string -> T, lines: seq<string>, i: nat)
    requires i < |lines|
    ensures EachLine(f, lines)[i] == f(lines[i])
    decreases |lines|
  {
    if i < |lines| - 1 {
      EachLineAt(f, lines[..|lines| - 1], i);
    }
  }

  function PageOf(lines: seq<string>): (p: Page)
    ensures ValidPage(p) && |p.titles| == |lines|
  {
    Page(EachLine(ParityTitle, lines), EachLine(SecondLevel, lines), EachLine(ParityMarks, lines))
  }

  lemma {:induction false} PageAt(lines: seq<string>, i: nat)
    requires i < |lines|
    ensures PageOf(lines).titles[i] == ParityTitle(lines[i])
    ensures PageOf(lines).ends[i] == SecondLevel(lines[i])
    ensures PageOf(lines).boxes[i] == ParityMarks(lines[i])
  {
    EachLineAt(ParityTitle, lines, i);
    EachLineAt(SecondLevel, lines, i);
    EachLineAt(ParityMarks, lines, i);
  }

  /** The first plain ledger heading, or the number of lines. */
  function FirstTitle(titles: seq<bool>): (h: nat)
    ensures h <= |titles|
    ensures forall i :: 0 <= i < h ==> !titles[i]
    ensures h < |titles| ==> titles[h]
    decreases |titles|
  {
    if titles == [] || titles[0] then 0 else FirstTitle(titles[1..]) + 1
  }

  function ItemOf(line: nat, marks: Marks): LedgerItem {
    LedgerItem(line, marks.taskId, marks.executor)
  }

  /** The items from line i on, up to the next second-level heading. */
  function SectionItems(p: Page, i: nat): seq<LedgerItem>
    requires ValidPage(p)
    decreases |p.ends| - i
  {
    if i >= |p.ends| || p.ends[i] then []
    else (if p.boxes[i].Some? then [ItemOf(i, p.boxes[i].value)] else []) + SectionItems(p, i + 1)
  }

  function LedgerOf(p: Page): Option<seq<LedgerItem>>
    requires ValidPage(p)
  {
    var h := FirstTitle(p.titles);
    if h == |p.titles| then None else Some(SectionItems(p, h + 1))
  }

  function ParityLedger(lines: seq<string>): Option<seq<LedgerItem>> {
    LedgerOf(PageOf(lines))
  }

  function ExecutorName(executor: O.Executor): string {
    match executor
    case Agent => "agent"
    case CodeReview => "code_review"
    case Verification => "verification"
    case GitCommit => "git_commit"
    case GitPush => "git_push"
  }

  predicate SameQueue(ledger: seq<LedgerItem>, tasks: seq<TaskEntry>) {
    |ledger| == |tasks| && forall i :: 0 <= i < |ledger| ==> ledger[i].taskId.GetOr(MISSING_ID) == tasks[i].id
  }

  function FindItem(ledger: seq<LedgerItem>, id: string): (r: Option<LedgerItem>)
    ensures r.Some? ==> r.value in ledger && r.value.taskId == Some(id)
    decreases |ledger|
  {
    if ledger == [] then None
    else if ledger[0].taskId == Some(id) then Some(ledger[0])
    else FindItem(ledger[1..], id)
  }

  ghost predicate AllMarked(ledger: seq<LedgerItem>) {
    forall i :: 0 <= i < |ledger| ==> ledger[i].taskId.Some?
  }

  predicate ExecutorFine(ledger: seq<LedgerItem>, task: TaskEntry) {
    var item := FindItem(ledger, task.id);
    item.Some? ==> item.value.executor == Some(ExecutorName(MapTaskExecutor(task.kind)))
  }

  ghost predicate ExecutorsFine(ledger: seq<LedgerItem>, tasks: seq<TaskEntry>) {
    forall i :: 0 <= i < |tasks| ==> ExecutorFine(ledger, tasks[i])
  }

  /** What an empty parity report says. */
  ghost predicate PageInParity(p: Page, phase: Phase)
    requires ValidPage(p)
  {
    && LedgerOf(p).Some?
    && AllMarked(LedgerOf(p).value)
    && SameQueue(LedgerOf(p).value, phase.tasks)
    && (UsesOrderedExecutors(phase) ==> ExecutorsFine(LedgerOf(p).value, phase.tasks))
  }

  ghost predicate InParity(lines: seq<string>, phase: Phase) {
    PageInParity(PageOf(lines), phase)
  }

  method ReadSection(p: Page, h: nat) returns (ledger: seq<LedgerItem>)
    requires ValidPage(p) && h < |p.ends|
    ensures ledger == SectionItems(p, h + 1)
  {
    ledger := [];
    var i := h + 1;
    while i < |p.ends| && !p.ends[i]
      invariant h < i <= |p.ends|
      invariant ledger + SectionItems(p, i) == SectionItems(p, h + 1)
    {
      ghost var rest := SectionItems(p, i + 1);
      if p.boxes[i].Some? {
        var item := ItemOf(i, p.boxes[i].value);
        assert ledger + ([item] + rest) == (ledger + [item]) + rest;
        ledger := ledger + [item];
      } else {
        assert [] + rest == rest;
      }
      i := i + 1;
    }
  }

  /** What the report says of a ledger. */
  ghost predicate Reports(ledger: Option<seq<LedgerItem>>, phase: Phase, problem: ParityProblem) {
    match problem
    case NoLedger => ledger.None?
    case Unmarked(line) => ledger.Some? && ReportsUnmarked(ledger.value, problem)
    case WrongQueue => ledger.Some? && !SameQueue(ledger.value, phase.tasks)
    case WrongExecutor(_) => ledger.Some? && UsesOrderedExecutors(phase) && ReportsExecutor(ledger.value, phase.tasks, problem)
  }

  ghost predicate ReportsUnmarked(ledger: seq<LedgerItem>, problem: ParityProblem) {
    exists i :: 0 <= i < |ledger| && ledger[i].taskId.None? && problem == Unmarked(ledger[i].line)
  }

  ghost predicate ReportsExecutor(ledger: seq<LedgerItem>, tasks: seq<TaskEntry>, problem: ParityProblem) {
    exists i :: 0 <= i < |tasks| && !ExecutorFine(ledger, tasks[i]) && problem == WrongExecutor(tasks[i].id)
  }

  method FindUnmarked(ledger: seq<LedgerItem>) returns (problems: seq<ParityProblem>)
    ensures problems == [] <==> AllMarked(ledger)
    ensures forall problem :: problem in problems <==> ReportsUnmarked(ledger, problem)
  {
    problems := [];
    var i: nat := 0;
    while i < |ledger|
      invariant i <= |ledger|
      invariant problems == [] <==> forall j :: 0 <= j < i ==> ledger[j].taskId.Some?
      invariant forall problem :: problem in problems <==> ReportsUnmarked(ledger[..i], problem)
    {
      if ledger[i].taskId == None {
        problems := problems + [Unmarked(ledger[i].line)];
      }
      i := i + 1;
    }
  }

  method FindWrongExecutors(ledger: seq<LedgerItem>, tasks: seq<TaskEntry>) returns (problems: seq<ParityProblem>)
    ensures problems == [] <==> ExecutorsFine(ledger, tasks)
    ensures forall problem :: problem in problems <==> ReportsExecutor(ledger, tasks, problem)
  {
    problems := [];
    var i: nat := 0;
    while i < |tasks|
      invariant i <= |tasks|
      invariant problems == [] <==> forall t :: 0 <= t < i ==> ExecutorFine(ledger, tasks[t])
      invariant forall problem :: problem in problems <==> ReportsExecutor(ledger, tasks[..i], problem)
    {
      var fine := ExecutorFine(ledger, tasks[i]);
      if !fine {
        problems := problems + [WrongExecutor(tasks[i].id)];
      }
      i := i + 1;
    }
  }

  method ValidatePage(p: Page, phase: Phase) returns (problems: seq<ParityProblem>)
    requires ValidPage(p)
    ensures problems == [] <==> PageInParity(p, phase)
    ensures forall problem :: problem in problems <==> Reports(LedgerOf(p), phase, problem)
  {
    var h := FirstTitle(p.titles);
    if h == |p.titles| {
      return [NoLedger];
    }
    var ledger := ReadSection(p, h);
    problems := FindUnmarked(ledger);
    if !SameQueue(ledger, phase.tasks) {
      problems := problems + [WrongQueue];
    }
    if UsesOrderedExecutors(phase) {
      var wrong := FindWrongExecutors(ledger, phase.tasks);
      problems := problems + wrong;
    }
  }

  method ValidateLedgerParity(lines: seq<string>, phase: Phase) returns (problems: seq<ParityProblem>)
    ensures problems == [] <==> InParity(lines, phase)
    ensures forall problem :: problem in problems <==> Reports(ParityLedger(lines), phase, problem)
  {
    problems := ValidatePage(PageOf(lines), phase);
  }

  // ---------------------------------------------------------------------------
  // The extractor
  // ---------------------------------------------------------------------------

  /** A document as the extractor sees it, line by line. */
  datatype View = View(headings: seq<Option<Heading>>, boxes: seq<Option<Box>>, ids: seq<Option<string>>)

  function Found(box: Option<Box>): Option<string> {
    if box.Some? then FirstMarker(box.value.text) else None
  }

  ghost predicate ValidHeading(heading: Heading) {
    && (heading.ledger <==> LedgerSection(heading.title))
    && (heading.ledger ==> heading.title != "")
  }

  ghost predicate ValidView(v: View) {
    && |v.headings| == |v.boxes| == |v.ids|
    && (forall i :: 0 <= i < |v.headings| && v.headings[i].Some? ==> ValidHeading(v.headings[i].value) && v.boxes[i].None?)
    && (forall i :: 0 <= i < |v.headings| ==> v.ids[i] == Found(v.boxes[i]))
  }

  function ViewOf(lines: seq<string>): (v: View)
    ensures |v.headings| == |lines| && |v.boxes| == |lines| && |v.ids| == |lines|
  {
    View(EachLine(HeadingOf, lines), EachLine(CutBox, lines), EachLine(FoundAt, lines))
  }

  lemma {:induction false} ViewAt(lines: seq<string>, i: nat)
    requires i < |lines|
    ensures ViewOf(lines).headings[i] == HeadingOf(lines[i])
    ensures ViewOf(lines).boxes[i] == CutBox(lines[i])
    ensures ViewOf(lines).ids[i] == FoundAt(lines[i])
  {
    EachLineAt(HeadingOf, lines, i);
    EachLineAt(CutBox, lines, i);
    EachLineAt(FoundAt, lines, i);
  }

  datatype Item = Item(line: nat, section: string, state: BoxState, text: string)

  /** Where the extractor stands: the current section, and whether it is inside an explicit ledger. */
  datatype Scan = Scan(section: string, inside: bool, level: nat)

  predicate Titled(heading: Option<Heading>) {
    heading.Some? && heading.value.ledger
  }

  predicate HasLedger(v: View) {
    exists i :: 0 <= i < |v.headings| && Titled(v.headings[i])
  }

  function AfterHeading(explicit: bool, scan: Scan, heading: Heading): Scan {
    var section := if heading.title == "" then scan.section else heading.title;
    if explicit && heading.ledger then Scan(section, true, heading.level)
    else if explicit && scan.inside && heading.level <= scan.level then Scan(section, false, scan.level)
    else Scan(section, scan.inside, scan.level)
  }

  function AfterLine(explicit: bool, scan: Scan, heading: Option<Heading>): Scan {
    if heading.Some? then AfterHeading(explicit, scan, heading.value) else scan
  }

  /** After the first n lines. */
  function ScanOf(v: View, explicit: bool, n: nat): Scan
    requires n <= |v.headings|
    decreases n
  {
    if n == 0 then Scan("Document", !explicit, 0)
    else AfterLine(explicit, ScanOf(v, explicit, n - 1), v.headings[n - 1])
  }

  /** What a line adds. */
  function BoxItem(heading: Option<Heading>, box: Option<Box>, line: nat, scan: Scan): (r: Option<Item>)
    ensures r.Some? ==> r.value.line == line && box.Some? && r.value.state == box.value.state
  {
    if heading.Some? || !scan.inside || box.None? then None
    else Some(Item(line, scan.section, box.value.state, box.value.text))
  }

  function ItemAt(v: View, explicit: bool, n: nat): (r: Option<Item>)
    requires n < |v.headings| == |v.boxes|
    ensures r.Some? ==> r.value.line == n && v.boxes[n].Some? && r.value.state == v.boxes[n].value.state
  {
    BoxItem(v.headings[n], v.boxes[n], n, ScanOf(v, explicit, n))
  }

  function SomeOf(item: Option<Item>): seq<Item> {
    if item.Some? then [item.value] else []
  }

  function Items(v: View, explicit: bool, n: nat): seq<Item>
    requires n <= |v.headings| == |v.boxes|
    decreases n
  {
    if n == 0 then [] else Items(v, explicit, n - 1) + SomeOf(ItemAt(v, explicit, n - 1))
  }

  function AllItems(v: View): seq<Item>
    requires |v.headings| == |v.boxes|
  {
    Items(v, HasLedger(v), |v.headings|)
  }

  function Extracted(lines: seq<string>): seq<Item> {
    AllItems(ViewOf(lines))
  }

  method ExtractItems(v: View, hasExplicitLedger: bool) returns (items: seq<Item>)
    requires |v.headings| == |v.boxes|
    ensures items == Items(v, hasExplicitLedger, |v.headings|)
  {
    items := [];
    var scan := Scan("Document", !hasExplicitLedger, 0);
    var i := 0;
    while i < |v.headings|
      invariant 0 <= i <= |v.headings|
      invariant items == Items(v, hasExplicitLedger, i)
      invariant scan == ScanOf(v, hasExplicitLedger, i)
    {
      var item := BoxItem(v.headings[i], v.boxes[i], i, scan);
      items := items + SomeOf(item);
      scan := EnterLine(hasExplicitLedger, scan, v.headings[i]);
      i := i + 1;
    }
  }

  method ExtractPhaseTaskLedger(lines: seq<string>) returns (items: seq<Item>)
    ensures items == Extracted(lines)
  {
    var v := ViewOf(lines);
    items := ExtractItems(v, HasLedger(v));
  }

  method EnterLine(hasExplicitLedger: bool, before: Scan, heading: Option<Heading>) returns (scan: Scan)
    ensures scan == AfterLine(hasExplicitLedger, before, heading)
  {
    scan := before;
    if heading.Some? {
      if hasExplicitLedger && heading.value.ledger {
        scan := scan.(inside := true, level := heading.value.level);
      } else if hasExplicitLedger && scan.inside && heading.value.level <= scan.level {
        scan := scan.(inside := false);
      }
      if heading.value.title != "" {
        scan := scan.(section := heading.value.title);
      }
    }
  }

  // ---------------------------------------------------------------------------
  // The projection onto the declared tasks
  // ---------------------------------------------------------------------------

  predicate LedgerSection(section: string) {
    Lower(Trim(section)) == LEDGER_TITLE
  }

  /** The task id under which a ledger item enters the Map. */
  function KeyOf(item: Item): Option<string> {
    if LedgerSection(item.section) then FirstMarker(item.text) else None
  }

  /** The last item with a key, as a Map built in order keeps it. */
  function LastItem(items: seq<Item>, key: Item -> Option<string>, id: string): (r: Option<Item>)
    ensures r.Some? ==> r.value in items && key(r.value) == Some(id)
    decreases |items|
  {
    if items == [] then None
    else
      var last := items[|items| - 1];
      if key(last) == Some(id) then Some(last) else LastItem(items[..|items| - 1], key, id)
  }

  function SelectDeclared(items: seq<Item>, key: Item -> Option<string>, ids: seq<string>): (r: seq<Item>)
    ensures |r| <= |ids|
    decreases |ids|
  {
    if ids == [] then []
    else
      var item := LastItem(items, key, ids[0]);
      (if item.Some? then [item.value] else []) + SelectDeclared(items, key, ids[1..])
  }

  function TaskIds(tasks: seq<TaskEntry>): (r: seq<string>)
    ensures |r| == |tasks| && forall i :: 0 <= i < |tasks| ==> r[i] == tasks[i].id
  {
    seq(|tasks|, i requires 0 <= i < |tasks| => tasks[i].id)
  }

  /** The queue that is worked on, for a phase whose tasks are ordered. */
  function Projection(lines: seq<string>, phase: Phase): seq<Item> {
    SelectDeclared(Extracted(lines), KeyOf, TaskIds(phase.tasks))
  }

  /** Err stands for the ledger mismatch error. */
  method ReadPhaseTaskLedgerItems(lines: seq<string>, phase: Option<Phase>) returns (r: Result<seq<Item>, seq<ParityProblem>>)
    ensures phase.None? || !UsesOrderedExecutors(phase.value) ==> r == Ok(Extracted(lines))
    ensures phase.Some? && UsesOrderedExecutors(phase.value) ==>
      && (r.Ok? <==> InParity(lines, phase.value))
      && (r.Ok? ==> r.value == Projection(lines, phase.value))
      && (r.Err? ==> forall problem :: problem in r.error <==> Reports(ParityLedger(lines), phase.value, problem))
  {
    var items := ExtractPhaseTaskLedger(lines);
    if phase.None? || !UsesOrderedExecutors(phase.value) {
      return Ok(items);
    }
    var problems := ValidateLedgerParity(lines, phase.value);
    if problems != [] {
      return Err(problems);
    }
    r := Ok(SelectDeclared(items, KeyOf, TaskIds(phase.value.tasks)));
  }

  // ---------------------------------------------------------------------------
  // What governs a line
  // ---------------------------------------------------------------------------

  /** Line g is a ledger heading, and the headings between it and line n are untitled and deeper. */
  ghost predicate GovernedBy(headings: seq<Option<Heading>>, g: nat, n: nat) {
    && g < n <= |headings| && Titled(headings[g])
    && forall i :: g < i < n && headings[i].Some? ==>
         headings[i].value.title == "" && headings[i].value.level > headings[g].value.level
  }

  ghost predicate Governed(headings: seq<Option<Heading>>, n: nat) {
    exists g: nat :: GovernedBy(headings, g, n)
  }

  lemma {:induction false} NoHeadingGoverns(headings: seq<Option<Heading>>, n: nat)
    requires 0 < n <= |headings| && headings[n - 1].None?
    ensures forall g: nat :: GovernedBy(headings, g, n) <==> GovernedBy(headings, g, n - 1)
    ensures Governed(headings, n) <==> Governed(headings, n - 1)
  {
    forall g: nat ensures GovernedBy(headings, g, n) <==> GovernedBy(headings, g, n - 1) {
    }
    if Governed(headings, n - 1) {
      var g: nat :| GovernedBy(headings, g, n - 1);
      assert GovernedBy(headings, g, n);
    }
  }

  lemma {:induction false} LedgerHeadingGoverns(headings: seq<Option<Heading>>, n: nat)
    requires 0 < n <= |headings| && Titled(headings[n - 1]) && headings[n - 1].value.title != ""
    ensures Governed(headings, n)
    ensures forall g: nat :: GovernedBy(headings, g, n) ==> g == n - 1
  {
    assert GovernedBy(headings, n - 1, n);
  }

  lemma {:induction false} OtherHeadingGoverns(headings: seq<Option<Heading>>, n: nat)
    requires 0 < n <= |headings| && headings[n - 1].Some? && !Titled(headings[n - 1])
    ensures forall g: nat :: GovernedBy(headings, g, n) <==>
      GovernedBy(headings, g, n - 1) && headings[n - 1].value.title == ""
      && headings[n - 1].value.level > headings[g].value.level
  {
  }

  /** The extractor's state after n lines: in a ledger section exactly when one governs line n. */
  ghost predicate Tracks(scan: Scan, headings: seq<Option<Heading>>, n: nat) {
    && (scan.inside && LedgerSection(scan.section) <==> Governed(headings, n))
    && (forall g: nat :: GovernedBy(headings, g, n) ==> scan.level == headings[g].value.level)
  }

  lemma {:induction false} HeadingTracks(scan: Scan, headings: seq<Option<Heading>>, n: nat)
    requires 0 < n <= |headings| && headings[n - 1].Some? && Tracks(scan, headings, n - 1)
    requires ValidHeading(headings[n - 1].value)
    ensures Tracks(AfterHeading(true, scan, headings[n - 1].value), headings, n)
  {
    var heading := headings[n - 1].value;
    if Titled(headings[n - 1]) {
      LedgerHeadingGoverns(headings, n);
    } else {
      OtherHeadingGoverns(headings, n);
      if Governed(headings, n - 1) {
        var g: nat :| GovernedBy(headings, g, n - 1);
        assert heading.title == "" && heading.level > scan.level ==> GovernedBy(headings, g, n);
      }
    }
  }

  lemma {:induction false} LineTracks(scan: Scan, headings: seq<Option<Heading>>, n: nat)
    requires 0 < n <= |headings| && Tracks(scan, headings, n - 1)
    requires headings[n - 1].Some? ==> ValidHeading(headings[n - 1].value)
    ensures Tracks(AfterLine(true, scan, headings[n - 1]), headings, n)
  {
    if headings[n - 1].Some? {
      HeadingTracks(scan, headings, n);
    } else {
      NoHeadingGoverns(headings, n);
    }
  }

  /** The extractor reads ledger items at exactly the governed lines. */
  lemma {:induction false} ScanTracks(v: View, n: nat)
    requires ValidView(v) && n <= |v.headings|
    ensures Tracks(ScanOf(v, true, n), v.headings, n)
    decreases n
  {
    if n > 0 {
      ScanTracks(v, n - 1);
      LineTracks(ScanOf(v, true, n - 1), v.headings, n);
    }
  }

  /** Line q gives the selector an item with this task id. */
  ghost predicate Claims(v: View, q: nat, id: string) {
    q < |v.ids| && Governed(v.headings, q) && v.ids[q] == Some(id)
  }

  ghost predicate Claiming(item: Option<Item>, key: Item -> Option<string>, id: string) {
    item.Some? && key(item.value) == Some(id)
  }

  lemma {:induction false} ClaimIsItem(v: View, q: nat, id: string)
    requires ValidView(v) && q < |v.headings|
    ensures Claims(v, q, id) <==> Claiming(ItemAt(v, true, q), KeyOf, id)
  {
    ScanTracks(v, q);
  }

  lemma {:induction false} LastOfAppend(items: seq<Item>, item: Item, key: Item -> Option<string>, id: string)
    ensures LastItem(items + [item], key, id)
         == if Claiming(Some(item), key, id) then Some(item) else LastItem(items, key, id)
  {
    assert (items + [item])[..|items|] == items;
  }

  function LineItems(v: View, explicit: bool, n: nat): (r: seq<Option<Item>>)
    requires n <= |v.headings| == |v.boxes|
    ensures |r| == n
    decreases n
  {
    if n == 0 then [] else LineItems(v, explicit, n - 1) + [ItemAt(v, explicit, n - 1)]
  }

  function Somes(found: seq<Option<Item>>): seq<Item>
    decreases |found|
  {
    if found == [] then [] else Somes(found[..|found| - 1]) + SomeOf(found[|found| - 1])
  }

  lemma {:induction false} ItemsAreSomes(v: View, explicit: bool, n: nat)
    requires n <= |v.headings| == |v.boxes|
    ensures Items(v, explicit, n) == Somes(LineItems(v, explicit, n))
    decreases n
  {
    if n > 0 {
      var before := LineItems(v, explicit, n - 1);
      ItemsAreSomes(v, explicit, n - 1);
      assert (before + [ItemAt(v, explicit, n - 1)])[..n - 1] == before;
    }
  }

  /** r is the item of the last claiming line. */
  ghost predicate IsLast(found: seq<Option<Item>>, claims: nat -> bool, r: Option<Item>) {
    && (r.Some? ==> r.value.line < |found| && claims(r.value.line) && r == found[r.value.line]
                    && forall q: nat :: r.value.line < q < |found| ==> !claims(q))
    && (r.None? ==> forall q: nat :: 0 <= q < |found| ==> !claims(q))
  }

  ghost predicate AtOwnLines(found: seq<Option<Item>>) {
    forall i :: 0 <= i < |found| && found[i].Some? ==> found[i].value.line == i
  }

  lemma {:induction false} IsLastStep(found: seq<Option<Item>>, claims: nat -> bool, r: Option<Item>)
    requires found != [] && AtOwnLines(found) && IsLast(found[..|found| - 1], claims, r)
    requires claims(|found| - 1) ==> found[|found| - 1].Some?
    ensures IsLast(found, claims, if claims(|found| - 1) then found[|found| - 1] else r)
  {
  }

  lemma {:induction false} LastOfSomes(found: seq<Option<Item>>, key: Item -> Option<string>, id: string)
    requires found != []
    ensures var item := found[|found| - 1];
      LastItem(Somes(found), key, id)
        == if Claiming(item, key, id) then item else LastItem(Somes(found[..|found| - 1]), key, id)
  {
    var before, item := found[..|found| - 1], found[|found| - 1];
    if item.Some? {
      LastOfAppend(Somes(before), item.value, key, id);
    } else {
      assert Somes(before) + [] == Somes(before);
    }
  }

  lemma {:induction false} LastClaiming(found: seq<Option<Item>>, key: Item -> Option<string>, id: string, claims: nat -> bool)
    requires AtOwnLines(found)
    requires forall q: nat :: q < |found| ==> (claims(q) <==> Claiming(found[q], key, id))
    ensures IsLast(found, claims, LastItem(Somes(found), key, id))
    decreases |found|
  {
    if found != [] {
      var before := found[..|found| - 1];
      assert forall q: nat :: q < |before| ==> before[q] == found[q];
      LastClaiming(before, key, id, claims);
      LastOfSomes(found, key, id);
      assert claims(|found| - 1) <==> Claiming(found[|found| - 1], key, id);
      IsLastStep(found, claims, LastItem(Somes(before), key, id));
    }
  }

  lemma {:induction false} LineItemsAt(v: View, explicit: bool, n: nat, i: nat)
    requires i < n <= |v.headings| == |v.boxes|
    ensures LineItems(v, explicit, n)[i] == ItemAt(v, explicit, i)
    decreases n
  {
    if i < n - 1 {
      LineItemsAt(v, explicit, n - 1, i);
    }
  }

  /** r is the item of the last line that claims the id. */
  ghost predicate LastClaimed(v: View, id: string, r: Option<Item>)
    requires |v.headings| == |v.boxes|
  {
    && (r.Some? ==> r.value.line < |v.boxes| && Claims(v, r.value.line, id) && r == ItemAt(v, true, r.value.line)
                    && forall q: nat :: r.value.line < q < |v.boxes| ==> !Claims(v, q, id))
    && (r.None? ==> forall q: nat :: q < |v.boxes| ==> !Claims(v, q, id))
  }

  /** The selector keeps the last line that claims an id. */
  lemma {:induction false} LastClaim(v: View, id: string)
    requires ValidView(v) && HasLedger(v)
    ensures LastClaimed(v, id, LastItem(AllItems(v), KeyOf, id))
  {
    var found := LineItems(v, true, |v.headings|);
    ItemsAreSomes(v, true, |v.headings|);
    var claims := (q: nat) => Claims(v, q, id);
    forall q: nat | q < |found|
      ensures found[q] == ItemAt(v, true, q) && (claims(q) <==> Claiming(found[q], KeyOf, id))
    {
      LineItemsAt(v, true, |v.headings|, q);
      ClaimIsItem(v, q, id);
    }
    LastClaiming(found, KeyOf, id, claims);
    LastMeans(v, id, found, claims, LastItem(AllItems(v), KeyOf, id));
  }

  lemma {:induction false} LastMeans(v: View, id: string, found: seq<Option<Item>>, claims: nat -> bool, r: Option<Item>)
    requires |found| == |v.headings| == |v.boxes| && IsLast(found, claims, r)
    requires forall q: nat :: q < |found| ==> found[q] == ItemAt(v, true, q)
    requires claims == ((q: nat) => Claims(v, q, id))
    ensures LastClaimed(v, id, r)
  {
    forall q: nat ensures claims(q) <==> Claims(v, q, id) {
    }
  }

  // ---------------------------------------------------------------------------
  // When the projection is the ledger
  // ---------------------------------------------------------------------------

  lemma {:induction false} ViewIsValid(lines: seq<string>)
    ensures ValidView(ViewOf(lines))
  {
    var v := ViewOf(lines);
    forall i | 0 <= i < |lines| && v.headings[i].Some? ensures ValidHeading(v.headings[i].value) && v.boxes[i].None? {
      ViewAt(lines, i);
      TitleTrimmed(lines[i]);
      HeadingIsNoBox(lines[i]);
    }
    forall i | 0 <= i < |lines| ensures v.ids[i] == Found(v.boxes[i]) {
      ViewAt(lines, i);
    }
  }

  lemma {:induction false} TitleTrimmed(line: string)
    requires HeadingOf(line).Some?
    ensures Trim(HeadingOf(line).value.title) == HeadingOf(line).value.title
  {
    var t := TrimStart(line);
    CleanTrimmed(Trim(t[Hashes(t)..]));
  }

  lemma {:induction false} CleanTrimmed(s: string)
    ensures Trim(Clean(s)) == Clean(s)
  {
    TrimTrimmed(Collapsed(Stripped(s)));
    TrimTrimmed(Clean(s));
  }

  /** The items of the parity test stand in their section, in order, each at a checkbox it reads. */
  ghost predicate InSection(p: Page, i: nat, ledger: seq<LedgerItem>)
    requires ValidPage(p)
  {
    && (forall k :: 0 <= k < |ledger| ==>
          && i <= ledger[k].line < |p.boxes|
          && p.boxes[ledger[k].line].Some?
          && ledger[k].taskId == p.boxes[ledger[k].line].value.taskId)
    && (forall j, k :: 0 <= j < k < |ledger| ==> ledger[j].line < ledger[k].line)
  }

  lemma {:induction false} InSectionCons(p: Page, i: nat, item: LedgerItem, rest: seq<LedgerItem>)
    requires ValidPage(p) && i < |p.boxes| && InSection(p, i + 1, rest)
    requires item.line == i && p.boxes[i].Some? && item.taskId == p.boxes[i].value.taskId
    ensures InSection(p, i, [item] + rest)
  {
  }

  lemma {:induction false} InSectionEarlier(p: Page, i: nat, ledger: seq<LedgerItem>)
    requires ValidPage(p) && InSection(p, i + 1, ledger)
    ensures InSection(p, i, ledger)
  {
  }

  lemma {:induction false} SectionItemsStand(p: Page, i: nat)
    requires ValidPage(p)
    ensures InSection(p, i, SectionItems(p, i))
    decreases |p.ends| - i
  {
    if i < |p.ends| && !p.ends[i] {
      var rest := SectionItems(p, i + 1);
      SectionItemsStand(p, i + 1);
      if p.boxes[i].Some? {
        InSectionCons(p, i, ItemOf(i, p.boxes[i].value), rest);
      } else {
        InSectionEarlier(p, i, rest);
        assert [] + rest == rest;
      }
    } else {
      assert SectionItems(p, i) == [];
    }
  }

  /**
   * What an item of the ledger needs to reach the queue: a ledger heading that governs it, with
   * nothing but deeper untitled headings in between, a marker the text limit does not cut off, and
   * no later checkbox under a ledger heading with the same task id.
   */
  ghost predicate Kept(lines: seq<string>, item: LedgerItem)
    requires item.line < |lines| && item.taskId.Some?
  {
    var v := ViewOf(lines);
    && Governed(v.headings, item.line)
    && MarkerFits(lines[item.line], item.taskId.value)
    && forall q: nat :: item.line < q < |lines| ==> !Claims(v, q, item.taskId.value)
  }

  ghost predicate AllKept(lines: seq<string>, ledger: seq<LedgerItem>)
    requires forall k :: 0 <= k < |ledger| ==> ledger[k].line < |lines| && ledger[k].taskId.Some?
  {
    forall k :: 0 <= k < |ledger| ==> Kept(lines, ledger[k])
  }

  /** The projected items are the ledger's, line by line. */
  ghost predicate SameLines(items: seq<Item>, ledger: seq<LedgerItem>) {
    |items| == |ledger| && forall k :: 0 <= k < |items| ==> items[k].line == ledger[k].line
  }

  /** Item k of the ledger is a checkbox line of the document, carrying its marker. */
  ghost predicate StandsAt(lines: seq<string>, item: LedgerItem) {
    item.line < |lines| && ParityMarks(lines[item.line]).Some? && item.taskId == ParityMarks(lines[item.line]).value.taskId
  }

  ghost predicate SelectedAt(items: seq<Item>, key: Item -> Option<string>, id: string, line: nat) {
    LastItem(items, key, id).Some? && LastItem(items, key, id).value.line == line
  }

  lemma {:induction false} KeptIff(lines: seq<string>, item: LedgerItem)
    requires HasLedger(ViewOf(lines)) && StandsAt(lines, item) && item.taskId.Some?
    ensures Kept(lines, item) <==> SelectedAt(Extracted(lines), KeyOf, item.taskId.value, item.line)
  {
    var v, id := ViewOf(lines), item.taskId.value;
    ViewIsValid(lines);
    LastClaim(v, id);
    ClaimsWhenFits(lines, item);
    KeptIsLast(v, item.line, id, LastItem(Extracted(lines), KeyOf, id));
  }

  lemma {:induction false} ClaimsWhenFits(lines: seq<string>, item: LedgerItem)
    requires StandsAt(lines, item) && item.taskId.Some?
    ensures Claims(ViewOf(lines), item.line, item.taskId.value)
       <==> Governed(ViewOf(lines).headings, item.line) && MarkerFits(lines[item.line], item.taskId.value)
  {
    ViewAt(lines, item.line);
    MarkerFoundIff(lines[item.line]);
  }

  lemma {:induction false} KeptIsLast(v: View, line: nat, id: string, r: Option<Item>)
    requires line < |v.headings| == |v.boxes| && LastClaimed(v, id, r)
    ensures r.Some? && r.value.line == line
       <==> Claims(v, line, id) && forall q: nat :: line < q < |v.boxes| ==> !Claims(v, q, id)
  {
  }

  lemma {:induction false} SelectsAll(items: seq<Item>, key: Item -> Option<string>, ids: seq<string>)
    ensures |SelectDeclared(items, key, ids)| == |ids|
       <==> forall k :: 0 <= k < |ids| ==> LastItem(items, key, ids[k]).Some?
    ensures |SelectDeclared(items, key, ids)| == |ids| ==>
      forall k :: 0 <= k < |ids| ==> Some(SelectDeclared(items, key, ids)[k]) == LastItem(items, key, ids[k])
    decreases |ids|
  {
    if ids != [] {
      SelectsAll(items, key, ids[1..]);
      assert ids == [ids[0]] + ids[1..];
    }
  }

  lemma {:induction false} LedgerStands(lines: seq<string>)
    requires ParityLedger(lines).Some?
    ensures HasLedger(ViewOf(lines))
    ensures forall k :: 0 <= k < |ParityLedger(lines).value| ==> StandsAt(lines, ParityLedger(lines).value[k])
  {
    var page, ledger := PageOf(lines), ParityLedger(lines).value;
    var h := FirstTitle(page.titles);
    PageAt(lines, h);
    ViewAt(lines, h);
    ParityTitleIsLedger(lines[h]);
    assert Titled(ViewOf(lines).headings[h]);
    SectionItemsStand(page, h + 1);
    forall k | 0 <= k < |ledger| ensures StandsAt(lines, ledger[k]) {
      PageAt(lines, ledger[k].line);
    }
  }

  lemma {:induction false} SelectedLines(items: seq<Item>, key: Item -> Option<string>, ids: seq<string>, ledger: seq<LedgerItem>)
    requires |ids| == |ledger|
    ensures SameLines(SelectDeclared(items, key, ids), ledger)
       <==> forall k :: 0 <= k < |ids| ==> SelectedAt(items, key, ids[k], ledger[k].line)
  {
    SelectsAll(items, key, ids);
  }

  /**
   * After an empty parity report, the queue holds the ledger's items in document order exactly when
   * every one of them is kept.
   */
  lemma {:induction false} ProjectionIsLedgerIff(lines: seq<string>, phase: Phase)
    requires InParity(lines, phase)
    ensures forall k :: 0 <= k < |ParityLedger(lines).value| ==>
      ParityLedger(lines).value[k].line < |lines| && ParityLedger(lines).value[k].taskId.Some?
    ensures SameLines(Projection(lines, phase), ParityLedger(lines).value) <==> AllKept(lines, ParityLedger(lines).value)
  {
    var ledger, ids := ParityLedger(lines).value, TaskIds(phase.tasks);
    LedgerStands(lines);
    SelectedLines(Extracted(lines), KeyOf, ids, ledger);
    forall k | 0 <= k < |ledger|
      ensures Kept(lines, ledger[k]) <==> SelectedAt(Extracted(lines), KeyOf, ids[k], ledger[k].line)
    {
      assert StandsAt(lines, ledger[k]);
      KeptIff(lines, ledger[k]);
    }
  }

  lemma {:induction false} SelectedComesFrom(items: seq<Item>, key: Item -> Option<string>, ids: seq<string>, item: Item)
    requires item in SelectDeclared(items, key, ids)
    ensures exists id :: id in ids && LastItem(items, key, id) == Some(item)
    decreases |ids|
  {
    if LastItem(items, key, ids[0]) == Some(item) {
      assert ids[0] in ids;
    } else {
      SelectedComesFrom(items, key, ids[1..], item);
      var id :| id in ids[1..] && LastItem(items, key, id) == Some(item);
      assert id in ids;
    }
  }

  lemma {:induction false} DocumentIsNoLedger()
    ensures !LedgerSection("Document")
  {
    TrimShortens("Document");
    assert |"Document"| == 8 && |LEDGER_TITLE| == 17;
  }

  lemma {:induction false} TrimShortens(s: string)
    ensures |Trim(s)| <= |s|
  {
    TrimStartSpec(s);
    TrimEndSpec(TrimStart(s));
  }

  /** Without a ledger heading no section is a ledger. */
  lemma {:induction false} NoLedgerSection(v: View, n: nat)
    requires ValidView(v) && !HasLedger(v) && n <= |v.headings|
    ensures !LedgerSection(ScanOf(v, false, n).section)
    decreases n
  {
    if n > 0 {
      NoLedgerSection(v, n - 1);
      assert !Titled(v.headings[n - 1]);
    } else {
      DocumentIsNoLedger();
    }
  }

  lemma {:induction false} ItemsHaveLines(v: View, explicit: bool, n: nat, item: Item)
    requires n <= |v.headings| == |v.boxes| && item in Items(v, explicit, n)
    ensures item.line < n && ItemAt(v, explicit, item.line) == Some(item)
    decreases n
  {
    if item !in SomeOf(ItemAt(v, explicit, n - 1)) {
      ItemsHaveLines(v, explicit, n - 1, item);
    }
  }

  /** Only checkboxes under a ledger heading become work, and only for declared tasks. */
  lemma {:induction false} OnlyLedgerSelected(lines: seq<string>, phase: Phase, item: Item)
    requires item in Projection(lines, phase)
    ensures item.line < |lines| && Governed(ViewOf(lines).headings, item.line)
    ensures exists id :: id in TaskIds(phase.tasks) && FoundAt(lines[item.line]) == Some(id)
  {
    var v := ViewOf(lines);
    SelectedComesFrom(Extracted(lines), KeyOf, TaskIds(phase.tasks), item);
    var id :| id in TaskIds(phase.tasks) && LastItem(Extracted(lines), KeyOf, id) == Some(item);
    ViewIsValid(lines);
    ItemsHaveLines(v, HasLedger(v), |lines|, item);
    if !HasLedger(v) {
      NoLedgerSection(v, item.line);
    }
    LastClaim(v, id);
    ViewAt(lines, item.line);
  }

  lemma {:induction false} FindIsAt(ledger: seq<LedgerItem>, i: nat)
    requires i < |ledger| && ledger[i].taskId.Some?
    requires forall j :: 0 <= j < i ==> ledger[j].taskId != ledger[i].taskId
    ensures FindItem(ledger, ledger[i].taskId.value) == Some(ledger[i])
    decreases |ledger|
  {
    if i > 0 {
      assert ledger[1..][i - 1] == ledger[i];
      FindIsAt(ledger[1..], i - 1);
    }
  }

  /** After an empty parity report of an ordered phase, ledger item i names task i and its executor. */
  lemma {:induction false} ParityNamesExecutors(lines: seq<string>, phase: Phase, i: nat)
    requires DistinctTaskIds(phase.tasks) && UsesOrderedExecutors(phase) && InParity(lines, phase)
    requires i < |phase.tasks|
    ensures var item := ParityLedger(lines).value[i];
      item.taskId == Some(phase.tasks[i].id)
      && item.executor == Some(ExecutorName(MapTaskExecutor(phase.tasks[i].kind)))
  {
    var ledger := ParityLedger(lines).value;
    assert forall j :: 0 <= j < |ledger| ==> ledger[j].taskId == Some(phase.tasks[j].id);
    FindIsAt(ledger, i);
    assert ExecutorFine(ledger, phase.tasks[i]);
  }
}
