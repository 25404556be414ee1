/**
 * Documents that pass the parity test although the queue that is worked on is not their ledger:
 * an item under a titled heading of its own, a second ledger, a checkbox that is under way.
 */
module LedgerGaps {
  import opened Wrappers
  import opened Text
  import opened LedgerLines
  import opened ContractReading
  import opened PhaseContract
  import opened PhaseLedger

  /** A second-level heading, and a deeper one. */
  function LedgerLine(title: string): string {
    "## " + title
  }

  function SubheadingLine(hashes: string, title: string): string {
    hashes + (" " + title)
  }

  ghost predicate Deeper(hashes: string) {
    3 <= |hashes| <= 6 && forall i :: 0 <= i < |hashes| ==> hashes[i] == '#'
  }

  /** The text of a ledger item, and its checkbox line. */
  function ItemText(id: string, text: string): string {
    CONTRACT_MARK + id + "]" + (" " + EXECUTOR_MARK + "agent] " + text)
  }

  function ItemLine(mark: char, id: string, text: string): string {
    "- [" + [mark] + "] " + ItemText(id, text)
  }

  ghost predicate GoodId(id: string) {
    && 0 < |id| < 200 && id[0] != '-'
    && forall i :: 0 <= i < |id| ==> Alphanumeric(id[i]) || id[i] == '-'
  }

  lemma {:induction false} LowerMark(mark: string)
    requires mark == CONTRACT_MARK || mark == EXECUTOR_MARK
    ensures |mark| == 10 && Lower(mark) == mark && !IsSpace(mark[0]) && OneLine(mark)
  {
  }

  lemma {:induction false} MarkerReads(id: string, rest: string)
    requires GoodId(id)
    ensures MarkerAt(CONTRACT_MARK + id + "]" + rest) == Some(id)
  {
    LowerMark(CONTRACT_MARK);
    var s := CONTRACT_MARK + id + "]" + rest;
    assert s[..10] == CONTRACT_MARK;
    assert s[10..] == id + "]" + rest;
    IdRunUnique(s[10..], |id|);
    assert s[10..10 + |id|] == id;
  }

  lemma {:induction false} AgentReads(rest: string)
    ensures ExecutorAfter(" " + EXECUTOR_MARK + "agent]" + rest) == Some("agent")
  {
    LowerMark(EXECUTOR_MARK);
    var s := " " + EXECUTOR_MARK + "agent]" + rest;
    var u := EXECUTOR_MARK + "agent]" + rest;
    assert s[1..] == u && TrimStart(u) == u;
    assert u[..10] == EXECUTOR_MARK;
    var n := u[10..];
    assert n == "agent]" + rest;
    assert NameRun(n[1..][1..][1..][1..][1..]) == 0;
    assert NameRun(n[1..][1..][1..][1..]) == 1;
    assert NameRun(n[1..][1..][1..]) == 2;
    assert NameRun(n[1..][1..]) == 3;
    assert NameRun(n[1..]) == 4;
    assert u[10..15] == "agent";
  }

  lemma {:induction false} TextIsOneLine(id: string, text: string)
    requires GoodId(id) && OneLine(text)
    ensures OneLine(ItemText(id, text)) && ItemText(id, text) != "" && !IsSpace(ItemText(id, text)[0])
  {
    LowerMark(CONTRACT_MARK);
    LowerMark(EXECUTOR_MARK);
  }

  lemma {:induction false} LineParts(mark: char, text: string)
    ensures BoxParts("- [" + [mark] + "] " + text) == Some((mark, " " + text))
  {
    var line := "- [" + [mark] + "] " + text;
    assert TrimStart(line) == line;
    var u := line[1..];
    assert u == " [" + [mark] + "] " + text;
    assert u[1..] == "[" + [mark] + "] " + text;
    assert TrimStart(u[1..]) == u[1..];
    assert u[1..][3..] == " " + text;
  }

  // ---------------------------------------------------------------------------
  // How the lines read
  // ---------------------------------------------------------------------------

  predicate Marked(mark: char) {
    StateOf(mark).Some?
  }

  lemma {:induction false} RestReads(text: string)
    requires OneLine(text) && text != "" && !IsSpace(text[0])
    ensures TrimStart(" " + text) == text && CleanRest(" " + text).Some?
  {
    var rest := " " + text;
    assert rest[1..] == text;
    TrimEndPrefix(text[..1], text);
    TrimEndSpec(text);
  }

  /** A list item whose rest reads: both readers take it by its mark. */
  lemma {:induction false} PartsRead(line: string, mark: char, text: string)
    requires Marked(mark) && BoxParts(line) == Some((mark, " " + text)) && OneLine(text) && text != ""
    requires TrimStart(" " + text) == text && CleanRest(" " + text).Some?
    ensures CutBox(line).Some? && Some(CutBox(line).value.state) == StateOf(mark)
    ensures ParityBox(line) == if mark == '-' then None else Some(text)
  {
  }

  lemma {:induction false} ItemLineReads(mark: char, id: string, text: string)
    requires Marked(mark) && GoodId(id) && OneLine(text)
    ensures var line := ItemLine(mark, id, text);
      && HeadingOf(line).None? && !SecondLevel(line)
      && CutBox(line).Some? && Some(CutBox(line).value.state) == StateOf(mark)
      && ParityMarks(line) == (if mark == '-' then None else Some(Marks(Some(id), Some("agent"))))
  {
    var line := ItemLine(mark, id, text);
    LineParts(mark, ItemText(id, text));
    TextIsOneLine(id, text);
    RestReads(ItemText(id, text));
    PartsRead(line, mark, ItemText(id, text));
    ItemTextReads(id, text);
    if HeadingOf(line).Some? {
      HeadingIsNoBox(line);
    }
  }

  lemma {:induction false} ItemTextReads(id: string, text: string)
    requires GoodId(id)
    ensures MarksOf(ItemText(id, text)) == Marks(Some(id), Some("agent"))
  {
    var rest := " " + EXECUTOR_MARK + "agent]" + (" " + text);
    assert ItemText(id, text) == CONTRACT_MARK + id + "]" + rest;
    MarkerReads(id, rest);
    AgentReads(" " + text);
    LowerMark(CONTRACT_MARK);
    assert ItemText(id, text)[|id| + 11..] == rest;
  }

  lemma {:induction false} ItemLineFound(mark: char, id: string, text: string)
    requires Marked(mark) && GoodId(id) && OneLine(text)
    ensures FoundAt(ItemLine(mark, id, text)) == Some(id)
  {
    ItemLineReads(' ', id, text);
    MarkerFoundIff(ItemLine(' ', id, text));
    LineParts(' ', ItemText(id, text));
    LineParts(mark, ItemText(id, text));
    ItemLineReads(mark, id, text);
  }

  lemma {:induction false} LedgerLineReads(title: string)
    requires Lower(title) == LEDGER_TITLE
    ensures var line := LedgerLine(title);
      SecondLevel(line) && ParityTitle(line) && LedgerHeading(line) && BoxParts(line).None?
  {
    var line := LedgerLine(title);
    TitleIsPlain(title);
    assert line[2..] == " " + title + "";
    TrimSurrounded(" ", title, "");
    ParityTitleIsLedger(line);
    HeadingIsNoBox(line);
  }

  /** A title of another section, as written. */
  ghost predicate PlainTitle(title: string) {
    title != "" && Plain(title) && OneLine(title) && Lower(title) != LEDGER_TITLE
  }

  lemma {:induction false} HashRun(hashes: string, rest: string)
    requires rest != "" && rest[0] != '#' && forall i :: 0 <= i < |hashes| ==> hashes[i] == '#'
    ensures Hashes(hashes + rest) == |hashes|
    decreases |hashes|
  {
    if hashes == "" {
      assert hashes + rest == rest;
    } else {
      assert (hashes + rest)[1..] == hashes[1..] + rest;
      HashRun(hashes[1..], rest);
    }
  }

  lemma {:induction false} TitleRests(title: string)
    requires PlainTitle(title)
    ensures CleanRest(" " + title) == Some(title)
  {
    assert " " + title == " " + title + "";
    TrimSurrounded(" ", title, "");
    CleanPlain(title);
  }

  lemma {:induction false} HeadingReads(hashes: string, rest: string, title: string)
    requires 1 <= |hashes| <= 6 && rest != "" && rest[0] != '#' && forall i :: 0 <= i < |hashes| ==> hashes[i] == '#'
    requires CleanRest(rest) == Some(title)
    ensures HeadingOf(hashes + rest) == Some(Heading(|hashes|, title, LedgerTitle(title)))
  {
    var line := hashes + rest;
    HashRun(hashes, rest);
    assert line[|hashes|..] == rest;
    assert !IsSpace(line[0]);
  }

  lemma {:induction false} SubheadingReads(hashes: string, title: string)
    requires Deeper(hashes) && PlainTitle(title)
    ensures HeadingOf(SubheadingLine(hashes, title)) == Some(Heading(|hashes|, title, false))
  {
    TitleRests(title);
    HeadingReads(hashes, " " + title, title);
  }

  lemma {:induction false} DeeperIsNotSecond(hashes: string, title: string)
    requires Deeper(hashes)
    ensures !SecondLevel(SubheadingLine(hashes, title))
  {
    assert SubheadingLine(hashes, title)[2] == hashes[2];
  }

  // ---------------------------------------------------------------------------
  // The lines of a document, as both readers see them
  // ---------------------------------------------------------------------------

  ghost predicate SameLength(p: Page, v: View) {
    ValidPage(p) && ValidView(v) && |p.titles| == |v.headings|
  }

  ghost predicate LedgerRow(p: Page, v: View, i: nat)
    requires SameLength(p, v)
  {
    i < |p.titles| && p.titles[i] && p.ends[i] && p.boxes[i].None? && Titled(v.headings[i]) && v.boxes[i].None?
  }

  ghost predicate SubheadingRow(p: Page, v: View, i: nat)
    requires SameLength(p, v)
  {
    && i < |p.titles| && !p.ends[i] && p.boxes[i].None? && v.boxes[i].None?
    && v.headings[i].Some? && v.headings[i].value.title != "" && !Titled(v.headings[i])
  }

  ghost predicate ItemRow(p: Page, v: View, i: nat, state: BoxState, id: string)
    requires SameLength(p, v)
  {
    && i < |p.titles| && !p.ends[i] && v.headings[i].None?
    && p.boxes[i] == (if state == Started then None else Some(Marks(Some(id), Some("agent"))))
    && v.boxes[i].Some? && v.boxes[i].value.state == state && v.ids[i] == Some(id)
  }

  lemma {:induction false} LedgerLineAt(lines: seq<string>, i: nat, title: string)
    requires i < |lines| && lines[i] == LedgerLine(title) && Lower(title) == LEDGER_TITLE
    requires SameLength(PageOf(lines), ViewOf(lines))
    ensures LedgerRow(PageOf(lines), ViewOf(lines), i)
  {
    LedgerLineReads(title);
    PageAt(lines, i);
    ViewAt(lines, i);
  }

  lemma {:induction false} SubheadingAt(lines: seq<string>, i: nat, hashes: string, title: string)
    requires i < |lines| && lines[i] == SubheadingLine(hashes, title) && Deeper(hashes) && PlainTitle(title)
    requires SameLength(PageOf(lines), ViewOf(lines))
    ensures SubheadingRow(PageOf(lines), ViewOf(lines), i)
  {
    SubheadingReads(hashes, title);
    DeeperIsNotSecond(hashes, title);
    HeadingIsNoBox(lines[i]);
    PageAt(lines, i);
    ViewAt(lines, i);
  }

  lemma {:induction false} ItemLineAt(lines: seq<string>, i: nat, mark: char, id: string, text: string)
    requires i < |lines| && lines[i] == ItemLine(mark, id, text) && Marked(mark) && GoodId(id) && OneLine(text)
    requires SameLength(PageOf(lines), ViewOf(lines))
    ensures ItemRow(PageOf(lines), ViewOf(lines), i, StateOf(mark).value, id)
  {
    ItemLineReads(mark, id, text);
    ItemLineFound(mark, id, text);
    PageAt(lines, i);
    ViewAt(lines, i);
  }

  // ---------------------------------------------------------------------------
  // The gaps
  // ---------------------------------------------------------------------------

  ghost predicate OneAgentTask(phase: Phase, id: string) {
    |phase.tasks| == 1 && phase.tasks[0].id == id && phase.tasks[0].kind == Agent
  }

  lemma {:induction false} OneItemInParity(p: Page, phase: Phase, id: string, n: nat)
    requires ValidPage(p) && OneAgentTask(phase, id)
    requires LedgerOf(p) == Some([LedgerItem(n, Some(id), Some("agent"))])
    ensures PageInParity(p, phase)
  {
  }

  /** The only checkbox that the parity test reads below the first line, before line end. */
  ghost predicate OnlyBox(p: Page, end: nat, n: nat, marks: Marks) {
    && ValidPage(p) && 0 < n < end <= |p.titles| && p.titles[0] && p.boxes[n] == Some(marks)
    && (end < |p.ends| ==> p.ends[end])
    && (forall i :: 0 < i < end ==> !p.ends[i])
    && (forall i :: 0 < i < end && i != n ==> p.boxes[i].None?)
  }

  lemma {:induction false} OnlyBoxItems(p: Page, end: nat, n: nat, marks: Marks, i: nat)
    requires OnlyBox(p, end, n, marks) && 0 < i <= end
    ensures SectionItems(p, i) == if i <= n then [ItemOf(n, marks)] else []
    decreases end - i
  {
    if i < end {
      OnlyBoxItems(p, end, n, marks, i + 1);
    }
  }

  lemma {:induction false} OnlyBoxInParity(p: Page, phase: Phase, id: string, end: nat, n: nat)
    requires OneAgentTask(phase, id) && OnlyBox(p, end, n, Marks(Some(id), Some("agent")))
    ensures PageInParity(p, phase)
  {
    OnlyBoxItems(p, end, n, Marks(Some(id), Some("agent")), 1);
    OneItemInParity(p, phase, id, n);
  }

  lemma {:induction false} OneSelected(items: seq<Item>, key: Item -> Option<string>, phase: Phase, id: string)
    requires OneAgentTask(phase, id)
    ensures SelectDeclared(items, key, TaskIds(phase.tasks)) == SomeOf(LastItem(items, key, id))
  {
    assert TaskIds(phase.tasks) == [id] && [id][1..] == [];
    assert SelectDeclared(items, key, []) == [];
  }

  /** r is the item of the last line, which claims the id. */
  lemma {:induction false} LastLineClaims(v: View, id: string, r: Option<Item>)
    requires |v.headings| == |v.boxes| > 0 && Claims(v, |v.boxes| - 1, id) && LastClaimed(v, id, r)
    ensures r.Some? && r.value.line == |v.boxes| - 1 && v.boxes[|v.boxes| - 1].Some?
    ensures r.value.state == v.boxes[|v.boxes| - 1].value.state
  {
  }

  /** The queue of one task is the item of the last line. */
  ghost predicate QueueIsLastLine(v: View, phase: Phase, state: BoxState)
    requires |v.headings| == |v.boxes|
  {
    var queue := SelectDeclared(AllItems(v), KeyOf, TaskIds(phase.tasks));
    |queue| == 1 && queue[0].line == |v.boxes| - 1 && queue[0].state == state
  }

  lemma {:induction false} LastLineSelected(v: View, phase: Phase, id: string, state: BoxState)
    requires OneAgentTask(phase, id) && ValidView(v) && v.boxes != [] && HasLedger(v)
    requires Governed(v.headings, |v.boxes| - 1) && v.ids[|v.ids| - 1] == Some(id)
    requires v.boxes[|v.boxes| - 1].value.state == state
    ensures QueueIsLastLine(v, phase, state)
  {
    assert Claims(v, |v.boxes| - 1, id);
    LastClaim(v, id);
    LastLineClaims(v, id, LastItem(AllItems(v), KeyOf, id));
    OneSelected(AllItems(v), KeyOf, phase, id);
  }

  lemma {:induction false} NothingClaimed(v: View, id: string, r: Option<Item>)
    requires |v.headings| == |v.boxes| == 3 && LastClaimed(v, id, r) && |v.ids| == 3 && v.ids[1].None?
    requires !Governed(v.headings, 2)
    ensures r == None
  {
    assert !Governed(v.headings, 0);
  }

  lemma {:induction false} OtherTitleGovernsNot(headings: seq<Option<Heading>>, n: nat)
    requires 0 < n <= |headings| && headings[n - 1].Some?
    requires headings[n - 1].value.title != "" && !Titled(headings[n - 1])
    ensures !Governed(headings, n)
  {
    OtherHeadingGoverns(headings, n);
  }

  lemma {:induction false} ThirdLineHidden(v: View, phase: Phase, id: string)
    requires OneAgentTask(phase, id) && ValidView(v) && |v.headings| == 3 && Titled(v.headings[0])
    requires v.headings[1].Some? && v.headings[1].value.title != "" && !Titled(v.headings[1])
    requires v.boxes[1].None?
    ensures SelectDeclared(AllItems(v), KeyOf, TaskIds(phase.tasks)) == []
  {
    OtherTitleGovernsNot(v.headings, 2);
    LastClaim(v, id);
    NothingClaimed(v, id, LastItem(AllItems(v), KeyOf, id));
    OneSelected(AllItems(v), KeyOf, phase, id);
  }

  lemma {:induction false} HiddenRows(p: Page, v: View, phase: Phase, id: string)
    requires SameLength(p, v) && |p.titles| == 3 && OneAgentTask(phase, id)
    requires LedgerRow(p, v, 0) && SubheadingRow(p, v, 1) && ItemRow(p, v, 2, Open, id)
    ensures PageInParity(p, phase) && SelectDeclared(AllItems(v), KeyOf, TaskIds(phase.tasks)) == []
  {
    OnlyBoxInParity(p, phase, id, 3, 2);
    ThirdLineHidden(v, phase, id);
  }

  lemma {:induction false} SecondLedgerRows(p: Page, v: View, phase: Phase, id: string)
    requires SameLength(p, v) && |p.titles| == 4 && OneAgentTask(phase, id)
    requires LedgerRow(p, v, 0) && ItemRow(p, v, 1, Open, id) && LedgerRow(p, v, 2) && ItemRow(p, v, 3, Done, id)
    ensures PageInParity(p, phase) && QueueIsLastLine(v, phase, Done)
  {
    OnlyBoxInParity(p, phase, id, 2, 1);
    LedgerHeadingGoverns(v.headings, 3);
    LastLineSelected(v, phase, id, Done);
  }

  lemma {:induction false} StartedRows(p: Page, v: View, phase: Phase, id: string)
    requires SameLength(p, v) && |p.titles| == 3 && OneAgentTask(phase, id)
    requires LedgerRow(p, v, 0) && ItemRow(p, v, 1, Open, id) && ItemRow(p, v, 2, Started, id)
    ensures PageInParity(p, phase) && QueueIsLastLine(v, phase, Started)
  {
    OnlyBoxInParity(p, phase, id, 3, 1);
    OnlyHeadingGoverns(v.headings, 2);
    LastLineSelected(v, phase, id, Started);
  }

  lemma {:induction false} OnlyHeadingGoverns(headings: seq<Option<Heading>>, n: nat)
    requires 0 < n <= |headings| && Titled(headings[0]) && forall i :: 0 < i < n ==> headings[i].None?
    ensures Governed(headings, n)
  {
    assert GovernedBy(headings, 0, n);
  }

  // ---------------------------------------------------------------------------
  // Three documents
  // ---------------------------------------------------------------------------

  /** A titled heading inside the section hides its items from the queue, and no report says so. */
  lemma {:induction false} SubheadingHidesItem(lines: seq<string>, phase: Phase, title: string, hashes: string, sub: string, id: string, text: string)
    requires OneAgentTask(phase, id) && GoodId(id) && OneLine(text) && Lower(title) == LEDGER_TITLE
    requires Deeper(hashes) && PlainTitle(sub)
    requires |lines| == 3 && lines[0] == LedgerLine(title)
    requires lines[1] == SubheadingLine(hashes, sub) && lines[2] == ItemLine(' ', id, text)
    ensures InParity(lines, phase) && Projection(lines, phase) == []
  {
    ViewIsValid(lines);
    LedgerLineAt(lines, 0, title);
    SubheadingAt(lines, 1, hashes, sub);
    ItemLineAt(lines, 2, ' ', id, text);
    HiddenRows(PageOf(lines), ViewOf(lines), phase, id);
  }

  /** A second ledger with the same task id takes the place of the one that was tested. */
  lemma {:induction false} SecondLedgerWins(lines: seq<string>, phase: Phase, title: string, id: string, text: string)
    requires OneAgentTask(phase, id) && GoodId(id) && OneLine(text) && Lower(title) == LEDGER_TITLE
    requires |lines| == 4 && lines[0] == lines[2] == LedgerLine(title)
    requires lines[1] == ItemLine(' ', id, text) && lines[3] == ItemLine('x', id, text)
    ensures InParity(lines, phase) && QueueIsLastLine(ViewOf(lines), phase, Done)
  {
    ViewIsValid(lines);
    LedgerLineAt(lines, 0, title);
    ItemLineAt(lines, 1, ' ', id, text);
    LedgerLineAt(lines, 2, title);
    ItemLineAt(lines, 3, 'x', id, text);
    SecondLedgerRows(PageOf(lines), ViewOf(lines), phase, id);
  }

  /** So does a checkbox that is under way, which the parity test does not read at all. */
  lemma {:induction false} StartedBoxWins(lines: seq<string>, phase: Phase, title: string, id: string, text: string)
    requires OneAgentTask(phase, id) && GoodId(id) && OneLine(text) && Lower(title) == LEDGER_TITLE
    requires |lines| == 3 && lines[0] == LedgerLine(title)
    requires lines[1] == ItemLine(' ', id, text) && lines[2] == ItemLine('-', id, text)
    ensures InParity(lines, phase) && QueueIsLastLine(ViewOf(lines), phase, Started)
  {
    ViewIsValid(lines);
    LedgerLineAt(lines, 0, title);
    ItemLineAt(lines, 1, ' ', id, text);
    ItemLineAt(lines, 2, '-', id, text);
    StartedRows(PageOf(lines), ViewOf(lines), phase, id);
  }
}
