/**
 * The delivery section of a feature document, line by line: where it starts and ends, and what its
 * table says.  A line is known here only by what the source asks about it.
 */
module DeliveryTable {
  import opened Wrappers

  datatype Field = ModeField | BranchField | IssueField | RoleField | UpdateField | PullRequestField | StatusField

  datatype Entry = Entry(field: Field, value: string)

  /** Whether the line is the delivery heading, any second-level heading, a table row; and what the row sets. */
  datatype Line = Line(header: bool, heading: bool, bar: bool, entry: Option<Entry>)

  datatype Table = Table(mode: string, branch: string, issue: string, role: string, update: string, pullRequest: string,
                         status: string)

  const DEFAULT_TABLE := Table("direct_merge", "master", "", "feature_issue", "pr_body", "", "not_applicable")

  function Or(value: string, fallback: string): string {
    if value == "" then fallback else value
  }

  function Apply(t: Table, e: Option<Entry>): Table {
    if e == None then t
    else
      match e.value.field
      case ModeField => t.(mode := e.value.value)
      case BranchField => t.(branch := Or(e.value.value, "master"))
      case IssueField => t.(issue := e.value.value)
      case RoleField => t.(role := Or(e.value.value, "feature_issue"))
      case UpdateField => t.(update := Or(e.value.value, "pr_body"))
      case PullRequestField => t.(pullRequest := e.value.value)
      case StatusField => t.(status := Or(e.value.value, "not_applicable"))
  }

  /** The table after the rows so far: a later row of the same field wins. */
  function ParseTable(lines: seq<Line>): Table
    decreases |lines|
  {
    if lines == [] then DEFAULT_TABLE else Apply(ParseTable(lines[..|lines| - 1]), lines[|lines| - 1].entry)
  }

  method ParseDeliveryTable(lines: seq<Line>) returns (t: Table)
    ensures t == ParseTable(lines)
  {
    t := DEFAULT_TABLE;
    var i := 0;
    while i < |lines|
      invariant 0 <= i <= |lines| && t == ParseTable(lines[..i])
    {
      assert lines[..i + 1][..i] == lines[..i];
      t := Apply(t, lines[i].entry);
      i := i + 1;
    }
    assert lines[..i] == lines;
  }

  // ---------------------------------------------------------------------------
  // Where the section is
  // ---------------------------------------------------------------------------

  function Headers(lines: seq<Line>): nat
    decreases |lines|
  {
    if lines == [] then 0 else Headers(lines[..|lines| - 1]) + if lines[|lines| - 1].header then 1 else 0
  }

  function FirstHeader(lines: seq<Line>): (r: Option<nat>)
    ensures r.Some? ==> r.value < |lines| && lines[r.value].header
    decreases |lines|
  {
    if lines == [] then None
    else
      var before := FirstHeader(lines[..|lines| - 1]);
      if before.Some? then before else if lines[|lines| - 1].header then Some(|lines| - 1) else None
  }

  /** Err stands for the duplicate heading error. */
  function FindStart(lines: seq<Line>): Result<Option<nat>, ()> {
    if Headers(lines) > 1 then Err(()) else Ok(FirstHeader(lines))
  }

  method FindSectionStart(lines: seq<Line>) returns (start: Result<Option<nat>, ()>)
    ensures start == FindStart(lines)
  {
    var count, first: Option<nat> := 0, None;
    var i := 0;
    while i < |lines|
      invariant 0 <= i <= |lines| && count == Headers(lines[..i]) && first == FirstHeader(lines[..i])
    {
      assert lines[..i + 1][..i] == lines[..i];
      if lines[i].header {
        count := count + 1;
        if first == None {
          first := Some(i);
        }
      }
      i := i + 1;
    }
    assert lines[..i] == lines;
    start := if count > 1 then Err(()) else Ok(first);
  }

  /** From line i on, with the last table row seen so far. */
  function FindEnd(lines: seq<Line>, i: nat, lastRow: Option<nat>): nat
    requires i <= |lines|
    decreases |lines| - i
  {
    if i == |lines| then (if lastRow.Some? then lastRow.value + 1 else |lines|)
    else if lines[i].heading then i
    else FindEnd(lines, i + 1, if lines[i].bar then Some(i) else lastRow)
  }

  method FindSectionEnd(lines: seq<Line>, start: nat) returns (end: nat)
    requires start < |lines|
    ensures end == FindEnd(lines, start + 1, None)
  {
    var lastRow: Option<nat> := None;
    var i := start + 1;
    while i < |lines|
      invariant start < i <= |lines| && FindEnd(lines, start + 1, None) == FindEnd(lines, i, lastRow)
    {
      if lines[i].heading {
        return i;
      }
      if lines[i].bar {
        lastRow := Some(i);
      }
      i := i + 1;
    }
    end := if lastRow.Some? then lastRow.value + 1 else |lines|;
  }

  ghost predicate Quiet(lines: seq<Line>, i: nat) {
    forall k :: i <= k < |lines| ==> !lines[k].heading && !lines[k].bar
  }

  /** The section ends at the next heading, or else after its last table row, or else with the document. */
  lemma {:induction false} FindEndMeans(lines: seq<Line>, i: nat, lastRow: Option<nat>)
    requires i <= |lines| && (lastRow.Some? ==> lastRow.value < i)
    ensures var end := FindEnd(lines, i, lastRow);
      && end <= |lines| && (if lastRow.Some? then lastRow.value < end else i <= end)
      && ((end < |lines| && lines[end].heading) || Quiet(lines, if end < i then i else end))
    decreases |lines| - i
  {
    if i < |lines| && !lines[i].heading {
      FindEndMeans(lines, i + 1, if lines[i].bar then Some(i) else lastRow);
    }
  }

  /** The next heading, if there is one, is where the section ends. */
  lemma {:induction false} EndsAtHeading(lines: seq<Line>, i: nat, lastRow: Option<nat>, k: nat)
    requires i <= k < |lines| && lines[k].heading && forall j :: i <= j < k ==> !lines[j].heading
    ensures FindEnd(lines, i, lastRow) == k
    decreases k - i
  {
    if i < k {
      EndsAtHeading(lines, i + 1, if lines[i].bar then Some(i) else lastRow, k);
    }
  }

  /** Passing over lines without headings, the last of which is a table row. */
  lemma {:induction false} FindEndPasses(lines: seq<Line>, i: nat, j: nat, lastRow: Option<nat>)
    requires i < j <= |lines| && (forall k :: i <= k < j ==> !lines[k].heading) && lines[j - 1].bar
    ensures FindEnd(lines, i, lastRow) == FindEnd(lines, j, Some(j - 1))
    decreases j - i
  {
    if i < j - 1 {
      FindEndPasses(lines, i + 1, j, if lines[i].bar then Some(i) else lastRow);
    }
  }

  lemma {:induction false} FindEndQuiet(lines: seq<Line>, i: nat, row: nat)
    requires i <= |lines| && Quiet(lines, i)
    ensures FindEnd(lines, i, Some(row)) == row + 1
    decreases |lines| - i
  {
    if i < |lines| {
      FindEndQuiet(lines, i + 1, row);
    }
  }

  // ---------------------------------------------------------------------------
  // A rendered section in its place
  // ---------------------------------------------------------------------------

  const BLANK := Line(false, false, false, None)
  const HEADING := Line(true, true, false, None)

  function RowLine(field: Field, value: string): Line {
    Line(false, false, true, if value == "" then None else Some(Entry(field, value)))
  }

  /** The lines a rendered section has: a blank one, the heading, a blank one, two rows of table head, the seven rows. */
  function SectionLines(t: Table): seq<Line> {
    [BLANK, HEADING, BLANK, Line(false, false, true, None), Line(false, false, true, None),
     RowLine(ModeField, t.mode), RowLine(BranchField, t.branch), RowLine(IssueField, t.issue), RowLine(RoleField, t.role),
     RowLine(UpdateField, t.update), RowLine(PullRequestField, t.pullRequest), RowLine(StatusField, t.status)]
  }

  ghost predicate NoHeader(lines: seq<Line>) {
    forall i :: 0 <= i < |lines| ==> !lines[i].header
  }

  /** What may follow: a heading first, or neither headings nor table rows. */
  ghost predicate Follows(after: seq<Line>) {
    (after != [] && after[0].heading) || Quiet(after, 0)
  }

  lemma {:induction false} HeadersConcat(a: seq<Line>, b: seq<Line>)
    ensures Headers(a + b) == Headers(a) + Headers(b)
    decreases |b|
  {
    if b == [] {
      assert a + b == a;
    } else {
      assert (a + b)[..|a + b| - 1] == a + b[..|b| - 1];
      HeadersConcat(a, b[..|b| - 1]);
    }
  }

  lemma {:induction false} NoHeaderIff(lines: seq<Line>)
    ensures NoHeader(lines) <==> Headers(lines) == 0
    ensures NoHeader(lines) <==> FirstHeader(lines) == None
    decreases |lines|
  {
    if lines != [] {
      NoHeaderIff(lines[..|lines| - 1]);
    }
  }

  lemma {:induction false} FirstHeaderAt(before: seq<Line>, line: Line, after: seq<Line>)
    requires NoHeader(before) && line.header
    ensures FirstHeader(before + [line] + after) == Some(|before|)
    decreases |after|
  {
    var lines := before + [line] + after;
    if after == [] {
      assert lines[..|lines| - 1] == before;
      NoHeaderIff(before);
    } else {
      assert lines[..|lines| - 1] == before + [line] + after[..|after| - 1];
      FirstHeaderAt(before, line, after[..|after| - 1]);
    }
  }

  /** With one header, there is none on either side of it. */
  lemma {:induction false} OneHeader(lines: seq<Line>, i: nat)
    requires i < |lines| && lines[i].header && Headers(lines) <= 1
    ensures NoHeader(lines[..i]) && NoHeader(lines[i + 1..])
  {
    assert lines == lines[..i] + [lines[i]] + lines[i + 1..];
    HeadersConcat(lines[..i] + [lines[i]], lines[i + 1..]);
    HeadersConcat(lines[..i], [lines[i]]);
    assert [lines[i]][..0] == [];
    NoHeaderIff(lines[..i]);
    NoHeaderIff(lines[i + 1..]);
  }

  lemma {:induction false} SectionStart(before: seq<Line>, t: Table, after: seq<Line>)
    requires NoHeader(before) && NoHeader(after)
    ensures FindStart(before + SectionLines(t) + after) == Ok(Some(|before| + 1))
  {
    var section := SectionLines(t);
    var rest := section[2..] + after;
    assert before + section + after == (before + [BLANK]) + [HEADING] + rest;
    assert NoHeader(before + [BLANK]) && NoHeader(rest);
    FirstHeaderAt(before + [BLANK], HEADING, rest);
    HeadersConcat((before + [BLANK]) + [HEADING], rest);
    HeadersConcat(before + [BLANK], [HEADING]);
    assert [HEADING][..0] == [];
    NoHeaderIff(before + [BLANK]);
    NoHeaderIff(rest);
  }

  lemma {:induction false} SectionEnd(before: seq<Line>, t: Table, after: seq<Line>)
    requires Follows(after)
    ensures FindEnd(before + SectionLines(t) + after, |before| + 2, None) == |before| + 12
  {
    var section := SectionLines(t);
    var lines := before + section + after;
    assert forall k :: 0 <= k < 12 ==> lines[|before| + k] == section[k];
    assert forall k :: |before| + 2 <= k < |before| + 12 ==> lines[k] == section[k - |before|];
    FindEndPasses(lines, |before| + 2, |before| + 12, None);
    assert forall k :: |before| + 12 <= k < |lines| ==> lines[k] == after[k - |before| - 12];
    if after != [] && after[0].heading {
      assert lines[|before| + 12] == after[0];
    } else {
      FindEndQuiet(lines, |before| + 12, |before| + 11);
    }
  }

  /** Empty values are read as the defaults of the fields that have one. */
  function WithDefaults(t: Table): Table {
    Table(Or(t.mode, "direct_merge"), Or(t.branch, "master"), t.issue, Or(t.role, "feature_issue"), Or(t.update, "pr_body"),
          t.pullRequest, Or(t.status, "not_applicable"))
  }

  lemma {:induction false} ParseLast(lines: seq<Line>, last: Line)
    ensures ParseTable(lines + [last]) == Apply(ParseTable(lines), last.entry)
  {
    assert (lines + [last])[..|lines|] == lines;
  }

  lemma {:induction false} ParseHead()
    ensures ParseTable([HEADING] + [BLANK] + [Line(false, false, true, None)] + [Line(false, false, true, None)]) == DEFAULT_TABLE
  {
    var row := Line(false, false, true, None);
    ParseLast([], HEADING);
    assert [] + [HEADING] == [HEADING];
    ParseLast([HEADING], BLANK);
    ParseLast([HEADING] + [BLANK], row);
    ParseLast([HEADING] + [BLANK] + [row], row);
  }

  /** Reading the rendered rows gives the table back. */
  lemma {:induction false} ParseSection(t: Table)
    ensures ParseTable(SectionLines(t)[1..]) == WithDefaults(t)
  {
    var row := Line(false, false, true, None);
    var l0 := [HEADING] + [BLANK] + [row] + [row];
    ParseHead();
    var l1 := l0 + [RowLine(ModeField, t.mode)];
    ParseLast(l0, RowLine(ModeField, t.mode));
    var l2 := l1 + [RowLine(BranchField, t.branch)];
    ParseLast(l1, RowLine(BranchField, t.branch));
    var l3 := l2 + [RowLine(IssueField, t.issue)];
    ParseLast(l2, RowLine(IssueField, t.issue));
    assert ParseTable(l3)
      == DEFAULT_TABLE.(mode := Or(t.mode, "direct_merge"), branch := Or(t.branch, "master"), issue := t.issue);
    ParseRest(l3, t);
    assert SectionLines(t)[1..] == l3 + RestLines(t);
  }

  function RestLines(t: Table): seq<Line> {
    [RowLine(RoleField, t.role)] + [RowLine(UpdateField, t.update)] + [RowLine(PullRequestField, t.pullRequest)]
    + [RowLine(StatusField, t.status)]
  }

  lemma {:induction false} ParseRest(l3: seq<Line>, t: Table)
    requires ParseTable(l3)
      == DEFAULT_TABLE.(mode := Or(t.mode, "direct_merge"), branch := Or(t.branch, "master"), issue := t.issue)
    ensures ParseTable(l3 + RestLines(t)) == WithDefaults(t)
  {
    var l4 := l3 + [RowLine(RoleField, t.role)];
    ParseLast(l3, RowLine(RoleField, t.role));
    var l5 := l4 + [RowLine(UpdateField, t.update)];
    ParseLast(l4, RowLine(UpdateField, t.update));
    var l6 := l5 + [RowLine(PullRequestField, t.pullRequest)];
    ParseLast(l5, RowLine(PullRequestField, t.pullRequest));
    var l7 := l6 + [RowLine(StatusField, t.status)];
    ParseLast(l6, RowLine(StatusField, t.status));
    assert l3 + RestLines(t) == l7;
  }

  /** The table of a document, defaults when it has no section. */
  function ReadTable(lines: seq<Line>): Result<Table, ()> {
    var start := FindStart(lines);
    if start == Err(()) then Err(())
    else if start.value == None then Ok(DEFAULT_TABLE)
    else
      var end := FindEnd(lines, start.value.value + 1, None);
      if start.value.value <= end <= |lines| then Ok(ParseTable(lines[start.value.value..end])) else Err(())
  }

  /** A document holding a rendered section reads as the table that was rendered. */
  lemma {:induction false} ReadsRendered(before: seq<Line>, t: Table, after: seq<Line>)
    requires NoHeader(before) && NoHeader(after) && Follows(after)
    ensures ReadTable(before + SectionLines(t) + after) == Ok(WithDefaults(t))
  {
    var lines := before + SectionLines(t) + after;
    SectionStart(before, t, after);
    SectionEnd(before, t, after);
    assert lines[|before| + 1..|before| + 12] == SectionLines(t)[1..];
    ParseSection(t);
  }

  /** The branch read is the default, or the value of some row. */
  lemma {:induction false} BranchComesFrom(lines: seq<Line>)
    ensures var branch := ParseTable(lines).branch;
      branch == "master" || exists i :: 0 <= i < |lines| && lines[i].entry == Some(Entry(BranchField, branch)) && branch != ""
    decreases |lines|
  {
    if lines != [] {
      BranchComesFrom(lines[..|lines| - 1]);
    }
  }
}
