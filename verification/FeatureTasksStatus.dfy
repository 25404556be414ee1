/** The phase status table of FeatureTasks.md as text: reading a phase status, and replacing one. */
module FeatureTasksStatus {
  import opened Wrappers
  import opened Text
  import opened TextLines
  import opened InventoryGrid
  import opened PhaseDocuments

  // ---------------------------------------------------------------------------
  // Reading one cell
  // ---------------------------------------------------------------------------

  function WithoutBackticks(s: string): string
    decreases |s|
  {
    if s == "" then "" else (if s[0] == '`' then "" else [s[0]]) + WithoutBackticks(s[1..])
  }

  function DropDotSlash(s: string): string {
    if |s| >= 2 && s[0] == '.' && s[1] == '/' then s[2..] else s
  }

  function ReadContractPhaseNumber(value: string): Option<nat> {
    ReadPhaseDocumentNumber(DropDotSlash(ForwardSlashes(Trim(WithoutBackticks(value)))))
  }

  /** What may follow the number: nothing, a pipe, a dash of either kind or a colon. */
  predicate EndsNumber(rest: string) {
    rest == "" || rest[0] == '|' || rest[0] == '\U{2014}' || rest[0] == '-' || rest[0] == ':'
  }

  function LeadingNumber(v: string): Option<nat> {
    var n := LeadingDigits(v);
    var number := DigitsValue(v[..n]);
    if n > 0 && EndsNumber(TrimStart(v[n..])) then Some(number) else None
  }

  function ReadLegacyPhaseNumber(value: string): Option<nat> {
    LeadingNumber(Trim(value))
  }

  function DropColon(s: string): string {
    if s != "" && s[0] == ':' then s[1..] else s
  }

  function DropLastColon(s: string): string {
    if s != "" && s[|s| - 1] == ':' then s[..|s| - 1] else s
  }

  /** Two dashes or more, with a colon at either end or not. */
  predicate IsSeparator(cell: string) {
    var dashes := DropLastColon(DropColon(cell));
    |dashes| >= 2 && forall i :: 0 <= i < |dashes| ==> dashes[i] == '-'
  }

  function TheReaders(): Readers {
    Readers(ReadContractPhaseNumber, ReadLegacyPhaseNumber, Lower, IsSeparator)
  }

  ghost predicate OnlyMarks(s: string) {
    forall i :: 0 <= i < |s| ==> s[i] == ':' || s[i] == '-'
  }

  lemma {:induction false} MarksWithoutBackticks(s: string)
    requires OnlyMarks(s)
    ensures WithoutBackticks(s) == s
    decreases |s|
  {
    if s != "" {
      assert OnlyMarks(s[1..]);
      MarksWithoutBackticks(s[1..]);
      assert s == [s[0]] + s[1..];
    }
  }

  lemma {:induction false} MarksTrimmed(s: string)
    requires OnlyMarks(s)
    ensures Trim(s) == s
  {
    assert !IsSpace(':') && !IsSpace('-');
    assert s != "" ==> !IsSpace(s[0]) && !IsSpace(s[|s| - 1]);
    TrimTrimmed(s);
  }

  lemma {:induction false} MarksForward(s: string)
    requires OnlyMarks(s)
    ensures ForwardSlashes(s) == s && DropDotSlash(s) == s
  {
  }

  lemma {:induction false} MarksAreNoDocument(s: string)
    requires OnlyMarks(s)
    ensures ReadPhaseDocumentNumber(s) == None
  {
    var d := ForwardSlashes(s);
    if |d| >= |DOCUMENT_PREFIX| {
      assert Lower(d[..|DOCUMENT_PREFIX|])[0] == LowerChar(d[0]);
      assert DOCUMENT_PREFIX[0] == 'p';
    }
  }

  lemma {:induction false} MarksAreNoNumber(s: string)
    requires OnlyMarks(s)
    ensures LeadingNumber(s) == None
  {
    assert s != "" ==> !IsDigit(s[0]);
  }

  lemma {:induction false} MarksAreNoPhase(s: string)
    requires OnlyMarks(s)
    ensures ReadContractPhaseNumber(s) == None && ReadLegacyPhaseNumber(s) == None
  {
    MarksWithoutBackticks(s);
    MarksTrimmed(s);
    MarksForward(s);
    MarksAreNoDocument(s);
    MarksAreNoNumber(s);
  }

  lemma {:induction false} SeparatorIsMarks(s: string)
    requires IsSeparator(s)
    ensures OnlyMarks(s)
  {
    var rest := DropColon(s);
    var dashes := DropLastColon(rest);
    assert forall i :: 0 <= i < |rest| ==> rest[i] == ':' || rest[i] == '-' by {
      assert forall i :: 0 <= i < |dashes| ==> rest[i] == dashes[i];
    }
    assert s == rest || s == [':'] + rest;
  }

  lemma {:induction false} SeparatorIsNoPhase(s: string)
    ensures IsSeparator(s) ==> ReadContractPhaseNumber(s) == None && ReadLegacyPhaseNumber(s) == None
  {
    if IsSeparator(s) {
      SeparatorIsMarks(s);
      MarksAreNoPhase(s);
    }
  }

  lemma {:induction false} ReadersAreValid()
    ensures ValidReaders(TheReaders())
  {
    var f := TheReaders();
    MarksAreNoPhase("");
    forall x ensures f.separator(x) ==> f.contractNumber(x) == None && f.legacyNumber(x) == None {
      SeparatorIsNoPhase(x);
    }
  }

  // ---------------------------------------------------------------------------
  // Lines and cells
  // ---------------------------------------------------------------------------

  /** The parts between the first pipe and the last one, trimmed. */
  function InnerCells(parts: seq<string>): seq<string> {
    if |parts| < 2 then [] else Trims(parts[1..|parts| - 1])
  }

  /** The cells of a trimmed line, if it is a table row. */
  function RowCells(trimmed: string): Option<seq<string>> {
    if trimmed != "" && trimmed[0] == '|' then Some(InnerCells(Split(trimmed, '|'))) else None
  }

  function GridOfTrims(trims: seq<string>): (g: Grid)
    ensures |g| == |trims|
    decreases |trims|
  {
    if trims == [] then [] else GridOfTrims(trims[..|trims| - 1]) + [RowCells(trims[|trims| - 1])]
  }

  function GridOf(markdown: string): Grid {
    GridOfTrims(Trims(Lines(markdown)))
  }

  function ReadStatus(markdown: string, n: nat): Option<string> {
    StatusOf(InventoryRows(TheReaders(), GridOf(markdown)), n)
  }

  /** The new line: the cell is overwritten in the untrimmed line. */
  function WithCell(line: string, column: nat, status: string): string {
    var cells := Split(line, '|');
    if column + 1 < |cells| then Join(cells[column + 1 := " " + status + " "], '|') else line
  }

  function Replace(markdown: string, n: nat, status: string): Option<string> {
    var g := GridOf(markdown);
    var matches := RowsOf(InventoryRows(TheReaders(), g), n);
    var header := FindHeader(TheReaders(), g);
    var lines := Lines(markdown);
    if |matches| != 1 || header == None || matches[0].lineIndex >= |lines| then None
    else
      var line := WithCell(lines[matches[0].lineIndex], header.value.columns.status, status);
      Some(TrimEnd(Join(lines[matches[0].lineIndex := line], '\n')) + "\n")
  }

  // ---------------------------------------------------------------------------
  // The cells of a line, trimmed or not
  // ---------------------------------------------------------------------------

  /** The cells of an untrimmed line, from its parts between pipes. */
  function RawCells(parts: seq<string>): Option<seq<string>> {
    if |parts| >= 2 && AllSpace(parts[0]) then Some(InnerCells(parts)) else None
  }

  lemma {:induction false} TrimEndBlank(s: string)
    requires AllSpace(s)
    ensures TrimEnd(s) == ""
  {
    assert s == "" + s;
    TrimEndSkips("", s);
  }

  /** Trimming the end of a row touches its last part only: a pipe is no white space. */
  lemma {:induction false} TrimEndOfCells(front: seq<string>, last: string)
    requires front != []
    ensures TrimEnd(Join(front + [last], '|')) == Join(front + [TrimEnd(last)], '|')
  {
    var before := Join(front, '|') + ['|'];
    JoinAppend(front, [last], '|');
    JoinAppend(front, [TrimEnd(last)], '|');
    if AllSpace(last) {
      TrimEndBlank(last);
      assert !IsSpace('|');
      TrimEndSkips(before, last);
      assert before + "" == before;
    } else {
      TrimEndKeeps(before, last);
    }
  }

  lemma {:induction false} JoinFirst(first: string, rest: seq<string>)
    requires rest != []
    ensures Join([first] + rest, '|') == first + (['|'] + Join(rest, '|'))
  {
    assert ([first] + rest)[1..] == rest;
  }

  lemma {:induction false} TrimStartOfCells(first: string, rest: seq<string>)
    requires AllSpace(first) && rest != []
    ensures TrimStart(Join([first] + rest, '|')) == Join([""] + rest, '|')
  {
    JoinFirst(first, rest);
    JoinFirst("", rest);
    assert "" + (['|'] + Join(rest, '|')) == ['|'] + Join(rest, '|');
    assert !IsSpace('|');
    TrimStartSkips(first, ['|'] + Join(rest, '|'));
  }

  lemma {:induction false} WithoutParts(first: string, middle: seq<string>, last: string)
    requires Without([first] + middle + [last], '|')
    ensures Without([""] + middle + [TrimEnd(last)], '|')
  {
    var parts, trimmed := [first] + middle + [last], [""] + middle + [TrimEnd(last)];
    TrimEndSpec(last);
    assert parts[|middle| + 1] == last;
    forall i | 0 <= i < |trimmed| ensures '|' !in trimmed[i] {
      assert 0 < i <= |middle| ==> trimmed[i] == parts[i];
    }
  }

  lemma {:induction false} TrimmedParts(first: string, middle: seq<string>, last: string)
    requires AllSpace(first) && Without([first] + middle + [last], '|')
    ensures Trim(Join([first] + (middle + [last]), '|')) == Join([""] + middle + [TrimEnd(last)], '|')
    ensures Split(Trim(Join([first] + (middle + [last]), '|')), '|') == [""] + middle + [TrimEnd(last)]
  {
    TrimStartOfCells(first, middle + [last]);
    assert [""] + (middle + [last]) == ([""] + middle) + [last];
    TrimEndOfCells([""] + middle, last);
    WithoutParts(first, middle, last);
    SplitJoin([""] + middle + [TrimEnd(last)], '|');
  }

  /** A line whose first part is blank is a row, and trimming it does not change its cells. */
  lemma {:induction false} RowFromParts(parts: seq<string>)
    requires |parts| >= 2 && AllSpace(parts[0]) && Without(parts, '|')
    ensures RowCells(Trim(Join(parts, '|'))) == Some(InnerCells(parts))
  {
    var first, middle, last := parts[0], parts[1..|parts| - 1], parts[|parts| - 1];
    assert parts == [first] + (middle + [last]);
    assert parts == [first] + middle + [last];
    TrimmedParts(first, middle, last);
    var trimmed := [""] + middle + [TrimEnd(last)];
    assert trimmed[1..|trimmed| - 1] == middle;
    assert trimmed == [""] + (middle + [TrimEnd(last)]);
    JoinFirst("", middle + [TrimEnd(last)]);
  }

  lemma {:induction false} PartsFromRow(line: string)
    requires Trim(line) != "" && Trim(line)[0] == '|'
    ensures |Split(line, '|')| >= 2 && AllSpace(Split(line, '|')[0])
  {
    var before, after := Around(line);
    var rest := Trim(line)[1..] + after;
    assert line == before + ['|'] + rest;
    assert !IsSpace('|');
    SplitFirst(before, '|', rest);
  }

  /** What a reader that trims the line sees is there in the untrimmed line. */
  lemma {:induction false} CellsOfLine(line: string)
    ensures RowCells(Trim(line)) == RawCells(Split(line, '|'))
  {
    var parts := Split(line, '|');
    JoinSplit(line, '|');
    SplitWithout(line, '|');
    if |parts| >= 2 && AllSpace(parts[0]) {
      RowFromParts(parts);
    } else if Trim(line) != "" && Trim(line)[0] == '|' {
      PartsFromRow(line);
    }
  }

  lemma {:induction false} EachUpdate(f: string -> string, xs: seq<string>, i: nat, x: string)
    requires i < |xs|
    ensures Each(f, xs[i := x]) == Each(f, xs)[i := f(x)]
    decreases |xs|
  {
    var front := xs[..|xs| - 1];
    if i == |xs| - 1 {
      assert xs[i := x][..|xs| - 1] == front;
    } else {
      assert xs[i := x][..|xs| - 1] == front[i := x];
      EachUpdate(f, front, i, x);
    }
  }

  lemma {:induction false} InnerUpdate(parts: seq<string>, column: nat, status: string)
    requires Trimmed(status) && column + 2 < |parts|
    ensures InnerCells(parts[column + 1 := " " + status + " "]) == InnerCells(parts)[column := status]
  {
    var inner := parts[1..|parts| - 1];
    assert parts[column + 1 := " " + status + " "][1..|parts| - 1] == inner[column := " " + status + " "];
    EachUpdate(Trim, inner, column, " " + status + " ");
    Spaced(status);
  }

  /** A status a caller may store: trimmed, not empty, on one line, without a pipe. */
  ghost predicate PlainStatus(status: string) {
    Trimmed(status) && status != "" && '|' !in status && '\n' !in status
  }

  /** Overwriting a cell of the untrimmed line overwrites that cell and no other. */
  lemma {:induction false} WithCellCells(line: string, column: nat, status: string)
    requires PlainStatus(status) && RowCells(Trim(line)).Some? && column < |RowCells(Trim(line)).value|
    ensures RowCells(Trim(WithCell(line, column, status))) == Some(RowCells(Trim(line)).value[column := status])
  {
    CellsOfLine(line);
    SplitWithout(line, '|');
    var parts := Split(line, '|');
    var changed := parts[column + 1 := " " + status + " "];
    assert Without(changed, '|');
    RowFromParts(changed);
    InnerUpdate(parts, column, status);
  }

  lemma {:induction false} WithCellOneLine(line: string, column: nat, status: string)
    requires PlainStatus(status) && '\n' !in line
    ensures '\n' !in WithCell(line, column, status)
  {
    var parts := Split(line, '|');
    if column + 1 < |parts| {
      var changed := parts[column + 1 := " " + status + " "];
      NewlineInPart(line, parts);
      InJoin(changed, '|', '\n');
    }
  }

  lemma {:induction false} NewlineInPart(line: string, parts: seq<string>)
    requires '\n' !in line && parts == Split(line, '|')
    ensures forall i :: 0 <= i < |parts| ==> '\n' !in parts[i]
  {
    JoinSplit(line, '|');
    forall i | 0 <= i < |parts| ensures '\n' !in parts[i] {
      if '\n' in parts[i] {
        PartInJoin(parts, i, '\n');
      }
    }
  }

  lemma {:induction false} PartInJoin(parts: seq<string>, i: nat, x: char)
    requires i < |parts| && x in parts[i]
    ensures x in Join(parts, '|')
    decreases |parts|
  {
    if i > 0 {
      assert parts[1..][i - 1] == parts[i];
      PartInJoin(parts[1..], i - 1, x);
    }
  }

  // ---------------------------------------------------------------------------
  // The whole document
  // ---------------------------------------------------------------------------

  lemma {:induction false} GridAt(trims: seq<string>, i: nat)
    requires i < |trims|
    ensures GridOfTrims(trims)[i] == RowCells(trims[i])
    decreases |trims|
  {
    if i < |trims| - 1 {
      GridAt(trims[..|trims| - 1], i);
    }
  }

  lemma {:induction false} SameGridOfTrims(a: seq<string>, b: seq<string>, n: nat)
    requires n <= |a| && n <= |b| && a[..n] == b[..n] && BlankAfter(a, n) && BlankAfter(b, n)
    ensures SameGrid(GridOfTrims(a), GridOfTrims(b))
  {
    forall i: nat ensures At(GridOfTrims(a), i) == At(GridOfTrims(b), i) {
      if i < |a| {
        GridAt(a, i);
      }
      if i < |b| {
        GridAt(b, i);
      }
      if i < n {
        assert a[i] == a[..n][i] == b[i];
      }
    }
  }

  lemma {:induction false} ClosedGrid(lines: seq<string>)
    requires lines != [] && NoNewlines(lines)
    ensures SameGrid(GridOf(TrimEnd(Join(lines, '\n')) + "\n"), GridOfTrims(Trims(lines)))
  {
    var kept := DropBlankEnd(lines);
    TrimsOfClosed(lines);
    assert (Trims(kept) + [""])[..|kept|] == Trims(kept);
    SameGridOfTrims(Trims(kept) + [""], Trims(lines), |kept|);
  }

  /** The row a phase has, when it is the only one. */
  ghost predicate UniqueRow(markdown: string, n: nat, row: Row, columns: Columns) {
    var g := GridOf(markdown);
    && FindHeader(TheReaders(), g).Some? && FindHeader(TheReaders(), g).value.columns == columns
    && RowsOf(InventoryRows(TheReaders(), g), n) == [row]
    && FindHeader(TheReaders(), g).value.line < row.lineIndex < |g| && g[row.lineIndex].Some?
    && columns.status < |g[row.lineIndex].value|
  }

  lemma {:induction false} UniqueRowStands(markdown: string, n: nat)
    requires |RowsOf(InventoryRows(TheReaders(), GridOf(markdown)), n)| == 1
    ensures FindHeader(TheReaders(), GridOf(markdown)).Some?
    ensures UniqueRow(markdown, n, RowsOf(InventoryRows(TheReaders(), GridOf(markdown)), n)[0],
                      FindHeader(TheReaders(), GridOf(markdown)).value.columns)
  {
    OneRowBelow(TheReaders(), GridOf(markdown), n);
  }

  lemma {:induction false} OneRowBelow(f: Readers, g: Grid, n: nat)
    requires |RowsOf(InventoryRows(f, g), n)| == 1
    ensures FindHeader(f, g).Some?
    ensures var row, header := RowsOf(InventoryRows(f, g), n)[0], FindHeader(f, g).value;
      && header.line < row.lineIndex < |g| && g[row.lineIndex].Some?
      && header.columns.status < |g[row.lineIndex].value|
  {
    OnlyRow(InventoryRows(f, g), n);
    var header := FindHeader(f, g).value;
    RowBelow(f, g, header, RowsOf(InventoryRows(f, g), n)[0]);
  }

  lemma {:induction false} RowBelow(f: Readers, g: Grid, header: Found, row: Row)
    requires row in Rows(f, g, header.columns, header.line + 1)
    ensures header.line < row.lineIndex < |g| && g[row.lineIndex].Some?
    ensures header.columns.status < |g[row.lineIndex].value|
  {
    RowStands(f, g, header.columns, header.line + 1, row);
  }

  /** The grid after replacing, cell for cell. */
  ghost function NewGrid(g: Grid, line: nat, column: nat, status: string): Grid
    requires line < |g| && g[line].Some? && column < |g[line].value|
  {
    g[line := Some(g[line].value[column := status])]
  }

  lemma {:induction false} ChangedGrid(lines: seq<string>, line: nat, column: nat, status: string)
    requires PlainStatus(status) && line < |lines|
    requires RowCells(Trim(lines[line])).Some? && column < |RowCells(Trim(lines[line])).value|
    ensures |GridOfTrims(Trims(lines))| == |lines| && GridOfTrims(Trims(lines))[line] == RowCells(Trim(lines[line]))
    ensures GridOfTrims(Trims(lines[line := WithCell(lines[line], column, status)]))
         == NewGrid(GridOfTrims(Trims(lines)), line, column, status)
  {
    var changed := WithCell(lines[line], column, status);
    EachUpdate(Trim, lines, line, changed);
    EachAt(Trim, lines, line);
    GridAt(Trims(lines), line);
    WithCellCells(lines[line], column, status);
    GridUpdate(Trims(lines), line, Trim(changed));
  }

  lemma {:induction false} GridUpdate(trims: seq<string>, line: nat, trimmed: string)
    requires line < |trims|
    ensures GridOfTrims(trims[line := trimmed]) == GridOfTrims(trims)[line := RowCells(trimmed)]
    decreases |trims|
  {
    var front := trims[..|trims| - 1];
    if line == |trims| - 1 {
      assert trims[line := trimmed][..|trims| - 1] == front;
    } else {
      assert trims[line := trimmed][..|trims| - 1] == front[line := trimmed];
      GridUpdate(front, line, trimmed);
    }
  }

  lemma {:induction false} GridOfLine(markdown: string, i: nat)
    requires i < |Lines(markdown)|
    ensures |GridOf(markdown)| == |Lines(markdown)| && GridOf(markdown)[i] == RowCells(Trim(Lines(markdown)[i]))
  {
    EachAt(Trim, Lines(markdown), i);
    GridAt(Trims(Lines(markdown)), i);
  }

  /** The lines of the document stay lines when one cell changes. */
  lemma {:induction false} ReplacedGrid(markdown: string, row: Row, column: nat, status: string)
    requires PlainStatus(status) && row.lineIndex < |GridOf(markdown)|
    requires GridOf(markdown)[row.lineIndex].Some? && column < |GridOf(markdown)[row.lineIndex].value|
    ensures |Lines(markdown)| == |GridOf(markdown)|
    ensures var lines := Lines(markdown);
      var changed := lines[row.lineIndex := WithCell(lines[row.lineIndex], column, status)];
      SameGrid(GridOf(TrimEnd(Join(changed, '\n')) + "\n"), NewGrid(GridOf(markdown), row.lineIndex, column, status))
  {
    var lines := Lines(markdown);
    assert |lines| == |GridOf(markdown)|;
    LinesNoNewlines(markdown);
    GridOfLine(markdown, row.lineIndex);
    var line := WithCell(lines[row.lineIndex], column, status);
    WithCellOneLine(lines[row.lineIndex], column, status);
    var changed := lines[row.lineIndex := line];
    ClosedGrid(changed);
    ChangedGrid(lines, row.lineIndex, column, status);
  }

  ghost predicate SameTable(markdown: string, other: string) {
    FindHeader(TheReaders(), GridOf(other)) == FindHeader(TheReaders(), GridOf(markdown))
  }

  lemma {:induction false} ReplaceIsNewGrid(markdown: string, n: nat, status: string, row: Row, columns: Columns)
    requires PlainStatus(status) && Replace(markdown, n, status).Some? && UniqueRow(markdown, n, row, columns)
    ensures SameGrid(GridOf(Replace(markdown, n, status).value), NewGrid(GridOf(markdown), row.lineIndex, columns.status, status))
  {
    ReplacedGrid(markdown, row, columns.status, status);
  }

  /** A status is replaced exactly when the phase has one row, no more and no fewer. */
  lemma {:induction false} ReplaceSomeIff(markdown: string, n: nat, status: string)
    ensures Replace(markdown, n, status).Some? <==> |RowsOf(InventoryRows(TheReaders(), GridOf(markdown)), n)| == 1
  {
    if |RowsOf(InventoryRows(TheReaders(), GridOf(markdown)), n)| == 1 {
      UniqueRowStands(markdown, n);
      GridLength(markdown);
    }
  }

  lemma {:induction false} GridLength(markdown: string)
    ensures |GridOf(markdown)| == |Lines(markdown)|
  {
  }

  /**
   * After a successful replacement the same table is still selected exactly when the table is of the
   * contract kind or the changed row has not become a header of that kind.
   */
  lemma {:induction false} ReplaceKeepsTableIff(markdown: string, n: nat, status: string, row: Row, columns: Columns)
    requires PlainStatus(status) && Replace(markdown, n, status).Some? && UniqueRow(markdown, n, row, columns)
    ensures SameTable(markdown, Replace(markdown, n, status).value)
       <==> columns.contract || !ContractHeader(TheReaders(), GridOf(markdown)[row.lineIndex].value[columns.status := status])
  {
    var f, g := TheReaders(), GridOf(markdown);
    var h := NewGrid(g, row.lineIndex, columns.status, status);
    ReplaceIsNewGrid(markdown, n, status, row, columns);
    InventorySame(f, GridOf(Replace(markdown, n, status).value), h);
    SameTableIff(f, g, h, row.lineIndex, status);
  }

  /** Any status that is not one of the four header words keeps the table. */
  lemma {:induction false} PlainWordKeepsTable(markdown: string, n: nat, status: string)
    requires PlainStatus(status) && Replace(markdown, n, status).Some? && !HeaderWord(Lower(status))
    ensures SameTable(markdown, Replace(markdown, n, status).value)
  {
    var f, g := TheReaders(), GridOf(markdown);
    ReplaceSomeIff(markdown, n, status);
    UniqueRowStands(markdown, n);
    var row := RowsOf(InventoryRows(f, g), n)[0];
    var header := FindHeader(f, g).value;
    ReplaceKeepsTableIff(markdown, n, status, row, header.columns);
    if !header.columns.contract {
      NoContractIff(f, g, 0);
      HeaderFrom(f, g, 0, true);
      PlainStatusIsNoHeader(f, g[row.lineIndex].value, header.columns.status, status);
    }
  }

  /**
   * With the table kept, reading the phase gives the new status, and reading any other phase gives
   * what it gave before.
   */
  lemma {:induction false} ReplaceThenRead(markdown: string, n: nat, status: string, m: nat)
    requires PlainStatus(status) && Replace(markdown, n, status).Some?
    requires SameTable(markdown, Replace(markdown, n, status).value)
    ensures ReadStatus(Replace(markdown, n, status).value, m) == if m == n then Some(status) else ReadStatus(markdown, m)
  {
    var f, g := TheReaders(), GridOf(markdown);
    ReplaceSomeIff(markdown, n, status);
    UniqueRowStands(markdown, n);
    var row := RowsOf(InventoryRows(f, g), n)[0];
    var columns := FindHeader(f, g).value.columns;
    var h := NewGrid(g, row.lineIndex, columns.status, status);
    ReplaceIsNewGrid(markdown, n, status, row, columns);
    InventorySame(f, GridOf(Replace(markdown, n, status).value), h);
    ReadersAreValid();
    ReadsAfterReplace(f, g, h, n, status, m);
  }

  /** Overwriting the cell and the line in place, as the source does. */
  method ReplaceFeatureTasksPhaseStatus(markdown: string, n: nat, status: string) returns (next: Option<string>)
    ensures next == Replace(markdown, n, status)
  {
    var rows := ReadInventoryRows(TheReaders(), GridOf(markdown));
    var matches := RowsOf(rows, n);
    if |matches| != 1 {
      return None;
    }
    UniqueRowStands(markdown, n);
    GridLength(markdown);
    var header := FindInventoryHeader(TheReaders(), GridOf(markdown));
    var row := matches[0];
    var lines := Lines(markdown);
    var cells := Split(lines[row.lineIndex], '|');
    var column := header.value.columns.status + 1;
    if column < |cells| {
      cells := cells[column := " " + status + " "];
    }
    JoinSplit(lines[row.lineIndex], '|');
    lines := lines[row.lineIndex := Join(cells, '|')];
    next := Some(TrimEnd(Join(lines, '\n')) + "\n");
  }
}
