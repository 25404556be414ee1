/** The phase status table as a document shows it: its cells, the line that heads it, and its rows. */
module InventoryRules {
  import opened Wrappers
  import opened Text
  import opened TextLines
  import opened Spelling
  import opened InventoryGrid
  import opened FeatureTasksStatus

  // ---------------------------------------------------------------------------
  // Cells
  // ---------------------------------------------------------------------------

  /** The line, trimmed, begins with a pipe and is cut at its pipes. */
  ghost predicate LineParts(line: string, core: string, parts: seq<string>) {
    && IsTrimmed(line, core) && core != "" && core[0] == '|'
    && |parts| >= 2 && Without(parts, '|') && core == Join(parts, '|')
  }

  /** The cells of a line: what stands between its pipes, trimmed; not the text before the first pipe or after the last. */
  ghost predicate CellsBetween(parts: seq<string>, cells: seq<string>) {
    |parts| == |cells| + 2 && forall i :: 0 <= i < |cells| ==> IsTrimmed(parts[i + 1], cells[i])
  }

  ghost predicate CellsOf(line: string, cells: seq<string>) {
    exists core, parts :: LineParts(line, core, parts) && CellsBetween(parts, cells)
  }

  lemma {:induction false} InnerCellsIff(parts: seq<string>, cells: seq<string>)
    requires |parts| >= 2
    ensures InnerCells(parts) == cells <==> CellsBetween(parts, cells)
  {
    var inner := parts[1..|parts| - 1];
    forall i | 0 <= i < |inner| ensures Trims(inner)[i] == Trim(parts[i + 1]) {
      EachAt(Trim, inner, i);
    }
    if |cells| == |inner| {
      forall i | 0 <= i < |cells| ensures Trim(parts[i + 1]) == cells[i] <==> IsTrimmed(parts[i + 1], cells[i]) {
        TrimIff(parts[i + 1], cells[i]);
      }
    }
  }

  lemma {:induction false} PipeSplits(core: string)
    requires core != "" && core[0] == '|'
    ensures |Split(core, '|')| >= 2
  {
    FindUnique(core, '|', 0);
  }

  /** A line has exactly the cells between its pipes, and has any only when it begins with a pipe. */
  lemma {:induction false} LineCellsIff(line: string, cells: seq<string>)
    ensures RowCells(Trim(line)) == Some(cells) <==> CellsOf(line, cells)
  {
    var core := Trim(line);
    TrimIff(line, core);
    if RowCells(core) == Some(cells) {
      var parts := Split(core, '|');
      PipeSplits(core);
      SplitWithout(core, '|');
      JoinSplit(core, '|');
      InnerCellsIff(parts, cells);
      assert LineParts(line, core, parts);
    }
    if text, parts :| LineParts(line, text, parts) && CellsBetween(parts, cells) {
      TrimIff(line, text);
      SplitJoin(parts, '|');
      InnerCellsIff(parts, cells);
    }
  }

  /** A cell of dashes, two at least, with a colon before and after or not. */
  ghost predicate DashesIn(cell: string, left: string, dashes: string, right: string) {
    && cell == left + dashes + right && (left == "" || left == ":") && (right == "" || right == ":")
    && |dashes| >= 2 && forall i :: 0 <= i < |dashes| ==> dashes[i] == '-'
  }

  ghost predicate Rule(cell: string) {
    exists left, dashes, right :: DashesIn(cell, left, dashes, right)
  }

  lemma {:induction false} ColonDropped(left: string, rest: string)
    requires (left == "" || left == ":") && (rest == "" || rest[0] != ':')
    ensures DropColon(left + rest) == rest
  {
    if left == "" {
      assert left + rest == rest;
    } else {
      assert (left + rest)[1..] == rest;
    }
  }

  lemma {:induction false} LastColonDropped(dashes: string, right: string)
    requires (right == "" || right == ":") && (dashes == "" || dashes[|dashes| - 1] != ':')
    ensures DropLastColon(dashes + right) == dashes
  {
    if right == "" {
      assert dashes + right == dashes;
    } else {
      assert (dashes + right)[..|dashes|] == dashes;
    }
  }

  lemma {:induction false} ColonWas(cell: string) returns (left: string)
    ensures (left == "" || left == ":") && cell == left + DropColon(cell)
  {
    left := if cell != "" && cell[0] == ':' then ":" else "";
    assert left == "" ==> cell == "" + cell;
  }

  lemma {:induction false} LastColonWas(cell: string) returns (right: string)
    ensures (right == "" || right == ":") && cell == DropLastColon(cell) + right
  {
    right := if cell != "" && cell[|cell| - 1] == ':' then ":" else "";
    assert right == "" ==> cell == cell + "";
  }

  lemma {:induction false} SeparatorIff(cell: string)
    ensures IsSeparator(cell) <==> Rule(cell)
  {
    if IsSeparator(cell) {
      var left := ColonWas(cell);
      var right := LastColonWas(DropColon(cell));
      var dashes := DropLastColon(DropColon(cell));
      assert left + (dashes + right) == left + dashes + right;
      assert DashesIn(cell, left, dashes, right);
    }
    if left, dashes, right :| DashesIn(cell, left, dashes, right) {
      RuleSeparates(left, dashes, right);
    }
  }

  lemma {:induction false} RuleSeparates(left: string, dashes: string, right: string)
    requires DashesIn(left + dashes + right, left, dashes, right)
    ensures IsSeparator(left + dashes + right)
  {
    assert left + dashes + right == left + (dashes + right);
    assert (dashes + right)[0] == dashes[0];
    ColonDropped(left, dashes + right);
    LastColonDropped(dashes, right);
  }

  // ---------------------------------------------------------------------------
  // The header
  // ---------------------------------------------------------------------------

  /** The first column headed by the word, in any case. */
  ghost predicate Heads(cells: seq<string>, word: string, column: nat) {
    && column < |cells| && Spells(cells[column], word)
    && forall i :: 0 <= i < column ==> !Spells(cells[i], word)
  }

  ghost predicate Headed(cells: seq<string>, word: string) {
    exists i :: 0 <= i < |cells| && Spells(cells[i], word)
  }

  /** A contract header has the words document, contract id, role and status. */
  ghost predicate ContractHead(cells: seq<string>) {
    Headed(cells, "document") && Headed(cells, "contract id") && Headed(cells, "role") && Headed(cells, "status")
  }

  /** A legacy header has the words phase and status, and not all of the other three. */
  ghost predicate LegacyHead(cells: seq<string>) {
    Headed(cells, "phase") && Headed(cells, "status") && !ContractHead(cells)
  }

  lemma {:induction false} IndexIff(cells: seq<string>, word: string, column: nat)
    requires NoCapitals(word)
    ensures IndexOf(TheReaders(), cells, word) == Some(column) <==> Heads(cells, word, column)
    ensures IndexOf(TheReaders(), cells, word).Some? <==> Headed(cells, word)
    decreases |cells|
  {
    forall i | 0 <= i < |cells| ensures TheReaders().lower(cells[i]) == word <==> Spells(cells[i], word) {
      SpellsIff(cells[i], word);
    }
    if cells != [] {
      IndexIff(cells[1..], word, if column > 0 then column - 1 else 0);
      if column > 0 {
        assert Heads(cells, word, column) <==> !Spells(cells[0], word) && Heads(cells[1..], word, column - 1) by {
          assert forall i :: 0 < i < |cells| ==> cells[i] == cells[1..][i - 1];
          assert forall i :: 0 <= i < |cells| - 1 ==> cells[1..][i] == cells[i + 1];
        }
      }
    }
  }

  lemma {:induction false} ContractHeadIff(cells: seq<string>)
    ensures ContractHeader(TheReaders(), cells) <==> ContractHead(cells)
  {
    IndexIff(cells, "status", 0);
    IndexIff(cells, "document", 0);
    IndexIff(cells, "contract id", 0);
    IndexIff(cells, "role", 0);
  }

  /** The columns of a header line. */
  ghost predicate HeadColumns(cells: seq<string>, columns: Columns) {
    && (if columns.contract then ContractHead(cells) else LegacyHead(cells))
    && Heads(cells, if columns.contract then "document" else "phase", columns.number)
    && Heads(cells, "status", columns.status)
  }

  lemma {:induction false} HeaderOfIff(cells: seq<string>, columns: Columns)
    ensures HeaderOf(TheReaders(), cells) == Some(columns) <==> HeadColumns(cells, columns)
    ensures HeaderOf(TheReaders(), cells).Some? <==> ContractHead(cells) || LegacyHead(cells)
  {
    ContractHeadIff(cells);
    IndexIff(cells, "status", columns.status);
    IndexIff(cells, "document", columns.number);
    IndexIff(cells, "phase", columns.number);
  }

  /** A header line of the contract kind, or of either. */
  ghost predicate HeadLine(g: Grid, i: nat, contractOnly: bool) {
    i < |g| && g[i].Some? && (ContractHead(g[i].value) || (!contractOnly && LegacyHead(g[i].value)))
  }

  /** The first such line from a position on. */
  ghost predicate FirstHead(g: Grid, from: nat, found: Found, contractOnly: bool) {
    && from <= found.line && HeadLine(g, found.line, contractOnly) && HeadColumns(g[found.line].value, found.columns)
    && forall j: nat :: from <= j < found.line ==> !HeadLine(g, j, contractOnly)
  }

  /** What is made of one line in search of a header. */
  function HeaderAt(g: Grid, i: nat, contractOnly: bool): Option<Columns> {
    if i >= |g| || g[i] == None then None
    else
      var columns := HeaderOf(TheReaders(), g[i].value);
      if columns.Some? && (columns.value.contract || !contractOnly) then columns else None
  }

  lemma {:induction false} HeaderAtIff(g: Grid, i: nat, contractOnly: bool)
    ensures HeaderAt(g, i, contractOnly).Some? <==> HeadLine(g, i, contractOnly)
    ensures HeaderAt(g, i, contractOnly).Some? ==> HeadColumns(g[i].value, HeaderAt(g, i, contractOnly).value)
  {
    if i < |g| && g[i].Some? {
      var columns := HeaderOf(TheReaders(), g[i].value);
      ContractHeadIff(g[i].value);
      HeaderOfIff(g[i].value, if columns.Some? then columns.value else Columns(true, 0, 0));
    }
  }

  /** The first position with something, and what is there. */
  ghost predicate FirstOfAll(at: nat -> Option<Columns>, from: nat, to: nat, found: Option<Found>) {
    if found.Some? then
      && from <= found.value.line < to && at(found.value.line) == Some(found.value.columns)
      && forall j: nat :: from <= j < found.value.line ==> at(j) == None
    else forall j: nat :: from <= j < to ==> at(j) == None
  }

  lemma {:induction false} FirstOfAllStep(at: nat -> Option<Columns>, from: nat, to: nat, found: Option<Found>)
    requires from < to && at(from) == None && FirstOfAll(at, from + 1, to, found)
    ensures FirstOfAll(at, from, to, found)
  {
  }

  lemma {:induction false} FirstHeaderIs(g: Grid, from: nat, contractOnly: bool)
    requires from <= |g|
    ensures FirstOfAll((j: nat) => HeaderAt(g, j, contractOnly), from, |g|, FirstHeader(TheReaders(), g, from, contractOnly))
    decreases |g| - from
  {
    if from < |g| {
      FirstHeaderIs(g, from + 1, contractOnly);
      if HeaderAt(g, from, contractOnly) == None {
        FirstOfAllStep((j: nat) => HeaderAt(g, j, contractOnly), from, |g|, FirstHeader(TheReaders(), g, from + 1, contractOnly));
      }
    }
  }

  /** What is found at a line is its header. */
  ghost predicate Shows(at: nat -> Option<Columns>, g: Grid, j: nat, contractOnly: bool) {
    && (at(j).Some? <==> HeadLine(g, j, contractOnly))
    && (at(j).Some? ==> j < |g| && g[j].Some? && HeadColumns(g[j].value, at(j).value))
  }

  lemma {:induction false} FirstShown(at: nat -> Option<Columns>, g: Grid, contractOnly: bool, found: Option<Found>)
    requires FirstOfAll(at, 0, |g|, found) && forall j: nat :: Shows(at, g, j, contractOnly)
    ensures if found.Some? then FirstHead(g, 0, found.value, contractOnly)
      else forall j: nat :: j < |g| ==> !HeadLine(g, j, contractOnly)
  {
    if found.Some? {
      assert Shows(at, g, found.value.line, contractOnly);
      forall j: nat | 0 <= j < found.value.line ensures !HeadLine(g, j, contractOnly) {
        assert Shows(at, g, j, contractOnly);
      }
    } else {
      forall j: nat | j < |g| ensures !HeadLine(g, j, contractOnly) {
        assert Shows(at, g, j, contractOnly);
      }
    }
  }

  lemma {:induction false} FirstHeadIs(g: Grid, contractOnly: bool)
    ensures var found := FirstHeader(TheReaders(), g, 0, contractOnly);
      if found.Some? then FirstHead(g, 0, found.value, contractOnly)
      else forall j: nat :: j < |g| ==> !HeadLine(g, j, contractOnly)
  {
    var at := (j: nat) => HeaderAt(g, j, contractOnly);
    FirstHeaderIs(g, 0, contractOnly);
    forall j: nat ensures Shows(at, g, j, contractOnly) {
      HeaderAtIff(g, j, contractOnly);
    }
    FirstShown(at, g, contractOnly, FirstHeader(TheReaders(), g, 0, contractOnly));
  }

  /** The table is the first one with a contract header, or, without any, the first one with a legacy header. */
  ghost predicate TableAt(g: Grid, found: Found) {
    || (found.columns.contract && FirstHead(g, 0, found, true))
    || (!found.columns.contract && FirstHead(g, 0, found, false) && forall j: nat :: j < |g| ==> !HeadLine(g, j, true))
  }

  /** The selected table, exactly; and there is one exactly when some line is a header. */
  lemma {:induction false} TableSelected(g: Grid)
    ensures var found := FindHeader(TheReaders(), g);
      if found.Some? then TableAt(g, found.value) else forall j: nat :: j < |g| ==> !HeadLine(g, j, false)
  {
    FirstHeadIs(g, true);
    FirstHeadIs(g, false);
    var contract := FirstHeader(TheReaders(), g, 0, true);
    if contract.Some? {
      assert ContractHead(g[contract.value.line].value);
    }
  }

  // ---------------------------------------------------------------------------
  // The rows
  // ---------------------------------------------------------------------------

  function Cell(cells: seq<string>, i: nat): string {
    if i < |cells| then cells[i] else ""
  }

  /** A line of the table that is no rule, names a phase and has a status. */
  ghost predicate RowLine(cells: seq<string>, columns: Columns, n: nat, status: string) {
    && (exists i :: 0 <= i < |cells| && !Rule(cells[i]))
    && (if columns.contract then ReadContractPhaseNumber(Cell(cells, columns.number)) == Some(n)
        else ReadLegacyPhaseNumber(Cell(cells, columns.number)) == Some(n))
    && status != "" && Cell(cells, columns.status) == status
  }

  /** A row on a line of the block of table lines that starts at a position. */
  ghost predicate RowFrom(g: Grid, from: nat, columns: Columns, r: Row) {
    && from <= r.lineIndex < |g| && (forall j :: from <= j <= r.lineIndex ==> g[j].Some?)
    && RowLine(g[r.lineIndex].value, columns, r.phaseNumber, r.status)
  }

  lemma {:induction false} RowOfIff(columns: Columns, cells: seq<string>, i: nat, r: Row)
    ensures RowOf(TheReaders(), columns, cells, i) == Some(r) <==>
      r.lineIndex == i && RowLine(cells, columns, r.phaseNumber, r.status)
  {
    forall k | 0 <= k < |cells| ensures TheReaders().separator(cells[k]) <==> Rule(cells[k]) {
      SeparatorIff(cells[k]);
    }
  }

  lemma {:induction false} RowsUnfold(g: Grid, columns: Columns, from: nat, r: Row)
    requires At(g, from).Some?
    ensures r in Rows(TheReaders(), g, columns, from) <==>
      (r.lineIndex == from && RowLine(g[from].value, columns, r.phaseNumber, r.status))
      || r in Rows(TheReaders(), g, columns, from + 1)
  {
    var row := RowOf(TheReaders(), columns, g[from].value, from);
    RowOfIff(columns, g[from].value, from, r);
    var front := if row.Some? then [row.value] else [];
    assert Rows(TheReaders(), g, columns, from) == front + Rows(TheReaders(), g, columns, from + 1);
    assert r in front <==> row == Some(r);
  }

  lemma {:induction false} RowFromStep(g: Grid, from: nat, columns: Columns, r: Row)
    requires from < |g| && g[from].Some?
    ensures RowFrom(g, from, columns, r) <==>
      (r.lineIndex == from && RowLine(g[from].value, columns, r.phaseNumber, r.status)) || RowFrom(g, from + 1, columns, r)
  {
  }

  lemma {:induction false} NoRowFrom(g: Grid, from: nat, columns: Columns, r: Row)
    requires At(g, from) == None
    ensures !RowFrom(g, from, columns, r)
  {
    assert from < |g| ==> g[from] == None;
  }

  lemma {:induction false} RowsFromIff(g: Grid, columns: Columns, from: nat, r: Row)
    ensures r in Rows(TheReaders(), g, columns, from) <==> RowFrom(g, from, columns, r)
    decreases |g| - from
  {
    if At(g, from).Some? {
      RowsUnfold(g, columns, from, r);
      RowsFromIff(g, columns, from + 1, r);
      RowFromStep(g, from, columns, r);
    } else {
      NoRowFrom(g, from, columns, r);
    }
  }

  lemma {:induction false} RowsRise(g: Grid, columns: Columns, from: nat)
    ensures var rows := Rows(TheReaders(), g, columns, from);
      forall i, j :: 0 <= i < j < |rows| ==> rows[i].lineIndex < rows[j].lineIndex
    decreases |g| - from
  {
    if At(g, from).Some? {
      var row := RowOf(TheReaders(), columns, g[from].value, from);
      var rest := Rows(TheReaders(), g, columns, from + 1);
      RowsRise(g, columns, from + 1);
      forall i | 0 <= i < |rest| ensures from < rest[i].lineIndex {
        RowStands(TheReaders(), g, columns, from + 1, rest[i]);
      }
      assert row.Some? ==> row.value.lineIndex == from;
      assert Rows(TheReaders(), g, columns, from) == (if row.Some? then [row.value] else []) + rest;
    }
  }

  /** The rows of the inventory, exactly, in the order of their lines. */
  lemma {:induction false} InventoryIff(g: Grid, r: Row)
    ensures r in InventoryRows(TheReaders(), g) <==>
      var found := FindHeader(TheReaders(), g);
      found.Some? && RowFrom(g, found.value.line + 1, found.value.columns, r)
    ensures var rows := InventoryRows(TheReaders(), g);
      forall i, j :: 0 <= i < j < |rows| ==> rows[i].lineIndex < rows[j].lineIndex
  {
    var found := FindHeader(TheReaders(), g);
    if found.Some? {
      RowsFromIff(g, found.value.columns, found.value.line + 1, r);
      RowsRise(g, found.value.columns, found.value.line + 1);
    }
  }

  lemma {:induction false} FindRowIff(rows: seq<Row>, n: nat)
    ensures if FindRow(rows, n).Some? then
        exists i :: 0 <= i < |rows| && FindRow(rows, n) == Some(rows[i]) && rows[i].phaseNumber == n
          && forall j :: 0 <= j < i ==> rows[j].phaseNumber != n
      else forall i :: 0 <= i < |rows| ==> rows[i].phaseNumber != n
    decreases |rows|
  {
    if rows != [] && rows[0].phaseNumber != n {
      FindRowIff(rows[1..], n);
      if FindRow(rows, n).Some? {
        var i :| 0 <= i < |rows[1..]| && FindRow(rows[1..], n) == Some(rows[1..][i]) && rows[1..][i].phaseNumber == n
          && forall j :: 0 <= j < i ==> rows[1..][j].phaseNumber != n;
        assert rows[i + 1] == rows[1..][i];
        assert forall j :: 0 < j <= i ==> rows[j] == rows[1..][j - 1];
      }
    }
  }

  /** A phase reads as the status of its first row, and as none when no row names it. */
  lemma {:induction false} FirstRowRead(markdown: string, n: nat)
    ensures var rows := InventoryRows(TheReaders(), GridOf(markdown));
      if FeatureTasksStatus.ReadStatus(markdown, n).Some? then
        exists i :: 0 <= i < |rows| && rows[i].phaseNumber == n && FeatureTasksStatus.ReadStatus(markdown, n) == Some(rows[i].status)
          && forall j :: 0 <= j < i ==> rows[j].phaseNumber != n
      else forall i :: 0 <= i < |rows| ==> rows[i].phaseNumber != n
  {
    FindRowIff(InventoryRows(TheReaders(), GridOf(markdown)), n);
  }

  /** The grid holds, line by line, the cells of the document. */
  lemma {:induction false} GridShows(markdown: string, i: nat, cells: seq<string>)
    requires i < |Lines(markdown)|
    ensures |GridOf(markdown)| == |Lines(markdown)|
    ensures GridOf(markdown)[i] == Some(cells) <==> CellsOf(Lines(markdown)[i], cells)
  {
    var lines := Lines(markdown);
    EachAt(Trim, lines, i);
    GridAt(Trims(lines), i);
    LineCellsIff(lines[i], cells);
  }

  lemma {:induction false} GridAt(trims: seq<string>, i: nat)
    requires i < |trims|
    ensures GridOfTrims(trims)[i] == RowCells(trims[i])
    decreases |trims|
  {
    if i < |trims| - 1 {
      GridAt(trims[..|trims| - 1], i);
    }
  }

  // ---------------------------------------------------------------------------
  // Replacing a status
  // ---------------------------------------------------------------------------

  /** Row r is the only row of its phase. */
  ghost predicate OnlyRowOf(rows: seq<Row>, r: Row) {
    exists i :: 0 <= i < |rows| && rows[i] == r && forall j :: 0 <= j < |rows| && j != i ==> rows[j].phaseNumber != r.phaseNumber
  }

  lemma {:induction false} SingleRow(rows: seq<Row>, n: nat)
    requires |RowsOf(rows, n)| == 1
    ensures RowsOf(rows, n)[0].phaseNumber == n && OnlyRowOf(rows, RowsOf(rows, n)[0])
    decreases |rows|
  {
    var rest := rows[1..];
    if rows[0].phaseNumber == n {
      NoMoreRows(rest, n);
      assert forall j :: 0 < j < |rows| ==> rows[j] == rest[j - 1];
    } else {
      SingleRow(rest, n);
      var i :| 0 <= i < |rest| && rest[i] == RowsOf(rest, n)[0]
        && forall j :: 0 <= j < |rest| && j != i ==> rest[j].phaseNumber != n;
      assert rows[i + 1] == rest[i];
      assert forall j :: 0 < j < |rows| ==> rows[j] == rest[j - 1];
    }
  }

  /** The document with one part of one line, cut at its pipes, overwritten by the status between spaces. */
  ghost predicate Overwritten(lines: seq<string>, k: nat, parts: seq<string>, part: nat, status: string, text: string) {
    && k < |lines| && part < |parts| && parts != [] && Without(parts, '|') && lines[k] == Join(parts, '|')
    && text == TrimEnd(Join(lines[k := Join(parts[part := " " + status + " "], '|')], '\n')) + "\n"
  }

  /** A replaced status is written into the status part of the line of the phase's only row; everything else is kept. */
  lemma {:induction false} ReplacedText(markdown: string, n: nat, status: string) returns (r: Row, parts: seq<string>)
    requires Replace(markdown, n, status).Some?
    ensures FindHeader(TheReaders(), GridOf(markdown)).Some?
    ensures r.phaseNumber == n && OnlyRowOf(InventoryRows(TheReaders(), GridOf(markdown)), r)
    ensures var column := FindHeader(TheReaders(), GridOf(markdown)).value.columns.status;
      Overwritten(Lines(markdown), r.lineIndex, parts, column + 1, status, Replace(markdown, n, status).value)
  {
    var rows := InventoryRows(TheReaders(), GridOf(markdown));
    SingleRow(rows, n);
    r := RowsOf(rows, n)[0];
    InventoryIff(GridOf(markdown), r);
    var column := FindHeader(TheReaders(), GridOf(markdown)).value.columns.status;
    parts := LineIsParts(Lines(markdown)[r.lineIndex]);
    StatusPart(markdown, r.lineIndex, column);
  }

  lemma {:induction false} LineIsParts(line: string) returns (parts: seq<string>)
    ensures parts == Split(line, '|') && parts != [] && Without(parts, '|') && line == Join(parts, '|')
  {
    parts := Split(line, '|');
    SplitWithout(line, '|');
    JoinSplit(line, '|');
  }

  lemma {:induction false} StatusPart(markdown: string, k: nat, column: nat)
    requires k < |Lines(markdown)| && k < |GridOf(markdown)| && GridOf(markdown)[k].Some? && column < |GridOf(markdown)[k].value|
    ensures column + 1 < |Split(Lines(markdown)[k], '|')|
  {
    var line := Lines(markdown)[k];
    EachAt(Trim, Lines(markdown), k);
    GridAt(Trims(Lines(markdown)), k);
    TrimmedPipes(line);
  }

  lemma {:induction false} TrimmedPipes(line: string)
    ensures |Split(Trim(line), '|')| <= |Split(line, '|')|
  {
    var i, j := TrimPlace(line);
    assert line == line[..i] + line[i..j] + line[j..];
    PipesInside(line[..i], line[i..j], line[j..]);
  }

  lemma {:induction false} PipesInside(a: string, b: string, c: string)
    ensures |Split(b, '|')| <= |Split(a + b + c, '|')|
  {
    PipesCount(b);
    PipesCount(a + b + c);
    CountAdds(a + b, c);
    CountAdds(a, b);
  }

  function Pipes(s: string): nat
    decreases |s|
  {
    if s == "" then 0 else (if s[0] == '|' then 1 else 0) + Pipes(s[1..])
  }

  lemma {:induction false} CountAdds(a: string, b: string)
    ensures Pipes(a + b) == Pipes(a) + Pipes(b)
    decreases |a|
  {
    if a == "" {
      assert a + b == b;
    } else {
      assert (a + b)[1..] == a[1..] + b;
      CountAdds(a[1..], b);
    }
  }

  lemma {:induction false} NoPipes(s: string)
    requires '|' !in s
    ensures Pipes(s) == 0
    decreases |s|
  {
    if s != "" {
      NoPipes(s[1..]);
    }
  }

  lemma {:induction false} PipesCount(s: string)
    ensures |Split(s, '|')| == Pipes(s) + 1
    decreases |s|
  {
    var n := Find(s, '|');
    NoPipes(s[..n]);
    if n < |s| {
      assert s == s[..n] + (['|'] + s[n + 1..]);
      CountAdds(s[..n], ['|'] + s[n + 1..]);
      assert (['|'] + s[n + 1..])[1..] == s[n + 1..];
      PipesCount(s[n + 1..]);
    } else {
      assert s[..n] == s;
    }
  }
}
