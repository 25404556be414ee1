/**
 * The phase inventory of FeatureTasks.md as a grid of cells: which table is selected, which rows
 * it has, and what replacing one status cell does to both.
 */
module InventoryGrid {
  import opened Wrappers

  /** The cells of each line; None for a line that is no table row. */
  type Grid = seq<Option<seq<string>>>

  function At(g: Grid, i: nat): Option<seq<string>> {
    if i < |g| then g[i] else None
  }

  /** How single cells are read. */
  datatype Readers = Readers(contractNumber: string -> Option<nat>, legacyNumber: string -> Option<nat>,
                             lower: string -> string, separator: string -> bool)

  /** A separator cell names no phase, and neither does an absent one. */
  ghost predicate ValidReaders(f: Readers) {
    && (forall x :: f.separator(x) ==> f.contractNumber(x) == None && f.legacyNumber(x) == None)
    && f.contractNumber("") == None && f.legacyNumber("") == None
  }

  datatype Columns = Columns(contract: bool, number: nat, status: nat)

  datatype Found = Found(line: nat, columns: Columns)

  datatype Row = Row(lineIndex: nat, phaseNumber: nat, status: string)

  /** The first column headed by the word, if there is one. */
  function IndexOf(f: Readers, cells: seq<string>, word: string): (r: Option<nat>)
    ensures r.Some? ==> r.value < |cells| && f.lower(cells[r.value]) == word
    ensures r == None <==> forall i :: 0 <= i < |cells| ==> f.lower(cells[i]) != word
    decreases |cells|
  {
    if cells == [] then None
    else if f.lower(cells[0]) == word then Some(0)
    else
      var rest := IndexOf(f, cells[1..], word);
      assert forall i :: 0 < i < |cells| ==> cells[i] == cells[1..][i - 1];
      if rest == None then None else Some(rest.value + 1)
  }

  predicate ContractHeader(f: Readers, cells: seq<string>) {
    && IndexOf(f, cells, "status").Some? && IndexOf(f, cells, "document").Some?
    && IndexOf(f, cells, "contract id").Some? && IndexOf(f, cells, "role").Some?
  }

  function HeaderOf(f: Readers, cells: seq<string>): (r: Option<Columns>)
    ensures r.Some? ==> r.value.status < |cells| && r.value.number < |cells| && r.value.status != r.value.number
    ensures r.Some? && r.value.contract <==> ContractHeader(f, cells)
  {
    var status := IndexOf(f, cells, "status");
    if ContractHeader(f, cells) then Some(Columns(true, IndexOf(f, cells, "document").value, status.value))
    else
      var phase := IndexOf(f, cells, "phase");
      if phase.Some? && status.Some? then Some(Columns(false, phase.value, status.value)) else None
  }

  /** The first header from line i on, of the contract kind or of either. */
  function FirstHeader(f: Readers, g: Grid, i: nat, contractOnly: bool): Option<Found>
    decreases |g| - i
  {
    if i >= |g| then None
    else
      var columns := if g[i].Some? then HeaderOf(f, g[i].value) else None;
      if columns.Some? && (columns.value.contract || !contractOnly) then Some(Found(i, columns.value))
      else FirstHeader(f, g, i + 1, contractOnly)
  }

  function FindHeader(f: Readers, g: Grid): Option<Found> {
    var contract := FirstHeader(f, g, 0, true);
    if contract.Some? then contract else FirstHeader(f, g, 0, false)
  }

  function CellAt(cells: seq<string>, i: nat): string {
    if i < |cells| then cells[i] else ""
  }

  predicate AllSeparators(f: Readers, cells: seq<string>) {
    forall i :: 0 <= i < |cells| ==> f.separator(cells[i])
  }

  function NumberIn(f: Readers, columns: Columns, cells: seq<string>): Option<nat> {
    var cell := CellAt(cells, columns.number);
    if columns.contract then f.contractNumber(cell) else f.legacyNumber(cell)
  }

  function RowOf(f: Readers, columns: Columns, cells: seq<string>, i: nat): Option<Row> {
    var number := NumberIn(f, columns, cells);
    var status := CellAt(cells, columns.status);
    if AllSeparators(f, cells) || number == None || status == "" then None else Some(Row(i, number.value, status))
  }

  /** The rows below the header, up to the first line that is no table row. */
  function Rows(f: Readers, g: Grid, columns: Columns, i: nat): seq<Row>
    decreases |g| - i
  {
    if At(g, i) == None then []
    else
      var row := RowOf(f, columns, g[i].value, i);
      (if row.Some? then [row.value] else []) + Rows(f, g, columns, i + 1)
  }

  function InventoryRows(f: Readers, g: Grid): seq<Row> {
    var header := FindHeader(f, g);
    if header == None then [] else Rows(f, g, header.value.columns, header.value.line + 1)
  }

  function FindRow(rows: seq<Row>, n: nat): Option<Row>
    decreases |rows|
  {
    if rows == [] then None else if rows[0].phaseNumber == n then Some(rows[0]) else FindRow(rows[1..], n)
  }

  function StatusOf(rows: seq<Row>, n: nat): Option<string> {
    var row := FindRow(rows, n);
    if row.Some? then Some(row.value.status) else None
  }

  function RowsOf(rows: seq<Row>, n: nat): seq<Row>
    decreases |rows|
  {
    if rows == [] then [] else (if rows[0].phaseNumber == n then [rows[0]] else []) + RowsOf(rows[1..], n)
  }

  // ---------------------------------------------------------------------------
  // Lines past the end do not matter
  // ---------------------------------------------------------------------------

  ghost predicate SameGrid(g: Grid, h: Grid) {
    forall i: nat :: At(g, i) == At(h, i)
  }

  lemma {:induction false} HeadersSame(f: Readers, g: Grid, h: Grid, i: nat, contractOnly: bool)
    requires SameGrid(g, h)
    ensures FirstHeader(f, g, i, contractOnly) == FirstHeader(f, h, i, contractOnly)
    decreases |g| + |h| - i
  {
    assert At(g, i) == At(h, i);
    if i < |g| || i < |h| {
      HeadersSame(f, g, h, i + 1, contractOnly);
    }
  }

  lemma {:induction false} RowsSame(f: Readers, g: Grid, h: Grid, columns: Columns, i: nat)
    requires SameGrid(g, h)
    ensures Rows(f, g, columns, i) == Rows(f, h, columns, i)
    decreases |g| + |h| - i
  {
    assert At(g, i) == At(h, i);
    if At(g, i).Some? {
      RowsSame(f, g, h, columns, i + 1);
    }
  }

  lemma {:induction false} InventorySame(f: Readers, g: Grid, h: Grid)
    requires SameGrid(g, h)
    ensures FindHeader(f, g) == FindHeader(f, h) && InventoryRows(f, g) == InventoryRows(f, h)
  {
    HeadersSame(f, g, h, 0, true);
    HeadersSame(f, g, h, 0, false);
    if FindHeader(f, g).Some? {
      RowsSame(f, g, h, FindHeader(f, g).value.columns, FindHeader(f, g).value.line + 1);
    }
  }

  // ---------------------------------------------------------------------------
  // Replacing one status cell
  // ---------------------------------------------------------------------------

  /** Row r of the table below the header stands at a line of the grid and reads as such. */
  lemma {:induction false} RowStands(f: Readers, g: Grid, columns: Columns, i: nat, r: Row)
    requires r in Rows(f, g, columns, i)
    ensures i <= r.lineIndex < |g| && g[r.lineIndex].Some?
    ensures RowOf(f, columns, g[r.lineIndex].value, r.lineIndex) == Some(r)
    decreases |g| - i
  {
    var row := RowOf(f, columns, g[i].value, i);
    if row != Some(r) {
      RowStands(f, g, columns, i + 1, r);
    }
  }

  lemma {:induction false} RowKeepsNumber(f: Readers, columns: Columns, cells: seq<string>, i: nat, status: string)
    requires ValidReaders(f) && columns.number != columns.status
    requires RowOf(f, columns, cells, i).Some? && status != ""
    ensures columns.status < |cells|
    ensures RowOf(f, columns, cells[columns.status := status], i)
         == Some(Row(i, RowOf(f, columns, cells, i).value.phaseNumber, status))
  {
    var changed := cells[columns.status := status];
    assert columns.number < |cells|;
    assert changed[columns.number] == cells[columns.number];
    assert !f.separator(changed[columns.number]);
  }

  function WithStatus(rows: seq<Row>, line: nat, status: string): (r: seq<Row>)
    ensures |r| == |rows|
    ensures forall k :: 0 <= k < |rows| ==>
      r[k] == if rows[k].lineIndex == line then rows[k].(status := status) else rows[k]
    decreases |rows|
  {
    if rows == [] then []
    else [if rows[0].lineIndex == line then rows[0].(status := status) else rows[0]] + WithStatus(rows[1..], line, status)
  }

  lemma {:induction false} WithStatusConcat(a: seq<Row>, b: seq<Row>, line: nat, status: string)
    ensures WithStatus(a + b, line, status) == WithStatus(a, line, status) + WithStatus(b, line, status)
  {
  }

  ghost predicate Replaces(g: Grid, h: Grid, line: nat, column: nat, status: string) {
    && line < |g| && g[line].Some? && column < |g[line].value|
    && h == g[line := Some(g[line].value[column := status])]
  }

  lemma {:induction false} RowsReplaced(f: Readers, g: Grid, h: Grid, columns: Columns, i: nat, line: nat, status: string)
    requires ValidReaders(f) && columns.number != columns.status && status != ""
    requires Replaces(g, h, line, columns.status, status) && RowOf(f, columns, g[line].value, line).Some?
    ensures Rows(f, h, columns, i) == WithStatus(Rows(f, g, columns, i), line, status)
    decreases |g| - i
  {
    if i < |g| && g[i].Some? {
      RowsReplaced(f, g, h, columns, i + 1, line, status);
      var row := RowOf(f, columns, g[i].value, i);
      var first := if row.Some? then [row.value] else [];
      WithStatusConcat(first, Rows(f, g, columns, i + 1), line, status);
      if i == line {
        RowKeepsNumber(f, columns, g[line].value, line, status);
      }
    }
  }

  lemma {:induction false} HeadersBefore(f: Readers, g: Grid, h: Grid, i: nat, contractOnly: bool, line: nat)
    requires |g| == |h| && line < |g| && h == g[line := h[line]]
    requires FirstHeader(f, g, i, contractOnly).Some? && FirstHeader(f, g, i, contractOnly).value.line < line
    ensures FirstHeader(f, h, i, contractOnly) == FirstHeader(f, g, i, contractOnly)
    decreases |g| - i
  {
    HeaderFrom(f, g, i, contractOnly);
    if FirstHeader(f, g, i, contractOnly).value.line > i {
      HeadersBefore(f, g, h, i + 1, contractOnly, line);
    }
  }

  ghost predicate StandsAt(f: Readers, g: Grid, header: Found) {
    header.line < |g| && g[header.line].Some? && HeaderOf(f, g[header.line].value) == Some(header.columns)
  }

  lemma {:induction false} HeaderFrom(f: Readers, g: Grid, i: nat, contractOnly: bool)
    ensures var r := FirstHeader(f, g, i, contractOnly);
      r.Some? ==> i <= r.value.line < |g| && StandsAt(f, g, r.value) && (r.value.columns.contract || !contractOnly)
    decreases |g| - i
  {
    if i < |g| {
      HeaderFrom(f, g, i + 1, contractOnly);
    }
  }

  lemma {:induction false} NoContractIff(f: Readers, g: Grid, i: nat)
    ensures FirstHeader(f, g, i, true) == None
       <==> forall j: nat :: i <= j < |g| && g[j].Some? ==> !ContractHeader(f, g[j].value)
    decreases |g| - i
  {
    if i < |g| {
      NoContractIff(f, g, i + 1);
    }
  }

  /**
   * Replacing a status cell below the header keeps the selected table exactly when it does not turn
   * the row of a legacy table into a header of the contract kind.
   */
  lemma {:induction false} SameTableIff(f: Readers, g: Grid, h: Grid, line: nat, status: string)
    requires FindHeader(f, g).Some? && FindHeader(f, g).value.line < line
    requires Replaces(g, h, line, FindHeader(f, g).value.columns.status, status)
    ensures FindHeader(f, h) == FindHeader(f, g)
       <==> FindHeader(f, g).value.columns.contract || !ContractHeader(f, h[line].value)
  {
    var header := FindHeader(f, g).value;
    if FirstHeader(f, g, 0, true).Some? {
      HeaderFrom(f, g, 0, true);
      HeadersBefore(f, g, h, 0, true, line);
    } else {
      NoContractIff(f, g, 0);
      NoContractIff(f, h, 0);
      HeaderFrom(f, g, 0, false);
      HeadersBefore(f, g, h, 0, false, line);
      assert !ContractHeader(f, g[header.line].value);
      if ContractHeader(f, h[line].value) {
        HeaderFrom(f, h, 0, true);
      }
    }
  }

  ghost predicate HeaderWord(word: string) {
    word == "status" || word == "document" || word == "contract id" || word == "role"
  }

  /** A status that is no header word never does that. */
  lemma {:induction false} PlainStatusIsNoHeader(f: Readers, cells: seq<string>, column: nat, status: string)
    requires column < |cells| && !HeaderWord(f.lower(status)) && !ContractHeader(f, cells)
    ensures !ContractHeader(f, cells[column := status])
  {
    var changed := cells[column := status];
    if ContractHeader(f, changed) {
      WordStays(f, cells, column, status, "status");
      WordStays(f, cells, column, status, "document");
      WordStays(f, cells, column, status, "contract id");
      WordStays(f, cells, column, status, "role");
    }
  }

  lemma {:induction false} WordStays(f: Readers, cells: seq<string>, column: nat, status: string, word: string)
    requires column < |cells| && f.lower(status) != word && IndexOf(f, cells[column := status], word).Some?
    ensures IndexOf(f, cells, word).Some?
  {
    var changed := cells[column := status];
    var i := IndexOf(f, changed, word).value;
    assert i != column;
    assert cells[i] == changed[i];
  }

  lemma {:induction false} FindWithStatus(rows: seq<Row>, line: nat, status: string, n: nat, m: nat)
    requires forall k :: 0 <= k < |rows| ==> (rows[k].phaseNumber == n <==> rows[k].lineIndex == line)
    ensures StatusOf(WithStatus(rows, line, status), m)
         == if m == n && FindRow(rows, n).Some? then Some(status) else StatusOf(rows, m)
    decreases |rows|
  {
    if rows != [] {
      assert WithStatus(rows, line, status)[1..] == WithStatus(rows[1..], line, status);
      FindWithStatus(rows[1..], line, status, n, m);
    }
  }

  lemma {:induction false} OnlyRow(rows: seq<Row>, n: nat)
    requires |RowsOf(rows, n)| == 1
    ensures RowsOf(rows, n)[0] in rows && RowsOf(rows, n)[0].phaseNumber == n
    ensures forall k :: 0 <= k < |rows| && rows[k].phaseNumber == n ==> rows[k] == RowsOf(rows, n)[0]
    ensures FindRow(rows, n).Some?
    decreases |rows|
  {
    if rows[0].phaseNumber == n {
      NoMoreRows(rows[1..], n);
    } else {
      OnlyRow(rows[1..], n);
    }
    assert rows == [rows[0]] + rows[1..];
  }

  lemma {:induction false} NoMoreRows(rows: seq<Row>, n: nat)
    requires RowsOf(rows, n) == []
    ensures forall k :: 0 <= k < |rows| ==> rows[k].phaseNumber != n
    decreases |rows|
  {
    if rows != [] {
      NoMoreRows(rows[1..], n);
    }
  }

  /** Each line gives at most one row. */
  lemma {:induction false} OneRowPerLine(f: Readers, g: Grid, columns: Columns, i: nat, a: Row, b: Row)
    requires a in Rows(f, g, columns, i) && b in Rows(f, g, columns, i) && a.lineIndex == b.lineIndex
    ensures a == b
  {
    RowStands(f, g, columns, i, a);
    RowStands(f, g, columns, i, b);
  }

  /**
   * With the table still selected, reading the replaced phase gives the new status and reading any
   * other phase gives what it gave before.
   */
  lemma {:induction false} ReadsAfterReplace(f: Readers, g: Grid, h: Grid, n: nat, status: string, m: nat)
    requires ValidReaders(f) && status != "" && |RowsOf(InventoryRows(f, g), n)| == 1
    requires FindHeader(f, g).Some? && FindHeader(f, h) == FindHeader(f, g)
    requires Replaces(g, h, RowsOf(InventoryRows(f, g), n)[0].lineIndex, FindHeader(f, g).value.columns.status, status)
    ensures StatusOf(InventoryRows(f, h), m) == if m == n then Some(status) else StatusOf(InventoryRows(f, g), m)
  {
    var header := FindHeader(f, g).value;
    var rows := InventoryRows(f, g);
    OnlyRow(rows, n);
    var row := RowsOf(rows, n)[0];
    HeaderFrom(f, g, 0, true);
    HeaderFrom(f, g, 0, false);
    RowStands(f, g, header.columns, header.line + 1, row);
    RowsReplaced(f, g, h, header.columns, header.line + 1, row.lineIndex, status);
    forall k | 0 <= k < |rows| ensures rows[k].phaseNumber == n <==> rows[k].lineIndex == row.lineIndex {
      if rows[k].lineIndex == row.lineIndex {
        OneRowPerLine(f, g, header.columns, header.line + 1, rows[k], row);
      }
    }
    FindWithStatus(rows, row.lineIndex, status, n, m);
  }

  // ---------------------------------------------------------------------------
  // The loops
  // ---------------------------------------------------------------------------

  /** The first candidate header of this kind, if there is one. */
  function FirstOf(candidates: seq<Found>, contractOnly: bool): Option<Found>
    decreases |candidates|
  {
    if candidates == [] then None
    else if candidates[0].columns.contract || !contractOnly then Some(candidates[0])
    else FirstOf(candidates[1..], contractOnly)
  }

  function FirstOr(candidates: seq<Found>, contractOnly: bool, later: Option<Found>): Option<Found> {
    if FirstOf(candidates, contractOnly).Some? then FirstOf(candidates, contractOnly) else later
  }

  lemma {:induction false} FirstOfAppend(candidates: seq<Found>, c: Found, contractOnly: bool)
    ensures FirstOf(candidates + [c], contractOnly)
         == if FirstOf(candidates, contractOnly).Some? then FirstOf(candidates, contractOnly)
            else if c.columns.contract || !contractOnly then Some(c) else None
    decreases |candidates|
  {
    if candidates == [] {
      assert candidates + [c] == [c];
    } else {
      assert (candidates + [c])[1..] == candidates[1..] + [c];
      FirstOfAppend(candidates[1..], c, contractOnly);
    }
  }

  method FindInventoryHeader(f: Readers, g: Grid) returns (header: Option<Found>)
    ensures header == FindHeader(f, g)
  {
    var candidates: seq<Found> := [];
    var i := 0;
    while i < |g|
      invariant 0 <= i <= |g|
      invariant forall only :: FirstHeader(f, g, 0, only) == FirstOr(candidates, only, FirstHeader(f, g, i, only))
    {
      if g[i].Some? {
        var columns := HeaderOf(f, g[i].value);
        if columns.Some? {
          FirstOfAppend(candidates, Found(i, columns.value), true);
          FirstOfAppend(candidates, Found(i, columns.value), false);
          candidates := candidates + [Found(i, columns.value)];
        }
      }
      i := i + 1;
    }
    header := FirstOf(candidates, true);
    if header == None && candidates != [] {
      header := Some(candidates[0]);
    }
  }

  method ReadInventoryRows(f: Readers, g: Grid) returns (rows: seq<Row>)
    ensures rows == InventoryRows(f, g)
  {
    rows := [];
    var header := FindInventoryHeader(f, g);
    if header == None {
      return;
    }
    var columns := header.value.columns;
    var i := header.value.line + 1;
    while i < |g|
      invariant InventoryRows(f, g) == rows + Rows(f, g, columns, i)
      decreases |g| - i
    {
      if g[i] == None {
        break;
      }
      var row := RowOf(f, columns, g[i].value, i);
      if row.Some? {
        assert rows + ([row.value] + Rows(f, g, columns, i + 1)) == (rows + [row.value]) + Rows(f, g, columns, i + 1);
        rows := rows + [row.value];
      }
      i := i + 1;
    }
  }
}
