/** A legacy inventory whose row becomes a header of the contract kind when its status is replaced. */
module InventoryGap {
  import opened Wrappers
  import opened Text
  import opened TextLines
  import opened InventoryGrid
  import opened FeatureTasksStatus
  import opened PhaseDocuments

  // ---------------------------------------------------------------------------
  // A document of two table lines
  // ---------------------------------------------------------------------------

  function Padded(cells: seq<string>): (r: seq<string>)
    ensures |r| == |cells| && forall i :: 0 <= i < |r| ==> r[i] == " " + cells[i] + " "
  {
    seq(|cells|, i requires 0 <= i < |cells| => " " + cells[i] + " ")
  }

  function CellLine(cells: seq<string>): string {
    Join([""] + Padded(cells) + [""], '|')
  }

  function TwoLines(head: seq<string>, row: seq<string>): string {
    Join([CellLine(head), CellLine(row)], '\n')
  }

  ghost predicate PlainCells(cells: seq<string>) {
    forall i :: 0 <= i < |cells| ==> PlainStatus(cells[i])
  }

  lemma {:induction false} TrimsPadded(cells: seq<string>)
    requires PlainCells(cells)
    ensures Trims(Padded(cells)) == cells
  {
    forall i | 0 <= i < |cells| ensures Trims(Padded(cells))[i] == cells[i] {
      EachAt(Trim, Padded(cells), i);
      Spaced(cells[i]);
    }
  }

  lemma {:induction false} CellLineReads(cells: seq<string>)
    requires PlainCells(cells)
    ensures RowCells(Trim(CellLine(cells))) == Some(cells)
    ensures '\n' !in CellLine(cells)
  {
    var parts := [""] + Padded(cells) + [""];
    assert Without(parts, '|');
    RowFromParts(parts);
    assert parts[1..|parts| - 1] == Padded(cells);
    TrimsPadded(cells);
    InJoin(parts, '|', '\n');
  }

  lemma {:induction false} TwoLinesGrid(head: seq<string>, row: seq<string>)
    requires PlainCells(head) && PlainCells(row)
    ensures GridOf(TwoLines(head, row)) == [Some(head), Some(row)]
  {
    var lines := [CellLine(head), CellLine(row)];
    CellLineReads(head);
    CellLineReads(row);
    TrimsOfJoin(lines);
    EachAt(Trim, lines, 0);
    EachAt(Trim, lines, 1);
    var trims := Trims(lines);
    assert trims == [Trim(CellLine(head)), Trim(CellLine(row))];
    assert trims[..1] == [trims[0]] && trims[..1][..0] == [];
    assert GridOfTrims([]) == [];
    assert GridOfTrims(trims[..1]) == [RowCells(trims[0])];
  }

  // ---------------------------------------------------------------------------
  // The two lines
  // ---------------------------------------------------------------------------

  function LegacyHead(): seq<string> {
    ["phase", "status", "a", "b", "c"]
  }

  function LegacyRow(status: string): seq<string> {
    ["1", status, "document", "contract id", "role"]
  }

  /** The words of the two lines, in lower case as they stand. */
  lemma {:induction false} Words()
    ensures |"phase"| == 5 && |"status"| == 6 && |"document"| == 8 && |"contract id"| == 11 && |"role"| == 4
    ensures Lower("phase") == "phase" && Lower("status") == "status" && Lower("document") == "document"
    ensures Lower("contract id") == "contract id" && Lower("role") == "role"
    ensures PlainCells(LegacyHead())
    ensures PlainStatus("1") && PlainStatus("document") && PlainStatus("contract id") && PlainStatus("role")
  {
  }

  lemma {:induction false} FoundAtOnly(f: Readers, cells: seq<string>, word: string, k: nat)
    requires k < |cells| && f.lower(cells[k]) == word
    requires forall i :: 0 <= i < |cells| && i != k ==> f.lower(cells[i]) != word
    ensures IndexOf(f, cells, word) == Some(k)
  {
  }

  lemma {:induction false} LengthKept(s: string)
    ensures |TheReaders().lower(s)| == |s|
  {
  }

  lemma {:induction false} HeadIsLegacy()
    ensures HeaderOf(TheReaders(), LegacyHead()) == Some(Columns(false, 0, 1))
  {
    var f, head := TheReaders(), LegacyHead();
    Words();
    forall i | 0 <= i < |head| ensures |f.lower(head[i])| == |head[i]| {
      LengthKept(head[i]);
    }
    FoundAtOnly(f, head, "phase", 0);
    FoundAtOnly(f, head, "status", 1);
    assert IndexOf(f, head, "document") == None;
  }

  lemma {:induction false} RowIsNoHeader(status: string)
    requires Lower(status) != "status" && Lower(status) != "phase"
    ensures HeaderOf(TheReaders(), LegacyRow(status)) == None
  {
    var f, row := TheReaders(), LegacyRow(status);
    Words();
    forall i | 0 <= i < |row| && i != 1 ensures |f.lower(row[i])| == |row[i]| {
      LengthKept(row[i]);
    }
    assert IndexOf(f, row, "status") == None;
    assert IndexOf(f, row, "phase") == None;
  }

  lemma {:induction false} RowBecomesHeader(status: string)
    requires Lower(status) == "status"
    ensures ContractHeader(TheReaders(), LegacyRow(status))
  {
    var f, row := TheReaders(), LegacyRow(status);
    Words();
    assert f.lower(row[1]) == "status" && f.lower(row[2]) == "document";
    assert f.lower(row[3]) == "contract id" && f.lower(row[4]) == "role";
  }

  lemma {:induction false} OneIsOne()
    ensures TheReaders().legacyNumber("1") == Some(1) && !TheReaders().separator("1")
  {
    assert Trim("1") == "1";
    assert "1"[..1] == "1" && "1"[1..] == "" && LeadingDigits("1") == 1;
    assert DigitsValue("1"[..0]) == 0;
  }

  lemma {:induction false} OnlyPhaseOne(status: string)
    requires status != ""
    ensures RowOf(TheReaders(), Columns(false, 0, 1), LegacyRow(status), 1) == Some(Row(1, 1, status))
  {
    OneIsOne();
    assert LegacyRow(status)[0] == "1";
  }

  lemma {:induction false} LegacySelected(f: Readers, g: Grid, columns: Columns)
    requires |g| == 2 && g[0].Some? && g[1].Some?
    requires HeaderOf(f, g[0].value) == Some(columns) && !columns.contract && HeaderOf(f, g[1].value) == None
    ensures FindHeader(f, g) == Some(Found(0, columns))
  {
    assert FirstHeader(f, g, 2, true) == None;
    assert FirstHeader(f, g, 1, true) == None;
    assert FirstHeader(f, g, 0, true) == None;
  }

  lemma {:induction false} LegacyRows(f: Readers, g: Grid, columns: Columns, row: Row)
    requires |g| == 2 && g[1].Some? && RowOf(f, columns, g[1].value, 1) == Some(row)
    ensures Rows(f, g, columns, 1) == [row]
  {
    assert Rows(f, g, columns, 2) == [];
  }

  lemma {:induction false} TwoLinesUnique(markdown: string, head: seq<string>, row: seq<string>, columns: Columns, found: Row)
    requires GridOf(markdown) == [Some(head), Some(row)] && !columns.contract
    requires HeaderOf(TheReaders(), head) == Some(columns) && HeaderOf(TheReaders(), row) == None
    requires RowOf(TheReaders(), columns, row, 1) == Some(found) && columns.status < |row|
    ensures UniqueRow(markdown, found.phaseNumber, found, columns)
  {
    var f, g := TheReaders(), GridOf(markdown);
    LegacySelected(f, g, columns);
    LegacyRows(f, g, columns, found);
    assert [found][1..] == [];
    assert RowsOf([], found.phaseNumber) == [];
  }

  /** The document with this status, and the table it selects. */
  lemma {:induction false} LegacyDocument(status: string)
    requires PlainStatus(status) && Lower(status) != "status" && Lower(status) != "phase"
    ensures var markdown := TwoLines(LegacyHead(), LegacyRow(status));
      && GridOf(markdown) == [Some(LegacyHead()), Some(LegacyRow(status))]
      && UniqueRow(markdown, 1, Row(1, 1, status), Columns(false, 0, 1))
  {
    var head, row := LegacyHead(), LegacyRow(status);
    PlainRow(status);
    TwoLinesGrid(head, row);
    HeadIsLegacy();
    RowIsNoHeader(status);
    OnlyPhaseOne(status);
    TwoLinesUnique(TwoLines(head, row), head, row, Columns(false, 0, 1), Row(1, 1, status));
  }

  lemma {:induction false} PlainRow(status: string)
    requires PlainStatus(status)
    ensures PlainCells(LegacyHead()) && PlainCells(LegacyRow(status))
  {
    Words();
  }

  lemma {:induction false} RowTakes(markdown: string, n: nat, word: string, row: Row, columns: Columns, changed: seq<string>)
    requires UniqueRow(markdown, n, row, columns) && !columns.contract && PlainStatus(word)
    requires changed == GridOf(markdown)[row.lineIndex].value[columns.status := word]
    requires ContractHeader(TheReaders(), changed)
    ensures Replace(markdown, n, word).Some? && !SameTable(markdown, Replace(markdown, n, word).value)
  {
    ReplaceSomeIff(markdown, n, word);
    ReplaceKeepsTableIff(markdown, n, word, row, columns);
  }

  lemma {:induction false} ChangedRow(status: string, word: string)
    ensures LegacyRow(status)[1 := word] == LegacyRow(word)
  {
  }

  lemma {:induction false} LegacyRowTakes(markdown: string, status: string, word: string)
    requires GridOf(markdown) == [Some(LegacyHead()), Some(LegacyRow(status))]
    requires UniqueRow(markdown, 1, Row(1, 1, status), Columns(false, 0, 1))
    requires PlainStatus(word) && Lower(word) == "status"
    ensures Replace(markdown, 1, word).Some? && !SameTable(markdown, Replace(markdown, 1, word).value)
  {
    RowBecomesHeader(word);
    ChangedRow(status, word);
    RowTakes(markdown, 1, word, Row(1, 1, status), Columns(false, 0, 1), LegacyRow(word));
  }

  /** Storing the word "status" for phase 1 makes its row the header of the table that is read next. */
  lemma {:induction false} RowTakesOver(markdown: string, status: string, word: string)
    requires PlainStatus(status) && Lower(status) != "status" && Lower(status) != "phase"
    requires PlainStatus(word) && Lower(word) == "status" && markdown == TwoLines(LegacyHead(), LegacyRow(status))
    ensures Replace(markdown, 1, word).Some? && !SameTable(markdown, Replace(markdown, 1, word).value)
  {
    LegacyDocument(status);
    LegacyRowTakes(markdown, status, word);
  }
}
