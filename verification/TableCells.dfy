/**
 * Markdown table rows of the manual-test pack: cells are escaped and cut to a length, rendered
 * between pipes, and read back by the HTML renderer.  Text is UTF-16 code units, because the
 * length limit counts them.
 */
module TableCells {
  import opened TextOrder

  const TAB: CodeUnit := 9
  const NEWLINE: CodeUnit := 10
  const RETURN: CodeUnit := 13
  const SPACE: CodeUnit := 32
  const BACKSLASH: CodeUnit := 92
  const PIPE: CodeUnit := 124
  const ELLIPSIS: CodeUnit := 0x2026

  const CELL_LIMIT := 120

  predicate SpaceUnit(c: CodeUnit) {
    || TAB <= c <= RETURN || c == SPACE || c == 0xA0 || c == 0x1680
    || 0x2000 <= c <= 0x200A || c == 0x2028 || c == 0x2029 || c == 0x202F || c == 0x205F
    || c == 0x3000 || c == 0xFEFF
  }

  function TrimUnitsStart(s: Text): Text
    decreases |s|
  {
    if s == [] || !SpaceUnit(s[0]) then s else TrimUnitsStart(s[1..])
  }

  function TrimUnitsEnd(s: Text): Text
    decreases |s|
  {
    if s == [] || !SpaceUnit(s[|s| - 1]) then s else TrimUnitsEnd(s[..|s| - 1])
  }

  ghost predicate CutAtStart(s: Text, r: Text) {
    |r| <= |s| && r == s[|s| - |r|..] && (r != [] ==> !SpaceUnit(r[0]))
  }

  lemma {:induction false} TrimStartCuts(s: Text)
    ensures CutAtStart(s, TrimUnitsStart(s))
    decreases |s|
  {
    if s != [] && SpaceUnit(s[0]) {
      TrimStartCuts(s[1..]);
    }
  }

  lemma {:induction false} TrimEndCuts(s: Text)
    ensures TrimUnitsEnd(s) <= s && (TrimUnitsEnd(s) != [] ==> !SpaceUnit(TrimUnitsEnd(s)[|TrimUnitsEnd(s)| - 1]))
    decreases |s|
  {
    if s != [] && SpaceUnit(s[|s| - 1]) {
      TrimEndCuts(s[..|s| - 1]);
    }
  }

  function TrimUnits(s: Text): Text {
    TrimUnitsEnd(TrimUnitsStart(s))
  }

  predicate TrimmedUnits(s: Text) {
    s == [] || (!SpaceUnit(s[0]) && !SpaceUnit(s[|s| - 1]))
  }

  // ---------------------------------------------------------------------------
  // Rendering
  // ---------------------------------------------------------------------------

  /** Pipes get a backslash, newlines become spaces; backslashes are left alone. */
  function EscapeText(s: Text): Text
    decreases |s|
  {
    if s == [] then []
    else (if s[0] == PIPE then [BACKSLASH, PIPE] else if s[0] == NEWLINE then [SPACE] else [s[0]]) + EscapeText(s[1..])
  }

  function EscapeCell(s: Text): Text {
    var escaped := EscapeText(s);
    if |escaped| > CELL_LIMIT then TrimUnitsEnd(escaped[..CELL_LIMIT - 1]) + [ELLIPSIS] else escaped
  }

  /** Everything after the leading pipe: each cell between spaces, closed by a pipe. */
  function RowBody(cells: seq<Text>): Text
    decreases |cells|
  {
    if cells == [] then [] else [SPACE] + EscapeCell(cells[0]) + [SPACE, PIPE] + RowBody(cells[1..])
  }

  function RenderRow(cells: seq<Text>): Text {
    [PIPE] + RowBody(cells)
  }

  // ---------------------------------------------------------------------------
  // Reading
  // ---------------------------------------------------------------------------

  /** The cells of the rest of a row whose last unit is not read, after part of a cell. */
  function Cells(t: Text, cell: Text): (r: seq<Text>)
    ensures r != []
    decreases |t|
  {
    if |t| <= 1 then [cell]
    else if t[0] == BACKSLASH && t[1] == PIPE then Cells(t[2..], cell + [PIPE])
    else if t[0] == PIPE then [cell] + Cells(t[1..], [])
    else Cells(t[1..], cell + [t[0]])
  }

  function RowCells(row: Text): seq<Text> {
    if row == [] then [[]] else Cells(row[1..], [])
  }

  lemma {:induction false} CellsEscaped(t: Text, cell: Text)
    requires |t| > 1 && t[0] == BACKSLASH && t[1] == PIPE
    ensures Cells(t, cell) == Cells(t[2..], cell + [PIPE])
  {
  }

  lemma {:induction false} CellsClosed(t: Text, cell: Text)
    requires |t| > 1 && t[0] == PIPE
    ensures Cells(t, cell) == [cell] + Cells(t[1..], [])
  {
  }

  lemma {:induction false} CellsPlain(t: Text, cell: Text)
    requires |t| > 1 && !(t[0] == BACKSLASH && t[1] == PIPE) && t[0] != PIPE
    ensures Cells(t, cell) == Cells(t[1..], cell + [t[0]])
  {
  }

  lemma {:induction false} CellsRegroup(cells: seq<Text>, cell: Text, more: seq<Text>)
    ensures cells + ([cell] + more) == (cells + [cell]) + more
  {
  }

  /** The scan of the source over the units between the first and the last. */
  method ParseMarkdownTableCells(row: Text) returns (cells: seq<Text>)
    ensures cells == RowCells(row)
  {
    cells := [];
    var cell: Text := [];
    var index := 1;
    while index < |row| - 1
      invariant 1 <= index
      invariant row == [] ==> cells == [] && cell == []
      invariant row != [] ==> index <= |row| && RowCells(row) == cells + Cells(row[index..], cell)
      decreases |row| - index
    {
      ghost var t := row[index..];
      assert t[1..] == row[index + 1..] && t[0] == row[index] && t[1] == row[index + 1];
      if row[index] == BACKSLASH && row[index + 1] == PIPE {
        CellsEscaped(t, cell);
        assert t[2..] == row[index + 2..];
        cell := cell + [PIPE];
        index := index + 1;
      } else if row[index] == PIPE {
        CellsClosed(t, cell);
        CellsRegroup(cells, cell, Cells(t[1..], []));
        cells := cells + [cell];
        cell := [];
      } else {
        CellsPlain(t, cell);
        cell := cell + [row[index]];
      }
      index := index + 1;
    }
    cells := cells + [cell];
  }

  /** What the reader makes of the rendered row: the parsed cells, trimmed. */
  function TrimAll(cells: seq<Text>): (r: seq<Text>)
    ensures |r| == |cells| && forall i :: 0 <= i < |cells| ==> r[i] == TrimUnits(cells[i])
    decreases |cells|
  {
    if cells == [] then [] else [TrimUnits(cells[0])] + TrimAll(cells[1..])
  }

  function ReadBack(cells: seq<Text>): seq<Text> {
    TrimAll(RowCells(RenderRow(cells)))
  }

  // ---------------------------------------------------------------------------
  // Reading undoes escaping
  // ---------------------------------------------------------------------------

  function Unescape(e: Text): Text
    decreases |e|
  {
    if e == [] then []
    else if |e| >= 2 && e[0] == BACKSLASH && e[1] == PIPE then [PIPE] + Unescape(e[2..])
    else [e[0]] + Unescape(e[1..])
  }

  /** Every pipe follows its own backslash, and there is no newline. */
  predicate Safe(e: Text)
    decreases |e|
  {
    if e == [] then true
    else if |e| >= 2 && e[0] == BACKSLASH && e[1] == PIPE then Safe(e[2..])
    else e[0] != PIPE && e[0] != NEWLINE && Safe(e[1..])
  }

  lemma {:induction false} EscapeIsSafe(s: Text)
    ensures Safe(EscapeText(s))
    ensures EscapeText(s) == [] || EscapeText(s)[0] != PIPE
    decreases |s|
  {
    if s != [] {
      var rest := EscapeText(s[1..]);
      EscapeIsSafe(s[1..]);
      if s[0] == PIPE {
        assert EscapeText(s)[2..] == rest;
      } else {
        assert EscapeText(s)[1..] == rest;
      }
    }
  }

  lemma {:induction false} UnescapeEscape(s: Text)
    requires NEWLINE !in s
    ensures Unescape(EscapeText(s)) == s
    decreases |s|
  {
    if s != [] {
      var rest := EscapeText(s[1..]);
      EscapeIsSafe(s[1..]);
      UnescapeEscape(s[1..]);
      if s[0] == PIPE {
        assert EscapeText(s)[2..] == rest;
      } else {
        assert EscapeText(s)[1..] == rest;
      }
    }
  }

  lemma {:induction false} EscapeUnescape(e: Text)
    requires Safe(e)
    ensures EscapeText(Unescape(e)) == e
    ensures NEWLINE !in Unescape(e)
    decreases |e|
  {
    if e != [] {
      if |e| >= 2 && e[0] == BACKSLASH && e[1] == PIPE {
        EscapeUnescape(e[2..]);
        assert ([PIPE] + Unescape(e[2..]))[1..] == Unescape(e[2..]);
        assert e == [BACKSLASH, PIPE] + e[2..];
      } else {
        EscapeUnescape(e[1..]);
        assert ([e[0]] + Unescape(e[1..]))[1..] == Unescape(e[1..]);
        assert e == [e[0]] + e[1..];
      }
    }
  }

  lemma {:induction false} SafePrefix(e: Text, n: nat)
    requires Safe(e) && n <= |e|
    ensures Safe(e[..n])
    decreases |e|
  {
    if n > 0 {
      if |e| >= 2 && e[0] == BACKSLASH && e[1] == PIPE {
        if n >= 2 {
          SafePrefix(e[2..], n - 2);
          assert e[..n][2..] == e[2..][..n - 2];
        }
      } else {
        SafePrefix(e[1..], n - 1);
        assert e[..n][1..] == e[1..][..n - 1];
      }
    }
  }

  lemma {:induction false} SafeAppend(e: Text, c: CodeUnit)
    requires Safe(e) && c != PIPE && c != NEWLINE
    ensures Safe(e + [c])
    decreases |e|
  {
    if e == [] {
      assert (e + [c])[1..] == [];
    } else if |e| >= 2 && e[0] == BACKSLASH && e[1] == PIPE {
      SafeAppend(e[2..], c);
      assert (e + [c])[2..] == e[2..] + [c];
    } else {
      SafeAppend(e[1..], c);
      assert (e + [c])[1..] == e[1..] + [c];
    }
  }

  lemma {:induction false} CellIsSafe(s: Text)
    ensures Safe(EscapeCell(s))
    ensures |EscapeCell(s)| <= CELL_LIMIT
  {
    var escaped := EscapeText(s);
    EscapeIsSafe(s);
    if |escaped| > CELL_LIMIT {
      var cut := TrimUnitsEnd(escaped[..CELL_LIMIT - 1]);
      TrimEndCuts(escaped[..CELL_LIMIT - 1]);
      assert cut == escaped[..|cut|];
      SafePrefix(escaped, |cut|);
      SafeAppend(cut, ELLIPSIS);
    }
  }

  /** The reader passes over safe text, undoing the escapes, as long as no pipe follows at once. */
  lemma {:induction false} CellsConsume(e: Text, rest: Text, cell: Text)
    requires Safe(e) && rest != [] && rest[0] != PIPE
    ensures Cells(e + rest, cell) == Cells(rest, cell + Unescape(e))
    decreases |e|
  {
    var t := e + rest;
    if e == [] {
      assert t == rest && cell + [] == cell;
    } else if |e| >= 2 && e[0] == BACKSLASH && e[1] == PIPE {
      assert t[2..] == e[2..] + rest;
      CellsConsume(e[2..], rest, cell + [PIPE]);
      assert cell + [PIPE] + Unescape(e[2..]) == cell + Unescape(e);
    } else {
      assert t[1..] == e[1..] + rest;
      CellsConsume(e[1..], rest, cell + [e[0]]);
      assert cell + [e[0]] + Unescape(e[1..]) == cell + Unescape(e);
    }
  }

  /** What the reader sees of one cell. */
  function Padded(s: Text): Text {
    [SPACE] + Unescape(EscapeCell(s)) + [SPACE]
  }

  /** From the space after a cell: the reader closes the cell at the pipe. */
  lemma {:induction false} CellsClose(cell: Text, more: Text)
    ensures Cells([SPACE, PIPE] + more, cell) == [cell + [SPACE]] + (if more == [] then [] else Cells(more, []))
  {
    var t := [SPACE, PIPE] + more;
    assert t[1..] == [PIPE] + more;
    assert ([PIPE] + more)[1..] == more;
    assert Cells(t, cell) == Cells([PIPE] + more, cell + [SPACE]);
  }

  lemma {:induction false} CellsOpen(e: Text, after: Text)
    requires after != []
    ensures Cells([SPACE] + (e + after), []) == Cells(e + after, [SPACE])
  {
    var t := [SPACE] + (e + after);
    assert t[1..] == e + after;
    assert [] + [SPACE] == [SPACE];
  }

  /** The reader takes one rendered cell off the row. */
  lemma {:induction false} CellsOne(s: Text, more: Text)
    ensures Cells([SPACE] + EscapeCell(s) + [SPACE, PIPE] + more, [])
         == [Padded(s)] + (if more == [] then [] else Cells(more, []))
  {
    var e := EscapeCell(s);
    var after := [SPACE, PIPE] + more;
    assert [SPACE] + e + [SPACE, PIPE] + more == [SPACE] + (e + after);
    CellsOpen(e, after);
    CellIsSafe(s);
    CellsConsume(e, after, [SPACE]);
    CellsClose([SPACE] + Unescape(e), more);
  }

  lemma {:induction false} RowBodyEmptyIff(cells: seq<Text>)
    ensures RowBody(cells) == [] <==> cells == []
  {
  }

  function PaddedAll(cells: seq<Text>): (r: seq<Text>)
    ensures |r| == |cells| && forall i :: 0 <= i < |cells| ==> r[i] == Padded(cells[i])
    decreases |cells|
  {
    if cells == [] then [] else [Padded(cells[0])] + PaddedAll(cells[1..])
  }

  lemma {:induction false} BodyCells(cells: seq<Text>)
    requires cells != []
    ensures Cells(RowBody(cells), []) == PaddedAll(cells)
    decreases |cells|
  {
    CellsOne(cells[0], RowBody(cells[1..]));
    RowBodyEmptyIff(cells[1..]);
    if |cells| > 1 {
      BodyCells(cells[1..]);
    }
  }

  lemma {:induction false} TrimStartStep(s: Text)
    requires s != [] && SpaceUnit(s[0])
    ensures TrimUnitsStart(s) == TrimUnitsStart(s[1..])
  {
  }

  lemma {:induction false} TrimStartStops(s: Text)
    requires s != [] && !SpaceUnit(s[0])
    ensures TrimUnitsStart(s) == s
  {
  }

  lemma {:induction false} TrimStartSpace()
    ensures TrimUnitsStart([SPACE]) == [] && TrimUnitsStart([]) == []
  {
    assert [SPACE][1..] == [];
  }

  lemma {:induction false} TrimStartAppend(s: Text)
    ensures TrimUnitsStart(s + [SPACE]) == if TrimUnitsStart(s) == [] then [] else TrimUnitsStart(s) + [SPACE]
    decreases |s|
  {
    if s == [] {
      TrimStartSpace();
      assert s + [SPACE] == [SPACE];
    } else if SpaceUnit(s[0]) {
      TrimStartStep(s);
      TrimStartStep(s + [SPACE]);
      assert (s + [SPACE])[1..] == s[1..] + [SPACE];
      TrimStartAppend(s[1..]);
    } else {
      TrimStartStops(s);
      TrimStartStops(s + [SPACE]);
    }
  }

  lemma {:induction false} TrimEndAppend(u: Text)
    ensures TrimUnitsEnd(u + [SPACE]) == TrimUnitsEnd(u)
  {
    assert (u + [SPACE])[..|u|] == u;
  }

  lemma {:induction false} TrimPadded(s: Text)
    ensures TrimUnits([SPACE] + s + [SPACE]) == TrimUnits(s)
  {
    var t := [SPACE] + s + [SPACE];
    assert t[1..] == s + [SPACE];
    TrimStartStep(t);
    TrimStartAppend(s);
    TrimEndAppend(TrimUnitsStart(s));
  }

  /** Reading any rendered row gives, cell by cell, the trimmed and unescaped form of what was rendered. */
  lemma {:induction false} ReadBackCell(cells: seq<Text>, i: nat)
    requires i < |cells|
    ensures |ReadBack(cells)| == |cells|
    ensures ReadBack(cells)[i] == TrimUnits(Unescape(EscapeCell(cells[i])))
  {
    BodyCells(cells);
    assert RenderRow(cells)[1..] == RowBody(cells);
    TrimPadded(Unescape(EscapeCell(cells[i])));
  }

  // ---------------------------------------------------------------------------
  // Main result
  // ---------------------------------------------------------------------------

  /** A cell a caller may rely on: no outer white space, no newline, and short enough once escaped. */
  predicate Readable(s: Text) {
    TrimmedUnits(s) && NEWLINE !in s && |EscapeText(s)| <= CELL_LIMIT
  }

  lemma {:induction false} TrimOfTrimmed(s: Text)
    ensures TrimmedUnits(s) ==> TrimUnits(s) == s
    ensures TrimmedUnits(TrimUnits(s))
  {
    TrimStartCuts(s);
    TrimEndCuts(TrimUnitsStart(s));
  }

  lemma {:induction false} EscapeConcat(a: Text, b: Text)
    ensures EscapeText(a + b) == EscapeText(a) + EscapeText(b)
    decreases |a|
  {
    if a == [] {
      assert a + b == b;
    } else {
      assert (a + b)[1..] == a[1..] + b;
      EscapeConcat(a[1..], b);
    }
  }

  /** Trimming never makes the escaped form longer. */
  lemma {:induction false} TrimShortensEscape(s: Text)
    ensures |EscapeText(TrimUnits(s))| <= |EscapeText(s)|
    ensures forall c :: c in TrimUnits(s) ==> c in s
  {
    var u := TrimUnitsStart(s);
    var r := TrimUnitsEnd(u);
    TrimStartCuts(s);
    TrimEndCuts(u);
    assert s == s[..|s| - |u|] + u;
    assert u == r + u[|r|..];
    EscapeConcat(s[..|s| - |u|], u);
    EscapeConcat(r, u[|r|..]);
  }

  /** One cell survives rendering and reading exactly when it is readable. */
  lemma {:induction false} CellSurvivesIff(s: Text)
    ensures TrimUnits(Unescape(EscapeCell(s))) == s <==> Readable(s)
  {
    var e := EscapeCell(s);
    var u := Unescape(e);
    if Readable(s) {
      UnescapeEscape(s);
      TrimOfTrimmed(s);
    }
    if TrimUnits(u) == s {
      CellIsSafe(s);
      EscapeUnescape(e);
      TrimOfTrimmed(u);
      TrimShortensEscape(u);
    }
  }

  /**
   * A rendered row reads back as the same cells exactly when every cell is trimmed, free of
   * newlines, and within the length limit once escaped - whatever backslashes and pipes it holds.
   */
  lemma {:induction false} RowSurvivesIff(cells: seq<Text>)
    requires cells != []
    ensures ReadBack(cells) == cells <==> forall i :: 0 <= i < |cells| ==> Readable(cells[i])
  {
    forall i | 0 <= i < |cells|
      ensures |ReadBack(cells)| == |cells| && (ReadBack(cells)[i] == cells[i] <==> Readable(cells[i]))
    {
      ReadBackCell(cells, i);
      CellSurvivesIff(cells[i]);
    }
    assert 0 < |cells| && |ReadBack(cells)| == |cells|;
    if forall i :: 0 <= i < |cells| ==> Readable(cells[i]) {
      assert forall i :: 0 <= i < |cells| ==> ReadBack(cells)[i] == cells[i];
    }
  }
}
