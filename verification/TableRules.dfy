/** Table rows in numbers: which units are escaped, cut, trimmed and split at. */
module TableRules {
  import opened TextOrder
  import opened TableCells

  /** White space, code unit by code unit. */
  predicate White(c: CodeUnit) {
    c in {
      9, 10, 11, 12, 13, 32, 0xA0, 0x1680,
      0x2000, 0x2001, 0x2002, 0x2003, 0x2004, 0x2005, 0x2006, 0x2007, 0x2008, 0x2009, 0x200A,
      0x2028, 0x2029, 0x202F, 0x205F, 0x3000, 0xFEFF}
  }

  lemma {:induction false} WhiteIff(c: CodeUnit)
    ensures SpaceUnit(c) <==> White(c)
  {
  }

  // ---------------------------------------------------------------------------
  // Writing
  // ---------------------------------------------------------------------------

  /** What a unit is written as: a pipe after a backslash, a newline as a space, anything else as it is. */
  function Written(c: CodeUnit): Text {
    if c == 124 then [92, 124] else if c == 10 then [32] else [c]
  }

  function WrittenAll(s: Text): Text
    decreases |s|
  {
    if s == [] then [] else WrittenAll(s[..|s| - 1]) + Written(s[|s| - 1])
  }

  /** Up to 120 written units stay; of more, 119 without the white space they end in, and an ellipsis. */
  ghost predicate CellFor(s: Text, cell: Text) {
    var all := WrittenAll(s);
    if |all| <= 120 then cell == all else exists n: nat :: CutAt(all, n, cell)
  }

  ghost predicate CutAt(all: Text, n: nat, cell: Text) {
    && n <= 119 <= |all| && cell == all[..n] + [0x2026]
    && (forall k :: n <= k < 119 ==> White(all[k])) && (n > 0 ==> !White(all[n - 1]))
  }

  lemma {:induction false} WrittenIs(s: Text)
    ensures EscapeText(s) == WrittenAll(s)
    decreases |s|
  {
    if s != [] {
      var before, last := s[..|s| - 1], [s[|s| - 1]];
      WrittenIs(before);
      EscapeConcat(before, last);
      assert s == before + last;
      assert last[1..] == [];
      assert EscapeText(last) == Written(last[0]);
    }
  }

  lemma {:induction false} TrimmedAt(s: Text, n: nat)
    requires n <= |s| && (forall k :: n <= k < |s| ==> White(s[k])) && (n > 0 ==> !White(s[n - 1]))
    ensures TrimUnitsEnd(s) == s[..n]
    decreases |s|
  {
    if |s| == n {
      assert s[..n] == s;
      if n > 0 {
        WhiteIff(s[n - 1]);
      }
    } else {
      WhiteIff(s[|s| - 1]);
      TrimmedAt(s[..|s| - 1], n);
      assert s[..|s| - 1][..n] == s[..n];
    }
  }

  lemma {:induction false} WhiteTail(s: Text) returns (n: nat)
    ensures n <= |s| && (forall k :: n <= k < |s| ==> White(s[k])) && (n > 0 ==> !White(s[n - 1]))
  {
    n := |s|;
    while n > 0 && White(s[n - 1])
      invariant n <= |s| && forall k :: n <= k < |s| ==> White(s[k])
    {
      n := n - 1;
    }
  }

  lemma {:induction false} CutIs(all: Text, n: nat, cell: Text)
    requires CutAt(all, n, cell)
    ensures TrimUnitsEnd(all[..119]) + [0x2026] == cell
  {
    TrimmedAt(all[..119], n);
    assert all[..119][..n] == all[..n];
  }

  /** A cell is written so, and in no other way. */
  lemma {:induction false} CellIs(s: Text, cell: Text)
    ensures EscapeCell(s) == cell <==> CellFor(s, cell)
  {
    var all := WrittenAll(s);
    WrittenIs(s);
    if |all| > 120 {
      var n := WhiteTail(all[..119]);
      assert CutAt(all, n, all[..n] + [0x2026]);
      CutIs(all, n, all[..n] + [0x2026]);
      if m: nat :| CutAt(all, m, cell) {
        CutIs(all, m, cell);
      }
    }
  }

  /** A row: a pipe, and each text between spaces with a pipe after it. */
  function RowText(texts: seq<Text>): Text
    decreases |texts|
  {
    if texts == [] then [124] else RowText(texts[..|texts| - 1]) + [32] + texts[|texts| - 1] + [32, 124]
  }

  lemma {:induction false} BodyGrows(cells: seq<Text>, last: Text)
    ensures RowBody(cells + [last]) == RowBody(cells) + ([32] + EscapeCell(last) + [32, 124])
    decreases |cells|
  {
    if cells == [] {
      assert (cells + [last])[1..] == [];
      assert RowBody([]) == [];
    } else {
      assert (cells + [last])[1..] == cells[1..] + [last];
      BodyGrows(cells[1..], last);
    }
  }

  lemma {:induction false} Regroup(a: Text, b: Text, c: Text, d: Text, e: Text)
    ensures a + (b + (c + d + e)) == a + b + c + d + e
  {
    assert a + (b + (c + d + e)) == (a + b) + (c + d + e);
  }

  lemma {:induction false} RowGrows(cells: seq<Text>, last: Text)
    ensures RenderRow(cells + [last]) == RenderRow(cells) + [32] + EscapeCell(last) + [32, 124]
  {
    BodyGrows(cells, last);
    Regroup([124], RowBody(cells), [32], EscapeCell(last), [32, 124]);
  }

  /** The rendered row, unit by unit: every cell as it is written. */
  lemma {:induction false} RowIs(cells: seq<Text>) returns (texts: seq<Text>)
    ensures |texts| == |cells| && forall i :: 0 <= i < |cells| ==> CellFor(cells[i], texts[i])
    ensures RenderRow(cells) == RowText(texts)
    decreases |cells|
  {
    texts := [];
    if cells != [] {
      var before, last := cells[..|cells| - 1], cells[|cells| - 1];
      var cell := EscapeCell(last);
      texts := RowIs(before);
      assert cells == before + [last];
      RowGrows(before, last);
      CellIs(last, cell);
      assert (texts + [cell])[..|texts|] == texts;
      texts := texts + [cell];
    }
  }

  // ---------------------------------------------------------------------------
  // Reading
  // ---------------------------------------------------------------------------

  /** Every pipe in it has a backslash before it, and it does not end in one. */
  predicate Piece(e: Text) {
    && (forall k :: 0 <= k < |e| && e[k] == 124 ==> k > 0 && e[k - 1] == 92)
    && (e != [] ==> e[|e| - 1] != 92)
  }

  /** Without the backslashes that stand before a pipe. */
  function Unslashed(e: Text): Text
    decreases |e|
  {
    if e == [] then []
    else (if e[0] == 92 && |e| > 1 && e[1] == 124 then [] else [e[0]]) + Unslashed(e[1..])
  }

  /** The pieces with a pipe between them. */
  function Piped(pieces: seq<Text>): Text
    decreases |pieces|
  {
    if pieces == [] then [] else if |pieces| == 1 then pieces[0] else pieces[0] + [124] + Piped(pieces[1..])
  }

  predicate PieceFrom(e: Text) {
    && (forall k :: 0 < k < |e| && e[k] == 124 ==> e[k - 1] == 92)
    && (e != [] ==> e[|e| - 1] != 92)
  }

  lemma {:induction false} PieceRead(e: Text, rest: Text, cell: Text)
    requires PieceFrom(e) && (e != [] ==> e[0] != 124) && rest != []
    ensures Cells(e + rest, cell) == Cells(rest, cell + Unslashed(e))
    decreases |e|
  {
    var t := e + rest;
    if e == [] {
      assert t == rest && cell + [] == cell;
    } else if |e| > 1 && e[0] == 92 && e[1] == 124 {
      PieceTail(e);
      PieceRead(e[2..], rest, cell + [124]);
      PipeRead(e, rest, cell);
    } else {
      assert t[1..] == e[1..] + rest;
      PieceRead(e[1..], rest, cell + [e[0]]);
      assert cell + [e[0]] + Unslashed(e[1..]) == cell + Unslashed(e);
    }
  }

  lemma {:induction false} PipeRead(e: Text, rest: Text, cell: Text)
    requires |e| > 1 && e[0] == 92 && e[1] == 124 && rest != [] && Unslashed(e[1..]) == [124] + Unslashed(e[2..])
    requires Cells(e[2..] + rest, cell + [124]) == Cells(rest, (cell + [124]) + Unslashed(e[2..]))
    ensures Cells(e + rest, cell) == Cells(rest, cell + Unslashed(e))
  {
    CellsEscaped(e + rest, cell);
    assert (e + rest)[2..] == e[2..] + rest;
    assert Unslashed(e) == [124] + Unslashed(e[2..]);
    assert (cell + [124]) + Unslashed(e[2..]) == cell + Unslashed(e);
  }

  lemma {:induction false} PieceTail(e: Text)
    requires PieceFrom(e) && |e| > 1 && e[1] == 124
    ensures PieceFrom(e[2..]) && (e[2..] != [] ==> e[2..][0] != 124)
    ensures Unslashed(e[1..]) == [124] + Unslashed(e[2..])
  {
    assert e[1..][1..] == e[2..];
  }

  ghost predicate AllPieces(pieces: seq<Text>) {
    forall i :: 0 <= i < |pieces| ==> Piece(pieces[i])
  }

  function UnslashedEach(pieces: seq<Text>): (r: seq<Text>)
    ensures |r| == |pieces| && forall i :: 0 <= i < |r| ==> r[i] == Unslashed(pieces[i])
  {
    seq(|pieces|, i requires 0 <= i < |pieces| => Unslashed(pieces[i]))
  }

  lemma {:induction false} PiecesRead(pieces: seq<Text>, last: CodeUnit)
    requires pieces != [] && AllPieces(pieces)
    ensures Cells(Piped(pieces) + [last], []) == UnslashedEach(pieces)
    decreases |pieces|
  {
    var first := pieces[0];
    assert [] + Unslashed(first) == Unslashed(first);
    if |pieces| == 1 {
      PieceRead(first, [last], []);
    } else {
      var rest := Piped(pieces[1..]) + [last];
      assert Piped(pieces) + [last] == first + ([124] + rest);
      PieceRead(first, [124] + rest, []);
      assert ([124] + rest)[1..] == rest;
      PiecesRead(pieces[1..], last);
      assert UnslashedEach(pieces) == [Unslashed(first)] + UnslashedEach(pieces[1..]);
    }
  }

  /** A row is split at the pipes that no backslash precedes, whatever its first and last unit are. */
  lemma {:induction false} CellsAre(first: CodeUnit, pieces: seq<Text>, last: CodeUnit)
    requires pieces != [] && AllPieces(pieces)
    ensures RowCells([first] + Piped(pieces) + [last]) == UnslashedEach(pieces)
  {
    var row := [first] + Piped(pieces) + [last];
    assert row[1..] == Piped(pieces) + [last];
    PiecesRead(pieces, last);
  }
}
