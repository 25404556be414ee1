/** Phase numbers as documents and table cells write them. */
module PhaseNumbers {
  import opened Wrappers
  import opened Text
  import opened Spelling
  import opened PhaseDocuments
  import opened Decimals
  import opened FeatureTasksStatus

  /** The ending of a phase document, alone or after a dash and a name without slashes, in any case. */
  ghost predicate DocumentEnd(tail: string) {
    Spells(tail, ".md") || exists name, suffix :: NamedEnd(tail, name, suffix)
  }

  ghost predicate NamedEnd(tail: string, name: string, suffix: string) {
    tail == "-" + name + suffix && name != "" && '/' !in name && Spells(suffix, ".md")
  }

  lemma {:induction false} TailIsNamed(tail: string)
    requires |tail| >= 5 && tail[0] == '-' && Lower(tail[|tail| - 3..]) == ".md" && '/' !in tail[1..|tail| - 3]
    ensures NamedEnd(tail, tail[1..|tail| - 3], tail[|tail| - 3..])
  {
    SpellsIff(tail[|tail| - 3..], ".md");
    assert tail[..1] == "-";
    assert tail == tail[..1] + tail[1..|tail| - 3] + tail[|tail| - 3..];
  }

  lemma {:induction false} NamedIsTail(tail: string, name: string, suffix: string)
    requires NamedEnd(tail, name, suffix)
    ensures |tail| >= 5 && tail[0] == '-' && Lower(tail[|tail| - 3..]) == ".md" && '/' !in tail[1..|tail| - 3]
  {
    SpellsIff(suffix, ".md");
    Slices("-", name, suffix);
    assert tail[1..|tail| - 3] == name;
    assert tail[0] == "-"[0];
  }

  lemma {:induction false} DocumentEndIff(tail: string)
    ensures DocumentTail(tail) <==> DocumentEnd(tail)
  {
    SpellsIff(tail, ".md");
    assert DOCUMENT_SUFFIX == ".md";
    if |tail| >= 5 && tail[0] == '-' && Lower(tail[|tail| - 3..]) == ".md" && '/' !in tail[1..|tail| - 3] {
      TailIsNamed(tail);
    }
    if name, suffix :| NamedEnd(tail, name, suffix) {
      NamedIsTail(tail, name, suffix);
    }
  }

  /** With slashes of either kind, the path is phases/phase- in any case, the digits of n, and an ending. */
  ghost predicate DocumentParts(path: string, n: nat, folder: string, digits: string, tail: string) {
    path == folder + digits + tail && Spells(folder, "phases/phase-") && Denotes(digits, n) && DocumentEnd(tail)
  }

  ghost predicate DocumentNumbered(document: string, n: nat) {
    exists folder, digits, tail :: DocumentParts(ForwardSlashes(document), n, folder, digits, tail)
  }

  lemma {:induction false} EndIsNoDigit(tail: string)
    requires DocumentEnd(tail)
    ensures tail != "" && !IsDigit(tail[0])
  {
    if Spells(tail, ".md") {
      assert SameLetter(tail[0], '.');
    }
  }

  /** What is read of a path with forward slashes. */
  function NumberOf(d: string): Option<nat> {
    var p := |DOCUMENT_PREFIX|;
    if |d| < p || Lower(d[..p]) != DOCUMENT_PREFIX then None
    else
      var n := LeadingDigits(d[p..]);
      if n == 0 || !DocumentTail(d[p + n..]) then None else Some(DigitsValue(d[p..][..n]))
  }

  lemma {:induction false} PrefixIff(folder: string)
    ensures Lower(folder) == DOCUMENT_PREFIX <==> Spells(folder, "phases/phase-")
    ensures |DOCUMENT_PREFIX| == 13
  {
    assert NoCapitals("phases/phase-");
    SpellsIff(folder, "phases/phase-");
  }

  lemma {:induction false} ReadHasParts(d: string, n: nat) returns (folder: string, digits: string, tail: string)
    requires NumberOf(d) == Some(n)
    ensures DocumentParts(d, n, folder, digits, tail)
  {
    var k := LeadingDigits(d[|DOCUMENT_PREFIX|..]);
    folder, digits, tail := d[..|DOCUMENT_PREFIX|], d[|DOCUMENT_PREFIX|..][..k], d[|DOCUMENT_PREFIX| + k..];
    PrefixIff(folder);
    DenotesIff(digits, n);
    DocumentEndIff(tail);
  }

  lemma {:induction false} PartsAreRead(d: string, n: nat, folder: string, digits: string, tail: string)
    requires DocumentParts(d, n, folder, digits, tail)
    ensures NumberOf(d) == Some(n)
  {
    PrefixIff(folder);
    DenotesDigits(digits, n);
    EndIsNoDigit(tail);
    DigitsLead(digits, tail);
    DocumentEndIff(tail);
    DenotesIff(digits, n);
    Slices(folder, digits, tail);
  }

  lemma {:induction false} Slices(a: string, b: string, c: string)
    ensures var s := a + b + c; s[..|a|] == a && s[|a|..] == b + c && s[|a| + |b|..] == c && (b + c)[..|b|] == b
  {
  }

  /** A path names a phase exactly in this form. */
  lemma {:induction false} DocumentNumberIff(document: string, n: nat)
    ensures ReadPhaseDocumentNumber(document) == Some(n) <==> DocumentNumbered(document, n)
  {
    var d := ForwardSlashes(document);
    assert ReadPhaseDocumentNumber(document) == NumberOf(d);
    if NumberOf(d) == Some(n) {
      var folder, digits, tail := ReadHasParts(d, n);
    }
    if folder, digits, tail :| DocumentParts(d, n, folder, digits, tail) {
      PartsAreRead(d, n, folder, digits, tail);
    }
  }

  /** After white space, nothing follows, or a pipe, a dash of either kind or a colon. */
  ghost predicate NumberEndsAt(rest: string, k: nat) {
    && k <= |rest| && AllSpace(rest[..k])
    && (k == |rest| || rest[k] == '|' || rest[k] == '-' || rest[k] == ':' || rest[k] as int == 0x2014)
  }

  ghost predicate NumberEnds(rest: string) {
    exists k: nat :: NumberEndsAt(rest, k)
  }

  lemma {:induction false} NumberEndsIff(rest: string)
    ensures EndsNumber(TrimStart(rest)) <==> NumberEnds(rest)
  {
    var r := TrimStart(rest);
    var i := |rest| - |r|;
    TrimStartSpec(rest);
    assert r == rest[i..];
    assert r != "" ==> rest[i] == r[0];
    if EndsNumber(r) {
      assert NumberEndsAt(rest, i);
    }
    if k: nat :| NumberEndsAt(rest, k) {
      var shown := rest[k..];
      assert rest == rest[..k] + shown;
      assert shown == "" || (shown[0] == rest[k] && !IsSpace(shown[0]));
      TrimStartSkips(rest[..k], shown);
    }
  }

  ghost predicate CellParts(core: string, n: nat, digits: string, rest: string) {
    core == digits + rest && Denotes(digits, n) && (rest == "" || !IsDigit(rest[0])) && NumberEnds(rest)
  }

  /** The cell is the digits of n, and nothing that could belong to them after. */
  ghost predicate CellNumbered(cell: string, n: nat) {
    exists core, digits, rest :: IsTrimmed(cell, core) && CellParts(core, n, digits, rest)
  }

  lemma {:induction false} LeadingHasParts(v: string, n: nat) returns (digits: string, rest: string)
    requires LeadingNumber(v) == Some(n)
    ensures CellParts(v, n, digits, rest)
  {
    var k := LeadingDigits(v);
    digits, rest := v[..k], v[k..];
    DenotesIff(digits, n);
    NumberEndsIff(rest);
  }

  lemma {:induction false} PartsLead(v: string, n: nat, digits: string, rest: string)
    requires CellParts(v, n, digits, rest)
    ensures LeadingNumber(v) == Some(n)
  {
    DenotesDigits(digits, n);
    DigitsLead(digits, rest);
    DenotesIff(digits, n);
    NumberEndsIff(rest);
    Slices("", digits, rest);
    assert "" + digits + rest == digits + rest;
  }

  /** A legacy cell names a phase exactly in this form. */
  lemma {:induction false} LegacyNumberIff(cell: string, n: nat)
    ensures ReadLegacyPhaseNumber(cell) == Some(n) <==> CellNumbered(cell, n)
  {
    TrimIff(cell, Trim(cell));
    if ReadLegacyPhaseNumber(cell) == Some(n) {
      var digits, rest := LeadingHasParts(Trim(cell), n);
    }
    if core, digits, rest :| IsTrimmed(cell, core) && CellParts(core, n, digits, rest) {
      TrimIff(cell, core);
      PartsLead(core, n, digits, rest);
    }
  }

  // ---------------------------------------------------------------------------
  // The cells of a contract table
  // ---------------------------------------------------------------------------

  lemma {:induction false} TicksConcat(a: string, b: string)
    ensures WithoutBackticks(a + b) == WithoutBackticks(a) + WithoutBackticks(b)
    decreases |a|
  {
    if a == "" {
      assert a + b == b;
    } else {
      assert (a + b)[1..] == a[1..] + b;
      TicksConcat(a[1..], b);
    }
  }

  lemma {:induction false} NoTicks(s: string)
    requires '`' !in s
    ensures WithoutBackticks(s) == s
    decreases |s|
  {
    if s != "" {
      NoTicks(s[1..]);
      assert s == [s[0]] + s[1..];
    }
  }

  /** A path as a cell writes it: with white space around, backticks before and after, and a leading dot-slash, or not. */
  ghost predicate WritesWith(cell: string, document: string, before: string, tick: string, dot: string, after: string) {
    && cell == before + tick + (dot + document) + tick + after
    && AllSpace(before) && AllSpace(after)
    && (tick == "" || tick == "`") && (dot == "" || dot == "./" || dot == ".\\")
  }

  ghost predicate CellWrites(cell: string, document: string) {
    exists before, tick, dot, after :: WritesWith(cell, document, before, tick, dot, after)
  }

  lemma {:induction false} SpaceHasNoTick(s: string)
    requires AllSpace(s)
    ensures '`' !in s
  {
    assert !IsSpace('`');
  }

  lemma {:induction false} TickedText(before: string, tick: string, text: string, after: string)
    requires AllSpace(before) && AllSpace(after) && '`' !in text && (tick == "" || tick == "`")
    ensures WithoutBackticks(before + tick + text + tick + after) == before + text + after
  {
    SpaceHasNoTick(before);
    SpaceHasNoTick(after);
    NoTicks(before);
    NoTicks(text);
    NoTicks(after);
    TicksConcat(before + tick + text + tick, after);
    TicksConcat(before + tick + text, tick);
    TicksConcat(before + tick, text);
    TicksConcat(before, tick);
    assert WithoutBackticks(tick) == "" by {
      if tick == "`" {
        assert tick[1..] == "";
      }
    }
    assert before + "" == before && before + text + "" == before + text;
  }

  lemma {:induction false} CellIsCleaned(cell: string, document: string, before: string, tick: string, dot: string, after: string)
    requires WritesWith(cell, document, before, tick, dot, after) && '`' !in document && Trimmed(document)
    requires document != "" && document[0] != '.' && document[0] != '\\'
    ensures DropDotSlash(ForwardSlashes(Trim(WithoutBackticks(cell)))) == ForwardSlashes(document)
  {
    var text := dot + document;
    TickedText(before, tick, text, after);
    DottedTrimmed(dot, document);
    TrimSurrounded(before, text, after);
    DotDropped(dot, document);
  }

  lemma {:induction false} ForwardNumbered(document: string, n: nat)
    requires DocumentNumbered(document, n)
    ensures DocumentNumbered(ForwardSlashes(document), n)
  {
    assert ForwardSlashes(ForwardSlashes(document)) == ForwardSlashes(document);
  }

  /** However a path that names a phase is written in its cell, the cell names that phase. */
  lemma {:induction false} ContractCellNumbered(cell: string, document: string, n: nat)
    requires DocumentNumbered(document, n) && CellWrites(cell, document) && '`' !in document && Trimmed(document)
    ensures ReadContractPhaseNumber(cell) == Some(n)
  {
    var before, tick, dot, after :| WritesWith(cell, document, before, tick, dot, after);
    NumberedStart(document, n);
    CellIsCleaned(cell, document, before, tick, dot, after);
    ForwardNumbered(document, n);
    DocumentNumberIff(ForwardSlashes(document), n);
  }

  lemma {:induction false} DottedTrimmed(dot: string, document: string)
    requires dot == "" || dot == "./" || dot == ".\\"
    requires document != "" && Trimmed(document)
    ensures Trimmed(dot + document)
  {
    assert dot != "" ==> (dot + document)[0] == '.';
    assert (dot + document)[|dot + document| - 1] == document[|document| - 1];
    assert dot == "" ==> dot + document == document;
  }

  lemma {:induction false} NumberedStart(document: string, n: nat)
    requires DocumentNumbered(document, n)
    ensures document != "" && document[0] != '.' && document[0] != '\\'
  {
    var folder, digits, tail :| DocumentParts(ForwardSlashes(document), n, folder, digits, tail);
    assert SameLetter(folder[0], 'p') && ForwardSlashes(document)[0] == folder[0];
  }

  lemma {:induction false} DotDropped(dot: string, document: string)
    requires dot == "" || dot == "./" || dot == ".\\"
    requires document != "" && document[0] != '.' && document[0] != '\\'
    ensures DropDotSlash(ForwardSlashes(dot + document)) == ForwardSlashes(document)
  {
    var f := ForwardSlashes(dot + document);
    if dot == "" {
      assert dot + document == document;
    } else {
      assert f[0] == '.' && f[1] == '/' && f[2..] == ForwardSlashes(document);
    }
  }
}
