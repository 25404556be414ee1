/** Updating the delivery section of a whole document, and reading the document back. */
module DeliveryDocument {
  import opened Wrappers
  import opened Text
  import opened TextLines
  import opened DeliveryTable
  import opened DeliverySection
  import opened DeliveryRows
  import opened DeliveryValues

  // ---------------------------------------------------------------------------
  // Classified lines
  // ---------------------------------------------------------------------------

  lemma {:induction false} ClassifyConcat(a: seq<string>, b: seq<string>)
    ensures ClassifyAll(a + b) == ClassifyAll(a) + ClassifyAll(b)
    decreases |b|
  {
    if b == [] {
      assert a + b == a;
    } else {
      assert (a + b)[..|a + b| - 1] == a + b[..|b| - 1];
      ClassifyConcat(a, b[..|b| - 1]);
    }
  }

  lemma {:induction false} ClassifyAt(lines: seq<string>, i: nat)
    requires i < |lines|
    ensures ClassifyAll(lines)[i] == Classify(lines[i])
    decreases |lines|
  {
    if i < |lines| - 1 {
      ClassifyAt(lines[..|lines| - 1], i);
    }
  }

  lemma {:induction false} ClassifyTake(lines: seq<string>, n: nat)
    requires n <= |lines|
    ensures ClassifyAll(lines[..n]) == ClassifyAll(lines)[..n] && ClassifyAll(lines[n..]) == ClassifyAll(lines)[n..]
  {
    assert lines == lines[..n] + lines[n..];
    ClassifyConcat(lines[..n], lines[n..]);
  }

  /** What a reader that trims every line makes of the lines. */
  function Reading(lines: seq<string>): seq<Line> {
    ClassifyAll(Trims(lines))
  }

  lemma {:induction false} ReadingConcat(a: seq<string>, b: seq<string>)
    ensures Reading(a + b) == Reading(a) + Reading(b)
  {
    EachConcat(Trim, a, b);
    ClassifyConcat(Trims(a), Trims(b));
  }

  lemma {:induction false} ReadingOne(line: string)
    ensures Reading([line]) == [Classify(Trim(line))]
  {
    EachOne(Trim, line);
    assert [Trim(line)][..0] == [];
  }

  lemma {:induction false} ReadingTake(lines: seq<string>, n: nat)
    requires n <= |lines|
    ensures |Reading(lines)| == |lines|
    ensures Reading(lines[..n]) == Reading(lines)[..n] && Reading(lines[n..]) == Reading(lines)[n..]
  {
    assert lines == lines[..n] + lines[n..];
    ReadingConcat(lines[..n], lines[n..]);
  }

  lemma {:induction false} HeadReads()
    ensures Reading(["", DELIVERY_HEADER, "", FIELD_ROW, SEPARATOR_ROW])
         == [BLANK, HEADING, BLANK, Line(false, false, true, None), Line(false, false, true, None)]
  {
    BlankLine();
    HeadingLine();
    HeadRows();
    ReadingOne("");
    ReadingOne(DELIVERY_HEADER);
    ReadingOne(FIELD_ROW);
    ReadingOne(SEPARATOR_ROW);
    ReadingConcat([""], [DELIVERY_HEADER]);
    ReadingConcat([""] + [DELIVERY_HEADER], [""]);
    ReadingConcat([""] + [DELIVERY_HEADER] + [""], [FIELD_ROW]);
    ReadingConcat([""] + [DELIVERY_HEADER] + [""] + [FIELD_ROW], [SEPARATOR_ROW]);
    assert [""] + [DELIVERY_HEADER] + [""] + [FIELD_ROW] + [SEPARATOR_ROW] == ["", DELIVERY_HEADER, "", FIELD_ROW, SEPARATOR_ROW];
  }

  lemma {:induction false} OneRowReads(field: Field, value: string)
    requires SafeValue(field, value)
    ensures Reading([RowText(field, value)]) == [RowLine(field, value)]
  {
    RowReads(field, value);
    ReadingOne(RowText(field, value));
  }

  function ValueRows(t: Table): seq<string> {
    [RowText(ModeField, t.mode)] + [RowText(BranchField, t.branch)] + [RowText(IssueField, t.issue)]
    + [RowText(RoleField, t.role)] + [RowText(UpdateField, t.update)]
    + [RowText(PullRequestField, t.pullRequest)] + [RowText(StatusField, t.status)]
  }

  function ValueLines(t: Table): seq<Line> {
    [RowLine(ModeField, t.mode)] + [RowLine(BranchField, t.branch)] + [RowLine(IssueField, t.issue)]
    + [RowLine(RoleField, t.role)] + [RowLine(UpdateField, t.update)]
    + [RowLine(PullRequestField, t.pullRequest)] + [RowLine(StatusField, t.status)]
  }

  lemma {:induction false} RowsRead(t: Table)
    requires SafeTable(t)
    ensures Reading(ValueRows(t)) == ValueLines(t)
  {
    var r0, r1, r2 := [RowText(ModeField, t.mode)], [RowText(BranchField, t.branch)], [RowText(IssueField, t.issue)];
    var r3, r4 := [RowText(RoleField, t.role)], [RowText(UpdateField, t.update)];
    var r5, r6 := [RowText(PullRequestField, t.pullRequest)], [RowText(StatusField, t.status)];
    OneRowReads(ModeField, t.mode);
    OneRowReads(BranchField, t.branch);
    OneRowReads(IssueField, t.issue);
    OneRowReads(RoleField, t.role);
    OneRowReads(UpdateField, t.update);
    OneRowReads(PullRequestField, t.pullRequest);
    OneRowReads(StatusField, t.status);
    ReadingConcat(r0, r1);
    ReadingConcat(r0 + r1, r2);
    ReadingConcat(r0 + r1 + r2, r3);
    ReadingConcat(r0 + r1 + r2 + r3, r4);
    ReadingConcat(r0 + r1 + r2 + r3 + r4, r5);
    ReadingConcat(r0 + r1 + r2 + r3 + r4 + r5, r6);
  }

  lemma {:induction false} RowsAssemble(t: Table)
    ensures ["", DELIVERY_HEADER, "", FIELD_ROW, SEPARATOR_ROW] + ValueRows(t) == SectionRows(t)
  {
  }

  lemma {:induction false} LinesAssemble(t: Table)
    ensures [BLANK, HEADING, BLANK, Line(false, false, true, None), Line(false, false, true, None)] + ValueLines(t)
         == SectionLines(t)
  {
  }

  /** The lines of a rendered section. */
  lemma {:induction false} SectionReads(t: Table)
    requires SafeTable(t)
    ensures Reading(SectionRows(t)) == SectionLines(t)
  {
    HeadReads();
    RowsRead(t);
    ReadingConcat(["", DELIVERY_HEADER, "", FIELD_ROW, SEPARATOR_ROW], ValueRows(t));
    RowsAssemble(t);
    LinesAssemble(t);
  }

  lemma {:induction false} FixedOneLine()
    ensures '\n' !in "" && '\n' !in DELIVERY_HEADER && '\n' !in FIELD_ROW && '\n' !in SEPARATOR_ROW
  {
  }

  lemma {:induction false} SectionOneLineEach(t: Table)
    requires SafeTable(t)
    ensures NoNewlines(SectionRows(t))
  {
    FixedOneLine();
    RowOneLine(ModeField, t.mode);
    RowOneLine(BranchField, t.branch);
    RowOneLine(IssueField, t.issue);
    RowOneLine(RoleField, t.role);
    RowOneLine(UpdateField, t.update);
    RowOneLine(PullRequestField, t.pullRequest);
    RowOneLine(StatusField, t.status);
  }

  // ---------------------------------------------------------------------------
  // The text of the section
  // ---------------------------------------------------------------------------

  lemma {:induction false} TrimEndFramed(line: string)
    requires Framed(line)
    ensures TrimEnd(line) == line && !AllSpace(line)
  {
    assert !IsSpace('|') && line[0] == '|';
  }

  /** trimEnd removes the closing newline of the rendered section and nothing else. */
  lemma {:induction false} RenderTrimmed(c: Config)
    ensures TrimEnd(Render(c)) == Join(SectionRows(TableOf(c)), '\n')
    ensures TrimEnd(TrimEnd(Render(c))) == TrimEnd(Render(c))
  {
    var rows := SectionRows(TableOf(c));
    TrimEndOfJoin(rows + [""]);
    assert (rows + [""])[..|rows|] == rows;
    RowFramed(StatusField, StatusText(c.status));
    TrimEndFramed(rows[|rows| - 1]);
    assert rows[..|rows| - 1] + [rows[|rows| - 1]] == rows;
    TrimEndSpec(Render(c));
  }

  lemma {:induction false} JoinFlatten(a: seq<string>, b: seq<string>, c: seq<string>)
    requires b != []
    ensures Join(a + [Join(b, '\n')] + c, '\n') == Join(a + b + c, '\n')
  {
    JoinBefore(a, [Join(b, '\n')], b);
    JoinAfter(a + [Join(b, '\n')], a + b, c);
  }

  lemma {:induction false} JoinBefore(a: seq<string>, x: seq<string>, y: seq<string>)
    requires x != [] && y != [] && Join(x, '\n') == Join(y, '\n')
    ensures Join(a + x, '\n') == Join(a + y, '\n')
  {
    if a == [] {
      assert a + x == x && a + y == y;
    } else {
      JoinAppend(a, x, '\n');
      JoinAppend(a, y, '\n');
    }
  }

  lemma {:induction false} JoinAfter(x: seq<string>, y: seq<string>, c: seq<string>)
    requires x != [] && y != [] && Join(x, '\n') == Join(y, '\n')
    ensures Join(x + c, '\n') == Join(y + c, '\n')
  {
    if c == [] {
      assert x + c == x && y + c == y;
    } else {
      JoinAppend(x, c, '\n');
      JoinAppend(y, c, '\n');
    }
  }

  // ---------------------------------------------------------------------------
  // What an update leaves in the document
  // ---------------------------------------------------------------------------

  /** The lines that stay before the section, and those that stay after it. */
  ghost predicate Surrounds(document: string, before: seq<string>, after: seq<string>) {
    var lines, reading := Lines(document), LinesOf(document);
    match FindStart(reading)
    case Err(_) => false
    case Ok(None) =>
      before == DropBlankEnd(Split(document, '\n')) && after == [""]
    case Ok(Some(start)) =>
      var end := FindEnd(reading, start + 1, None);
      && start <= end <= |lines| && before == lines[..start] && after == lines[end..]
  }

  lemma {:induction false} ReadingLength(lines: seq<string>)
    ensures |Reading(lines)| == |lines|
  {
  }

  lemma {:induction false} AroundExists(document: string) returns (before: seq<string>, after: seq<string>)
    requires Headers(LinesOf(document)) <= 1
    ensures Surrounds(document, before, after)
  {
    var reading := LinesOf(document);
    ReadingLength(Lines(document));
    if FirstHeader(reading) == None {
      before, after := DropBlankEnd(Split(document, '\n')), [""];
    } else {
      var start := FirstHeader(reading).value;
      FindEndMeans(reading, start + 1, None);
      before, after := Lines(document)[..start], Lines(document)[FindEnd(reading, start + 1, None)..];
    }
  }

  lemma {:induction false} AppendText(kept: seq<string>, rows: seq<string>)
    requires kept != [] && rows != []
    ensures Join(kept, '\n') + "\n" + Join(rows, '\n') + "\n" == Join(kept + rows + [""], '\n')
  {
    JoinAppend(kept, rows, '\n');
    JoinAppend(kept + rows, [""], '\n');
    assert Join(kept + rows, '\n') + ['\n'] + "" == Join(kept + rows, '\n') + "\n";
  }

  /** The updated document is the section between the lines that stay. */
  lemma {:induction false} UpdateIsAround(document: string, c: Config, before: seq<string>, after: seq<string>)
    requires Surrounds(document, before, after)
    ensures Update(document, c) == Ok(Join(before + SectionRows(TableOf(c)) + after, '\n'))
  {
    var rows := SectionRows(TableOf(c));
    RenderTrimmed(c);
    var start := FindStart(LinesOf(document));
    if start.value == None {
      JoinSplit(document, '\n');
      TrimEndOfJoin(Split(document, '\n'));
      AppendText(before, rows);
    } else {
      JoinFlatten(before, rows, after);
    }
  }

  /** The update is refused exactly when there is more than one delivery heading. */
  lemma {:induction false} UpdateOkIff(document: string, c: Config)
    ensures Update(document, c).Ok? <==> Headers(LinesOf(document)) <= 1
  {
    if Headers(LinesOf(document)) <= 1 {
      var before, after := AroundExists(document);
      UpdateIsAround(document, c, before, after);
    }
  }

  lemma {:induction false} AroundOneLineEach(document: string, before: seq<string>, after: seq<string>)
    requires Surrounds(document, before, after)
    ensures NoNewlines(before) && NoNewlines(after)
  {
    LinesNoNewlines(document);
    SplitWithout(document, '\n');
    DroppedNoNewlines(Split(document, '\n'));
  }

  /** Neither side holds the delivery heading, and the section stays delimited. */
  lemma {:induction false} AroundReads(document: string, before: seq<string>, after: seq<string>)
    requires Surrounds(document, before, after)
    ensures NoHeader(Reading(before)) && NoHeader(Reading(after)) && Follows(Reading(after))
  {
    var reading := LinesOf(document);
    ReadingLength(Lines(document));
    match FindStart(reading)
    case Ok(None) => AppendedReads(document);
    case Ok(Some(start)) =>
      ReplacedReads(document, start);
  }

  lemma {:induction false} KeptReading(parts: seq<string>)
    requires parts != [] && NoHeader(Reading(parts))
    ensures NoHeader(Reading(DropBlankEnd(parts)))
  {
    var kept := DropBlankEnd(parts);
    TrimsOfDropped(parts);
    ClassifyTake(Trims(parts), |kept|);
    assert Reading(kept) == Reading(parts)[..|kept|];
  }

  lemma {:induction false} ClosingLine()
    ensures NoHeader(Reading([""])) && Follows(Reading([""]))
  {
    BlankLine();
    ReadingOne("");
  }

  lemma {:induction false} AppendedReads(document: string)
    requires FindStart(LinesOf(document)) == Ok(None)
    ensures NoHeader(Reading(DropBlankEnd(Split(document, '\n'))))
    ensures NoHeader(Reading([""])) && Follows(Reading([""]))
  {
    TrimsOfLines(document);
    NoHeaderIff(LinesOf(document));
    KeptReading(Split(document, '\n'));
    ClosingLine();
  }

  lemma {:induction false} ReplacedReads(document: string, start: nat)
    requires FindStart(LinesOf(document)) == Ok(Some(start))
    ensures var end := FindEnd(LinesOf(document), start + 1, None);
      && start < end <= |Lines(document)| && |LinesOf(document)| == |Lines(document)|
      && NoHeader(Reading(Lines(document)[..start]))
      && NoHeader(Reading(Lines(document)[end..])) && Follows(Reading(Lines(document)[end..]))
  {
    var reading := LinesOf(document);
    ReadingLength(Lines(document));
    FindEndMeans(reading, start + 1, None);
    var end := FindEnd(reading, start + 1, None);
    OneHeader(reading, start);
    ReadingTake(Lines(document), start);
    ReadingTake(Lines(document), end);
    var after := reading[end..];
    assert forall k :: 0 <= k < |after| ==> after[k] == reading[start + 1..][end - start - 1 + k];
    assert forall k :: 0 <= k < |after| ==> after[k] == reading[end + k];
  }

  // ---------------------------------------------------------------------------
  // Round trip
  // ---------------------------------------------------------------------------

  lemma {:induction false} NoNewlinesConcat(a: seq<string>, b: seq<string>, c: seq<string>)
    requires NoNewlines(a) && NoNewlines(b) && NoNewlines(c)
    ensures NoNewlines(a + b + c)
  {
  }

  lemma {:induction false} UpdatedReading(document: string, c: Config, before: seq<string>, after: seq<string>)
    requires GoodBranch(c.branch) && Surrounds(document, before, after)
    ensures Update(document, c).Ok?
    ensures LinesOf(Update(document, c).value) == Reading(before) + SectionLines(TableOf(c)) + Reading(after)
  {
    var t := TableOf(c);
    ConfigSafe(c);
    UpdateIsAround(document, c, before, after);
    AroundOneLineEach(document, before, after);
    SectionOneLineEach(t);
    NoNewlinesConcat(before, SectionRows(t), after);
    TrimsOfJoin(before + SectionRows(t) + after);
    ReadingConcat(before + SectionRows(t), after);
    ReadingConcat(before, SectionRows(t));
    SectionReads(t);
  }

  /**
   * Parsing an updated document gives the configuration back, numbers that are neither null nor
   * positive aside.
   */
  lemma {:induction false} RoundTrip(document: string, c: Config)
    requires Headers(LinesOf(document)) <= 1 && GoodBranch(c.branch)
    ensures Update(document, c).Ok? && Parse(Update(document, c).value) == Ok(Normalized(c))
  {
    var before, after := AroundExists(document);
    UpdatedReading(document, c, before, after);
    AroundReads(document, before, after);
    ReadsRendered(Reading(before), TableOf(c), Reading(after));
    ConfigReads(c);
  }

  // ---------------------------------------------------------------------------
  // What can be read at all
  // ---------------------------------------------------------------------------

  lemma {:induction false} PartOfJoin(parts: seq<string>, i: nat) returns (a: string, b: string)
    requires i < |parts|
    ensures Join(parts, '|') == a + parts[i] + b
    decreases |parts|
  {
    if i == 0 {
      a := "";
      if |parts| == 1 {
        b := "";
      } else {
        b := ['|'] + Join(parts[1..], '|');
      }
    } else {
      var x, y := PartOfJoin(parts[1..], i - 1);
      a, b := parts[0] + ['|'] + x, y;
    }
  }

  lemma {:induction false} NonEmptyFrom(parts: seq<string>, k: nat) returns (i: nat)
    requires k < |NonEmpty(parts)|
    ensures i < |parts| && parts[i] == NonEmpty(parts)[k] && parts[i] != ""
    decreases |parts|
  {
    if parts[0] != "" && k == 0 {
      i := 0;
    } else {
      var j := NonEmptyFrom(parts[1..], if parts[0] == "" then k else k - 1);
      i := j + 1;
    }
  }

  lemma {:induction false} Regrouped(x: string, before: string, v: string, after: string, y: string)
    ensures x + (before + v + after) + y == (x + before) + v + (after + y)
  {
  }

  lemma {:induction false} TrimmedPart(parts: seq<string>, i: nat) returns (a: string, b: string)
    requires i < |parts|
    ensures Join(parts, '|') == a + Trim(parts[i]) + b
    ensures '|' !in parts[i] ==> '|' !in Trim(parts[i])
  {
    var x, y := PartOfJoin(parts, i);
    var before, after := TextLines.Around(parts[i]);
    Regrouped(x, before, Trim(parts[i]), after, y);
    a, b := x + before, after + y;
  }

  lemma {:induction false} TrimTwice(s: string)
    ensures Trim(Trim(s)) == Trim(s) && Trimmed(Trim(s))
  {
    TrimTrimmed(s);
    TrimTrimmed(Trim(s));
  }

  /** The value of a row is a part of its line, trimmed. */
  lemma {:induction false} ValueInLine(line: string) returns (a: string, b: string)
    requires EntryOf(line).Some?
    ensures var v := EntryOf(line).value.value;
      line == a + v + b && Trimmed(v) && v != "" && '|' !in v
  {
    var parts := Split(line, '|');
    var i := NonEmptyFrom(Trims(parts), 1);
    EachAt(Trim, parts, i);
    TrimTwice(parts[i]);
    JoinSplit(line, '|');
    SplitWithout(line, '|');
    a, b := TrimmedPart(parts, i);
  }

  lemma {:induction false} ValueIsGood(line: string)
    requires EntryOf(line).Some? && '\n' !in line
    ensures GoodBranch(EntryOf(line).value.value)
  {
    var a, b := ValueInLine(line);
    var v := EntryOf(line).value.value;
    if Includes(v, "---") {
      IncludesMore(a, v, b, "---");
    }
    LowerConcat(a + v, b);
    LowerConcat(a, v);
    if Includes(Lower(v), "field") && Includes(Lower(v), "value") {
      IncludesMore(Lower(a), Lower(v), Lower(b), "field");
      IncludesMore(Lower(a), Lower(v), Lower(b), "value");
    }
  }

  lemma {:induction false} TrimmedOneLine(s: string)
    requires '\n' !in s
    ensures '\n' !in Trim(s)
  {
    var a, b := TextLines.Around(s);
  }

  /** Whatever the document, a branch that was read is one the section can carry. */
  lemma {:induction false} ParsedBranchIsGood(document: string)
    requires Parse(document).Ok?
    ensures GoodBranch(Parse(document).value.branch)
  {
    MasterIsGood();
    var start := FindStart(LinesOf(document));
    if start.value.Some? {
      SectionBranchIsGood(document, start.value.value, FindEnd(LinesOf(document), start.value.value + 1, None));
    }
  }

  lemma {:induction false} SectionBranchIsGood(document: string, start: nat, end: nat)
    requires start <= end <= |LinesOf(document)|
    ensures GoodBranch(Or(ParseTable(LinesOf(document)[start..end]).branch, "master"))
  {
    MasterIsGood();
    var section := LinesOf(document)[start..end];
    BranchComesFrom(section);
    var branch := ParseTable(section).branch;
    if branch != "master" {
      var i :| 0 <= i < |section| && section[i].entry == Some(Entry(BranchField, branch)) && branch != "";
      assert section[i] == LinesOf(document)[start + i];
      BranchLineIsGood(document, start + i);
    }
  }

  lemma {:induction false} BranchLineIsGood(document: string, i: nat)
    requires i < |LinesOf(document)| && LinesOf(document)[i].entry.Some?
    ensures GoodBranch(LinesOf(document)[i].entry.value.value)
  {
    var lines := Lines(document);
    ReadingLength(lines);
    LinesNoNewlines(document);
    EachAt(Trim, lines, i);
    ClassifyAt(Trims(lines), i);
    TrimmedOneLine(lines[i]);
    ValueIsGood(Trim(lines[i]));
  }

  /**
   * For a document with at most one delivery heading, the configuration survives the update exactly
   * when its branch can be carried by the table and its numbers are null or positive.
   */
  lemma {:induction false} RoundTripIff(document: string, c: Config)
    requires Headers(LinesOf(document)) <= 1
    ensures Update(document, c).Ok?
    ensures Parse(Update(document, c).value) == Ok(c) <==> GoodBranch(c.branch) && Normalized(c) == c
  {
    UpdateOkIff(document, c);
    if Parse(Update(document, c).value) == Ok(c) {
      ParsedBranchIsGood(Update(document, c).value);
      RoundTrip(document, c);
    } else if GoodBranch(c.branch) {
      RoundTrip(document, c);
    }
  }

  // ---------------------------------------------------------------------------
  // What stays
  // ---------------------------------------------------------------------------

  /**
   * The lines before the heading and from the next second-level heading on stay as they are: the
   * update joins them, untouched, around the rendered section.
   */
  lemma {:induction false} SurroundingsStay(document: string, c: Config, start: nat, next: nat)
    requires FindStart(LinesOf(document)) == Ok(Some(start)) && start < next < |LinesOf(document)|
    requires LinesOf(document)[next].heading && forall k :: start < k < next ==> !LinesOf(document)[k].heading
    ensures |LinesOf(document)| == |Lines(document)|
    ensures Update(document, c)
         == Ok(Join(Lines(document)[..start] + SectionRows(TableOf(c)) + Lines(document)[next..], '\n'))
  {
    ReadingLength(Lines(document));
    EndsAtHeading(LinesOf(document), start + 1, None, next);
    UpdateIsAround(document, c, Lines(document)[..start], Lines(document)[next..]);
  }

  /** After an update, the section starts at its heading: the blank line before it counts as before. */
  lemma {:induction false} SecondSurrounds(document: string, t: Table, before: seq<Line>, after: seq<Line>)
    requires NoHeader(before) && NoHeader(after) && Follows(after)
    requires LinesOf(document) == before + SectionLines(t) + after
    ensures |Lines(document)| == |before| + 12 + |after|
    ensures Surrounds(document, Lines(document)[..|before| + 1], Lines(document)[|before| + 12..])
  {
    SectionStart(before, t, after);
    SectionEnd(before, t, after);
    ReadingLength(Lines(document));
  }

  lemma {:induction false} SecondReading(document: string, t: Table, before: seq<Line>, after: seq<Line>)
    requires LinesOf(document) == before + SectionLines(t) + after && |Lines(document)| == |before| + 12 + |after|
    ensures Reading(Lines(document)[..|before| + 1]) == before + [BLANK]
    ensures Reading(Lines(document)[|before| + 12..]) == after
  {
    var lines := Lines(document);
    ReadingTake(lines, |before| + 1);
    ReadingTake(lines, |before| + 12);
    assert (before + SectionLines(t) + after)[..|before| + 1] == before + [BLANK];
    assert (before + SectionLines(t) + after)[|before| + 12..] == after;
  }

  /** Each update of a document that has the section adds one blank line before its heading. */
  lemma {:induction false} UpdatesGrow(document: string, c: Config, before: seq<string>, after: seq<string>)
    requires GoodBranch(c.branch) && Surrounds(document, before, after)
    ensures var once := Update(document, c);
      once.Ok? && Update(once.value, c).Ok?
      && LinesOf(once.value) == Reading(before) + SectionLines(TableOf(c)) + Reading(after)
      && LinesOf(Update(once.value, c).value) == Reading(before) + [BLANK] + SectionLines(TableOf(c)) + Reading(after)
  {
    var t := TableOf(c);
    UpdatedReading(document, c, before, after);
    AroundReads(document, before, after);
    var once := Update(document, c).value;
    SecondSurrounds(once, t, Reading(before), Reading(after));
    SecondReading(once, t, Reading(before), Reading(after));
    var n := |Reading(before)|;
    UpdatedReading(once, c, Lines(once)[..n + 1], Lines(once)[n + 12..]);
  }
}
