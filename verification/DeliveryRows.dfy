/** Each line of a rendered delivery section reads as the row it was rendered from. */
module DeliveryRows {
  import opened Wrappers
  import opened Text
  import opened TextLines
  import opened DeliveryTable
  import opened DeliverySection

  // ---------------------------------------------------------------------------
  // Substrings
  // ---------------------------------------------------------------------------

  lemma {:induction false} OccursChar(s: string, sub: string, i: nat, k: nat)
    requires OccursAt(s, sub, i) && k < |sub|
    ensures s[i + k] == sub[k]
  {
    assert s[i..i + |sub|][k] == sub[k];
  }

  lemma {:induction false} OccursIn(s: string, sub: string, i: nat, a: nat, b: nat)
    requires OccursAt(s, sub, i) && a <= i && i + |sub| <= b <= |s|
    ensures OccursAt(s[a..b], sub, i - a) && Includes(s[a..b], sub)
  {
    var t := s[a..b];
    forall k | 0 <= k < |sub| ensures t[i - a + k] == sub[k] {
      OccursChar(s, sub, i, k);
    }
    assert t[i - a..i - a + |sub|] == sub;
    assert OccursAt(t, sub, i - a);
  }

  /** A substring without spaces does not reach across a space. */
  lemma {:induction false} IncludesApart(a: string, v: string, b: string, sub: string)
    requires a != "" && a[|a| - 1] == ' ' && b != "" && b[0] == ' ' && |b| <= |sub| && ' ' !in sub
    requires Includes(a + v + b, sub)
    ensures Includes(a, sub) || Includes(v, sub)
  {
    var s := a + v + b;
    var i: nat :| i <= |s| && OccursAt(s, sub, i);
    var left, right := |a| - 1, |a| + |v|;
    assert s[left] == ' ' && s[right] == ' ';
    if i <= left < i + |sub| {
      OccursChar(s, sub, i, left - i);
    }
    if i <= right < i + |sub| {
      OccursChar(s, sub, i, right - i);
    }
    if i + |sub| <= left {
      OccursIn(s, sub, i, 0, |a|);
      assert s[0..|a|] == a;
    } else {
      OccursIn(s, sub, i, |a|, |a| + |v|);
      assert s[|a|..|a| + |v|] == v;
    }
  }

  lemma {:induction false} NotWithout(s: string, sub: string, k: nat)
    requires k < |sub| && sub[k] !in s
    ensures !Includes(s, sub)
  {
    if Includes(s, sub) {
      var i: nat :| i <= |s| && OccursAt(s, sub, i);
      OccursChar(s, sub, i, k);
    }
  }

  lemma {:induction false} IncludesMore(a: string, v: string, b: string, sub: string)
    requires Includes(v, sub)
    ensures Includes(a + v + b, sub)
  {
    var i: nat :| i <= |v| && OccursAt(v, sub, i);
    var s := a + v + b;
    assert s[|a| + i..|a| + i + |sub|] == v[i..i + |sub|];
    assert OccursAt(s, sub, |a| + i);
  }

  lemma {:induction false} LowerConcat(a: string, b: string)
    ensures Lower(a + b) == Lower(a) + Lower(b)
  {
  }

  // ---------------------------------------------------------------------------
  // The seven rows
  // ---------------------------------------------------------------------------

  /** A value that a row can carry without being skipped, cut or trimmed. */
  ghost predicate SafeValue(field: Field, value: string) {
    && Trimmed(value) && '|' !in value && '\n' !in value && !Includes(value, "---")
    && (!Includes(Lower(value), "field") || (field == BranchField && !Includes(Lower(value), "value")))
  }

  function RowStart(field: Field): string {
    "| " + Label(field) + " | "
  }

  /** Letters and spaces, without the letter f. */
  ghost predicate PlainLetters(s: string) {
    forall i :: 0 <= i < |s| ==> s[i] == ' ' || ('A' <= s[i] <= 'Z' && s[i] != 'F') || ('a' <= s[i] <= 'z' && s[i] != 'f')
  }

  ghost predicate LabelFine(field: Field) {
    && Lower(Label(field)) == Name(field) && PlainLetters(Label(field))
    && Trimmed(Label(field)) && Trimmed(Name(field)) && Label(field) != ""
  }

  lemma {:induction false} ModeFieldLabel()
    ensures LabelFine(ModeField)
  {
  }

  lemma {:induction false} BranchFieldLabel()
    ensures LabelFine(BranchField)
  {
  }

  lemma {:induction false} IssueFieldLabel()
    ensures LabelFine(IssueField)
  {
  }

  lemma {:induction false} RoleFieldLabel()
    ensures LabelFine(RoleField)
  {
  }

  lemma {:induction false} UpdateFieldLabel()
    ensures LabelFine(UpdateField)
  {
  }

  lemma {:induction false} PullRequestFieldLabel()
    ensures LabelFine(PullRequestField)
  {
  }

  lemma {:induction false} StatusFieldLabel()
    ensures LabelFine(StatusField)
  {
  }

  lemma {:induction false} Labels(field: Field)
    ensures LabelFine(field)
  {
    match field
    case ModeField => ModeFieldLabel();
    case BranchField => BranchFieldLabel();
    case IssueField => IssueFieldLabel();
    case RoleField => RoleFieldLabel();
    case UpdateField => UpdateFieldLabel();
    case PullRequestField => PullRequestFieldLabel();
    case StatusField => StatusFieldLabel();
  }

  lemma {:induction false} PlainHasNo(s: string)
    requires PlainLetters(s)
    ensures '|' !in s && '-' !in s && '\n' !in s && 'f' !in Lower(s)
  {
  }

  lemma {:induction false} NamesApart(field: Field)
    ensures ReadField(Name(field)) == Some(field)
  {
    assert |Name(ModeField)| == |Name(BranchField)| == 13 && |Name(IssueField)| == |Name(PullRequestField)| == 12;
    assert |Name(RoleField)| == 10 && |Name(UpdateField)| == 17 && |Name(StatusField)| == 15;
    assert Name(ModeField)[0] == 'd' && Name(BranchField)[0] == 't';
    assert Name(IssueField)[0] == 'g' && Name(PullRequestField)[0] == 'p';
  }

  lemma {:induction false} LabelReads(field: Field)
    ensures ReadField(Trim(Lower(Label(field)))) == Some(field)
    ensures Trimmed(Label(field)) && Label(field) != "" && '|' !in Label(field) && '-' !in Label(field) && '\n' !in Label(field)
  {
    Labels(field);
    PlainHasNo(Label(field));
    TrimTrimmed(Name(field));
    NamesApart(field);
  }

  lemma {:induction false} LabelLetters(field: Field)
    ensures 'f' !in Lower(Label(field))
  {
    Labels(field);
    PlainHasNo(Label(field));
  }

  lemma {:induction false} BranchLetters()
    ensures 'v' !in Lower(Label(BranchField))
  {
    BranchFieldLabel();
    assert Name(BranchField) == "target branch";
  }

  lemma {:induction false} RowIsApart(field: Field, value: string)
    ensures RowText(field, value) == RowStart(field) + value + " |"
    ensures Lower(RowText(field, value)) == Lower(RowStart(field)) + Lower(value) + " |"
    ensures Lower(RowStart(field)) == "| " + Lower(Label(field)) + " | "
  {
    LowerConcat(RowStart(field) + value, " |");
    LowerConcat(RowStart(field), value);
    LowerConcat("| " + Label(field), " | ");
    LowerConcat("| ", Label(field));
    assert Lower(" |") == " |" && Lower("| ") == "| " && Lower(" | ") == " | ";
  }

  lemma {:induction false} NoDashes(field: Field, value: string)
    requires SafeValue(field, value)
    ensures !Includes(RowText(field, value), "---")
  {
    LabelReads(field);
    RowIsApart(field, value);
    if Includes(RowText(field, value), "---") {
      IncludesApart(RowStart(field), value, " |", "---");
      assert '-' !in RowStart(field);
      NotWithout(RowStart(field), "---", 0);
    }
  }

  lemma {:induction false} NoFieldWord(field: Field, value: string)
    requires !Includes(Lower(value), "field")
    ensures !Includes(Lower(RowText(field, value)), "field")
  {
    LabelLetters(field);
    RowIsApart(field, value);
    if Includes(Lower(RowText(field, value)), "field") {
      IncludesApart(Lower(RowStart(field)), Lower(value), " |", "field");
      assert 'f' !in Lower(RowStart(field));
      NotWithout(Lower(RowStart(field)), "field", 0);
    }
  }

  lemma {:induction false} NoValueWord(value: string)
    requires !Includes(Lower(value), "value")
    ensures !Includes(Lower(RowText(BranchField, value)), "value")
  {
    BranchLetters();
    RowIsApart(BranchField, value);
    if Includes(Lower(RowText(BranchField, value)), "value") {
      IncludesApart(Lower(RowStart(BranchField)), Lower(value), " |", "value");
      assert 'v' !in Lower(RowStart(BranchField));
      NotWithout(Lower(RowStart(BranchField)), "value", 0);
    }
  }

  lemma {:induction false} RowNotSkipped(field: Field, value: string)
    requires SafeValue(field, value)
    ensures !Skipped(RowText(field, value))
  {
    NoDashes(field, value);
    if !Includes(Lower(value), "field") {
      NoFieldWord(field, value);
    } else {
      NoValueWord(value);
    }
  }

  lemma {:induction false} JoinStep(first: string, rest: seq<string>)
    requires rest != []
    ensures Join([first] + rest, '|') == first + ['|'] + Join(rest, '|')
  {
    assert ([first] + rest)[1..] == rest;
  }

  lemma {:induction false} JoinFour(a: string, b: string, c: string, d: string)
    ensures Join([a, b, c, d], '|') == a + ['|'] + (b + ['|'] + (c + ['|'] + d))
  {
    JoinStep(a, [b, c, d]);
    JoinStep(b, [c, d]);
    JoinStep(c, [d]);
    assert [a] + [b, c, d] == [a, b, c, d] && [b] + [c, d] == [b, c, d] && [c] + [d] == [c, d];
  }

  lemma {:induction false} RowJoins(name: string, value: string)
    ensures "" + ['|'] + ((" " + name + " ") + ['|'] + ((" " + value + " ") + ['|'] + "")) == "| " + name + " | " + value + " |"
  {
  }

  lemma {:induction false} RowParts(field: Field, value: string)
    requires '|' !in value
    ensures Split(RowText(field, value), '|') == ["", " " + Label(field) + " ", " " + value + " ", ""]
  {
    LabelReads(field);
    JoinFour("", " " + Label(field) + " ", " " + value + " ", "");
    RowJoins(Label(field), value);
    SplitJoin(["", " " + Label(field) + " ", " " + value + " ", ""], '|');
  }

  lemma {:induction false} TrimsOfFour(a: string, b: string, c: string, d: string)
    ensures Trims([a, b, c, d]) == [Trim(a), Trim(b), Trim(c), Trim(d)]
  {
    EachAt(Trim, [a, b, c, d], 0);
    EachAt(Trim, [a, b, c, d], 1);
    EachAt(Trim, [a, b, c, d], 2);
    EachAt(Trim, [a, b, c, d], 3);
  }

  lemma {:induction false} NonEmptyFirst(first: string, rest: seq<string>)
    ensures NonEmpty([first] + rest) == (if first == "" then [] else [first]) + NonEmpty(rest)
  {
    assert ([first] + rest)[1..] == rest;
  }

  lemma {:induction false} NonEmptyOfFour(name: string, value: string)
    requires name != ""
    ensures NonEmpty(["", name, value, ""]) == if value == "" then [name] else [name, value]
  {
    NonEmptyFirst("", [name, value, ""]);
    NonEmptyFirst(name, [value, ""]);
    NonEmptyFirst(value, [""]);
    NonEmptyFirst("", []);
    assert ["", name, value, ""] == [""] + [name, value, ""];
    assert [name, value, ""] == [name] + [value, ""] && [value, ""] == [value] + [""];
    assert [""] + [] == [""];
  }

  lemma {:induction false} RowEntry(field: Field, value: string)
    requires SafeValue(field, value)
    ensures EntryOf(RowText(field, value)) == if value == "" then None else Some(Entry(field, value))
  {
    RowNotSkipped(field, value);
    RowParts(field, value);
    LabelReads(field);
    TrimsOfFour("", " " + Label(field) + " ", " " + value + " ", "");
    Spaced(Label(field));
    Spaced(value);
    TrimTrimmed("");
    TrimTrimmed(value);
    NonEmptyOfFour(Label(field), value);
  }

  /** A line that begins with a pipe is a table row and no heading. */
  lemma {:induction false} BarLine(line: string)
    requires line != "" && line[0] == '|'
    ensures Classify(line) == Line(false, false, true, EntryOf(line))
  {
    assert DELIVERY_HEADER[0] == '#' && "## "[0] == '#';
  }

  lemma {:induction false} FramedTrims(line: string)
    requires Framed(line)
    ensures Trim(line) == line
  {
    assert !IsSpace('|');
    TrimTrimmed(line);
  }

  lemma {:induction false} RowFramed(field: Field, value: string)
    ensures Framed(RowText(field, value)) && RowText(field, value)[0] == '|'
  {
    var line := RowText(field, value);
    assert line[0] == "| "[0] && line[|line| - 1] == " |"[1];
  }

  /** A rendered row reads as its field and value, or as nothing when the value is empty. */
  lemma {:induction false} RowReads(field: Field, value: string)
    requires SafeValue(field, value)
    ensures Classify(RowText(field, value)) == RowLine(field, value)
    ensures Trim(RowText(field, value)) == RowText(field, value)
  {
    RowFramed(field, value);
    BarLine(RowText(field, value));
    RowEntry(field, value);
    FramedTrims(RowText(field, value));
  }

  lemma {:induction false} RowOneLine(field: Field, value: string)
    requires '\n' !in value
    ensures '\n' !in RowText(field, value)
  {
    LabelReads(field);
  }

  // ---------------------------------------------------------------------------
  // The fixed lines
  // ---------------------------------------------------------------------------

  lemma {:induction false} FieldRowSkipped()
    ensures Skipped(FIELD_ROW)
  {
    var lower := Lower(FIELD_ROW);
    assert lower == "| field | value |";
    assert lower[2..7] == "field" && lower[10..15] == "value";
    assert OccursAt(lower, "field", 2) && OccursAt(lower, "value", 10);
  }

  lemma {:induction false} SeparatorSkipped()
    ensures Skipped(SEPARATOR_ROW)
  {
    assert SEPARATOR_ROW[2..5] == "---";
    assert OccursAt(SEPARATOR_ROW, "---", 2);
  }

  lemma {:induction false} SkippedRow(line: string)
    requires Framed(line) && Skipped(line)
    ensures Classify(line) == Line(false, false, true, None) && Trim(line) == line
  {
    BarLine(line);
    FramedTrims(line);
  }

  lemma {:induction false} HeadRows()
    ensures Classify(FIELD_ROW) == Line(false, false, true, None) && Trim(FIELD_ROW) == FIELD_ROW
    ensures Classify(SEPARATOR_ROW) == Line(false, false, true, None) && Trim(SEPARATOR_ROW) == SEPARATOR_ROW
  {
    FieldRowSkipped();
    SeparatorSkipped();
    assert Framed(FIELD_ROW) && Framed(SEPARATOR_ROW);
    SkippedRow(FIELD_ROW);
    SkippedRow(SEPARATOR_ROW);
  }

  lemma {:induction false} BlankLine()
    ensures Classify("") == BLANK && Trim("") == ""
  {
    TrimTrimmed("");
    assert |"## "| == 3 && |DELIVERY_HEADER| > 0;
  }

  lemma {:induction false} HeadingLine()
    ensures Classify(DELIVERY_HEADER) == HEADING && Trim(DELIVERY_HEADER) == DELIVERY_HEADER
  {
    assert DELIVERY_HEADER[..3] == "## ";
    assert DELIVERY_HEADER[0] == '#' && DELIVERY_HEADER[|DELIVERY_HEADER| - 1] == 'y';
    TrimTrimmed(DELIVERY_HEADER);
  }
}
