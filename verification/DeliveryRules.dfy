/** The words and numbers of the delivery section, as they are written and as they are read. */
module DeliveryRules {
  import opened Wrappers
  import opened Text
  import opened TextLines
  import opened Spelling
  import opened PhaseDocuments
  import opened Decimals
  import opened DeliveryTable
  import opened DeliverySection

  // ---------------------------------------------------------------------------
  // What is written
  // ---------------------------------------------------------------------------

  predicate ModeIs(word: string, m: Mode) {
    word == if m == DirectMerge then "direct_merge" else "pull_request"
  }

  predicate RoleIs(word: string, r: Role) {
    word == if r == FeatureIssue then "feature_issue" else if r == Tracking then "tracking" else "epic"
  }

  predicate UpdateIs(word: string, u: UpdateMode) {
    word == if u == PrBody then "pr_body" else if u == Checklist then "checklist" else "comment"
  }

  predicate StatusIs(word: string, s: Status) {
    word == if s == NotApplicable then "not_applicable" else if s == Blocked then "blocked" else if s == Ready then "ready"
            else if s == Preparing then "preparing" else if s == Open then "open" else "error"
  }

  /** Nothing for no number and for zero; otherwise a hash, a sign when negative, and decimal digits without leading zero. */
  ghost predicate NumberIs(word: string, n: Option<int>) {
    if n == None || n == Some(0) then word == ""
    else exists digits ::
      && word == (if n.value < 0 then "#-" else "#") + digits
      && Denotes(digits, if n.value < 0 then -n.value else n.value) && digits[0] != '0'
  }

  /** The lines of a rendered section. */
  ghost predicate SectionIs(lines: seq<string>, c: Config) {
    exists mode, issue, role, update, pullRequest, status ::
      && ModeIs(mode, c.mode) && NumberIs(issue, c.issue) && RoleIs(role, c.role) && UpdateIs(update, c.update)
      && NumberIs(pullRequest, c.pullRequest) && StatusIs(status, c.status)
      && lines == SectionLines(mode, c.branch, issue, role, update, pullRequest, status)
  }

  function SectionLines(mode: string, branch: string, issue: string, role: string, update: string, pullRequest: string, status: string): seq<string> {
    ["", "## Hepha Delivery", "", "| Field | Value |", "| --- | --- |",
     "| Delivery Mode | " + mode + " |", "| Target Branch | " + branch + " |", "| GitHub Issue | " + issue + " |",
     "| Issue Role | " + role + " |", "| Issue Update Mode | " + update + " |", "| Pull Request | " + pullRequest + " |",
     "| Delivery Status | " + status + " |", ""]
  }

  lemma {:induction false} DecimalDenotes(n: nat)
    ensures Denotes(Decimal(n), n) && (n > 0 ==> Decimal(n)[0] != '0')
    decreases n
  {
    if n >= 10 {
      DecimalDenotes(n / 10);
      var digits := Decimal(n);
      assert digits[..|digits| - 1] == Decimal(n / 10) && digits[|digits| - 1] == Digit(n % 10);
    }
  }

  lemma {:induction false} NumberWritten(n: Option<int>)
    ensures NumberIs(NumberText(n), n)
  {
    if n.Some? && n.value != 0 {
      var m := if n.value < 0 then -n.value else n.value;
      DecimalDenotes(m);
      assert NumberText(n) == (if n.value < 0 then "#-" else "#") + Decimal(m);
    }
  }

  /** A rendered section is these lines. */
  lemma {:induction false} SectionWritten(c: Config)
    ensures exists lines :: SectionIs(lines, c) && Render(c) == Join(lines, '\n')
  {
    var t := TableOf(c);
    NumberWritten(c.issue);
    NumberWritten(c.pullRequest);
    var lines := SectionLines(t.mode, t.branch, t.issue, t.role, t.update, t.pullRequest, t.status);
    RowsWritten(t);
    assert SectionIs(lines, c);
  }

  lemma {:induction false} RowWritten(field: Field, value: string, head: string)
    requires "| " + Label(field) + " | " == head
    ensures RowText(field, value) == head + value + " |"
  {
  }

  lemma {:induction false} ModeFieldWritten(value: string)
    ensures RowText(ModeField, value) == "| Delivery Mode | " + value + " |"
  {
    RowWritten(ModeField, value, "| Delivery Mode | ");
  }

  lemma {:induction false} BranchFieldWritten(value: string)
    ensures RowText(BranchField, value) == "| Target Branch | " + value + " |"
  {
    RowWritten(BranchField, value, "| Target Branch | ");
  }

  lemma {:induction false} IssueFieldWritten(value: string)
    ensures RowText(IssueField, value) == "| GitHub Issue | " + value + " |"
  {
    RowWritten(IssueField, value, "| GitHub Issue | ");
  }

  lemma {:induction false} RoleFieldWritten(value: string)
    ensures RowText(RoleField, value) == "| Issue Role | " + value + " |"
  {
    RowWritten(RoleField, value, "| Issue Role | ");
  }

  lemma {:induction false} UpdateFieldWritten(value: string)
    ensures RowText(UpdateField, value) == "| Issue Update Mode | " + value + " |"
  {
    RowWritten(UpdateField, value, "| Issue Update Mode | ");
  }

  lemma {:induction false} PullRequestFieldWritten(value: string)
    ensures RowText(PullRequestField, value) == "| Pull Request | " + value + " |"
  {
    RowWritten(PullRequestField, value, "| Pull Request | ");
  }

  lemma {:induction false} StatusFieldWritten(value: string)
    ensures RowText(StatusField, value) == "| Delivery Status | " + value + " |"
  {
    RowWritten(StatusField, value, "| Delivery Status | ");
  }

  lemma {:induction false} RowsWritten(t: Table)
    ensures SectionRows(t) + [""] == SectionLines(t.mode, t.branch, t.issue, t.role, t.update, t.pullRequest, t.status)
  {
    ModeFieldWritten(t.mode);
    BranchFieldWritten(t.branch);
    IssueFieldWritten(t.issue);
    RoleFieldWritten(t.role);
    UpdateFieldWritten(t.update);
    PullRequestFieldWritten(t.pullRequest);
    StatusFieldWritten(t.status);
  }

  // ---------------------------------------------------------------------------
  // What is read
  // ---------------------------------------------------------------------------

  /** The words of a mode; anything else is refused. */
  lemma {:induction false} ModeReadIff(raw: string)
    ensures ReadMode(raw) == Some(DirectMerge) <==> SpellsTrimmed(raw, "direct_merge")
    ensures ReadMode(raw) == Some(PullRequest) <==> SpellsTrimmed(raw, "pull_request")
  {
    assert !IsSpace('d') && !IsSpace('e') && !IsSpace('p') && !IsSpace('t');
    SpellsTrimmedIff(raw, "direct_merge");
    SpellsTrimmedIff(raw, "pull_request");
    assert "direct_merge"[0] != "pull_request"[0];
  }

  lemma {:induction false} RoleReadIff(raw: string)
    ensures ReadRole(raw) == Tracking <==> SpellsTrimmed(raw, "tracking")
    ensures ReadRole(raw) == Epic <==> SpellsTrimmed(raw, "epic")
  {
    assert !IsSpace('t') && !IsSpace('g') && !IsSpace('e') && !IsSpace('c');
    SpellsTrimmedIff(raw, "tracking");
    SpellsTrimmedIff(raw, "epic");
    assert "tracking"[0] != "epic"[0];
  }

  lemma {:induction false} UpdateReadIff(raw: string)
    ensures ReadUpdate(raw) == Checklist <==> SpellsTrimmed(raw, "checklist")
    ensures ReadUpdate(raw) == Comment <==> SpellsTrimmed(raw, "comment")
  {
    assert !IsSpace('c') && !IsSpace('t');
    SpellsTrimmedIff(raw, "checklist");
    SpellsTrimmedIff(raw, "comment");
    assert "checklist"[1] != "comment"[1];
  }

  lemma {:induction false} NoUnderscore(word: string, plain: string)
    requires forall i :: 0 <= i < |plain| ==> plain[i] != '_' && plain[i] != '-'
    ensures Underscores(word) == plain <==> word == plain
  {
    if Underscores(word) == plain {
      forall i | 0 <= i < |word| ensures word[i] == plain[i] {
        assert Underscores(word)[i] == plain[i];
      }
    }
  }

  lemma {:induction false} StatusWordIff(raw: string, word: string)
    requires NoCapitals(word) && Trimmed(word) && forall i :: 0 <= i < |word| ==> word[i] != '_' && word[i] != '-'
    ensures Underscores(Lower(Trim(raw))) == word <==> SpellsTrimmed(raw, word)
  {
    NoUnderscore(Lower(Trim(raw)), word);
    SpellsTrimmedIff(raw, word);
  }

  lemma {:induction false} StatusReadIff(raw: string)
    ensures ReadStatus(raw) == Blocked <==> SpellsTrimmed(raw, "blocked")
    ensures ReadStatus(raw) == Ready <==> SpellsTrimmed(raw, "ready")
    ensures ReadStatus(raw) == Preparing <==> SpellsTrimmed(raw, "preparing")
    ensures ReadStatus(raw) == Open <==> SpellsTrimmed(raw, "open")
    ensures ReadStatus(raw) == Error <==> SpellsTrimmed(raw, "error")
  {
    assert !IsSpace('b') && !IsSpace('d') && !IsSpace('r') && !IsSpace('y') && !IsSpace('p') && !IsSpace('g')
      && !IsSpace('o') && !IsSpace('n') && !IsSpace('e');
    StatusWordIff(raw, "blocked");
    StatusWordIff(raw, "ready");
    StatusWordIff(raw, "preparing");
    StatusWordIff(raw, "open");
    StatusWordIff(raw, "error");
    assert "blocked"[0] == 'b' && "ready"[0] == 'r' && "preparing"[0] == 'p' && "open"[0] == 'o' && "error"[0] == 'e';
  }

  /** Decimal digits, with a hash before them or not, and white space around. */
  ghost predicate NumberSpelled(raw: string, hash: string, digits: string, n: nat) {
    IsTrimmed(raw, hash + digits) && (hash == "" || hash == "#") && Denotes(digits, n)
  }

  lemma {:induction false} DigitsReadIff(digits: string, n: int)
    ensures ReadDigits(digits) == Some(n) <==> n >= 0 && Denotes(digits, n)
  {
    if ReadDigits(digits).Some? {
      DenotesIff(digits, DigitsValue(digits));
      if n >= 0 {
        DenotesIff(digits, n);
      }
    }
    if n >= 0 && Denotes(digits, n) {
      DenotesDigits(digits, n);
      DigitsLead(digits, "");
      assert digits + "" == digits;
      DenotesIff(digits, n);
    }
  }

  lemma {:induction false} NumberReadIff(raw: string, n: int)
    ensures ReadNumber(raw) == Some(n) <==> n >= 0 && exists hash, digits :: NumberSpelled(raw, hash, digits, n)
  {
    var s := Trim(raw);
    TrimIff(raw, s);
    if ReadNumber(raw) == Some(n) {
      if s != "" && s[0] == '#' {
        DigitsReadIff(s[1..], n);
        assert s == "#" + s[1..];
        assert NumberSpelled(raw, "#", s[1..], n);
      } else {
        DigitsReadIff(s, n);
        assert s == "" + s;
        assert NumberSpelled(raw, "", s, n);
      }
    }
    if n >= 0 {
      if hash, digits :| NumberSpelled(raw, hash, digits, n) {
        TrimIff(raw, hash + digits);
        DigitsReadIff(digits, n);
        DenotesDigits(digits, n);
        if hash == "#" {
          assert (hash + digits)[1..] == digits;
        } else {
          assert hash + digits == digits;
        }
      }
    }
  }

  /** The names of the fields. */
  function FieldName(field: Field): string {
    match field
    case ModeField => "delivery mode"
    case BranchField => "target branch"
    case IssueField => "github issue"
    case RoleField => "issue role"
    case UpdateField => "issue update mode"
    case PullRequestField => "pull request"
    case StatusField => "delivery status"
  }

  ghost predicate WordAt(line: string, word: string, i: nat) {
    i + |word| <= |line| && Spells(line[i..i + |word|], word)
  }

  /** The word occurs in any case. */
  ghost predicate HasWord(line: string, word: string) {
    exists i: nat :: WordAt(line, word, i)
  }

  lemma {:induction false} WordAtIff(line: string, word: string, i: nat)
    requires NoCapitals(word)
    ensures OccursAt(Lower(line), word, i) <==> WordAt(line, word, i)
  {
    if i + |word| <= |line| {
      SpellsIff(line[i..i + |word|], word);
      assert Lower(line[i..i + |word|]) == Lower(line)[i..i + |word|];
    }
  }

  lemma {:induction false} HasWordIff(line: string, word: string)
    requires NoCapitals(word)
    ensures Includes(Lower(line), word) <==> HasWord(line, word)
  {
    forall i: nat ensures OccursAt(Lower(line), word, i) <==> WordAt(line, word, i) {
      WordAtIff(line, word, i);
    }
    if i: nat :| WordAt(line, word, i) {
      assert OccursAt(Lower(line), word, i);
    }
  }

  /** The first two parts that are not blank. */
  ghost predicate FirstTwo(parts: seq<string>, i: nat, j: nat) {
    && i < j < |parts| && NotBlank(parts[i]) && NotBlank(parts[j])
    && (forall k :: 0 <= k < j && k != i ==> !NotBlank(parts[k]))
  }

  lemma {:induction false} FirstKept(parts: seq<string>) returns (i: nat)
    requires NonEmpty(Trims(parts)) != []
    ensures i < |parts| && NotBlank(parts[i]) && (forall k :: 0 <= k < i ==> !NotBlank(parts[k]))
    ensures NonEmpty(Trims(parts)) == [Trim(parts[i])] + NonEmpty(Trims(parts[i + 1..]))
    decreases |parts|
  {
    TrimsFront(parts);
    NotBlankIff(parts[0]);
    if Trim(parts[0]) != "" {
      i := 0;
    } else {
      i := FirstKept(parts[1..]);
      assert parts[1..][i + 1..] == parts[i + 2..];
      assert forall k :: 0 < k <= i ==> parts[k] == parts[1..][k - 1];
      i := i + 1;
    }
  }

  lemma {:induction false} TrimsFront(parts: seq<string>)
    requires Trims(parts) != []
    ensures parts != [] && Trims(parts)[0] == Trim(parts[0]) && Trims(parts)[1..] == Trims(parts[1..])
  {
    assert parts != [];
    EachConcat(Trim, [parts[0]], parts[1..]);
    EachOne(Trim, parts[0]);
    assert parts == [parts[0]] + parts[1..];
  }

  lemma {:induction false} NoneKept(parts: seq<string>, n: nat)
    requires n <= |parts| && forall k :: 0 <= k < n ==> !NotBlank(parts[k])
    ensures NonEmpty(Trims(parts)) == NonEmpty(Trims(parts[n..]))
    decreases n
  {
    if n > 0 {
      TrimsFront(parts);
      NotBlankIff(parts[0]);
      assert parts[1..][n - 1..] == parts[n..];
      NoneKept(parts[1..], n - 1);
    } else {
      assert parts[0..] == parts;
    }
  }

  /** At least two parts are kept exactly when there are two that are not blank, and these come first. */
  lemma {:induction false} TwoKeptAre(parts: seq<string>) returns (i: nat, j: nat)
    requires |NonEmpty(Trims(parts))| >= 2
    ensures FirstTwo(parts, i, j)
    ensures NonEmpty(Trims(parts))[0] == Trim(parts[i]) && NonEmpty(Trims(parts))[1] == Trim(parts[j])
  {
    i := FirstKept(parts);
    j := FirstKept(parts[i + 1..]);
    forall k | 0 <= k < i + 1 + j && k != i ensures !NotBlank(parts[k]) {
      if k > i {
        assert parts[k] == parts[i + 1..][k - i - 1];
      }
    }
    j := i + 1 + j;
  }

  lemma {:induction false} TwoAreKept(parts: seq<string>, i: nat, j: nat)
    requires FirstTwo(parts, i, j)
    ensures |NonEmpty(Trims(parts))| >= 2
    ensures NonEmpty(Trims(parts))[0] == Trim(parts[i]) && NonEmpty(Trims(parts))[1] == Trim(parts[j])
  {
    NoneKept(parts, i);
    TrimsFront(parts[i..]);
    NotBlankIff(parts[i]);
    assert parts[i..][1..] == parts[i + 1..];
    var rest := parts[i + 1..];
    forall k | 0 <= k < j - i - 1 ensures !NotBlank(rest[k]) {
      assert rest[k] == parts[i + 1 + k];
    }
    NoneKept(rest, j - i - 1);
    assert rest[j - i - 1..] == parts[j..];
    TrimsFront(parts[j..]);
    NotBlankIff(parts[j]);
  }

  /** The name and the value of a row are its first two parts that are not blank. */
  ghost predicate RowNames(parts: seq<string>, field: Field, value: string) {
    exists i: nat, j: nat :: FirstTwo(parts, i, j) && SpellsTrimmed(parts[i], FieldName(field)) && IsTrimmed(parts[j], value)
  }

  lemma {:induction false} FieldNameIff(word: string, field: Field)
    ensures ReadField(word) == Some(field) <==> word == FieldName(field)
  {
    assert "delivery mode"[0] == 'd' && "target branch"[0] == 't' && "github issue"[0] == 'g' && "issue role"[6] == 'r'
      && "issue update mode"[6] == 'u' && "pull request"[0] == 'p' && "delivery status"[9] == 's' && "delivery mode"[9] == 'm';
    assert "issue role"[0] == 'i' && "issue update mode"[0] == 'i' && "delivery status"[0] == 'd';
  }

  lemma {:induction false} LowerSpaces(s: string)
    ensures forall k :: 0 <= k < |s| ==> (IsSpace(Lower(s)[k]) <==> IsSpace(s[k]))
  {
  }

  lemma {:induction false} TrimLower(s: string)
    ensures Trim(Lower(s)) == Lower(Trim(s))
  {
    var i, j := TrimPlace(s);
    TrimTrimmed(s);
    LowerSpaces(s);
    assert Between(Lower(s), i, j);
    LowerCore(s, i, j);
    TrimIff(Lower(s), Lower(s[i..j]));
  }

  lemma {:induction false} LowerCore(s: string, i: nat, j: nat)
    requires Between(Lower(s), i, j) && j <= |s| && Trimmed(s[i..j])
    ensures IsTrimmed(Lower(s), Lower(s[i..j]))
  {
    LowerSpaces(s[i..j]);
    assert Lower(s)[i..j] == Lower(s[i..j]);
  }

  lemma {:induction false} TrimIdempotent(s: string)
    ensures Trim(Trim(s)) == Trim(s)
  {
    TrimTrimmed(s);
    TrimTrimmed(Trim(s));
  }

  lemma {:induction false} FieldNameClean(field: Field)
    ensures NoCapitals(FieldName(field)) && Trimmed(FieldName(field))
  {
    assert !IsSpace('d') && !IsSpace('e') && !IsSpace('t') && !IsSpace('h') && !IsSpace('g') && !IsSpace('i')
      && !IsSpace('p') && !IsSpace('s');
  }

  lemma {:induction false} PartsEntryIff(parts: seq<string>, field: Field, value: string)
    ensures EntryOfParts(NonEmpty(Trims(parts))) == Some(Entry(field, value)) <==> RowNames(parts, field, value)
  {
    var kept := NonEmpty(Trims(parts));
    if |kept| >= 2 {
      var i, j := TwoKeptAre(parts);
      KeptEntryIff(parts, i, j, field, value);
    }
    if RowNames(parts, field, value) {
      var i: nat, j: nat :| FirstTwo(parts, i, j) && SpellsTrimmed(parts[i], FieldName(field)) && IsTrimmed(parts[j], value);
      TwoAreKept(parts, i, j);
      KeptEntryIff(parts, i, j, field, value);
    }
  }

  lemma {:induction false} KeptEntryIff(parts: seq<string>, i: nat, j: nat, field: Field, value: string)
    requires FirstTwo(parts, i, j) && |NonEmpty(Trims(parts))| >= 2
    requires NonEmpty(Trims(parts))[0] == Trim(parts[i]) && NonEmpty(Trims(parts))[1] == Trim(parts[j])
    ensures EntryOfParts(NonEmpty(Trims(parts))) == Some(Entry(field, value)) <==>
      SpellsTrimmed(parts[i], FieldName(field)) && IsTrimmed(parts[j], value)
  {
    TrimLower(Trim(parts[i]));
    TrimIdempotent(parts[i]);
    TrimIdempotent(parts[j]);
    FieldNameIff(Lower(Trim(parts[i])), field);
    FieldNameClean(field);
    SpellsTrimmedIff(parts[i], FieldName(field));
    TrimIff(parts[j], value);
  }

  /** A row that is read: it is between pipes, holds no dashes, and not both words of the head. */
  ghost predicate RowShown(line: string) {
    && line != "" && line[0] == '|' && line[|line| - 1] == '|'
    && !Includes(line, "---") && !(HasWord(line, "field") && HasWord(line, "value"))
  }

  lemma {:induction false} ShownIff(line: string)
    ensures RowShown(line) <==> Framed(line) && !Skipped(line)
  {
    HasWordIff(line, "field");
    HasWordIff(line, "value");
  }

  /** The line, cut at its pipes, names the field and gives the value. */
  ghost predicate CutSays(line: string, parts: seq<string>, field: Field, value: string) {
    Without(parts, '|') && parts != [] && line == Join(parts, '|') && RowNames(parts, field, value)
  }

  lemma {:induction false} SplitSaysIff(line: string, field: Field, value: string)
    ensures EntryOfParts(NonEmpty(Trims(Split(line, '|')))) == Some(Entry(field, value)) <==>
      exists parts :: CutSays(line, parts, field, value)
  {
    var parts := Split(line, '|');
    SplitWithout(line, '|');
    JoinSplit(line, '|');
    PartsEntryIff(parts, field, value);
    if RowNames(parts, field, value) {
      assert CutSays(line, parts, field, value);
    }
    if others :| CutSays(line, others, field, value) {
      SplitJoin(others, '|');
    }
  }

  /** A row sets the field its name stands for, exactly in this form. */
  lemma {:induction false} EntryIff(line: string, field: Field, value: string)
    ensures EntryOf(line) == Some(Entry(field, value)) <==>
      RowShown(line) && exists parts :: CutSays(line, parts, field, value)
  {
    ShownIff(line);
    SplitSaysIff(line, field, value);
  }

  lemma {:induction false} DefaultMode()
    ensures ReadMode("direct_merge") == Some(DirectMerge)
  {
    DefaultWord("direct_merge");
  }

  lemma {:induction false} DefaultRole()
    ensures ReadRole("feature_issue") == FeatureIssue
  {
    DefaultWord("feature_issue");
    assert "feature_issue"[0] != "tracking"[0] && "feature_issue"[0] != "epic"[0];
  }

  lemma {:induction false} DefaultUpdate()
    ensures ReadUpdate("pr_body") == PrBody
  {
    DefaultWord("pr_body");
    assert "pr_body"[0] != "checklist"[0] && "pr_body"[0] != "comment"[0];
  }

  lemma {:induction false} DefaultStatus()
    ensures ReadStatus("not_applicable") == NotApplicable
  {
    DefaultWord("not_applicable");
    assert Underscores("not_applicable")[0] == 'n';
    assert "blocked"[0] == 'b' && "ready"[0] == 'r' && "preparing"[0] == 'p' && "open"[0] == 'o' && "error"[0] == 'e';
  }

  lemma {:induction false} DefaultTable()
    ensures ToConfig(DEFAULT_TABLE) == Ok(Config(DirectMerge, "master", None, FeatureIssue, PrBody, None, NotApplicable))
  {
    DefaultMode();
    DefaultRole();
    DefaultUpdate();
    DefaultStatus();
  }

  lemma {:induction false} DefaultWord(word: string)
    requires word == "direct_merge" || word == "feature_issue" || word == "pr_body" || word == "not_applicable"
    ensures Lower(Trim(word)) == word
  {
    assert !IsSpace('d') && !IsSpace('e') && !IsSpace('f') && !IsSpace('p') && !IsSpace('y') && !IsSpace('n');
    TrimTrimmed(word);
    assert NoCapitals(word);
    assert Lower(word) == word;
  }

  /** A document without the section has the default configuration. */
  lemma {:induction false} DefaultWithout(document: string)
    requires forall i :: 0 <= i < |LinesOf(document)| ==> !LinesOf(document)[i].header
    ensures Parse(document) == Ok(Config(DirectMerge, "master", None, FeatureIssue, PrBody, None, NotApplicable))
  {
    NoHeaders(LinesOf(document));
    DefaultTable();
  }

  lemma {:induction false} NoHeaders(lines: seq<Line>)
    requires forall i :: 0 <= i < |lines| ==> !lines[i].header
    ensures Headers(lines) == 0 && FirstHeader(lines) == None
    decreases |lines|
  {
    if lines != [] {
      NoHeaders(lines[..|lines| - 1]);
    }
  }

  // ---------------------------------------------------------------------------
  // The table
  // ---------------------------------------------------------------------------

  function FieldOf(t: Table, field: Field): string {
    match field
    case ModeField => t.mode
    case BranchField => t.branch
    case IssueField => t.issue
    case RoleField => t.role
    case UpdateField => t.update
    case PullRequestField => t.pullRequest
    case StatusField => t.status
  }

  function DefaultOf(field: Field): string {
    match field
    case ModeField => "direct_merge"
    case BranchField => "master"
    case IssueField => ""
    case RoleField => "feature_issue"
    case UpdateField => "pr_body"
    case PullRequestField => ""
    case StatusField => "not_applicable"
  }

  ghost predicate Sets(line: Line, field: Field) {
    line.entry.Some? && line.entry.value.field == field
  }

  /** Line k is the last one that sets the field. */
  ghost predicate LastRow(lines: seq<Line>, field: Field, k: nat) {
    k < |lines| && Sets(lines[k], field) && forall j :: k < j < |lines| ==> !Sets(lines[j], field)
  }

  /** A field that no row sets has its default. */
  lemma {:induction false} DefaultStays(lines: seq<Line>, field: Field)
    requires forall j :: 0 <= j < |lines| ==> !Sets(lines[j], field)
    ensures FieldOf(ParseTable(lines), field) == DefaultOf(field)
    decreases |lines|
  {
    if lines != [] {
      var rest := lines[..|lines| - 1];
      DefaultStays(rest, field);
      AppliedField(ParseTable(rest), lines[|lines| - 1], field);
    }
  }

  /** A field has the value of its last row; an empty value, of a mode excepted, counts as the default. */
  lemma {:induction false} LastRowWins(lines: seq<Line>, field: Field, k: nat)
    requires LastRow(lines, field, k)
    ensures FieldOf(ParseTable(lines), field) ==
      if lines[k].entry.value.value == "" && field != ModeField then DefaultOf(field) else lines[k].entry.value.value
    decreases |lines|
  {
    var last := |lines| - 1;
    var rest := lines[..last];
    if k < last {
      assert LastRow(rest, field, k);
      LastRowWins(rest, field, k);
    }
    AppliedField(ParseTable(rest), lines[last], field);
  }

  lemma {:induction false} AppliedField(t: Table, line: Line, field: Field)
    ensures FieldOf(Apply(t, line.entry), field) ==
      if !Sets(line, field) then FieldOf(t, field)
      else if line.entry.value.value == "" && field != ModeField then DefaultOf(field) else line.entry.value.value
  {
  }

  /** Line k is the last table row from a position on. */
  ghost predicate LastBar(lines: seq<Line>, from: nat, k: nat) {
    from <= k < |lines| && lines[k].bar && forall j :: k < j < |lines| ==> !lines[j].bar
  }

  /** Where no heading follows, the section ends after its last table row, or else with the document. */
  lemma {:induction false} EndWithoutHeading(lines: seq<Line>, from: nat, lastRow: Option<nat>)
    requires from <= |lines| && forall j :: from <= j < |lines| ==> !lines[j].heading
    ensures forall k: nat :: LastBar(lines, from, k) ==> FindEnd(lines, from, lastRow) == k + 1
    ensures (forall j :: from <= j < |lines| ==> !lines[j].bar) ==>
      FindEnd(lines, from, lastRow) == if lastRow.Some? then lastRow.value + 1 else |lines|
    decreases |lines| - from
  {
    if from < |lines| {
      EndWithoutHeading(lines, from + 1, if lines[from].bar then Some(from) else lastRow);
      forall k: nat | LastBar(lines, from, k) && k > from ensures LastBar(lines, from + 1, k) {
      }
    }
  }

  /** What is asked of a trimmed line. */
  lemma {:induction false} LineIs(line: string)
    ensures var l := Classify(line);
      && (l.header <==> line == "## Hepha Delivery")
      && (l.heading <==> |line| >= 3 && line[0] == '#' && line[1] == '#' && line[2] == ' ')
      && (l.bar <==> line != "" && line[0] == '|')
      && l.entry == EntryOf(line)
  {
    if |line| >= 3 && line[0] == '#' && line[1] == '#' && line[2] == ' ' {
      assert line[..3] == "## ";
    }
  }

  ghost predicate OnlyHeader(lines: seq<Line>, k: nat) {
    k < |lines| && lines[k].header && forall j :: 0 <= j < |lines| && j != k ==> !lines[j].header
  }

  /** The table read is that of the one section there is, of none when there is none, and an error when there are more. */
  lemma {:induction false} TableReadIff(lines: seq<Line>)
    ensures ReadTable(lines) == Err(()) <==> exists i, j :: 0 <= i < j < |lines| && lines[i].header && lines[j].header
    ensures (forall i :: 0 <= i < |lines| ==> !lines[i].header) ==> ReadTable(lines) == Ok(ParseTable([]))
    ensures forall k: nat :: OnlyHeader(lines, k) ==>
      var end := FindEnd(lines, k + 1, None);
      k < end <= |lines| && ReadTable(lines) == Ok(ParseTable(lines[k..end]))
  {
    CountHeaders(lines);
    var first := FirstHeader(lines);
    if first.Some? {
      FindEndMeans(lines, first.value + 1, None);
    }
  }

  lemma {:induction false} CountHeaders(lines: seq<Line>)
    ensures Headers(lines) == 0 <==> forall i :: 0 <= i < |lines| ==> !lines[i].header
    ensures Headers(lines) > 1 <==> exists i, j :: 0 <= i < j < |lines| && lines[i].header && lines[j].header
    ensures FirstHeader(lines) == None <==> Headers(lines) == 0
    decreases |lines|
  {
    if lines != [] {
      CountHeaders(lines[..|lines| - 1]);
    }
  }
}
