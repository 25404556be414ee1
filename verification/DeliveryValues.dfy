/** The values of a delivery section: what is written for each field is read back as it was. */
module DeliveryValues {
  import opened Wrappers
  import opened Text
  import opened DeliveryTable
  import opened DeliverySection
  import opened DeliveryRows
  import opened PhaseDocuments

  // ---------------------------------------------------------------------------
  // Words
  // ---------------------------------------------------------------------------

  /** Small letters and underscores, without the letter f. */
  ghost predicate PlainWord(s: string) {
    s != "" && forall i :: 0 <= i < |s| ==> s[i] == '_' || ('a' <= s[i] <= 'z' && s[i] != 'f')
  }

  lemma {:induction false} PlainWordReads(s: string)
    requires PlainWord(s)
    ensures Lower(Trim(s)) == s && Underscores(s) == s
  {
    assert s[0] == '_' || 'a' <= s[0] <= 'z';
    TrimTrimmed(s);
    assert Lower(s) == s;
  }

  lemma {:induction false} PlainWordSafe(field: Field, s: string)
    requires PlainWord(s)
    ensures SafeValue(field, s)
  {
    assert '|' !in s && '\n' !in s && '-' !in s && 'f' !in s;
    assert Lower(s) == s;
    NotWithout(s, "---", 0);
    NotWithout(s, "field", 0);
  }

  lemma {:induction false} ModeWord(m: Mode)
    ensures PlainWord(ModeText(m)) && ReadMode(ModeText(m)) == Some(m)
  {
    assert PlainWord("direct_merge") && PlainWord("pull_request");
    PlainWordReads(ModeText(m));
    assert "direct_merge"[0] == 'd' && "pull_request"[0] == 'p';
  }

  lemma {:induction false} FeatureIssueSafe()
    ensures SafeValue(RoleField, "feature_issue") && Lower(Trim("feature_issue")) == "feature_issue"
  {
    var s := "feature_issue";
    TrimTrimmed(s);
    assert Lower(s) == s;
    assert '|' !in s && '\n' !in s && '-' !in s && 'd' !in s;
    NotWithout(s, "---", 0);
    NotWithout(s, "field", 4);
  }

  lemma {:induction false} RoleWord(r: Role)
    ensures SafeValue(RoleField, RoleText(r)) && ReadRole(RoleText(r)) == r && RoleText(r) != ""
  {
    match r
    case FeatureIssue =>
      FeatureIssueSafe();
      assert "feature_issue"[0] == 'f' && "tracking"[0] == 't' && "epic"[0] == 'e';
    case Tracking =>
      assert PlainWord("tracking");
      PlainWordReads("tracking");
      PlainWordSafe(RoleField, "tracking");
    case Epic =>
      assert PlainWord("epic");
      PlainWordReads("epic");
      PlainWordSafe(RoleField, "epic");
      assert |"epic"| == 4 && |"tracking"| == 8;
  }

  lemma {:induction false} UpdateWord(u: UpdateMode)
    ensures PlainWord(UpdateText(u)) && ReadUpdate(UpdateText(u)) == u
  {
    assert PlainWord("pr_body") && PlainWord("checklist") && PlainWord("comment");
    PlainWordReads(UpdateText(u));
    assert "pr_body"[0] == 'p' && "checklist"[1] == 'h' && "comment"[1] == 'o' && "comment"[0] == 'c' && "checklist"[0] == 'c';
  }

  lemma {:induction false} StatusWordPlain(s: Status)
    ensures PlainWord(StatusText(s))
  {
    match s
    case NotApplicable => assert PlainWord("not_applicable");
    case Blocked => assert PlainWord("blocked");
    case Ready => assert PlainWord("ready");
    case Preparing => assert PlainWord("preparing");
    case Open => assert PlainWord("open");
    case Error => assert PlainWord("error");
  }

  lemma {:induction false} StatusWord(s: Status)
    ensures PlainWord(StatusText(s)) && ReadStatus(StatusText(s)) == s
  {
    StatusWordPlain(s);
    PlainWordReads(StatusText(s));
    assert "not_applicable"[0] == 'n' && "blocked"[0] == 'b' && "ready"[0] == 'r' && "preparing"[0] == 'p';
    assert "open"[0] == 'o' && "error"[0] == 'e';
  }

  // ---------------------------------------------------------------------------
  // Numbers
  // ---------------------------------------------------------------------------

  ghost predicate AllDigits(s: string) {
    forall i :: 0 <= i < |s| ==> IsDigit(s[i])
  }

  lemma {:induction false} DigitReads(n: nat)
    requires n < 10
    ensures IsDigit(Digit(n)) && Digit(n) as int - '0' as int == n
  {
  }

  lemma {:induction false} DecimalReads(n: nat)
    ensures AllDigits(Decimal(n)) && DigitsValue(Decimal(n)) == n
    decreases n
  {
    DigitReads(n % 10);
    if n < 10 {
      assert [Digit(n)][..0] == "";
    } else {
      DecimalReads(n / 10);
      assert Decimal(n)[..|Decimal(n)| - 1] == Decimal(n / 10);
    }
  }

  lemma {:induction false} AllLeading(s: string)
    requires AllDigits(s)
    ensures LeadingDigits(s) == |s|
    decreases |s|
  {
    if s != "" {
      AllLeading(s[1..]);
    }
  }

  /** The numbers a section can carry: positive ones. */
  function Kept(n: Option<int>): Option<int> {
    if n.Some? && n.value > 0 then n else None
  }

  lemma {:induction false} NumberTrimmed(n: Option<int>)
    ensures Trimmed(NumberText(n))
  {
    if n.Some? && n.value != 0 {
      var digits := Decimal(if n.value < 0 then -n.value else n.value);
      DecimalReads(if n.value < 0 then -n.value else n.value);
      assert NumberText(n)[|NumberText(n)| - 1] == digits[|digits| - 1];
    }
  }

  lemma {:induction false} NumberReads(n: Option<int>)
    ensures ReadNumber(NumberText(n)) == Kept(n)
  {
    var s := NumberText(n);
    NumberTrimmed(n);
    TrimTrimmed(s);
    if n.Some? && n.value > 0 {
      DecimalReads(n.value);
      AllLeading(Decimal(n.value));
      assert s[1..] == Decimal(n.value);
    } else if n.Some? && n.value < 0 {
      assert s[1..] == "-" + Decimal(-n.value);
      assert s[1..][0] == '-';
    }
  }

  /** Digits and hashes, and a dash at most in second place. */
  ghost predicate NumberShape(s: string) {
    forall i :: 0 <= i < |s| ==> s[i] == '#' || IsDigit(s[i]) || (i == 1 && s[i] == '-')
  }

  lemma {:induction false} NumberHasShape(n: Option<int>)
    ensures NumberShape(NumberText(n))
  {
    if n.Some? && n.value > 0 {
      DecimalReads(n.value);
    } else if n.Some? && n.value < 0 {
      DecimalReads(-n.value);
      var s, digits := NumberText(n), Decimal(-n.value);
      assert forall i :: 2 <= i < |s| ==> s[i] == digits[i - 2];
    }
  }

  lemma {:induction false} ShapeHasNo(s: string)
    requires NumberShape(s)
    ensures '|' !in s && '\n' !in s && 'f' !in Lower(s)
    ensures forall i :: 0 <= i < |s| && i != 1 ==> s[i] != '-'
  {
  }

  lemma {:induction false} NumberSafe(field: Field, n: Option<int>)
    ensures SafeValue(field, NumberText(n))
  {
    var s := NumberText(n);
    NumberTrimmed(n);
    NumberHasShape(n);
    ShapeHasNo(s);
    NotWithout(Lower(s), "field", 0);
    if Includes(s, "---") {
      var i: nat :| i <= |s| && OccursAt(s, "---", i);
      OccursChar(s, "---", i, 0);
      OccursChar(s, "---", i, 1);
    }
  }

  // ---------------------------------------------------------------------------
  // A whole configuration
  // ---------------------------------------------------------------------------

  /** A branch the section can carry. */
  ghost predicate GoodBranch(b: string) {
    && Trimmed(b) && b != "" && '|' !in b && '\n' !in b && !Includes(b, "---")
    && !(Includes(Lower(b), "field") && Includes(Lower(b), "value"))
  }

  ghost predicate SafeTable(t: Table) {
    && SafeValue(ModeField, t.mode) && SafeValue(BranchField, t.branch) && SafeValue(IssueField, t.issue)
    && SafeValue(RoleField, t.role) && SafeValue(UpdateField, t.update) && SafeValue(PullRequestField, t.pullRequest)
    && SafeValue(StatusField, t.status)
  }

  lemma {:induction false} ConfigSafe(c: Config)
    requires GoodBranch(c.branch)
    ensures SafeTable(TableOf(c))
  {
    ModeWord(c.mode);
    PlainWordSafe(ModeField, ModeText(c.mode));
    NumberSafe(IssueField, c.issue);
    RoleWord(c.role);
    UpdateWord(c.update);
    PlainWordSafe(UpdateField, UpdateText(c.update));
    NumberSafe(PullRequestField, c.pullRequest);
    StatusWord(c.status);
    PlainWordSafe(StatusField, StatusText(c.status));
  }

  /** The configuration with the numbers that are neither null nor positive set to null. */
  function Normalized(c: Config): Config {
    c.(issue := Kept(c.issue), pullRequest := Kept(c.pullRequest))
  }

  lemma {:induction false} ConfigReads(c: Config)
    requires c.branch != ""
    ensures ToConfig(WithDefaults(TableOf(c))) == Ok(Normalized(c))
  {
    ModeWord(c.mode);
    NumberReads(c.issue);
    RoleWord(c.role);
    UpdateWord(c.update);
    NumberReads(c.pullRequest);
    StatusWord(c.status);
  }

  lemma {:induction false} MasterIsGood()
    ensures GoodBranch("master")
  {
    var s := "master";
    assert PlainWord(s);
    PlainWordSafe(BranchField, s);
  }
}
