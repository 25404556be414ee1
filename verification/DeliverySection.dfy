/** The delivery section as text: rendering a configuration into a document and reading it back. */
module DeliverySection {
  import opened Wrappers
  import opened Text
  import opened TextLines
  import opened DeliveryTable
  import PhaseDocuments

  datatype Mode = DirectMerge | PullRequest

  datatype Role = FeatureIssue | Tracking | Epic

  datatype UpdateMode = PrBody | Checklist | Comment

  datatype Status = NotApplicable | Blocked | Ready | Preparing | Open | Error

  datatype Config = Config(mode: Mode, branch: string, issue: Option<int>, role: Role, update: UpdateMode,
                           pullRequest: Option<int>, status: Status)

  const DELIVERY_HEADER := "## Hepha Delivery"

  // ---------------------------------------------------------------------------
  // Rendering
  // ---------------------------------------------------------------------------

  function ModeText(m: Mode): string {
    match m case DirectMerge => "direct_merge" case PullRequest => "pull_request"
  }

  function RoleText(r: Role): string {
    match r case FeatureIssue => "feature_issue" case Tracking => "tracking" case Epic => "epic"
  }

  function UpdateText(u: UpdateMode): string {
    match u case PrBody => "pr_body" case Checklist => "checklist" case Comment => "comment"
  }

  function StatusText(s: Status): string {
    match s
    case NotApplicable => "not_applicable"
    case Blocked => "blocked"
    case Ready => "ready"
    case Preparing => "preparing"
    case Open => "open"
    case Error => "error"
  }

  function Digit(n: nat): char
    requires n < 10
  {
    ('0' as int + n) as char
  }

  function Decimal(n: nat): (s: string)
    ensures s != ""
    decreases n
  {
    if n < 10 then [Digit(n)] else Decimal(n / 10) + [Digit(n % 10)]
  }

  /** A number with its hash; nothing for null and for zero. */
  function NumberText(n: Option<int>): string {
    if n == None || n.value == 0 then ""
    else if n.value < 0 then "#-" + Decimal(-n.value)
    else "#" + Decimal(n.value)
  }

  function Label(field: Field): string {
    match field
    case ModeField => "Delivery Mode"
    case BranchField => "Target Branch"
    case IssueField => "GitHub Issue"
    case RoleField => "Issue Role"
    case UpdateField => "Issue Update Mode"
    case PullRequestField => "Pull Request"
    case StatusField => "Delivery Status"
  }

  function RowText(field: Field, value: string): string {
    "| " + Label(field) + " | " + value + " |"
  }

  function TableOf(c: Config): Table {
    Table(ModeText(c.mode), c.branch, NumberText(c.issue), RoleText(c.role), UpdateText(c.update),
          NumberText(c.pullRequest), StatusText(c.status))
  }

  const FIELD_ROW := "| Field | Value |"
  const SEPARATOR_ROW := "| --- | --- |"

  /** The rendered section without the empty string that closes it. */
  function SectionRows(t: Table): seq<string> {
    ["", DELIVERY_HEADER, "", FIELD_ROW, SEPARATOR_ROW,
     RowText(ModeField, t.mode), RowText(BranchField, t.branch), RowText(IssueField, t.issue), RowText(RoleField, t.role),
     RowText(UpdateField, t.update), RowText(PullRequestField, t.pullRequest), RowText(StatusField, t.status)]
  }

  function Render(c: Config): string {
    Join(SectionRows(TableOf(c)) + [""], '\n')
  }

  // ---------------------------------------------------------------------------
  // Reading
  // ---------------------------------------------------------------------------

  predicate OccursAt(s: string, sub: string, i: nat) {
    i + |sub| <= |s| && s[i..i + |sub|] == sub
  }

  predicate Includes(s: string, sub: string) {
    exists i: nat :: i <= |s| && OccursAt(s, sub, i)
  }

  /** The field names as the reader compares them. */
  function Name(field: Field): string {
    match field
    case ModeField => "delivery mode"
    case BranchField => "target branch"
    case IssueField => "github issue"
    case RoleField => "issue role"
    case UpdateField => "issue update mode"
    case PullRequestField => "pull request"
    case StatusField => "delivery status"
  }

  function ReadField(name: string): Option<Field> {
    if name == Name(ModeField) then Some(ModeField)
    else if name == Name(BranchField) then Some(BranchField)
    else if name == Name(IssueField) then Some(IssueField)
    else if name == Name(RoleField) then Some(RoleField)
    else if name == Name(UpdateField) then Some(UpdateField)
    else if name == Name(PullRequestField) then Some(PullRequestField)
    else if name == Name(StatusField) then Some(StatusField)
    else None
  }

  /** The parts that are not empty. */
  function NonEmpty(parts: seq<string>): seq<string>
    decreases |parts|
  {
    if parts == [] then [] else (if parts[0] == "" then [] else [parts[0]]) + NonEmpty(parts[1..])
  }

  predicate Skipped(line: string) {
    Includes(line, "---") || (Includes(Lower(line), "field") && Includes(Lower(line), "value"))
  }

  function EntryOfParts(parts: seq<string>): Option<Entry> {
    if |parts| < 2 then None
    else
      var field := ReadField(Trim(Lower(parts[0])));
      if field == None then None else Some(Entry(field.value, Trim(parts[1])))
  }

  predicate Framed(line: string) {
    line != "" && line[0] == '|' && line[|line| - 1] == '|'
  }

  function EntryOf(line: string): Option<Entry> {
    if !Framed(line) || Skipped(line) then None else EntryOfParts(NonEmpty(Trims(Split(line, '|'))))
  }

  predicate IsHeading(line: string) {
    "## " <= line
  }

  /** What the source asks about a trimmed line. */
  function Classify(line: string): Line {
    Line(line == DELIVERY_HEADER, IsHeading(line), line != "" && line[0] == '|', EntryOf(line))
  }

  function ClassifyAll(lines: seq<string>): (r: seq<Line>)
    ensures |r| == |lines|
    decreases |lines|
  {
    if lines == [] then [] else ClassifyAll(lines[..|lines| - 1]) + [Classify(lines[|lines| - 1])]
  }

  function LinesOf(document: string): seq<Line> {
    ClassifyAll(Trims(Lines(document)))
  }

  function ReadMode(raw: string): Option<Mode> {
    var word := Lower(Trim(raw));
    if word == "direct_merge" then Some(DirectMerge) else if word == "pull_request" then Some(PullRequest) else None
  }

  function ReadRole(raw: string): Role {
    var word := Lower(Trim(raw));
    if word == "tracking" then Tracking else if word == "epic" then Epic else FeatureIssue
  }

  function ReadUpdate(raw: string): UpdateMode {
    var word := Lower(Trim(raw));
    if word == "checklist" then Checklist else if word == "comment" then Comment else PrBody
  }

  function Underscores(s: string): (r: string)
    ensures |r| == |s| && forall i :: 0 <= i < |s| ==> r[i] == if s[i] == '-' then '_' else s[i]
  {
    seq(|s|, i requires 0 <= i < |s| => if s[i] == '-' then '_' else s[i])
  }

  function ReadStatus(raw: string): Status {
    var word := Underscores(Lower(Trim(raw)));
    if word == "blocked" then Blocked
    else if word == "ready" then Ready
    else if word == "preparing" then Preparing
    else if word == "open" then Open
    else if word == "error" then Error
    else NotApplicable
  }

  function ReadDigits(digits: string): Option<int> {
    if digits != "" && PhaseDocuments.LeadingDigits(digits) == |digits| then Some(PhaseDocuments.DigitsValue(digits)) else None
  }

  function ReadNumber(raw: string): Option<int> {
    var s := Trim(raw);
    if s != "" && s[0] == '#' then ReadDigits(s[1..]) else ReadDigits(s)
  }

  /** Err stands for the invalid mode error. */
  function ToConfig(t: Table): Result<Config, ()> {
    var mode := ReadMode(t.mode);
    if mode == None then Err(())
    else Ok(Config(mode.value, Or(t.branch, "master"), ReadNumber(t.issue), ReadRole(t.role), ReadUpdate(t.update),
                   ReadNumber(t.pullRequest), ReadStatus(t.status)))
  }

  function Parse(document: string): Result<Config, ()> {
    var table := ReadTable(LinesOf(document));
    if table == Err(()) then Err(()) else ToConfig(table.value)
  }

  // ---------------------------------------------------------------------------
  // Updating
  // ---------------------------------------------------------------------------

  /** Err stands for the duplicate heading error. */
  function Update(document: string, c: Config): Result<string, ()> {
    var lines := Lines(document);
    var start := FindStart(LinesOf(document));
    var section := TrimEnd(Render(c));
    if start == Err(()) then Err(())
    else if start.value == None then Ok(TrimEnd(document) + "\n" + section + "\n")
    else
      var first := start.value.value;
      var end := FindEnd(LinesOf(document), first + 1, None);
      if first <= end <= |lines| then Ok(Join(lines[..first] + [TrimEnd(section)] + lines[end..], '\n')) else Err(())
  }
}
