/**
 * The lines of a phase document as its two readers see them.  The parity test looks for one plain
 * second-level heading and for checkboxes that are open or done; the extractor knows headings of
 * every level, cleans inline markup, and also takes checkboxes that are under way.
 */
module LedgerLines {
  import opened Wrappers
  import opened Text

  const LEDGER_TITLE := "phase task ledger"
  const CONTRACT_MARK := "[contract:"
  const EXECUTOR_MARK := "[executor:"
  const TEXT_LIMIT := 240

  /** The characters that . does not match. */
  predicate IsTerminator(c: char) {
    c == '\n' || c == '\r' || c == '\U{2028}' || c == '\U{2029}'
  }

  predicate OneLine(s: string) {
    forall i :: 0 <= i < |s| ==> !IsTerminator(s[i])
  }

  // ---------------------------------------------------------------------------
  // Cleaning inline markup
  // ---------------------------------------------------------------------------

  /** Backticks and asterisks go, underscores become spaces. */
  function Stripped(s: string): string
    decreases |s|
  {
    if s == "" then ""
    else
      (if s[0] == '`' || s[0] == '*' then "" else if s[0] == '_' then " " else [s[0]]) + Stripped(s[1..])
  }

  predicate Spacing(c: char) {
    IsSpace(c) && c != '\r' && c != '\n'
  }

  /** Every run of spacing becomes one space. */
  function Collapsed(s: string): string
    decreases |s|
  {
    if s == "" then ""
    else if !Spacing(s[0]) then [s[0]] + Collapsed(s[1..])
    else if |s| > 1 && Spacing(s[1]) then Collapsed(s[1..])
    else " " + Collapsed(s[1..])
  }

  function Clean(s: string): string {
    Trim(Collapsed(Stripped(s)))
  }

  /** The item text is cut when it is too long. */
  function Truncate(s: string): string {
    if |s| <= TEXT_LIMIT then s else s[..TEXT_LIMIT - 1] + "..."
  }

  // ---------------------------------------------------------------------------
  // Headings and checkboxes
  // ---------------------------------------------------------------------------

  function Hashes(s: string): (n: nat)
    ensures n <= |s| && forall i :: 0 <= i < n ==> s[i] == '#'
    ensures n < |s| ==> s[n] != '#'
    decreases |s|
  {
    if s == "" || s[0] != '#' then 0 else Hashes(s[1..]) + 1
  }

  /**
   * The cleaned text that the extractor's patterns capture after white space and before trailing
   * white space; when there is only white space they capture some of it, which cleans to nothing.
   */
  function CleanRest(s: string): Option<string> {
    if s == "" || !IsSpace(s[0]) then None
    else
      var core := Trim(s);
      if core != "" then (if OneLine(core) then Some(Clean(core)) else None)
      else if exists i :: 1 <= i < |s| && !IsTerminator(s[i]) then Some("") else None
  }

  predicate LedgerTitle(title: string) {
    Lower(title) == LEDGER_TITLE
  }

  /** A heading with its cleaned title, which may be the ledger's. */
  datatype Heading = Heading(level: nat, title: string, ledger: bool)

  function HeadingOf(line: string): Option<Heading> {
    var t := TrimStart(line);
    var n := Hashes(t);
    if |line| - |t| > 3 || n == 0 || n > 6 then None
    else
      var title := CleanRest(t[n..]);
      if title.Some? then Some(Heading(n, title.value, LedgerTitle(title.value))) else None
  }

  predicate LedgerHeading(line: string) {
    HeadingOf(line).Some? && HeadingOf(line).value.ledger
  }

  /** The mark between the brackets of a list item, and what follows the brackets. */
  function BoxParts(line: string): Option<(char, string)> {
    var t := TrimStart(line);
    if t == "" || (t[0] != '-' && t[0] != '*') then None
    else
      var u := t[1..];
      var v := TrimStart(u);
      if u == "" || !IsSpace(u[0]) || |v| < 3 || v[0] != '[' || v[2] != ']' then None else Some((v[1], v[3..]))
  }

  datatype BoxState = Open | Done | Started

  function StateOf(mark: char): Option<BoxState> {
    if mark == ' ' then Some(Open)
    else if mark == 'x' || mark == 'X' then Some(Done)
    else if mark == '-' then Some(Started)
    else None
  }

  datatype Box = Box(state: BoxState, text: string)

  /** A checkbox as the extractor reads it, with its cleaned text, before the text is cut. */
  function BoxOf(line: string): Option<Box> {
    var parts := BoxParts(line);
    if parts.None? || StateOf(parts.value.0).None? then None
    else
      var text := CleanRest(parts.value.1);
      if text.None? then None else Some(Box(StateOf(parts.value.0).value, text.value))
  }

  /** The checkbox with its text cut, as it enters an item. */
  function CutBox(line: string): Option<Box> {
    var box := BoxOf(line);
    if box.Some? then Some(Box(box.value.state, Truncate(box.value.text))) else None
  }

  /** A second-level heading as the parity test knows it: it ends the ledger section. */
  predicate SecondLevel(line: string) {
    |line| >= 3 && line[0] == '#' && line[1] == '#' && IsSpace(line[2])
  }

  predicate ParityTitle(line: string) {
    SecondLevel(line) && Lower(Trim(line[2..])) == LEDGER_TITLE
  }

  /** A checkbox as the parity test reads it: open or done, with its text up to the end of the line. */
  function ParityBox(line: string): Option<string> {
    var parts := BoxParts(line);
    if parts.None? || StateOf(parts.value.0).None? || StateOf(parts.value.0) == Some(Started) then None
    else
      var rest := parts.value.1;
      if rest == "" || !IsSpace(rest[0]) then None
      else
        var text := TrimStart(rest);
        if text != "" then (if OneLine(text) then Some(text) else None)
        else if |rest| >= 2 && !IsTerminator(rest[|rest| - 1]) then Some("") else None
  }

  // ---------------------------------------------------------------------------
  // Markers
  // ---------------------------------------------------------------------------

  predicate Alphanumeric(c: char) {
    'a' <= c <= 'z' || 'A' <= c <= 'Z' || '0' <= c <= '9'
  }

  function IdRun(s: string): (n: nat)
    ensures n <= |s| && forall i :: 0 <= i < n ==> Alphanumeric(s[i]) || s[i] == '-'
    ensures n < |s| ==> !Alphanumeric(s[n]) && s[n] != '-'
    decreases |s|
  {
    if s == "" || !(Alphanumeric(s[0]) || s[0] == '-') then 0 else IdRun(s[1..]) + 1
  }

  function NameRun(s: string): (n: nat)
    ensures n <= |s|
    decreases |s|
  {
    if s == "" || !('a' <= s[0] <= 'z' || 'A' <= s[0] <= 'Z' || s[0] == '_') then 0 else NameRun(s[1..]) + 1
  }

  /** The task id of a contract marker that s starts with. */
  function MarkerAt(s: string): (r: Option<string>)
    ensures r.Some? ==> |s| >= |r.value| + 11
  {
    if |s| < 10 || Lower(s[..10]) != CONTRACT_MARK then None
    else
      var n := IdRun(s[10..]);
      if n == 0 || s[10] == '-' || 10 + n == |s| || s[10 + n] != ']' then None else Some(s[10..10 + n])
  }

  /** The first contract marker anywhere in s. */
  function FirstMarker(s: string): Option<string>
    decreases |s|
  {
    if s == "" then None else if MarkerAt(s).Some? then MarkerAt(s) else FirstMarker(s[1..])
  }

  /** The executor marker that follows a contract marker immediately. */
  function ExecutorAfter(s: string): Option<string> {
    if s == "" || !IsSpace(s[0]) then None
    else
      var u := TrimStart(s);
      if |u| < 10 || Lower(u[..10]) != EXECUTOR_MARK then None
      else
        var n := NameRun(u[10..]);
        if n == 0 || 10 + n == |u| || u[10 + n] != ']' then None else Some(u[10..10 + n])
  }

  datatype Marks = Marks(taskId: Option<string>, executor: Option<string>)

  /** The markers a checkbox text begins with. */
  function MarksOf(text: string): Marks {
    var taskId := MarkerAt(text);
    Marks(taskId, if taskId.Some? then ExecutorAfter(text[|taskId.value| + 11..]) else None)
  }

  /** The markers of a checkbox as the parity test reads them, if the line is one for it. */
  function ParityMarks(line: string): Option<Marks> {
    if ParityBox(line).Some? then Some(MarksOf(ParityBox(line).value)) else None
  }

  /** The task id the extractor's reader finds in a line, if the line is a checkbox at all. */
  function FoundAt(line: string): Option<string> {
    if CutBox(line).Some? then FirstMarker(CutBox(line).value.text) else None
  }

  // ---------------------------------------------------------------------------
  // Where the readers agree
  // ---------------------------------------------------------------------------

  /** No line is a heading and a checkbox. */
  lemma {:induction false} HeadingIsNoBox(line: string)
    requires HeadingOf(line).Some?
    ensures BoxParts(line).None?
  {
  }

  /** Nothing in s is touched by cleaning. */
  ghost predicate Plain(s: string) {
    && Trimmed(s)
    && (forall i :: 0 <= i < |s| ==> s[i] != '`' && s[i] != '*' && s[i] != '_')
    && (forall i :: 0 <= i < |s| && Spacing(s[i]) ==> s[i] == ' ')
    && (forall i :: 0 <= i < |s| - 1 ==> !Spacing(s[i]) || !Spacing(s[i + 1]))
  }

  lemma {:induction false} StrippedPlain(s: string)
    requires forall i :: 0 <= i < |s| ==> s[i] != '`' && s[i] != '*' && s[i] != '_'
    ensures Stripped(s) == s
    decreases |s|
  {
    if s != "" {
      StrippedPlain(s[1..]);
    }
  }

  lemma {:induction false} CollapsedPlain(s: string)
    requires forall i :: 0 <= i < |s| && Spacing(s[i]) ==> s[i] == ' '
    requires forall i :: 0 <= i < |s| - 1 ==> !Spacing(s[i]) || !Spacing(s[i + 1])
    ensures Collapsed(s) == s
    decreases |s|
  {
    if s != "" {
      CollapsedPlain(s[1..]);
    }
  }

  lemma {:induction false} CleanPlain(s: string)
    requires Plain(s)
    ensures Clean(s) == s
  {
    StrippedPlain(s);
    CollapsedPlain(s);
    TrimTrimmed(s);
  }

  /** A character whose lower case is a letter or a space is one itself. */
  lemma {:induction false} TitleCharacter(c: char)
    requires 'a' <= LowerChar(c) <= 'z' || LowerChar(c) == ' '
    ensures c != '`' && c != '*' && c != '_' && !IsTerminator(c)
    ensures Spacing(c) <==> LowerChar(c) == ' '
    ensures IsSpace(c) ==> c == ' '
  {
  }

  lemma {:induction false} TitleLetters(i: nat)
    requires i < |LEDGER_TITLE|
    ensures 'a' <= LEDGER_TITLE[i] <= 'z' || (LEDGER_TITLE[i] == ' ' && 0 < i < |LEDGER_TITLE| - 1
      && LEDGER_TITLE[i + 1] != ' ')
  {
  }

  lemma {:induction false} TitleIsPlain(title: string)
    requires Lower(title) == LEDGER_TITLE
    ensures Plain(title) && OneLine(title) && title != ""
  {
    forall i | 0 <= i < |title|
      ensures title[i] != '`' && title[i] != '*' && title[i] != '_' && !IsTerminator(title[i])
      ensures IsSpace(title[i]) ==> title[i] == ' ' && 0 < i < |title| - 1
      ensures Spacing(title[i]) && i < |title| - 1 ==> !Spacing(title[i + 1])
    {
      assert Lower(title)[i] == LEDGER_TITLE[i] == LowerChar(title[i]);
      TitleLetters(i);
      TitleCharacter(title[i]);
      if i < |title| - 1 {
        assert Lower(title)[i + 1] == LEDGER_TITLE[i + 1] == LowerChar(title[i + 1]);
        TitleLetters(i + 1);
        TitleCharacter(title[i + 1]);
      }
    }
  }

  /** The heading the parity test looks for is a ledger heading for the extractor. */
  lemma {:induction false} ParityTitleIsLedger(line: string)
    requires ParityTitle(line)
    ensures LedgerHeading(line)
  {
    var title := Trim(line[2..]);
    TitleIsPlain(title);
    CleanPlain(title);
    assert TrimStart(line) == line;
    assert Hashes(line[1..][1..]) == 0;
    assert Hashes(line[1..]) == 1;
    assert Hashes(line) == 2;
  }

  // ---------------------------------------------------------------------------
  // A marker at the start of the text is found again, unless the cut reaches it
  // ---------------------------------------------------------------------------

  /** The characters of a marker: cleaning leaves them alone, and only the first one opens a bracket. */
  ghost predicate MarkerChars(m: string) {
    forall i :: 0 <= i < |m| ==>
      !IsSpace(m[i]) && m[i] != '`' && m[i] != '*' && m[i] != '_' && (m[i] == '[' <==> i == 0)
  }

  lemma {:induction false} ContractMarkCharacter(c: char, i: nat)
    requires i < 10 && LowerChar(c) == CONTRACT_MARK[i]
    ensures !IsSpace(c) && c != '`' && c != '*' && c != '_' && (c == '[' <==> i == 0)
  {
  }

  lemma {:induction false} MarkerIsPlain(s: string)
    requires MarkerAt(s).Some?
    ensures MarkerChars(s[..|MarkerAt(s).value| + 11])
  {
    var n := |MarkerAt(s).value|;
    forall i | 0 <= i < n + 11
      ensures !IsSpace(s[i]) && s[i] != '`' && s[i] != '*' && s[i] != '_' && (s[i] == '[' <==> i == 0)
    {
      if i < 10 {
        assert Lower(s[..10])[i] == LowerChar(s[..10][i]);
        ContractMarkCharacter(s[i], i);
      } else if i < 10 + n {
        assert s[10..][i - 10] == s[i];
      }
    }
  }

  lemma {:induction false} StrippedPrefix(m: string, rest: string)
    requires forall i :: 0 <= i < |m| ==> m[i] != '`' && m[i] != '*' && m[i] != '_'
    ensures Stripped(m + rest) == m + Stripped(rest)
    decreases |m|
  {
    if m == "" {
      assert m + rest == rest;
    } else {
      assert (m + rest)[1..] == m[1..] + rest;
      StrippedPrefix(m[1..], rest);
    }
  }

  lemma {:induction false} CollapsedPrefix(m: string, rest: string)
    requires forall i :: 0 <= i < |m| ==> !IsSpace(m[i])
    ensures Collapsed(m + rest) == m + Collapsed(rest)
    decreases |m|
  {
    if m == "" {
      assert m + rest == rest;
    } else {
      assert (m + rest)[1..] == m[1..] + rest;
      CollapsedPrefix(m[1..], rest);
    }
  }

  /** Trimming at the end keeps a prefix that ends in no white space. */
  lemma {:induction false} TrimEndPrefix(m: string, s: string)
    requires m <= s && m != "" && !IsSpace(m[|m| - 1])
    ensures m <= TrimEnd(s)
  {
    TrimEndSpec(s);
  }

  lemma {:induction false} CleanKeepsMarker(m: string, s: string)
    requires m <= s && m != "" && MarkerChars(m)
    ensures m <= Clean(s)
  {
    var rest := s[|m|..];
    assert s == m + rest;
    StrippedPrefix(m, rest);
    CollapsedPrefix(m, Stripped(rest));
    var t := m + Collapsed(Stripped(rest));
    assert !IsSpace(t[0]);
    TrimEndPrefix(m, t);
  }

  lemma {:induction false} IdRunUnique(s: string, n: nat)
    requires n < |s| && !Alphanumeric(s[n]) && s[n] != '-'
    requires forall i :: 0 <= i < n ==> Alphanumeric(s[i]) || s[i] == '-'
    ensures IdRun(s) == n
    decreases n
  {
    if n > 0 {
      IdRunUnique(s[1..], n - 1);
    }
  }

  /** A marker is read from its own characters only. */
  lemma {:induction false} MarkerFromPrefix(s: string, t: string)
    requires MarkerAt(s).Some? && s[..|MarkerAt(s).value| + 11] <= t
    ensures MarkerAt(t) == MarkerAt(s)
  {
    var n := |MarkerAt(s).value|;
    var m := s[..n + 11];
    assert t[..10] == m[..10] == s[..10];
    forall i | 0 <= i <= n ensures t[10..][i] == s[10..][i] {
      assert t[10 + i] == m[10 + i];
    }
    IdRunUnique(t[10..], n);
    assert t[10..10 + n] == s[10..10 + n];
  }

  lemma {:induction false} NoBracketNoMarker(s: string)
    requires '[' !in s
    ensures FirstMarker(s) == None
    decreases |s|
  {
    if s != "" {
      if |s| >= 10 {
        assert Lower(s[..10])[0] == LowerChar(s[0]);
      }
      NoBracketNoMarker(s[1..]);
    }
  }

  /** A marker cut before its closing bracket is no marker, and none follows it. */
  lemma {:induction false} CutMarkerIsLost(s: string, k: nat)
    requires MarkerAt(s).Some? && 11 <= k < |MarkerAt(s).value| + 11
    ensures FirstMarker(s[..k] + "...") == None
  {
    MarkerIsPlain(s);
    var m := s[..|MarkerAt(s).value| + 11];
    var t := s[..k] + "...";
    forall i | 10 <= i < k ensures Alphanumeric(t[i]) || t[i] == '-' {
      assert s[10..][i - 10] == t[i];
    }
    IdRunUnique(t[10..], k - 10);
    assert MarkerAt(t).None?;
    forall i | 0 <= i < |t| - 1 ensures t[1..][i] != '[' {
      if i + 1 < k {
        assert t[i + 1] == m[i + 1];
      }
    }
    NoBracketNoMarker(t[1..]);
  }

  /** The marker of a checkbox stands within what the cut leaves of the text. */
  predicate MarkerFits(line: string, id: string) {
    |id| + 11 < TEXT_LIMIT || (BoxOf(line).Some? && |BoxOf(line).value.text| <= TEXT_LIMIT)
  }

  /** Every checkbox of the parity test is one for the extractor, open or done. */
  lemma {:induction false} ParityBoxIsBox(line: string)
    requires ParityBox(line).Some?
    ensures HeadingOf(line).None?
    ensures BoxOf(line).Some? && BoxOf(line).value.state != Started
    ensures ParityBox(line).value != "" ==> BoxOf(line).value.text == Clean(TrimEnd(ParityBox(line).value))
  {
    var rest := BoxParts(line).value.1;
    var text := TrimStart(rest);
    if HeadingOf(line).Some? {
      HeadingIsNoBox(line);
    }
    if text != "" {
      TrimStartSpec(rest);
      TrimEndSpec(text);
      TrimEndPrefix(text[..1], text);
      assert OneLine(TrimEnd(text));
    } else {
      assert !IsTerminator(rest[|rest| - 1]);
    }
  }

  /** The extractor's reader finds the task id the parity test reads, exactly when the cut spares its marker. */
  lemma {:induction false} MarkerFoundIff(line: string)
    requires ParityMarks(line).Some? && ParityMarks(line).value.taskId.Some?
    ensures FoundAt(line) == ParityMarks(line).value.taskId <==> MarkerFits(line, ParityMarks(line).value.taskId.value)
  {
    var w := ParityBox(line).value;
    var n := |MarkerAt(w).value| + 11;
    ParityBoxIsBox(line);
    MarkerIsPlain(w);
    TrimEndPrefix(w[..n], w);
    CleanKeepsMarker(w[..n], TrimEnd(w));
    var t := BoxOf(line).value.text;
    MarkerFromPrefix(w, t);
    assert t[..n] == w[..n];
    if |t| > TEXT_LIMIT {
      if n < TEXT_LIMIT {
        MarkerFromPrefix(w, Truncate(t));
      } else {
        CutMarkerIsLost(t, TEXT_LIMIT - 1);
      }
    }
  }
}
