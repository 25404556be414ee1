/** The lines of a phase ledger, character by character: headings, checkboxes, markers and shown text. */
module LedgerGrammar {
  import opened Wrappers
  import opened Text
  import opened Spelling
  import opened LedgerLines

  /** From i on there is white space, up to j and no further. */
  ghost predicate Skips(s: string, i: nat, j: nat) {
    i <= j <= |s| && (forall k :: i <= k < j ==> IsSpace(s[k])) && (j < |s| ==> !IsSpace(s[j]))
  }

  lemma {:induction false} SkipsTrim(s: string, i: nat, j: nat)
    requires Skips(s, i, j)
    ensures TrimStart(s[i..]) == s[j..]
  {
    assert s[i..] == s[i..j] + s[j..];
    TrimStartSkips(s[i..j], s[j..]);
  }

  lemma {:induction false} SkipFrom(s: string, i: nat) returns (j: nat)
    requires i <= |s|
    ensures Skips(s, i, j) && TrimStart(s[i..]) == s[j..]
  {
    j := i;
    while j < |s| && IsSpace(s[j])
      invariant i <= j <= |s| && forall k :: i <= k < j ==> IsSpace(s[k])
    {
      j := j + 1;
    }
    SkipsTrim(s, i, j);
  }

  /** The characters that end a line. */
  predicate EndsLine(c: char) {
    c as int in {10, 13, 0x2028, 0x2029}
  }

  // ---------------------------------------------------------------------------
  // What cleaning shows of a text
  // ---------------------------------------------------------------------------

  predicate Markup(c: char) {
    c as int == 96 || c as int == 42
  }

  predicate Blank(c: char) {
    c as int == 95 || (IsSpace(c) && c as int != 10 && c as int != 13)
  }

  /** The next character that is no markup is no blank either. */
  predicate WordNext(s: string)
    decreases |s|
  {
    s != "" && if Markup(s[0]) then WordNext(s[1..]) else !Blank(s[0])
  }

  /** Backticks and asterisks are not shown, and of blanks and underscores one space between two words. */
  function Shown(s: string, started: bool): string
    decreases |s|
  {
    if s == "" then ""
    else if Markup(s[0]) then Shown(s[1..], started)
    else if !Blank(s[0]) then [s[0]] + Shown(s[1..], true)
    else if started && WordNext(s[1..]) then " " + Shown(s[1..], true)
    else Shown(s[1..], started)
  }

  predicate NoBreaks(s: string) {
    forall i :: 0 <= i < |s| ==> !EndsLine(s[i])
  }

  function Bared(s: string): string {
    Collapsed(Stripped(s))
  }

  lemma {:induction false} StrippedStep(s: string)
    requires s != ""
    ensures Stripped(s) == (if Markup(s[0]) then "" else if s[0] == '_' then " " else [s[0]]) + Stripped(s[1..])
  {
  }

  lemma {:induction false} WordNextIff(s: string)
    requires NoBreaks(s)
    ensures WordNext(s) <==> Stripped(s) != "" && !IsSpace(Stripped(s)[0])
    ensures Stripped(s) != "" && IsSpace(Stripped(s)[0]) ==> Spacing(Stripped(s)[0])
    decreases |s|
  {
    if s != "" {
      WordNextIff(s[1..]);
      StrippedStep(s);
    }
  }

  lemma {:induction false} UnmarkedStep(s: string)
    requires s != "" && NoBreaks(s)
    ensures Markup(s[0]) ==> Bared(s) == Bared(s[1..])
    ensures !Markup(s[0]) && !Blank(s[0]) ==> Bared(s) == [s[0]] + Bared(s[1..])
    ensures Blank(s[0]) ==> Bared(s) == (if Stripped(s[1..]) != "" && !WordNext(s[1..]) then "" else " ") + Bared(s[1..])
  {
    WordNextIff(s[1..]);
    StrippedStep(s);
    var rest := Stripped(s[1..]);
    if Markup(s[0]) {
      assert Stripped(s) == rest;
    } else {
      var c := if s[0] == '_' then ' ' else s[0];
      assert Stripped(s) == [c] + rest;
      assert Stripped(s)[1..] == rest;
    }
  }

  lemma {:induction false} TrimEndStep(c: char, s: string)
    ensures TrimEnd([c] + s) == if TrimEnd(s) != "" then [c] + TrimEnd(s) else if IsSpace(c) then "" else [c]
    decreases |s|
  {
    if s != "" {
      assert ([c] + s)[|s|] == s[|s| - 1];
      assert ([c] + s)[..|s|] == [c] + s[..|s| - 1];
      if IsSpace(s[|s| - 1]) {
        TrimEndStep(c, s[..|s| - 1]);
      }
    } else {
      assert [c] + s == [c];
      assert [c][..0] == "";
    }
  }

  lemma {:induction false} WordEndsUntrimmed(s: string)
    requires NoBreaks(s) && WordNext(s)
    ensures TrimEnd(Bared(s)) != ""
    decreases |s|
  {
    UnmarkedStep(s);
    if Markup(s[0]) {
      WordEndsUntrimmed(s[1..]);
    } else {
      TrimEndStep(s[0], Bared(s[1..]));
    }
  }

  lemma {:induction false} BlanksTrimAway(s: string)
    requires NoBreaks(s) && Stripped(s) == ""
    ensures Bared(s) == ""
  {
  }

  lemma {:induction false} ShownAfterWord(s: string)
    requires NoBreaks(s)
    ensures TrimEnd(Bared(s)) == Shown(s, true)
    decreases |s|
  {
    if s != "" {
      UnmarkedStep(s);
      ShownAfterWord(s[1..]);
      if !Markup(s[0]) && !Blank(s[0]) {
        TrimEndStep(s[0], Bared(s[1..]));
      } else if Blank(s[0]) && WordNext(s[1..]) {
        TrimEndStep(' ', Bared(s[1..]));
        WordEndsUntrimmed(s[1..]);
      } else if Blank(s[0]) && Stripped(s[1..]) == "" {
        BlanksTrimAway(s[1..]);
        TrimEndStep(' ', Bared(s[1..]));
      }
    }
  }

  /** Cleaning a line of text shows its words. */
  lemma {:induction false} CleanShows(s: string)
    requires NoBreaks(s)
    ensures Clean(s) == Shown(s, false)
    decreases |s|
  {
    if s != "" {
      UnmarkedStep(s);
      if !Markup(s[0]) && !Blank(s[0]) {
        ShownAfterWord(s);
        assert !IsSpace(s[0]);
      } else {
        CleanShows(s[1..]);
        if Blank(s[0]) {
          assert TrimStart(" " + Bared(s[1..])) == TrimStart(Bared(s[1..])) by {
            assert (" " + Bared(s[1..]))[1..] == Bared(s[1..]);
          }
        }
      }
    }
  }

  // ---------------------------------------------------------------------------
  // Headings and checkboxes
  // ---------------------------------------------------------------------------

  /** What stands after white space, trimmed and shown; of white space alone nothing is shown. */
  ghost predicate Shows(rest: string, text: string) {
    && rest != "" && IsSpace(rest[0])
    && if NotBlank(rest)
       then exists core: string :: IsTrimmed(rest, core) && NoBreaks(core) && text == Shown(core, false)
       else text == "" && exists i :: 1 <= i < |rest| && !EndsLine(rest[i])
  }

  lemma {:induction false} ShowsIff(rest: string, text: string)
    ensures CleanRest(rest) == Some(text) <==> Shows(rest, text)
  {
    var core := Trim(rest);
    NotBlankIff(rest);
    TrimIff(rest, core);
    forall other: string | IsTrimmed(rest, other) ensures other == core {
      TrimIff(rest, other);
    }
    if NoBreaks(core) {
      CleanShows(core);
    }
    assert OneLine(core) <==> NoBreaks(core);
    assert (exists i :: 1 <= i < |rest| && !IsTerminator(rest[i])) <==> (exists i :: 1 <= i < |rest| && !EndsLine(rest[i])) by {
      if i :| 1 <= i < |rest| && !EndsLine(rest[i]) {
        assert !IsTerminator(rest[i]);
      }
      if i :| 1 <= i < |rest| && !IsTerminator(rest[i]) {
        assert !EndsLine(rest[i]);
      }
    }
  }

  predicate HashesAt(line: string, i: nat, level: nat) {
    i + level <= |line| && forall k :: i <= k < i + level ==> line[k] == '#'
  }

  /** One to six hashes at i, after at most three characters of white space, and then a title. */
  ghost predicate HeadingAt(line: string, i: nat, level: nat, title: string) {
    i <= 3 && Skips(line, 0, i) && 1 <= level <= 6 && HashesAt(line, i, level) && Shows(line[i + level..], title)
  }

  ghost predicate IsHeading(line: string, level: nat, title: string) {
    exists i: nat :: HeadingAt(line, i, level, title)
  }

  lemma {:induction false} HashesIff(line: string, i: nat, n: nat)
    requires HashesAt(line, i, n) && (i + n < |line| ==> line[i + n] != '#')
    ensures Hashes(line[i..]) == n
  {
    var t := line[i..];
    forall k | 0 <= k < n ensures t[k] == '#' {
      assert t[k] == line[i + k];
    }
  }

  ghost function HeadingFrom(i: nat, n: nat, title: Option<string>): Option<Heading> {
    if i > 3 || n == 0 || n > 6 || title.None? then None else Some(Heading(n, title.value, LedgerTitle(title.value)))
  }

  /** The hashes the extractor counts, and what it reads after them. */
  lemma {:induction false} HeadingHere(line: string, i: nat, n: nat)
    requires Skips(line, 0, i) && HashesAt(line, i, n) && (i + n < |line| ==> line[i + n] != '#')
    ensures HeadingOf(line) == HeadingFrom(i, n, CleanRest(line[i + n..]))
  {
    SkipsTrim(line, 0, i);
    assert line[0..] == line;
    HashesIff(line, i, n);
    assert line[i..][n..] == line[i + n..];
  }

  lemma {:induction false} HeadingParts(line: string) returns (i: nat, n: nat)
    ensures i + n <= |line| && Skips(line, 0, i) && HashesAt(line, i, n) && HeadingOf(line) == HeadingFrom(i, n, CleanRest(line[i + n..]))
  {
    i := SkipFrom(line, 0);
    n := Hashes(line[i..]);
    forall k | i <= k < i + n ensures line[k] == '#' {
      assert line[i..][k - i] == '#';
    }
    HeadingHere(line, i, n);
  }

  lemma {:induction false} ShowsBegins(line: string, k: nat, title: string)
    requires k <= |line| && Shows(line[k..], title)
    ensures k < |line| && line[k] != '#' && CleanRest(line[k..]) == Some(title)
  {
    ShowsIff(line[k..], title);
    assert line[k..][0] == line[k];
    assert !IsSpace('#');
  }

  lemma {:induction false} HeadingBounds(line: string, i: nat, level: nat, title: string)
    requires HeadingAt(line, i, level, title)
    ensures Skips(line, 0, i) && HashesAt(line, i, level) && (i + level < |line| ==> line[i + level] != '#')
    ensures i <= 3 && 1 <= level <= 6 && CleanRest(line[i + level..]) == Some(title)
  {
    ShowsBegins(line, i + level, title);
  }

  lemma {:induction false} HeadingPlace(line: string, i: nat, level: nat, title: string)
    requires HeadingAt(line, i, level, title)
    ensures HeadingOf(line) == Some(Heading(level, title, LedgerTitle(title)))
  {
    HeadingBounds(line, i, level, title);
    HeadingHere(line, i, level);
  }

  lemma {:induction false} HeadingStands(line: string)
    requires HeadingOf(line).Some?
    ensures IsHeading(line, HeadingOf(line).value.level, HeadingOf(line).value.title)
    ensures HeadingOf(line).value.ledger == LedgerTitle(HeadingOf(line).value.title)
  {
    var i, n := HeadingParts(line);
    ShowsIff(line[i + n..], HeadingOf(line).value.title);
    assert HeadingAt(line, i, n, HeadingOf(line).value.title);
  }

  lemma {:induction false} LedgerTitleIff(title: string)
    ensures LedgerTitle(title) <==> Spells(title, "phase task ledger")
  {
    SpellsIff(title, "phase task ledger");
  }

  /** What the extractor takes for a heading. */
  lemma {:induction false} HeadingIff(line: string, level: nat, title: string)
    ensures HeadingOf(line) == Some(Heading(level, title, Spells(title, "phase task ledger"))) <==> IsHeading(line, level, title)
    ensures HeadingOf(line).Some? ==> IsHeading(line, HeadingOf(line).value.level, HeadingOf(line).value.title)
  {
    if HeadingOf(line).Some? {
      HeadingStands(line);
    }
    if IsHeading(line, level, title) {
      var j: nat :| HeadingAt(line, j, level, title);
      HeadingPlace(line, j, level, title);
      LedgerTitleIff(title);
    }
  }

  /** A list item with a box at b that holds the mark. */
  ghost predicate BoxAt(line: string, b: nat, mark: char) {
    && b + 3 <= |line| && line[b] == '[' && line[b + 1] == mark && line[b + 2] == ']'
    && exists i: nat :: i + 1 < b && Skips(line, 0, i) && (line[i] == '-' || line[i] == '*') && Skips(line, i + 1, b)
  }

  lemma {:induction false} BoxPartsIff(line: string, b: nat, mark: char)
    requires b + 3 <= |line|
    ensures BoxAt(line, b, mark) ==> BoxParts(line) == Some((mark, line[b + 3..]))
  {
    if BoxAt(line, b, mark) {
      var i: nat :| i + 1 < b && Skips(line, 0, i) && (line[i] == '-' || line[i] == '*') && Skips(line, i + 1, b);
      SkipsTrim(line, 0, i);
      assert line[0..] == line;
      SkipsTrim(line, i + 1, b);
      assert line[i..][1..] == line[i + 1..];
      assert line[b..][3..] == line[b + 3..];
    }
  }

  lemma {:induction false} BoxPlace(line: string) returns (b: nat)
    requires BoxParts(line).Some?
    ensures b + 3 <= |line| && BoxAt(line, b, BoxParts(line).value.0) && BoxParts(line).value.1 == line[b + 3..]
  {
    var i := SkipFrom(line, 0);
    assert line[0..] == line;
    assert line[i..][1..] == line[i + 1..];
    b := SkipFrom(line, i + 1);
    assert line[b..][3..] == line[b + 3..];
  }

  /** The states a mark stands for. */
  predicate MarkSays(mark: char, state: BoxState) {
    || (mark as int == 32 && state == Open)
    || ((mark == 'x' || mark == 'X') && state == Done)
    || (mark == '-' && state == Started)
  }

  lemma {:induction false} StateIff(mark: char, state: BoxState)
    ensures StateOf(mark) == Some(state) <==> MarkSays(mark, state)
  {
  }

  /** A checkbox whose shown text is text. */
  ghost predicate IsCheckbox(line: string, state: BoxState, text: string) {
    exists b: nat, mark: char :: BoxAt(line, b, mark) && MarkSays(mark, state) && Shows(line[b + 3..], text)
  }

  lemma {:induction false} CheckboxIff(line: string, state: BoxState, text: string)
    ensures BoxOf(line) == Some(Box(state, text)) <==> IsCheckbox(line, state, text)
  {
    if BoxOf(line) == Some(Box(state, text)) {
      var b := BoxPlace(line);
      StateIff(line[b + 1], state);
      ShowsIff(line[b + 3..], text);
      assert BoxAt(line, b, line[b + 1]);
    }
    if IsCheckbox(line, state, text) {
      var b: nat, mark: char :| BoxAt(line, b, mark) && MarkSays(mark, state) && Shows(line[b + 3..], text);
      BoxPartsIff(line, b, mark);
      StateIff(mark, state);
      ShowsIff(line[b + 3..], text);
    }
  }

  /** A box that is open or done, and text from p on, after white space. */
  ghost predicate TickAt(line: string, b: nat, mark: char, p: nat, text: string) {
    && BoxAt(line, b, mark) && (mark as int == 32 || mark == 'x' || mark == 'X')
    && b + 3 < p && Skips(line, b + 3, p) && text == line[p..]
    && if text == "" then b + 4 < p && !EndsLine(line[p - 1]) else NoBreaks(text)
  }

  /** A checkbox that is open or done, with the text after it as it stands. */
  ghost predicate IsTick(line: string, text: string) {
    exists b: nat, mark: char, p: nat :: TickAt(line, b, mark, p, text)
  }

  lemma {:induction false} TickHere(line: string, b: nat, mark: char, p: nat, text: string)
    requires BoxAt(line, b, mark) && BoxParts(line) == Some((mark, line[b + 3..])) && Skips(line, b + 3, p)
    ensures ParityBox(line) == Some(text) <==> TickAt(line, b, mark, p, text)
  {
    SkipsTrim(line, b + 3, p);
    var rest := line[b + 3..];
    assert rest != "" ==> rest[0] == line[b + 3] && rest[|rest| - 1] == line[|line| - 1];
    assert OneLine(line[p..]) <==> NoBreaks(line[p..]);
  }

  lemma {:induction false} TickIff(line: string, text: string)
    ensures ParityBox(line) == Some(text) <==> IsTick(line, text)
  {
    if ParityBox(line) == Some(text) {
      var b := BoxPlace(line);
      var p := SkipFrom(line, b + 3);
      TickHere(line, b, line[b + 1], p, text);
    }
    if IsTick(line, text) {
      var b: nat, mark: char, p: nat :| TickAt(line, b, mark, p, text);
      BoxPartsIff(line, b, mark);
      TickHere(line, b, mark, p, text);
    }
  }

  /** Two hashes and white space. */
  predicate IsSecondLevel(line: string) {
    |line| >= 3 && line[0] == '#' && line[1] == '#' && IsSpace(line[2])
  }

  ghost predicate IsTitle(line: string) {
    IsSecondLevel(line) && SpellsTrimmed(line[2..], "phase task ledger")
  }

  lemma {:induction false} TitleIff(line: string)
    ensures SecondLevel(line) <==> IsSecondLevel(line)
    ensures ParityTitle(line) <==> IsTitle(line)
  {
    if IsSecondLevel(line) {
      SpellsTrimmedIff(line[2..], "phase task ledger");
    }
  }

  // ---------------------------------------------------------------------------
  // Markers
  // ---------------------------------------------------------------------------

  predicate IdCharacter(c: char) {
    48 <= c as int <= 57 || 65 <= c as int <= 90 || 97 <= c as int <= 122 || c == '-'
  }

  /** The text begins with [contract:id], the mark in any case. */
  predicate MarksTask(text: string, id: string) {
    && |id| + 11 <= |text| && Spells(text[..10], "[contract:") && text[10..10 + |id|] == id && text[10 + |id|] == ']'
    && id != "" && id[0] != '-' && forall k :: 0 <= k < |id| ==> IdCharacter(id[k])
  }

  lemma {:induction false} MarksTaskIff(text: string, id: string)
    ensures MarkerAt(text) == Some(id) <==> MarksTask(text, id)
  {
    if |text| >= 10 {
      SpellsIff(text[..10], "[contract:");
    }
    if MarksTask(text, id) {
      forall k | 0 <= k < |id| ensures Alphanumeric(text[10..][k]) || text[10..][k] == '-' {
        assert IdCharacter(id[k]) && text[10..10 + |id|][k] == text[10..][k];
      }
      IdRunUnique(text[10..], |id|);
    }
    if MarkerAt(text) == Some(id) {
      forall k | 0 <= k < |id| ensures IdCharacter(id[k]) {
        assert id[k] == text[10..][k];
      }
      assert id[0] == text[10];
    }
  }

  predicate NameCharacter(c: char) {
    65 <= c as int <= 90 || 97 <= c as int <= 122 || c as int == 95
  }

  /** The text at j begins with [executor:name], the mark in any case. */
  predicate ExecutorAt(text: string, j: nat, name: string) {
    && j + 11 + |name| <= |text| && Spells(text[j..j + 10], "[executor:")
    && text[j + 10..j + 10 + |name|] == name && text[j + 10 + |name|] == ']'
    && name != "" && forall k :: 0 <= k < |name| ==> NameCharacter(name[k])
  }

  /** After white space from i on there is such an executor marker. */
  ghost predicate NamesExecutor(text: string, i: nat, name: string) {
    exists j: nat :: i < j && Skips(text, i, j) && ExecutorAt(text, j, name)
  }

  lemma {:induction false} NameRunIs(s: string, n: nat)
    requires n <= |s| && (forall k :: 0 <= k < n ==> NameCharacter(s[k])) && (n < |s| ==> !NameCharacter(s[n]))
    ensures NameRun(s) == n
    decreases n
  {
    if n > 0 {
      NameRunIs(s[1..], n - 1);
    }
  }

  lemma {:induction false} NameRunSpec(s: string)
    ensures forall k :: 0 <= k < NameRun(s) ==> NameCharacter(s[k])
    decreases |s|
  {
    if NameRun(s) > 0 {
      NameRunSpec(s[1..]);
      assert forall k :: 0 < k < |s| ==> s[k] == s[1..][k - 1];
    }
  }

  lemma {:induction false} ExecutorHere(text: string, i: nat, j: nat, name: string)
    requires i < j && Skips(text, i, j)
    ensures ExecutorAfter(text[i..]) == Some(name) <==> ExecutorAt(text, j, name)
  {
    var u := text[j..];
    SkipsTrim(text, i, j);
    assert text[i..][0] == text[i];
    if |u| >= 10 {
      assert u[..10] == text[j..j + 10];
      assert u[10..] == text[j + 10..];
      SpellsIff(u[..10], "[executor:");
      NameRunSpec(u[10..]);
    }
    if ExecutorAt(text, j, name) {
      forall k | 0 <= k < |name| ensures NameCharacter(u[10..][k]) {
        assert u[10..][k] == text[j + 10..j + 10 + |name|][k];
      }
      NameRunIs(u[10..], |name|);
      assert u[10..10 + |name|] == text[j + 10..j + 10 + |name|];
    }
    if ExecutorAfter(text[i..]) == Some(name) {
      assert |u| >= 10 && name == u[10..10 + |name|] && u[10 + |name|] == ']';
      assert name == text[j + 10..j + 10 + |name|];
      forall k | 0 <= k < |name| ensures NameCharacter(name[k]) {
        assert name[k] == u[10..][k];
      }
    }
  }

  lemma {:induction false} NamesExecutorIff(text: string, i: nat, name: string)
    requires i <= |text|
    ensures ExecutorAfter(text[i..]) == Some(name) <==> NamesExecutor(text, i, name)
  {
    var j := SkipFrom(text, i);
    assert i < |text| ==> text[i..][0] == text[i];
    if i < j {
      ExecutorHere(text, i, j, name);
    }
    if NamesExecutor(text, i, name) {
      var j0: nat :| i < j0 && Skips(text, i, j0) && ExecutorAt(text, j0, name);
      ExecutorHere(text, i, j0, name);
    }
  }

  /** The first contract marker of the text is id's. */
  ghost predicate FirstMarks(text: string, id: string) {
    exists p: nat :: p <= |text| && MarksTask(text[p..], id) && forall q: nat, other: string :: q < p ==> !MarksTask(text[q..], other)
  }

  lemma {:induction false} MarkerPlace(text: string) returns (p: nat)
    ensures p <= |text| && forall q: nat :: q < p ==> MarkerAt(text[q..]).None?
    ensures FirstMarker(text) == if p < |text| then MarkerAt(text[p..]) else None
    ensures p < |text| ==> MarkerAt(text[p..]).Some?
    decreases |text|
  {
    if text == "" {
      p := 0;
    } else if MarkerAt(text).Some? {
      p := 0;
      assert text[0..] == text;
    } else {
      var rest := MarkerPlace(text[1..]);
      p := rest + 1;
      assert text[0..] == text;
      assert forall q: nat :: 0 < q <= |text| ==> text[q..] == text[1..][q - 1..];
    }
  }

  lemma {:induction false} FirstMarksIff(text: string, id: string)
    ensures FirstMarker(text) == Some(id) <==> FirstMarks(text, id)
  {
    var p := MarkerPlace(text);
    forall q: nat, other: string | q < p ensures !MarksTask(text[q..], other) {
      MarksTaskIff(text[q..], other);
    }
    if FirstMarker(text) == Some(id) {
      MarksTaskIff(text[p..], id);
    }
    if FirstMarks(text, id) {
      var r: nat :| r <= |text| && MarksTask(text[r..], id) && forall q: nat, other: string :: q < r ==> !MarksTask(text[q..], other);
      MarksTaskIff(text[r..], id);
      assert r < |text|;
      if p < r {
        MarksTaskIff(text[p..], MarkerAt(text[p..]).value);
      }
      assert r == p;
    }
  }

  /** A text of more than 240 characters keeps 239 and three dots. */
  predicate CutTo(text: string, cut: string) {
    if |text| <= 240 then cut == text else |cut| == 242 && cut[..239] == text[..239] && cut[239..] == "..."
  }

  lemma {:induction false} CutIff(text: string, cut: string)
    ensures Truncate(text) == cut <==> CutTo(text, cut)
  {
    if |text| > 240 {
      assert text[..239] + "..." == cut <==> |cut| == 242 && cut[..239] == text[..239] && cut[239..] == "..." by {
        if |cut| == 242 && cut[..239] == text[..239] && cut[239..] == "..." {
          assert cut == cut[..239] + cut[239..];
        }
      }
    }
  }
}
