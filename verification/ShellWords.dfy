module ShellWords {
  /**
   * The words of a shell segment and the program among them, said of the characters: where a word ends,
   * what an assignment is, which spellings name a program, and which words are looked through.
   */

  import opened ShellScan
  import opened ShellCargo
  import Text

  // ---------------------------------------------------------------------------
  // Where words end
  // ---------------------------------------------------------------------------

  predicate IsQuote(c: char) {
    c == '"' || c == '\''
  }

  /** A word of n characters: a quotation up to its closing quote, or a run up to the next white space. */
  ghost predicate WordOf(s: string, n: nat) {
    && 0 < n <= |s|
    && if IsQuote(s[0]) && exists j :: 0 < j < |s| && s[j] == s[0] then
         n >= 2 && s[n - 1] == s[0] && forall j :: 0 < j < n - 1 ==> s[j] != s[0]
       else
         (forall j :: 0 <= j < n ==> !Text.IsSpace(s[j])) && (n < |s| ==> Text.IsSpace(s[n]))
  }

  /** White space between words is dropped; each word is taken as long as it goes. */
  ghost predicate AreWords(s: string, tokens: seq<string>)
    decreases |s|
  {
    if s == "" then tokens == []
    else if Text.IsSpace(s[0]) then AreWords(s[1..], tokens)
    else tokens != [] && exists n: nat :: WordOf(s, n) && tokens[0] == s[..n] && AreWords(s[n..], tokens[1..])
  }

  lemma {:induction false} WordLengthRuns(s: string)
    requires s != "" && !Text.IsSpace(s[0])
    ensures var n := WordLength(s);
      (forall j :: 0 <= j < n ==> !Text.IsSpace(s[j])) && (n < |s| ==> Text.IsSpace(s[n]))
    decreases |s|
  {
    if |s| > 1 && !Text.IsSpace(s[1]) {
      WordLengthRuns(s[1..]);
    }
  }

  lemma {:induction false} TokenIsWord(s: string)
    requires s != "" && !Text.IsSpace(s[0])
    ensures WordOf(s, TokenLength(s))
  {
    var rest := s[1..];
    var k := Text.Find(rest, s[0]);
    forall j | 0 < j <= k ensures s[j] != s[0] {
      assert s[j] == rest[..k][j - 1];
    }
    if !(IsQuote(s[0]) && k < |rest|) {
      WordLengthRuns(s);
    }
  }

  /** A segment is read as the words it has. */
  lemma {:induction false} TokensAreWords(s: string)
    ensures AreWords(s, Tokenize(s))
    decreases |s|
  {
    if s != "" {
      if Text.IsSpace(s[0]) {
        TokensAreWords(s[1..]);
      } else {
        var n := TokenLength(s);
        TokenIsWord(s);
        TokensAreWords(s[n..]);
        assert Tokenize(s)[0] == s[..n] && Tokenize(s)[1..] == Tokenize(s[n..]);
      }
    }
  }

  // ---------------------------------------------------------------------------
  // Assignments
  // ---------------------------------------------------------------------------

  predicate LetterOrUnderscore(c: char) {
    65 <= c as int <= 90 || 97 <= c as int <= 122 || c as int == 95
  }

  /** A name - a letter or underscore, then letters, underscores and digits - an equals sign, and anything. */
  ghost predicate Assigns(token: string, name: string) {
    && name != "" && name + "=" <= token && LetterOrUnderscore(name[0])
    && forall i :: 0 <= i < |name| ==> LetterOrUnderscore(name[i]) || 48 <= name[i] as int <= 57
  }

  ghost predicate Assignment(token: string) {
    exists name :: Assigns(token, name)
  }

  /** A word is an assignment exactly when a name stands before its first equals sign. */
  lemma {:induction false} AssignmentIff(token: string)
    ensures IsAssignment(token) <==> Assignment(token)
  {
    var n := Text.Find(token, '=');
    if IsAssignment(token) {
      assert token[..n] + "=" == token[..n + 1];
      assert Assigns(token, token[..n]);
    }
    if name :| Assigns(token, name) {
      AssignedName(token, name);
    }
  }

  lemma {:induction false} AssignedName(token: string, name: string)
    requires Assigns(token, name)
    ensures IsAssignment(token)
  {
    assert token[|name|] == (name + "=")[|name|];
    forall i | 0 <= i < |name| ensures token[i] == name[i] && token[i] != '=' {
      assert (name + "=")[i] == name[i];
    }
    Text.FindUnique(token, '=', |name|);
  }

  // ---------------------------------------------------------------------------
  // The name of a program
  // ---------------------------------------------------------------------------

  /** The name with a backslash before every space. */
  function EscapeSpaces(name: string): string
    decreases |name|
  {
    if name == "" then "" else (if name[0] == ' ' then "\\ " else [name[0]]) + EscapeSpaces(name[1..])
  }

  ghost predicate NoSlash(s: string) {
    forall i :: 0 <= i < |s| ==> s[i] != '/' && s[i] != '\\'
  }

  /** Nothing, or a path that ends in a slash of either kind. */
  predicate Directory(dir: string) {
    dir == "" || dir[|dir| - 1] == '/' || dir[|dir| - 1] == '\\'
  }

  lemma {:induction false} UnescapeStep(c: char, s: string)
    requires c != '\\' || s == "" || s[0] != ' '
    ensures UnescapeSpaces([c] + s) == [c] + UnescapeSpaces(s)
  {
    assert ([c] + s)[0] == c && ([c] + s)[1..] == s;
    assert s != "" ==> ([c] + s)[1] == s[0];
  }

  lemma {:induction false} UnescapeSpace(s: string)
    ensures UnescapeSpaces("\\ " + s) == " " + UnescapeSpaces(s)
  {
    assert ("\\ " + s)[2..] == s;
  }

  lemma {:induction false} UnescapeConcat(a: string, b: string)
    requires a == "" || b == "" || a[|a| - 1] != '\\' || b[0] != ' '
    ensures UnescapeSpaces(a + b) == UnescapeSpaces(a) + UnescapeSpaces(b)
    decreases |a|
  {
    if a == "" {
      assert a + b == b;
    } else if |a| > 1 && a[0] == '\\' && a[1] == ' ' {
      var rest := a[2..];
      assert a == "\\ " + rest && a + b == "\\ " + (rest + b);
      UnescapeSpace(rest);
      UnescapeSpace(rest + b);
      UnescapeConcat(rest, b);
    } else {
      var rest := a[1..];
      assert a == [a[0]] + rest && a + b == [a[0]] + (rest + b);
      UnescapeStep(a[0], rest);
      UnescapeStep(a[0], rest + b);
      UnescapeConcat(rest, b);
    }
  }

  lemma {:induction false} UnescapeEscaped(name: string)
    requires NoSlash(name)
    ensures UnescapeSpaces(EscapeSpaces(name)) == name
    decreases |name|
  {
    if name != "" {
      var rest := EscapeSpaces(name[1..]);
      UnescapeEscaped(name[1..]);
      assert name == [name[0]] + name[1..];
      if name[0] == ' ' {
        assert ("\\ " + rest)[..2] == "\\ " && ("\\ " + rest)[2..] == rest;
      } else {
        assert ([name[0]] + rest)[0] != '\\' && ([name[0]] + rest)[1..] == rest;
      }
    }
  }

  lemma {:induction false} UnescapeKeepsEnd(dir: string)
    requires dir != "" && Directory(dir)
    ensures UnescapeSpaces(dir) != "" && Directory(UnescapeSpaces(dir))
    decreases |dir|
  {
    if "\\ " <= dir {
      assert dir[1] == ' ';
      UnescapeKeepsEnd(dir[2..]);
    } else if |dir| > 1 {
      UnescapeKeepsEnd(dir[1..]);
    }
  }

  lemma {:induction false} BaseOf(dir: string, name: string)
    requires Directory(dir) && NoSlash(name)
    ensures BaseName(dir + name) == name
    decreases |name|
  {
    if name == "" {
      assert dir + name == dir;
    } else {
      var n := |name| - 1;
      assert (dir + name)[..|dir + name| - 1] == dir + name[..n];
      BaseOf(dir, name[..n]);
      assert name == name[..n] + [name[n]];
    }
  }

  lemma {:induction false} BaseOfEscaped(dir: string, name: string)
    requires Directory(dir) && NoSlash(name)
    ensures BaseName(UnescapeSpaces(dir + EscapeSpaces(name))) == name
  {
    UnescapeConcat(dir, EscapeSpaces(name));
    UnescapeEscaped(name);
    if dir != "" {
      UnescapeKeepsEnd(dir);
    }
    BaseOf(UnescapeSpaces(dir), name);
  }

  ghost predicate Openers(s: string) {
    forall i :: 0 <= i < |s| ==> s[i] == '(' || s[i] == '{'
  }

  ghost predicate Closers(s: string) {
    forall i :: 0 <= i < |s| ==> s[i] == ')' || s[i] == '}'
  }

  lemma {:induction false} StripOpen(openers: string, s: string)
    requires Openers(openers) && (s == "" || (s[0] != '(' && s[0] != '{'))
    ensures StripOpeners(openers + s) == s
    decreases |openers|
  {
    if openers == "" {
      assert openers + s == s;
    } else {
      assert (openers + s)[1..] == openers[1..] + s;
      StripOpen(openers[1..], s);
    }
  }

  lemma {:induction false} StripClose(s: string, closers: string)
    requires Closers(closers) && (s == "" || (s[|s| - 1] != ')' && s[|s| - 1] != '}'))
    ensures StripClosers(s + closers) == s
    decreases |closers|
  {
    if closers == "" {
      assert s + closers == s;
    } else {
      var n := |closers| - 1;
      assert (s + closers)[..|s + closers| - 1] == s + closers[..n];
      StripClose(s, closers[..n]);
    }
  }

  /** A program as written: its directory and its name, bare or between two quotes of one kind. */
  predicate Written(spelling: string, dir: string, name: string) {
    var path := dir + EscapeSpaces(name);
    || (spelling == path && !(spelling != "" && IsQuote(spelling[0]) && spelling[|spelling| - 1] == spelling[0]))
    || spelling == "\"" + path + "\"" || spelling == "'" + path + "'"
  }

  lemma {:induction false} UnquotedPath(spelling: string, dir: string, name: string)
    requires Written(spelling, dir, name)
    ensures Unquoted(spelling) == dir + EscapeSpaces(name)
  {
    var path := dir + EscapeSpaces(name);
    if spelling == "\"" + path + "\"" || spelling == "'" + path + "'" {
      assert spelling[1..|spelling| - 1] == path;
    }
  }

  /**
   * However a program is written - in a directory, quoted, after opening and before closing brackets,
   * with escaped spaces - its own name is found.
   */
  lemma {:induction false} NameFound(openers: string, spelling: string, closers: string, dir: string, name: string)
    requires Openers(openers) && Closers(closers) && Directory(dir) && NoSlash(name) && Written(spelling, dir, name)
    requires spelling != "" && spelling[0] != '(' && spelling[0] != '{'
    requires spelling[|spelling| - 1] != ')' && spelling[|spelling| - 1] != '}'
    requires Text.Trimmed(openers + spelling + closers)
    ensures NormalizeToken(openers + spelling + closers) == name
  {
    Text.TrimTrimmed(openers + spelling + closers);
    assert openers + spelling + closers == openers + (spelling + closers);
    StripOpen(openers, spelling + closers);
    StripClose(spelling, closers);
    UnquotedPath(spelling, dir, name);
    BaseOfEscaped(dir, name);
  }

  // ---------------------------------------------------------------------------
  // The program among the words
  // ---------------------------------------------------------------------------

  function NameAt(tokens: seq<string>, i: nat): string
    requires i < |tokens|
  {
    Text.Lower(NormalizeToken(tokens[i]))
  }

  ghost predicate AssignmentsIn(tokens: seq<string>, from: nat, to: nat) {
    from <= to <= |tokens| && forall i :: from <= i < to ==> Assignment(tokens[i])
  }

  ghost predicate OptionsIn(tokens: seq<string>, from: nat, to: nat) {
    from <= to <= |tokens| && forall i :: from <= i < to ==> "-" <= tokens[i]
  }

  predicate LooksThrough(name: string) {
    name == "command" || name == "builtin" || name == "time" || name == "env" || name == "timeout"
  }

  /** The options of a wrapper at position a end at position o. */
  ghost predicate OptionsEnd(tokens: seq<string>, a: nat, o: nat) {
    a < |tokens| && OptionsIn(tokens, a + 1, o) && (o < |tokens| ==> !("-" <= tokens[o]))
  }

  /**
   * The program from a position on: after all assignments, either the word that stands there, or, behind
   * a wrapper, its options and the duration of a timeout, the program from there on.
   */
  ghost predicate ProgramFrom(tokens: seq<string>, from: nat, program: string)
    requires from <= |tokens|
    decreases |tokens| - from, 1
  {
    exists a: nat :: AssignmentsEnd(tokens, from, a) && ProgramAt(tokens, a, program)
  }

  ghost predicate AssignmentsEnd(tokens: seq<string>, from: nat, a: nat) {
    AssignmentsIn(tokens, from, a) && (a < |tokens| ==> !Assignment(tokens[a]))
  }

  ghost predicate ProgramAt(tokens: seq<string>, a: nat, program: string)
    requires a <= |tokens|
    decreases |tokens| - a, 0
  {
    if a == |tokens| then program == ""
    else if !LooksThrough(NameAt(tokens, a)) then program == NameAt(tokens, a)
    else
      exists o: nat ::
        && OptionsEnd(tokens, a, o)
        && ProgramFrom(tokens, if NameAt(tokens, a) == "timeout" && o < |tokens| then o + 1 else o, program)
  }

  lemma {:induction false} AssignmentsSkipped(tokens: seq<string>, from: nat) returns (a: nat)
    requires from <= |tokens|
    ensures AssignmentsEnd(tokens, from, a) && SkipAssignments(Words(tokens[from..])) == Words(tokens[a..])
    decreases |tokens| - from
  {
    a := from;
    if from < |tokens| {
      AssignmentIff(tokens[from]);
      assert tokens[from..][1..] == tokens[from + 1..];
      if IsAssignment(tokens[from]) {
        a := AssignmentsSkipped(tokens, from + 1);
      }
    }
  }

  lemma {:induction false} OptionsSkipped(tokens: seq<string>, from: nat) returns (o: nat)
    requires from <= |tokens|
    ensures OptionsIn(tokens, from, o) && (o < |tokens| ==> !("-" <= tokens[o]))
    ensures SkipOptions(Words(tokens[from..])) == Words(tokens[o..])
    decreases |tokens| - from
  {
    o := from;
    if from < |tokens| {
      assert tokens[from..][1..] == tokens[from + 1..];
      assert IsOption(tokens[from]) <==> "-" <= tokens[from];
      if IsOption(tokens[from]) {
        o := OptionsSkipped(tokens, from + 1);
      }
    }
  }

  lemma {:induction false} WrapperSkipped(tokens: seq<string>, a: nat) returns (o: nat)
    requires a < |tokens|
    ensures OptionsEnd(tokens, a, o)
    ensures var role := RoleOf(NameAt(tokens, a)); var next := if role.Timeout? && o < |tokens| then o + 1 else o;
      WrappedBy(role, Words(tokens[a + 1..])) == SkipAssignments(Words(tokens[next..]))
  {
    o := OptionsSkipped(tokens, a + 1);
    if o < |tokens| {
      assert tokens[o..][1..] == tokens[o + 1..];
      assert Words(tokens[o..])[1..] == Words(tokens[o + 1..]);
    }
  }

  /** The program found in a segment is the one its words have. */
  lemma {:induction false} ProgramFound(tokens: seq<string>, from: nat)
    requires from <= |tokens|
    ensures ProgramFrom(tokens, from, ExecutableOf(SkipAssignments(Words(tokens[from..]))))
    decreases |tokens| - from
  {
    var a := AssignmentsSkipped(tokens, from);
    var program := ExecutableOf(Words(tokens[a..]));
    if a < |tokens| {
      assert tokens[a..][0] == tokens[a] && tokens[a..][1..] == tokens[a + 1..];
      if LooksThrough(NameAt(tokens, a)) {
        var o := WrapperSkipped(tokens, a);
        var next := if NameAt(tokens, a) == "timeout" && o < |tokens| then o + 1 else o;
        ProgramFound(tokens, next);
      }
    }
    assert ProgramAt(tokens, a, program);
  }

  /** The program a segment runs. */
  ghost predicate Runs(segment: string, program: string) {
    exists tokens :: AreWords(segment, tokens) && ProgramFrom(tokens, 0, program)
  }

  /** The executable of a segment is the program among its words, and the segment counts when that is cargo or cargo.exe. */
  lemma {:induction false} ExecutableIsProgram(segment: string)
    ensures Runs(segment, Executable(segment))
    ensures IsCargo(segment) <==> Executable(segment) == "cargo" || Executable(segment) == "cargo.exe"
  {
    TokensAreWords(segment);
    var tokens := Tokenize(segment);
    ProgramFound(tokens, 0);
    assert tokens[0..] == tokens;
  }

  /** The positions, rising from a first one on, of the segments that run Cargo. */
  ghost predicate CargoAt(segments: seq<string>, from: nat, at: seq<nat>) {
    && (forall i :: 0 <= i < |at| ==> from <= at[i] < |segments|)
    && (forall i, j :: 0 <= i < j < |at| ==> at[i] < at[j])
    && forall k: nat :: from <= k < |segments| ==> (IsCargo(segments[k]) <==> k in at)
  }

  lemma {:induction false} CargoAtPrepend(segments: seq<string>, from: nat, at: seq<nat>)
    requires from < |segments| && CargoAt(segments, from + 1, at)
    ensures CargoAt(segments, from, if IsCargo(segments[from]) then [from] + at else at)
  {
    assert forall k :: from < k ==> (k in [from] + at <==> k in at);
  }

  lemma {:induction false} CargoPositions(segments: seq<string>, from: nat) returns (at: seq<nat>)
    requires from <= |segments|
    ensures |at| == CountCargo(segments[from..]) && CargoAt(segments, from, at)
    decreases |segments| - from
  {
    at := [];
    if from < |segments| {
      assert segments[from..][0] == segments[from] && segments[from..][1..] == segments[from + 1..];
      at := CargoPositions(segments, from + 1);
      CargoAtPrepend(segments, from, at);
      at := if IsCargo(segments[from]) then [from] + at else at;
    }
  }

  /** The count is the number of segments that run Cargo. */
  lemma {:induction false} CountIsPositions(command: string) returns (at: seq<nat>)
    ensures |at| == CargoInvocations(command)
    ensures forall i, j :: 0 <= i < j < |at| ==> at[i] < at[j]
    ensures var segments := Segments(command, NEUTRAL);
      forall k: nat :: k in at <==> k < |segments| && (Executable(segments[k]) == "cargo" || Executable(segments[k]) == "cargo.exe")
  {
    var segments := Segments(command, NEUTRAL);
    at := CargoPositions(segments, 0);
    assert segments[0..] == segments;
    forall k | k in at ensures k < |segments| {
      var i :| 0 <= i < |at| && at[i] == k;
    }
  }
}
