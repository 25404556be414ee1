module ShellCargo {
  /** Which executable a shell segment runs, and how many Cargo invocations a command holds. */

  import opened ShellScan
  import Text

  // ---------------------------------------------------------------------------
  // When a;b splits like a and b
  // ---------------------------------------------------------------------------

  lemma {:induction false} KeptSemicolon(a: string, b: string, mode: Mode)
    requires b != "" && b[0] == ';' && NextSeparator(a, mode) == |a| && EndMode(a, mode) != NEUTRAL
    ensures NextSeparator(a + b, mode) > |a|
    decreases |a|
  {
    if a == "" {
      assert a + b == b;
    } else {
      SeparatorLengthStable(a, b);
      assert (a + b)[1..] == a[1..] + b;
      KeptSemicolon(a[1..], b, After(mode, a[0]));
    }
  }

  lemma {:induction false} UncutDiffers(a: string, t: string, other: seq<string>, mode: Mode)
    requires t != "" && t[0] == ';' && NextSeparator(a, mode) == |a| && EndMode(a, mode) != NEUTRAL
    ensures Segments(a + t, mode) != [a] + other
  {
    KeptSemicolon(a, t, mode);
    assert |Segments(a + t, mode)[0]| > |a|;
  }

  lemma {:induction false} QuotedSemicolonDiffers(a: string, b: string, mode: Mode)
    requires EndMode(a, mode) != NEUTRAL
    ensures Segments(a + (";" + b), mode) != Segments(a, mode) + Segments(b, NEUTRAL)
    decreases |a|
  {
    var t := ";" + b;
    if NextSeparator(a, mode) == |a| {
      UncutDiffers(a, t, Segments(b, NEUTRAL), mode);
    } else {
      var n, m := NextSeparator(a, mode), Resumption(a, mode);
      EndModeFromSeparator(a, mode);
      QuotedSemicolonDiffers(a[m..], b, NEUTRAL);
      AppendKeepsCut(a, t, mode);
      FirstCut(a + t, mode);
      FirstCut(a, mode);
      SeqAssociates([a[..n]], Segments(a[m..], NEUTRAL), Segments(b, NEUTRAL));
      ConsDiffers(a[..n], Segments(a[m..] + t, NEUTRAL), Segments(a[m..], NEUTRAL) + Segments(b, NEUTRAL));
    }
  }

  lemma {:induction false} ConsDiffers(x: string, y: seq<string>, z: seq<string>)
    requires y != z
    ensures [x] + y != [x] + z
  {
    assert ([x] + y)[1..] == y && ([x] + z)[1..] == z;
  }

  /** A semicolon joins two commands segment by segment exactly when the first ends outside quotes and escapes. */
  lemma {:induction false} SplitIsCompositionalIff(a: string, b: string)
    ensures Segments(a + (";" + b), NEUTRAL) == Segments(a, NEUTRAL) + Segments(b, NEUTRAL)
      <==> EndMode(a, NEUTRAL) == NEUTRAL
  {
    if EndMode(a, NEUTRAL) == NEUTRAL {
      SplitIsCompositional(a, b, NEUTRAL);
    } else {
      QuotedSemicolonDiffers(a, b, NEUTRAL);
    }
  }

  // ---------------------------------------------------------------------------
  // Words and executables
  // ---------------------------------------------------------------------------

  function WordLength(s: string): (n: nat)
    ensures n <= |s|
    ensures s != "" && !Text.IsSpace(s[0]) ==> n > 0
    decreases |s|
  {
    if s == "" || Text.IsSpace(s[0]) then 0 else 1 + WordLength(s[1..])
  }

  /** The word that starts s: a closed quotation, or a run without white space. */
  function TokenLength(s: string): (n: nat)
    requires s != "" && !Text.IsSpace(s[0])
    ensures 0 < n <= |s|
  {
    if (s[0] == '"' || s[0] == '\'') && Text.Find(s[1..], s[0]) < |s| - 1
    then Text.Find(s[1..], s[0]) + 2
    else WordLength(s)
  }

  function Tokenize(s: string): seq<string>
    decreases |s|
  {
    if s == "" then []
    else if Text.IsSpace(s[0]) then Tokenize(s[1..])
    else [s[..TokenLength(s)]] + Tokenize(s[TokenLength(s)..])
  }

  function StripOpeners(s: string): (r: string)
    ensures |r| <= |s|
    decreases |s|
  {
    if s != "" && (s[0] == '(' || s[0] == '{') then StripOpeners(s[1..]) else s
  }

  function StripClosers(s: string): (r: string)
    ensures |r| <= |s|
    decreases |s|
  {
    if s != "" && (s[|s| - 1] == ')' || s[|s| - 1] == '}') then StripClosers(s[..|s| - 1]) else s
  }

  function Unquoted(s: string): string {
    if s != "" && s[0] == s[|s| - 1] && (s[0] == '"' || s[0] == '\'')
    then (if |s| == 1 then "" else s[1..|s| - 1])
    else s
  }

  function UnescapeSpaces(s: string): string
    decreases |s|
  {
    if s == "" then ""
    else if "\\ " <= s then " " + UnescapeSpaces(s[2..])
    else [s[0]] + UnescapeSpaces(s[1..])
  }

  /** The part after the last slash or backslash. */
  function BaseName(s: string): string
    decreases |s|
  {
    if s == "" then ""
    else if s[|s| - 1] == '/' || s[|s| - 1] == '\\' then ""
    else BaseName(s[..|s| - 1]) + [s[|s| - 1]]
  }

  function NormalizeToken(token: string): string {
    BaseName(UnescapeSpaces(Unquoted(StripClosers(StripOpeners(Text.Trim(token))))))
  }

  predicate NameChar(c: char, first: bool) {
    'A' <= c <= 'Z' || 'a' <= c <= 'z' || c == '_' || (!first && '0' <= c <= '9')
  }

  predicate IsAssignment(token: string) {
    var n := Text.Find(token, '=');
    0 < n < |token| && NameChar(token[0], true) && forall i :: 0 < i < n ==> NameChar(token[i], false)
  }

  predicate IsOption(token: string) {
    token != "" && token[0] == '-'
  }

  /** Wrappers run the command in their own arguments; a timeout also takes a duration first. */
  datatype Role = Program | Wrapper | Timeout

  function RoleOf(name: string): Role {
    if name == "timeout" then Timeout
    else if name == "command" || name == "builtin" || name == "time" || name == "env" then Wrapper
    else Program
  }

  /** What the word loop asks about a word. */
  datatype Word = Word(assignment: bool, option: bool, role: Role, name: string)

  function Describe(token: string): Word {
    var name := Text.Lower(NormalizeToken(token));
    Word(IsAssignment(token), IsOption(token), RoleOf(name), name)
  }

  function Words(tokens: seq<string>): seq<Word>
    decreases |tokens|
  {
    if tokens == [] then [] else [Describe(tokens[0])] + Words(tokens[1..])
  }

  function SkipAssignments(words: seq<Word>): (r: seq<Word>)
    ensures |r| <= |words|
    decreases |words|
  {
    if words != [] && words[0].assignment then SkipAssignments(words[1..]) else words
  }

  function SkipOptions(words: seq<Word>): (r: seq<Word>)
    ensures |r| <= |words|
    decreases |words|
  {
    if words != [] && words[0].option then SkipOptions(words[1..]) else words
  }

  /** What a wrapper runs: its words after options, after the duration of a timeout, and after assignments. */
  function WrappedBy(role: Role, arguments: seq<Word>): (r: seq<Word>)
    ensures |r| <= |arguments|
  {
    var rest := SkipOptions(arguments);
    SkipAssignments(if role.Timeout? && rest != [] then rest[1..] else rest)
  }

  /** The executable of a word list: assignments and wrapper commands are looked through. */
  function ExecutableOf(words: seq<Word>): string
    decreases |words|
  {
    if words == [] then ""
    else if words[0].role.Program? then words[0].name
    else ExecutableOf(WrappedBy(words[0].role, words[1..]))
  }

  function Executable(segment: string): string {
    ExecutableOf(SkipAssignments(Words(Tokenize(segment))))
  }

  predicate IsCargoName(name: string) {
    name == "cargo" || name == "cargo.exe"
  }

  predicate IsCargo(segment: string) {
    IsCargoName(Executable(segment))
  }

  /** The word loop of the source, which advances an index past assignments, options and wrappers. */
  method ExtractExecutable(words: seq<Word>) returns (executable: string)
    ensures executable == ExecutableOf(SkipAssignments(words))
  {
    assert words[0..] == words;
    var index := AdvanceAssignments(words, 0);
    while index < |words|
      invariant 0 <= index <= |words|
      invariant ExecutableOf(words[index..]) == ExecutableOf(SkipAssignments(words))
      decreases |words| - index
    {
      if words[index].role.Program? {
        return words[index].name;
      }
      assert words[index..][1..] == words[index + 1..];
      index := AdvanceWrapper(words[index].role, words, index + 1);
    }
    executable := "";
  }

  method AdvanceWrapper(role: Role, words: seq<Word>, start: nat) returns (index: nat)
    requires start <= |words|
    ensures start <= index <= |words| && words[index..] == WrappedBy(role, words[start..])
  {
    index := AdvanceOptions(words, start);
    if role.Timeout? && index < |words| {
      assert words[index..][1..] == words[index + 1..];
      index := index + 1;
    }
    index := AdvanceAssignments(words, index);
  }

  method AdvanceAssignments(words: seq<Word>, start: nat) returns (index: nat)
    requires start <= |words|
    ensures start <= index <= |words| && words[index..] == SkipAssignments(words[start..])
  {
    index := start;
    while index < |words| && words[index].assignment
      invariant start <= index <= |words|
      invariant SkipAssignments(words[index..]) == SkipAssignments(words[start..])
    {
      assert words[index..][1..] == words[index + 1..];
      index := index + 1;
    }
  }

  method AdvanceOptions(words: seq<Word>, start: nat) returns (index: nat)
    requires start <= |words|
    ensures start <= index <= |words| && words[index..] == SkipOptions(words[start..])
  {
    index := start;
    while index < |words| && words[index].option
      invariant start <= index <= |words|
      invariant SkipOptions(words[index..]) == SkipOptions(words[start..])
    {
      assert words[index..][1..] == words[index + 1..];
      index := index + 1;
    }
  }

  // ---------------------------------------------------------------------------
  // Counting
  // ---------------------------------------------------------------------------

  function CountCargo(segments: seq<string>): nat
    decreases |segments|
  {
    if segments == [] then 0 else (if IsCargo(segments[0]) then 1 else 0) + CountCargo(segments[1..])
  }

  function CargoInvocations(command: string): nat {
    CountCargo(Segments(command, NEUTRAL))
  }

  method CountCargoInvocations(command: string) returns (count: nat)
    ensures count == CargoInvocations(command)
  {
    var segments := SplitShellCommandSegments(command);
    count := 0;
    for i := 0 to |segments|
      invariant count + CountCargo(segments[i..]) == CargoInvocations(command)
    {
      assert segments[i..][1..] == segments[i + 1..];
      var executable := ExtractExecutable(Words(Tokenize(segments[i])));
      if IsCargoName(executable) {
        count := count + 1;
      }
    }
  }

  lemma {:induction false} CountConcat(a: seq<string>, b: seq<string>)
    ensures CountCargo(a + b) == CountCargo(a) + CountCargo(b)
    decreases |a|
  {
    if a == [] {
      assert a + b == b;
    } else {
      assert (a + b)[1..] == a[1..] + b;
      CountConcat(a[1..], b);
    }
  }

  /** Cargo counts of two commands joined by a semicolon add, when the first ends outside quotes and escapes. */
  lemma {:induction false} CargoCountsAdd(a: string, b: string)
    requires EndMode(a, NEUTRAL) == NEUTRAL
    ensures CargoInvocations(a + (";" + b)) == CargoInvocations(a) + CargoInvocations(b)
  {
    SplitIsCompositionalIff(a, b);
    CountConcat(Segments(a, NEUTRAL), Segments(b, NEUTRAL));
  }

  lemma {:induction false} SkipLeadingAssignments(assignments: seq<Word>, words: seq<Word>)
    requires forall w :: w in assignments ==> w.assignment
    ensures SkipAssignments(assignments + words) == SkipAssignments(words)
    decreases |assignments|
  {
    if assignments == [] {
      assert assignments + words == words;
    } else {
      assert (assignments + words)[1..] == assignments[1..] + words;
      SkipLeadingAssignments(assignments[1..], words);
    }
  }

  lemma {:induction false} SkipLeadingOptions(options: seq<Word>, words: seq<Word>)
    requires forall w :: w in options ==> w.option
    requires words == [] || !words[0].option
    ensures SkipOptions(options + words) == words
    decreases |options|
  {
    if options == [] {
      assert options + words == words;
    } else {
      assert (options + words)[1..] == options[1..] + words;
      SkipLeadingOptions(options[1..], words);
    }
  }

  /**
   * A wrapper with its options, its duration if it is a timeout, and environment assignments does
   * not change which executable a word list runs.
   */
  lemma {:induction false} WrappersAreTransparent(
    wrapper: Word, options: seq<Word>, duration: seq<Word>, assignments: seq<Word>, words: seq<Word>)
    requires !wrapper.role.Program?
    requires forall w :: w in options ==> w.option
    requires forall w :: w in assignments ==> w.assignment && !w.option
    requires |duration| == (if wrapper.role.Timeout? then 1 else 0)
    requires forall w :: w in duration ==> !w.option
    requires words != [] && !words[0].assignment && !words[0].option
    ensures ExecutableOf([wrapper] + (options + (duration + (assignments + words)))) == ExecutableOf(words)
  {
    var inner := assignments + words;
    var tail := duration + inner;
    assert ([wrapper] + (options + tail))[1..] == options + tail;
    if duration == [] {
      assert tail == inner;
    } else {
      assert tail[0] == duration[0] && duration[0] in duration;
      assert tail[1..] == inner;
    }
    assert assignments != [] ==> inner[0] == assignments[0] && assignments[0] in assignments;
    SkipLeadingOptions(options, tail);
    SkipLeadingAssignments(assignments, words);
    assert WrappedBy(wrapper.role, options + tail) == words;
  }
}
