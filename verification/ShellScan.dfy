/** The shell scanner that finds Cargo invocations in a command line. */
module ShellScan {
  import opened Wrappers

  /** The quote the scan is inside, and whether the next character is escaped. */
  datatype Mode = Mode(quote: Option<char>, escaped: bool)

  const NEUTRAL := Mode(None, false)

  /** The mode after reading one character that is kept. */
  function After(mode: Mode, c: char): Mode {
    if mode.escaped then mode.(escaped := false)
    else if c == '\\' then mode.(escaped := true)
    else if mode.quote.Some? then (if c == mode.quote.value then NEUTRAL else mode)
    else if c == '\'' || c == '"' then Mode(Some(c), false)
    else mode
  }

  /** The length of the separator that starts s, read outside quotes and escapes; zero if none does. */
  function SeparatorLength(s: string): (n: nat)
    ensures n <= |s| && n <= 2
  {
    if s == "" then 0
    else if |s| >= 2 && ((s[0] == '\r' && s[1] == '\n') || (s[0] == '&' && s[1] == '&') || (s[0] == '|' && s[1] == '|')) then 2
    else if s[0] == '\r' || s[0] == '\n' || s[0] == ';' || s[0] == '|' then 1
    else 0
  }

  /** Where the next separator is, or the length of s. */
  function NextSeparator(s: string, mode: Mode): (n: nat)
    ensures n <= |s|
    decreases |s|
  {
    if s == "" || (mode == NEUTRAL && SeparatorLength(s) > 0) then 0
    else 1 + NextSeparator(s[1..], After(mode, s[0]))
  }

  /** The segments of a command whose scan begins in a mode. */
  function Segments(s: string, mode: Mode): (r: seq<string>)
    ensures r != []
    decreases |s|
  {
    var n := NextSeparator(s, mode);
    if n == |s| then [s]
    else
      NextSeparatorStops(s, mode);
      [s[..n]] + Segments(s[n + SeparatorLength(s[n..])..], NEUTRAL)
  }

  /** The separators dropped between the segments. */
  function Separators(s: string, mode: Mode): seq<string>
    decreases |s|
  {
    var n := NextSeparator(s, mode);
    if n == |s| then []
    else
      NextSeparatorStops(s, mode);
      [s[n..n + SeparatorLength(s[n..])]] + Separators(s[n + SeparatorLength(s[n..])..], NEUTRAL)
  }

  /** The mode in which a whole scan ends. */
  function EndMode(s: string, mode: Mode): Mode
    decreases |s|
  {
    if s == "" then mode
    else if mode == NEUTRAL && SeparatorLength(s) > 0 then EndMode(s[SeparatorLength(s)..], NEUTRAL)
    else EndMode(s[1..], After(mode, s[0]))
  }

  lemma {:induction false} NextSeparatorStops(s: string, mode: Mode)
    ensures var n := NextSeparator(s, mode); n < |s| ==> SeparatorLength(s[n..]) > 0
    decreases |s|
  {
    if s != "" && !(mode == NEUTRAL && SeparatorLength(s) > 0) {
      NextSeparatorStops(s[1..], After(mode, s[0]));
      var n := NextSeparator(s, mode);
      assert s[n..] == s[1..][n - 1..];
    }
  }

  function Interleave(segments: seq<string>, separators: seq<string>): string
    requires |segments| == |separators| + 1
    decreases |segments|
  {
    if separators == [] then segments[0]
    else segments[0] + separators[0] + Interleave(segments[1..], separators[1..])
  }

  const SEPARATORS: seq<string> := ["\r\n", "\r", "\n", ";", "&&", "||", "|"]

  /** Where the scan resumes after the first separator. */
  function Resumption(s: string, mode: Mode): (m: nat)
    requires NextSeparator(s, mode) < |s|
    ensures NextSeparator(s, mode) < m <= |s|
  {
    NextSeparatorStops(s, mode);
    NextSeparator(s, mode) + SeparatorLength(s[NextSeparator(s, mode)..])
  }

  lemma {:induction false} FirstSegment(s: string, mode: Mode)
    requires NextSeparator(s, mode) < |s|
    ensures Segments(s, mode) == [s[..NextSeparator(s, mode)]] + Segments(s[Resumption(s, mode)..], NEUTRAL)
  {
  }

  lemma {:induction false} FirstSeparator(s: string, mode: Mode)
    requires NextSeparator(s, mode) < |s|
    ensures Separators(s, mode)
         == [s[NextSeparator(s, mode)..Resumption(s, mode)]] + Separators(s[Resumption(s, mode)..], NEUTRAL)
  {
  }

  lemma {:induction false} FirstCut(s: string, mode: Mode)
    requires NextSeparator(s, mode) < |s|
    ensures var n, m := NextSeparator(s, mode), Resumption(s, mode);
      && Segments(s, mode) == [s[..n]] + Segments(s[m..], NEUTRAL)
      && Separators(s, mode) == [s[n..m]] + Separators(s[m..], NEUTRAL)
  {
    FirstSegment(s, mode);
    FirstSeparator(s, mode);
  }

  lemma {:induction false} CutInThree(s: string, n: nat, m: nat)
    requires n <= m <= |s|
    ensures s[..n] + s[n..m] + s[m..] == s
  {
  }

  lemma {:induction false} InterleaveCons(segment: string, separator: string, segments: seq<string>, separators: seq<string>)
    requires |segments| == |separators| + 1
    ensures Interleave([segment] + segments, [separator] + separators)
      == segment + separator + Interleave(segments, separators)
  {
    assert ([segment] + segments)[1..] == segments;
    assert ([separator] + separators)[1..] == separators;
  }

  lemma {:induction false} SeparatorCount(s: string, mode: Mode)
    ensures |Segments(s, mode)| == |Separators(s, mode)| + 1
    decreases |s|
  {
    if NextSeparator(s, mode) < |s| {
      FirstCut(s, mode);
      SeparatorCount(s[Resumption(s, mode)..], NEUTRAL);
    }
  }

  /** Splitting loses nothing but separators: interleaving them back rebuilds the command. */
  lemma {:induction false} SplitIsLossless(s: string, mode: Mode)
    ensures |Segments(s, mode)| == |Separators(s, mode)| + 1
    ensures Interleave(Segments(s, mode), Separators(s, mode)) == s
    decreases |s|
  {
    SeparatorCount(s, mode);
    var n := NextSeparator(s, mode);
    if n < |s| {
      var m := Resumption(s, mode);
      FirstCut(s, mode);
      SplitIsLossless(s[m..], NEUTRAL);
      InterleaveCons(s[..n], s[n..m], Segments(s[m..], NEUTRAL), Separators(s[m..], NEUTRAL));
      CutInThree(s, n, m);
    }
  }

  /** What is dropped between segments is one of the seven separators. */
  lemma {:induction false} OnlySeparatorsAreDropped(s: string, mode: Mode, i: nat)
    requires i < |Separators(s, mode)|
    ensures Separators(s, mode)[i] in SEPARATORS
    decreases |s|
  {
    var n := NextSeparator(s, mode);
    NextSeparatorStops(s, mode);
    FirstCut(s, mode);
    if i == 0 {
      IsSeparator(s[n..]);
      assert s[n..Resumption(s, mode)] == s[n..][..SeparatorLength(s[n..])];
    } else {
      OnlySeparatorsAreDropped(s[Resumption(s, mode)..], NEUTRAL, i - 1);
    }
  }

  lemma {:induction false} IsSeparator(s: string)
    requires SeparatorLength(s) > 0
    ensures s[..SeparatorLength(s)] in SEPARATORS
  {
    var t := s[..SeparatorLength(s)];
    if SeparatorLength(s) == 1 {
      assert t == [s[0]];
      assert SEPARATORS[1] == ['\r'] && SEPARATORS[2] == ['\n'] && SEPARATORS[3] == [';'] && SEPARATORS[6] == ['|'];
    } else {
      assert t == [s[0], s[1]];
      assert SEPARATORS[0] == ['\r', '\n'] && SEPARATORS[4] == ['&', '&'] && SEPARATORS[5] == ['|', '|'];
    }
  }

  // ---------------------------------------------------------------------------
  // Composition
  // ---------------------------------------------------------------------------

  lemma {:induction false} SeparatorLengthStable(a: string, b: string)
    requires a != "" && b != "" && b[0] == ';'
    ensures SeparatorLength(a + b) == SeparatorLength(a)
  {
    if |a| > 1 {
      assert (a + b)[1] == a[1];
    } else {
      assert (a + b)[1] == ';';
    }
  }

  lemma {:induction false} NextSeparatorAppend(a: string, b: string, mode: Mode)
    requires b != "" && b[0] == ';'
    ensures NextSeparator(a, mode) < |a| ==> NextSeparator(a + b, mode) == NextSeparator(a, mode)
    ensures NextSeparator(a, mode) == |a| && EndMode(a, mode) == NEUTRAL ==> NextSeparator(a + b, mode) == |a|
    decreases |a|
  {
    if a == "" {
      assert a + b == b;
    } else {
      SeparatorLengthStable(a, b);
      assert (a + b)[1..] == a[1..] + b;
      NextSeparatorAppend(a[1..], b, After(mode, a[0]));
    }
  }

  lemma {:induction false} EndModeFromSeparator(s: string, mode: Mode)
    requires NextSeparator(s, mode) < |s|
    ensures var n := NextSeparator(s, mode);
      EndMode(s, mode) == EndMode(s[n + SeparatorLength(s[n..])..], NEUTRAL)
    decreases |s|
  {
    var n := NextSeparator(s, mode);
    if n > 0 {
      EndModeFromSeparator(s[1..], After(mode, s[0]));
      assert s[n..] == s[1..][n - 1..];
      assert s[n + SeparatorLength(s[n..])..] == s[1..][n - 1 + SeparatorLength(s[n..])..];
    } else {
      assert s[0..] == s;
    }
  }

  lemma {:induction false} AppendKeepsCut(a: string, t: string, mode: Mode)
    requires t != "" && t[0] == ';' && NextSeparator(a, mode) < |a|
    ensures NextSeparator(a + t, mode) == NextSeparator(a, mode)
    ensures Resumption(a + t, mode) == Resumption(a, mode)
    ensures (a + t)[..NextSeparator(a, mode)] == a[..NextSeparator(a, mode)]
    ensures (a + t)[Resumption(a, mode)..] == a[Resumption(a, mode)..] + t
  {
    var n := NextSeparator(a, mode);
    NextSeparatorAppend(a, t, mode);
    assert (a + t)[n..] == a[n..] + t;
    SeparatorLengthStable(a[n..], t);
  }

  lemma {:induction false} JoinAtSeparator(a: string, b: string, mode: Mode)
    requires NextSeparator(a, mode) == |a| && EndMode(a, mode) == NEUTRAL
    ensures Segments(a + (";" + b), mode) == Segments(a, mode) + Segments(b, NEUTRAL)
  {
    var t := ";" + b;
    NextSeparatorAppend(a, t, mode);
    assert (a + t)[|a|..] == t && SeparatorLength(t) == 1;
    assert (a + t)[..|a|] == a;
    assert (a + t)[|a| + 1..] == b;
    FirstCut(a + t, mode);
  }

  /** If the scan of a ends outside quotes and escapes, a;b splits into the segments of a and then of b. */
  lemma {:induction false} SplitIsCompositional(a: string, b: string, mode: Mode)
    requires EndMode(a, mode) == NEUTRAL
    ensures Segments(a + (";" + b), mode) == Segments(a, mode) + Segments(b, NEUTRAL)
    decreases |a|
  {
    var t := ";" + b;
    var n := NextSeparator(a, mode);
    if n == |a| {
      JoinAtSeparator(a, b, mode);
    } else {
      var m := Resumption(a, mode);
      EndModeFromSeparator(a, mode);
      SplitIsCompositional(a[m..], b, NEUTRAL);
      AppendKeepsCut(a, t, mode);
      FirstCut(a + t, mode);
      FirstCut(a, mode);
      SeqAssociates([a[..n]], Segments(a[m..], NEUTRAL), Segments(b, NEUTRAL));
    }
  }

  lemma {:induction false} SeqAssociates(x: seq<string>, y: seq<string>, z: seq<string>)
    ensures x + (y + z) == x + y + z
  {
  }

  lemma {:induction false} PrefixHasNoSeparator(s: string, mode: Mode, n: nat)
    requires n <= NextSeparator(s, mode)
    ensures NextSeparator(s[..n], mode) == n
    decreases |s|
  {
    if n > 0 {
      assert s[..n][1..] == s[1..][..n - 1];
      PrefixHasNoSeparator(s[1..], After(mode, s[0]), n - 1);
      if mode == NEUTRAL {
        assert SeparatorLength(s) == 0;
        assert SeparatorLength(s[..n]) == 0;
      }
    }
  }

  /** Every segment is whole: scanning it again splits it no further. */
  lemma {:induction false} SegmentsAreWhole(s: string, i: nat)
    requires i < |Segments(s, NEUTRAL)|
    ensures Segments(Segments(s, NEUTRAL)[i], NEUTRAL) == [Segments(s, NEUTRAL)[i]]
    decreases |s|
  {
    var n := NextSeparator(s, NEUTRAL);
    if n < |s| {
      NextSeparatorStops(s, NEUTRAL);
      if i == 0 {
        PrefixHasNoSeparator(s, NEUTRAL, n);
      } else {
        SegmentsAreWhole(s[n + SeparatorLength(s[n..])..], i - 1);
      }
    }
  }

  // ---------------------------------------------------------------------------
  // The scanner itself
  // ---------------------------------------------------------------------------

  /** The segments of the rest of a scan that has already gathered some characters. */
  function Resume(current: string, s: string, mode: Mode): (r: seq<string>) {
    var rest := Segments(s, mode);
    [current + rest[0]] + rest[1..]
  }

  lemma {:induction false} ResumeKeep(current: string, s: string, mode: Mode)
    requires s != "" && !(mode == NEUTRAL && SeparatorLength(s) > 0)
    ensures Resume(current, s, mode) == Resume(current + [s[0]], s[1..], After(mode, s[0]))
  {
    var n := NextSeparator(s, mode);
    assert NextSeparator(s[1..], After(mode, s[0])) == n - 1;
    if n == |s| {
      assert current + s == current + [s[0]] + s[1..];
    } else {
      assert s[n..] == s[1..][n - 1..];
      assert current + s[..n] == current + [s[0]] + s[1..][..n - 1];
      assert s[n + SeparatorLength(s[n..])..] == s[1..][n - 1 + SeparatorLength(s[n..])..];
    }
  }

  lemma {:induction false} ResumeCut(current: string, s: string)
    requires SeparatorLength(s) > 0
    ensures Resume(current, s, NEUTRAL) == [current] + Resume("", s[SeparatorLength(s)..], NEUTRAL)
  {
    assert s[0..] == s && s[..0] == "";
    assert current + "" == current;
    var rest := Segments(s[SeparatorLength(s)..], NEUTRAL);
    assert "" + rest[0] == rest[0];
  }

  /** The separator at a position, from the character there and the next one. */
  function SeparatorAt(command: string, index: nat): (n: nat)
    requires index < |command|
    ensures n == SeparatorLength(command[index..]) && index + n <= |command|
  {
    var c := command[index];
    var paired := index + 1 < |command|
      && ((c == '\r' && command[index + 1] == '\n')
          || (c == '&' && command[index + 1] == '&')
          || (c == '|' && command[index + 1] == '|'));
    assert paired ==> command[index..][..2] == [c, command[index + 1]];
    if paired then 2 else if c == '\r' || c == '\n' || c == ';' || c == '|' then 1 else 0
  }

  /** One pass over the characters, as the source scans. */
  method SplitShellCommandSegments(command: string) returns (segments: seq<string>)
    ensures segments == Segments(command, NEUTRAL)
  {
    segments := [];
    var current := "";
    var mode := NEUTRAL;
    var index := 0;
    ResumeStart(command);
    while index < |command|
      invariant 0 <= index <= |command|
      invariant segments + Resume(current, command[index..], mode) == Segments(command, NEUTRAL)
    {
      ghost var rest := command[index..];
      var length := if mode == NEUTRAL then SeparatorAt(command, index) else 0;
      if length > 0 {
        ResumeCut(current, rest);
        assert rest[length..] == command[index + length..];
        SeqAssociates(segments, [current], Resume("", command[index + length..], NEUTRAL));
        segments := segments + [current];
        current := "";
        index := index + length;
      } else {
        ResumeKeep(current, rest, mode);
        assert rest[1..] == command[index + 1..];
        current := current + [command[index]];
        mode := After(mode, command[index]);
        index := index + 1;
      }
    }
    assert command[index..] == "";
    ResumeEnd(current, mode);
    segments := segments + [current];
  }

  lemma {:induction false} ResumeStart(command: string)
    ensures Resume("", command[0..], NEUTRAL) == Segments(command, NEUTRAL)
  {
    assert command[0..] == command;
    assert "" + Segments(command, NEUTRAL)[0] == Segments(command, NEUTRAL)[0];
  }

  lemma {:induction false} ResumeEnd(current: string, mode: Mode)
    ensures Resume(current, "", mode) == [current]
  {
    assert current + "" == current;
  }
}
