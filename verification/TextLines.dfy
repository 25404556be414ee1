/** Splitting a document into lines and putting it back, as far as readers that trim every line can tell. */
module TextLines {
  import opened Text

  function StripReturn(s: string): string {
    if s != "" && s[|s| - 1] == '\r' then s[..|s| - 1] else s
  }

  function StripReturns(lines: seq<string>): (r: seq<string>)
    ensures |r| == |lines|
    decreases |lines|
  {
    if lines == [] then [] else StripReturns(lines[..|lines| - 1]) + [StripReturn(lines[|lines| - 1])]
  }

  /** The lines of a text, without the return before a newline; the last part keeps a return, since no newline follows it. */
  function Lines(s: string): seq<string> {
    var parts := Split(s, '\n');
    StripReturns(parts[..|parts| - 1]) + [parts[|parts| - 1]]
  }

  function Each(f: string -> string, lines: seq<string>): (r: seq<string>)
    ensures |r| == |lines|
    decreases |lines|
  {
    if lines == [] then [] else Each(f, lines[..|lines| - 1]) + [f(lines[|lines| - 1])]
  }

  lemma {:induction false} EachAt(f: string -> string, lines: seq<string>, i: nat)
    requires i < |lines|
    ensures Each(f, lines)[i] == f(lines[i])
    decreases |lines|
  {
    if i < |lines| - 1 {
      EachAt(f, lines[..|lines| - 1], i);
    }
  }

  lemma {:induction false} EachConcat(f: string -> string, a: seq<string>, b: seq<string>)
    ensures Each(f, a + b) == Each(f, a) + Each(f, b)
    decreases |b|
  {
    if b == [] {
      assert a + b == a;
    } else {
      assert (a + b)[..|a + b| - 1] == a + b[..|b| - 1];
      EachConcat(f, a, b[..|b| - 1]);
    }
  }

  lemma {:induction false} EachOne(f: string -> string, line: string)
    ensures Each(f, [line]) == [f(line)]
  {
    assert [line][..0] == [];
  }

  /** Every line trimmed. */
  function Trims(lines: seq<string>): seq<string> {
    Each(Trim, lines)
  }

  // ---------------------------------------------------------------------------
  // Trimming
  // ---------------------------------------------------------------------------

  /** White space, the trimmed text, white space. */
  lemma {:induction false} Around(s: string) returns (before: string, after: string)
    ensures s == before + Trim(s) + after && AllSpace(before) && AllSpace(after)
  {
    var u := TrimStart(s);
    TrimStartSpec(s);
    TrimEndSpec(u);
    before := s[..|s| - |u|];
    after := u[|TrimEnd(u)|..];
  }

  lemma {:induction false} Regroup(before: string, b: string, t: string, a: string, after: string)
    ensures before + (b + t + a) + after == (before + b) + t + (a + after)
    ensures AllSpace(before) && AllSpace(b) ==> AllSpace(before + b)
    ensures AllSpace(a) && AllSpace(after) ==> AllSpace(a + after)
  {
  }

  lemma {:induction false} TrimPadded(before: string, s: string, after: string)
    requires AllSpace(before) && AllSpace(after)
    ensures Trim(before + s + after) == Trim(s)
  {
    var b, a := Around(s);
    TrimTrimmed(s);
    Regroup(before, b, Trim(s), a, after);
    TrimSurrounded(before + b, Trim(s), a + after);
  }

  lemma {:induction false} TrimStrip(s: string)
    ensures Trim(StripReturn(s)) == Trim(s)
  {
    if s != "" && s[|s| - 1] == '\r' {
      assert s == "" + StripReturn(s) + ['\r'];
      TrimPadded("", StripReturn(s), ['\r']);
    }
  }

  lemma {:induction false} TrimOfTrimEnd(s: string)
    ensures Trim(TrimEnd(s)) == Trim(s)
  {
    var kept := TrimEnd(s);
    TrimEndSpec(s);
    assert s == "" + kept + s[|kept|..];
    TrimPadded("", kept, s[|kept|..]);
  }

  lemma {:induction false} TrimEndDrops(s: string, space: string)
    requires AllSpace(space)
    ensures TrimEnd(s + space) == TrimEnd(s)
  {
    var kept := TrimEnd(s);
    TrimEndSpec(s);
    assert s + space == kept + (s[|kept|..] + space);
    TrimEndSkips(kept, s[|kept|..] + space);
  }

  lemma {:induction false} TrimEndKeeps(before: string, s: string)
    requires !AllSpace(s)
    ensures TrimEnd(before + s) == before + TrimEnd(s)
  {
    var kept := TrimEnd(s);
    TrimEndSpec(s);
    assert s[0..] == s;
    assert kept != "";
    assert before + s == (before + kept) + s[|kept|..];
    TrimEndSkips(before + kept, s[|kept|..]);
  }

  // ---------------------------------------------------------------------------
  // Lines of a joined document
  // ---------------------------------------------------------------------------

  ghost predicate NoNewlines(lines: seq<string>) {
    forall i :: 0 <= i < |lines| ==> '\n' !in lines[i]
  }

  lemma {:induction false} EachAgrees(f: string -> string, a: seq<string>, b: seq<string>)
    requires |a| == |b| && forall i :: 0 <= i < |a| ==> f(a[i]) == f(b[i])
    ensures Each(f, a) == Each(f, b)
    decreases |a|
  {
    if a != [] {
      EachAgrees(f, a[..|a| - 1], b[..|b| - 1]);
    }
  }

  lemma {:induction false} StripAt(lines: seq<string>, i: nat)
    requires i < |lines|
    ensures StripReturns(lines)[i] == StripReturn(lines[i])
    decreases |lines|
  {
    if i < |lines| - 1 {
      StripAt(lines[..|lines| - 1], i);
    }
  }

  lemma {:induction false} TrimsOfStripped(lines: seq<string>)
    ensures Trims(StripReturns(lines)) == Trims(lines)
  {
    forall i | 0 <= i < |lines| ensures Trim(StripReturns(lines)[i]) == Trim(lines[i]) {
      StripAt(lines, i);
      TrimStrip(lines[i]);
    }
    EachAgrees(Trim, StripReturns(lines), lines);
  }

  lemma {:induction false} StrippedNoNewlines(lines: seq<string>)
    requires NoNewlines(lines)
    ensures NoNewlines(StripReturns(lines))
  {
    forall i | 0 <= i < |lines| ensures '\n' !in StripReturns(lines)[i] {
      StripAt(lines, i);
    }
  }

  lemma {:induction false} LinesNoNewlines(s: string)
    ensures NoNewlines(Lines(s)) && Lines(s) != []
  {
    SplitWithout(s, '\n');
    var parts := Split(s, '\n');
    StrippedNoNewlines(parts[..|parts| - 1]);
  }

  /** The lines of a document that was joined, trimmed at its end and closed by a newline. */
  lemma {:induction false} TrimsOfClosed(lines: seq<string>)
    requires lines != [] && NoNewlines(lines)
    ensures Trims(Lines(TrimEnd(Join(lines, '\n')) + "\n")) == Trims(DropBlankEnd(lines)) + [""]
    ensures KeepsTrims(DropBlankEnd(lines), lines)
  {
    var kept := DropBlankEnd(lines);
    TrimEndOfJoin(lines);
    DroppedNoNewlines(lines);
    JoinAppend(kept, [""], '\n');
    assert Join(kept, '\n') + ['\n'] + "" == Join(kept, '\n') + "\n";
    TrimsOfJoin(kept + [""]);
    TrimsLast(kept, "");
    TrimTrimmed("");
    TrimsOfDropped(lines);
  }

  lemma {:induction false} TrimsOfLines(s: string)
    ensures Trims(Lines(s)) == Trims(Split(s, '\n'))
  {
    var parts := Split(s, '\n');
    var front, last := parts[..|parts| - 1], parts[|parts| - 1];
    assert parts == front + [last];
    TrimsOfStripped(front);
    EachConcat(Trim, StripReturns(front), [last]);
    EachConcat(Trim, front, [last]);
  }

  /** Splitting what was joined gives the same lines, up to white space at their ends. */
  lemma {:induction false} TrimsOfJoin(lines: seq<string>)
    requires lines != [] && NoNewlines(lines)
    ensures Trims(Lines(Join(lines, '\n'))) == Trims(lines)
  {
    SplitJoin(lines, '\n');
    TrimsOfLines(Join(lines, '\n'));
  }

  /** trimEnd on lines: blank lines at the end go, and the last line left loses its trailing space. */
  function DropBlankEnd(lines: seq<string>): (r: seq<string>)
    requires lines != []
    ensures r != [] && |r| <= |lines|
    decreases |lines|
  {
    var last := lines[|lines| - 1];
    if |lines| > 1 && AllSpace(last) then DropBlankEnd(lines[..|lines| - 1]) else lines[..|lines| - 1] + [TrimEnd(last)]
  }

  lemma {:induction false} TrimEndOfJoin(lines: seq<string>)
    requires lines != []
    ensures TrimEnd(Join(lines, '\n')) == Join(DropBlankEnd(lines), '\n')
    decreases |lines|
  {
    var front, last := lines[..|lines| - 1], lines[|lines| - 1];
    assert lines == front + [last];
    if |lines| == 1 {
      assert DropBlankEnd(lines) == [TrimEnd(last)];
    } else {
      JoinAppend(front, [last], '\n');
      assert Join(front, '\n') + ['\n'] + last == Join(front, '\n') + (['\n'] + last);
      if AllSpace(last) {
        TrimEndDrops(Join(front, '\n'), ['\n'] + last);
        TrimEndOfJoin(front);
      } else {
        TrimEndKeeps(Join(front, '\n') + ['\n'], last);
        JoinAppend(front, [TrimEnd(last)], '\n');
      }
    }
  }

  ghost predicate BlankAfter(lines: seq<string>, n: nat) {
    forall i :: n <= i < |lines| ==> lines[i] == ""
  }

  lemma {:induction false} DroppedNoNewlines(lines: seq<string>)
    requires lines != [] && NoNewlines(lines)
    ensures NoNewlines(DropBlankEnd(lines))
    decreases |lines|
  {
    var front, last := lines[..|lines| - 1], lines[|lines| - 1];
    if |lines| > 1 && AllSpace(last) {
      DroppedNoNewlines(front);
    } else {
      TrimEndSpec(last);
    }
  }

  lemma {:induction false} OneMoreBlank(front: seq<string>, n: nat)
    requires n <= |front| && BlankAfter(front, n)
    ensures (front + [""])[..n] == front[..n] && BlankAfter(front + [""], n)
  {
  }

  lemma {:induction false} TrimsLast(front: seq<string>, last: string)
    ensures Trims(front + [last]) == Trims(front) + [Trim(last)]
  {
    EachConcat(Trim, front, [last]);
    EachOne(Trim, last);
  }

  /** The same lines, trimmed, as far as they go; blank lines after that. */
  ghost predicate KeepsTrims(kept: seq<string>, lines: seq<string>) {
    |kept| <= |lines| && Trims(kept) == Trims(lines)[..|kept|] && BlankAfter(Trims(lines), |kept|)
  }

  lemma {:induction false} KeepsBlank(kept: seq<string>, front: seq<string>, last: string)
    requires KeepsTrims(kept, front) && AllSpace(last)
    ensures KeepsTrims(kept, front + [last])
  {
    TrimsLast(front, last);
    TrimOfBlank(last);
    OneMoreBlank(Trims(front), |kept|);
  }

  lemma {:induction false} KeepsLast(front: seq<string>, last: string)
    ensures KeepsTrims(front + [TrimEnd(last)], front + [last])
  {
    TrimsLast(front, last);
    TrimsLast(front, TrimEnd(last));
    TrimOfTrimEnd(last);
  }

  /** What is left are the same lines, trimmed; what went was blank. */
  lemma {:induction false} TrimsOfDropped(lines: seq<string>)
    requires lines != []
    ensures KeepsTrims(DropBlankEnd(lines), lines)
    decreases |lines|
  {
    var front, last := lines[..|lines| - 1], lines[|lines| - 1];
    assert front + [last] == lines;
    if |lines| > 1 && AllSpace(last) {
      TrimsOfDropped(front);
      KeepsBlank(DropBlankEnd(front), front, last);
    } else {
      KeepsLast(front, last);
    }
  }

  lemma {:induction false} TrimOfBlank(s: string)
    requires AllSpace(s)
    ensures Trim(s) == ""
  {
    assert s == s + "" + "";
    TrimSurrounded(s, "", "");
  }
}
