module ShellQuoting {
  /**
   * Where a command is cut, said of its characters: outside quotations, at an unescaped separator, and
   * nowhere else.
   */

  import opened Wrappers
  import opened ShellScan

  /** The number of backslashes right before position k. */
  function Backslashes(s: string, k: nat): nat
    requires k <= |s|
    decreases k
  {
    if k == 0 || s[k - 1] != '\\' then 0 else 1 + Backslashes(s, k - 1)
  }

  /** An odd number of backslashes escapes the next character, inside quotations too. */
  predicate Escaped(s: string, k: nat)
    requires k <= |s|
  {
    Backslashes(s, k) % 2 == 1
  }

  /** A quotation of this kind opens at position i: an unescaped quote character outside every quotation. */
  ghost predicate OpensAt(s: string, i: nat, q: char)
    requires i < |s|
    decreases i, 1
  {
    && s[i] == q && (q == '\'' || q == '"') && !Escaped(s, i)
    && !Inside(s, i, '\'') && !Inside(s, i, '"')
  }

  /** Position k is inside a quotation: one opened before it and was not closed by an unescaped quote of its kind. */
  ghost predicate Inside(s: string, k: nat, q: char)
    requires k <= |s|
    decreases k, 0
  {
    exists i: nat :: i < k && OpenSince(s, i, k, q)
  }

  /** It opened at position i, and every quote of its kind up to position k is escaped. */
  ghost predicate OpenSince(s: string, i: nat, k: nat, q: char)
    requires i < k <= |s|
    decreases i, 2
  {
    OpensAt(s, i, q) && forall j: nat :: i < j < k && s[j] == q ==> Escaped(s, j)
  }

  ghost predicate Outside(s: string, k: nat)
    requires k <= |s|
  {
    !Escaped(s, k) && !Inside(s, k, '\'') && !Inside(s, k, '"')
  }

  // ---------------------------------------------------------------------------
  // The mode of the scan
  // ---------------------------------------------------------------------------

  /** The mode before position k, when every character before it is read. */
  function ModeAt(s: string, k: nat): Mode
    requires k <= |s|
    decreases k
  {
    if k == 0 then NEUTRAL else After(ModeAt(s, k - 1), s[k - 1])
  }

  lemma {:induction false} EscapedIff(s: string, k: nat)
    requires k <= |s|
    ensures ModeAt(s, k).escaped <==> Escaped(s, k)
    decreases k
  {
    if k > 0 {
      EscapedIff(s, k - 1);
    }
  }

  lemma {:induction false} OpensIff(s: string, i: nat, q: char)
    requires i < |s| && forall c :: (ModeAt(s, i).quote == Some(c) <==> Inside(s, i, c))
    requires ModeAt(s, i).quote.Some? ==> ModeAt(s, i).quote.value == '\'' || ModeAt(s, i).quote.value == '"'
    ensures OpensAt(s, i, q) <==>
      s[i] == q && (q == '\'' || q == '"') && !ModeAt(s, i).escaped && ModeAt(s, i).quote == None
  {
    EscapedIff(s, i);
  }

  lemma {:induction false} WhereOpened(s: string, k: nat, q: char) returns (i: nat)
    requires k <= |s| && Inside(s, k, q)
    ensures i < k && OpenSince(s, i, k, q)
  {
    i :| 0 <= i < k && OpenSince(s, i, k, q);
  }

  /** One character further inside: it opened there, or stays inside unless it closed. */
  lemma {:induction false} InsideStep(s: string, k: nat, q: char)
    requires k < |s|
    ensures Inside(s, k + 1, q) <==> OpensAt(s, k, q) || (Inside(s, k, q) && (s[k] == q ==> Escaped(s, k)))
  {
    if Inside(s, k + 1, q) {
      var i := WhereOpened(s, k + 1, q);
      if i < k {
        assert OpenSince(s, i, k, q);
      }
    }
    if Inside(s, k, q) && (s[k] == q ==> Escaped(s, k)) {
      var i := WhereOpened(s, k, q);
      assert OpenSince(s, i, k + 1, q);
    }
    if OpensAt(s, k, q) {
      assert OpenSince(s, k, k + 1, q);
    }
  }

  /** The scan is inside a quotation exactly where the command is. */
  lemma {:induction false} QuoteIff(s: string, k: nat)
    requires k <= |s|
    ensures forall q :: ModeAt(s, k).quote == Some(q) <==> Inside(s, k, q)
    ensures ModeAt(s, k).quote.Some? ==> ModeAt(s, k).quote.value == '\'' || ModeAt(s, k).quote.value == '"'
    decreases k
  {
    if k > 0 {
      QuoteIff(s, k - 1);
      EscapedIff(s, k - 1);
      forall q ensures ModeAt(s, k).quote == Some(q) <==> Inside(s, k, q) {
        OpensIff(s, k - 1, q);
        InsideStep(s, k - 1, q);
      }
    }
  }

  lemma {:induction false} OutsideIff(s: string, k: nat)
    requires k <= |s|
    ensures ModeAt(s, k) == NEUTRAL <==> Outside(s, k)
  {
    EscapedIff(s, k);
    QuoteIff(s, k);
  }

  // ---------------------------------------------------------------------------
  // The cuts
  // ---------------------------------------------------------------------------

  /** The separator at position k: a return with its newline, two ampersands or bars, or one of the four characters alone. */
  function SeparatorHere(s: string, k: nat): (n: nat)
    requires k <= |s|
    ensures k + n <= |s|
  {
    if k + 1 < |s| && ((s[k] == '\r' && s[k + 1] == '\n') || s[k] == s[k + 1] == '&' || s[k] == s[k + 1] == '|') then 2
    else if k < |s| && (s[k] == '\r' || s[k] == '\n' || s[k] == ';' || s[k] == '|') then 1
    else 0
  }

  lemma {:induction false} SeparatorHereIff(s: string, k: nat)
    requires k <= |s|
    ensures SeparatorLength(s[k..]) == SeparatorHere(s, k)
  {
    if k + 1 < |s| {
      assert s[k..][0] == s[k] && s[k..][1] == s[k + 1];
    }
  }

  /** No unescaped separator stands outside quotations from a position up to another one. */
  ghost predicate Uncut(s: string, from: nat, to: nat) {
    to <= |s| && forall k: nat :: from <= k < to ==> !(Outside(s, k) && SeparatorHere(s, k) > 0)
  }

  /**
   * The first segment is the command up to the first separator outside quotations; what follows that
   * separator is cut in the same way, as a command of its own.
   */
  ghost predicate Cut(command: string, segments: seq<string>)
    decreases |segments|
  {
    && segments != [] && |segments[0]| <= |command|
    && var n := |segments[0]|;
       && segments[0] == command[..n] && Uncut(command, 0, n)
       && if |segments| == 1 then n == |command|
          else (
            && Outside(command, n) && SeparatorHere(command, n) > 0
            && Cut(command[n + SeparatorHere(command, n)..], segments[1..]))
  }

  lemma {:induction false} NextSeparatorAt(s: string, from: nat)
    requires from <= |s|
    ensures var to := from + NextSeparator(s[from..], ModeAt(s, from));
      to <= |s| && Uncut(s, from, to) && (to < |s| ==> Outside(s, to) && SeparatorHere(s, to) > 0)
    decreases |s| - from
  {
    SeparatorHereIff(s, from);
    OutsideIff(s, from);
    if from < |s| && !(ModeAt(s, from) == NEUTRAL && SeparatorHere(s, from) > 0) {
      NextSeparatorAt(s, from + 1);
      assert s[from..][1..] == s[from + 1..];
      assert ModeAt(s, from + 1) == After(ModeAt(s, from), s[from]);
    }
  }

  lemma {:induction false} FirstSegmentOf(t: string, n: nat, length: nat)
    requires n == NextSeparator(t, NEUTRAL) < |t| && length == SeparatorHere(t, n)
    ensures n + length <= |t| && Segments(t, NEUTRAL) == [t[..n]] + Segments(t[n + length..], NEUTRAL)
  {
    FirstSegment(t, NEUTRAL);
    SeparatorHereIff(t, n);
  }

  lemma {:induction false} CutPrepends(t: string, n: nat, rest: seq<string>)
    requires n <= |t| && Uncut(t, 0, n) && Outside(t, n) && SeparatorHere(t, n) > 0
    requires Cut(t[n + SeparatorHere(t, n)..], rest)
    ensures Cut(t, [t[..n]] + rest)
  {
    assert ([t[..n]] + rest)[1..] == rest;
  }

  lemma {:induction false} CutWhole(t: string)
    requires Uncut(t, 0, |t|)
    ensures Cut(t, [t])
  {
    assert t[..|t|] == t;
  }

  /** A command is cut exactly at the separators that stand unescaped outside every quotation, taken from the left. */
  lemma {:induction false} CutsAreOutside(command: string)
    ensures Cut(command, Segments(command, NEUTRAL))
    decreases |command|
  {
    var n := NextSeparator(command, NEUTRAL);
    assert command[0..] == command;
    NextSeparatorAt(command, 0);
    if n == |command| {
      CutWhole(command);
    } else {
      var length := SeparatorHere(command, n);
      FirstSegmentOf(command, n, length);
      CutsAreOutside(command[n + length..]);
      CutPrepends(command, n, Segments(command[n + length..], NEUTRAL));
    }
  }
}
