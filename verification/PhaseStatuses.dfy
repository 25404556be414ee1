/** Phase status text and the lifecycle status it stands for. */
module PhaseStatuses {
  import opened Wrappers
  import Text

  /** NoStatus is a missing or blank status; Other keeps every status the policy has no rule for. */
  datatype PhaseStatus =
    | NoStatus | Completed | Skipped | InProgress | Pending | AwaitingReview | AwaitingRerun
    | Other(text: string)

  const CANONICAL_STATUSES: seq<string> := [
    "AWAITING_REVIEW", "AWAITING_CODE_REVIEW_RERUN", "COMPLETED", "COMPLETE", "DONE",
    "SKIPPED", "IN_PROGRESS", "PENDING", "BLOCKED", "FAILED"]

  predicate Separator(c: char) {
    Text.IsSpace(c) || c == '-'
  }

  /** Replaces every run of white space and hyphens by one underscore. */
  function Underscore(s: string, inRun: bool): string
    decreases |s|
  {
    if s == "" then ""
    else if Separator(s[0]) then (if inRun then "" else "_") + Underscore(s[1..], true)
    else [s[0]] + Underscore(s[1..], false)
  }

  /** The status is the token, or the token followed by an underscore and anything. */
  predicate HasToken(value: string, token: string) {
    value == token || token + "_" <= value
  }

  /** The first token of the list that leads the value, or the value itself. */
  function LeadingToken(value: string, tokens: seq<string>): string
    decreases |tokens|
  {
    if tokens == [] then value
    else if HasToken(value, tokens[0]) then tokens[0]
    else LeadingToken(value, tokens[1..])
  }

  function Classify(token: string): PhaseStatus {
    match token
    case "COMPLETED" => Completed
    case "COMPLETE" => Completed
    case "DONE" => Completed
    case "SKIPPED" => Skipped
    case "IN_PROGRESS" => InProgress
    case "PENDING" => Pending
    case "AWAITING_REVIEW" => AwaitingReview
    case "AWAITING_CODE_REVIEW_RERUN" => AwaitingRerun
    case _ => Other(token)
  }

  function ReadStatus(status: Option<string>): PhaseStatus {
    if status.None? || Text.Trim(status.value) == "" then NoStatus
    else Classify(StatusToken(Text.Trim(status.value)))
  }

  /** The canonical token that leads a trimmed status, or the whole upper-case status. */
  function StatusToken(trimmed: string): string {
    LeadingToken(Underscore(Text.Upper(trimmed), false), CANONICAL_STATUSES)
  }

  // ---------------------------------------------------------------------------
  // Spelling and explanations do not change the status
  // ---------------------------------------------------------------------------

  /** Whether the run of separators that ends s is still open after it. */
  predicate InRunAfter(s: string, inRun: bool) {
    if s == "" then inRun else Separator(s[|s| - 1])
  }

  lemma {:induction false} UnderscoreConcat(a: string, b: string, inRun: bool)
    ensures Underscore(a + b, inRun) == Underscore(a, inRun) + Underscore(b, InRunAfter(a, inRun))
    decreases |a|
  {
    if a == "" {
      assert a + b == b;
    } else {
      assert (a + b)[1..] == a[1..] + b;
      UnderscoreConcat(a[1..], b, Separator(a[0]));
    }
  }

  lemma {:induction false} UpperConcat(a: string, b: string)
    ensures Text.Upper(a + b) == Text.Upper(a) + Text.Upper(b)
  {
  }

  lemma {:induction false} UpperSeparator(c: char)
    ensures Separator(Text.UpperChar(c)) <==> Separator(c)
    ensures Text.UpperChar(c) == '_' <==> c == '_'
  {
  }

  /** A run of separators at the start or the end becomes an underscore there. */
  lemma {:induction false} UnderscoreEnds(s: string)
    requires s != ""
    ensures Separator(s[0]) ==> Underscore(s, false) != "" && Underscore(s, false)[0] == '_'
    ensures Separator(s[|s| - 1]) ==> Underscore(s, false) != "" && Underscore(s, false)[|Underscore(s, false)| - 1] == '_'
  {
    if Separator(s[|s| - 1]) {
      var front := LastRun(s);
      assert s == s[..front] + s[front..];
      UnderscoreConcat(s[..front], s[front..], false);
      UnderscoreRun(s[front..]);
    }
  }

  /** Where the separators that end s begin. */
  function LastRun(s: string): (n: nat)
    requires s != "" && Separator(s[|s| - 1])
    ensures n < |s| && (forall i :: n <= i < |s| ==> Separator(s[i]))
    ensures n > 0 ==> !Separator(s[n - 1])
    decreases |s|
  {
    if |s| == 1 || !Separator(s[|s| - 2]) then |s| - 1 else LastRun(s[..|s| - 1])
  }

  lemma {:induction false} UnderscoreRun(s: string)
    requires s != "" && forall i :: 0 <= i < |s| ==> Separator(s[i])
    ensures Underscore(s, false) == "_"
  {
    UnderscoreNothing(s[1..]);
  }

  lemma {:induction false} UnderscoreNothing(s: string)
    requires forall i :: 0 <= i < |s| ==> Separator(s[i])
    ensures Underscore(s, true) == ""
    decreases |s|
  {
    if s != "" {
      UnderscoreNothing(s[1..]);
    }
  }

  lemma {:induction false} LeadingTokenIsUnique(value: string, tokens: seq<string>, k: nat)
    requires k < |tokens| && HasToken(value, tokens[k])
    requires forall i :: 0 <= i < k ==> !HasToken(value, tokens[i])
    ensures LeadingToken(value, tokens) == tokens[k]
    decreases |tokens|
  {
    if k > 0 {
      LeadingTokenIsUnique(value, tokens[1..], k - 1);
    }
  }

  lemma {:induction false} CanonicalEnds(k: nat)
    requires k < |CANONICAL_STATUSES|
    ensures var token := CANONICAL_STATUSES[k];
      token != "" && token[0] != '_' && token[|token| - 1] != '_'
  {
  }

  /** Two different canonical tokens differ inside the shorter one, or at the underscore after it. */
  lemma {:induction false} TokensDiffer(i: nat, j: nat, value: string)
    requires i < j < |CANONICAL_STATUSES|
    requires HasToken(value, CANONICAL_STATUSES[j])
    ensures !HasToken(value, CANONICAL_STATUSES[i])
  {
    var a, b := CANONICAL_STATUSES[i], CANONICAL_STATUSES[j];
    assert b <= value;
    if i == 2 && j == 3 {
      assert a[8] == 'D' && (|value| > 8 ==> value[8] == '_');
    } else {
      assert exists n :: 0 <= n < |a| && n < |b| && a[n] != b[n] by {
        assert a[0] != b[0] || a[1] != b[1] || (i == 0 && j == 1 && a[9] != b[9]);
      }
    }
  }

  lemma {:induction false} TokenLeads(value: string, k: nat)
    requires k < |CANONICAL_STATUSES| && HasToken(value, CANONICAL_STATUSES[k])
    ensures LeadingToken(value, CANONICAL_STATUSES) == CANONICAL_STATUSES[k]
  {
    forall i | 0 <= i < k ensures !HasToken(value, CANONICAL_STATUSES[i]) {
      TokensDiffer(i, k, value);
    }
    LeadingTokenIsUnique(value, CANONICAL_STATUSES, k);
  }

  /** The word spells the token: in any case, with white space or hyphens for each underscore. */
  predicate Spells(word: string, token: string) {
    Underscore(Text.Upper(word), false) == token
  }

  /** What may follow a token: nothing, or anything after white space, a hyphen or an underscore. */
  predicate Explains(rest: string) {
    rest == "" || Separator(rest[0]) || rest[0] == '_'
  }

  lemma {:induction false} SpelledEnds(word: string, k: nat)
    requires k < |CANONICAL_STATUSES| && Spells(word, CANONICAL_STATUSES[k])
    ensures word != "" && !Separator(word[0]) && !Separator(word[|word| - 1])
  {
    CanonicalEnds(k);
    if word != "" {
      UnderscoreEnds(Text.Upper(word));
      UpperSeparator(word[0]);
      UpperSeparator(word[|word| - 1]);
    }
  }

  lemma {:induction false} SpelledValue(word: string, rest: string, k: nat)
    requires k < |CANONICAL_STATUSES| && Spells(word, CANONICAL_STATUSES[k]) && Explains(rest)
    ensures HasToken(Underscore(Text.Upper(word + rest), false), CANONICAL_STATUSES[k])
  {
    var token, upper := CANONICAL_STATUSES[k], Text.Upper(rest);
    SpelledEnds(word, k);
    UpperConcat(word, rest);
    UpperSeparator(word[|word| - 1]);
    UnderscoreConcat(Text.Upper(word), upper, false);
    if rest != "" {
      UpperSeparator(rest[0]);
      assert Underscore(upper, false)[0] == '_';
    }
  }

  lemma {:induction false} ExplainedToken(word: string, rest: string, k: nat)
    requires k < |CANONICAL_STATUSES| && Spells(word, CANONICAL_STATUSES[k]) && Explains(rest)
    ensures StatusToken(word + rest) == CANONICAL_STATUSES[k]
  {
    SpelledValue(word, rest, k);
    TokenLeads(Underscore(Text.Upper(word + rest), false), k);
  }

  /** Trimming a word and what follows it cuts what follows only. */
  lemma {:induction false} TrimEndKeepsHead(head: string, rest: string)
    requires head != "" && !Text.IsSpace(head[|head| - 1])
    ensures var r := Text.TrimEnd(head + rest);
      head <= r && (r == head || (rest != "" && r[|head|] == rest[0]))
    decreases |rest|
  {
    var s := head + rest;
    if rest != "" && Text.IsSpace(s[|s| - 1]) {
      assert s[..|s| - 1] == head + rest[..|rest| - 1];
      TrimEndKeepsHead(head, rest[..|rest| - 1]);
    }
  }

  lemma {:induction false} TrimmedTail(before: string, word: string, rest: string) returns (tail: string)
    requires word != "" && !Separator(word[0]) && !Separator(word[|word| - 1]) && Explains(rest) && Text.AllSpace(before)
    ensures Text.Trim(before + (word + rest)) == word + tail && Explains(tail)
  {
    assert (word + rest)[0] == word[0];
    Text.TrimStartSkips(before, word + rest);
    TrimEndKeepsHead(word, rest);
    tail := Text.TrimEnd(word + rest)[|word|..];
  }

  /**
   * A status keeps its meaning in any spelling of its token, with white space before it, and with
   * any explanation after white space, a hyphen or an underscore.
   */
  lemma {:induction false} ExplanationIsIgnored(k: nat, before: string, word: string, explanation: string)
    requires k < |CANONICAL_STATUSES| && Spells(word, CANONICAL_STATUSES[k])
    requires Text.AllSpace(before) && Explains(explanation)
    ensures ReadStatus(Some(before + (word + explanation))) == Classify(CANONICAL_STATUSES[k])
  {
    SpelledEnds(word, k);
    var tail := TrimmedTail(before, word, explanation);
    ExplainedToken(word, tail, k);
    ReadsToken(before + (word + explanation), word + tail, CANONICAL_STATUSES[k]);
  }

  lemma {:induction false} ReadsToken(s: string, trimmed: string, token: string)
    requires trimmed == Text.Trim(s) && trimmed != "" && StatusToken(trimmed) == token
    ensures ReadStatus(Some(s)) == Classify(token)
  {
  }

  /** The part of a trimmed status that spells the token that leads it. */
  lemma {:induction false} LeadingWord(s: string, token: string) returns (n: nat)
    requires token != "" && token <= Underscore(s, false) && token[|token| - 1] != '_'
    ensures n <= |s| && Underscore(s[..n], false) == token && (n == |s| || !InRunAfter(s[..n], false))
  {
    n := WordLength(s, false, |token|);
    WordLengthSpells(s, false, |token|);
    assert Underscore(s[..n], false)[|token| - 1] == token[|token| - 1];
    if n > 0 && Separator(s[n - 1]) {
      UnderscoreEnds(s[..n]);
    }
  }

  /** How many characters of s it takes to write m characters. */
  function WordLength(s: string, inRun: bool, m: nat): (n: nat)
    ensures n <= |s|
    decreases |s|
  {
    if m == 0 || s == "" then 0
    else if Separator(s[0]) then 1 + WordLength(s[1..], true, if inRun then m else m - 1)
    else 1 + WordLength(s[1..], false, m - 1)
  }

  lemma {:induction false} WordLengthSpells(s: string, inRun: bool, m: nat)
    requires m <= |Underscore(s, inRun)|
    ensures Underscore(s[..WordLength(s, inRun, m)], inRun) == Underscore(s, inRun)[..m]
    decreases |s|
  {
    if m > 0 && s != "" {
      var n := WordLength(s, inRun, m);
      assert s[..n][1..] == s[1..][..n - 1];
      if Separator(s[0]) {
        WordLengthSpells(s[1..], true, if inRun then m else m - 1);
      } else {
        WordLengthSpells(s[1..], false, m - 1);
      }
    }
  }

  /** Nothing else reads as a canonical status: a trimmed status does exactly when it is a spelling and an explanation. */
  lemma {:induction false} TokenReadIff(s: string, k: nat)
    requires k < |CANONICAL_STATUSES|
    ensures HasToken(Underscore(Text.Upper(s), false), CANONICAL_STATUSES[k])
       <==> exists n :: 0 <= n <= |s| && Spells(s[..n], CANONICAL_STATUSES[k]) && Explains(s[n..])
  {
    var token, upper := CANONICAL_STATUSES[k], Text.Upper(s);
    CanonicalEnds(k);
    if HasToken(Underscore(upper, false), token) {
      var n := LeadingWord(upper, token);
      assert upper == upper[..n] + upper[n..];
      UnderscoreConcat(upper[..n], upper[n..], false);
      assert Text.Upper(s[..n]) == upper[..n];
      if n < |s| {
        UpperSeparator(s[n]);
        assert Underscore(upper, false) == token + Underscore(upper[n..], false);
        assert Underscore(upper[n..], false) != "";
        assert Underscore(upper, false)[|token|] == Underscore(upper[n..], false)[0];
        assert upper[n..][0] == Text.UpperChar(s[n]);
      }
      assert Explains(s[n..]);
    }
    if n :| 0 <= n <= |s| && Spells(s[..n], token) && Explains(s[n..]) {
      assert s == s[..n] + s[n..];
      SpelledValue(s[..n], s[n..], k);
    }
  }
}
