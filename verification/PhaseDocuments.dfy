/** The numeric prefix of a phase document path, the one filename convention the executor knows. */
module PhaseDocuments {
  import opened Wrappers
  import opened Text

  const DOCUMENT_PREFIX := "phases/phase-"
  const DOCUMENT_SUFFIX := ".md"

  predicate IsDigit(c: char) {
    '0' <= c <= '9'
  }

  /** How many digits s starts with. */
  function LeadingDigits(s: string): (n: nat)
    ensures n <= |s| && forall i :: 0 <= i < n ==> IsDigit(s[i])
    ensures n < |s| ==> !IsDigit(s[n])
    decreases |s|
  {
    if s == "" || !IsDigit(s[0]) then 0 else LeadingDigits(s[1..]) + 1
  }

  function DigitsValue(s: string): nat
    requires forall i :: 0 <= i < |s| ==> IsDigit(s[i])
    decreases |s|
  {
    if s == "" then 0
    else
      assert IsDigit(s[|s| - 1]);
      DigitsValue(s[..|s| - 1]) * 10 + (s[|s| - 1] as int - '0' as int)
  }

  function ForwardSlashes(s: string): (r: string)
    ensures |r| == |s| && '\\' !in r
    ensures forall i :: 0 <= i < |s| ==> r[i] == if s[i] == '\\' then '/' else s[i]
  {
    seq(|s|, i requires 0 <= i < |s| => if s[i] == '\\' then '/' else s[i])
  }

  /** What may follow the digits: the suffix, with a dash and a slash-free name before it or not. */
  predicate DocumentTail(tail: string) {
    || Lower(tail) == DOCUMENT_SUFFIX
    || (|tail| >= 5 && tail[0] == '-' && Lower(tail[|tail| - 3..]) == DOCUMENT_SUFFIX && '/' !in tail[1..|tail| - 3])
  }

  function ReadPhaseDocumentNumber(document: string): Option<nat> {
    var d := ForwardSlashes(document);
    var p := |DOCUMENT_PREFIX|;
    if |d| < p || Lower(d[..p]) != DOCUMENT_PREFIX then None
    else
      var n := LeadingDigits(d[p..]);
      if n == 0 || !DocumentTail(d[p + n..]) then None else Some(DigitsValue(d[p..][..n]))
  }
}
