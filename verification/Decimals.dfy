/** Decimal digits and the number they denote. */
module Decimals {
  import opened PhaseDocuments

  /** Decimal digits of a number, most significant first; leading zeros are allowed. */
  predicate Denotes(digits: string, n: nat)
    decreases |digits|
  {
    && digits != ""
    && var last := digits[|digits| - 1] as int - 48;
       && 0 <= last <= 9 && n % 10 == last
       && if |digits| == 1 then n < 10 else Denotes(digits[..|digits| - 1], n / 10)
  }

  lemma {:induction false} DenotesIff(digits: string, n: nat)
    requires digits != "" && forall i :: 0 <= i < |digits| ==> IsDigit(digits[i])
    ensures DigitsValue(digits) == n <==> Denotes(digits, n)
    decreases |digits|
  {
    assert IsDigit(digits[|digits| - 1]);
    var init := digits[..|digits| - 1];
    if |digits| > 1 {
      DenotesIff(init, n / 10);
      DenotesIff(init, DigitsValue(init));
    } else {
      assert init == "" && DigitsValue(init) == 0;
    }
  }

  lemma {:induction false} DenotesDigits(digits: string, n: nat)
    requires Denotes(digits, n)
    ensures forall i :: 0 <= i < |digits| ==> IsDigit(digits[i])
    decreases |digits|
  {
    var init := digits[..|digits| - 1];
    if |digits| > 1 {
      DenotesDigits(init, n / 10);
      assert forall i :: 0 <= i < |init| ==> digits[i] == init[i];
    }
  }

  lemma {:induction false} DigitsLead(digits: string, rest: string)
    requires forall i :: 0 <= i < |digits| ==> IsDigit(digits[i])
    requires rest == "" || !IsDigit(rest[0])
    ensures LeadingDigits(digits + rest) == |digits|
    decreases |digits|
  {
    if digits == "" {
      assert digits + rest == rest;
    } else {
      assert (digits + rest)[1..] == digits[1..] + rest;
      DigitsLead(digits[1..], rest);
    }
  }
}
