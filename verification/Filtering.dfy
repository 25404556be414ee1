/** Filtering a list, and counting what is kept. */
module Filtering {
  function Filter<T>(xs: seq<T>, keep: T -> bool): seq<T>
    decreases |xs|
  {
    if xs == [] then []
    else
      var last, rest := xs[|xs| - 1], xs[..|xs| - 1];
      if keep(last) then Filter(rest, keep) + [last] else Filter(rest, keep)
  }

  lemma {:induction false} FilterMember<T>(xs: seq<T>, keep: T -> bool, x: T)
    ensures x in Filter(xs, keep) <==> x in xs && keep(x)
    decreases |xs|
  {
    if xs != [] {
      var last, rest := xs[|xs| - 1], xs[..|xs| - 1];
      assert xs == rest + [last];
      FilterMember(rest, keep, x);
    }
  }

  lemma {:induction false} FilterCounts<T(!new)>(xs: seq<T>, keep: T -> bool, x: T)
    ensures multiset(Filter(xs, keep))[x] == if keep(x) then multiset(xs)[x] else 0
    decreases |xs|
  {
    if xs != [] {
      var last, rest := xs[|xs| - 1], xs[..|xs| - 1];
      assert xs == rest + [last];
      FilterCounts(rest, keep, x);
    }
  }

  /** Filtering keeps pace with reordering. */
  lemma {:induction false} FilterPermutes<T(!new)>(xs: seq<T>, ys: seq<T>, keep: T -> bool)
    requires multiset(xs) == multiset(ys)
    ensures multiset(Filter(xs, keep)) == multiset(Filter(ys, keep))
  {
    forall x ensures multiset(Filter(xs, keep))[x] == multiset(Filter(ys, keep))[x] {
      FilterCounts(xs, keep, x);
      FilterCounts(ys, keep, x);
    }
  }

  lemma {:induction false} SingletonPermutes<T(!new)>(xs: seq<T>, ys: seq<T>)
    requires multiset(xs) == multiset(ys)
    ensures |xs| == |ys|
    ensures |xs| == 1 ==> xs == ys
  {
    assert |multiset(xs)| == |xs| && |multiset(ys)| == |ys|;
    if |xs| == 1 {
      assert xs[0] in multiset(ys);
      assert xs == [xs[0]] && ys == [ys[0]];
    }
  }

  /** Position k is the only one that qualifies. */
  ghost predicate OnlyAt<T(!new)>(xs: seq<T>, keep: T -> bool, k: nat) {
    k < |xs| && keep(xs[k]) && forall j :: 0 <= j < |xs| && j != k ==> !keep(xs[j])
  }

  lemma {:induction false} FilterEmptyIff<T(!new)>(xs: seq<T>, keep: T -> bool)
    ensures Filter(xs, keep) == [] <==> forall j :: 0 <= j < |xs| ==> !keep(xs[j])
  {
    var r := Filter(xs, keep);
    if r != [] {
      FilterMember(xs, keep, r[0]);
    }
    if r == [] {
      forall j | 0 <= j < |xs| ensures !keep(xs[j]) {
        FilterMember(xs, keep, xs[j]);
      }
    }
  }

  /** One element is kept exactly when one position qualifies. */
  lemma {:induction false} FilterSingleIff<T(!new)>(xs: seq<T>, keep: T -> bool)
    ensures |Filter(xs, keep)| == 1 <==> exists k: nat :: OnlyAt(xs, keep, k)
    ensures forall k: nat :: OnlyAt(xs, keep, k) ==> Filter(xs, keep) == [xs[k]]
    decreases |xs|
  {
    if xs != [] {
      var last, rest := xs[|xs| - 1], xs[..|xs| - 1];
      FilterSingleIff(rest, keep);
      FilterEmptyIff(rest, keep);
      forall k: nat | OnlyAt(xs, keep, k) ensures Filter(xs, keep) == [xs[k]] {
        if k < |rest| {
          assert OnlyAt(rest, keep, k);
        }
      }
      if |Filter(xs, keep)| == 1 {
        if keep(last) {
          assert OnlyAt(xs, keep, |xs| - 1);
        } else {
          var k: nat :| OnlyAt(rest, keep, k);
          assert OnlyAt(xs, keep, k);
        }
      }
    }
  }
}
