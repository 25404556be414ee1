/** UTF-16 text as code units, its code-unit order, and sorting by a text key. */
module TextOrder {
  type CodeUnit = n: int | 0 <= n < 0x10000

  type Text = seq<CodeUnit>

  /** The order of the < operator on strings. */
  predicate Less(a: Text, b: Text) {
    if b == [] then false
    else if a == [] then true
    else if a[0] != b[0] then a[0] < b[0]
    else Less(a[1..], b[1..])
  }

  /** The texts agree on their first k units, where one of them ends or they differ. */
  ghost predicate DiffersAt(a: Text, b: Text, k: nat) {
    && k <= |a| && k < |b| && a[..k] == b[..k]
    && (k == |a| || a[k] < b[k])
  }

  /** A text precedes another exactly when it is a proper prefix of it, or smaller at the first difference. */
  lemma {:induction false} LessIff(a: Text, b: Text)
    ensures Less(a, b) <==> exists k: nat :: DiffersAt(a, b, k)
    decreases |a|
  {
    if a != [] && b != [] && a[0] == b[0] {
      LessIff(a[1..], b[1..]);
      if k: nat :| DiffersAt(a[1..], b[1..], k) {
        assert a[..k + 1] == [a[0]] + a[1..][..k] && b[..k + 1] == [b[0]] + b[1..][..k];
        assert DiffersAt(a, b, k + 1);
      }
      if k: nat :| DiffersAt(a, b, k) {
        assert a[1..][..k - 1] == a[..k][1..] && b[1..][..k - 1] == b[..k][1..];
        assert DiffersAt(a[1..], b[1..], k - 1);
      }
    } else {
      assert Less(a, b) ==> DiffersAt(a, b, 0);
      if k: nat :| DiffersAt(a, b, k) {
        assert k > 0 ==> a[..k][0] == b[..k][0];
      }
    }
  }

  lemma {:induction false} LessTotal(a: Text, b: Text)
    ensures Less(a, b) || a == b || Less(b, a)
    ensures !(Less(a, b) && Less(b, a))
    ensures !Less(a, a)
    decreases |a| + |b|
  {
    if a != [] && b != [] && a[0] == b[0] {
      LessTotal(a[1..], b[1..]);
      assert a == [a[0]] + a[1..] && b == [b[0]] + b[1..];
    }
    if a != [] {
      LessIrreflexive(a);
    }
  }

  lemma {:induction false} LessIrreflexive(a: Text)
    ensures !Less(a, a)
    decreases |a|
  {
    if a != [] {
      LessIrreflexive(a[1..]);
    }
  }

  lemma {:induction false} LessTransitive(a: Text, b: Text, c: Text)
    requires Less(a, b) && Less(b, c)
    ensures Less(a, c)
    decreases |a|
  {
    if a != [] && a[0] == b[0] && b[0] == c[0] {
      LessTransitive(a[1..], b[1..], c[1..]);
    }
  }

  /** Strictly increasing keys. */
  ghost predicate Increasing<T>(xs: seq<(Text, T)>) {
    forall i, j :: 0 <= i < j < |xs| ==> Less(xs[i].0, xs[j].0)
  }

  ghost predicate DistinctKeys<T>(xs: seq<(Text, T)>) {
    forall i, j :: 0 <= i < j < |xs| ==> xs[i].0 != xs[j].0
  }

  function InsertByKey<T>(x: (Text, T), xs: seq<(Text, T)>): (r: seq<(Text, T)>)
    ensures |r| == |xs| + 1
    ensures multiset(r) == multiset(xs) + multiset{x}
    decreases |xs|
  {
    if xs == [] then [x]
    else if Less(xs[0].0, x.0) then
      assert xs == [xs[0]] + xs[1..];
      [xs[0]] + InsertByKey(x, xs[1..])
    else [x] + xs
  }

  /** Sorts pairs by their text key. */
  function SortByKey<T>(xs: seq<(Text, T)>): (r: seq<(Text, T)>)
    ensures |r| == |xs|
    ensures multiset(r) == multiset(xs)
    decreases |xs|
  {
    if xs == [] then []
    else
      assert xs == [xs[0]] + xs[1..];
      InsertByKey(xs[0], SortByKey(xs[1..]))
  }

  lemma {:induction false} SameElements<T>(xs: seq<T>, ys: seq<T>, x: T)
    requires multiset(xs) == multiset(ys)
    ensures x in xs <==> x in ys
  {
    assert x in multiset(xs) <==> x in multiset(ys);
  }

  lemma {:induction false} InsertIncreasing<T>(x: (Text, T), xs: seq<(Text, T)>)
    requires Increasing(xs) && forall y :: y in xs ==> y.0 != x.0
    ensures Increasing(InsertByKey(x, xs))
    decreases |xs|
  {
    var r := InsertByKey(x, xs);
    if xs != [] {
      LessTotal(xs[0].0, x.0);
      if Less(xs[0].0, x.0) {
        var rest := InsertByKey(x, xs[1..]);
        InsertIncreasing(x, xs[1..]);
        forall j | 0 <= j < |rest| ensures Less(xs[0].0, rest[j].0) {
          assert rest[j] in multiset(rest);
          assert rest[j] in xs[1..] || rest[j] == x;
        }
      } else {
        forall j | 0 <= j < |xs| ensures Less(x.0, xs[j].0) {
          if j > 0 {
            LessTransitive(x.0, xs[0].0, xs[j].0);
          }
        }
      }
    }
  }

  lemma {:induction false} SortIncreasing<T>(xs: seq<(Text, T)>)
    requires DistinctKeys(xs)
    ensures Increasing(SortByKey(xs))
    decreases |xs|
  {
    if xs != [] {
      SortIncreasing(xs[1..]);
      var rest := SortByKey(xs[1..]);
      forall y | y in rest ensures y.0 != xs[0].0 {
        SameElements(rest, xs[1..], y);
        var k :| 0 <= k < |xs[1..]| && xs[1..][k] == y;
        assert xs[k + 1] == y;
      }
      InsertIncreasing(xs[0], rest);
    }
  }

  /** Two strictly increasing sequences with the same elements are equal. */
  lemma {:induction false} IncreasingUnique<T>(xs: seq<(Text, T)>, ys: seq<(Text, T)>)
    requires Increasing(xs) && Increasing(ys)
    requires forall x :: x in xs <==> x in ys
    ensures xs == ys
    decreases |xs|
  {
    if xs == [] {
      assert forall i :: 0 <= i < |ys| ==> ys[i] in xs;
    } else {
      assert xs[0] in ys && ys[0] in xs;
      FirstIsLeast(xs, ys);
      FirstIsLeast(ys, xs);
      LessTotal(xs[0].0, ys[0].0);
      var i :| 0 <= i < |ys| && ys[i] == xs[0];
      assert i == 0;
      forall x ensures x in xs[1..] <==> x in ys[1..] {
        RestWithoutFirst(xs, x);
        RestWithoutFirst(ys, x);
      }
      IncreasingUnique(xs[1..], ys[1..]);
      assert xs == [xs[0]] + xs[1..] && ys == [ys[0]] + ys[1..];
    }
  }

  lemma {:induction false} FirstIsLeast<T>(xs: seq<(Text, T)>, ys: seq<(Text, T)>)
    requires Increasing(xs) && ys != [] && ys[0] in xs
    ensures ys[0] == xs[0] || Less(xs[0].0, ys[0].0)
  {
  }

  lemma {:induction false} RestWithoutFirst<T>(xs: seq<(Text, T)>, x: (Text, T))
    requires Increasing(xs) && xs != []
    ensures x in xs[1..] <==> x in xs && x != xs[0]
  {
    forall i | 0 < i < |xs| ensures xs[i] != xs[0] {
      LessIrreflexive(xs[0].0);
    }
    if x in xs && x != xs[0] {
      var i :| 0 <= i < |xs| && xs[i] == x;
      assert xs[1..][i - 1] == x;
    }
  }

  /** With distinct keys the sorted form depends only on which pairs there are. */
  lemma {:induction false} SortDependsOnElements<T>(xs: seq<(Text, T)>, ys: seq<(Text, T)>)
    requires DistinctKeys(xs) && DistinctKeys(ys)
    requires forall x :: x in xs <==> x in ys
    ensures SortByKey(xs) == SortByKey(ys)
  {
    SortIncreasing(xs);
    SortIncreasing(ys);
    forall x ensures x in SortByKey(xs) <==> x in SortByKey(ys) {
      SameElements(xs, SortByKey(xs), x);
      SameElements(ys, SortByKey(ys), x);
    }
    IncreasingUnique(SortByKey(xs), SortByKey(ys));
  }

  /** Values can be mapped before or after sorting. */
  ghost predicate MappedBy<A, B>(xs: seq<(Text, A)>, ys: seq<(Text, B)>, f: A -> B) {
    |xs| == |ys| && forall i :: 0 <= i < |xs| ==> ys[i] == (xs[i].0, f(xs[i].1))
  }

  lemma {:induction false} MappedCons<A, B>(x: (Text, A), xs: seq<(Text, A)>, ys: seq<(Text, B)>, f: A -> B)
    requires MappedBy(xs, ys, f)
    ensures MappedBy([x] + xs, [(x.0, f(x.1))] + ys, f)
  {
  }

  lemma {:induction false} InsertCommutes<A, B>(x: (Text, A), xs: seq<(Text, A)>, ys: seq<(Text, B)>, f: A -> B)
    requires MappedBy(xs, ys, f)
    ensures MappedBy(InsertByKey(x, xs), InsertByKey((x.0, f(x.1)), ys), f)
    decreases |xs|
  {
    var y := (x.0, f(x.1));
    if xs != [] && Less(xs[0].0, x.0) {
      InsertCommutes(x, xs[1..], ys[1..], f);
      MappedCons(xs[0], InsertByKey(x, xs[1..]), InsertByKey(y, ys[1..]), f);
    } else if xs != [] {
      MappedCons(x, xs, ys, f);
    }
  }

  lemma {:induction false} SortCommutes<A, B>(xs: seq<(Text, A)>, ys: seq<(Text, B)>, f: A -> B)
    requires MappedBy(xs, ys, f)
    ensures MappedBy(SortByKey(xs), SortByKey(ys), f)
    decreases |xs|
  {
    if xs != [] {
      SortCommutes(xs[1..], ys[1..], f);
      InsertCommutes(xs[0], SortByKey(xs[1..]), SortByKey(ys[1..]), f);
    }
  }

  lemma {:induction false} TwoPositions<T>(xs: seq<T>, x: T) returns (i: nat, j: nat)
    requires multiset(xs)[x] >= 2
    ensures i < j < |xs| && xs[i] == x && xs[j] == x
    decreases |xs|
  {
    var last, rest := xs[|xs| - 1], xs[..|xs| - 1];
    assert xs == rest + [last];
    assert multiset(xs)[x] == multiset(rest)[x] + if last == x then 1 else 0;
    if last == x {
      assert x in rest;
      i :| i < |rest| && rest[i] == x;
      j := |xs| - 1;
    } else {
      i, j := TwoPositions(rest, x);
    }
  }

  lemma {:induction false} TwoCounted<T>(xs: seq<T>, i: nat, j: nat)
    requires i < j < |xs| && xs[i] == xs[j]
    ensures multiset(xs)[xs[i]] >= 2
  {
    var before, after := xs[..j], xs[j..];
    assert xs == before + after;
    assert before[i] == xs[i] && after[0] == xs[j];
    assert xs[i] in before && xs[i] in after;
    assert multiset(before)[xs[i]] >= 1 && multiset(after)[xs[i]] >= 1;
  }

  lemma {:induction false} DistinctForward<T>(xs: seq<(Text, T)>, ys: seq<(Text, T)>)
    requires multiset(xs) == multiset(ys) && DistinctKeys(xs)
    ensures DistinctKeys(ys)
  {
    forall i, j | 0 <= i < j < |ys| ensures ys[i].0 != ys[j].0 {
      SameElements(xs, ys, ys[i]);
      SameElements(xs, ys, ys[j]);
      var a :| 0 <= a < |xs| && xs[a] == ys[i];
      var b :| 0 <= b < |xs| && xs[b] == ys[j];
      if ys[i] == ys[j] {
        TwoCounted(ys, i, j);
        var k, l := TwoPositions(xs, ys[i]);
      }
    }
  }

  /** Reordering keeps keys distinct, or repeated. */
  lemma {:induction false} DistinctKeysPermute<T>(xs: seq<(Text, T)>, ys: seq<(Text, T)>)
    requires multiset(xs) == multiset(ys)
    ensures DistinctKeys(xs) <==> DistinctKeys(ys)
  {
    if DistinctKeys(xs) {
      DistinctForward(xs, ys);
    }
    if DistinctKeys(ys) {
      DistinctForward(ys, xs);
    }
  }

  /** Sorting undoes any reordering of distinctly keyed pairs. */
  lemma {:induction false} SortIgnoresOrder<T>(xs: seq<(Text, T)>, ys: seq<(Text, T)>)
    requires multiset(xs) == multiset(ys) && DistinctKeys(xs)
    ensures SortByKey(xs) == SortByKey(ys)
  {
    DistinctKeysPermute(xs, ys);
    forall x ensures x in xs <==> x in ys {
      SameElements(xs, ys, x);
    }
    SortDependsOnElements(xs, ys);
  }
}
