/** Stable sorting by an integer key, and what it does not depend on. */
module Sorting {
  import TextOrder

  function KeysOf<T>(xs: seq<T>, key: T -> int): (r: seq<int>)
    ensures |r| == |xs| && forall i :: 0 <= i < |xs| ==> r[i] == key(xs[i])
    decreases |xs|
  {
    if xs == [] then [] else [key(xs[0])] + KeysOf(xs[1..], key)
  }

  function InsertBy<T>(x: T, xs: seq<T>, key: T -> int): (r: seq<T>)
    ensures |r| == |xs| + 1
    ensures multiset(r) == multiset(xs) + multiset{x}
    decreases |xs|
  {
    if xs == [] then [x]
    else if key(xs[0]) < key(x) then
      assert xs == [xs[0]] + xs[1..];
      [xs[0]] + InsertBy(x, xs[1..], key)
    else [x] + xs
  }

  /** Sorting by key, least first, with elements of equal key kept in order. */
  function SortBy<T>(xs: seq<T>, key: T -> int): (r: seq<T>)
    ensures |r| == |xs|
    ensures multiset(r) == multiset(xs)
    decreases |xs|
  {
    if xs == [] then []
    else
      assert xs == [xs[0]] + xs[1..];
      InsertBy(xs[0], SortBy(xs[1..], key), key)
  }

  ghost predicate Ascending(ks: seq<int>) {
    forall i, j :: 0 <= i < j < |ks| ==> ks[i] <= ks[j]
  }

  ghost predicate DistinctBy<T>(xs: seq<T>, key: T -> int) {
    forall i, j :: 0 <= i < j < |xs| ==> key(xs[i]) != key(xs[j])
  }

  lemma {:induction false} InsertKeys<T>(x: T, xs: seq<T>, key: T -> int)
    ensures multiset(KeysOf(InsertBy(x, xs, key), key)) == multiset(KeysOf(xs, key)) + multiset{key(x)}
    decreases |xs|
  {
    if xs != [] && key(xs[0]) < key(x) {
      InsertKeys(x, xs[1..], key);
    }
  }

  /** Everything in xs is at least low, and so is everything after an insertion. */
  lemma {:induction false} InsertLowerBound<T>(x: T, xs: seq<T>, key: T -> int, low: int)
    requires low <= key(x) && forall i :: 0 <= i < |xs| ==> low <= key(xs[i])
    ensures forall i :: 0 <= i < |xs| + 1 ==> low <= key(InsertBy(x, xs, key)[i])
    decreases |xs|
  {
    if xs != [] && key(xs[0]) < key(x) {
      InsertLowerBound(x, xs[1..], key, low);
    }
  }

  ghost predicate SortedBy<T>(xs: seq<T>, key: T -> int) {
    forall i, j :: 0 <= i < j < |xs| ==> key(xs[i]) <= key(xs[j])
  }

  lemma {:induction false} InsertSorted<T>(x: T, xs: seq<T>, key: T -> int)
    requires SortedBy(xs, key)
    ensures SortedBy(InsertBy(x, xs, key), key)
    decreases |xs|
  {
    if xs != [] && key(xs[0]) < key(x) {
      InsertSorted(x, xs[1..], key);
      InsertLowerBound(x, xs[1..], key, key(xs[0]));
    }
  }

  lemma {:induction false} SortSorts<T>(xs: seq<T>, key: T -> int)
    ensures SortedBy(SortBy(xs, key), key)
    decreases |xs|
  {
    if xs != [] {
      SortSorts(xs[1..], key);
      InsertSorted(xs[0], SortBy(xs[1..], key), key);
    }
  }

  lemma {:induction false} SortKeepsKeys<T>(xs: seq<T>, key: T -> int)
    ensures multiset(KeysOf(SortBy(xs, key), key)) == multiset(KeysOf(xs, key))
    decreases |xs|
  {
    if xs != [] {
      SortKeepsKeys(xs[1..], key);
      InsertKeys(xs[0], SortBy(xs[1..], key), key);
    }
  }

  lemma {:induction false} SortKeys<T>(xs: seq<T>, key: T -> int)
    ensures Ascending(KeysOf(SortBy(xs, key), key))
    ensures multiset(KeysOf(SortBy(xs, key), key)) == multiset(KeysOf(xs, key))
  {
    SortSorts(xs, key);
    SortKeepsKeys(xs, key);
  }

  /** Dropping an equal first element from both sides keeps the multisets equal. */
  lemma {:induction false} SameTails<T>(a: seq<T>, b: seq<T>)
    requires a != [] && b != [] && a[0] == b[0] && multiset(a) == multiset(b)
    ensures multiset(a[1..]) == multiset(b[1..])
  {
    assert a == [a[0]] + a[1..] && b == [b[0]] + b[1..];
    assert multiset(a[1..]) == multiset(a) - multiset{a[0]};
    assert multiset(b[1..]) == multiset(b) - multiset{b[0]};
  }

  lemma {:induction false} SameSize<T>(a: seq<T>, b: seq<T>)
    requires multiset(a) == multiset(b)
    ensures |a| == |b|
  {
    assert |multiset(a)| == |a| && |multiset(b)| == |b|;
  }

  lemma {:induction false} SameLeast(a: seq<int>, b: seq<int>)
    requires Ascending(a) && Ascending(b) && multiset(a) == multiset(b) && a != [] && b != []
    ensures a[0] == b[0]
  {
    TextOrder.SameElements(a, b, a[0]);
    TextOrder.SameElements(a, b, b[0]);
  }

  lemma {:induction false} AscendingUnique(a: seq<int>, b: seq<int>)
    requires Ascending(a) && Ascending(b) && multiset(a) == multiset(b)
    ensures a == b
    decreases |a|
  {
    SameSize(a, b);
    if a != [] {
      SameLeast(a, b);
      SameTails(a, b);
      AscendingUnique(a[1..], b[1..]);
      assert a == [a[0]] + a[1..] && b == [b[0]] + b[1..];
    }
  }

  /** The sorted keys depend only on which keys there are, repeated or not. */
  lemma {:induction false} SortedKeysAgree<T>(xs: seq<T>, ys: seq<T>, key: T -> int)
    requires multiset(KeysOf(xs, key)) == multiset(KeysOf(ys, key))
    ensures KeysOf(SortBy(xs, key), key) == KeysOf(SortBy(ys, key), key)
  {
    SortKeys(xs, key);
    SortKeys(ys, key);
    AscendingUnique(KeysOf(SortBy(xs, key), key), KeysOf(SortBy(ys, key), key));
  }

  lemma {:induction false} KeysConcat<T>(xs: seq<T>, ys: seq<T>, key: T -> int)
    ensures KeysOf(xs + ys, key) == KeysOf(xs, key) + KeysOf(ys, key)
  {
  }

  lemma {:induction false} PermutedKeys<T>(xs: seq<T>, ys: seq<T>, key: T -> int)
    requires multiset(xs) == multiset(ys)
    ensures multiset(KeysOf(xs, key)) == multiset(KeysOf(ys, key))
    decreases |xs|
  {
    assert |multiset(xs)| == |xs| && |multiset(ys)| == |ys|;
    if xs != [] {
      TextOrder.SameElements(xs, ys, xs[0]);
      var k :| 0 <= k < |ys| && ys[k] == xs[0];
      var before, after := ys[..k], ys[k + 1..];
      assert ys == before + ([xs[0]] + after);
      assert xs == [xs[0]] + xs[1..];
      assert multiset(before + after) == multiset(ys) - multiset{xs[0]};
      PermutedKeys(xs[1..], before + after, key);
      KeysConcat(before, after, key);
      KeysConcat(before, [xs[0]] + after, key);
      KeysConcat([xs[0]], after, key);
    }
  }

  /** With distinct keys the sorted order depends only on which elements there are. */
  lemma {:induction false} SortAgrees<T>(xs: seq<T>, ys: seq<T>, key: T -> int)
    requires multiset(xs) == multiset(ys) && DistinctBy(xs, key)
    ensures SortBy(xs, key) == SortBy(ys, key)
  {
    PermutedKeys(xs, ys, key);
    SortedKeysAgree(xs, ys, key);
    DistinctWhenSorted(xs, key);
    var a, b := SortBy(xs, key), SortBy(ys, key);
    assert |multiset(xs)| == |xs| && |multiset(ys)| == |ys|;
    forall i | 0 <= i < |a| ensures a[i] == b[i] {
      assert KeysOf(a, key)[i] == KeysOf(b, key)[i];
      TextOrder.SameElements(a, b, b[i]);
      var j :| 0 <= j < |a| && a[j] == b[i];
      assert j == i;
    }
  }

  ghost predicate DistinctInts(ks: seq<int>) {
    forall i, j :: 0 <= i < j < |ks| ==> ks[i] != ks[j]
  }

  ghost predicate OneEach(ks: seq<int>) {
    forall k :: k in ks ==> multiset(ks)[k] == 1
  }

  lemma {:induction false} DistinctCons(ks: seq<int>)
    requires ks != []
    ensures DistinctInts(ks) <==> ks[0] !in ks[1..] && DistinctInts(ks[1..])
  {
    var rest := ks[1..];
    assert forall i :: 0 <= i < |rest| ==> rest[i] == ks[i + 1];
    if DistinctInts(ks) {
      forall i, j | 0 <= i < j < |rest| ensures rest[i] != rest[j] {
        assert ks[i + 1] != ks[j + 1];
      }
    }
    if ks[0] !in rest && DistinctInts(rest) {
      forall i, j | 0 <= i < j < |ks| ensures ks[i] != ks[j] {
        assert ks[j] == rest[j - 1];
        assert i > 0 ==> ks[i] == rest[i - 1];
      }
    }
  }

  lemma {:induction false} DistinctIsOneEach(ks: seq<int>)
    ensures DistinctInts(ks) <==> OneEach(ks)
    decreases |ks|
  {
    if ks != [] {
      DistinctIsOneEach(ks[1..]);
      assert ks == [ks[0]] + ks[1..];
      assert forall k :: multiset(ks)[k] == multiset(ks[1..])[k] + if k == ks[0] then 1 else 0;
      DistinctCons(ks);
      if OneEach(ks) {
        assert ks[0] in ks && ks[0] !in multiset(ks[1..]);
        assert forall k :: k in ks[1..] ==> k in ks;
      }
      if DistinctInts(ks) {
        assert multiset(ks[1..])[ks[0]] == 0;
      }
    }
  }

  lemma {:induction false} DistinctKeysOf<T>(xs: seq<T>, key: T -> int)
    ensures DistinctBy(xs, key) <==> DistinctInts(KeysOf(xs, key))
  {
    var ks := KeysOf(xs, key);
    if DistinctInts(ks) {
      forall i, j | 0 <= i < j < |xs| ensures key(xs[i]) != key(xs[j]) {
        assert ks[i] != ks[j];
      }
    }
    if DistinctBy(xs, key) {
      forall i, j | 0 <= i < j < |ks| ensures ks[i] != ks[j] {
        assert key(xs[i]) != key(xs[j]);
      }
    }
  }

  lemma {:induction false} DistinctIntsAgree(a: seq<int>, b: seq<int>)
    requires multiset(a) == multiset(b)
    ensures DistinctInts(a) <==> DistinctInts(b)
  {
    DistinctIsOneEach(a);
    DistinctIsOneEach(b);
    forall k ensures k in a <==> k in b {
      TextOrder.SameElements(a, b, k);
    }
  }

  lemma {:induction false} DistinctWhenSorted<T>(xs: seq<T>, key: T -> int)
    ensures DistinctBy(SortBy(xs, key), key) <==> DistinctBy(xs, key)
  {
    SortKeys(xs, key);
    DistinctIntsAgree(KeysOf(SortBy(xs, key), key), KeysOf(xs, key));
    DistinctKeysOf(xs, key);
    DistinctKeysOf(SortBy(xs, key), key);
  }
}
