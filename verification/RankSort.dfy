/** Stable sorting by up to three numbers and a text, and what the result does not depend on. */
module RankSort {
  import opened TextOrder
  import Sorting

  /** A comparator's keys in the order it consults them. */
  datatype Rank = Rank(first: int, second: int, third: int, text: Text)

  predicate RankLess(a: Rank, b: Rank) {
    if a.first != b.first then a.first < b.first
    else if a.second != b.second then a.second < b.second
    else if a.third != b.third then a.third < b.third
    else Less(a.text, b.text)
  }

  lemma {:induction false} RankTotal(a: Rank, b: Rank)
    ensures RankLess(a, b) || a == b || RankLess(b, a)
    ensures !(RankLess(a, b) && RankLess(b, a)) && !RankLess(a, a)
  {
    LessTotal(a.text, b.text);
    LessTotal(a.text, a.text);
  }

  lemma {:induction false} RankTransitive(a: Rank, b: Rank, c: Rank)
    requires !RankLess(b, a) && !RankLess(c, b)
    ensures !RankLess(c, a)
  {
    RankTotal(a, b);
    RankTotal(b, c);
    LessTotal(a.text, b.text);
    LessTotal(b.text, c.text);
    LessTotal(a.text, c.text);
    if Less(a.text, b.text) && Less(b.text, c.text) {
      LessTransitive(a.text, b.text, c.text);
    }
  }

  function Insert<T>(x: T, xs: seq<T>, rank: T -> Rank): (r: seq<T>)
    ensures |r| == |xs| + 1
    decreases |xs|
  {
    if xs == [] then [x]
    else if RankLess(rank(xs[0]), rank(x)) then [xs[0]] + Insert(x, xs[1..], rank)
    else [x] + xs
  }

  function Sort<T>(xs: seq<T>, rank: T -> Rank): (r: seq<T>)
    ensures |r| == |xs|
    decreases |xs|
  {
    if xs == [] then [] else Insert(xs[0], Sort(xs[1..], rank), rank)
  }

  lemma {:induction false} InsertPermutes<T>(x: T, xs: seq<T>, rank: T -> Rank)
    ensures multiset(Insert(x, xs, rank)) == multiset(xs) + multiset{x}
    decreases |xs|
  {
    if xs != [] {
      assert xs == [xs[0]] + xs[1..];
      InsertPermutes(x, xs[1..], rank);
    }
  }

  lemma {:induction false} SortPermutes<T>(xs: seq<T>, rank: T -> Rank)
    ensures multiset(Sort(xs, rank)) == multiset(xs)
    decreases |xs|
  {
    if xs != [] {
      assert xs == [xs[0]] + xs[1..];
      SortPermutes(xs[1..], rank);
      InsertPermutes(xs[0], Sort(xs[1..], rank), rank);
    }
  }

  ghost predicate Sorted<T>(xs: seq<T>, rank: T -> Rank) {
    forall i, j :: 0 <= i < j < |xs| ==> !RankLess(rank(xs[j]), rank(xs[i]))
  }

  ghost predicate AtLeast<T>(low: Rank, xs: seq<T>, rank: T -> Rank) {
    forall i :: 0 <= i < |xs| ==> !RankLess(rank(xs[i]), low)
  }

  lemma {:induction false} InsertAtLeast<T>(x: T, xs: seq<T>, rank: T -> Rank, low: Rank)
    requires AtLeast(low, xs, rank) && !RankLess(rank(x), low)
    ensures AtLeast(low, Insert(x, xs, rank), rank)
    decreases |xs|
  {
    if xs != [] && RankLess(rank(xs[0]), rank(x)) {
      InsertAtLeast(x, xs[1..], rank, low);
    }
  }

  lemma {:induction false} SortedCons<T>(x: T, xs: seq<T>, rank: T -> Rank)
    requires Sorted(xs, rank) && AtLeast(rank(x), xs, rank)
    ensures Sorted([x] + xs, rank)
  {
  }

  lemma {:induction false} InsertSorted<T>(x: T, xs: seq<T>, rank: T -> Rank)
    requires Sorted(xs, rank)
    ensures Sorted(Insert(x, xs, rank), rank)
    decreases |xs|
  {
    if xs != [] {
      RankTotal(rank(xs[0]), rank(x));
      if RankLess(rank(xs[0]), rank(x)) {
        InsertSorted(x, xs[1..], rank);
        InsertAtLeast(x, xs[1..], rank, rank(xs[0]));
        SortedCons(xs[0], Insert(x, xs[1..], rank), rank);
      } else {
        forall i | 0 <= i < |xs| ensures !RankLess(rank(xs[i]), rank(x)) {
          RankTotal(rank(xs[0]), rank(xs[i]));
          RankTransitive(rank(x), rank(xs[0]), rank(xs[i]));
        }
        SortedCons(x, xs, rank);
      }
    }
  }

  lemma {:induction false} SortSorts<T>(xs: seq<T>, rank: T -> Rank)
    ensures Sorted(Sort(xs, rank), rank)
    decreases |xs|
  {
    if xs != [] {
      SortSorts(xs[1..], rank);
      InsertSorted(xs[0], Sort(xs[1..], rank), rank);
    }
  }

  /** Sorting what is sorted changes nothing, ties included. */
  lemma {:induction false} SortFixed<T>(xs: seq<T>, rank: T -> Rank)
    requires Sorted(xs, rank)
    ensures Sort(xs, rank) == xs
    decreases |xs|
  {
    if xs != [] {
      SortFixed(xs[1..], rank);
      assert |xs| > 1 ==> !RankLess(rank(xs[1]), rank(xs[0]));
      assert xs == [xs[0]] + xs[1..];
    }
  }

  /** Elements of equal rank are equal. */
  ghost predicate Keyed<T(!new)>(xs: seq<T>, rank: T -> Rank) {
    forall x, y :: x in xs && y in xs && rank(x) == rank(y) ==> x == y
  }

  lemma {:induction false} FirstAgrees<T(!new)>(a: seq<T>, b: seq<T>, rank: T -> Rank)
    requires Sorted(a, rank) && Sorted(b, rank) && multiset(a) == multiset(b) && Keyed(a, rank) && a != [] && b != []
    ensures a[0] == b[0]
  {
    SameElements(a, b, a[0]);
    SameElements(a, b, b[0]);
    var i :| 0 <= i < |b| && b[i] == a[0];
    var j :| 0 <= j < |a| && a[j] == b[0];
    RankTotal(rank(a[0]), rank(b[0]));
    RankTotal(rank(a[0]), rank(a[0]));
    RankTotal(rank(b[0]), rank(b[0]));
  }

  lemma {:induction false} KeyedTail<T(!new)>(a: seq<T>, rank: T -> Rank)
    requires a != [] && Keyed(a, rank)
    ensures Keyed(a[1..], rank)
  {
    assert forall x :: x in a[1..] ==> x in a;
  }

  lemma {:induction false} SortedUnique<T(!new)>(a: seq<T>, b: seq<T>, rank: T -> Rank)
    requires Sorted(a, rank) && Sorted(b, rank) && multiset(a) == multiset(b) && Keyed(a, rank)
    ensures a == b
    decreases |a|
  {
    Sorting.SameSize(a, b);
    if a != [] {
      FirstAgrees(a, b, rank);
      Sorting.SameTails(a, b);
      KeyedTail(a, rank);
      SortedUnique(a[1..], b[1..], rank);
      assert a == [a[0]] + a[1..] && b == [b[0]] + b[1..];
    }
  }

  /** The sorted form depends only on which elements there are, as long as the rank tells them apart. */
  lemma {:induction false} SortIgnoresListing<T(!new)>(xs: seq<T>, ys: seq<T>, rank: T -> Rank)
    requires multiset(xs) == multiset(ys) && Keyed(xs, rank)
    ensures Sort(xs, rank) == Sort(ys, rank)
  {
    SortPermutes(xs, rank);
    SortPermutes(ys, rank);
    SortSorts(xs, rank);
    SortSorts(ys, rank);
    forall x ensures x in Sort(xs, rank) <==> x in xs {
      SameElements(Sort(xs, rank), xs, x);
    }
    SortedUnique(Sort(xs, rank), Sort(ys, rank), rank);
  }

  // ---------------------------------------------------------------------------
  // Sorting and mapping
  // ---------------------------------------------------------------------------

  function MapEach<T, U>(f: T -> U, xs: seq<T>): (r: seq<U>)
    ensures |r| == |xs|
    decreases |xs|
  {
    if xs == [] then [] else [f(xs[0])] + MapEach(f, xs[1..])
  }

  lemma {:induction false} MapEachAt<T, U>(f: T -> U, xs: seq<T>, i: nat)
    requires i < |xs|
    ensures MapEach(f, xs)[i] == f(xs[i])
    decreases |xs|
  {
    if i > 0 {
      MapEachAt(f, xs[1..], i - 1);
    }
  }

  lemma {:induction false} MapEachConcat<T, U>(f: T -> U, xs: seq<T>, ys: seq<T>)
    ensures MapEach(f, xs + ys) == MapEach(f, xs) + MapEach(f, ys)
    decreases |xs|
  {
    if xs == [] {
      assert xs + ys == ys;
    } else {
      assert (xs + ys)[1..] == xs[1..] + ys;
      MapEachConcat(f, xs[1..], ys);
    }
  }

  lemma {:induction false} MapEachPermutes<T, U>(f: T -> U, xs: seq<T>, ys: seq<T>)
    requires multiset(xs) == multiset(ys)
    ensures multiset(MapEach(f, xs)) == multiset(MapEach(f, ys))
    decreases |xs|
  {
    assert |multiset(xs)| == |xs| && |multiset(ys)| == |ys|;
    if xs != [] {
      SameElements(xs, ys, xs[0]);
      var k :| 0 <= k < |ys| && ys[k] == xs[0];
      var before, after := ys[..k], ys[k + 1..];
      assert ys == before + ([xs[0]] + after);
      assert xs == [xs[0]] + xs[1..];
      assert multiset(before + after) == multiset(ys) - multiset{xs[0]};
      MapEachPermutes(f, xs[1..], before + after);
      MapEachConcat(f, before, after);
      MapEachConcat(f, before, [xs[0]] + after);
      MapEachConcat(f, [xs[0]], after);
    }
  }

  lemma {:induction false} InsertCommutes<T>(x: T, xs: seq<T>, rank: T -> Rank, f: T -> T)
    requires forall y :: rank(f(y)) == rank(y)
    ensures MapEach(f, Insert(x, xs, rank)) == Insert(f(x), MapEach(f, xs), rank)
    decreases |xs|
  {
    if xs != [] && RankLess(rank(xs[0]), rank(x)) {
      InsertCommutes(x, xs[1..], rank, f);
      assert ([xs[0]] + Insert(x, xs[1..], rank))[1..] == Insert(x, xs[1..], rank);
    } else {
      assert ([x] + xs)[1..] == xs;
    }
  }

  /** Elements can be put in canonical form before or after they are sorted. */
  lemma {:induction false} SortCommutes<T>(xs: seq<T>, rank: T -> Rank, f: T -> T)
    requires forall y :: rank(f(y)) == rank(y)
    ensures MapEach(f, Sort(xs, rank)) == Sort(MapEach(f, xs), rank)
    decreases |xs|
  {
    if xs != [] {
      SortCommutes(xs[1..], rank, f);
      InsertCommutes(xs[0], Sort(xs[1..], rank), rank, f);
    }
  }

  // ---------------------------------------------------------------------------
  // Lists that hold the same elements in another order
  // ---------------------------------------------------------------------------

  ghost predicate DistinctRanks<T>(xs: seq<T>, rank: T -> Rank) {
    forall i, j :: 0 <= i < j < |xs| ==> rank(xs[i]) != rank(xs[j])
  }

  ghost predicate HasPartner<T>(x: T, ys: seq<T>, f: T -> T) {
    exists j :: 0 <= j < |ys| && f(ys[j]) == f(x)
  }

  /** Every element of either list has a partner in the other with the same canonical form. */
  ghost predicate Partners<T(!new)>(xs: seq<T>, ys: seq<T>, f: T -> T) {
    (forall x :: x in xs ==> HasPartner(x, ys, f)) && (forall y :: y in ys ==> HasPartner(y, xs, f))
  }

  lemma {:induction false} OnceEach<T>(xs: seq<T>, rank: T -> Rank, x: T)
    requires DistinctRanks(xs, rank)
    ensures multiset(xs)[x] == if x in xs then 1 else 0
    decreases |xs|
  {
    if xs != [] {
      assert xs == [xs[0]] + xs[1..];
      forall i, j | 0 <= i < j < |xs[1..]| ensures rank(xs[1..][i]) != rank(xs[1..][j]) {
        assert rank(xs[i + 1]) != rank(xs[j + 1]);
      }
      OnceEach(xs[1..], rank, x);
      assert forall k :: 0 <= k < |xs[1..]| ==> xs[1..][k] == xs[k + 1] != xs[0];
    }
  }

  lemma {:induction false} MappedDistinct<T>(xs: seq<T>, rank: T -> Rank, f: T -> T)
    requires DistinctRanks(xs, rank) && forall y :: rank(f(y)) == rank(y)
    ensures DistinctRanks(MapEach(f, xs), rank)
  {
    forall i, j | 0 <= i < j < |xs| ensures rank(MapEach(f, xs)[i]) != rank(MapEach(f, xs)[j]) {
      MapEachAt(f, xs, i);
      MapEachAt(f, xs, j);
      assert rank(xs[i]) != rank(xs[j]);
    }
  }

  lemma {:induction false} MappedPartner<T(!new)>(xs: seq<T>, ys: seq<T>, f: T -> T, z: T)
    requires z in MapEach(f, xs) && forall x :: x in xs ==> HasPartner(x, ys, f)
    ensures z in MapEach(f, ys)
  {
    var i :| 0 <= i < |xs| && MapEach(f, xs)[i] == z;
    MapEachAt(f, xs, i);
    assert HasPartner(xs[i], ys, f);
    var j :| 0 <= j < |ys| && f(ys[j]) == f(xs[i]);
    MapEachAt(f, ys, j);
  }

  lemma {:induction false} PartnersSameElements<T(!new)>(xs: seq<T>, ys: seq<T>, f: T -> T, z: T)
    requires Partners(xs, ys, f)
    ensures z in MapEach(f, xs) <==> z in MapEach(f, ys)
  {
    if z in MapEach(f, xs) {
      MappedPartner(xs, ys, f, z);
    }
    if z in MapEach(f, ys) {
      MappedPartner(ys, xs, f, z);
    }
  }

  lemma {:induction false} SameElementsPermute<T(!new)>(xs: seq<T>, ys: seq<T>, rank: T -> Rank)
    requires DistinctRanks(xs, rank) && DistinctRanks(ys, rank) && forall z :: z in xs <==> z in ys
    ensures multiset(xs) == multiset(ys)
  {
    forall z ensures multiset(xs)[z] == multiset(ys)[z] {
      OnceEach(xs, rank, z);
      OnceEach(ys, rank, z);
    }
  }

  lemma {:induction false} PartnersPermute<T(!new)>(xs: seq<T>, ys: seq<T>, rank: T -> Rank, f: T -> T)
    requires Partners(xs, ys, f) && DistinctRanks(xs, rank) && DistinctRanks(ys, rank)
    requires forall y :: rank(f(y)) == rank(y)
    ensures multiset(MapEach(f, xs)) == multiset(MapEach(f, ys))
  {
    MappedDistinct(xs, rank, f);
    MappedDistinct(ys, rank, f);
    forall z ensures z in MapEach(f, xs) <==> z in MapEach(f, ys) {
      PartnersSameElements(xs, ys, f, z);
    }
    SameElementsPermute(MapEach(f, xs), MapEach(f, ys), rank);
  }

  lemma {:induction false} DistinctIsKeyed<T(!new)>(xs: seq<T>, rank: T -> Rank)
    requires DistinctRanks(xs, rank)
    ensures Keyed(xs, rank)
  {
  }

  /** Uniquely keyed lists that differ in order only have the same canonical form. */
  lemma {:induction false} CanonicalListsAgree<T(!new)>(xs: seq<T>, ys: seq<T>, rank: T -> Rank, f: T -> T)
    requires Partners(xs, ys, f) && DistinctRanks(xs, rank) && DistinctRanks(ys, rank)
    requires forall y :: rank(f(y)) == rank(y)
    ensures MapEach(f, Sort(xs, rank)) == MapEach(f, Sort(ys, rank))
  {
    PartnersPermute(xs, ys, rank, f);
    MappedDistinct(xs, rank, f);
    DistinctIsKeyed(MapEach(f, xs), rank);
    SortIgnoresListing(MapEach(f, xs), MapEach(f, ys), rank);
    SortCommutes(xs, rank, f);
    SortCommutes(ys, rank, f);
  }
}
