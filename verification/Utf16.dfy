/** The code units a JavaScript string holds, so that strings sort as the source sorts them. */
module Utf16 {
  import opened TextOrder

  function UnitsOf(c: char): Text {
    var n := c as int;
    if n < 0x10000 then [n] else [0xD800 + (n - 0x10000) / 0x400, 0xDC00 + (n - 0x10000) % 0x400]
  }

  function Units(s: string): Text
    decreases |s|
  {
    if s == "" then [] else UnitsOf(s[0]) + Units(s[1..])
  }

  lemma {:induction false} UnitsOfApart(c: char, d: char, s: Text, t: Text)
    requires UnitsOf(c) + s == UnitsOf(d) + t
    ensures c == d && s == t
  {
    var left, right := UnitsOf(c) + s, UnitsOf(d) + t;
    assert left[0] == UnitsOf(c)[0] && right[0] == UnitsOf(d)[0];
    assert |UnitsOf(c)| == |UnitsOf(d)|;
    if |UnitsOf(c)| == 2 {
      assert left[1] == UnitsOf(c)[1] && right[1] == UnitsOf(d)[1];
    }
    assert c as int == d as int;
    assert s == left[|UnitsOf(c)|..] && t == right[|UnitsOf(d)|..];
  }

  /** Different strings have different code units. */
  lemma {:induction false} UnitsInjective(a: string, b: string)
    requires Units(a) == Units(b)
    ensures a == b
    decreases |a|
  {
    if a != "" && b != "" {
      UnitsOfApart(a[0], b[0], Units(a[1..]), Units(b[1..]));
      UnitsInjective(a[1..], b[1..]);
      assert a == [a[0]] + a[1..] && b == [b[0]] + b[1..];
    }
  }

  function Keyed(s: string): (Text, string) {
    (Units(s), s)
  }

  function KeyedAll(xs: seq<string>): (r: seq<(Text, string)>)
    ensures |r| == |xs| && forall i :: 0 <= i < |xs| ==> r[i] == Keyed(xs[i])
  {
    seq(|xs|, i requires 0 <= i < |xs| => Keyed(xs[i]))
  }

  function Plain(xs: seq<(Text, string)>): (r: seq<string>)
    ensures |r| == |xs| && forall i :: 0 <= i < |xs| ==> r[i] == xs[i].1
  {
    seq(|xs|, i requires 0 <= i < |xs| => xs[i].1)
  }

  /** The list without repetitions: first occurrences are kept, in order. */
  function Distinct(xs: seq<string>): seq<string>
    decreases |xs|
  {
    if xs == [] then []
    else
      var last := xs[|xs| - 1];
      var before := Distinct(xs[..|xs| - 1]);
      if last in before then before else before + [last]
  }

  lemma {:induction false} DistinctMembers(xs: seq<string>)
    ensures forall x :: x in Distinct(xs) <==> x in xs
    decreases |xs|
  {
    if xs != [] {
      DistinctMembers(xs[..|xs| - 1]);
      assert xs == xs[..|xs| - 1] + [xs[|xs| - 1]];
    }
  }

  lemma {:induction false} DistinctOnce(xs: seq<string>)
    ensures forall i, j :: 0 <= i < j < |Distinct(xs)| ==> Distinct(xs)[i] != Distinct(xs)[j]
    decreases |xs|
  {
    if xs != [] {
      DistinctOnce(xs[..|xs| - 1]);
    }
  }

  /** The distinct strings of a list, in code-unit order. */
  function SortedSet(xs: seq<string>): seq<string> {
    Plain(SortByKey(KeyedAll(Distinct(xs))))
  }

  ghost predicate StrictlySorted(xs: seq<string>) {
    forall i, j :: 0 <= i < j < |xs| ==> Less(Units(xs[i]), Units(xs[j]))
  }

  lemma {:induction false} KeyedDistinct(xs: seq<string>)
    requires forall i, j :: 0 <= i < j < |xs| ==> xs[i] != xs[j]
    ensures DistinctKeys(KeyedAll(xs))
  {
    forall i, j | 0 <= i < j < |xs| ensures Units(xs[i]) != Units(xs[j]) {
      if Units(xs[i]) == Units(xs[j]) {
        UnitsInjective(xs[i], xs[j]);
      }
    }
  }

  lemma {:induction false} SortedSetMember(xs: seq<string>, x: string)
    ensures x in SortedSet(xs) <==> x in xs
  {
    var keyed := KeyedAll(Distinct(xs));
    var sorted := SortByKey(keyed);
    DistinctMembers(xs);
    if x in SortedSet(xs) {
      var i :| 0 <= i < |sorted| && sorted[i].1 == x;
      SameElements(sorted, keyed, sorted[i]);
      var j :| 0 <= j < |keyed| && keyed[j] == sorted[i];
      assert Distinct(xs)[j] == x;
    }
    if x in xs {
      var j :| 0 <= j < |Distinct(xs)| && Distinct(xs)[j] == x;
      assert keyed[j] == Keyed(x);
      SameElements(sorted, keyed, Keyed(x));
      var i :| 0 <= i < |sorted| && sorted[i] == Keyed(x);
      assert Plain(sorted)[i] == x;
    }
  }

  lemma {:induction false} SortedSetSorted(xs: seq<string>)
    ensures StrictlySorted(SortedSet(xs))
  {
    var keyed := KeyedAll(Distinct(xs));
    var sorted := SortByKey(keyed);
    DistinctOnce(xs);
    KeyedDistinct(Distinct(xs));
    SortIncreasing(keyed);
    forall i | 0 <= i < |sorted| ensures sorted[i].0 == Units(sorted[i].1) {
      SameElements(sorted, keyed, sorted[i]);
    }
  }

  /** The sorted set depends only on which strings there are. */
  lemma {:induction false} SortedSetAgrees(xs: seq<string>, ys: seq<string>)
    requires forall x :: x in xs <==> x in ys
    ensures SortedSet(xs) == SortedSet(ys)
  {
    var a, b := KeyedAll(Distinct(xs)), KeyedAll(Distinct(ys));
    DistinctOnce(xs);
    DistinctOnce(ys);
    DistinctMembers(xs);
    DistinctMembers(ys);
    KeyedDistinct(Distinct(xs));
    KeyedDistinct(Distinct(ys));
    forall p ensures p in a <==> p in b {
      KeyedMember(Distinct(xs), p);
      KeyedMember(Distinct(ys), p);
    }
    SortDependsOnElements(a, b);
  }

  lemma {:induction false} KeyedMember(xs: seq<string>, p: (Text, string))
    ensures p in KeyedAll(xs) <==> p.1 in xs && p == Keyed(p.1)
  {
    if p.1 in xs && p == Keyed(p.1) {
      var i :| 0 <= i < |xs| && xs[i] == p.1;
      assert KeyedAll(xs)[i] == p;
    }
  }
}
