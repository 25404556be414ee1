/** Normal forms: the printer prints them, and they agree exactly on values equal up to key order. */
module CanonicalJsonForms {
  import opened Wrappers
  import opened TextOrder
  import opened CanonicalJson

  // ---------------------------------------------------------------------------
  // The printer prints normal forms
  // ---------------------------------------------------------------------------

  lemma {:induction false} ValidNormal(v: Json)
    requires Valid(v)
    ensures Valid(Normalize(v))
    decreases v
  {
    match v
    case Array(items) =>
      forall i | 0 <= i < |items| ensures Valid(NormalizeItems(items)[i]) {
        NormalizeItemsAt(items, i);
        ValidNormal(items[i]);
      }
    case Object(members) =>
      var normal := NormalizeMembers(members);
      var sorted := SortByKey(normal);
      assert DistinctKeys(normal);
      SortIncreasing(normal);
      forall i, j | 0 <= i < j < |sorted| ensures sorted[i].0 != sorted[j].0 {
        LessTotal(sorted[i].0, sorted[j].0);
      }
      forall i | 0 <= i < |sorted| ensures Valid(sorted[i].1) {
        SameElements(sorted, normal, sorted[i]);
        var k :| 0 <= k < |normal| && normal[k] == sorted[i];
        NormalizeMembersAt(members, k);
        ValidNormal(members[k].1);
      }
    case _ =>
  }

  lemma {:induction false} NormalizeItemsAt(items: seq<Json>, i: nat)
    requires i < |items|
    ensures NormalizeItems(items)[i] == Normalize(items[i])
    decreases |items|
  {
    if i > 0 {
      NormalizeItemsAt(items[1..], i - 1);
    }
  }

  lemma {:induction false} NormalizeMembersAt(members: seq<(Text, Json)>, i: nat)
    requires i < |members|
    ensures NormalizeMembers(members)[i] == (members[i].0, Normalize(members[i].1))
    decreases |members|
  {
    if i > 0 {
      NormalizeMembersAt(members[1..], i - 1);
    }
  }

  lemma {:induction false} PrintMembersAt(members: seq<(Text, Json)>, i: nat)
    requires i < |members|
    ensures PrintMembers(members)[i] == (members[i].0, Print(members[i].1))
    decreases |members|
  {
    if i > 0 {
      PrintMembersAt(members[1..], i - 1);
    }
  }

  /** On JSON values the printer prints exactly the normal form. */
  lemma {:induction false} CanonicalPrintsNormal(v: Json)
    requires Valid(v)
    ensures Canonical(v) == Some(Print(Normalize(v)))
    decreases v, 1
  {
    match v
    case Array(items) =>
      CanonicalItemsPrint(items);
    case Object(members) =>
      CanonicalMembersPrint(members);
      var normal := NormalizeMembers(members);
      var sorted := SortByKey(normal);
      var pairs := PrintMembers(normal);
      var printer := (x: Json) => Print(x);
      forall i | 0 <= i < |normal| ensures pairs[i] == (normal[i].0, printer(normal[i].1)) {
        PrintMembersAt(normal, i);
      }
      SortCommutes(normal, pairs, printer);
      forall i | 0 <= i < |sorted| ensures PrintMembers(sorted)[i] == SortByKey(pairs)[i] {
        PrintMembersAt(sorted, i);
      }
      assert PrintMembers(sorted) == SortByKey(pairs);
    case _ =>
  }

  lemma {:induction false} CanonicalItemsPrint(items: seq<Json>)
    requires forall i :: 0 <= i < |items| ==> Valid(items[i])
    ensures CanonicalItems(items) == Some(PrintItems(NormalizeItems(items)))
    decreases items, 0
  {
    if items != [] {
      CanonicalPrintsNormal(items[0]);
      CanonicalItemsPrint(items[1..]);
    }
  }

  lemma {:induction false} CanonicalMemberPrints(member: (Text, Json))
    requires Valid(member.1)
    ensures CanonicalMember(member) == Some(Print(Normalize(member.1)))
    decreases member, 0
  {
    CanonicalPrintsNormal(member.1);
  }

  lemma {:induction false} CanonicalMembersPrint(members: seq<(Text, Json)>)
    requires forall i :: 0 <= i < |members| ==> Valid(members[i].1)
    ensures CanonicalMembers(members) == Some(PrintMembers(NormalizeMembers(members)))
    decreases members, 0
  {
    if members != [] {
      CanonicalMemberPrints(members[0]);
      CanonicalMembersPrint(members[1..]);
    }
  }

  // ---------------------------------------------------------------------------
  // Normal forms agree exactly on values equal up to key order
  // ---------------------------------------------------------------------------

  ghost function Keys<T>(xs: seq<(Text, T)>): set<Text> {
    set i | 0 <= i < |xs| :: xs[i].0
  }

  lemma {:induction false} KeyCount<T>(xs: seq<(Text, T)>)
    requires DistinctKeys(xs)
    ensures |Keys(xs)| == |xs|
    decreases |xs|
  {
    if xs == [] {
      assert Keys(xs) == {};
    } else {
      KeyCount(xs[1..]);
      forall k | k in Keys(xs) && k != xs[0].0 ensures k in Keys(xs[1..]) {
        var i :| 0 <= i < |xs| && xs[i].0 == k;
        assert xs[1..][i - 1].0 == k;
      }
      assert Keys(xs) == Keys(xs[1..]) + {xs[0].0};
    }
  }

  lemma {:induction false} SubsetOfSameSize(a: set<Text>, b: set<Text>)
    requires a <= b && |a| == |b|
    ensures a == b
  {
    assert |b - a| == |b| - |a|;
  }

  /** If every member of one object occurs in another of the same size, each occurs in the other. */
  lemma {:induction false} Covering<T>(xs: seq<(Text, T)>, ys: seq<(Text, T)>)
    requires DistinctKeys(xs) && DistinctKeys(ys) && |xs| == |ys|
    requires forall x :: x in xs ==> x in ys
    ensures forall x :: x in xs <==> x in ys
  {
    KeyCount(xs);
    KeyCount(ys);
    forall k | k in Keys(xs) ensures k in Keys(ys) {
      var i :| 0 <= i < |xs| && xs[i].0 == k;
      assert xs[i] in ys;
    }
    SubsetOfSameSize(Keys(xs), Keys(ys));
    forall y | y in ys ensures y in xs {
      assert y.0 in Keys(xs);
      var i :| 0 <= i < |xs| && xs[i].0 == y.0;
      assert xs[i] in ys;
    }
  }

  lemma {:induction false} SameNormal(a: Json, b: Json)
    requires Valid(a) && Valid(b) && Same(a, b)
    ensures Normalize(a) == Normalize(b)
    decreases a
  {
    match a
    case Array(items) =>
      forall i | 0 <= i < |items| ensures NormalizeItems(items)[i] == NormalizeItems(b.items)[i] {
        NormalizeItemsAt(items, i);
        NormalizeItemsAt(b.items, i);
        SameNormal(items[i], b.items[i]);
      }
      assert NormalizeItems(items) == NormalizeItems(b.items);
    case Object(members) =>
      var xs, ys := NormalizeMembers(members), NormalizeMembers(b.members);
      forall x | x in xs ensures x in ys {
        var i :| 0 <= i < |xs| && xs[i] == x;
        NormalizeMembersAt(members, i);
        assert HasPartner(members[i], b.members);
        var j :| 0 <= j < |b.members| && b.members[j].0 == members[i].0 && Same(members[i].1, b.members[j].1);
        NormalizeMembersAt(b.members, j);
        SameNormal(members[i].1, b.members[j].1);
        assert ys[j] == x;
      }
      Covering(xs, ys);
      SortDependsOnElements(xs, ys);
    case _ =>
  }

  lemma {:induction false} NormalPartner(xs: seq<(Text, Json)>, ys: seq<(Text, Json)>, i: nat) returns (j: nat)
    requires i < |xs| && SortByKey(NormalizeMembers(xs)) == SortByKey(NormalizeMembers(ys))
    ensures j < |ys| && ys[j].0 == xs[i].0 && Normalize(ys[j].1) == Normalize(xs[i].1)
  {
    var normal, normal' := NormalizeMembers(xs), NormalizeMembers(ys);
    assert multiset(normal) == multiset(normal');
    SameElements(normal, normal', normal[i]);
    j :| 0 <= j < |normal'| && normal'[j] == normal[i];
    NormalizeMembersAt(xs, i);
    NormalizeMembersAt(ys, j);
  }

  lemma {:induction false} NormalSame(a: Json, b: Json)
    requires Valid(a) && Valid(b) && Normalize(a) == Normalize(b)
    ensures Same(a, b)
    decreases a, 2
  {
    NormalShapes(a, b);
    if a.Array? {
      NormalSameArray(a, b);
    } else if a.Object? {
      NormalSameObject(a, b);
    }
  }

  /** The top of the normal form is the top of the value. */
  ghost predicate SameShape(a: Json, b: Json) {
    match a
    case Array(items) => b.Array? && |items| == |b.items| && NormalizeItems(items) == NormalizeItems(b.items)
    case Object(members) =>
      b.Object? && |members| == |b.members| && SortByKey(NormalizeMembers(members)) == SortByKey(NormalizeMembers(b.members))
    case _ => a == b
  }

  lemma {:induction false} NormalShapes(a: Json, b: Json)
    requires Normalize(a) == Normalize(b)
    ensures SameShape(a, b)
  {
    if a.Object? {
      assert |SortByKey(NormalizeMembers(a.members))| == |a.members|;
      assert b.Object? ==> |SortByKey(NormalizeMembers(b.members))| == |b.members|;
    }
  }

  lemma {:induction false} NormalSameArray(a: Json, b: Json)
    requires Valid(a) && Valid(b) && a.Array? && SameShape(a, b)
    ensures Same(a, b)
    decreases a, 1
  {
    forall i | 0 <= i < |a.items| ensures Same(a.items[i], b.items[i]) {
      NormalizeItemsAt(a.items, i);
      NormalizeItemsAt(b.items, i);
      NormalSame(a.items[i], b.items[i]);
    }
  }

  lemma {:induction false} NormalSameObject(a: Json, b: Json)
    requires Valid(a) && Valid(b) && a.Object? && SameShape(a, b)
    ensures Same(a, b)
    decreases a, 1
  {
    forall i | 0 <= i < |a.members| ensures HasPartner(a.members[i], b.members) {
      NormalSameMember(a, b, i);
    }
  }

  lemma {:induction false} NormalSameMember(a: Json, b: Json, i: nat)
    requires a.Object? && b.Object? && Valid(a) && Valid(b) && i < |a.members|
    requires SortByKey(NormalizeMembers(a.members)) == SortByKey(NormalizeMembers(b.members))
    ensures HasPartner(a.members[i], b.members)
    decreases a, 0
  {
    var j := NormalPartner(a.members, b.members, i);
    NormalSame(a.members[i].1, b.members[j].1);
  }
}
