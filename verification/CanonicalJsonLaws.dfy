module CanonicalJsonLaws {
  /**
   * Equal canonical text means equal values up to key order, and conversely: the printer is
   * undone by a parser, and its sorting depends only on which members there are.
   */

  import opened Wrappers
  import opened TextOrder
  import opened CanonicalJson
  import opened CanonicalJsonReading
  import opened CanonicalJsonForms

  /** Parsing canonical text gives back the value, with its members in key order. */
  lemma {:induction false} ParseCanonical(v: Json)
    requires Valid(v)
    ensures Canonical(v).Some?
    ensures Parse(Canonical(v).value) == Some(Normalize(v))
    ensures Same(v, Normalize(v))
  {
    CanonicalPrintsNormal(v);
    ValidNormal(v);
    ParsePrint(Normalize(v), []);
    assert Print(Normalize(v)) + [] == Print(Normalize(v));
    NormalizeIdempotent(v);
    NormalSame(v, Normalize(v));
  }

  lemma {:induction false} NormalizeIdempotent(v: Json)
    requires Valid(v)
    ensures Normalize(Normalize(v)) == Normalize(v)
    decreases v
  {
    match v
    case Array(items) =>
      var once := NormalizeItems(items);
      forall i | 0 <= i < |items| ensures NormalizeItems(once)[i] == once[i] {
        NormalizeItemsAt(items, i);
        NormalizeItemsAt(once, i);
        NormalizeIdempotent(items[i]);
      }
      assert NormalizeItems(once) == once;
    case Object(members) =>
      var normal := NormalizeMembers(members);
      var once := SortByKey(normal);
      ValidNormal(v);
      forall i | 0 <= i < |once| ensures NormalizeMembers(once)[i] == once[i] {
        NormalizeMembersAt(once, i);
        SameElements(once, normal, once[i]);
        var k :| 0 <= k < |normal| && normal[k] == once[i];
        NormalizeMembersAt(members, k);
        NormalizeIdempotent(members[k].1);
      }
      assert NormalizeMembers(once) == once;
      forall x ensures x in once <==> x in normal {
        SameElements(once, normal, x);
      }
      SortDependsOnElements(once, normal);
    case _ =>
  }

  /** Printing what canonical text parses to gives the same text again. */
  lemma {:induction false} CanonicalIsFixed(v: Json)
    requires Valid(v)
    ensures Canonical(v).Some? && Parse(Canonical(v).value).Some?
    ensures Canonical(Parse(Canonical(v).value).value) == Canonical(v)
  {
    ParseCanonical(v);
    CanonicalPrintsNormal(v);
    ValidNormal(v);
    CanonicalPrintsNormal(Normalize(v));
    NormalizeIdempotent(v);
  }

  /** Canonical text is equal exactly when the values are equal up to object key order. */
  lemma {:induction false} CanonicalInjective(a: Json, b: Json)
    requires Valid(a) && Valid(b)
    ensures Canonical(a) == Canonical(b) <==> Same(a, b)
  {
    CanonicalPrintsNormal(a);
    CanonicalPrintsNormal(b);
    if Same(a, b) {
      SameNormal(a, b);
    }
    if Canonical(a) == Canonical(b) {
      ParseCanonical(a);
      ParseCanonical(b);
      NormalSame(a, b);
    }
  }

  /** The printer answers for every value except those with a part that is not JSON. */
  ghost predicate HasNotJson(v: Json)
    decreases v
  {
    match v
    case NotJson => true
    case Array(items) => exists i :: 0 <= i < |items| && HasNotJson(items[i])
    case Object(members) => exists i :: 0 <= i < |members| && HasNotJson(members[i].1)
    case _ => false
  }

  lemma {:induction false} CanonicalRefusesIff(v: Json)
    ensures Canonical(v).None? <==> HasNotJson(v)
    decreases v, 1
  {
    match v
    case Array(items) => CanonicalItemsRefuse(items);
    case Object(members) => CanonicalMembersRefuse(members);
    case _ =>
  }

  lemma {:induction false} CanonicalItemsRefuse(items: seq<Json>)
    ensures CanonicalItems(items).None? <==> exists i :: 0 <= i < |items| && HasNotJson(items[i])
    decreases items, 0
  {
    if items != [] {
      CanonicalRefusesIff(items[0]);
      CanonicalItemsRefuse(items[1..]);
      assert forall i :: 0 < i < |items| ==> items[i] == items[1..][i - 1];
    }
  }

  lemma {:induction false} CanonicalMemberRefuses(member: (Text, Json))
    ensures CanonicalMember(member).None? <==> HasNotJson(member.1)
    decreases member, 0
  {
    CanonicalRefusesIff(member.1);
  }

  lemma {:induction false} CanonicalMembersRefuse(members: seq<(Text, Json)>)
    ensures CanonicalMembers(members).None? <==> exists i :: 0 <= i < |members| && HasNotJson(members[i].1)
    decreases members, 0
  {
    if members != [] {
      CanonicalMemberRefuses(members[0]);
      CanonicalMembersRefuse(members[1..]);
      assert forall i :: 0 < i < |members| ==> members[i] == members[1..][i - 1];
    }
  }

  /** The action printer agrees with the parity printer wherever it answers. */
  lemma {:induction false} ActionAgrees(v: Json)
    ensures CanonicalAction(v).Some? ==> CanonicalAction(v) == Canonical(v)
    decreases v, 1
  {
    match v
    case Array(items) => ActionItemsAgree(items);
    case Object(members) => ActionMembersAgree(members);
    case _ =>
  }

  lemma {:induction false} ActionItemsAgree(items: seq<Json>)
    ensures CanonicalActionItems(items).Some? ==> CanonicalActionItems(items) == CanonicalItems(items)
    decreases items, 0
  {
    if items != [] {
      ActionAgrees(items[0]);
      ActionItemsAgree(items[1..]);
    }
  }

  lemma {:induction false} ActionMemberAgrees(member: (Text, Json))
    ensures CanonicalActionMember(member).Some? ==> CanonicalActionMember(member) == CanonicalMember(member)
    decreases member, 0
  {
    ActionAgrees(member.1);
  }

  lemma {:induction false} ActionMembersAgree(members: seq<(Text, Json)>)
    ensures CanonicalActionMembers(members).Some? ==> CanonicalActionMembers(members) == CanonicalMembers(members)
    decreases members, 0
  {
    if members != [] {
      ActionMemberAgrees(members[0]);
      ActionMembersAgree(members[1..]);
    }
  }

  /** Some string value, at whatever depth, holds a surrogate; keys may. */
  ghost predicate HasSurrogate(v: Json)
    decreases v
  {
    match v
    case Str(text) => exists i :: 0 <= i < |text| && 0xD800 <= text[i] <= 0xDFFF
    case Array(items) => exists i :: 0 <= i < |items| && HasSurrogate(items[i])
    case Object(members) => exists i :: 0 <= i < |members| && HasSurrogate(members[i].1)
    case _ => false
  }

  /** The action printer refuses what the parity printer refuses, and every surrogate in a string value. */
  lemma {:induction false} ActionRefusesIff(v: Json)
    ensures CanonicalAction(v).None? <==> HasNotJson(v) || HasSurrogate(v)
    decreases v, 1
  {
    match v
    case Array(items) => ActionItemsRefuse(items);
    case Object(members) => ActionMembersRefuse(members);
    case _ =>
  }

  lemma {:induction false} ActionItemsRefuse(items: seq<Json>)
    ensures CanonicalActionItems(items).None? <==>
      exists i :: 0 <= i < |items| && (HasNotJson(items[i]) || HasSurrogate(items[i]))
    decreases items, 0
  {
    if items != [] {
      ActionRefusesIff(items[0]);
      ActionItemsRefuse(items[1..]);
      assert forall i :: 0 < i < |items| ==> items[i] == items[1..][i - 1];
    }
  }

  lemma {:induction false} ActionMemberRefuses(member: (Text, Json))
    ensures CanonicalActionMember(member).None? <==> HasNotJson(member.1) || HasSurrogate(member.1)
    decreases member, 0
  {
    ActionRefusesIff(member.1);
  }

  lemma {:induction false} ActionMembersRefuse(members: seq<(Text, Json)>)
    ensures CanonicalActionMembers(members).None? <==>
      exists i :: 0 <= i < |members| && (HasNotJson(members[i].1) || HasSurrogate(members[i].1))
    decreases members, 0
  {
    if members != [] {
      ActionMemberRefuses(members[0]);
      ActionMembersRefuse(members[1..]);
      assert forall i :: 0 < i < |members| ==> members[i] == members[1..][i - 1];
    }
  }

  /** A confirmation digest binds the whole intent: equal digested text means equal requests up to key order. */
  lemma {:induction false} ActionTextBindsIntent(a: Json, b: Json)
    requires Valid(a) && Valid(b)
    requires CanonicalAction(a).Some? && CanonicalAction(b).Some?
    ensures CanonicalAction(a) == CanonicalAction(b) <==> Same(a, b)
  {
    ActionAgrees(a);
    ActionAgrees(b);
    CanonicalInjective(a, b);
  }
}
