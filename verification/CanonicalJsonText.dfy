module CanonicalJsonText {
  /**
   * The very characters of canonical text: which escapes a quoted string holds, and the JSON grammar
   * with its literals and punctuation written out.
   */

  import opened Wrappers
  import opened TextOrder
  import opened CanonicalJson
  import opened CanonicalJsonForms
  import Utf16

  // ---------------------------------------------------------------------------
  // Quoted strings
  // ---------------------------------------------------------------------------

  /** Unit i is half of a surrogate pair. */
  predicate Paired(s: Text, i: nat)
    requires i < |s|
  {
    || (0xD800 <= s[i] <= 0xDBFF && i + 1 < |s| && 0xDC00 <= s[i + 1] <= 0xDFFF)
    || (0xDC00 <= s[i] <= 0xDFFF && i > 0 && 0xD800 <= s[i - 1] <= 0xDBFF)
  }

  /** A four-digit escape is due for the other controls and for lone surrogates. */
  predicate HexDue(s: Text, i: nat)
    requires i < |s|
  {
    var c := s[i];
    || (c < 32 && c != 8 && c != 9 && c != 10 && c != 12 && c != 13)
    || (0xD800 <= c <= 0xDFFF && !Paired(s, i))
  }

  /** The value of a lower-case hexadecimal digit, or 16. */
  function DigitValue(d: CodeUnit): nat {
    if 48 <= d <= 57 then d - 48 else if 97 <= d <= 102 then d - 87 else 16
  }

  /** A backslash, a small u, and the four lower-case digits of the unit. */
  predicate HexEscape(piece: Text, c: CodeUnit) {
    && |piece| == 6 && piece[0] == 92 && piece[1] == 117
    && DigitValue(piece[2]) < 16 && DigitValue(piece[3]) < 16 && DigitValue(piece[4]) < 16 && DigitValue(piece[5]) < 16
    && c == 4096 * DigitValue(piece[2]) + 256 * DigitValue(piece[3]) + 16 * DigitValue(piece[4]) + DigitValue(piece[5])
  }

  /** What unit i of a string is printed as. */
  predicate PieceAt(s: Text, i: nat, piece: Text) {
    && i < |s|
    && var c := s[i];
       if c == 34 then piece == [92, 34]
       else if c == 92 then piece == [92, 92]
       else if c == 8 then piece == [92, 98]
       else if c == 9 then piece == [92, 116]
       else if c == 10 then piece == [92, 110]
       else if c == 12 then piece == [92, 102]
       else if c == 13 then piece == [92, 114]
       else if HexDue(s, i) then HexEscape(piece, c)
       else piece == [c]
  }

  function Flatten(pieces: seq<Text>): Text
    decreases |pieces|
  {
    if pieces == [] then [] else pieces[0] + Flatten(pieces[1..])
  }

  /** A quotation mark, one piece for each unit of the string, a quotation mark. */
  ghost predicate IsQuoted(t: Text, s: Text) {
    exists pieces: seq<Text> ::
      && |pieces| == |s| && t == [34] + Flatten(pieces) + [34]
      && forall i: nat :: i < |s| ==> PieceAt(s, i, pieces[i])
  }

  /** No pair begins just before position k. */
  predicate Boundary(s: Text, k: nat) {
    k <= |s| && !(0 < k < |s| && 0xD800 <= s[k - 1] <= 0xDBFF && 0xDC00 <= s[k] <= 0xDFFF)
  }

  lemma {:induction false} Nibbles(c: CodeUnit)
    ensures c == 4096 * (c / 4096) + 256 * (c / 256 % 16) + 16 * (c / 16 % 16) + c % 16
  {
    assert c / 16 == 16 * (c / 256) + c / 16 % 16;
    assert c / 256 == 16 * (c / 4096) + c / 256 % 16;
  }

  lemma {:induction false} HexPiece(c: CodeUnit)
    ensures HexEscape([92, 117] + Hex4(c), c)
  {
    var h, i, j, k := c / 4096, c / 256 % 16, c / 16 % 16, c % 16;
    Nibbles(c);
    HexDigitValue(h);
    HexDigitValue(i);
    HexDigitValue(j);
    HexDigitValue(k);
    assert [92, 117] + Hex4(c) == [92, 117, HexDigit(h), HexDigit(i), HexDigit(j), HexDigit(k)];
  }

  lemma {:induction false} HexDigitValue(n: nat)
    requires n < 16
    ensures DigitValue(HexDigit(n)) == n
  {
  }

  lemma {:induction false} UnitPiece(s: Text, k: nat)
    requires k < |s| && Boundary(s, k)
    requires !(k + 1 < |s| && HighSurrogate(s[k]) && LowSurrogate(s[k + 1]))
    ensures PieceAt(s, k, QuoteUnit(s[k]))
  {
    HexPiece(s[k]);
  }

  /** The pieces are those of the units from position k on. */
  ghost predicate PiecesFrom(s: Text, k: nat, pieces: seq<Text>) {
    k + |pieces| <= |s| && forall j: nat :: j < |pieces| ==> PieceAt(s, k + j, pieces[j])
  }

  lemma {:induction false} Prepended(s: Text, k: nat, piece: Text, rest: seq<Text>) returns (pieces: seq<Text>)
    requires PieceAt(s, k, piece) && PiecesFrom(s, k + 1, rest)
    ensures PiecesFrom(s, k, pieces) && |pieces| == |rest| + 1 && Flatten(pieces) == piece + Flatten(rest)
  {
    pieces := [piece] + rest;
    assert pieces[1..] == rest;
    forall j: nat | j < |pieces| ensures PieceAt(s, k + j, pieces[j]) {
      if j > 0 {
        assert PieceAt(s, k + 1 + (j - 1), rest[j - 1]);
      }
    }
  }

  lemma {:induction false} BodyOfPair(s: Text, k: nat)
    requires k + 1 < |s| && HighSurrogate(s[k]) && LowSurrogate(s[k + 1])
    ensures QuoteBody(s[k..]) == [s[k]] + ([s[k + 1]] + QuoteBody(s[k + 2..]))
    ensures PieceAt(s, k, [s[k]]) && PieceAt(s, k + 1, [s[k + 1]]) && Boundary(s, k + 2)
  {
    assert s[k..][0] == s[k] && s[k..][1] == s[k + 1];
    var rest := QuoteBody(s[k + 2..]);
    assert s[k..][..2] == [s[k]] + [s[k + 1]] && s[k..][2..] == s[k + 2..];
    assert [s[k]] + [s[k + 1]] + rest == [s[k]] + ([s[k + 1]] + rest);
  }

  lemma {:induction false} BodyOfUnit(s: Text, k: nat)
    requires k < |s| && Boundary(s, k) && !(k + 1 < |s| && HighSurrogate(s[k]) && LowSurrogate(s[k + 1]))
    ensures QuoteBody(s[k..]) == QuoteUnit(s[k]) + QuoteBody(s[k + 1..])
    ensures PieceAt(s, k, QuoteUnit(s[k])) && Boundary(s, k + 1)
  {
    assert s[k..][0] == s[k] && s[k..][1..] == s[k + 1..];
    assert k + 1 < |s| ==> s[k..][1] == s[k + 1];
    UnitPiece(s, k);
  }

  /** From a position that splits no pair on, the printed body is made of the pieces of the units. */
  lemma {:induction false} BodyPieces(s: Text, k: nat) returns (pieces: seq<Text>)
    requires Boundary(s, k)
    ensures |pieces| == |s| - k && QuoteBody(s[k..]) == Flatten(pieces) && PiecesFrom(s, k, pieces)
    decreases |s| - k
  {
    if k == |s| {
      pieces := [];
    } else if k + 1 < |s| && HighSurrogate(s[k]) && LowSurrogate(s[k + 1]) {
      BodyOfPair(s, k);
      var rest := BodyPieces(s, k + 2);
      pieces := Prepended(s, k + 1, [s[k + 1]], rest);
      pieces := Prepended(s, k, [s[k]], pieces);
    } else {
      BodyOfUnit(s, k);
      var rest := BodyPieces(s, k + 1);
      pieces := Prepended(s, k, QuoteUnit(s[k]), rest);
    }
  }

  /**
   * A quoted string is made of pieces: the two-character escape exactly for quotation mark, backslash
   * and the five controls that have one, four lower-case digits exactly for the other controls and for
   * lone surrogates, and every other unit as it is.
   */
  lemma {:induction false} QuotePieces(s: Text)
    ensures IsQuoted(Quote(s), s)
  {
    var pieces := BodyPieces(s, 0);
    assert s[0..] == s;
    forall i: nat | i < |s| ensures PieceAt(s, i, pieces[i]) {
      assert PieceAt(s, 0 + i, pieces[i]);
    }
  }

  /** The unit needs no escape. */
  predicate Plain(s: Text, i: nat)
    requires i < |s|
  {
    s[i] != 34 && s[i] != 92 && s[i] >= 32 && (0xD800 <= s[i] <= 0xDFFF ==> Paired(s, i))
  }

  lemma {:induction false} PlainFlattens(s: Text, pieces: seq<Text>)
    requires |pieces| == |s| && forall i :: 0 <= i < |s| ==> pieces[i] == [s[i]]
    ensures Flatten(pieces) == s
    decreases |s|
  {
    if s != [] {
      PlainFlattens(s[1..], pieces[1..]);
      assert s == [s[0]] + s[1..];
    }
  }

  /** A string that needs no escape is printed unchanged between quotation marks, slashes included. */
  lemma {:induction false} PlainUnchanged(s: Text)
    requires forall i :: 0 <= i < |s| ==> Plain(s, i)
    ensures Quote(s) == [34] + s + [34]
  {
    QuotePieces(s);
    var pieces: seq<Text> :| |pieces| == |s| && Quote(s) == [34] + Flatten(pieces) + [34]
      && forall i: nat :: i < |s| ==> PieceAt(s, i, pieces[i]);
    forall i: nat | i < |s| ensures pieces[i] == [s[i]] {
      assert PieceAt(s, i, pieces[i]) && Plain(s, i);
    }
    PlainFlattens(s, pieces);
  }

  // ---------------------------------------------------------------------------
  // The grammar
  // ---------------------------------------------------------------------------

  /** The parts with a comma between neighbours. */
  function Separated(parts: seq<Text>): Text
    decreases |parts|
  {
    if parts == [] then []
    else if |parts| == 1 then parts[0]
    else parts[0] + [44] + Separated(parts[1..])
  }

  /** The positions of the members in key order. */
  ghost predicate KeyOrder(members: seq<(Text, Json)>, order: seq<nat>) {
    && |order| == |members|
    && (forall i :: 0 <= i < |order| ==> order[i] < |members|)
    && (forall i, j :: 0 <= i < j < |order| ==> order[i] != order[j])
    && forall i, j :: 0 <= i < j < |order| ==> Precedes(members[order[i]].0, members[order[j]].0)
  }

  /** A proper prefix, or smaller at the first difference. */
  ghost predicate Precedes(a: Text, b: Text) {
    exists k: nat :: DiffersAt(a, b, k)
  }

  /** A quoted key, a colon and a value. */
  ghost predicate IsMember(t: Text, member: (Text, Json))
    decreases member
  {
    exists key: Text, value: Text :: t == key + [58] + value && IsQuoted(key, member.0) && IsText(value, member.1)
  }

  /** The canonical text of a value: literals, brackets, commas and colons of JSON, and members in key order. */
  ghost predicate IsText(t: Text, v: Json)
    decreases v
  {
    match v
    case Null => t == Utf16.Units("null")
    case Bool(flag) => t == if flag then Utf16.Units("true") else Utf16.Units("false")
    case Number(token) => t == token
    case Str(text) => IsQuoted(t, text)
    case Array(items) =>
      exists parts: seq<Text> ::
        && |parts| == |items| && t == [91] + Separated(parts) + [93]
        && forall i :: 0 <= i < |items| ==> IsText(parts[i], items[i])
    case Object(members) =>
      exists order: seq<nat>, parts: seq<Text> ::
        && KeyOrder(members, order) && |parts| == |members| && t == [123] + Separated(parts) + [125]
        && forall i :: 0 <= i < |members| ==> IsMember(parts[i], members[order[i]])
    case NotJson => false
  }

  lemma {:induction false} SeparatedIsJoin(parts: seq<Text>)
    ensures Join(parts) == Separated(parts)
    decreases |parts|
  {
    if |parts| > 1 {
      SeparatedIsJoin(parts[1..]);
    }
  }

  lemma {:induction false} Literals()
    ensures NULL_TEXT == Utf16.Units("null")
    ensures TRUE_TEXT == Utf16.Units("true")
    ensures FALSE_TEXT == Utf16.Units("false")
  {
    UnitsOfFour("null");
    UnitsOfFour("true");
    assert "false"[1..] == "alse";
    UnitsOfFour("alse");
  }

  lemma {:induction false} UnitsOfFour(s: string)
    requires |s| == 4 && forall i :: 0 <= i < 4 ==> (s[i] as int) < 0x10000
    ensures Utf16.Units(s) == [s[0] as int, s[1] as int, s[2] as int, s[3] as int]
  {
    var a, b, c := s[1..], s[2..], s[3..];
    assert a[1..] == b && b[1..] == c && c[1..] == "";
    assert Utf16.Units(c) == [s[3] as int];
    assert Utf16.Units(b) == [s[2] as int] + Utf16.Units(c);
    assert Utf16.Units(a) == [s[1] as int] + Utf16.Units(b);
  }

  /** The position of a pair in a list that holds it. */
  ghost function Position<T>(xs: seq<T>, x: T): (k: nat)
    requires x in xs
    ensures k < |xs| && xs[k] == x
  {
    var k :| 0 <= k < |xs| && xs[k] == x;
    k
  }

  lemma {:induction false} SortedOrder(members: seq<(Text, Json)>, pairs: seq<(Text, Text)>) returns (order: seq<nat>)
    requires |pairs| == |members| && DistinctKeys(members) && forall i :: 0 <= i < |pairs| ==> pairs[i].0 == members[i].0
    ensures KeyOrder(members, order)
    ensures forall i :: 0 <= i < |order| ==> SortByKey(pairs)[i] == pairs[order[i]]
  {
    var sorted := SortByKey(pairs);
    forall i | 0 <= i < |sorted| ensures sorted[i] in pairs {
      SameElements(sorted, pairs, sorted[i]);
    }
    order := seq(|sorted|, i requires 0 <= i < |sorted| => Position(pairs, sorted[i]));
    SortIncreasing(pairs);
    forall i, j | 0 <= i < j < |order|
      ensures order[i] != order[j] && Precedes(members[order[i]].0, members[order[j]].0)
    {
      assert pairs[order[i]] == sorted[i] && pairs[order[j]] == sorted[j];
      LessIff(sorted[i].0, sorted[j].0);
      LessIrreflexive(sorted[i].0);
    }
  }

  lemma {:induction false} CanonicalMembersAt(members: seq<(Text, Json)>, i: nat)
    requires i < |members| && CanonicalMembers(members).Some?
    ensures |CanonicalMembers(members).value| == |members|
    ensures Canonical(members[i].1).Some?
    ensures CanonicalMembers(members).value[i] == (members[i].0, Canonical(members[i].1).value)
    decreases |members|
  {
    CanonicalMembersLength(members);
    assert CanonicalMember(members[0]) == Canonical(members[0].1);
    if i > 0 {
      CanonicalMembersAt(members[1..], i - 1);
    }
  }

  lemma {:induction false} CanonicalMembersLength(members: seq<(Text, Json)>)
    requires CanonicalMembers(members).Some?
    ensures |CanonicalMembers(members).value| == |members|
    decreases |members|
  {
    if members != [] {
      CanonicalMembersLength(members[1..]);
    }
  }

  lemma {:induction false} CanonicalItemsAt(items: seq<Json>, i: nat)
    requires i < |items| && CanonicalItems(items).Some?
    ensures |CanonicalItems(items).value| == |items|
    ensures Canonical(items[i]) == Some(CanonicalItems(items).value[i])
    decreases |items|
  {
    CanonicalItemsLength(items);
    if i > 0 {
      CanonicalItemsAt(items[1..], i - 1);
    }
  }

  lemma {:induction false} CanonicalItemsLength(items: seq<Json>)
    requires CanonicalItems(items).Some?
    ensures |CanonicalItems(items).value| == |items|
    decreases |items|
  {
    if items != [] {
      CanonicalItemsLength(items[1..]);
    }
  }

  lemma {:induction false} ArrayText(items: seq<Json>)
    requires Canonical(Array(items)).Some?
    requires forall i :: 0 <= i < |items| && Canonical(items[i]).Some? ==> IsText(Canonical(items[i]).value, items[i])
    ensures IsText(Canonical(Array(items)).value, Array(items))
  {
    var parts := CanonicalItems(items).value;
    CanonicalItemsLength(items);
    SeparatedIsJoin(parts);
    forall i | 0 <= i < |items| ensures IsText(parts[i], items[i]) {
      CanonicalItemsAt(items, i);
    }
  }

  lemma {:induction false} MemberText(member: (Text, Json), value: Text)
    requires IsText(value, member.1)
    ensures IsMember(Quote(member.0) + [58] + value, member)
  {
    QuotePieces(member.0);
  }

  lemma {:induction false} ObjectText(members: seq<(Text, Json)>)
    requires Canonical(Object(members)).Some? && DistinctKeys(members)
    requires forall i :: 0 <= i < |members| && Canonical(members[i].1).Some? ==> IsText(Canonical(members[i].1).value, members[i].1)
    ensures IsText(Canonical(Object(members)).value, Object(members))
  {
    var pairs := CanonicalMembers(members).value;
    CanonicalMembersLength(members);
    forall i | 0 <= i < |pairs| ensures pairs[i].0 == members[i].0 {
      CanonicalMembersAt(members, i);
    }
    var order := SortedOrder(members, pairs);
    var parts := Entries(SortByKey(pairs));
    SeparatedIsJoin(parts);
    forall i | 0 <= i < |members| ensures IsMember(parts[i], members[order[i]]) {
      CanonicalMembersAt(members, order[i]);
      MemberText(members[order[i]], pairs[order[i]].1);
    }
  }

  /** What is printed is the canonical text of the value. */
  lemma {:induction false} CanonicalIsText(v: Json)
    requires Valid(v)
    ensures Canonical(v).Some? && IsText(Canonical(v).value, v)
    decreases v, 1
  {
    CanonicalPrintsNormal(v);
    match v
    case Str(text) => QuotePieces(text);
    case Array(items) =>
      forall i | 0 <= i < |items| ensures Canonical(items[i]).Some? && IsText(Canonical(items[i]).value, items[i]) {
        CanonicalIsText(items[i]);
      }
      ArrayText(items);
    case Object(members) =>
      forall i | 0 <= i < |members| ensures Canonical(members[i].1).Some? && IsText(Canonical(members[i].1).value, members[i].1) {
        MemberIsText(members[i]);
      }
      ObjectText(members);
    case _ => Literals();
  }

  lemma {:induction false} MemberIsText(member: (Text, Json))
    requires Valid(member.1)
    ensures Canonical(member.1).Some? && IsText(Canonical(member.1).value, member.1)
    decreases member, 0
  {
    CanonicalIsText(member.1);
  }
}
