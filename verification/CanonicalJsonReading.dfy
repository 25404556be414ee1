/** The canonical JSON printer is undone by a parser: strings, numbers, arrays and objects read back. */
module CanonicalJsonReading {
  import opened Wrappers
  import opened TextOrder
  import opened CanonicalJson

  // ---------------------------------------------------------------------------
  // Strings
  // ---------------------------------------------------------------------------

  lemma {:induction false} Hex4RoundTrip(c: CodeUnit)
    ensures ParseHex4(Hex4(c)) == Some(c)
  {
    assert c == ((c / 4096 * 16 + c / 256 % 16) * 16 + c / 16 % 16) * 16 + c % 16;
  }

  lemma {:induction false} QuoteUnitRoundTrip(c: CodeUnit, rest: Text)
    ensures Unquote(QuoteUnit(c) + rest) == Prepend(c, Unquote(rest))
  {
    var t := QuoteUnit(c) + rest;
    if ShortEscape(c).Some? {
      assert t[2..] == rest;
    } else if c < 32 || Surrogate(c) {
      Hex4RoundTrip(c);
      assert t[2..6] == Hex4(c);
      assert t[6..] == rest;
    } else {
      assert t[1..] == rest;
    }
  }

  /** A surrogate pair is copied as it stands. */
  lemma {:induction false} PairRoundTrip(high: CodeUnit, low: CodeUnit, tail: Text)
    requires HighSurrogate(high) && LowSurrogate(low)
    ensures Unquote([high, low] + tail) == Prepend(high, Prepend(low, Unquote(tail)))
  {
    var t := [high, low] + tail;
    assert t[1..] == [low] + tail;
    assert ([low] + tail)[1..] == tail;
  }

  lemma {:induction false} Regrouped(a: Text, b: Text, rest: Text)
    ensures a + b + [QUOTE] + rest == a + (b + [QUOTE] + rest)
  {
  }

  /** String quoting loses nothing, lone surrogates included. */
  lemma {:induction false} QuoteRoundTrip(s: Text, rest: Text)
    ensures Unquote(QuoteBody(s) + [QUOTE] + rest) == Some((s, rest))
    decreases |s|
  {
    if s == [] {
      assert ([QUOTE] + rest)[1..] == rest;
      assert QuoteBody(s) + [QUOTE] + rest == [QUOTE] + rest;
    } else if |s| >= 2 && HighSurrogate(s[0]) && LowSurrogate(s[1]) {
      Regrouped(s[..2], QuoteBody(s[2..]), rest);
      assert s[..2] == [s[0], s[1]];
      PairRoundTrip(s[0], s[1], QuoteBody(s[2..]) + [QUOTE] + rest);
      QuoteRoundTrip(s[2..], rest);
      assert [s[0]] + ([s[1]] + s[2..]) == s;
    } else {
      Regrouped(QuoteUnit(s[0]), QuoteBody(s[1..]), rest);
      QuoteUnitRoundTrip(s[0], QuoteBody(s[1..]) + [QUOTE] + rest);
      QuoteRoundTrip(s[1..], rest);
      assert [s[0]] + s[1..] == s;
    }
  }

  lemma {:induction false} NumberLengthStops(token: Text, rest: Text)
    requires forall i :: 0 <= i < |token| ==> NumberUnit(token[i])
    requires rest == [] || !NumberUnit(rest[0])
    ensures NumberLength(token + rest) == |token|
    decreases |token|
  {
    if token == [] {
      assert token + rest == rest;
    } else {
      assert (token + rest)[1..] == token[1..] + rest;
      NumberLengthStops(token[1..], rest);
    }
  }

  // ---------------------------------------------------------------------------
  // Parsing undoes printing
  // ---------------------------------------------------------------------------

  /** A printed value is never empty and never starts like the end of a list. */
  lemma {:induction false} PrintStart(v: Json)
    requires Valid(v)
    ensures Print(v) != [] && Print(v)[0] != CLOSE_BRACKET && Print(v)[0] != CLOSE_BRACE
  {
  }

  lemma {:induction false} ParseLiterals(rest: Text)
    ensures ParseValue(NULL_TEXT + rest) == Some((Null, rest))
    ensures ParseValue(TRUE_TEXT + rest) == Some((Bool(true), rest))
    ensures ParseValue(FALSE_TEXT + rest) == Some((Bool(false), rest))
  {
    assert (NULL_TEXT + rest)[..4] == NULL_TEXT && (NULL_TEXT + rest)[4..] == rest;
    assert NULL_TEXT[0] == 110 && TRUE_TEXT[0] == 116 && FALSE_TEXT[0] == 102;
    assert (TRUE_TEXT + rest)[0] == 116 && (FALSE_TEXT + rest)[0] == 102;
    assert (TRUE_TEXT + rest)[..4] == TRUE_TEXT && (TRUE_TEXT + rest)[4..] == rest;
    assert (FALSE_TEXT + rest)[..5] == FALSE_TEXT && (FALSE_TEXT + rest)[5..] == rest;
  }

  lemma {:induction false} ParseString(text: Text, rest: Text)
    ensures ParseValue(Quote(text) + rest) == Some((Str(text), rest))
  {
    var t := Quote(text) + rest;
    assert t[0] == QUOTE && NULL_TEXT[0] == 110 && TRUE_TEXT[0] == 116 && FALSE_TEXT[0] == 102;
    assert t[1..] == QuoteBody(text) + [QUOTE] + rest;
    QuoteRoundTrip(text, rest);
  }

  lemma {:induction false} ParsePrint(v: Json, rest: Text)
    requires Valid(v)
    requires rest == [] || !NumberUnit(rest[0])
    ensures ParseValue(Print(v) + rest) == Some((v, rest))
    decreases v, 1
  {
    match v
    case Null => ParseLiterals(rest);
    case Bool(flag) => ParseLiterals(rest);
    case Number(token) =>
      NumberLengthStops(token, rest);
      var t := token + rest;
      assert t[..|token|] == token && t[|token|..] == rest;
    case Str(text) =>
      ParseString(text, rest);
    case Array(items) =>
      ParsePrintArray(items, rest);
    case Object(members) =>
      ParsePrintObject(members, rest);
  }

  /** One step of the parser at the start of a non-empty array. */
  lemma {:induction false} ParseArrayOpens(inner: Text, items: seq<Json>, rest: Text)
    requires inner != [] && inner[0] != CLOSE_BRACKET && ParseItems(inner) == Some((items, rest))
    ensures ParseValue([OPEN_BRACKET] + inner) == Some((Array(items), rest))
  {
    var t := [OPEN_BRACKET] + inner;
    assert t[1..] == inner && t[1] == inner[0];
    assert t[0] == OPEN_BRACKET && NULL_TEXT[0] == 110 && TRUE_TEXT[0] == 116 && FALSE_TEXT[0] == 102;
  }

  lemma {:induction false} ParseEmptyArray(rest: Text)
    ensures ParseValue([OPEN_BRACKET, CLOSE_BRACKET] + rest) == Some((Array([]), rest))
  {
    var t := [OPEN_BRACKET, CLOSE_BRACKET] + rest;
    assert t[2..] == rest;
    assert t[0] == OPEN_BRACKET && NULL_TEXT[0] == 110 && TRUE_TEXT[0] == 116 && FALSE_TEXT[0] == 102;
  }

  lemma {:induction false} Bracketed(open: CodeUnit, body: Text, close: CodeUnit, rest: Text)
    ensures [open] + body + [close] + rest == [open] + (body + [close] + rest)
    ensures body == [] ==> [open] + body + [close] + rest == [open, close] + rest
  {
  }

  lemma {:induction false} ParsePrintArray(items: seq<Json>, rest: Text)
    requires forall i :: 0 <= i < |items| ==> Valid(items[i])
    ensures ParseValue(Print(Array(items)) + rest) == Some((Array(items), rest))
    decreases items, 1
  {
    var body := Join(PrintItems(items));
    Bracketed(OPEN_BRACKET, body, CLOSE_BRACKET, rest);
    if items == [] {
      ParseEmptyArray(rest);
    } else {
      PrintStart(items[0]);
      JoinStart(PrintItems(items));
      assert (body + [CLOSE_BRACKET] + rest)[0] == Print(items[0])[0];
      ParsePrintItems(items, rest);
      ParseArrayOpens(body + [CLOSE_BRACKET] + rest, items, rest);
    }
  }

  lemma {:induction false} JoinStart(parts: seq<Text>)
    requires parts != [] && parts[0] != []
    ensures Join(parts) != [] && Join(parts)[0] == parts[0][0]
  {
  }

  lemma {:induction false} JoinMore(parts: seq<Text>, close: CodeUnit, rest: Text)
    requires |parts| >= 2
    ensures Join(parts) + [close] + rest == parts[0] + ([COMMA] + (Join(parts[1..]) + [close] + rest))
  {
  }

  lemma {:induction false} JoinOne(parts: seq<Text>, close: CodeUnit, rest: Text)
    requires |parts| == 1
    ensures Join(parts) + [close] + rest == parts[0] + ([close] + rest)
  {
  }

  /** One step of the parser inside an array. */
  lemma {:induction false} ParseLastItem(t: Text, v: Json, rest: Text)
    requires ParseValue(t) == Some((v, [CLOSE_BRACKET] + rest))
    ensures ParseItems(t) == Some(([v], rest))
  {
    assert ([CLOSE_BRACKET] + rest)[1..] == rest;
  }

  lemma {:induction false} ParseNextItem(t: Text, v: Json, tail: Text, items: seq<Json>, rest: Text)
    requires ParseValue(t) == Some((v, [COMMA] + tail)) && ParseItems(tail) == Some((items, rest))
    ensures ParseItems(t) == Some(([v] + items, rest))
  {
    assert ([COMMA] + tail)[1..] == tail;
  }

  lemma {:induction false} ParsePrintItems(items: seq<Json>, rest: Text)
    requires items != [] && forall i :: 0 <= i < |items| ==> Valid(items[i])
    ensures ParseItems(Join(PrintItems(items)) + [CLOSE_BRACKET] + rest) == Some((items, rest))
    decreases items, 0
  {
    var t := Join(PrintItems(items)) + [CLOSE_BRACKET] + rest;
    if |items| == 1 {
      JoinOne(PrintItems(items), CLOSE_BRACKET, rest);
      ParsePrint(items[0], [CLOSE_BRACKET] + rest);
      ParseLastItem(t, items[0], rest);
      assert items == [items[0]];
    } else {
      var tail := Join(PrintItems(items[1..])) + [CLOSE_BRACKET] + rest;
      assert PrintItems(items)[1..] == PrintItems(items[1..]);
      JoinMore(PrintItems(items), CLOSE_BRACKET, rest);
      ParsePrint(items[0], [COMMA] + tail);
      ParsePrintItems(items[1..], rest);
      ParseNextItem(t, items[0], tail, items[1..], rest);
      assert items == [items[0]] + items[1..];
    }
  }

  /** One step of the parser at the start of a non-empty object. */
  lemma {:induction false} ParseObjectOpens(inner: Text, members: seq<(Text, Json)>, rest: Text)
    requires inner != [] && inner[0] == QUOTE && ParseMembers(inner) == Some((members, rest))
    ensures ParseValue([OPEN_BRACE] + inner) == Some((Object(members), rest))
  {
    var t := [OPEN_BRACE] + inner;
    assert t[1..] == inner && t[1] == inner[0];
    assert t[0] == OPEN_BRACE && NULL_TEXT[0] == 110 && TRUE_TEXT[0] == 116 && FALSE_TEXT[0] == 102;
  }

  lemma {:induction false} ParseEmptyObject(rest: Text)
    ensures ParseValue([OPEN_BRACE, CLOSE_BRACE] + rest) == Some((Object([]), rest))
  {
    var t := [OPEN_BRACE, CLOSE_BRACE] + rest;
    assert t[2..] == rest;
    assert t[0] == OPEN_BRACE && NULL_TEXT[0] == 110 && TRUE_TEXT[0] == 116 && FALSE_TEXT[0] == 102;
  }

  lemma {:induction false} ParsePrintObject(members: seq<(Text, Json)>, rest: Text)
    requires forall i :: 0 <= i < |members| ==> Valid(members[i].1)
    ensures ParseValue(Print(Object(members)) + rest) == Some((Object(members), rest))
    decreases members, 1
  {
    var entries := Entries(PrintMembers(members));
    Bracketed(OPEN_BRACE, Join(entries), CLOSE_BRACE, rest);
    if members == [] {
      ParseEmptyObject(rest);
    } else {
      assert entries[0][0] == QUOTE;
      JoinStart(entries);
      ParsePrintMembers(members, rest);
      ParseObjectOpens(Join(entries) + [CLOSE_BRACE] + rest, members, rest);
    }
  }

  /** The text reads as one member followed by `after`. */
  ghost predicate ReadsMember(t: Text, member: (Text, Json), after: Text) {
    t != [] && t[0] == QUOTE
    && exists value: Text :: Unquote(t[1..]) == Some((member.0, [COLON] + value)) && ParseValue(value) == Some((member.1, after))
  }

  lemma {:induction false} MemberText(key: Text, value: Text, after: Text)
    ensures var t := Quote(key) + [COLON] + value + after;
      t != [] && t[0] == QUOTE && t[1..] == QuoteBody(key) + [QUOTE] + ([COLON] + (value + after))
  {
  }

  lemma {:induction false} MemberRead(t: Text, member: (Text, Json), value: Text, after: Text)
    requires t != [] && t[0] == QUOTE && Unquote(t[1..]) == Some((member.0, [COLON] + value))
    requires ParseValue(value) == Some((member.1, after))
    ensures ReadsMember(t, member, after)
  {
  }

  lemma {:induction false} ParsePrintMember(member: (Text, Json), after: Text)
    requires Valid(member.1)
    requires after == [] || !NumberUnit(after[0])
    ensures ReadsMember(Quote(member.0) + [COLON] + Print(member.1) + after, member, after)
    decreases member, 0
  {
    var value := Print(member.1) + after;
    MemberText(member.0, Print(member.1), after);
    QuoteRoundTrip(member.0, [COLON] + value);
    ParsePrint(member.1, after);
    MemberRead(Quote(member.0) + [COLON] + Print(member.1) + after, member, value, after);
  }

  /** One step of the parser inside an object. */
  lemma {:induction false} ParseLastMember(t: Text, member: (Text, Json), rest: Text)
    requires ReadsMember(t, member, [CLOSE_BRACE] + rest)
    ensures ParseMembers(t) == Some(([member], rest))
  {
    var value: Text :| Unquote(t[1..]) == Some((member.0, [COLON] + value))
      && ParseValue(value) == Some((member.1, [CLOSE_BRACE] + rest));
    assert ([COLON] + value)[1..] == value;
    assert ([CLOSE_BRACE] + rest)[1..] == rest;
  }

  lemma {:induction false} ParseNextMember(t: Text, member: (Text, Json), tail: Text, members: seq<(Text, Json)>, rest: Text)
    requires ReadsMember(t, member, [COMMA] + tail) && ParseMembers(tail) == Some((members, rest))
    ensures ParseMembers(t) == Some(([member] + members, rest))
  {
    var value: Text :| Unquote(t[1..]) == Some((member.0, [COLON] + value))
      && ParseValue(value) == Some((member.1, [COMMA] + tail));
    assert ([COLON] + value)[1..] == value;
    assert ([COMMA] + tail)[1..] == tail;
  }

  lemma {:induction false} FirstEntry(members: seq<(Text, Json)>)
    requires members != []
    ensures var entries := Entries(PrintMembers(members));
      |entries| == |members| && entries[0] == Quote(members[0].0) + [COLON] + Print(members[0].1)
      && entries[1..] == Entries(PrintMembers(members[1..]))
  {
  }

  lemma {:induction false} OneMemberText(members: seq<(Text, Json)>, rest: Text)
    requires |members| == 1
    ensures Join(Entries(PrintMembers(members))) + [CLOSE_BRACE] + rest
         == Quote(members[0].0) + [COLON] + Print(members[0].1) + ([CLOSE_BRACE] + rest)
  {
    FirstEntry(members);
    JoinOne(Entries(PrintMembers(members)), CLOSE_BRACE, rest);
  }

  lemma {:induction false} MoreMembersText(members: seq<(Text, Json)>, rest: Text)
    requires |members| >= 2
    ensures Join(Entries(PrintMembers(members))) + [CLOSE_BRACE] + rest
         == Quote(members[0].0) + [COLON] + Print(members[0].1)
            + ([COMMA] + (Join(Entries(PrintMembers(members[1..]))) + [CLOSE_BRACE] + rest))
  {
    FirstEntry(members);
    JoinMore(Entries(PrintMembers(members)), CLOSE_BRACE, rest);
  }

  lemma {:induction false} ParsePrintMembers(members: seq<(Text, Json)>, rest: Text)
    requires members != [] && forall i :: 0 <= i < |members| ==> Valid(members[i].1)
    ensures ParseMembers(Join(Entries(PrintMembers(members))) + [CLOSE_BRACE] + rest) == Some((members, rest))
    decreases members, 0
  {
    var t := Join(Entries(PrintMembers(members))) + [CLOSE_BRACE] + rest;
    if |members| == 1 {
      OneMemberText(members, rest);
      ParsePrintMember(members[0], [CLOSE_BRACE] + rest);
      ParseLastMember(t, members[0], rest);
      assert members == [members[0]];
    } else {
      var tail := Join(Entries(PrintMembers(members[1..]))) + [CLOSE_BRACE] + rest;
      MoreMembersText(members, rest);
      ParsePrintMember(members[0], [COMMA] + tail);
      ParsePrintMembers(members[1..], rest);
      ParseNextMember(t, members[0], tail, members[1..], rest);
      assert members == [members[0]] + members[1..];
    }
  }
}
